/**
 * pkg/validator: the allowed-status set, the HTTP client built from the
 * configuration, and the decision whether an external link is available.
 * The HTTP GET itself is a parameter: it either fails at the transport level
 * or yields a response with a status code.
 */
module Validator {

  /** time.Second, in nanoseconds (time.Duration's unit). */
  const Second: int := 1_000_000_000

  /** LinksValidatorConfig: the allowed status codes and the request timeout in nanoseconds. */
  datatype LinksValidatorConfig = LinksValidatorConfig(AllowedStatuses: set<int>, Timeout: int)

  /** The part of http.Client the validator sets. */
  datatype Client = Client(Timeout: int)

  /** What one GET request gives: a transport error, or a response. */
  datatype FetchOutcome = TransportError | Response(StatusCode: int)

  /** The network: GET `url` with the given client timeout. */
  type Fetcher = (string, int) -> FetchOutcome

  /** The set built by inserting the codes one after another, in order. */
  function StatusSet(statuses: seq<int>): set<int>
  {
    if statuses == [] then {}
    else StatusSet(statuses[..|statuses| - 1]) + {statuses[|statuses| - 1]}
  }

  /** A code is in the prepared set exactly when it is one of the arguments. */
  lemma {:induction false} StatusSetMembers(statuses: seq<int>)
    ensures forall c :: c in StatusSet(statuses) <==> c in statuses
  {
    if statuses != [] {
      var init := statuses[..|statuses| - 1];
      StatusSetMembers(init);
      assert statuses == init + [statuses[|statuses| - 1]];
    }
  }

  /** Argument order and repetition do not change the prepared set. */
  lemma StatusSetIgnoresOrder(a: seq<int>, b: seq<int>)
    requires forall c :: c in a <==> c in b
    ensures StatusSet(a) == StatusSet(b)
  {
    StatusSetMembers(a);
    StatusSetMembers(b);
    forall c
      ensures c in StatusSet(a) <==> c in StatusSet(b)
    {
      assert c in a <==> c in b;
    }
  }

  /** PrepareAllowedStatuses: inserts every argument into a fresh set. */
  method PrepareAllowedStatuses(statuses: seq<int>) returns (prepared: set<int>)
    ensures prepared == StatusSet(statuses)
    ensures forall c :: c in prepared <==> c in statuses
  {
    prepared := {};
    for i := 0 to |statuses|
      invariant prepared == StatusSet(statuses[..i])
    {
      assert statuses[..i + 1][..i] == statuses[..i];
      prepared := prepared + {statuses[i]};
    }
    assert statuses[..|statuses|] == statuses;
    StatusSetMembers(statuses);
  }

  /** GetClient: a client whose timeout is the configured one. */
  function GetClient(config: LinksValidatorConfig): (client: Client)
    ensures client.Timeout == config.Timeout
  {
    Client(config.Timeout)
  }

  /**
   * CheckLink: GET the URL with the client; a transport error means the link
   * is unavailable, a response means it is available exactly when its status
   * code is allowed.
   */
  function CheckLink(url: string, client: Client, config: LinksValidatorConfig, fetch: Fetcher): (ok: bool)
    ensures fetch(url, client.Timeout).TransportError? ==> !ok
    ensures ok <==> fetch(url, client.Timeout).Response? && fetch(url, client.Timeout).StatusCode in config.AllowedStatuses
  {
    match fetch(url, client.Timeout)
    case TransportError => false
    case Response(code) => code in config.AllowedStatuses
  }

  /**
   * With a set made by PrepareAllowedStatuses, a link is available exactly when
   * the server answered with one of the listed codes.
   */
  lemma CheckLinkWithPrepared(url: string, client: Client, codes: seq<int>, timeout: int, fetch: Fetcher)
    ensures CheckLink(url, client, LinksValidatorConfig(StatusSet(codes), timeout), fetch)
        <==> fetch(url, client.Timeout).Response? && fetch(url, client.Timeout).StatusCode in codes
  {
    StatusSetMembers(codes);
  }
}
