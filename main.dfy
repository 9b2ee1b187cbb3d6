/**
 * cmd/marktuator: checking every extracted link and reporting the
 * unavailable ones.
 *
 * checkLinks starts one goroutine per link; each sends its result on a
 * channel buffered for all of them, and after all have finished the channel
 * is drained in arrival order. The goroutines' completion order is not
 * determined by the program, so the model lets it be any order: each step
 * completes one still-pending link of the verifier's choosing.
 */
module Marktuator {
  import Md
  import Validator

  /** CheckResult: a link and whether it is available. */
  datatype CheckResult = CheckResult(link: Md.Link, ok: bool)

  /** md.CheckRelativeLink: decides a relative link from its URL, its file and all files read. */
  type RelativeChecker = (string, string, map<string, Md.Bytes>) -> bool

  /** What every goroutine of one checkLinks call shares. */
  datatype Context = Context(
    client: Validator.Client,
    cfg: Validator.LinksValidatorConfig,
    files: map<string, Md.Bytes>,
    relative: RelativeChecker,
    fetch: Validator.Fetcher)

  /**
   * One goroutine's verdict: a relative link is checked against the files
   * read, any other by an HTTP request whose status must be allowed.
   */
  function CheckOne(l: Md.Link, ctx: Context): (ok: bool)
    ensures l.IsRelative ==> ok == ctx.relative(l.URL, l.File, ctx.files)
    ensures !l.IsRelative ==>
      (ok <==> ctx.fetch(l.URL, ctx.client.Timeout).Response?
               && ctx.fetch(l.URL, ctx.client.Timeout).StatusCode in ctx.cfg.AllowedStatuses)
  {
    if l.IsRelative then ctx.relative(l.URL, l.File, ctx.files)
    else Validator.CheckLink(l.URL, ctx.client, ctx.cfg, ctx.fetch)
  }

  /** `a` holds exactly the elements of `b`, each as often, in some order. */
  predicate Rearranges<T(==)>(a: seq<T>, b: seq<T>)
  {
    multiset(a) == multiset(b)
  }

  /** The result each link of `links` gets, in the order of `links`. */
  function Checked(links: seq<Md.Link>, ctx: Context): seq<CheckResult>
  {
    if links == [] then []
    else Checked(links[..|links| - 1], ctx) + [CheckResult(links[|links| - 1], CheckOne(links[|links| - 1], ctx))]
  }

  /** The links of the failed results, in the order of `results`. */
  function Unavailable(results: seq<CheckResult>): seq<Md.Link>
  {
    if results == [] then []
    else
      var last := results[|results| - 1];
      Unavailable(results[..|results| - 1]) + (if last.ok then [] else [last.link])
  }

  /** The links of `links` that fail their check, in order. */
  function Failing(links: seq<Md.Link>, ctx: Context): seq<Md.Link>
  {
    if links == [] then []
    else
      var last := links[|links| - 1];
      Failing(links[..|links| - 1], ctx) + (if CheckOne(last, ctx) then [] else [last])
  }

  lemma {:induction false} CheckedAppend(a: seq<Md.Link>, b: seq<Md.Link>, ctx: Context)
    ensures Checked(a + b, ctx) == Checked(a, ctx) + Checked(b, ctx)
  {
    if b == [] {
      assert a + b == a;
    } else {
      var init := b[..|b| - 1];
      CheckedAppend(a, init, ctx);
      assert (a + b)[..|a + b| - 1] == a + init;
      assert (a + b)[|a + b| - 1] == b[|b| - 1];
    }
  }

  /** Each link gets exactly its own verdict. */
  lemma {:induction false} CheckedShape(links: seq<Md.Link>, ctx: Context)
    ensures |Checked(links, ctx)| == |links|
    ensures forall k :: 0 <= k < |links| ==> Checked(links, ctx)[k] == CheckResult(links[k], CheckOne(links[k], ctx))
  {
    if links != [] {
      CheckedShape(links[..|links| - 1], ctx);
    }
  }

  /** Every result pairs an input link with that link's own verdict. */
  lemma {:induction false} CheckedVerdicts(links: seq<Md.Link>, ctx: Context)
    ensures forall r :: r in Checked(links, ctx) ==> r.link in links && r.ok == CheckOne(r.link, ctx)
  {
    if links != [] {
      CheckedVerdicts(links[..|links| - 1], ctx);
    }
  }

  /** The links the results carry, in the order of `results`. */
  function LinksOf(results: seq<CheckResult>): seq<Md.Link>
  {
    if results == [] then [] else LinksOf(results[..|results| - 1]) + [results[|results| - 1].link]
  }

  lemma {:induction false} LinksOfCount(results: seq<CheckResult>, l: Md.Link)
    ensures multiset(LinksOf(results))[l] == multiset(results)[CheckResult(l, true)] + multiset(results)[CheckResult(l, false)]
  {
    if results != [] {
      var init := results[..|results| - 1];
      LinksOfCount(init, l);
      assert results == init + [results[|results| - 1]];
    }
  }

  lemma {:induction false} LinksOfChecked(links: seq<Md.Link>, ctx: Context)
    ensures LinksOf(Checked(links, ctx)) == links
  {
    if links != [] {
      LinksOfChecked(links[..|links| - 1], ctx);
    }
  }

  /**
   * Results that are some arrangement of the checked links carry every input
   * link exactly as often as the input holds it: none lost, none duplicated.
   */
  lemma ResultLinksPermutation(results: seq<CheckResult>, links: seq<Md.Link>, ctx: Context)
    requires multiset(results) == multiset(Checked(links, ctx))
    ensures multiset(LinksOf(results)) == multiset(links)
  {
    LinksOfChecked(links, ctx);
    forall l
      ensures multiset(LinksOf(results))[l] == multiset(links)[l]
    {
      LinksOfCount(results, l);
      LinksOfCount(Checked(links, ctx), l);
    }
  }

  /** A link is reported as often as a failed result for it was received. */
  lemma {:induction false} UnavailableCount(results: seq<CheckResult>, l: Md.Link)
    ensures multiset(Unavailable(results))[l] == multiset(results)[CheckResult(l, false)]
  {
    if results != [] {
      var init := results[..|results| - 1];
      UnavailableCount(init, l);
      assert results == init + [results[|results| - 1]];
    }
  }

  /** The report depends only on which results arrived, not on their order. */
  lemma UnavailablePermutation(a: seq<CheckResult>, b: seq<CheckResult>)
    requires multiset(a) == multiset(b)
    ensures multiset(Unavailable(a)) == multiset(Unavailable(b))
  {
    forall l
      ensures multiset(Unavailable(a))[l] == multiset(Unavailable(b))[l]
    {
      UnavailableCount(a, l);
      UnavailableCount(b, l);
    }
  }

  /** Reporting the failures of the checked links in input order gives the failing links. */
  lemma {:induction false} UnavailableChecked(links: seq<Md.Link>, ctx: Context)
    ensures Unavailable(Checked(links, ctx)) == Failing(links, ctx)
  {
    if links != [] {
      UnavailableChecked(links[..|links| - 1], ctx);
    }
  }

  /**
   * Whatever order the goroutines finish in, the links reported unavailable
   * are exactly the failing links, each as often as it occurs in the input.
   */
  lemma ReportIsFailingLinks(results: seq<CheckResult>, links: seq<Md.Link>, ctx: Context)
    requires multiset(results) == multiset(Checked(links, ctx))
    ensures multiset(Unavailable(results)) == multiset(Failing(links, ctx))
  {
    UnavailablePermutation(results, Checked(links, ctx));
    UnavailableChecked(links, ctx);
  }

  /**
   * checkLinks: every link is checked once, with its own verdict; the results
   * arrive in some order and are returned in that order, and the links of the
   * failed ones are reported in that same order.
   */
  method CheckLinks(linksList: seq<Md.Link>, client: Validator.Client, cfg: Validator.LinksValidatorConfig,
                    files: map<string, Md.Bytes>, relative: RelativeChecker, fetch: Validator.Fetcher)
    returns (results: seq<CheckResult>, unavailable: seq<Md.Link>)
    ensures Rearranges(results, Checked(linksList, Context(client, cfg, files, relative, fetch)))
    ensures |results| == |linksList|
    ensures Rearranges(LinksOf(results), linksList)
    ensures forall r :: r in results ==> r.link in linksList && r.ok == CheckOne(r.link, Context(client, cfg, files, relative, fetch))
    ensures unavailable == Unavailable(results)
    ensures Rearranges(unavailable, Failing(linksList, Context(client, cfg, files, relative, fetch)))
  {
    var ctx := Context(client, cfg, files, relative, fetch);

    // The goroutines: each pending link completes at some point and sends its result.
    var channel: seq<CheckResult> := [];
    var pending := linksList;
    while pending != []
      invariant multiset(channel) + multiset(Checked(pending, ctx)) == multiset(Checked(linksList, ctx))
      decreases |pending|
    {
      var k :| 0 <= k < |pending|;
      var l := pending[k];
      var result := CheckInGoroutine(l, client, cfg, files, relative, fetch);
      channel := channel + [result];
      ghost var before := pending;
      pending := pending[..k] + pending[k + 1..];
      PendingStep(before, k, ctx);
    }

    var drained, failed := DrainChannel(channel);
    ArrivedResults(drained, linksList, ctx);
    results := drained;
    unavailable := failed;
  }

  /** What any arrival order of the checked links' results guarantees. */
  lemma ArrivedResults(results: seq<CheckResult>, links: seq<Md.Link>, ctx: Context)
    requires multiset(results) == multiset(Checked(links, ctx))
    ensures |results| == |links|
    ensures multiset(LinksOf(results)) == multiset(links)
    ensures forall r :: r in results ==> r.link in links && r.ok == CheckOne(r.link, ctx)
    ensures multiset(Unavailable(results)) == multiset(Failing(links, ctx))
  {
    CheckedShape(links, ctx);
    CheckedVerdicts(links, ctx);
    assert forall r :: r in results ==> r in multiset(Checked(links, ctx));
    assert |results| == |links| by {
      assert |multiset(results)| == |multiset(Checked(links, ctx))|;
    }
    ReportIsFailingLinks(results, links, ctx);
    ResultLinksPermutation(results, links, ctx);
  }

  /**
   * Ranging over the closed channel: every result is kept, in arrival order,
   * and the link of each failed one is reported as it comes.
   */
  method DrainChannel(channel: seq<CheckResult>) returns (results: seq<CheckResult>, unavailable: seq<Md.Link>)
    ensures results == channel
    ensures unavailable == Unavailable(channel)
  {
    results := [];
    unavailable := [];
    for i := 0 to |channel|
      invariant results == channel[..i]
      invariant unavailable == Unavailable(channel[..i])
    {
      assert channel[..i + 1][..i] == channel[..i];
      if !channel[i].ok {
        unavailable := unavailable + [channel[i].link];
      }
      results := results + [channel[i]];
    }
    assert channel[..|channel|] == channel;
  }

  /** The body of one goroutine: dispatch on IsRelative and build the result to send. */
  method CheckInGoroutine(
    l: Md.Link,
    client: Validator.Client,
    cfg: Validator.LinksValidatorConfig,
    files: map<string, Md.Bytes>,
    relative: RelativeChecker,
    fetch: Validator.Fetcher
  ) returns (result: CheckResult)
    ensures result.link == l
    ensures result.ok == CheckOne(l, Context(client, cfg, files, relative, fetch))
  {
    var ok: bool;
    if l.IsRelative {
      ok := relative(l.URL, l.File, files);
    } else {
      ok := Validator.CheckLink(l.URL, client, cfg, fetch);
    }
    result := CheckResult(l, ok);
  }

  /** Completing the k-th pending link moves its result from the pending ones to the channel. */
  lemma PendingStep(pending: seq<Md.Link>, k: int, ctx: Context)
    requires 0 <= k < |pending|
    ensures multiset(Checked(pending, ctx))
      == multiset(Checked(pending[..k] + pending[k + 1..], ctx)) + multiset{CheckResult(pending[k], CheckOne(pending[k], ctx))}
  {
    assert pending == pending[..k] + [pending[k]] + pending[k + 1..];
    CheckedAppend(pending[..k] + [pending[k]], pending[k + 1..], ctx);
    CheckedAppend(pending[..k], [pending[k]], ctx);
    CheckedAppend(pending[..k], pending[k + 1..], ctx);
    assert Checked([pending[k]], ctx) == [CheckResult(pending[k], CheckOne(pending[k], ctx))];
  }
}
