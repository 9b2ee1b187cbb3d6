/**
 * internal/config: turning the command-line values into the validator's and
 * the logger's configuration. Where the program logs an invalid status code
 * and exits, the model returns an error instead.
 */
module Config {
  import opened Results
  import opened GoStrings
  import Validator

  // ---------------------------------------------------------------- logger

  /** The four slog levels the program can select. */
  datatype Level = LevelDebug | LevelInfo | LevelWarn | LevelError

  /** logger.LoggerConfig. */
  datatype LoggerConfig = LoggerConfig(OutputToFile: bool, FilePath: string, Level: Level, UseJSON: bool)

  /** A word made of lower-case ASCII letters only. */
  predicate IsLowerWord(word: string)
  {
    forall k :: 0 <= k < |word| ==> 'a' <= word[k] <= 'z'
  }

  /** `s` spells `word` letter by letter, each letter in either case. */
  predicate SpelledIgnoringCase(s: string, word: string)
  {
    |s| == |word| &&
    forall k :: 0 <= k < |s| ==> s[k] == word[k] || s[k] as int == word[k] as int - 32
  }

  /** Lower-casing `s` gives a lower-case word exactly when `s` spells it in any case. */
  lemma ToLowerMatches(s: string, word: string)
    requires IsLowerWord(word)
    ensures ToLower(s) == word <==> SpelledIgnoringCase(s, word)
  {
    if SpelledIgnoringCase(s, word) {
      assert forall k :: 0 <= k < |s| ==> ToLower(s)[k] == word[k];
    }
  }

  /**
   * ParseLoggerConfig: a log file given means output to that file; the level
   * is chosen by its name in any letter case, and every other name means info.
   */
  function ParseLoggerConfig(logFile: string, logLevel: string, useJSON: bool): (cfg: LoggerConfig)
    ensures cfg.OutputToFile <==> logFile != ""
    ensures cfg.FilePath == logFile
    ensures cfg.UseJSON == useJSON
    ensures cfg.Level == LevelDebug <==> SpelledIgnoringCase(logLevel, "debug")
    ensures cfg.Level == LevelWarn <==> SpelledIgnoringCase(logLevel, "warn")
    ensures cfg.Level == LevelError <==> SpelledIgnoringCase(logLevel, "error")
    ensures cfg.Level == LevelInfo <==>
      !SpelledIgnoringCase(logLevel, "debug") && !SpelledIgnoringCase(logLevel, "warn") &&
      !SpelledIgnoringCase(logLevel, "error")
  {
    ToLowerMatches(logLevel, "debug");
    ToLowerMatches(logLevel, "warn");
    ToLowerMatches(logLevel, "error");
    var lower := ToLower(logLevel);
    var level :=
      if lower == "debug" then LevelDebug
      else if lower == "warn" then LevelWarn
      else if lower == "error" then LevelError
      else LevelInfo;
    LoggerConfig(logFile != "", logFile, level, useJSON)
  }

  // ---------------------------------------------------------------- validator

  /** The status entry that could not be read, untrimmed, and why. */
  datatype ConfigError = InvalidStatusCode(code: string, reason: NumError)

  /** An entry of the status list is accepted when its trimmed text is an integer. */
  predicate EntryParses(entry: string)
  {
    Atoi(TrimSpace(entry)).Ok?
  }

  /** The integer an accepted entry spells. */
  function EntryValue(entry: string): int
    requires EntryParses(entry)
  {
    Atoi(TrimSpace(entry)).value
  }

  /** The set of values of a list of entries, or None when some entry is not an integer. */
  function EntriesSet(entries: seq<string>): Option<set<int>>
  {
    if forall e :: e in entries ==> EntryParses(e) then
      Some(set e | e in entries :: EntryValue(e))
    else None
  }

  /** The allowed set a status string denotes, or None when some entry is not an integer. */
  function StatusSetOf(statusStr: string): Option<set<int>>
  {
    EntriesSet(Split(statusStr, ','))
  }

  /** EntriesSet depends only on which entries occur, not on their order or number. */
  lemma EntriesSetSameEntries(e1: seq<string>, e2: seq<string>)
    requires forall e :: e in e1 <==> e in e2
    ensures EntriesSet(e1) == EntriesSet(e2)
  {
    if forall e :: e in e1 ==> EntryParses(e) {
      assert forall e :: e in e2 ==> EntryParses(e);
      var set1 := set e | e in e1 :: EntryValue(e);
      var set2 := set e | e in e2 :: EntryValue(e);
      forall c
        ensures c in set1 <==> c in set2
      {
        if c in set1 {
          var e :| e in e1 && EntryValue(e) == c;
          assert e in e2;
        }
        if c in set2 {
          var e :| e in e2 && EntryValue(e) == c;
          assert e in e1;
        }
      }
      assert set1 == set2;
    } else {
      var bad :| bad in e1 && !EntryParses(bad);
      assert bad in e2;
    }
  }

  /** One entry that is not an integer rejects the whole list. */
  lemma EntriesSetRejects(entries: seq<string>, j: int)
    requires 0 <= j < |entries| && !EntryParses(entries[j])
    ensures EntriesSet(entries) == None
  {
    assert entries[j] in entries;
  }

  /** A rejected entry makes the whole status string denote no set. */
  lemma StatusSetOfRejects(statusStr: string, err: ConfigError)
    requires exists j :: IsFirstRejected(Split(statusStr, ','), j, err)
    ensures StatusSetOf(statusStr) == None
  {
    var j :| IsFirstRejected(Split(statusStr, ','), j, err);
    EntriesSetRejects(Split(statusStr, ','), j);
  }

  /** When the entries spell `values`, the status string denotes the set PrepareAllowedStatuses builds. */
  lemma StatusSetOfParsed(statusStr: string, values: seq<int>)
    requires |values| == |Split(statusStr, ',')|
    requires forall k :: 0 <= k < |values| ==> Atoi(TrimSpace(Split(statusStr, ',')[k])) == Ok(values[k])
    ensures StatusSetOf(statusStr) == Some(Validator.StatusSet(values))
  {
    var entries := Split(statusStr, ',');
    EntriesSetValues(entries, values);
    Validator.StatusSetMembers(values);
    var allowed := EntriesSet(entries).value;
    forall c
      ensures c in allowed <==> c in Validator.StatusSet(values)
    {
    }
    assert allowed == Validator.StatusSet(values);
  }

  /** When every entry spells the matching value, the set is the set of values. */
  lemma EntriesSetValues(entries: seq<string>, values: seq<int>)
    requires |values| == |entries|
    requires forall k :: 0 <= k < |values| ==> Atoi(TrimSpace(entries[k])) == Ok(values[k])
    ensures EntriesSet(entries).Some?
    ensures forall c :: c in EntriesSet(entries).value <==> c in values
  {
    forall e | e in entries
      ensures EntryParses(e)
    {
      var k :| 0 <= k < |entries| && entries[k] == e;
    }
    var allowed := set e | e in entries :: EntryValue(e);
    forall c
      ensures c in allowed <==> c in values
    {
      if c in allowed {
        var e :| e in entries && EntryValue(e) == c;
        var k :| 0 <= k < |entries| && entries[k] == e;
        assert values[k] == c;
      }
      if c in values {
        var k :| 0 <= k < |values| && values[k] == c;
        assert entries[k] in entries;
      }
    }
  }

  /** Entry `j` is the first entry that is not an integer, and `err` reports it. */
  predicate IsFirstRejected(entries: seq<string>, j: int, err: ConfigError)
  {
    0 <= j < |entries| && entries[j] == err.code &&
    Atoi(TrimSpace(entries[j])) == Err(err.reason) &&
    forall k :: 0 <= k < j ==> EntryParses(entries[k])
  }

  /** The timeout flag's seconds as a time.Duration, with int64 wrap-around. */
  function TimeoutDuration(seconds: int): (d: int)
    ensures MinInt64 <= d <= MaxInt64
    ensures (seconds * Validator.Second - d) % TwoTo64 == 0
  {
    WrapInt64Congruent(seconds * Validator.Second);
    WrapInt64(seconds * Validator.Second)
  }

  /** Accepting the next entry extends the prefix of entries read so far. */
  lemma SpelledPrefixGrows(entries: seq<string>, values: seq<int>, v: int)
    requires |values| < |entries|
    requires forall k :: 0 <= k < |values| ==> Atoi(TrimSpace(entries[k])) == Ok(values[k])
    requires Atoi(TrimSpace(entries[|values|])) == Ok(v)
    ensures forall k :: 0 <= k < |values| + 1 ==> Atoi(TrimSpace(entries[k])) == Ok((values + [v])[k])
  {
  }

  /**
   * The loop of ParseValidatorConfig: reads the entries of `statusStr` in
   * order, stopping at the first one that is not an integer.
   */
  method ParseStatusList(statusStr: string) returns (r: Result<seq<int>, ConfigError>)
    ensures r.Ok? ==> |r.value| == |Split(statusStr, ',')|
    ensures r.Ok? ==> forall k :: 0 <= k < |r.value| ==> Atoi(TrimSpace(Split(statusStr, ',')[k])) == Ok(r.value[k])
    ensures r.Err? ==> exists j :: IsFirstRejected(Split(statusStr, ','), j, r.error)
  {
    var statuses := Split(statusStr, ',');
    var allowedStatuses: seq<int> := [];
    var i := 0;
    while i < |statuses|
      invariant 0 <= i <= |statuses|
      invariant |allowedStatuses| == i
      invariant forall k :: 0 <= k < i ==> Atoi(TrimSpace(statuses[k])) == Ok(allowedStatuses[k])
    {
      var status := Atoi(TrimSpace(statuses[i]));
      if status.Err? {
        r := Err(InvalidStatusCode(statuses[i], status.error));
        assert IsFirstRejected(statuses, i, r.error);
        return;
      }
      SpelledPrefixGrows(statuses, allowedStatuses, status.value);
      allowedStatuses := allowedStatuses + [status.value];
      i := i + 1;
    }
    r := Ok(allowedStatuses);
  }

  /**
   * ParseValidatorConfig: every comma-separated entry of `statusStr`, trimmed,
   * must be an integer, and the allowed set is exactly those integers; the
   * first entry that is not an integer is reported and no configuration is
   * produced. The timeout is `timeout` seconds.
   */
  method ParseValidatorConfig(timeout: int, statusStr: string)
    returns (r: Result<Validator.LinksValidatorConfig, ConfigError>)
    requires MinInt64 <= timeout <= MaxInt64
    ensures r.Ok? <==> StatusSetOf(statusStr).Some?
    ensures r.Ok? ==> r.value.AllowedStatuses == StatusSetOf(statusStr).value
    ensures r.Ok? ==> r.value.Timeout == TimeoutDuration(timeout)
    ensures r.Err? ==> exists j :: IsFirstRejected(Split(statusStr, ','), j, r.error)
  {
    var statuses := ParseStatusList(statusStr);
    if statuses.Err? {
      StatusSetOfRejects(statusStr, statuses.error);
      return Err(statuses.error);
    }
    StatusSetOfParsed(statusStr, statuses.value);
    var allowed := Validator.PrepareAllowedStatuses(statuses.value);
    r := Ok(Validator.LinksValidatorConfig(allowed, TimeoutDuration(timeout)));
  }

  // ---------------------------------------------------------------- properties

  /** An accepted status string allows exactly the integers its entries spell. */
  lemma StatusSetOfMembers(statusStr: string, c: int)
    requires StatusSetOf(statusStr).Some?
    ensures c in StatusSetOf(statusStr).value <==>
      exists e :: e in Split(statusStr, ',') && Atoi(TrimSpace(e)) == Ok(c)
  {
  }

  /** Swapping two parts of the status list does not change the allowed set. */
  lemma StatusSetOfSwap(a: string, b: string)
    ensures StatusSetOf(a + "," + b) == StatusSetOf(b + "," + a)
  {
    assert a + "," + b == a + [','] + b && b + "," + a == b + [','] + a;
    SplitAppend(a, b, ',');
    SplitAppend(b, a, ',');
    EntriesSetSameEntries(Split(a + "," + b, ','), Split(b + "," + a, ','));
  }

  /** Repeating the status list does not change the allowed set. */
  lemma StatusSetOfDuplicate(a: string)
    ensures StatusSetOf(a + "," + a) == StatusSetOf(a)
  {
    assert a + "," + a == a + [','] + a;
    SplitAppend(a, a, ',');
    EntriesSetSameEntries(Split(a + "," + a, ','), Split(a, ','));
  }

  /** The empty status string is rejected: its single entry is empty. */
  lemma EmptyStatusStringRejected()
    ensures StatusSetOf("") == None
  {
    assert Split("", ',') == [""];
    assert TrimSpace("") == "";
    assert !EntryParses("");
  }

  /** An empty entry between two commas is rejected, whatever surrounds it. */
  lemma EmptyEntryRejected(a: string, b: string)
    ensures StatusSetOf(a + ",," + b) == None
  {
    assert a + ",," + b == a + [','] + ("," + b);
    assert "," + b == [] + [','] + b;
    SplitAppend(a, "," + b, ',');
    SplitAppend([], b, ',');
    var entries := Split(a + ",," + b, ',');
    assert entries == Split(a, ',') + [""] + Split(b, ',');
    assert entries[|Split(a, ',')|] == "";
    assert TrimSpace("") == "";
    assert !EntryParses("");
  }

  /**
   * An entry whose trimmed text is not a signed run of digits rejects the
   * list, whether it comes first, last or in between.
   */
  lemma NonNumericEntryRejected(statusStr: string, j: int)
    requires 0 <= j < |Split(statusStr, ',')|
    requires !IsDecimalLiteral(TrimSpace(Split(statusStr, ',')[j]))
    ensures StatusSetOf(statusStr) == None
  {
    AtoiOutcome(TrimSpace(Split(statusStr, ',')[j]));
    EntriesSetRejects(Split(statusStr, ','), j);
  }

  /** Within range the timeout is exactly `timeout` seconds. */
  lemma TimeoutIsSeconds(timeout: int)
    requires -9_223_372_036 <= timeout <= 9_223_372_036
    ensures TimeoutDuration(timeout) == timeout * Validator.Second
  {
    WrapInt64Congruent(timeout * Validator.Second);
  }

  /** Beyond that range time.Duration overflows: 9223372037 seconds wrap to a negative duration. */
  lemma TimeoutOverflows()
    ensures TimeoutDuration(9_223_372_037) == 9_223_372_037 * Validator.Second - TwoTo64
    ensures TimeoutDuration(9_223_372_037) < 0
  {
  }
}
