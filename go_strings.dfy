/**
 * The parts of Go's `strings` and `strconv` packages, and of its 64-bit
 * integer arithmetic, that the configuration parser relies on. `Join` and
 * `Itoa` are not called by the program: they are the inverses of `Split`
 * and `Atoi` that the round-trip lemmas use.
 */
module GoStrings {
  import opened Results

  const MinInt64: int := -0x8000_0000_0000_0000
  const MaxInt64: int := 0x7FFF_FFFF_FFFF_FFFF
  const TwoTo64: int := 0x1_0000_0000_0000_0000

  /** Go's int64 arithmetic: the exact result wrapped into two's-complement range. */
  function WrapInt64(x: int): (r: int)
    ensures MinInt64 <= r <= MaxInt64
  {
    (x + 0x8000_0000_0000_0000) % 0x1_0000_0000_0000_0000 - 0x8000_0000_0000_0000
  }

  /** Wrapping changes a value by a multiple of 2^64, and not at all within range. */
  lemma WrapInt64Congruent(x: int)
    ensures (x - WrapInt64(x)) % TwoTo64 == 0
    ensures MinInt64 <= x <= MaxInt64 ==> WrapInt64(x) == x
  {
    var q := (x - MinInt64) / TwoTo64;
    assert x - WrapInt64(x) == TwoTo64 * q;
  }

  // ---------------------------------------------------------------- Split

  /** The number of occurrences of `c` in `s`. */
  function Count(s: string, c: char): nat
  {
    if s == [] then 0 else (if s[0] == c then 1 else 0) + Count(s[1..], c)
  }

  /** strings.Split(s, string(sep)) for a one-character separator. */
  function Split(s: string, sep: char): (pieces: seq<string>)
    ensures |pieces| == Count(s, sep) + 1
  {
    if s == [] then [""]
    else
      var rest := Split(s[1..], sep);
      if s[0] == sep then [""] + rest
      else [[s[0]] + rest[0]] + rest[1..]
  }

  /** strings.Join: the pieces with `sep` between neighbours. */
  function Join(pieces: seq<string>, sep: char): string
  {
    if pieces == [] then ""
    else if |pieces| == 1 then pieces[0]
    else pieces[0] + [sep] + Join(pieces[1..], sep)
  }

  /** Prepending to the first piece prepends to the joined string. */
  lemma JoinPrepend(x: string, pieces: seq<string>, sep: char)
    requires |pieces| >= 1
    ensures Join([x + pieces[0]] + pieces[1..], sep) == x + Join(pieces, sep)
  {
    var ps := [x + pieces[0]] + pieces[1..];
    if |pieces| > 1 {
      assert ps[1..] == pieces[1..];
    }
  }

  /** Joining the pieces of a split gives back the original string. */
  lemma {:induction false} JoinSplit(s: string, sep: char)
    ensures Join(Split(s, sep), sep) == s
  {
    if s != [] {
      var rest := Split(s[1..], sep);
      JoinSplit(s[1..], sep);
      assert s == [s[0]] + s[1..];
      if s[0] == sep {
        assert ([""] + rest)[1..] == rest;
      } else {
        JoinPrepend([s[0]], rest, sep);
      }
    }
  }

  /** No piece of a split contains the separator. */
  lemma {:induction false} SplitPiecesSeparatorFree(s: string, sep: char)
    ensures forall p :: p in Split(s, sep) ==> sep !in p
  {
    if s != [] {
      SplitPiecesSeparatorFree(s[1..], sep);
      var rest := Split(s[1..], sep);
      if s[0] != sep {
        assert sep !in rest[0];
        assert forall p :: p in rest[1..] ==> p in rest;
      }
    }
  }

  /** Splitting a joined list of separator-free pieces gives back the pieces. */
  lemma {:induction false} SplitJoin(pieces: seq<string>, sep: char)
    requires |pieces| >= 1
    requires forall p :: p in pieces ==> sep !in p
    ensures Split(Join(pieces, sep), sep) == pieces
  {
    if |pieces| == 1 {
      SplitSeparatorFree(pieces[0], sep);
    } else {
      var rest := pieces[1..];
      assert forall p :: p in rest ==> p in pieces;
      var joined := Join(rest, sep);
      SplitJoin(rest, sep);
      assert Join(pieces, sep) == pieces[0] + [sep] + joined;
      SplitAppend(pieces[0], joined, sep);
      SplitSeparatorFree(pieces[0], sep);
      assert pieces == [pieces[0]] + rest;
    }
  }

  /** A string without the separator splits into itself alone. */
  lemma {:induction false} SplitSeparatorFree(s: string, sep: char)
    requires sep !in s
    ensures Split(s, sep) == [s]
  {
    if s != [] {
      SplitSeparatorFree(s[1..], sep);
      assert s == [s[0]] + s[1..];
    }
  }

  /** A separator in the middle splits the string into the pieces of either side. */
  lemma {:induction false} SplitAppend(a: string, b: string, sep: char)
    ensures Split(a + [sep] + b, sep) == Split(a, sep) + Split(b, sep)
  {
    var s := a + [sep] + b;
    var rb := Split(b, sep);
    if a == [] {
      assert s[0] == sep && s[1..] == b;
    } else {
      assert s[0] == a[0] && s[1..] == a[1..] + [sep] + b;
      SplitAppend(a[1..], b, sep);
      var ra := Split(a[1..], sep);
      assert Split(s[1..], sep) == ra + rb;
      if a[0] != sep {
        assert (ra + rb)[0] == ra[0];
        assert (ra + rb)[1..] == ra[1..] + rb;
      }
    }
  }

  // ---------------------------------------------------------------- TrimSpace

  /** The ASCII white space strings.TrimSpace removes: tab, LF, VT, FF, CR and space. */
  predicate IsSpace(c: char)
  {
    c == ' ' || c == '\t' || c == '\n' || c == '\U{000B}' || c == '\U{000C}' || c == '\r'
  }

  predicate AllSpace(s: string)
  {
    forall k :: 0 <= k < |s| ==> IsSpace(s[k])
  }

  /** The number of white-space characters at the front of `s`. */
  function LeadingSpaces(s: string): (n: nat)
    ensures n <= |s|
    ensures AllSpace(s) ==> n == |s|
  {
    if s != [] && IsSpace(s[0]) then 1 + LeadingSpaces(s[1..]) else 0
  }

  /** LeadingSpaces counts a maximal white-space prefix. */
  lemma {:induction false} LeadingSpacesMaximal(s: string)
    ensures AllSpace(s[..LeadingSpaces(s)])
    ensures LeadingSpaces(s) < |s| ==> !IsSpace(s[LeadingSpaces(s)])
  {
    if s != [] && IsSpace(s[0]) {
      LeadingSpacesMaximal(s[1..]);
      var n := LeadingSpaces(s);
      assert s[..n] == [s[0]] + s[1..][..n - 1];
    }
  }

  /** The number of white-space characters at the end of `s`. */
  function TrailingSpaces(s: string): (n: nat)
    ensures n <= |s|
  {
    if s != [] && IsSpace(s[|s| - 1]) then 1 + TrailingSpaces(s[..|s| - 1]) else 0
  }

  /** TrailingSpaces counts a maximal white-space suffix. */
  lemma {:induction false} TrailingSpacesMaximal(s: string)
    ensures AllSpace(s[|s| - TrailingSpaces(s)..])
    ensures TrailingSpaces(s) < |s| ==> !IsSpace(s[|s| - 1 - TrailingSpaces(s)])
  {
    if s != [] && IsSpace(s[|s| - 1]) {
      var init := s[..|s| - 1];
      TrailingSpacesMaximal(init);
      var n := TrailingSpaces(s);
      assert s[|s| - n..] == init[|init| - (n - 1)..] + [s[|s| - 1]];
    }
  }

  /**
   * strings.TrimSpace restricted to ASCII white space: `s` with every leading
   * and trailing white-space character removed.
   */
  function TrimSpace(s: string): (r: string)
    ensures |r| <= |s|
    ensures AllSpace(s) ==> r == ""
    ensures s != [] && !IsSpace(s[0]) && !IsSpace(s[|s| - 1]) ==> r == s
  {
    var t := s[LeadingSpaces(s)..];
    t[..|t| - TrailingSpaces(t)]
  }

  /** What TrimSpace leaves neither starts nor ends with white space. */
  lemma TrimSpaceEnds(s: string)
    ensures var r := TrimSpace(s);
      r == "" || (!IsSpace(r[0]) && !IsSpace(r[|r| - 1]))
  {
    var n := LeadingSpaces(s);
    var t := s[n..];
    var m := TrailingSpaces(t);
    var r := t[..|t| - m];
    assert TrimSpace(s) == r;
    LeadingSpacesMaximal(s);
    TrailingSpacesMaximal(t);
    assert r != "" ==> r[0] == s[n] && r[|r| - 1] == t[|t| - 1 - m];
  }

  /**
   * TrimSpace removes exactly a white-space prefix and a white-space suffix,
   * and what is left neither starts nor ends with white space.
   */
  lemma TrimSpaceShape(s: string)
    ensures var r := TrimSpace(s);
      (r == "" || (!IsSpace(r[0]) && !IsSpace(r[|r| - 1]))) &&
      LeadingSpaces(s) + |r| <= |s| &&
      r == s[LeadingSpaces(s)..LeadingSpaces(s) + |r|] &&
      AllSpace(s[..LeadingSpaces(s)]) && AllSpace(s[LeadingSpaces(s) + |r|..])
  {
    TrimSpaceEnds(s);
    var n := LeadingSpaces(s);
    var t := s[n..];
    var m := TrailingSpaces(t);
    var r := t[..|t| - m];
    assert TrimSpace(s) == r;
    LeadingSpacesMaximal(s);
    TrailingSpacesMaximal(t);
    assert r == s[n..n + |r|];
    assert t[|t| - m..] == s[n + |r|..];
  }

  /** Trimming is idempotent. */
  lemma TrimSpaceIdempotent(s: string)
    ensures TrimSpace(TrimSpace(s)) == TrimSpace(s)
  {
    var r := TrimSpace(s);
    TrimSpaceShape(s);
    assert LeadingSpaces(r) == 0;
    assert r[..|r| - TrailingSpaces(r)] == r;
    assert r[0..] == r;
    assert TrailingSpaces(r) == 0;
  }

  // ---------------------------------------------------------------- ToLower

  /** Lower-cases an ASCII letter and leaves every other character alone. */
  function LowerAscii(c: char): (d: char)
    ensures 'A' <= c <= 'Z' ==> d as int == c as int + 32
    ensures !('A' <= c <= 'Z') ==> d == c
  {
    if 'A' <= c <= 'Z' then (c as int + 32) as char else c
  }

  /** strings.ToLower restricted to ASCII letters. */
  function ToLower(s: string): (r: string)
    ensures |r| == |s|
    ensures forall k :: 0 <= k < |s| ==> r[k] == LowerAscii(s[k])
  {
    if s == [] then [] else [LowerAscii(s[0])] + ToLower(s[1..])
  }

  // ---------------------------------------------------------------- Atoi

  /** The two errors strconv.Atoi reports. */
  datatype NumError = ErrSyntax | ErrRange

  predicate IsDigit(c: char)
  {
    '0' <= c <= '9'
  }

  predicate AllDigits(s: string)
  {
    forall k :: 0 <= k < |s| ==> IsDigit(s[k])
  }

  /** The value of a string of decimal digits, read left to right. */
  function DecimalValue(ds: string): nat
    requires AllDigits(ds)
  {
    if ds == [] then 0
    else DecimalValue(ds[..|ds| - 1]) * 10 + (ds[|ds| - 1] as int - '0' as int)
  }

  /** True when `s` is an optional sign followed by at least one digit. */
  predicate IsDecimalLiteral(s: string)
  {
    Unsigned(s) != [] && AllDigits(Unsigned(s))
  }

  /** `s` without one leading sign character. */
  function Unsigned(s: string): (b: string)
    ensures b == s || (s != [] && (s[0] == '-' || s[0] == '+') && b == s[1..])
  {
    if s != [] && (s[0] == '-' || s[0] == '+') then s[1..] else s
  }

  /** The number of digits at the start of `s`. */
  function LeadingDigits(s: string): (n: nat)
    ensures n <= |s| && AllDigits(s[..n])
    ensures n < |s| ==> !IsDigit(s[n])
  {
    if s == [] || !IsDigit(s[0]) then 0
    else
      var n := 1 + LeadingDigits(s[1..]);
      assert s[..n] == [s[0]] + s[1..][..n - 1];
      n
  }

  /**
   * True when the digits that open the unsigned part of `s` already make a
   * number above 2^64 - 1. Go's unsigned scanner gives up with a range
   * error at the digit that passes that bound, before it looks at any
   * later character.
   */
  predicate LeadingRunOverflows(s: string)
  {
    var run := Unsigned(s)[..LeadingDigits(Unsigned(s))];
    DecimalValue(run) >= TwoTo64
  }

  /**
   * strconv.Atoi on a 64-bit platform: an optional sign and one or more
   * decimal digits (no underscores, no white space), within int64 range.
   * Digits are read left to right, so a digit run too large for uint64 is
   * a range error even when a non-digit follows it.
   */
  function Atoi(s: string): (r: Result<int, NumError>)
    ensures r.Ok? ==> MinInt64 <= r.value <= MaxInt64
  {
    var negative := s != [] && s[0] == '-';
    var b := Unsigned(s);
    if b == [] then Err(ErrSyntax)
    else if LeadingRunOverflows(s) then Err(ErrRange)
    else if !AllDigits(b) then Err(ErrSyntax)
    else
      var magnitude: int := DecimalValue(b);
      var v := if negative then -magnitude else magnitude;
      if MinInt64 <= v <= MaxInt64 then Ok(v) else Err(ErrRange)
  }

  /**
   * Atoi's outcome: a syntax error exactly when `s` is not a signed run of
   * digits (in particular when it is empty) and its leading digits stay
   * within uint64; a value only for a signed run of digits; and the sign of
   * the value follows the sign character.
   */
  lemma AtoiOutcome(s: string)
    ensures Atoi(s) == Err(ErrSyntax) <==> !IsDecimalLiteral(s) && !LeadingRunOverflows(s)
    ensures Atoi(s).Ok? ==> IsDecimalLiteral(s)
    ensures LeadingRunOverflows(s) ==> Atoi(s) == Err(ErrRange)
    ensures s == [] ==> Atoi(s) == Err(ErrSyntax)
    ensures Atoi(s).Ok? && s[0] == '-' ==> Atoi(s).value <= 0
    ensures Atoi(s).Ok? && s[0] != '-' ==> Atoi(s).value >= 0
  {
    if Unsigned(s) != [] && AllDigits(Unsigned(s)) {
      assert Unsigned(s)[..LeadingDigits(Unsigned(s))] == Unsigned(s);
    }
  }

  /** Appending digits never makes a decimal value smaller. */
  lemma {:induction false} DecimalValueGrows(ds: string, more: string)
    requires AllDigits(ds) && AllDigits(more)
    ensures AllDigits(ds + more) && DecimalValue(ds + more) >= DecimalValue(ds)
  {
    assert AllDigits(ds + more);
    if more != [] {
      var m := more[..|more| - 1];
      DecimalValueGrows(ds, m);
      assert (ds + more)[..|ds + more| - 1] == ds + m;
    } else {
      assert ds + more == ds;
    }
  }

  /**
   * A digit run above 2^64 - 1 is a range error whatever follows it, even
   * text that is not a number at all.
   */
  lemma OverflowBeforeSyntax(ds: string, rest: string)
    requires ds != [] && AllDigits(ds) && DecimalValue(ds) >= TwoTo64
    ensures Atoi(ds + rest) == Err(ErrRange)
  {
    var s := ds + rest;
    assert Unsigned(s) == s by { assert IsDigit(s[0]); }
    var n := LeadingDigits(s);
    assert n >= |ds| by {
      assert forall k :: 0 <= k < |ds| ==> s[k] == ds[k];
    }
    assert s[..n] == ds + s[|ds|..n];
    DecimalValueGrows(ds, s[|ds|..n]);
  }

  /** 10 to the power k. */
  function Pow10(k: nat): (p: nat)
    ensures p >= 1
  {
    if k == 0 then 1 else 10 * Pow10(k - 1)
  }

  lemma {:induction false} Pow10Add(a: nat, b: nat)
    ensures Pow10(a + b) == Pow10(a) * Pow10(b)
  {
    if a > 0 {
      Pow10Add(a - 1, b);
    }
  }

  /** k nines read as 10^k - 1. */
  lemma {:induction false} DecimalValueNines(ds: string)
    requires forall k :: 0 <= k < |ds| ==> ds[k] == '9'
    ensures AllDigits(ds) && DecimalValue(ds) == Pow10(|ds|) - 1
  {
    if ds != [] {
      DecimalValueNines(ds[..|ds| - 1]);
    }
  }

  /** Twenty nines and a letter: the digits overflow before the letter is read. */
  lemma AtoiOverflowBeforeLetter()
    ensures Atoi("99999999999999999999x") == Err(ErrRange)
  {
    var ds := "99999999999999999999";
    DecimalValueNines(ds);
    Pow10Add(10, 10);
    Pow10Add(5, 5);
    assert Pow10(5) == 100000;
    assert ds + "x" == "99999999999999999999x";
    OverflowBeforeSyntax(ds, "x");
  }

  /** The decimal digit for 0 <= d < 10. */
  function DigitChar(d: nat): (c: char)
    requires d < 10
    ensures IsDigit(c) && c as int - '0' as int == d
  {
    ('0' as int + d) as char
  }

  /** Decimal digits of `n`, most significant first, without leading zeros. */
  function FormatNat(n: nat): (s: string)
    ensures s != [] && AllDigits(s)
  {
    if n < 10 then [DigitChar(n)] else FormatNat(n / 10) + [DigitChar(n % 10)]
  }

  /** strconv.Itoa: the canonical decimal form of an integer. */
  function Itoa(n: int): string
  {
    if n < 0 then "-" + FormatNat(-n) else FormatNat(n)
  }

  lemma {:induction false} DecimalValueFormatNat(n: nat)
    ensures DecimalValue(FormatNat(n)) == n
  {
    if n >= 10 {
      DecimalValueFormatNat(n / 10);
      var s := FormatNat(n);
      assert s[..|s| - 1] == FormatNat(n / 10);
    }
  }

  /** Atoi reads back every int64 that Itoa writes. */
  lemma AtoiItoa(n: int)
    requires MinInt64 <= n <= MaxInt64
    ensures Atoi(Itoa(n)) == Ok(n)
  {
    var s := Itoa(n);
    var b := Unsigned(s);
    if n < 0 {
      DecimalValueFormatNat(-n);
      assert s[0] == '-' && b == FormatNat(-n);
    } else {
      DecimalValueFormatNat(n);
      assert IsDigit(s[0]) && b == FormatNat(n);
    }
    assert b[..LeadingDigits(b)] == b;
    assert !LeadingRunOverflows(s);
  }
}
