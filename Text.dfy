/**
 * The JavaScript string built-ins the formatters rely on, written out:
 * `String.prototype.trim`, `Array.prototype.join` over strings and
 * `String(n)` for an integer `n`.
 */
module Text {

  /** WhiteSpace and LineTerminator code points, the set `trim` removes (ECMAScript). */
  predicate IsWhitespace(c: char) {
    c == ' ' || c == '\t' || c == '\n' || c == '\r' || c == '\U{000B}' || c == '\U{000C}'
    || c == '\U{00A0}' || c == '\U{1680}' || ('\U{2000}' <= c <= '\U{200A}')
    || c == '\U{2028}' || c == '\U{2029}' || c == '\U{202F}' || c == '\U{205F}'
    || c == '\U{3000}' || c == '\U{FEFF}'
  }

  predicate AllWhitespace(s: string) {
    forall k :: 0 <= k < |s| ==> IsWhitespace(s[k])
  }

  /** Neither the first nor the last character is whitespace. */
  predicate NoEdgeWhitespace(s: string) {
    |s| > 0 ==> !IsWhitespace(s[0]) && !IsWhitespace(s[|s| - 1])
  }

  // ---------------------------------------------------------------- trim

  function TrimStart(s: string): (r: string)
    ensures |r| <= |s| && r == s[|s| - |r|..]
    ensures AllWhitespace(s[..|s| - |r|])
    ensures |r| > 0 ==> !IsWhitespace(r[0])
  {
    if |s| > 0 && IsWhitespace(s[0]) then
      var r := TrimStart(s[1..]);
      assert s[1..][..|s| - 1 - |r|] == s[1..|s| - |r|];
      r
    else s
  }

  function TrimEnd(s: string): (r: string)
    ensures |r| <= |s| && r == s[..|r|]
    ensures AllWhitespace(s[|r|..])
    ensures |r| > 0 ==> !IsWhitespace(r[|r| - 1])
  {
    if |s| > 0 && IsWhitespace(s[|s| - 1]) then
      var r := TrimEnd(s[..|s| - 1]);
      assert s[..|s| - 1][|r|..] + [s[|s| - 1]] == s[|r|..];
      r
    else s
  }

  /** `s.trim()`: leading, then trailing whitespace removed. */
  function Trim(s: string): string {
    TrimEnd(TrimStart(s))
  }

  /**
   * Reference definition of a trim: `t` is a contiguous piece of `s`
   * with only whitespace around it, and `t` itself has no whitespace at
   * either end.
   */
  ghost predicate IsTrimOf(t: string, s: string) {
    NoEdgeWhitespace(t) &&
    exists i :: 0 <= i <= |s| - |t| && IsCoreAt(t, s, i)
  }

  ghost predicate IsCoreAt(t: string, s: string, i: int)
    requires 0 <= i <= |s| - |t|
  {
    s[i..i + |t|] == t && AllWhitespace(s[..i]) && AllWhitespace(s[i + |t|..])
  }

  lemma TrimMeetsReference(s: string)
    ensures IsTrimOf(Trim(s), s)
  {
    var x := TrimStart(s);
    var t := TrimEnd(x);
    var i := |s| - |x|;
    assert s[i..i + |t|] == x[..|t|];
    assert s[i + |t|..] == x[|t|..];
    assert IsCoreAt(t, s, i);
  }

  /** A trimmed core that is not empty starts at the first non-whitespace character. */
  lemma CoreStartUnique(t1: string, t2: string, s: string, i1: int, i2: int)
    requires 0 <= i1 <= |s| - |t1| && IsCoreAt(t1, s, i1) && |t1| > 0 && !IsWhitespace(t1[0])
    requires 0 <= i2 <= |s| - |t2| && IsCoreAt(t2, s, i2) && |t2| > 0 && !IsWhitespace(t2[0])
    ensures i1 == i2
  {
  }

  /** ... and ends just after the last non-whitespace character. */
  lemma CoreEndUnique(t1: string, t2: string, s: string, i1: int, i2: int)
    requires 0 <= i1 <= |s| - |t1| && IsCoreAt(t1, s, i1) && |t1| > 0 && !IsWhitespace(t1[|t1| - 1])
    requires 0 <= i2 <= |s| - |t2| && IsCoreAt(t2, s, i2) && |t2| > 0 && !IsWhitespace(t2[|t2| - 1])
    ensures i1 + |t1| == i2 + |t2|
  {
  }

  /** An empty core means the whole string is whitespace. */
  lemma EmptyCoreAllWhitespace(s: string, i: int)
    requires 0 <= i <= |s| && IsCoreAt("", s, i)
    ensures AllWhitespace(s)
  {
    forall k | 0 <= k < |s| ensures IsWhitespace(s[k]) {
      if k < i { assert s[..i][k] == s[k]; } else { assert s[i..][k - i] == s[k]; }
    }
  }

  /** The reference definition admits exactly one trim per string. */
  lemma {:induction false} TrimOfUnique(t1: string, t2: string, s: string)
    requires IsTrimOf(t1, s) && IsTrimOf(t2, s)
    ensures t1 == t2
  {
    var i1 :| 0 <= i1 <= |s| - |t1| && IsCoreAt(t1, s, i1);
    var i2 :| 0 <= i2 <= |s| - |t2| && IsCoreAt(t2, s, i2);
    if |t1| == 0 && |t2| > 0 {
      EmptyCoreAllWhitespace(s, i1);
    } else if |t2| == 0 && |t1| > 0 {
      EmptyCoreAllWhitespace(s, i2);
    } else if |t1| > 0 && |t2| > 0 {
      CoreStartUnique(t1, t2, s, i1, i2);
      CoreEndUnique(t1, t2, s, i1, i2);
    }
  }

  /** So `Trim` is the trim, and what it returns has no whitespace at either end. */
  lemma TrimIsTheTrim(s: string, t: string)
    ensures NoEdgeWhitespace(Trim(s))
    ensures IsTrimOf(t, s) <==> t == Trim(s)
  {
    TrimMeetsReference(s);
    if IsTrimOf(t, s) { TrimOfUnique(t, Trim(s), s); }
  }

  lemma TrimIdempotent(s: string)
    ensures Trim(Trim(s)) == Trim(s)
  {
    TrimMeetsReference(s);
  }

  /** `trim` returns the empty string exactly for all-whitespace input. */
  lemma TrimEmptyIff(s: string)
    ensures Trim(s) == "" <==> AllWhitespace(s)
  {
    if AllWhitespace(s) {
      assert IsCoreAt("", s, 0);
      TrimIsTheTrim(s, "");
    } else {
      TrimMeetsReference(s);
      if Trim(s) == "" {
        var i :| 0 <= i <= |s| && IsCoreAt("", s, i);
        EmptyCoreAllWhitespace(s, i);
      }
    }
  }

  // ---------------------------------------------------------------- join

  /** `parts.join(sep)`. */
  function Join(parts: seq<string>, sep: string): string {
    if |parts| == 0 then ""
    else if |parts| == 1 then parts[0]
    else parts[0] + sep + Join(parts[1..], sep)
  }

  function SumLengths(parts: seq<string>): nat {
    if parts == [] then 0 else |parts[0]| + SumLengths(parts[1..])
  }

  /** Where the `i`th part starts in the joined string. */
  function SegmentStart(parts: seq<string>, sep: string, i: nat): nat
    requires i <= |parts|
  {
    SumLengths(parts[..i]) + i * |sep|
  }

  lemma SumLengthsPrefix(parts: seq<string>, i: nat)
    requires 0 < i <= |parts|
    ensures SumLengths(parts[..i]) == |parts[0]| + SumLengths(parts[1..][..i - 1])
  {
    assert parts[..i][1..] == parts[1..][..i - 1];
  }

  lemma SegmentStartStep(parts: seq<string>, sep: string, i: nat)
    requires 0 < i <= |parts|
    ensures SegmentStart(parts, sep, i) == |parts[0]| + |sep| + SegmentStart(parts[1..], sep, i - 1)
  {
    SumLengthsPrefix(parts, i);
    assert i * |sep| == |sep| + (i - 1) * |sep|;
  }

  /** The first part and the separator after it open the joined string. */
  lemma JoinHead(parts: seq<string>, sep: string)
    requires |parts| > 1
    ensures |parts[0]| + |sep| <= |Join(parts, sep)|
    ensures Join(parts, sep)[..|parts[0]|] == parts[0]
    ensures Join(parts, sep)[|parts[0]|..|parts[0]| + |sep|] == sep
    ensures Join(parts, sep)[|parts[0]| + |sep|..] == Join(parts[1..], sep)
  {
    var j := Join(parts, sep);
    assert j == parts[0] + sep + Join(parts[1..], sep);
  }

  /** The joined string has room for exactly the parts and one separator between each two. */
  lemma {:induction false} JoinLength(parts: seq<string>, sep: string)
    requires |parts| > 0
    ensures |Join(parts, sep)| == SumLengths(parts) + (|parts| - 1) * |sep|
  {
    if |parts| > 1 {
      JoinLength(parts[1..], sep);
    }
  }

  /** Part `i` occupies its own segment of the joined string: one segment per part. */
  lemma {:induction false} JoinSegment(parts: seq<string>, sep: string, i: nat)
    requires i < |parts|
    ensures SegmentStart(parts, sep, i) + |parts[i]| <= |Join(parts, sep)|
    ensures Join(parts, sep)[SegmentStart(parts, sep, i)..SegmentStart(parts, sep, i) + |parts[i]|] == parts[i]
  {
    if i == 0 {
      assert SegmentStart(parts, sep, 0) == 0 by { assert parts[..0] == []; }
      if |parts| > 1 {
        JoinHead(parts, sep);
      }
    } else {
      var rest := parts[1..];
      var h := |parts[0]| + |sep|;
      JoinSegment(rest, sep, i - 1);
      SegmentStartStep(parts, sep, i);
      JoinHead(parts, sep);
      var j, jr := Join(parts, sep), Join(rest, sep);
      var start' := SegmentStart(rest, sep, i - 1);
      assert j[h + start'..h + start' + |parts[i]|] == jr[start'..start' + |parts[i]|];
    }
  }

  /** Every part but the last is followed by the separator. */
  lemma {:induction false} JoinSeparatorAfter(parts: seq<string>, sep: string, i: nat)
    requires i + 1 < |parts|
    ensures SegmentStart(parts, sep, i) + |parts[i]| + |sep| <= |Join(parts, sep)|
    ensures var e := SegmentStart(parts, sep, i) + |parts[i]|;
      Join(parts, sep)[e..e + |sep|] == sep
  {
    JoinHead(parts, sep);
    if i == 0 {
      assert SegmentStart(parts, sep, 0) == 0 by { assert parts[..0] == []; }
    } else {
      var rest := parts[1..];
      var h := |parts[0]| + |sep|;
      JoinSeparatorAfter(rest, sep, i - 1);
      SegmentStartStep(parts, sep, i);
      var j, jr := Join(parts, sep), Join(rest, sep);
      var e := SegmentStart(rest, sep, i - 1) + |parts[i]|;
      assert j[h + e..h + e + |sep|] == jr[e..e + |sep|];
    }
  }

  /** With a non-empty separator, the join is empty only for no parts or one empty part. */
  lemma JoinEmptyIff(parts: seq<string>, sep: string)
    requires sep != ""
    ensures Join(parts, sep) == "" <==> |parts| == 0 || (|parts| == 1 && parts[0] == "")
  {
    if |parts| > 1 {
      JoinLength(parts, sep);
    }
  }

  // ---------------------------------------------------------------- String(n)

  predicate IsDigit(c: char) {
    '0' <= c <= '9'
  }

  function DigitChar(d: nat): (c: char)
    requires d < 10
    ensures IsDigit(c) && c as int - '0' as int == d
  {
    ('0' as int + d) as char
  }

  /** Decimal digits, most significant first. */
  function NatToDecimal(n: nat): string
    decreases n
  {
    if n < 10 then [DigitChar(n)] else NatToDecimal(n / 10) + [DigitChar(n % 10)]
  }

  /** `String(n)` for an integer `n`: an optional minus sign, then the digits of `|n|`. */
  function IntToDecimal(n: int): string {
    if n < 0 then "-" + NatToDecimal(-n) else NatToDecimal(n)
  }

  /** Reference reading of a digit string, most significant first. */
  function DigitsValue(s: string): nat
    requires forall k :: 0 <= k < |s| ==> IsDigit(s[k])
  {
    if s == [] then 0
    else
      assert IsDigit(s[|s| - 1]);
      DigitsValue(s[..|s| - 1]) * 10 + (s[|s| - 1] as int - '0' as int)
  }

  /** A canonical digit string: non-empty, all digits, no leading zero unless it is "0". */
  predicate CanonicalDigits(s: string) {
    |s| > 0 && (forall k :: 0 <= k < |s| ==> IsDigit(s[k])) && (s[0] == '0' ==> s == "0")
  }

  /** `s` is the canonical decimal numeral of the integer `n`. */
  predicate IsDecimalOf(s: string, n: int) {
    if n < 0 then
      |s| > 1 && s[0] == '-' && CanonicalDigits(s[1..]) && DigitsValue(s[1..]) == -n
    else
      CanonicalDigits(s) && DigitsValue(s) == n
  }

  lemma {:induction false} NatToDecimalCorrect(n: nat)
    ensures CanonicalDigits(NatToDecimal(n)) && DigitsValue(NatToDecimal(n)) == n
  {
    if n >= 10 {
      NatToDecimalCorrect(n / 10);
      var s := NatToDecimal(n);
      var p := NatToDecimal(n / 10);
      assert s[..|s| - 1] == p;
    }
  }

  /** `String(n)` is the decimal numeral of `n`, so reading it back gives `n`. */
  lemma IntToDecimalCorrect(n: int)
    ensures IsDecimalOf(IntToDecimal(n), n)
    ensures IntToDecimal(n) != ""
  {
    if n < 0 {
      NatToDecimalCorrect(-n);
      assert IntToDecimal(n)[1..] == NatToDecimal(-n);
    } else {
      NatToDecimalCorrect(n);
    }
  }
}
