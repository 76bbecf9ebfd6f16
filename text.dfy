/**
 * The few pieces of Python's string behaviour the script relies on:
 * `str(n)` for a non-negative integer, `int(s)` on a decimal string,
 * `s.strip()` with no argument, and `sep.join(parts)`.
 */
module Text {
  import opened Wrappers

  predicate IsDigit(c: char) {
    '0' <= c <= '9'
  }

  predicate AllDigits(s: string) {
    forall i :: 0 <= i < |s| ==> IsDigit(s[i])
  }

  function DigitChar(d: nat): (c: char)
    requires d < 10
    ensures IsDigit(c)
  {
    (('0' as int) + d) as char
  }

  function DigitValue(c: char): (d: nat)
    requires IsDigit(c)
    ensures d < 10 && DigitChar(d) == c
  {
    (c as int) - ('0' as int)
  }

  /** `str(n)`: the shortest decimal spelling of `n`. */
  function NatToDecimal(n: nat): (s: string)
    ensures |s| > 0 && AllDigits(s)
    ensures s[0] == '0' ==> n == 0 && |s| == 1
  {
    if n < 10 then [DigitChar(n)] else NatToDecimal(n / 10) + [DigitChar(n % 10)]
  }

  /** The value of a string of decimal digits, leading zeros allowed. */
  function DecimalValue(s: string): nat
    requires AllDigits(s)
  {
    if s == [] then 0 else DecimalValue(s[..|s| - 1]) * 10 + DigitValue(s[|s| - 1])
  }

  lemma {:induction false} DecimalRoundTrip(n: nat)
    ensures DecimalValue(NatToDecimal(n)) == n
  {
    if n >= 10 {
      var s := NatToDecimal(n);
      assert s[..|s| - 1] == NatToDecimal(n / 10);
      DecimalRoundTrip(n / 10);
    }
  }

  /** Two numbers with the same spelling are equal. */
  lemma DecimalInjective(a: nat, b: nat)
    requires NatToDecimal(a) == NatToDecimal(b)
    ensures a == b
  {
    DecimalRoundTrip(a);
    DecimalRoundTrip(b);
  }

  /** The number of leading decimal digits of `s`. */
  function LeadingDigits(s: string): (n: nat)
    ensures n <= |s| && AllDigits(s[..n])
    ensures n == |s| || !IsDigit(s[n])
  {
    if s != [] && IsDigit(s[0]) then
      var k := LeadingDigits(s[1..]);
      assert s[..k + 1] == [s[0]] + s[1..][..k];
      k + 1
    else 0
  }

  /** A decimal spelling followed by a non-digit is read back in full. */
  lemma LeadingDigitsOfDecimal(n: nat, rest: string)
    requires rest == [] || !IsDigit(rest[0])
    ensures LeadingDigits(NatToDecimal(n) + rest) == |NatToDecimal(n)|
    ensures (NatToDecimal(n) + rest)[..|NatToDecimal(n)|] == NatToDecimal(n)
  {
    var d := NatToDecimal(n);
    LeadingDigitsOfPrefix(d, rest);
  }

  lemma {:induction false} LeadingDigitsOfPrefix(d: string, rest: string)
    requires AllDigits(d)
    requires rest == [] || !IsDigit(rest[0])
    ensures LeadingDigits(d + rest) == |d|
  {
    if d != [] {
      assert (d + rest)[1..] == d[1..] + rest;
      LeadingDigitsOfPrefix(d[1..], rest);
    } else {
      assert d + rest == rest;
    }
  }

  /** The characters for which Python's `str.isspace()` holds. */
  predicate IsSpace(c: char) {
    || '\t' <= c <= '\r'
    || '\U{1C}' <= c <= ' '
    || c == '\U{85}' || c == '\U{A0}' || c == '\U{1680}'
    || '\U{2000}' <= c <= '\U{200A}'
    || c == '\U{2028}' || c == '\U{2029}' || c == '\U{202F}' || c == '\U{205F}' || c == '\U{3000}'
  }

  /** The index of the first non-space character of `s` at or after `i`. */
  function SkipSpaces(s: string, i: nat): (j: nat)
    requires i <= |s|
    ensures i <= j <= |s|
    ensures forall k :: i <= k < j ==> IsSpace(s[k])
    ensures j == |s| || !IsSpace(s[j])
    decreases |s| - i
  {
    if i < |s| && IsSpace(s[i]) then SkipSpaces(s, i + 1) else i
  }

  /** The index just past the last non-space character of `s` before `j`. */
  function TrimSpaces(s: string, j: nat): (e: nat)
    requires j <= |s|
    ensures e <= j
    ensures forall k :: e <= k < j ==> IsSpace(s[k])
    ensures e == 0 || !IsSpace(s[e - 1])
  {
    if j > 0 && IsSpace(s[j - 1]) then TrimSpaces(s, j - 1) else j
  }

  /** `s.strip()`. */
  function Strip(s: string): string {
    var i := SkipSpaces(s, 0);
    var e := TrimSpaces(s, |s|);
    if i < e then s[i..e] else []
  }

  predicate AllSpace(s: string) {
    forall k :: 0 <= k < |s| ==> IsSpace(s[k])
  }

  /**
   * What `strip` promises: the result is a slice of the input, everything cut
   * on either side is white space, and the result neither starts nor ends with
   * white space.
   */
  lemma StripSpec(s: string)
    ensures var r := Strip(s);
      exists i :: 0 <= i <= |s| - |r| && r == s[i..i + |r|] && AllSpace(s[..i]) && AllSpace(s[i + |r|..])
    ensures Strip(s) == [] || (!IsSpace(Strip(s)[0]) && !IsSpace(Strip(s)[|Strip(s)| - 1]))
  {
    var i := SkipSpaces(s, 0);
    var e := TrimSpaces(s, |s|);
    if i < e {
      var r := s[i..e];
      assert Strip(s) == r && r == s[i..i + |r|];
      assert AllSpace(s[..i]) && AllSpace(s[i + |r|..]);
      assert r[0] == s[i] && r[|r| - 1] == s[e - 1];
    } else {
      assert i == |s|;
      assert Strip(s) == s[0..0];
      assert AllSpace(s[..0]) && AllSpace(s[0..]);
    }
  }

  /** A string that neither starts nor ends with white space is its own strip. */
  lemma StripTrimmed(s: string)
    requires s == [] || (!IsSpace(s[0]) && !IsSpace(s[|s| - 1]))
    ensures Strip(s) == s
  {
    if s != [] {
      assert SkipSpaces(s, 0) == 0;
      assert TrimSpaces(s, |s|) == |s|;
      assert s[0..|s|] == s;
    }
  }

  /** Leading white space is skipped: the strip starts with the first character after it. */
  lemma StripAfterSpaces(w: string, rest: string)
    requires AllSpace(w)
    requires rest != [] && !IsSpace(rest[0])
    ensures Strip(w + rest) != [] && Strip(w + rest)[0] == rest[0]
  {
    var s := w + rest;
    assert s[|w|] == rest[0];
    assert forall k :: 0 <= k < |w| ==> s[k] == w[k];
    var i := SkipSpaces(s, 0);
    var e := TrimSpaces(s, |s|);
    assert i == |w|;
    assert |w| < e;
  }

  /** White space around a trimmed non-empty string is exactly what `strip` removes. */
  lemma StripPadded(w1: string, t: string, w2: string)
    requires AllSpace(w1) && AllSpace(w2)
    requires t != [] && !IsSpace(t[0]) && !IsSpace(t[|t| - 1])
    ensures Strip(w1 + t + w2) == t
  {
    var s := w1 + t + w2;
    assert s[|w1|] == t[0] && s[|w1| + |t| - 1] == t[|t| - 1];
    assert forall k :: 0 <= k < |w1| ==> s[k] == w1[k];
    assert forall k :: |w1| + |t| <= k < |s| ==> s[k] == w2[k - |w1| - |t|];
    var i := SkipSpaces(s, 0);
    var e := TrimSpaces(s, |s|);
    assert i == |w1|;
    assert e == |w1| + |t|;
    assert s[|w1|..|w1| + |t|] == t;
  }

  lemma StripIdempotent(s: string)
    ensures Strip(Strip(s)) == Strip(s)
  {
    StripSpec(s);
    StripTrimmed(Strip(s));
  }

  /** `sep.join(parts)`. */
  function Join(parts: seq<string>, sep: string): string {
    if |parts| == 0 then ""
    else if |parts| == 1 then parts[0]
    else parts[0] + sep + Join(parts[1..], sep)
  }

  /** Joining starts with the first part, so a non-empty first part gives a non-empty text. */
  lemma {:induction false} JoinStartsWithFirst(parts: seq<string>, sep: string)
    requires |parts| > 0
    ensures |Join(parts, sep)| >= |parts[0]|
    ensures Join(parts, sep)[..|parts[0]|] == parts[0]
  {
    if |parts| > 1 {
      var j := Join(parts, sep);
      assert j == parts[0] + (sep + Join(parts[1..], sep));
    }
  }

  // ---------------------------------------------------------------------------
  // `int(s)` for text: surrounding white space, an optional sign, and ASCII
  // digits that may be grouped by single underscores ("1_000").

  /** Digits grouped by single underscores, never starting or ending with one. */
  predicate IsDigitGroups(s: string) {
    && |s| > 0
    && IsDigit(s[0]) && IsDigit(s[|s| - 1])
    && (forall i :: 0 <= i < |s| ==> IsDigit(s[i]) || s[i] == '_')
    && (forall i :: 0 <= i < |s| - 1 ==> s[i] == '_' ==> s[i + 1] != '_')
  }

  function DropUnderscores(s: string): (r: string)
    requires forall i :: 0 <= i < |s| ==> IsDigit(s[i]) || s[i] == '_'
    ensures AllDigits(r)
    ensures AllDigits(s) ==> r == s
  {
    if s == [] then []
    else (if s[0] == '_' then [] else [s[0]]) + DropUnderscores(s[1..])
  }

  /** The value of underscore-grouped digits, or `None` when `s` is not of that form. */
  function GroupedValue(s: string): (r: Option<nat>)
    ensures AllDigits(s) && s != [] ==> r == Some(DecimalValue(s))
  {
    if IsDigitGroups(s) then Some(DecimalValue(DropUnderscores(s))) else None
  }

  /** `int(s)`: `None` where Python raises `ValueError`. */
  function ParseInt(s: string): (r: Option<int>)
    ensures r.Some? ==> Strip(s) != []
  {
    var t := Strip(s);
    if |t| > 0 && (t[0] == '+' || t[0] == '-') then
      match GroupedValue(t[1..])
      case Some(n) => Some(if t[0] == '-' then -(n as int) else n)
      case None => None
    else
      match GroupedValue(t)
      case Some(n) => Some(n)
      case None => None
  }

  /** `int(str(n)) == n`. */
  lemma ParseIntOfDecimal(n: nat)
    ensures ParseInt(NatToDecimal(n)) == Some(n)
  {
    var d := NatToDecimal(n);
    DecimalTrimmed(d);
    StripTrimmed(d);
    DecimalRoundTrip(n);
  }

  /** `int("-" + str(n)) == -n`. */
  lemma ParseIntOfNegatedDecimal(n: nat)
    ensures ParseInt("-" + NatToDecimal(n)) == Some(-(n as int))
  {
    var d := NatToDecimal(n);
    DecimalTrimmed(d);
    var m := "-" + d;
    assert m[1..] == d;
    assert m[|m| - 1] == d[|d| - 1];
    StripTrimmed(m);
    DecimalRoundTrip(n);
    assert Strip(m) == m && m[0] == '-';
    assert GroupedValue(m[1..]) == Some(n);
  }

  lemma DecimalTrimmed(d: string)
    requires |d| > 0 && AllDigits(d)
    ensures !IsSpace(d[0]) && !IsSpace(d[|d| - 1])
  {
  }
}
