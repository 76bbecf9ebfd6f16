/**
 * `format_date_range`: the Russian-language label of a reporting period that
 * is embedded in the digest prompt, "3-9 июля" within one month of one
 * year and "30 мая - 2 июня" otherwise. Day numbers are printed
 * with `str`, month names come from a fixed table in the genitive case.
 */
module DateLabel {
  import opened Wrappers
  import opened Text
  import opened Calendar

  const MonthsRu: seq<string> := [
    "января", "февраля", "марта", "апреля", "мая", "июня",
    "июля", "августа", "сентября", "октября", "ноября", "декабря"
  ]

  /** `months_ru[month - 1]` */
  function MonthName(m: Month): string {
    MonthsRu[m - 1]
  }

  predicate SameMonthOfYear(a: Date, b: Date) {
    a.month == b.month && a.year == b.year
  }

  function FormatDateRange(start: Date, end: Date): string {
    if SameMonthOfYear(start, end) then
      NatToDecimal(start.day) + "-" + NatToDecimal(end.day) + " " + MonthName(end.month)
    else
      NatToDecimal(start.day) + " " + MonthName(start.month) + " - "
        + NatToDecimal(end.day) + " " + MonthName(end.month)
  }

  // ---------------------------------------------------------------------------
  // Reading a label back. The parser is the partner of `FormatDateRange`: the
  // round trip below shows that the label always states both days, the month of
  // the end, and the month of the start exactly when the two dates do not fall
  // in the same month of the same year.

  datatype LabelParts =
    | OneMonth(firstDay: nat, lastDay: nat, month: Month)
    | TwoMonths(firstDay: nat, firstMonth: Month, lastDay: nat, lastMonth: Month)

  /** The month whose name is `w`, searching from month `m` on. */
  function MonthNamed(w: string, m: Month := 1): (r: Option<Month>)
    ensures r.Some? ==> MonthName(r.value) == w
    decreases 12 - m
  {
    if MonthName(m) == w then Some(m)
    else if m == 12 then None
    else MonthNamed(w, m + 1)
  }

  /** The number of characters of `s` before its first space. */
  function WordLength(s: string): (n: nat)
    ensures n <= |s| && ' ' !in s[..n]
    ensures n == |s| || s[n] == ' '
  {
    if s != [] && s[0] != ' ' then
      var k := WordLength(s[1..]);
      assert s[..k + 1] == [s[0]] + s[1..][..k];
      k + 1
    else 0
  }

  /** "D " followed by a month name and nothing else. */
  function ParseDayAndMonth(s: string): Option<(nat, Month)> {
    var n := LeadingDigits(s);
    if n == 0 || n == |s| || s[n] != ' ' then None
    else
      match MonthNamed(s[n + 1..])
      case Some(m) => Some((DecimalValue(s[..n]), m))
      case None => None
  }

  function ParseDateRange(rangeText: string): Option<LabelParts> {
    var n := LeadingDigits(rangeText);
    if n == 0 || n == |rangeText| then None
    else if rangeText[n] == '-' then OneMonthAfter(DecimalValue(rangeText[..n]), rangeText[n + 1..])
    else if rangeText[n] == ' ' then TwoMonthsAfter(DecimalValue(rangeText[..n]), rangeText[n + 1..])
    else None
  }

  /** The rest of "D1-D2 M" after the first day and its '-'. */
  function OneMonthAfter(first: nat, rest: string): Option<LabelParts> {
    match ParseDayAndMonth(rest)
    case Some((last, m)) => Some(OneMonth(first, last, m))
    case None => None
  }

  /** The rest of "D1 M1 - D2 M2" after the first day and its space. */
  function TwoMonthsAfter(first: nat, rest: string): Option<LabelParts> {
    var w := WordLength(rest);
    match MonthNamed(rest[..w])
    case None => None
    case Some(m1) =>
      var tail := rest[w..];
      if |tail| < 3 || tail[..3] != " - " then None
      else
        match ParseDayAndMonth(tail[3..])
        case Some((last, m2)) => Some(TwoMonths(first, m1, last, m2))
        case None => None
  }

  function Parts(start: Date, end: Date): LabelParts {
    if SameMonthOfYear(start, end) then OneMonth(start.day, end.day, end.month)
    else TwoMonths(start.day, start.month, end.day, end.month)
  }

  /** Each month name is found under its own number: the table has no repeats. */
  lemma MonthNamedOfName(m: Month)
    ensures MonthNamed(MonthName(m)) == Some(m)
  {
    assert MonthName(1) == "января";
    assert MonthName(2) == "февраля";
    assert MonthName(3) == "марта";
    assert MonthName(4) == "апреля";
    assert MonthName(5) == "мая";
    assert MonthName(6) == "июня";
    assert MonthName(7) == "июля";
    assert MonthName(8) == "августа";
    assert MonthName(9) == "сентября";
    assert MonthName(10) == "октября";
    assert MonthName(11) == "ноября";
    assert MonthName(12) == "декабря";
  }

  /** Each month name is a non-empty word that does not start with a digit. */
  lemma MonthNameIsWord(m: Month)
    ensures |MonthName(m)| > 0 && ' ' !in MonthName(m) && !IsDigit(MonthName(m)[0])
  {
    assert MonthName(1) == "января";
    assert MonthName(2) == "февраля";
    assert MonthName(3) == "марта";
    assert MonthName(4) == "апреля";
    assert MonthName(5) == "мая";
    assert MonthName(6) == "июня";
    assert MonthName(7) == "июля";
    assert MonthName(8) == "августа";
    assert MonthName(9) == "сентября";
    assert MonthName(10) == "октября";
    assert MonthName(11) == "ноября";
    assert MonthName(12) == "декабря";
  }

  lemma ParseDayAndMonthOf(d: nat, m: Month)
    ensures ParseDayAndMonth(NatToDecimal(d) + " " + MonthName(m)) == Some((d, m))
  {
    DecimalHead(d, ' ', MonthName(m));
    MonthNamedOfName(m);
  }

  lemma {:induction false} WordLengthOfName(m: Month, rest: string)
    requires rest == [] || rest[0] == ' '
    ensures WordLength(MonthName(m) + rest) == |MonthName(m)|
  {
    MonthNameIsWord(m);
    WordLengthOfWord(MonthName(m), rest);
  }

  lemma {:induction false} WordLengthOfWord(w: string, rest: string)
    requires ' ' !in w
    requires rest == [] || rest[0] == ' '
    ensures WordLength(w + rest) == |w|
  {
    if w != [] {
      assert (w + rest)[1..] == w[1..] + rest;
      assert (w + rest)[0] == w[0];
      assert ' ' !in w[1..];
      WordLengthOfWord(w[1..], rest);
    } else {
      assert w + rest == rest;
    }
  }

  lemma ParseOneMonthForm(t: string, n: nat, last: nat, m: Month)
    requires 0 < n < |t| && LeadingDigits(t) == n && t[n] == '-'
    requires ParseDayAndMonth(t[n + 1..]) == Some((last, m))
    ensures ParseDateRange(t) == Some(OneMonth(DecimalValue(t[..n]), last, m))
  {
    assert ParseDateRange(t) == OneMonthAfter(DecimalValue(t[..n]), t[n + 1..]);
  }

  lemma ParseTwoMonthsForm(t: string, n: nat, rest: string, w: nat, m1: Month, tail: string, last: nat, m2: Month)
    requires 0 < n < |t| && LeadingDigits(t) == n && t[n] == ' ' && t[n + 1..] == rest
    requires WordLength(rest) == w && MonthNamed(rest[..w]) == Some(m1) && rest[w..] == tail
    requires |tail| >= 3 && tail[..3] == " - " && ParseDayAndMonth(tail[3..]) == Some((last, m2))
    ensures ParseDateRange(t) == Some(TwoMonths(DecimalValue(t[..n]), m1, last, m2))
  {
    assert ParseDateRange(t) == TwoMonthsAfter(DecimalValue(t[..n]), rest);
  }

  /** The decimal spelling of `d` at the head of `t`, followed by `sep`. */
  lemma DecimalHead(d: nat, sep: char, rest: string)
    requires !IsDigit(sep)
    ensures var t := NatToDecimal(d) + [sep] + rest; var n := |NatToDecimal(d)|;
      0 < n < |t| && LeadingDigits(t) == n && DecimalValue(t[..n]) == d && t[n] == sep && t[n + 1..] == rest
  {
    var t := NatToDecimal(d) + [sep] + rest;
    assert t == NatToDecimal(d) + ([sep] + rest);
    LeadingDigitsOfDecimal(d, [sep] + rest);
    DecimalRoundTrip(d);
  }

  lemma OneMonthRoundTrip(d1: nat, d2: nat, m: Month)
    ensures ParseDateRange(NatToDecimal(d1) + "-" + NatToDecimal(d2) + " " + MonthName(m))
      == Some(OneMonth(d1, d2, m))
  {
    var after := NatToDecimal(d2) + " " + MonthName(m);
    var t := NatToDecimal(d1) + "-" + NatToDecimal(d2) + " " + MonthName(m);
    assert t == NatToDecimal(d1) + ['-'] + after;
    DecimalHead(d1, '-', after);
    ParseDayAndMonthOf(d2, m);
    ParseOneMonthForm(t, |NatToDecimal(d1)|, d2, m);
  }

  /** A month name followed by " - ": the word and its month are found, and the separator follows. */
  lemma MonthThenDash(m: Month, after: string)
    ensures var rest := MonthName(m) + (" - " + after);
      && WordLength(rest) == |MonthName(m)| && MonthNamed(rest[..|MonthName(m)|]) == Some(m)
      && rest[|MonthName(m)|..] == " - " + after
  {
    var name := MonthName(m);
    var rest := name + (" - " + after);
    WordLengthOfName(m, " - " + after);
    assert rest[..|name|] == name;
    MonthNamedOfName(m);
  }

  lemma DashThen(after: string)
    ensures |" - " + after| >= 3 && (" - " + after)[..3] == " - " && (" - " + after)[3..] == after
  {
  }

  /** The two-month label regrouped around its first space. */
  lemma TwoMonthsShape(a: string, n1: string, b: string, n2: string)
    ensures a + " " + n1 + " - " + b + " " + n2 == a + [' '] + (n1 + (" - " + (b + " " + n2)))
  {
    var after := b + " " + n2;
    calc {
      a + " " + n1 + " - " + b + " " + n2;
      { assert a + " " + n1 + " - " + b + " " + n2 == (a + " " + n1 + " - ") + after; }
      (a + " " + n1 + " - ") + after;
      { assert a + " " + n1 + " - " == (a + [' ']) + (n1 + " - "); }
      (a + [' ']) + (n1 + " - ") + after;
      { assert (n1 + " - ") + after == n1 + (" - " + after); }
      a + [' '] + (n1 + (" - " + after));
    }
  }

  lemma TwoMonthsRoundTrip(d1: nat, m1: Month, d2: nat, m2: Month)
    ensures ParseDateRange(NatToDecimal(d1) + " " + MonthName(m1) + " - " + NatToDecimal(d2) + " " + MonthName(m2))
      == Some(TwoMonths(d1, m1, d2, m2))
  {
    var after := NatToDecimal(d2) + " " + MonthName(m2);
    var rest := MonthName(m1) + (" - " + after);
    var t := NatToDecimal(d1) + " " + MonthName(m1) + " - " + NatToDecimal(d2) + " " + MonthName(m2);
    TwoMonthsShape(NatToDecimal(d1), MonthName(m1), NatToDecimal(d2), MonthName(m2));
    DecimalHead(d1, ' ', rest);
    MonthThenDash(m1, after);
    DashThen(after);
    ParseDayAndMonthOf(d2, m2);
    ParseTwoMonthsForm(t, |NatToDecimal(d1)|, rest, |MonthName(m1)|, m1, " - " + after, d2, m2);
  }

  /** The label can be read back: it determines the days and the months it names. */
  lemma FormatDateRangeRoundTrip(start: Date, end: Date)
    ensures ParseDateRange(FormatDateRange(start, end)) == Some(Parts(start, end))
  {
    if SameMonthOfYear(start, end) {
      OneMonthRoundTrip(start.day, end.day, end.month);
    } else {
      TwoMonthsRoundTrip(start.day, start.month, end.day, end.month);
    }
  }

  /** Two periods that share their days and months share their label, and no others do. */
  lemma FormatDateRangeInjective(s1: Date, e1: Date, s2: Date, e2: Date)
    requires FormatDateRange(s1, e1) == FormatDateRange(s2, e2)
    ensures Parts(s1, e1) == Parts(s2, e2)
  {
    FormatDateRangeRoundTrip(s1, e1);
    FormatDateRangeRoundTrip(s2, e2);
  }

  /** The same month in different years is labelled as two months. */
  lemma SameMonthOtherYear(start: Date, end: Date)
    requires start.month == end.month && start.year != end.year
    ensures ParseDateRange(FormatDateRange(start, end))
      == Some(TwoMonths(start.day, start.month, end.day, start.month))
  {
    FormatDateRangeRoundTrip(start, end);
  }

  /** Day 3 to day 9 of one month. */
  lemma SameMonthExample()
    ensures FormatDateRange(Date(2024, 7, 3), Date(2024, 7, 9)) == "3-9 июля"
  {
  }

  /** Day 30 of one month to day 2 of the next. */
  lemma CrossMonthExample()
    ensures FormatDateRange(Date(2024, 5, 30), Date(2024, 6, 2)) == "30 мая - 2 июня"
  {
    assert NatToDecimal(30) == "30";
  }
}
