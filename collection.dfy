/**
 * The message-collection loop of `main`. The channel history arrives as a
 * sequence of records; the loop stops at the first record older than the
 * start of the window, keeps the records inside the window that have text,
 * turns each into an entry with its link, and finally reverses the list in
 * place. How a timestamp is printed (`strftime('%Y-%m-%d %H:%M')`) is a
 * parameter.
 */
module Collection {
  import opened Text
  import opened Calendar

  /** One message of the channel: its timestamp, its id and its text ("" when it has none). */
  datatype Record = Record(date: Moment, id: nat, text: string)

  predicate InWindow(start: Moment, end: Moment, d: Moment) {
    NotAfter(start, d) && NotAfter(d, end)
  }

  /** The record is turned into an entry. */
  predicate Kept(start: Moment, end: Moment, r: Record) {
    InWindow(start, end, r.date) && r.text != []
  }

  /** The records before the first one older than the start: those the loop reaches. */
  function Reached(records: seq<Record>, start: Moment): (s: seq<Record>)
    ensures |s| <= |records|
  {
    if records == [] || Before(records[0].date, start) then []
    else [records[0]] + Reached(records[1..], start)
  }

  /**
   * `Reached` is a prefix of the history, none of its records is older than
   * the start, and the record after it, if any, is.
   */
  lemma {:induction false} ReachedSpec(records: seq<Record>, start: Moment)
    ensures var s := Reached(records, start);
      && s <= records
      && (forall i :: 0 <= i < |s| ==> !Before(s[i].date, start))
      && (|s| < |records| ==> Before(records[|s|].date, start))
  {
    if records != [] && !Before(records[0].date, start) {
      ReachedSpec(records[1..], start);
    }
  }

  function Filter(start: Moment, end: Moment, records: seq<Record>): (s: seq<Record>)
    ensures forall i :: 0 <= i < |s| ==> Kept(start, end, s[i])
  {
    if records == [] then []
    else (if Kept(start, end, records[0]) then [records[0]] else []) + Filter(start, end, records[1..])
  }

  /** The records that become entries, newest first as the channel lists them. */
  function Selected(records: seq<Record>, start: Moment, end: Moment): seq<Record> {
    Filter(start, end, Reached(records, start))
  }

  function MessageLink(username: string, id: nat): string {
    "https://t.me/" + username + "/" + NatToDecimal(id)
  }

  /** What separates the timestamp from the text, and the text from the link. */
  const Separator: string := " - "
  const LinkLabel: string := "\nMessage link: "

  function Entry(fmt: Moment -> string, username: string, r: Record): string {
    fmt(r.date) + Separator + r.text + LinkLabel + MessageLink(username, r.id)
  }

  function Entries(fmt: Moment -> string, username: string, records: seq<Record>): (e: seq<string>)
    ensures |e| == |records|
    ensures forall i :: 0 <= i < |e| ==> e[i] == Entry(fmt, username, records[i])
  {
    if records == [] then [] else [Entry(fmt, username, records[0])] + Entries(fmt, username, records[1..])
  }

  function Reversed<T>(s: seq<T>): (r: seq<T>)
    ensures |r| == |s|
    ensures forall i :: 0 <= i < |s| ==> r[i] == s[|s| - 1 - i]
  {
    if s == [] then [] else Reversed(s[1..]) + [s[0]]
  }

  /**
   * The loop as written: append an entry for each kept record, count it,
   * stop at the first record older than the start, then reverse.
   */
  method CollectMessages(records: seq<Record>, start: Moment, end: Moment, username: string, fmt: Moment -> string)
    returns (messages: seq<string>, count: nat)
    ensures messages == Reversed(Entries(fmt, username, Selected(records, start, end)))
    ensures count == |messages|
  {
    messages := [];
    count := 0;
    var i := 0;
    while i < |records|
      invariant 0 <= i <= |Reached(records, start)|
      invariant messages == Entries(fmt, username, Filter(start, end, records[..i]))
      invariant count == |messages|
    {
      var r := records[i];
      if Before(r.date, start) {
        break;
      }
      ReachedGrows(records, start, i);
      CollectStep(records, start, end, username, fmt, i);
      if InWindow(start, end, r.date) {
        if r.text != [] {
          messages := messages + [Entry(fmt, username, r)];
          count := count + 1;
        }
      }
      i := i + 1;
    }
    ReachedIsPrefix(records, start, i);
    messages := Reversed(messages);
  }

  /** The entries of one more record: one more entry exactly when it is kept. */
  lemma CollectStep(records: seq<Record>, start: Moment, end: Moment, username: string, fmt: Moment -> string, i: nat)
    requires i < |records|
    ensures Entries(fmt, username, Filter(start, end, records[..i + 1]))
      == Entries(fmt, username, Filter(start, end, records[..i]))
         + (if Kept(start, end, records[i]) then [Entry(fmt, username, records[i])] else [])
  {
    var r := records[i];
    assert records[..i + 1] == records[..i] + [r];
    FilterSnoc(start, end, records[..i], r);
    EntriesConcat(fmt, username, Filter(start, end, records[..i]), if Kept(start, end, r) then [r] else []);
  }

  lemma {:induction false} FilterSnoc(start: Moment, end: Moment, s: seq<Record>, r: Record)
    ensures Filter(start, end, s + [r]) == Filter(start, end, s) + (if Kept(start, end, r) then [r] else [])
  {
    if s != [] {
      assert (s + [r])[1..] == s[1..] + [r];
      FilterSnoc(start, end, s[1..], r);
    } else {
      assert [r][1..] == [];
    }
  }

  lemma EntriesConcat(fmt: Moment -> string, username: string, a: seq<Record>, b: seq<Record>)
    ensures Entries(fmt, username, a + b) == Entries(fmt, username, a) + Entries(fmt, username, b)
  {
  }

  /** A record the loop reads and does not stop at is one of those `Reached` names. */
  lemma {:induction false} ReachedGrows(records: seq<Record>, start: Moment, i: nat)
    requires i <= |Reached(records, start)| && i < |records| && !Before(records[i].date, start)
    ensures i + 1 <= |Reached(records, start)|
  {
    if i > 0 {
      ReachedGrows(records[1..], start, i - 1);
    }
  }

  /** Where the loop stopped, it had reached exactly the records `Reached` names. */
  lemma {:induction false} ReachedIsPrefix(records: seq<Record>, start: Moment, i: nat)
    requires i <= |Reached(records, start)|
    requires i == |records| || Before(records[i].date, start)
    ensures Reached(records, start) == records[..i]
  {
    if i > 0 {
      ReachedIsPrefix(records[1..], start, i - 1);
      assert records[..i] == [records[0]] + records[1..][..i - 1];
    }
  }

  // ---------------------------------------------------------------------------
  // What the loop keeps, and in which order.

  /** The record at `i` lies in the window, has text, and no record before it is older than the start. */
  predicate KeptAt(records: seq<Record>, start: Moment, end: Moment, i: nat)
    requires i < |records|
  {
    Kept(start, end, records[i]) && forall j :: 0 <= j < i ==> !Before(records[j].date, start)
  }

  /** A record becomes an entry exactly when it is kept at some position of the history. */
  lemma {:induction false} SelectedMembership(records: seq<Record>, start: Moment, end: Moment, r: Record)
    ensures r in Selected(records, start, end) <==>
      exists i: nat :: i < |records| && records[i] == r && KeptAt(records, start, end, i)
  {
    if records != [] && !Before(records[0].date, start) {
      var tail := records[1..];
      SelectedMembership(tail, start, end, r);
      assert Selected(records, start, end)
        == (if Kept(start, end, records[0]) then [records[0]] else []) + Selected(tail, start, end);
      if r in Selected(records, start, end) {
        if Kept(start, end, records[0]) && r == records[0] {
          assert KeptAt(records, start, end, 0);
        } else {
          var i: nat :| i < |tail| && tail[i] == r && KeptAt(tail, start, end, i);
          assert records[i + 1] == r;
          forall j | 0 <= j < i + 1
            ensures !Before(records[j].date, start)
          {
            if j > 0 { assert records[j] == tail[j - 1]; }
          }
          assert KeptAt(records, start, end, i + 1);
        }
      }
      if exists i: nat :: i < |records| && records[i] == r && KeptAt(records, start, end, i) {
        var i: nat :| i < |records| && records[i] == r && KeptAt(records, start, end, i);
        if i > 0 {
          assert tail[i - 1] == r;
          forall j | 0 <= j < i - 1
            ensures !Before(tail[j].date, start)
          {
            assert tail[j] == records[j + 1];
          }
          assert KeptAt(tail, start, end, i - 1);
        }
      }
    }
  }

  /** Timestamps never increase along the history: newest first. */
  predicate NewestFirst(records: seq<Record>) {
    forall i, j :: 0 <= i < j < |records| ==> NotAfter(records[j].date, records[i].date)
  }

  /** On a newest-first history the early stop loses nothing: every record in the window is reached. */
  lemma {:induction false} StopLosesNothing(records: seq<Record>, start: Moment, end: Moment)
    requires NewestFirst(records)
    ensures Selected(records, start, end) == Filter(start, end, records)
  {
    if records != [] {
      if Before(records[0].date, start) {
        NothingKeptAfter(records, start, end);
      } else {
        StopLosesNothing(records[1..], start, end);
      }
    }
  }

  /** Once a newest-first history goes below the start, nothing further is in the window. */
  lemma {:induction false} NothingKeptAfter(records: seq<Record>, start: Moment, end: Moment)
    requires NewestFirst(records) && records != [] && Before(records[0].date, start)
    ensures Filter(start, end, records) == []
  {
    if |records| > 1 {
      var tail := records[1..];
      BeforeIsStrictTotal(tail[0].date, records[0].date, start);
      assert NewestFirst(tail) by {
        forall i, j | 0 <= i < j < |tail|
          ensures NotAfter(tail[j].date, tail[i].date)
        {
          assert tail[j] == records[j + 1] && tail[i] == records[i + 1];
        }
      }
      NothingKeptAfter(tail, start, end);
    }
    BeforeIsStrictTotal(records[0].date, start, records[0].date);
  }

  /** The filter keeps records in their order. */
  lemma {:induction false} FilterNewestFirst(start: Moment, end: Moment, records: seq<Record>)
    requires NewestFirst(records)
    ensures NewestFirst(Filter(start, end, records))
  {
    if records != [] {
      var tail := records[1..];
      assert NewestFirst(tail) by {
        forall i, j | 0 <= i < j < |tail|
          ensures NotAfter(tail[j].date, tail[i].date)
        {
          assert tail[j] == records[j + 1] && tail[i] == records[i + 1];
        }
      }
      FilterNewestFirst(start, end, tail);
      var f := Filter(start, end, tail);
      FilterFrom(start, end, tail);
      if Kept(start, end, records[0]) {
        var g := [records[0]] + f;
        forall i, j | 0 <= i < j < |g|
          ensures NotAfter(g[j].date, g[i].date)
        {
          if i == 0 {
            assert g[j] == f[j - 1] && g[j] in f;
            var k :| 0 <= k < |tail| && tail[k] == g[j];
            assert records[k + 1] == g[j];
          } else {
            assert g[j] == f[j - 1] && g[i] == f[i - 1];
          }
        }
      }
    }
  }

  /** Every record the filter keeps comes from its input. */
  lemma {:induction false} FilterFrom(start: Moment, end: Moment, records: seq<Record>)
    ensures forall x :: x in Filter(start, end, records) ==> x in records
  {
    if records != [] {
      FilterFrom(start, end, records[1..]);
    }
  }

  /** On a newest-first history the entries come out oldest first. */
  lemma Chronological(records: seq<Record>, start: Moment, end: Moment)
    requires NewestFirst(records)
    ensures var out := Reversed(Selected(records, start, end));
      forall i, j :: 0 <= i < j < |out| ==> NotAfter(out[i].date, out[j].date)
  {
    StopLosesNothing(records, start, end);
    FilterNewestFirst(start, end, records);
  }

  /** An entry ends with the link of its message, and the link names the message's id. */
  lemma EntryEndsWithLink(fmt: Moment -> string, username: string, r: Record)
    ensures var e := Entry(fmt, username, r); var link := MessageLink(username, r.id);
      |link| <= |e| && e[|e| - |link|..] == link
  {
  }

  lemma MessageLinkInjective(username: string, a: nat, b: nat)
    requires MessageLink(username, a) == MessageLink(username, b)
    ensures a == b
  {
    var prefix := "https://t.me/" + username + "/";
    assert MessageLink(username, a) == prefix + NatToDecimal(a);
    assert MessageLink(username, b) == prefix + NatToDecimal(b);
    assert NatToDecimal(a) == MessageLink(username, a)[|prefix|..];
    DecimalInjective(a, b);
  }
}
