/**
 * `remove_extra_line_breaks`: two whole-text substitutions applied to the
 * generated digest, written out as the left-to-right scans that Python's
 * `re.sub` performs.
 *
 * First pass, `re.sub(r'(\n- .+?)\n+(?=\n-)', r'\1', text, flags=re.DOTALL)`:
 * at a position where "\n- " starts, the lazy `.+?` takes at least one
 * character of any kind (newlines included), and grows until a newline run
 * of length k >= 2 that is followed by '-' starts; the first k - 1 newlines
 * of that run are dropped and scanning resumes at the run's last newline.
 * Otherwise the character is copied and scanning moves on by one.
 *
 * Second pass, `re.sub(r'\n{3,}', '\n\n', text)`: every maximal run of three
 * or more newlines becomes two.
 */
module LineBreaks {
  import opened Wrappers

  /** The length of the run of newlines that starts at `q`. */
  function RunLength(t: string, q: nat): (k: nat)
    requires q <= |t|
    ensures q + k <= |t|
    ensures forall i :: q <= i < q + k ==> t[i] == '\n'
    ensures q + k == |t| || t[q + k] != '\n'
    decreases |t| - q
  {
    if q < |t| && t[q] == '\n' then 1 + RunLength(t, q + 1) else 0
  }

  /**
   * At `q`, `\n+(?=\n-)` matches: the newlines from `q` on number at least
   * two and the first character after them is '-'.
   */
  predicate GapAt(t: string, q: nat) {
    q <= |t| && RunLength(t, q) >= 2 && q + RunLength(t, q) < |t| && t[q + RunLength(t, q)] == '-'
  }

  /** The smallest position at or after `q` where `GapAt` holds. */
  function FirstGap(t: string, q: nat): (g: Option<nat>)
    ensures g.Some? ==> q <= g.value && GapAt(t, g.value)
    decreases |t| + 1 - q
  {
    if q > |t| then None
    else if GapAt(t, q) then Some(q)
    else FirstGap(t, q + 1)
  }

  /** `FirstGap` finds the first gap: there is none between `q` and the one it names. */
  lemma {:induction false} FirstGapIsFirst(t: string, q: nat, i: nat)
    requires q <= i && (FirstGap(t, q).None? || i < FirstGap(t, q).value)
    ensures !GapAt(t, i)
    decreases |t| + 1 - q
  {
    if q <= |t| && !GapAt(t, q) && q < i {
      FirstGapIsFirst(t, q + 1, i);
    }
  }

  /** "\n- " starts at `p`: a list item begins on a new line there. */
  predicate ItemAt(t: string, p: nat) {
    p + 3 <= |t| && t[p] == '\n' && t[p + 1] == '-' && t[p + 2] == ' '
  }

  /**
   * What the first pattern matches at the start of `t`, if anything: the
   * position `q` where the dropped newlines start and the position `e` of
   * the run's last newline, where scanning resumes.
   */
  function ListGapAt(t: string): (g: Option<(nat, nat)>)
    ensures g.Some? <==> ItemAt(t, 0) && FirstGap(t, 4).Some?
    ensures g.Some? ==>
      && g.value.0 == FirstGap(t, 4).value
      && g.value.1 == g.value.0 + RunLength(t, g.value.0) - 1
      && 4 <= g.value.0 < g.value.1 < |t|
  {
    if ItemAt(t, 0) then
      match FirstGap(t, 4)
      case Some(q) => Some((q, q + RunLength(t, q) - 1))
      case None => None
    else None
  }

  /** The first pass. */
  function CollapseListGaps(t: string): (r: string)
    ensures |r| <= |t|
    decreases |t|
  {
    if |t| == 0 then ""
    else
      match ListGapAt(t)
      case Some((q, e)) => t[..q] + CollapseListGaps(t[e..])
      case None => [t[0]] + CollapseListGaps(t[1..])
  }

  /** The second pass. */
  function CollapseBlankRuns(t: string): (r: string)
    ensures |r| <= |t|
    decreases |t|
  {
    if |t| == 0 then ""
    else if RunLength(t, 0) >= 3 then "\n\n" + CollapseBlankRuns(t[RunLength(t, 0)..])
    else [t[0]] + CollapseBlankRuns(t[1..])
  }

  function RemoveExtraLineBreaks(t: string): string {
    CollapseBlankRuns(CollapseListGaps(t))
  }

  // ---------------------------------------------------------------------------
  // What each pass may change.

  /** The text with its newlines taken out. */
  function Visible(t: string): (v: string)
    ensures '\n' !in v
    ensures |v| <= |t|
  {
    if t == [] then [] else (if t[0] == '\n' then [] else [t[0]]) + Visible(t[1..])
  }

  /** A list item followed, at least one character later, by a gap the first pass collapses. */
  ghost predicate HasListGap(t: string) {
    exists p: nat, q: nat :: ItemAt(t, p) && p + 4 <= q && GapAt(t, q)
  }

  ghost predicate HasTriple(t: string) {
    exists i :: 0 <= i && i + 2 < |t| && t[i] == '\n' && t[i + 1] == '\n' && t[i + 2] == '\n'
  }

  lemma {:induction false} VisibleConcat(a: string, b: string)
    ensures Visible(a + b) == Visible(a) + Visible(b)
  {
    if a != [] {
      assert (a + b)[1..] == a[1..] + b;
      VisibleConcat(a[1..], b);
    } else {
      assert a + b == b;
    }
  }

  lemma {:induction false} VisibleOfNewlines(t: string)
    requires forall i :: 0 <= i < |t| ==> t[i] == '\n'
    ensures Visible(t) == []
  {
    if t != [] {
      VisibleOfNewlines(t[1..]);
    }
  }

  /** Runs are measured the same way in a suffix. */
  lemma {:induction false} RunLengthShift(t: string, d: nat, q: nat)
    requires d + q <= |t|
    ensures RunLength(t[d..], q) == RunLength(t, d + q)
    decreases |t| - q
  {
    if d + q < |t| && t[d + q] == '\n' {
      RunLengthShift(t, d, q + 1);
    }
  }

  lemma GapShift(t: string, d: nat, q: nat)
    requires d <= |t|
    ensures GapAt(t[d..], q) <==> GapAt(t, d + q)
  {
    if d + q <= |t| {
      RunLengthShift(t, d, q);
    }
  }

  lemma SplitThree(t: string, q: nat, e: nat)
    requires q <= e <= |t|
    ensures t == t[..q] + t[q..e] + t[e..]
  {
    assert t[..e] == t[..q] + t[q..e];
  }

  /** Dropping a run of newlines between `head` and `tail` leaves the visible text alone. */
  lemma VisibleDropNewlines(head: string, run: string, tail: string, r: string)
    requires Visible(run) == []
    requires Visible(r) == Visible(tail)
    ensures Visible(head + r) == Visible(head + run + tail)
  {
    VisibleAppendInvisible(head, run);
    VisibleConcat(head + run, tail);
    VisibleConcat(head, r);
  }

  lemma VisibleAppendInvisible(a: string, b: string)
    requires Visible(b) == []
    ensures Visible(a + b) == Visible(a)
  {
    VisibleConcat(a, b);
    assert Visible(a) + [] == Visible(a);
  }

  /** Dropping all but the last newline of the run at `q` leaves the visible text alone. */
  lemma DropRunVisible(t: string, q: nat, e: nat, r: string)
    requires q <= |t| && RunLength(t, q) >= 1 && e == q + RunLength(t, q) - 1
    requires Visible(r) == Visible(t[e..])
    ensures Visible(t[..q] + r) == Visible(t)
  {
    SplitThree(t, q, e);
    var run := t[q..e];
    assert forall i :: 0 <= i < |run| ==> run[i] == t[q + i];
    VisibleOfNewlines(run);
    VisibleDropNewlines(t[..q], run, t[e..], r);
  }

  /** Copying the first character and rewriting the rest keeps the visible text. */
  lemma VisibleKeepHead(t: string, r: string)
    requires |t| > 0
    requires Visible(r) == Visible(t[1..])
    ensures Visible([t[0]] + r) == Visible(t)
  {
    assert t == [t[0]] + t[1..];
    VisibleConcat([t[0]], r);
    VisibleConcat([t[0]], t[1..]);
  }

  /** The first pass only ever removes newlines. */
  lemma {:induction false} CollapseListGapsVisible(t: string)
    ensures Visible(CollapseListGaps(t)) == Visible(t)
    decreases |t|
  {
    if |t| > 0 {
      if ListGapAt(t).Some? {
        var (q, e) := ListGapAt(t).value;
        assert CollapseListGaps(t) == t[..q] + CollapseListGaps(t[e..]);
        CollapseListGapsVisible(t[e..]);
        DropRunVisible(t, q, e, CollapseListGaps(t[e..]));
      } else {
        assert CollapseListGaps(t) == [t[0]] + CollapseListGaps(t[1..]);
        CollapseListGapsVisible(t[1..]);
        VisibleKeepHead(t, CollapseListGaps(t[1..]));
      }
    }
  }

  /** The second pass only ever removes newlines. */
  lemma {:induction false} CollapseBlankRunsVisible(t: string)
    ensures Visible(CollapseBlankRuns(t)) == Visible(t)
    decreases |t|
  {
    if |t| > 0 {
      var k := RunLength(t, 0);
      if k >= 3 {
        assert t == t[..k] + t[k..];
        VisibleConcat(t[..k], t[k..]);
        VisibleOfNewlines(t[..k]);
        CollapseBlankRunsVisible(t[k..]);
        VisibleConcat("\n\n", CollapseBlankRuns(t[k..]));
        VisibleOfNewlines("\n\n");
      } else {
        assert t == [t[0]] + t[1..];
        CollapseBlankRunsVisible(t[1..]);
        VisibleConcat([t[0]], CollapseBlankRuns(t[1..]));
        VisibleConcat([t[0]], t[1..]);
      }
    }
  }

  /** Where the first pass finds something to collapse, the text gets shorter. */
  lemma {:induction false} CollapseListGapsShortens(t: string)
    requires HasListGap(t)
    ensures |CollapseListGaps(t)| < |t|
    decreases |t|
  {
    var p: nat, q: nat :| ItemAt(t, p) && p + 4 <= q && GapAt(t, q);
    if ListGapAt(t).Some? {
    } else {
      assert p > 0 by {
        if p == 0 { FirstGapIsFirst(t, 4, q); }
      }
      assert ItemAt(t[1..], p - 1);
      GapShift(t, 1, q - 1);
      assert HasListGap(t[1..]);
      CollapseListGapsShortens(t[1..]);
    }
  }

  lemma ListGapOfTail(t: string)
    requires |t| > 0 && HasListGap(t[1..])
    ensures HasListGap(t)
  {
    var p: nat, q: nat :| ItemAt(t[1..], p) && p + 4 <= q && GapAt(t[1..], q);
    GapShift(t, 1, q);
    assert ItemAt(t, p + 1) && (p + 1) + 4 <= q + 1 && GapAt(t, q + 1);
  }

  /** Where there is nothing to collapse, the first pass copies the text. */
  lemma {:induction false} CollapseListGapsKeeps(t: string)
    requires !HasListGap(t)
    ensures CollapseListGaps(t) == t
    decreases |t|
  {
    if |t| > 0 {
      if ListGapAt(t).Some? {
        assert false;
      }
      if HasListGap(t[1..]) {
        ListGapOfTail(t);
      }
      CollapseListGapsKeeps(t[1..]);
      assert t == [t[0]] + t[1..];
    }
  }

  /** The first pass changes the text exactly when some list item is followed by a collapsible gap. */
  lemma CollapseListGapsUnchanged(t: string)
    ensures CollapseListGaps(t) == t <==> !HasListGap(t)
  {
    if HasListGap(t) {
      CollapseListGapsShortens(t);
    } else {
      CollapseListGapsKeeps(t);
    }
  }

  /** The second pass opens with as many newlines as the text, but never more than two. */
  lemma {:induction false} CollapseBlankRunsLead(t: string)
    ensures var k := RunLength(t, 0);
      RunLength(CollapseBlankRuns(t), 0) == if k >= 3 then 2 else k
    decreases |t|
  {
    if |t| > 0 {
      var k := RunLength(t, 0);
      var r := CollapseBlankRuns(t);
      if k >= 3 {
        var rest := CollapseBlankRuns(t[k..]);
        CollapseBlankRunsLead(t[k..]);
        RunLengthShift(t, k, 0);
        assert r == "\n\n" + rest;
        assert rest == [] || rest[0] != '\n';
        RunLengthShift(r, 2, 0);
        assert r[2..] == rest;
        RunLengthShift(r, 1, 0);
        assert RunLength(r, 1) == 1 + RunLength(r, 2);
      } else {
        var rest := CollapseBlankRuns(t[1..]);
        assert r == [t[0]] + rest;
        if t[0] == '\n' {
          CollapseBlankRunsLead(t[1..]);
          RunLengthShift(t, 1, 0);
          RunLengthShift(r, 1, 0);
          assert r[1..] == rest;
        }
      }
    }
  }

  lemma TripleOfRun(t: string)
    requires RunLength(t, 0) >= 3
    ensures HasTriple(t)
  {
    assert t[0] == '\n' && t[1] == '\n' && t[2] == '\n';
  }

  /** A triple inside `[c] + s` is at its head or inside `s`. */
  lemma TripleCons(c: char, s: string)
    requires HasTriple([c] + s)
    ensures (c == '\n' && RunLength(s, 0) >= 2) || HasTriple(s)
  {
    var t := [c] + s;
    var i :| 0 <= i && i + 2 < |t| && t[i] == '\n' && t[i + 1] == '\n' && t[i + 2] == '\n';
    if i == 0 {
      assert s[0] == '\n' && s[1] == '\n';
      assert RunLength(s, 0) == 1 + RunLength(s, 1);
      assert RunLength(s, 1) == 1 + RunLength(s, 2);
    } else {
      assert s[i - 1] == '\n' && s[i] == '\n' && s[i + 1] == '\n';
    }
  }

  /** After the second pass no three newlines are adjacent. */
  lemma {:induction false} CollapseBlankRunsNoTriple(t: string)
    ensures !HasTriple(CollapseBlankRuns(t))
    decreases |t|
  {
    if |t| > 0 {
      var k := RunLength(t, 0);
      var r := CollapseBlankRuns(t);
      if k >= 3 {
        var rest := CollapseBlankRuns(t[k..]);
        CollapseBlankRunsNoTriple(t[k..]);
        CollapseBlankRunsLead(t[k..]);
        RunLengthShift(t, k, 0);
        assert RunLength(rest, 0) == 0;
        var tail := ['\n'] + rest;
        assert r == ['\n'] + tail;
        assert tail[1..] == rest;
        RunLengthShift(tail, 1, 0);
        assert !HasTriple(tail) by {
          if HasTriple(tail) {
            TripleCons('\n', rest);
          }
        }
        if HasTriple(r) {
          TripleCons('\n', tail);
        }
      } else {
        var rest := CollapseBlankRuns(t[1..]);
        CollapseBlankRunsNoTriple(t[1..]);
        CollapseBlankRunsLead(t[1..]);
        RunLengthShift(t, 1, 0);
        assert r == [t[0]] + rest;
        if HasTriple(r) {
          TripleCons(t[0], rest);
        }
      }
    }
  }

  lemma TripleOfTail(t: string)
    requires |t| > 0 && HasTriple(t[1..])
    ensures HasTriple(t)
  {
    var s := t[1..];
    var i :| 0 <= i && i + 2 < |s| && s[i] == '\n' && s[i + 1] == '\n' && s[i + 2] == '\n';
    assert t[i + 1] == '\n' && t[i + 2] == '\n' && t[i + 3] == '\n';
  }

  /** A text without three adjacent newlines passes the second pass unchanged. */
  lemma {:induction false} CollapseBlankRunsKeeps(t: string)
    requires !HasTriple(t)
    ensures CollapseBlankRuns(t) == t
    decreases |t|
  {
    if |t| > 0 {
      if RunLength(t, 0) >= 3 {
        TripleOfRun(t);
      }
      if HasTriple(t[1..]) {
        TripleOfTail(t);
      }
      CollapseBlankRunsKeeps(t[1..]);
      assert t == [t[0]] + t[1..];
    }
  }

  /** The second pass changes the text exactly when three newlines are adjacent. */
  lemma CollapseBlankRunsUnchanged(t: string)
    ensures CollapseBlankRuns(t) == t <==> !HasTriple(t)
  {
    CollapseBlankRunsNoTriple(t);
    if !HasTriple(t) {
      CollapseBlankRunsKeeps(t);
    }
  }

  /** The second pass on its own is idempotent. */
  lemma CollapseBlankRunsIdempotent(t: string)
    ensures CollapseBlankRuns(CollapseBlankRuns(t)) == CollapseBlankRuns(t)
  {
    CollapseBlankRunsNoTriple(t);
    CollapseBlankRunsKeeps(CollapseBlankRuns(t));
  }

  // ---------------------------------------------------------------------------
  // The whole post-processing step.

  /**
   * It only deletes newlines, never lengthens the text, and leaves no three
   * adjacent newlines behind.
   */
  lemma RemoveExtraLineBreaksSpec(t: string)
    ensures Visible(RemoveExtraLineBreaks(t)) == Visible(t)
    ensures |RemoveExtraLineBreaks(t)| <= |t|
    ensures !HasTriple(RemoveExtraLineBreaks(t))
  {
    CollapseListGapsVisible(t);
    CollapseBlankRunsVisible(CollapseListGaps(t));
    CollapseBlankRunsNoTriple(CollapseListGaps(t));
  }

  /** The text comes back unchanged exactly when neither pass has anything to do. */
  lemma RemoveExtraLineBreaksUnchanged(t: string)
    ensures RemoveExtraLineBreaks(t) == t <==> !HasListGap(t) && !HasTriple(t)
  {
    CollapseBlankRunsNoTriple(CollapseListGaps(t));
    if !HasListGap(t) {
      CollapseListGapsKeeps(t);
      CollapseBlankRunsUnchanged(t);
    } else {
      CollapseListGapsShortens(t);
    }
  }

  /** A text with no "\n- " and no three adjacent newlines is returned as it is. */
  lemma PlainTextUnchanged(t: string)
    requires forall p :: !ItemAt(t, p)
    requires !HasTriple(t)
    ensures RemoveExtraLineBreaks(t) == t
  {
    RemoveExtraLineBreaksUnchanged(t);
  }

  // ---------------------------------------------------------------------------
  // Worked examples.

  /** A gap starts with two adjacent newlines. */
  lemma GapHasDouble(t: string, q: nat)
    requires GapAt(t, q)
    ensures q + 1 < |t| && t[q] == '\n' && t[q + 1] == '\n'
  {
    assert RunLength(t, q) == 1 + RunLength(t, q + 1);
  }

  predicate NoDoubleNewline(t: string) {
    forall i :: 0 <= i < |t| - 1 ==> !(t[i] == '\n' && t[i + 1] == '\n')
  }

  /** Without two adjacent newlines neither pass has anything to do. */
  lemma NoDoubleNewlineNothingToDo(t: string)
    requires NoDoubleNewline(t)
    ensures !HasListGap(t) && !HasTriple(t)
  {
    if HasListGap(t) {
      var p: nat, q: nat :| ItemAt(t, p) && p + 4 <= q && GapAt(t, q);
      GapHasDouble(t, q);
    }
  }

  /** One step of the first pass at a list item whose two-newline gap is found at `|head|`. */
  lemma CollapseAtGap(t: string, head: string, rest: string)
    requires t == head + "\n" + rest
    requires ItemAt(t, 0) && FirstGap(t, 4) == Some(|head|) && RunLength(t, |head|) == 2
    ensures CollapseListGaps(t) == head + CollapseListGaps(rest)
  {
    assert t[..|head|] == head;
    assert t[|head| + 1..] == rest;
  }

  /** A text no pass changes. */
  lemma Untouched(t: string)
    requires !HasListGap(t) && !HasTriple(t)
    ensures CollapseListGaps(t) == t && RemoveExtraLineBreaks(t) == t
  {
    CollapseListGapsKeeps(t);
    CollapseBlankRunsKeeps(t);
  }

  lemma LastItemUntouched()
    ensures CollapseListGaps("\n- b") == "\n- b"
  {
    NoDoubleNewlineNothingToDo("\n- b");
    Untouched("\n- b");
  }

  lemma GapAfterFirstItem()
    ensures "\n- a\n\n- b" == "\n- a" + "\n" + "\n- b"
    ensures FirstGap("\n- a\n\n- b", 4) == Some(4) && RunLength("\n- a\n\n- b", 4) == 2
  {
    assert RunLength("\n- a\n\n- b", 4) == 2;
  }

  lemma FirstPassBetweenItems()
    ensures CollapseListGaps("\n- a\n\n- b") == "\n- a\n- b"
  {
    GapAfterFirstItem();
    CollapseAtGap("\n- a\n\n- b", "\n- a", "\n- b");
    LastItemUntouched();
    ItemsJoined();
  }

  lemma ItemsJoined()
    ensures "\n- a" + "\n- b" == "\n- a\n- b"
  {
  }

  lemma JoinedItemsUntouched()
    ensures CollapseBlankRuns("\n- a\n- b") == "\n- a\n- b"
  {
    NoDoubleNewlineNothingToDo("\n- a\n- b");
    CollapseBlankRunsKeeps("\n- a\n- b");
  }

  /** A blank line between two list items is taken out. */
  lemma BlankLineBetweenItems()
    ensures RemoveExtraLineBreaks("\n- a\n\n- b") == "\n- a\n- b"
  {
    FirstPassBetweenItems();
    JoinedItemsUntouched();
  }

  /** An item at the very start of the text has no newline before it, so the gap after it stays. */
  lemma LeadingItemKeepsGap()
    ensures RemoveExtraLineBreaks("- a\n\n- b") == "- a\n\n- b"
  {
    LeadingItemNothingToDo();
    RemoveExtraLineBreaksUnchanged("- a\n\n- b");
  }

  /** The only item starts at the second newline, too late to reach a gap. */
  lemma LeadingItemNothingToDo()
    ensures !HasListGap("- a\n\n- b") && !HasTriple("- a\n\n- b")
  {
    var t := "- a\n\n- b";
    forall p: nat, q: nat | ItemAt(t, p) && p + 4 <= q
      ensures !GapAt(t, q)
    {
      assert t[0] != '\n' && t[1] != '\n' && t[2] != '\n';
    }
  }

  lemma NoListGapInTail()
    ensures CollapseListGaps("\n-x\n\n- b") == "\n-x\n\n- b"
  {
    assert !HasListGap("\n-x\n\n- b");
    CollapseListGapsKeeps("\n-x\n\n- b");
  }

  lemma FirstGapAtFour()
    ensures "\n- a\n\n-x\n\n- b" == "\n- a" + "\n" + "\n-x\n\n- b"
    ensures FirstGap("\n- a\n\n-x\n\n- b", 4) == Some(4)
    ensures RunLength("\n- a\n\n-x\n\n- b", 4) == 2
  {
    assert RunLength("\n- a\n\n-x\n\n- b", 4) == 2;
  }

  lemma GapsJoined()
    ensures "\n- a" + "\n-x\n\n- b" == "\n- a\n-x\n\n- b"
  {
  }

  lemma FirstPassOfFirst()
    ensures CollapseListGaps("\n- a\n\n-x\n\n- b") == "\n- a\n-x\n\n- b"
  {
    FirstGapAtFour();
    CollapseAtGap("\n- a\n\n-x\n\n- b", "\n- a", "\n-x\n\n- b");
    NoListGapInTail();
    GapsJoined();
  }

  lemma NoTripleInFirst()
    ensures !HasTriple("\n- a\n-x\n\n- b")
  {
  }

  /** The first application removes only the blank line before "-x". */
  lemma NotIdempotentFirst()
    ensures RemoveExtraLineBreaks("\n- a\n\n-x\n\n- b") == "\n- a\n-x\n\n- b"
  {
    FirstPassOfFirst();
    NoTripleInFirst();
    CollapseBlankRunsKeeps("\n- a\n-x\n\n- b");
  }

  lemma FirstGapAtSeven()
    ensures "\n- a\n-x\n\n- b" == "\n- a\n-x" + "\n" + "\n- b"
    ensures FirstGap("\n- a\n-x\n\n- b", 4) == Some(7)
    ensures RunLength("\n- a\n-x\n\n- b", 7) == 2
  {
    var y := "\n- a\n-x\n\n- b";
    assert RunLength(y, 7) == 2;
    assert !GapAt(y, 4) && !GapAt(y, 5) && !GapAt(y, 6);
  }

  lemma FirstPassOfSecond()
    ensures CollapseListGaps("\n- a\n-x\n\n- b") == "\n- a\n-x\n- b"
  {
    FirstGapAtSeven();
    CollapseAtGap("\n- a\n-x\n\n- b", "\n- a\n-x", "\n- b");
    LastItemUntouched();
    LastItemJoined();
  }

  lemma LastItemJoined()
    ensures "\n- a\n-x" + "\n- b" == "\n- a\n-x\n- b"
  {
  }

  lemma SecondPassOfSecond()
    ensures CollapseBlankRuns("\n- a\n-x\n- b") == "\n- a\n-x\n- b"
  {
    NoDoubleNewlineNothingToDo("\n- a\n-x\n- b");
    CollapseBlankRunsKeeps("\n- a\n-x\n- b");
  }

  /** The second application finds "\n- a" followed by the remaining blank line. */
  lemma NotIdempotentSecond()
    ensures RemoveExtraLineBreaks("\n- a\n-x\n\n- b") == "\n- a\n-x\n- b"
  {
    FirstPassOfSecond();
    SecondPassOfSecond();
  }

  /**
   * The step is not idempotent: removing the blank line before "-x" makes
   * "\n- a" the item that reaches the later blank line, which a second
   * application then removes.
   */
  lemma NotIdempotent()
    ensures var x := "\n- a\n\n-x\n\n- b";
      RemoveExtraLineBreaks(RemoveExtraLineBreaks(x)) != RemoveExtraLineBreaks(x)
  {
    NotIdempotentFirst();
    NotIdempotentSecond();
    assert "\n- a\n-x\n- b"[8] != "\n- a\n-x\n\n- b"[8];
  }
}
