/** Coalescing of consecutive identical activities in the timeline. */
module Coalesce {
  import opened Basics
  import opened Timeline

  const COALESCE_MS := 2 * 60 * 1000

  predicate NoTimeLimit(e: Entry) {
    e.action == Some("task_completed") || e.action == Some("task_failed")
  }

  function Gap(a: Entry, b: Entry): int {
    if a.createdAt >= b.createdAt then a.createdAt - b.createdAt else b.createdAt - a.createdAt
  }

  // `e` merges into the coalesced entry `prev` before it.
  predicate Merges(prev: Entry, e: Entry) {
    && !e.comment && e.action != Some("squad_leader_evaluated")
    && !prev.comment && prev.action == e.action && prev.actorType == e.actorType && prev.actorId == e.actorId
    && (NoTimeLimit(e) || Gap(e, prev) <= COALESCE_MS)
  }

  function CountOf(e: Entry): nat {
    e.coalescedCount.GetOr(1)
  }

  function Push(out: seq<Entry>, e: Entry): seq<Entry> {
    if out != [] && Merges(out[|out| - 1], e) then
      out[..|out| - 1] + [e.(coalescedCount := Some(CountOf(out[|out| - 1]) + 1))]
    else out + [e]
  }

  function Coalesced(entries: seq<Entry>): seq<Entry> {
    if entries == [] then [] else Push(Coalesced(entries[..|entries| - 1]), entries[|entries| - 1])
  }

  method CoalesceTimeline(entries: seq<Entry>) returns (out: seq<Entry>)
    ensures out == Coalesced(entries)
  {
    out := [];
    for n := 0 to |entries|
      invariant out == Coalesced(entries[..n])
    {
      assert entries[..n + 1][..n] == entries[..n];
      var entry := entries[n];
      if !entry.comment && |out| > 0 {
        var prev := out[|out| - 1];
        if entry.action != Some("squad_leader_evaluated") && !prev.comment
           && prev.action == entry.action && prev.actorType == entry.actorType && prev.actorId == entry.actorId
           && (NoTimeLimit(entry) || Gap(entry, prev) <= COALESCE_MS)
        {
          out := out[..|out| - 1] + [entry.(coalescedCount := Some(CountOf(prev) + 1))];
          continue;
        }
      }
      out := out + [entry];
    }
    assert entries[..|entries|] == entries;
  }

  /*** What the groups are ***/

  // Where the run that starts at `i` ends: each entry of it merges with the one just before.
  function RunEnd(entries: seq<Entry>, i: nat, end: nat): (r: nat)
    requires i < end <= |entries|
    ensures i < r <= end
    decreases end - i
  {
    if i + 1 == end || !Merges(entries[i], entries[i + 1]) then i + 1 else RunEnd(entries, i + 1, end)
  }

  // The entry that stands for the run from `i` to `j`: the last, with the count of the first
  // plus one for each further entry.
  function Standing(entries: seq<Entry>, i: nat, j: nat): Entry
    requires i < j <= |entries|
  {
    if j == i + 1 then entries[i] else entries[j - 1].(coalescedCount := Some(CountOf(entries[i]) + (j - i - 1)))
  }

  // One entry for each maximal run of merging neighbours from `i` to `end`.
  function RunsFrom(entries: seq<Entry>, i: nat, end: nat): seq<Entry>
    requires i <= end <= |entries|
    decreases end - i
  {
    if i == end then []
    else [Standing(entries, i, RunEnd(entries, i, end))] + RunsFrom(entries, RunEnd(entries, i, end), end)
  }

  lemma {:induction false} RunEndNext(entries: seq<Entry>, i: nat, end: nat)
    requires i < end < |entries|
    ensures RunEnd(entries, i, end + 1) ==
      if RunEnd(entries, i, end) == end && Merges(entries[end - 1], entries[end]) then end + 1 else RunEnd(entries, i, end)
    decreases end - i
  {
    if i + 1 < end {
      RunEndNext(entries, i + 1, end);
    }
  }

  // The entry standing for a run merges as its last entry does, and counts one more.
  lemma StandingNext(entries: seq<Entry>, i: nat, end: nat)
    requires i < end < |entries|
    ensures Push([Standing(entries, i, end)], entries[end]) ==
      if Merges(entries[end - 1], entries[end]) then [Standing(entries, i, end + 1)]
      else [Standing(entries, i, end)] + [entries[end]]
  {
    assert [Standing(entries, i, end)][..0] == [];
  }

  lemma RunsLast(entries: seq<Entry>, i: nat, end: nat)
    requires i < end <= |entries| && RunEnd(entries, i, end) == end
    ensures RunsFrom(entries, i, end) == [Standing(entries, i, end)]
  {
    assert RunsFrom(entries, end, end) == [];
  }

  lemma LastRunNext(entries: seq<Entry>, i: nat, end: nat)
    requires i < end < |entries| && RunEnd(entries, i, end) == end
    ensures RunsFrom(entries, i, end + 1) ==
      if Merges(entries[end - 1], entries[end]) then [Standing(entries, i, end + 1)]
      else [Standing(entries, i, end)] + [entries[end]]
  {
    RunEndNext(entries, i, end);
    if Merges(entries[end - 1], entries[end]) {
      RunsLast(entries, i, end + 1);
    } else {
      RunsLast(entries, end, end + 1);
    }
  }

  // What goes on behind a first element leaves it alone.
  lemma PushBehind(first: Entry, rest: seq<Entry>, e: Entry)
    requires rest != []
    ensures Push([first] + rest, e) == [first] + Push(rest, e)
  {
    var all, n := [first] + rest, |rest|;
    assert all[n] == rest[n - 1];
    assert all[..n] == [first] + rest[..n - 1];
    assert all[..n] + [e] == [first] + (rest[..n - 1] + [e]);
  }

  lemma RunsSplit(entries: seq<Entry>, i: nat, end: nat)
    requires i < end <= |entries|
    ensures var j := RunEnd(entries, i, end);
      RunsFrom(entries, i, end) == [Standing(entries, i, j)] + RunsFrom(entries, j, end)
  {
  }

  lemma {:induction false} RunsNext(entries: seq<Entry>, i: nat, end: nat)
    requires i <= end < |entries|
    ensures RunsFrom(entries, i, end + 1) == Push(RunsFrom(entries, i, end), entries[end])
    decreases end - i
  {
    if i < end {
      RunEndNext(entries, i, end);
      var j := RunEnd(entries, i, end);
      if j < end {
        RunsNext(entries, j, end);
        RunsSplit(entries, i, end);
        RunsSplit(entries, i, end + 1);
        PushBehind(Standing(entries, i, j), RunsFrom(entries, j, end), entries[end]);
      } else {
        RunsLast(entries, i, end);
        LastRunNext(entries, i, end);
        StandingNext(entries, i, end);
      }
    }
  }

  // The coalesced timeline is one entry for each maximal run of merging neighbours: whatever was
  // absorbed before, only an entry and the one just before it decide.
  lemma {:induction false} CoalescedIsMaximalRuns(entries: seq<Entry>, end: nat)
    requires end <= |entries|
    ensures Coalesced(entries[..end]) == RunsFrom(entries, 0, end)
  {
    if end > 0 {
      CoalescedIsMaximalRuns(entries, end - 1);
      RunsNext(entries, 0, end - 1);
      assert entries[..end][..end - 1] == entries[..end - 1];
    }
  }

  /*** Counts ***/

  function Total(entries: seq<Entry>): nat {
    if entries == [] then 0 else Total(entries[..|entries| - 1]) + CountOf(entries[|entries| - 1])
  }

  // The counts an entry brings along and loses because it merges into the one before: all but one.
  function LostAt(entries: seq<Entry>, i: nat): int
    requires i < |entries|
  {
    if i > 0 && Merges(entries[i - 1], entries[i]) then CountOf(entries[i]) - 1 else 0
  }

  function Lost(entries: seq<Entry>): int {
    if entries == [] then 0 else Lost(entries[..|entries| - 1]) + LostAt(entries, |entries| - 1)
  }

  // The last element of the output merges as the last entry does.
  lemma LastStands(entries: seq<Entry>, e: Entry)
    requires entries != []
    ensures var out := Coalesced(entries);
      out != [] && Merges(out[|out| - 1], e) == Merges(entries[|entries| - 1], e)
  {
  }

  // Whether `e` merges into the last element of the output.
  predicate Joins(out: seq<Entry>, e: Entry) {
    out != [] && Merges(out[|out| - 1], e)
  }

  lemma JoinsIff(entries: seq<Entry>, n: nat)
    requires |entries| == n + 1
    ensures Joins(Coalesced(entries[..n]), entries[n]) <==> n > 0 && Merges(entries[n - 1], entries[n])
  {
    if n > 0 {
      LastStands(entries[..n], entries[n]);
      assert entries[..n][n - 1] == entries[n - 1];
    } else {
      assert entries[..n] == [];
    }
  }

  lemma CountsStep(entries: seq<Entry>, n: nat, before: seq<Entry>, after: seq<Entry>)
    requires |entries| == n + 1 && before == Coalesced(entries[..n]) && after == Push(before, entries[n])
    ensures Total(after) == Total(before) + CountOf(entries[n]) - LostAt(entries, n)
  {
    JoinsIff(entries, n);
  }

  lemma {:induction false} LostPrefix(entries: seq<Entry>, n: nat)
    requires |entries| == n + 1
    ensures Lost(entries) == Lost(entries[..n]) + LostAt(entries, n)
  {
  }

  lemma {:induction false} UncountedLoseNothing(entries: seq<Entry>)
    requires forall e :: e in entries ==> e.coalescedCount.None?
    ensures Lost(entries) == 0 && Total(entries) == |entries|
  {
    if entries != [] {
      var n := |entries| - 1;
      UncountedLoseNothing(entries[..n]);
      assert entries[n] in entries;
    }
  }

  // The sum of the counts falls short of the input's by exactly what merging neighbours bring
  // along; in particular nothing is lost of entries that carry no count yet.
  lemma {:induction false} CountsConserved(entries: seq<Entry>)
    ensures Total(Coalesced(entries)) == Total(entries) - Lost(entries)
    ensures (forall e :: e in entries ==> e.coalescedCount.None?) ==> Total(Coalesced(entries)) == |entries|
  {
    if entries != [] {
      var n := |entries| - 1;
      CountsConserved(entries[..n]);
      CountsStep(entries, n, Coalesced(entries[..n]), Coalesced(entries));
      LostPrefix(entries, n);
      if forall e :: e in entries ==> e.coalescedCount.None? {
        UncountedLoseNothing(entries);
      }
    }
  }

  /*** Idempotence ***/

  ghost predicate Ascending(entries: seq<Entry>) {
    forall i, j :: 0 <= i < j < |entries| ==> entries[i].createdAt <= entries[j].createdAt
  }

  // No entry merges into the one before it.
  ghost predicate Settled(out: seq<Entry>) {
    forall i :: 0 <= i < |out| - 1 ==> !Merges(out[i], out[i + 1])
  }

  // What keeps two neighbours apart keeps the first apart from anything the second absorbs later.
  lemma StaysApart(prev: Entry, f: Entry, e: Entry)
    requires !Merges(prev, f) && Merges(f, e) && prev.createdAt <= f.createdAt <= e.createdAt
    ensures !Merges(prev, e)
  {
  }

  lemma PushSettles(out: seq<Entry>, e: Entry)
    requires Settled(out) && Ascending(out)
    requires out != [] ==> out[|out| - 1].createdAt <= e.createdAt
    ensures var next := Push(out, e);
      Settled(next) && Ascending(next) && next != [] && next[|next| - 1].createdAt == e.createdAt
  {
    var n := |out|;
    if n > 1 && Merges(out[n - 1], e) {
      assert !Merges(out[n - 2], out[n - 2 + 1]);
      StaysApart(out[n - 2], out[n - 1], e);
    }
  }

  // On ascending input no two neighbours of the result merge.
  lemma {:induction false} AscendingSettles(entries: seq<Entry>)
    requires Ascending(entries)
    ensures var out := Coalesced(entries);
      && Settled(out) && Ascending(out)
      && (entries != [] ==> out != [] && out[|out| - 1].createdAt == entries[|entries| - 1].createdAt)
  {
    if entries != [] {
      var n := |entries| - 1;
      AscendingSettles(entries[..n]);
      PushSettles(Coalesced(entries[..n]), entries[n]);
    }
  }

  lemma {:induction false} SettledStays(out: seq<Entry>)
    requires Settled(out)
    ensures Coalesced(out) == out
  {
    if out != [] {
      var n := |out| - 1;
      SettledStays(out[..n]);
      assert n > 0 ==> !Merges(out[n - 1], out[n - 1 + 1]);
    }
  }

  // Coalescing shortens whatever still has merging neighbours.
  lemma {:induction false} UnsettledShrinks(out: seq<Entry>)
    ensures |Coalesced(out)| <= |out|
    ensures |Coalesced(out)| == |out| ==> Settled(out)
  {
    if out != [] {
      var n := |out| - 1;
      UnsettledShrinks(out[..n]);
      JoinsIff(out, n);
      if |Coalesced(out)| == |out| {
        forall i | 0 <= i < |out| - 1 ensures !Merges(out[i], out[i + 1]) {
          assert i < n - 1 ==> out[..n][i] == out[i] && out[..n][i + 1] == out[i + 1];
        }
      }
    }
  }

  // From `i` on, the last entries of adjacent maximal runs do not merge.
  predicate RunsApart(entries: seq<Entry>, i: nat, end: nat)
    requires i <= end <= |entries|
    decreases end - i
  {
    if i == end then true
    else
      var j := RunEnd(entries, i, end);
      (j < end ==> !Merges(entries[j - 1], entries[RunEnd(entries, j, end) - 1])) && RunsApart(entries, j, end)
  }

  lemma SettledCons(first: Entry, rest: seq<Entry>)
    ensures Settled([first] + rest) <==> (rest != [] ==> !Merges(first, rest[0])) && Settled(rest)
  {
    var all := [first] + rest;
    if Settled(all) {
      forall i | 0 <= i < |rest| - 1 ensures !Merges(rest[i], rest[i + 1]) {
        assert !Merges(all[i + 1], all[i + 1 + 1]);
      }
      if rest != [] { assert !Merges(all[0], all[0 + 1]); }
    }
    if (rest != [] ==> !Merges(first, rest[0])) && Settled(rest) {
      forall i | 0 <= i < |all| - 1 ensures !Merges(all[i], all[i + 1]) {
        if i > 0 { assert !Merges(rest[i - 1], rest[i - 1 + 1]); }
      }
    }
  }

  lemma StandingMerges(entries: seq<Entry>, i: nat, j: nat, m: nat)
    requires i < j < m <= |entries|
    ensures Merges(Standing(entries, i, j), Standing(entries, j, m)) == Merges(entries[j - 1], entries[m - 1])
  {
  }

  lemma {:induction false} RunsApartIff(entries: seq<Entry>, i: nat, end: nat)
    requires i <= end <= |entries|
    ensures Settled(RunsFrom(entries, i, end)) <==> RunsApart(entries, i, end)
    decreases end - i
  {
    if i < end {
      var j := RunEnd(entries, i, end);
      RunsApartIff(entries, j, end);
      SettledCons(Standing(entries, i, j), RunsFrom(entries, j, end));
      if j < end {
        StandingMerges(entries, i, j, RunEnd(entries, j, end));
      }
    }
  }

  // Coalescing twice is coalescing once exactly when the last entries of adjacent maximal runs
  // of the timeline do not merge.
  lemma IdempotentIff(entries: seq<Entry>)
    ensures Coalesced(Coalesced(entries)) == Coalesced(entries) <==> RunsApart(entries, 0, |entries|)
  {
    var out := Coalesced(entries);
    CoalescedIsMaximalRuns(entries, |entries|);
    assert entries[..|entries|] == entries;
    RunsApartIff(entries, 0, |entries|);
    UnsettledShrinks(out);
    if Settled(out) {
      SettledStays(out);
    }
  }

  // So it is for a timeline in ascending order.
  lemma CoalescingIsIdempotent(entries: seq<Entry>)
    requires Ascending(entries)
    ensures Coalesced(Coalesced(entries)) == Coalesced(entries)
  {
    AscendingSettles(entries);
    SettledStays(Coalesced(entries));
  }

  // Out of order it need not be: an entry two minutes back stays apart, and the next one pulls
  // its neighbour close enough for a second pass to merge them.
  lemma OutOfOrderMergesAgain(e: Entry)
    requires !e.comment && e.action == Some("status_changed") && e.coalescedCount.None?
    ensures var late, far, near := e.(createdAt := 130000), e.(createdAt := 0), e.(createdAt := 100000);
      |Coalesced([late, far, near])| == 2 && |Coalesced(Coalesced([late, far, near]))| == 1
  {
    var late, far, near := e.(createdAt := 130000), e.(createdAt := 0), e.(createdAt := 100000);
    var near2 := near.(coalescedCount := Some(2));
    assert [late, far, near][..2] == [late, far] && [late, far][..1] == [late] && [late][..0] == [];
    assert Coalesced([]) == [] && Coalesced([late]) == [late];
    assert Coalesced([late, far]) == [late, far];
    assert Coalesced([late, far, near]) == [late, near2];
    assert [late, near2][..1] == [late];
    assert Coalesced([late, near2]) == [near2.(coalescedCount := Some(2))];
  }

  /*** Nobody's activity shows as another's ***/

  // Two neighbours of one run are activities of one actor and one action, and at most two minutes
  // apart unless they end a task.
  predicate OneDoing(a: Entry, b: Entry) {
    && !a.comment && !b.comment
    && a.actorType == b.actorType && a.actorId == b.actorId && a.action == b.action
    && a.action != Some("squad_leader_evaluated")
    && (a.action == Some("task_completed") || a.action == Some("task_failed")
        || -120_000 <= a.createdAt - b.createdAt <= 120_000)
  }

  // The neighbours of a run are, and the two on either side of its end are not.
  lemma {:induction false} RunIsOneDoing(entries: seq<Entry>, i: nat, end: nat, m: nat)
    requires i < end <= |entries| && i <= m && m + 1 < end && m < RunEnd(entries, i, end)
    ensures OneDoing(entries[m], entries[m + 1]) <==> m + 1 < RunEnd(entries, i, end)
    decreases end - i
  {
    if m > i {
      RunIsOneDoing(entries, i + 1, end, m);
    }
  }

  // The same doing of the same actor.
  predicate SameDoing(a: Entry, b: Entry) {
    a.comment == b.comment && a.actorType == b.actorType && a.actorId == b.actorId && a.action == b.action
  }

  ghost predicate ShownIn(out: seq<Entry>, e: Entry) {
    exists o :: o in out && SameDoing(o, e)
  }

  // Every entry is shown, if not itself then by one of the same actor and action; a comment and a
  // leader's evaluation always themselves.
  lemma {:induction false} EveryoneIsShown(entries: seq<Entry>, e: Entry)
    requires e in entries
    ensures ShownIn(Coalesced(entries), e)
    ensures e.comment || e.action == Some("squad_leader_evaluated") ==> e in Coalesced(entries)
  {
    var n := |entries| - 1;
    var out, last := Coalesced(entries[..n]), entries[n];
    assert entries == entries[..n] + [last];
    if e in entries[..n] {
      EveryoneIsShown(entries[..n], e);
      var o :| o in out && SameDoing(o, e);
      PushKeeps(out, last, o);
      if e in out {
        PushKeeps(out, last, e);
      }
    } else {
      PushShows(out, last);
    }
  }

  lemma PushShows(out: seq<Entry>, last: Entry)
    ensures ShownIn(Push(out, last), last)
    ensures last.comment || last.action == Some("squad_leader_evaluated") ==> last in Push(out, last)
  {
    var r := Push(out, last);
    assert SameDoing(r[|r| - 1], last) && r[|r| - 1] in r;
  }

  lemma PushKeeps(out: seq<Entry>, last: Entry, o: Entry)
    requires o in out
    ensures ShownIn(Push(out, last), o)
    ensures o.comment || o.action == Some("squad_leader_evaluated") ==> o in Push(out, last)
  {
    var k :| 0 <= k < |out| && out[k] == o;
    var r := Push(out, last);
    if k < |out| - 1 || !Merges(out[|out| - 1], last) {
      assert r[k] == o && o in r;
    } else {
      assert SameDoing(r[|r| - 1], o) && r[|r| - 1] in r;
    }
  }
}
