/** Optimistic updates and their rollback: one issue, and a batch with first-wins snapshots. */
module Rollback {
  import opened Basics
  import opened IssueTypes
  import opened Membership
  import opened Buckets
  import opened QueryCache
  import opened Coordinator

  /*** One issue ***/

  function RestoreLists(lists: map<QueryKey, ListEntry>, prev: seq<(QueryKey, ListCache)>): map<QueryKey, ListEntry> {
    if prev == [] then lists
    else
      var n := |prev| - 1;
      RestoreLists(lists, prev[..n])[prev[n].0 := Bucketed(prev[n].1)]
  }

  function AfterRollback(s: Store, id: string, c: Change): Store {
    Store(
      s.listKeys,
      RestoreLists(s.lists, c.prevLists),
      if c.prevDetail.Some? then s.details[id := c.prevDetail.value] else s.details,
      if c.prevInbox.Some? then c.prevInbox else s.inbox)
  }

  method RollbackIssueChange(qc: QueryClient, id: string, c: Change)
    modifies qc
    ensures qc.View() == AfterRollback(old(qc.View()), id, c)
  {
    for n := 0 to |c.prevLists|
      invariant qc.listKeys == old(qc.listKeys) && qc.details == old(qc.details) && qc.inbox == old(qc.inbox)
      invariant qc.lists == RestoreLists(old(qc.lists), c.prevLists[..n])
    {
      assert c.prevLists[..n + 1][..n] == c.prevLists[..n];
      var (key, snapshot) := c.prevLists[n];
      qc.lists := qc.lists[key := Bucketed(snapshot)];
    }
    assert c.prevLists[..|c.prevLists|] == c.prevLists;
    if c.prevDetail.Some? {
      qc.details := qc.details[id := c.prevDetail.value];
    }
    if c.prevInbox.Some? {
      qc.inbox := c.prevInbox;
    }
  }

  lemma {:induction false} RestoreListsAt(lists: map<QueryKey, ListEntry>, prev: seq<(QueryKey, ListCache)>,
                                          was: map<QueryKey, ListEntry>)
    requires Snapshot(prev, was) && lists.Keys == was.Keys
    ensures RestoreLists(lists, prev).Keys == was.Keys
    ensures forall k :: k in was ==> RestoreLists(lists, prev)[k] == if Lists(prev, k) then was[k] else lists[k]
  {
    if prev != [] {
      RestoreListsAt(lists, prev[..|prev| - 1], was);
      LastEntry(prev);
    }
  }

  // The snapshots are exactly the lists the change wrote, each with its old contents.
  lemma {:induction false} WrittenAt(entries: seq<(QueryKey, ListCache)>, lists: map<QueryKey, ListEntry>,
                                     id: string, p: Patch, changed: Dims, base: Option<Issue>)
    requires Snapshot(entries, lists)
    ensures Snapshot(Written(entries, id, p, changed, base), lists)
    ensures forall k :: Lists(Written(entries, id, p, changed, base), k) <==>
              (Lists(entries, k) && Reconcile(k, lists[k].cache, id, p, changed, base).written)
  {
    if entries != [] {
      var n := |entries| - 1;
      WrittenAt(entries[..n], lists, id, p, changed, base);
      LastEntry(entries);
      var rest := Written(entries[..n], id, p, changed, base);
      var last := if Reconcile(entries[n].0, entries[n].1, id, p, changed, base).written then [entries[n]] else [];
      ListsConcat(rest, last);
      assert last != [] ==> last[0].0 == entries[n].0 && Lists(last, entries[n].0);
      assert forall i :: 0 <= i < n ==> entries[..n][i] == entries[i];
      assert !Lists(entries[..n], entries[n].0);
      SnapshotConcat(rest, last, lists);
    }
  }

  // `prev` holds, as they were, all the lists that differ between `was` and `now`.
  ghost predicate Covers(prev: seq<(QueryKey, ListCache)>, was: map<QueryKey, ListEntry>, now: map<QueryKey, ListEntry>) {
    && Snapshot(prev, was) && now.Keys == was.Keys
    && (forall k :: k in was && !Lists(prev, k) ==> now[k] == was[k])
  }

  lemma ChangeCovers(s: Store, id: string, p: Patch, changed: Dims, base: Option<Issue>)
    requires s.Valid()
    ensures Covers(ChangeOf(s, id, p, changed, base).prevLists, s.lists, AfterChange(s, id, p, changed, base).lists)
  {
    BucketedEntriesSpec(s);
    WrittenAt(BucketedListEntries(s), s.lists, id, p, changed, base);
    AfterChangeAt(s, id, p, changed, base);
    forall k | k in s.lists && s.lists[k].Bucketed? {
      UnwrittenKeeps(k, s.lists[k].cache, id, p, changed, base);
    }
  }

  lemma CoveredListsComeBack(prev: seq<(QueryKey, ListCache)>, was: map<QueryKey, ListEntry>, now: map<QueryKey, ListEntry>)
    requires Covers(prev, was, now)
    ensures RestoreLists(now, prev) == was
  {
    RestoreListsAt(now, prev, was);
  }

  // Undoing a change right after making it restores every list, the detail and the inbox.
  lemma RollbackUndoesChange(s: Store, id: string, p: Patch, changed: Dims, base: Option<Issue>)
    requires s.Valid()
    ensures AfterRollback(AfterChange(s, id, p, changed, base), id, ChangeOf(s, id, p, changed, base)) == s
  {
    var t, c := AfterChange(s, id, p, changed, base), ChangeOf(s, id, p, changed, base);
    ChangeCovers(s, id, p, changed, base);
    CoveredListsComeBack(c.prevLists, s.lists, t.lists);
    if id in s.details {
      assert t.details[id := s.details[id]] == s.details;
    }
  }

  /*** A batch ***/

  datatype BatchContext = BatchContext(
    prevLists: map<QueryKey, ListCache>,
    prevDetails: map<string, Issue>,
    prevInbox: Option<seq<InboxItem>>,
    staleKeys: seq<QueryKey>)

  datatype Batch = Batch(store: Store, ctx: BatchContext)

  const EMPTY_CONTEXT := BatchContext(map[], map[], None, [])

  // The first snapshot of a key is kept; later ones already carry partial patches.
  function AddFirst(m: map<QueryKey, ListCache>, prev: seq<(QueryKey, ListCache)>): map<QueryKey, ListCache> {
    if prev == [] then m
    else
      var n := |prev| - 1;
      var before := AddFirst(m, prev[..n]);
      if prev[n].0 in before then before else before[prev[n].0 := prev[n].1]
  }

  function BatchStep(b: Batch, id: string, p: Patch): Batch {
    var base := Detail(b.store, id);
    var changed := IssueChangedDims(p, base);
    var c := ChangeOf(b.store, id, p, changed, base);
    Batch(
      AfterChange(b.store, id, p, changed, base),
      BatchContext(
        AddFirst(b.ctx.prevLists, c.prevLists),
        if c.prevDetail.Some? then b.ctx.prevDetails[id := c.prevDetail.value] else b.ctx.prevDetails,
        if b.ctx.prevInbox.None? && c.prevInbox.Some? then c.prevInbox else b.ctx.prevInbox,
        b.ctx.staleKeys + c.staleKeys))
  }

  function BatchRun(s: Store, ids: seq<string>, p: Patch): Batch {
    if ids == [] then Batch(s, EMPTY_CONTEXT)
    else BatchStep(BatchRun(s, ids[..|ids| - 1], p), ids[|ids| - 1], p)
  }

  method BatchUpdate(qc: QueryClient, ids: seq<string>, p: Patch) returns (ctx: BatchContext)
    modifies qc
    ensures Batch(qc.View(), ctx) == BatchRun(old(qc.View()), ids, p)
  {
    var prevListByHash: map<QueryKey, ListCache> := map[];
    var prevDetailById: map<string, Issue> := map[];
    var prevInboxList: Option<seq<InboxItem>> := None;
    var staleKeys: seq<QueryKey> := [];
    for n := 0 to |ids|
      invariant Batch(qc.View(), BatchContext(prevListByHash, prevDetailById, prevInboxList, staleKeys))
             == BatchRun(old(qc.View()), ids[..n], p)
    {
      assert ids[..n + 1][..n] == ids[..n];
      ghost var before := Batch(qc.View(), BatchContext(prevListByHash, prevDetailById, prevInboxList, staleKeys));
      var id := ids[n];
      var base := Detail(qc.View(), id);
      var change := ApplyIssueChange(qc, id, p, IssueChangedDims(p, base), base);
      for i := 0 to |change.prevLists|
        invariant prevListByHash == AddFirst(before.ctx.prevLists, change.prevLists[..i])
      {
        assert change.prevLists[..i + 1][..i] == change.prevLists[..i];
        var (key, snapshot) := change.prevLists[i];
        if key !in prevListByHash {
          prevListByHash := prevListByHash[key := snapshot];
        }
      }
      assert change.prevLists[..|change.prevLists|] == change.prevLists;
      if change.prevDetail.Some? {
        prevDetailById := prevDetailById[id := change.prevDetail.value];
      }
      if prevInboxList.None? && change.prevInbox.Some? {
        prevInboxList := change.prevInbox;
      }
      staleKeys := staleKeys + change.staleKeys;
      assert Batch(qc.View(), BatchContext(prevListByHash, prevDetailById, prevInboxList, staleKeys)) == BatchStep(before, id, p);
    }
    assert ids[..|ids|] == ids;
    ctx := BatchContext(prevListByHash, prevDetailById, prevInboxList, staleKeys);
  }

  function PutLists(lists: map<QueryKey, ListEntry>, snapshots: map<QueryKey, ListCache>): map<QueryKey, ListEntry> {
    map k | k in lists.Keys + snapshots.Keys :: if k in snapshots then Bucketed(snapshots[k]) else lists[k]
  }

  function AfterBatchRollback(b: Batch): Store {
    Store(
      b.store.listKeys,
      PutLists(b.store.lists, b.ctx.prevLists),
      b.store.details + b.ctx.prevDetails,
      if b.ctx.prevInbox.Some? then b.ctx.prevInbox else b.store.inbox)
  }

  method BatchRollback(qc: QueryClient, ctx: BatchContext)
    modifies qc
    ensures qc.View() == AfterBatchRollback(Batch(old(qc.View()), ctx))
  {
    RestoreSnapshots(qc, ctx.prevLists);
    RestoreDetails(qc, ctx.prevDetails);
    if ctx.prevInbox.Some? {
      qc.inbox := ctx.prevInbox;
    }
  }

  method RestoreSnapshots(qc: QueryClient, snapshots: map<QueryKey, ListCache>)
    modifies qc`lists
    ensures qc.lists == PutLists(old(qc.lists), snapshots)
  {
    var keys := snapshots.Keys;
    assert snapshots - keys == map[];
    while keys != {}
      invariant keys <= snapshots.Keys
      invariant qc.lists == PutLists(old(qc.lists), snapshots - keys)
      decreases keys
    {
      var key :| key in keys;
      assert snapshots - (keys - {key}) == (snapshots - keys)[key := snapshots[key]];
      qc.lists := qc.lists[key := Bucketed(snapshots[key])];
      keys := keys - {key};
    }
    assert snapshots - {} == snapshots;
  }

  method RestoreDetails(qc: QueryClient, snapshots: map<string, Issue>)
    modifies qc`details
    ensures qc.details == old(qc.details) + snapshots
  {
    var ids := snapshots.Keys;
    assert snapshots - ids == map[];
    while ids != {}
      invariant ids <= snapshots.Keys
      invariant qc.details == old(qc.details) + (snapshots - ids)
      decreases ids
    {
      var id :| id in ids;
      assert snapshots - (ids - {id}) == (snapshots - ids)[id := snapshots[id]];
      qc.details := qc.details[id := snapshots[id]];
      ids := ids - {id};
    }
    assert snapshots - {} == snapshots;
  }

  lemma {:induction false} AddFirstAt(m: map<QueryKey, ListCache>, prev: seq<(QueryKey, ListCache)>, lists: map<QueryKey, ListEntry>)
    requires Snapshot(prev, lists)
    ensures forall k :: k in AddFirst(m, prev) <==> (k in m || Lists(prev, k))
    ensures forall k :: k in AddFirst(m, prev) ==>
              if k in m then AddFirst(m, prev)[k] == m[k]
              else k in lists && lists[k] == Bucketed(AddFirst(m, prev)[k])
  {
    if prev != [] {
      AddFirstAt(m, prev[..|prev| - 1], lists);
      LastEntry(prev);
    }
  }

  function Times(ids: seq<string>, id: string): nat {
    multiset(ids)[id]
  }

  // Every list written so far is snapshotted as it was before the batch.
  ghost predicate ListsKept(was: map<QueryKey, ListEntry>, now: map<QueryKey, ListEntry>, snapshots: map<QueryKey, ListCache>) {
    && now.Keys == was.Keys
    && (forall k :: k in snapshots ==> k in was && was[k] == Bucketed(snapshots[k]))
    && (forall k :: k in was && k !in snapshots ==> now[k] == was[k])
  }

  // A detail updated once is snapshotted as it was; one updated again, as patched.
  ghost predicate DetailKept(was: Issue, now: Issue, snapshot: Option<Issue>, times: nat, p: Patch) {
    && now == (if times > 0 then Merge(was, p) else was)
    && snapshot == (if times == 0 then None else Some(if times > 1 then Merge(was, p) else was))
  }

  function SnapshotOf(snapshots: map<string, Issue>, d: string): Option<Issue> {
    if d in snapshots then Some(snapshots[d]) else None
  }

  ghost predicate DetailsKept(was: map<string, Issue>, now: map<string, Issue>, snapshots: map<string, Issue>,
                              done: seq<string>, p: Patch)
  {
    && now.Keys == was.Keys && snapshots.Keys <= was.Keys
    && forall d :: d in was ==> DetailKept(was[d], now[d], SnapshotOf(snapshots, d), Times(done, d), p)
  }

  ghost predicate BatchInvariant(s: Store, b: Batch, done: seq<string>, p: Patch) {
    && b.store.Valid() && b.store.listKeys == s.listKeys
    && ListsKept(s.lists, b.store.lists, b.ctx.prevLists)
    && DetailsKept(s.details, b.store.details, b.ctx.prevDetails, done, p)
    && (if b.ctx.prevInbox.Some? then b.ctx.prevInbox == s.inbox else b.store.inbox == s.inbox)
  }

  lemma ListsStep(was: map<QueryKey, ListEntry>, before: map<QueryKey, ListEntry>, now: map<QueryKey, ListEntry>,
                  m: map<QueryKey, ListCache>, prev: seq<(QueryKey, ListCache)>)
    requires ListsKept(was, before, m) && Covers(prev, before, now)
    ensures ListsKept(was, now, AddFirst(m, prev))
  {
    AddFirstAt(m, prev, before);
  }

  lemma TimesNext(done: seq<string>, id: string, d: string)
    ensures Times(done + [id], d) == Times(done, d) + (if d == id then 1 else 0)
  {
    assert multiset(done + [id]) == multiset(done) + multiset{id};
  }

  lemma DetailStep(was: Issue, now: Issue, snapshot: Option<Issue>, times: nat, p: Patch)
    requires DetailKept(was, now, snapshot, times, p)
    ensures DetailKept(was, Merge(now, p), Some(now), times + 1, p)
  {
  }

  lemma DetailsStep(was: map<string, Issue>, before: map<string, Issue>, snapshots: map<string, Issue>,
                    done: seq<string>, id: string, p: Patch)
    requires DetailsKept(was, before, snapshots, done, p)
    ensures DetailsKept(was,
              if id in before then before[id := Merge(before[id], p)] else before,
              if id in before then snapshots[id := before[id]] else snapshots,
              done + [id], p)
  {
    forall d | d in was ensures Times(done + [id], d) == Times(done, d) + (if d == id then 1 else 0) {
      TimesNext(done, id, d);
    }
    if id in before {
      DetailStep(was[id], before[id], SnapshotOf(snapshots, id), Times(done, id), p);
    }
  }

  lemma BatchStepKeeps(s: Store, b: Batch, next: Batch, done: seq<string>, id: string, p: Patch)
    requires s.Valid() && BatchInvariant(s, b, done, p)
    requires next == BatchStep(b, id, p)
    ensures BatchInvariant(s, next, done + [id], p)
  {
    var base := Detail(b.store, id);
    var changed := IssueChangedDims(p, base);
    var t, c := AfterChange(b.store, id, p, changed, base), ChangeOf(b.store, id, p, changed, base);
    assert t.Valid() by {
      AfterChangeAt(b.store, id, p, changed, base);
    }
    assert Covers(c.prevLists, b.store.lists, t.lists) by {
      ChangeCovers(b.store, id, p, changed, base);
    }
    assert ListsKept(s.lists, next.store.lists, next.ctx.prevLists) by {
      ListsStep(s.lists, b.store.lists, t.lists, b.ctx.prevLists, c.prevLists);
    }
    assert DetailsKept(s.details, next.store.details, next.ctx.prevDetails, done + [id], p) by {
      DetailsStep(s.details, b.store.details, b.ctx.prevDetails, done, id, p);
    }
  }

  lemma BatchStarts(s: Store, p: Patch)
    requires s.Valid()
    ensures BatchInvariant(s, BatchRun(s, [], p), [], p)
  {
    assert forall d :: Times([], d) == 0;
  }

  lemma {:induction false} BatchRunKeeps(s: Store, ids: seq<string>, p: Patch)
    requires s.Valid()
    ensures BatchInvariant(s, BatchRun(s, ids, p), ids, p)
  {
    if ids == [] {
      BatchStarts(s, p);
    } else {
      var n := |ids| - 1;
      assert ids == ids[..n] + [ids[n]];
      BatchRunKeeps(s, ids[..n], p);
      BatchStepKeeps(s, BatchRun(s, ids[..n], p), BatchRun(s, ids, p), ids[..n], ids[n], p);
    }
  }

  lemma KeptListsComeBack(was: map<QueryKey, ListEntry>, now: map<QueryKey, ListEntry>, snapshots: map<QueryKey, ListCache>)
    requires ListsKept(was, now, snapshots)
    ensures PutLists(now, snapshots) == was
  {
    assert PutLists(now, snapshots).Keys == was.Keys;
  }

  lemma KeptDetailsComeBackIff(was: map<string, Issue>, now: map<string, Issue>, snapshots: map<string, Issue>,
                               done: seq<string>, p: Patch)
    requires DetailsKept(was, now, snapshots, done, p)
    ensures now + snapshots == was <==> forall d :: d in was && Times(done, d) > 1 ==> AlreadyIn(p, was[d])
  {
    var r := now + snapshots;
    assert r.Keys == was.Keys;
    assert forall d :: d in was ==> r[d] == if Times(done, d) > 1 then Merge(was[d], p) else was[d];
  }

  // Rolling a batch back restores the lists and the inbox for any ids whatsoever; it restores
  // the whole store exactly when no detail of a repeated id is changed by the patch.
  lemma BatchRollbackIff(s: Store, ids: seq<string>, p: Patch)
    requires s.Valid()
    ensures var r := AfterBatchRollback(BatchRun(s, ids, p));
      && r.lists == s.lists && r.inbox == s.inbox && r.listKeys == s.listKeys
      && (r == s <==> forall d :: d in s.details && Times(ids, d) > 1 ==> AlreadyIn(p, s.details[d]))
  {
    var b := BatchRun(s, ids, p);
    BatchRunKeeps(s, ids, p);
    KeptListsComeBack(s.lists, b.store.lists, b.ctx.prevLists);
    KeptDetailsComeBackIff(s.details, b.store.details, b.ctx.prevDetails, ids, p);
  }

  // An id named twice: the second snapshot of its detail already carries the patch.
  lemma RepeatedIdKeepsThePatch(i: Issue, p: Patch)
    requires i.title == "a" && p.title == Some("b")
    ensures var s := Store([], map[], map[i.id := i], None);
      s.Valid() && AfterBatchRollback(BatchRun(s, [i.id, i.id], p)) != s
  {
    var s := Store([], map[], map[i.id := i], None);
    assert multiset([i.id, i.id]) == multiset{i.id, i.id};
    assert i.id in s.details && Times([i.id, i.id], i.id) == 2 && !AlreadyIn(p, i);
    BatchRollbackIff(s, [i.id, i.id], p);
  }

  // For distinct ids the pre-batch store comes back, however many of them touched one list.
  lemma DistinctBatchRollsBack(s: Store, ids: seq<string>, p: Patch)
    requires s.Valid() && Distinct(ids)
    ensures AfterBatchRollback(BatchRun(s, ids, p)) == s
  {
    forall d ensures Times(ids, d) <= 1 {
      DistinctTimes(ids, d);
    }
    BatchRollbackIff(s, ids, p);
  }

  lemma {:induction false} DistinctTimes(ids: seq<string>, d: string)
    requires Distinct(ids)
    ensures Times(ids, d) <= 1
  {
    if ids != [] {
      DistinctTimes(ids[1..], d);
      assert ids == [ids[0]] + ids[1..];
      assert multiset(ids) == multiset{ids[0]} + multiset(ids[1..]);
      if d == ids[0] {
        assert d !in ids[1..];
      }
    }
  }
}
