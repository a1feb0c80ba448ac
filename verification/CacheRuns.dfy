/** Whole runs of one client: passes of the rules table, creates, rollbacks and refetches, list by list. */
module CacheRuns {
  import opened Basics
  import opened IssueTypes
  import opened Membership
  import opened Buckets
  import opened QueryCache
  import opened Coordinator
  import opened Refinement
  import opened WsUpdates
  import opened Rollback

  // `seen`: the issues as each list has been told of them, by its last refetch and the passes and
  // creates since. `stale`: the keys invalidated and not refetched yet. `owed`: for each optimistic
  // pass not settled, the keys it will invalidate when it is. `drifted`: the lists some pass or
  // create disagreed with that were neither stale nor owed, since their last refetch.
  datatype System = System(
    store: Store,
    seen: map<QueryKey, World>,
    stale: set<QueryKey>,
    owed: seq<set<QueryKey>>,
    drifted: set<QueryKey>)

  // A save is three events, its optimistic pass, the pass over the answer and its settling, with
  // anything between them. A batch is the optimistic passes of its issues. A failed save or batch
  // is one event.
  datatype Event =
    | Updated(id: string, patch: Patch, flags: Flags)
    | Optimistic(id: string, patch: Patch)
    | Answered(intent: Patch, answer: Issue)
    | Settled(n: nat)
    | Failed(id: string, patch: Patch)
    | BatchFailed(ids: seq<string>, patch: Patch)
    | Created(issue: Issue)
    | Refetched(key: QueryKey, world: World, page: ListCache)
    | DetailFetched(issue: Issue)

  /*** Passes ***/

  predicate IsBucketed(s: Store, k: QueryKey) {
    k in s.lists && s.lists[k].Bucketed?
  }

  // The list is going to be refetched: its key is invalidated, or will be.
  ghost predicate Known(y: System, k: QueryKey) {
    k in y.stale || exists i :: 0 <= i < |y.owed| && k in y.owed[i]
  }

  function StaleNow(c: Change): set<QueryKey> {
    set k | k in c.staleKeys
  }

  function ToldSeen(seen: map<QueryKey, World>, id: string, p: Patch): map<QueryKey, World> {
    map k | k in seen :: Told(seen[k], id, p)
  }

  // Whether the pass disagrees with the list under `k` and does not report it.
  predicate Drifts(srv: Server, y: System, k: QueryKey, id: string, p: Patch, changed: Dims, base: Option<Issue>)
    requires IsBucketed(y.store, k) && k in y.seen
  {
    var c, w := y.store.lists[k].cache, y.seen[k];
    !Reconcile(k, c, id, p, changed, base).stale
    && !PassAgrees(srv, k, c, id, EntityOf(w, id), EntityOf(Told(w, id, p), id), p, changed, base)
  }

  // A pass; the keys it reports are invalidated at once, or when it settles.
  ghost function Pass(srv: Server, y: System, id: string, p: Patch, changed: Dims, base: Option<Issue>, later: bool): System {
    var reported := StaleNow(ChangeOf(y.store, id, p, changed, base));
    System(
      AfterChange(y.store, id, p, changed, base),
      ToldSeen(y.seen, id, p),
      if later then y.stale else y.stale + reported,
      if later then y.owed + [reported] else y.owed,
      y.drifted + set k | k in y.store.lists && IsBucketed(y.store, k) && k in y.seen && !Known(y, k)
                          && Drifts(srv, y, k, id, p, changed, base))
  }

  /*** Creates ***/

  function AfterCreated(s: Store, issue: Issue): Store {
    s.(lists := map k | k in s.lists ::
         if k.WorkspaceList? && s.lists[k].Bucketed? then Bucketed(AddIssue(s.lists[k].cache, issue)) else s.lists[k])
  }

  function MyKeys(s: Store): set<QueryKey> {
    set k | k in s.lists && k.MyList?
  }

  // Adding the card leaves a right list right: the card is there already, or the list's server
  // counts the issue and did not count it before.
  predicate CreateAgrees(srv: Server, k: QueryKey, c: ListCache, w: World, i: Issue) {
    if Card(c, i.status, i.id).Some? then Card(c, i.status, i.id) == Some(i)
    else Member(srv, k, i) && PlaceOf(srv, k, EntityOf(w, i.id)) == None
  }

  // No loaded card of the list contradicts the issue.
  ghost predicate CardsAgree(k: QueryKey, c: ListCache, i: Issue) {
    if k.WorkspaceList? && Card(c, i.status, i.id).None? then forall s :: Card(c, s, i.id).None?
    else forall s :: Card(c, s, i.id).None? || Card(c, s, i.id) == Some(i)
  }

  ghost predicate CreateDrifts(srv: Server, y: System, k: QueryKey, i: Issue)
    requires IsBucketed(y.store, k) && k in y.seen
  {
    var c, w := y.store.lists[k].cache, y.seen[k];
    !CardsAgree(k, c, i) || (k.WorkspaceList? && !Known(y, k) && !CreateAgrees(srv, k, c, w, i))
  }

  ghost function Create(srv: Server, y: System, i: Issue): System {
    System(
      AfterCreated(y.store, i),
      map k | k in y.seen :: var w: World := y.seen[k][i.id := i]; w,
      y.stale + MyKeys(y.store),
      y.owed,
      y.drifted + set k | k in y.store.lists && IsBucketed(y.store, k) && k in y.seen && CreateDrifts(srv, y, k, i))
  }

  /*** Steps and runs ***/

  // A refetched page is one the server answers for some state of the issues.
  ghost predicate Enabled(srv: Server, y: System, e: Event) {
    e.Refetched? ==> e.key in y.store.lists && Synced(srv, e.key, e.page, e.world)
  }

  ghost function Next(srv: Server, y: System, e: Event): System {
    match e
    case Updated(id, p, f) =>
      var cached := CachedIssue(y.store, id);
      Pass(srv, y, id, p, WsDims(f, p, cached), cached, false)
    case Optimistic(id, p) =>
      Pass(srv, y, id, p, IssueChangedDims(p, Detail(y.store, id)), Detail(y.store, id), true)
    case Answered(intent, answer) =>
      Pass(srv, y, answer.id, Whole(answer), IssueChangedDims(intent, Some(answer)), Some(answer), false)
    case Settled(n) =>
      if n < |y.owed| then y.(stale := y.stale + y.owed[n], owed := y.owed[..n] + y.owed[n + 1..]) else y
    case Failed(id, p) =>
      var base := Detail(y.store, id);
      var changed := IssueChangedDims(p, base);
      var c := ChangeOf(y.store, id, p, changed, base);
      y.(store := AfterRollback(AfterChange(y.store, id, p, changed, base), id, c), stale := y.stale + StaleNow(c))
    case BatchFailed(ids, p) =>
      var b := BatchRun(y.store, ids, p);
      y.(store := AfterBatchRollback(b), stale := y.stale + set k | k in b.ctx.staleKeys)
    case Created(i) => Create(srv, y, i)
    case Refetched(k, w, page) =>
      if k in y.store.lists then
        System(y.store.(lists := y.store.lists[k := Bucketed(page)]), y.seen[k := w], y.stale - {k}, y.owed, y.drifted - {k})
      else y
    case DetailFetched(i) => y.(store := y.store.(details := y.store.details[i.id := i]))
  }

  // Every loaded card shows the issue as the list was told of it.
  ghost predicate Current(c: ListCache, w: World) {
    UniqueIds(c) && forall s, j :: Card(c, s, j).Some? ==> j in w && Card(c, s, j).value == w[j]
  }

  // A list that has not drifted shows current cards, even while a refetch is due; if none is due
  // either, it is exactly what the server would answer.
  ghost predicate ListConsistent(srv: Server, y: System, k: QueryKey)
    requires IsBucketed(y.store, k)
  {
    && k in y.seen
    && (k !in y.drifted ==> Current(y.store.lists[k].cache, y.seen[k]))
    && (k !in y.drifted && !Known(y, k) ==> Synced(srv, k, y.store.lists[k].cache, y.seen[k]))
  }

  ghost predicate Consistent(srv: Server, y: System) {
    y.store.Valid() && forall k :: IsBucketed(y.store, k) ==> ListConsistent(srv, y, k)
  }

  ghost predicate IsRun(srv: Server, y: System, es: seq<Event>)
    decreases |es|
  {
    es == [] || (Enabled(srv, y, es[0]) && IsRun(srv, Next(srv, y, es[0]), es[1..]))
  }

  ghost function Final(srv: Server, y: System, es: seq<Event>): System
    decreases |es|
  {
    if es == [] then y else Final(srv, Next(srv, y, es[0]), es[1..])
  }

  /*** Passes keep every list ***/

  lemma PatchStaysCurrent(c: ListCache, w: World, id: string, p: Patch)
    requires Current(c, w) && FindIssueLocation(c, id).Some?
    ensures id in w && Current(PatchIssue(c, id, p), Told(w, id, p))
  {
    LocationSpec(c, id);
    PatchSpec(c, FindIssueLocation(c, id).value, p);
  }

  lemma RemoveStaysCurrent(c: ListCache, w: World, id: string, p: Patch)
    requires Current(c, w) && FindIssueLocation(c, id).Some?
    ensures Current(RemoveIssue(c, id), Told(w, id, p))
  {
    LocationSpec(c, id);
    RemoveSpec(c, FindIssueLocation(c, id).value);
  }

  lemma ReconcileStaysCurrent(k: QueryKey, c: ListCache, w: World, id: string, p: Patch, changed: Dims, base: Option<Issue>)
    requires Current(c, w)
    ensures Current(Reconcile(k, c, id, p, changed, base).next, Told(w, id, p))
  {
    LocationSpec(c, id);
    if FindIssueLocation(c, id).Some? {
      PatchStaysCurrent(c, w, id, p);
      RemoveStaysCurrent(c, w, id, p);
    } else {
      CardsKept(k, c, id, p, changed, base);
    }
  }

  lemma KnownAfter(y: System, reported: set<QueryKey>, later: bool, k: QueryKey)
    ensures var n := y.(stale := if later then y.stale else y.stale + reported, owed := if later then y.owed + [reported] else y.owed);
      Known(n, k) <==> Known(y, k) || k in reported
  {
    var n := y.(stale := if later then y.stale else y.stale + reported, owed := if later then y.owed + [reported] else y.owed);
    if later && k in reported {
      assert k in n.owed[|y.owed|];
    }
    if i :| 0 <= i < |y.owed| && k in y.owed[i] {
      assert k in n.owed[i];
    }
  }

  // What a pass does to one list of the system.
  lemma PassAt(srv: Server, y: System, id: string, p: Patch, changed: Dims, base: Option<Issue>,
                later: bool, k: QueryKey)
    requires y.store.Valid() && IsBucketed(y.store, k) && k in y.seen
    ensures var n := Pass(srv, y, id, p, changed, base, later);
      var o := Reconcile(k, y.store.lists[k].cache, id, p, changed, base);
      && IsBucketed(n.store, k) && n.store.lists[k].cache == o.next
      && k in n.seen && n.seen[k] == Told(y.seen[k], id, p)
      && (Known(n, k) <==> Known(y, k) || o.stale)
      && (k in n.drifted <==> k in y.drifted || (!Known(y, k) && Drifts(srv, y, k, id, p, changed, base)))
  {
    AfterChangeAt(y.store, id, p, changed, base);
    ReportedStale(y.store, id, p, changed, base);
    KnownAfter(y, StaleNow(ChangeOf(y.store, id, p, changed, base)), later, k);
  }

  lemma PassShape(srv: Server, y: System, id: string, p: Patch, changed: Dims, base: Option<Issue>, later: bool)
    requires y.store.Valid()
    ensures var n := Pass(srv, y, id, p, changed, base, later);
      n.store.Valid() && n.seen.Keys == y.seen.Keys && forall k :: IsBucketed(n.store, k) <==> IsBucketed(y.store, k)
  {
    AfterChangeAt(y.store, id, p, changed, base);
  }

  // One list through one pass: once right it stays right, or is known stale, or has drifted, and
  // it drifts only if it is wrong.
  lemma PassListIff(srv: Server, y: System, id: string, p: Patch, changed: Dims, base: Option<Issue>,
                later: bool, k: QueryKey)
    requires y.store.Valid() && IsBucketed(y.store, k) && ListConsistent(srv, y, k)
    ensures var n := Pass(srv, y, id, p, changed, base, later);
      && IsBucketed(n.store, k) && ListConsistent(srv, n, k)
      && (k !in y.drifted && !Known(n, k) ==>
            (k !in n.drifted <==> Synced(srv, k, n.store.lists[k].cache, n.seen[k])))
  {
    PassAt(srv, y, id, p, changed, base, later, k);
    var c, w := y.store.lists[k].cache, y.seen[k];
    if k !in y.drifted {
      ReconcileStaysCurrent(k, c, w, id, p, changed, base);
      if !Known(y, k) {
        PassRefinesIff(srv, k, c, w, id, p, changed, base);
      }
    }
  }

  lemma PassKeepsConsistent(srv: Server, y: System, id: string, p: Patch, changed: Dims, base: Option<Issue>, later: bool)
    requires Consistent(srv, y)
    ensures Consistent(srv, Pass(srv, y, id, p, changed, base, later))
  {
    PassShape(srv, y, id, p, changed, base, later);
    forall k | IsBucketed(Pass(srv, y, id, p, changed, base, later).store, k)
      ensures ListConsistent(srv, Pass(srv, y, id, p, changed, base, later), k)
    {
      PassListIff(srv, y, id, p, changed, base, later, k);
    }
  }

  /*** Creates keep every list ***/

  // A fresh card goes to the end of its bucket, counted; nothing else moves.
  lemma AddedCards(c: ListCache, i: Issue)
    requires forall s :: Card(c, s, i.id).None?
    ensures forall s :: GetBucket(AddIssue(c, i), s).total == GetBucket(c, s).total + (if s == i.status then 1 else 0)
    ensures forall s, j :: Card(AddIssue(c, i), s, j) ==
              if j == i.id then (if s == i.status then Some(i) else None) else Card(c, s, j)
  {
    var b := GetBucket(c, i.status);
    var n := AddIssue(c, i);
    assert Card(c, i.status, i.id).None?;
    assert n == SetBucket(c, i.status, Bucket(b.issues + [i], b.total + 1));
    FindAppend(b.issues, i, i.id);
    forall s | s != i.status ensures GetBucket(n, s) == GetBucket(c, s) {}
    assert GetBucket(n, i.status) == Bucket(b.issues + [i], b.total + 1);
    forall s, j ensures Card(n, s, j) == if j == i.id then (if s == i.status then Some(i) else None) else Card(c, s, j) {
      FindAppend(b.issues, i, j);
      assert Card(c, s, i.id).None?;
      if s == i.status {
        assert Card(n, s, j) == Find(b.issues + [i], j) && Card(c, s, j) == Find(b.issues, j);
      } else {
        assert Card(n, s, j) == Card(c, s, j);
      }
    }
  }

  lemma AddedUnique(c: ListCache, i: Issue)
    requires UniqueIds(c) && forall s :: Card(c, s, i.id).None?
    ensures UniqueIds(AddIssue(c, i))
  {
    var b := GetBucket(c, i.status);
    var n := AddIssue(c, i);
    assert Card(c, i.status, i.id).None?;
    assert n == SetBucket(c, i.status, Bucket(b.issues + [i], b.total + 1));
    AddedCards(c, i);
    FindAppend(b.issues, i, i.id);
    forall s | s != i.status ensures GetBucket(n, s) == GetBucket(c, s) {}
  }

  lemma KnownCardIff(srv: Server, k: QueryKey, c: ListCache, w: World, i: Issue)
    requires Synced(srv, k, c, w) && Card(c, i.status, i.id).Some?
    ensures Synced(srv, k, AddIssue(c, i), w[i.id := i]) <==> Card(c, i.status, i.id) == Some(i)
  {
    var card := Card(c, i.status, i.id).value;
    assert AddIssue(c, i) == c && w[i.id] == card;
    if card == i {
      assert w[i.id := i] == w;
    } else {
      assert w[i.id := i][i.id] == i;
    }
  }

  lemma LoadedElsewhere(srv: Server, k: QueryKey, c: ListCache, w: World, i: Issue, s: Status)
    requires Synced(srv, k, c, w) && Card(c, i.status, i.id).None? && Card(c, s, i.id).Some?
    ensures !Synced(srv, k, AddIssue(c, i), w[i.id := i]) && PlaceOf(srv, k, EntityOf(w, i.id)) == Some(s)
  {
    var b, n := GetBucket(c, i.status), AddIssue(c, i);
    FindAppend(b.issues, i, i.id);
    assert GetBucket(n, i.status).issues == b.issues + [i] && GetBucket(n, s) == GetBucket(c, s);
    assert Card(n, i.status, i.id).Some? && Card(n, s, i.id).Some?;
  }

  // A unit more at `st` matches one issue moving from `from` to `to`, with its card shown there.
  lemma UnitOnIff(placed: map<string, Status>, id: string, to: Option<Status>, st: Status)
    requires to.Some? ==> to.value == st
    ensures (to == Some(st) && forall s :: Count(Move(placed, id, to), s) == Count(placed, s) + (if s == st then 1 else 0))
        <==> (to == Some(st) && Place(placed, id) == None)
  {
    CountsAfter(placed, id, to);
    assert Place(placed, id).Some? ==> Count(Move(placed, id, to), Place(placed, id).value) <= Count(placed, Place(placed, id).value);
  }

  // A card added to a list that has none of the issue.
  lemma NewCardIff(srv: Server, k: QueryKey, c: ListCache, w: World, i: Issue)
    requires Synced(srv, k, c, w) && forall s :: Card(c, s, i.id).None?
    ensures Synced(srv, k, AddIssue(c, i), w[i.id := i]) <==>
            (Member(srv, k, i) && PlaceOf(srv, k, EntityOf(w, i.id)) == None)
  {
    var placed, to := Placed(srv, k, w), PlaceOf(srv, k, Some(i));
    PlacedOther(srv, k, w, w[i.id := i], i.id);
    assert Place(placed, i.id) == PlaceOf(srv, k, EntityOf(w, i.id));
    AddedSyncedIff(c, placed, w, i, to);
    UnitOnIff(placed, i.id, to, i.status);
  }

  lemma AddedSyncedIff(c: ListCache, placed: map<string, Status>, w: World, i: Issue, to: Option<Status>)
    requires SyncedWith(c, placed, w) && forall s :: Card(c, s, i.id).None?
    requires to.Some? ==> to.value == i.status
    ensures SyncedWith(AddIssue(c, i), Move(placed, i.id, to), w[i.id := i]) <==>
      (to == Some(i.status)
       && forall s :: Count(Move(placed, i.id, to), s) == Count(placed, s) + (if s == i.status then 1 else 0))
  {
    AddedCards(c, i);
    AddedUnique(c, i);
    var n := AddIssue(c, i);
    assert Card(n, i.status, i.id) == Some(i);
    assert forall s :: GetBucket(n, s).total == Count(placed, s) + (if s == i.status then 1 else 0);
    assert forall s, j :: Card(n, s, j).Some? ==> j == i.id || Card(c, s, j) == Card(n, s, j);
  }

  // Exactly when a list that was right is right after a create event.
  lemma CreatedListIff(srv: Server, k: QueryKey, c: ListCache, w: World, i: Issue)
    requires Synced(srv, k, c, w)
    ensures Synced(srv, k, AddIssue(c, i), w[i.id := i]) <==> CreateAgrees(srv, k, c, w, i)
  {
    if Card(c, i.status, i.id).Some? {
      KnownCardIff(srv, k, c, w, i);
    } else if s :| Card(c, s, i.id).Some? {
      LoadedElsewhere(srv, k, c, w, i, s);
    } else {
      NewCardIff(srv, k, c, w, i);
    }
  }

  lemma CreateStaysCurrent(k: QueryKey, c: ListCache, w: World, i: Issue)
    requires Current(c, w) && CardsAgree(k, c, i)
    ensures Current(if k.WorkspaceList? then AddIssue(c, i) else c, w[i.id := i])
  {
    if k.WorkspaceList? && Card(c, i.status, i.id).None? {
      AddedCards(c, i);
      AddedUnique(c, i);
    } else {
      assert k.WorkspaceList? ==> AddIssue(c, i) == c;
    }
  }

  lemma CreateListIff(srv: Server, y: System, i: Issue, k: QueryKey)
    requires IsBucketed(y.store, k) && ListConsistent(srv, y, k)
    ensures var n := Create(srv, y, i);
      && IsBucketed(n.store, k) && ListConsistent(srv, n, k)
      && (k !in y.drifted && !Known(n, k) ==>
            (k !in n.drifted <==> Synced(srv, k, n.store.lists[k].cache, n.seen[k])))
  {
    var c, w := y.store.lists[k].cache, y.seen[k];
    if k !in y.drifted && CardsAgree(k, c, i) {
      CreateStaysCurrent(k, c, w, i);
    }
    if k !in y.drifted && !Known(y, k) && k.WorkspaceList? {
      CreatedListIff(srv, k, c, w, i);
      if CreateAgrees(srv, k, c, w, i) {
        RightCardsAgree(srv, k, c, w, i);
      }
    }
  }

  lemma RightCardsAgree(srv: Server, k: QueryKey, c: ListCache, w: World, i: Issue)
    requires Synced(srv, k, c, w) && CreateAgrees(srv, k, c, w, i)
    ensures CardsAgree(k, c, i)
  {
    if s :| Card(c, s, i.id).Some? {
      assert s in [s] && PlaceOf(srv, k, EntityOf(w, i.id)) == Some(s);
    }
  }

  lemma CreateKeepsConsistent(srv: Server, y: System, i: Issue)
    requires Consistent(srv, y)
    ensures Consistent(srv, Create(srv, y, i))
  {
    forall k | IsBucketed(Create(srv, y, i).store, k) ensures ListConsistent(srv, Create(srv, y, i), k) {
      assert IsBucketed(y.store, k);
      CreateListIff(srv, y, i, k);
    }
  }

  /*** Failures, and all runs ***/

  lemma FailureRestores(srv: Server, y: System, e: Event)
    requires y.store.Valid() && (e.Failed? || e.BatchFailed?)
    ensures Next(srv, y, e).store.lists == y.store.lists && Next(srv, y, e).store.Valid()
    ensures (e.Failed? || Distinct(e.ids)) ==> Next(srv, y, e).store == y.store
    ensures Next(srv, y, e).seen == y.seen && Next(srv, y, e).drifted == y.drifted
    ensures y.stale <= Next(srv, y, e).stale && Next(srv, y, e).owed == y.owed
  {
    if e.Failed? {
      var base := Detail(y.store, e.id);
      RollbackUndoesChange(y.store, e.id, e.patch, IssueChangedDims(e.patch, base), base);
    } else {
      BatchRollbackIff(y.store, e.ids, e.patch);
      if Distinct(e.ids) {
        DistinctBatchRollsBack(y.store, e.ids, e.patch);
      }
    }
  }

  // Settling invalidates what was owed: the same lists are going to be refetched.
  lemma SettledKnows(y: System, n: nat, k: QueryKey)
    ensures var t := if n < |y.owed| then y.(stale := y.stale + y.owed[n], owed := y.owed[..n] + y.owed[n + 1..]) else y;
      Known(t, k) <==> Known(y, k)
  {
    if n < |y.owed| {
      var t := y.(stale := y.stale + y.owed[n], owed := y.owed[..n] + y.owed[n + 1..]);
      if i :| 0 <= i < |y.owed| && k in y.owed[i] {
        assert i < n ==> t.owed[i] == y.owed[i];
        assert i > n ==> t.owed[i - 1] == y.owed[i];
      }
      if i :| 0 <= i < |t.owed| && k in t.owed[i] {
        assert t.owed[i] == if i < n then y.owed[i] else y.owed[i + 1];
      }
    }
  }

  lemma SettledKeeps(srv: Server, y: System, n: nat)
    requires Consistent(srv, y)
    ensures Consistent(srv, Next(srv, y, Settled(n)))
  {
    forall k { SettledKnows(y, n, k); }
    SameListsKeep(srv, y, Next(srv, y, Settled(n)));
  }

  lemma RefetchKeepsConsistent(srv: Server, y: System, k: QueryKey, w: World, page: ListCache)
    requires Consistent(srv, y) && Enabled(srv, y, Refetched(k, w, page))
    ensures Consistent(srv, Next(srv, y, Refetched(k, w, page)))
  {
    var n := Next(srv, y, Refetched(k, w, page));
    forall j | IsBucketed(n.store, j) ensures ListConsistent(srv, n, j) {
      if j != k {
        assert IsBucketed(y.store, j) && ListConsistent(srv, y, j);
      }
    }
  }

  lemma StepKeepsConsistent(srv: Server, y: System, e: Event)
    requires Consistent(srv, y) && Enabled(srv, y, e)
    ensures Consistent(srv, Next(srv, y, e))
  {
    match e {
      case Updated(id, p, f) =>
        PassKeepsConsistent(srv, y, id, p, WsDims(f, p, CachedIssue(y.store, id)), CachedIssue(y.store, id), false);
      case Optimistic(id, p) =>
        PassKeepsConsistent(srv, y, id, p, IssueChangedDims(p, Detail(y.store, id)), Detail(y.store, id), true);
      case Answered(intent, answer) =>
        PassKeepsConsistent(srv, y, answer.id, Whole(answer), IssueChangedDims(intent, Some(answer)), Some(answer), false);
      case Settled(n) => SettledKeeps(srv, y, n);
      case Created(i) => CreateKeepsConsistent(srv, y, i);
      case Refetched(k, w, page) => RefetchKeepsConsistent(srv, y, k, w, page);
      case DetailFetched(i) => SameListsKeep(srv, y, Next(srv, y, e));
      case Failed(_, _) =>
        FailureRestores(srv, y, e);
        SameListsKeep(srv, y, Next(srv, y, e));
      case BatchFailed(_, _) =>
        FailureRestores(srv, y, e);
        SameListsKeep(srv, y, Next(srv, y, e));
    }
  }

  lemma SameListsKeep(srv: Server, y: System, n: System)
    requires Consistent(srv, y) && n.store.Valid() && n.store.lists == y.store.lists
    requires n.seen == y.seen && n.drifted == y.drifted && forall k :: Known(y, k) ==> Known(n, k)
    ensures Consistent(srv, n)
  {
    forall k | IsBucketed(n.store, k) ensures ListConsistent(srv, n, k) {
      assert IsBucketed(y.store, k) && ListConsistent(srv, y, k);
    }
  }

  // Over any run whatever - unsound flags, foreign bases, late answers, known or unknown issues -
  // every list that no refetch is due for and that has not drifted counts and shows exactly what
  // the server would answer for the issues as the list was told of them. No other list has a say.
  lemma {:induction false} RunsStayConsistent(srv: Server, y: System, es: seq<Event>)
    requires Consistent(srv, y) && IsRun(srv, y, es)
    ensures Consistent(srv, Final(srv, y, es))
    decreases |es|
  {
    if es != [] {
      StepKeepsConsistent(srv, y, es[0]);
      RunsStayConsistent(srv, Next(srv, y, es[0]), es[1..]);
    }
  }

  // And a list drifts at a step only if it is really wrong after it, though not reported.
  lemma DriftIsReal(srv: Server, y: System, e: Event, k: QueryKey)
    requires Consistent(srv, y) && Enabled(srv, y, e) && IsBucketed(y.store, k)
    requires k !in y.drifted && !Known(Next(srv, y, e), k)
    ensures var n := Next(srv, y, e);
      IsBucketed(n.store, k) && k in n.seen
      && (k !in n.drifted <==> Synced(srv, k, n.store.lists[k].cache, n.seen[k]))
  {
    assert ListConsistent(srv, y, k);
    match e {
      case Updated(id, p, f) =>
        PassListIff(srv, y, id, p, WsDims(f, p, CachedIssue(y.store, id)), CachedIssue(y.store, id), false, k);
      case Optimistic(id, p) =>
        PassListIff(srv, y, id, p, IssueChangedDims(p, Detail(y.store, id)), Detail(y.store, id), true, k);
      case Answered(intent, answer) =>
        PassListIff(srv, y, answer.id, Whole(answer), IssueChangedDims(intent, Some(answer)), Some(answer), false, k);
      case Settled(n) => SettledKnows(y, n, k);
      case Created(i) => CreateListIff(srv, y, i, k);
      case Refetched(_, _, _) =>
      case DetailFetched(_) =>
      case Failed(_, _) => FailureRestores(srv, y, e);
      case BatchFailed(_, _) => FailureRestores(srv, y, e);
    }
  }
}
