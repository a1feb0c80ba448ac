/** Batches the server commits only in part: what the client shows, and which lists are right. */
module Batches {
  import opened Basics
  import opened IssueTypes
  import opened Membership
  import opened Buckets
  import opened QueryCache
  import opened Coordinator
  import opened Refinement
  import opened Rollback
  import opened CacheRuns
  import opened LevelRuns

  /*** A batch is the optimistic passes of its issues ***/

  ghost function OptimisticAll(srv: Server, y: System, ids: seq<string>, p: Patch): System {
    if ids == [] then y
    else Next(srv, OptimisticAll(srv, y, ids[..|ids| - 1], p), Optimistic(ids[|ids| - 1], p))
  }

  lemma {:induction false} BatchIsPasses(srv: Server, y: System, ids: seq<string>, p: Patch)
    ensures var b, n := BatchRun(y.store, ids, p), OptimisticAll(srv, y, ids, p);
      n.store == b.store && forall k :: Known(n, k) <==> Known(y, k) || k in b.ctx.staleKeys
  {
    if ids != [] {
      var m := |ids| - 1;
      var before, id := OptimisticAll(srv, y, ids[..m], p), ids[m];
      BatchIsPasses(srv, y, ids[..m], p);
      var base := Detail(before.store, id);
      var reported := StaleNow(ChangeOf(before.store, id, p, IssueChangedDims(p, base), base));
      forall k { KnownAfter(before, reported, true, k); }
    }
  }

  // The issues once the server has committed the patch for `ids`.
  function CommitAll(w: World, ids: seq<string>, p: Patch): World {
    if ids == [] then w else Told(CommitAll(w, ids[..|ids| - 1], p), ids[|ids| - 1], p)
  }

  ghost predicate AllLegal(w: World, ids: seq<string>, p: Patch) {
    forall i :: 0 <= i < |ids| ==> ids[i] in w && LegalWrite(w[ids[i]], p)
  }

  lemma {:induction false} CommittedAt(w: World, ids: seq<string>, p: Patch, d: string)
    requires AllLegal(w, ids, p)
    ensures d in CommitAll(w, ids, p) <==> d in w
    ensures d in w ==> CommitAll(w, ids, p)[d] == if d in ids then Merge(w[d], p) else w[d]
  {
    if ids != [] {
      var n := |ids| - 1;
      assert ids == ids[..n] + [ids[n]];
      CommittedAt(w, ids[..n], p, d);
      CommittedAt(w, ids[..n], p, ids[n]);
    }
  }

  // The client after the passes shows the whole batch, whatever the server makes of it.
  lemma {:induction false} BatchLevel(srv: Server, y: System, w: World, ids: seq<string>, p: Patch)
    requires Consistent(srv, y) && Level(y, w) && AllLegal(w, ids, p)
    ensures var n := OptimisticAll(srv, y, ids, p);
      Consistent(srv, n) && Level(n, CommitAll(w, ids, p))
  {
    if ids != [] {
      var m := |ids| - 1;
      var before, v := OptimisticAll(srv, y, ids[..m], p), CommitAll(w, ids[..m], p);
      BatchLevel(srv, y, w, ids[..m], p);
      CommittedAt(w, ids[..m], p, ids[m]);
      StepKeepsConsistent(srv, before, Optimistic(ids[m], p));
      StepKeepsLevel(srv, before, v, Optimistic(ids[m], p));
    }
  }

  /*** What the client then shows ***/

  // Every detail and every loaded card is the server's entity.
  ghost predicate Shows(s: Store, u: World) {
    && (forall d :: d in s.details ==> d in u && s.details[d] == u[d])
    && (forall k, st, j :: IsBucketed(s, k) && Card(s.lists[k].cache, st, j).Some? ==>
          j in u && Card(s.lists[k].cache, st, j) == Some(u[j]))
  }

  // The client holds a copy of the issue.
  ghost predicate Held(s: Store, d: string) {
    d in s.details || exists k, st :: IsBucketed(s, k) && Card(s.lists[k].cache, st, d).Some?
  }

  lemma LevelHolds(n: System, v: World, d: string)
    requires Level(n, v) && Held(n.store, d)
    ensures d in v
  {
    if d !in n.store.details {
      var k, st :| IsBucketed(n.store, k) && Card(n.store.lists[k].cache, st, d).Some?;
      assert Current(n.store.lists[k].cache, v);
    }
  }

  // A level client shows other entities exactly when they are the same for all it holds.
  lemma ShowsIff(n: System, v: World, u: World)
    requires Level(n, v)
    ensures Shows(n.store, u) <==> forall d :: Held(n.store, d) ==> d in u && d in v && u[d] == v[d]
  {
    var s := n.store;
    if Shows(s, u) {
      forall d | Held(s, d) ensures d in u && d in v && u[d] == v[d] {
        LevelHolds(n, v, d);
        if d !in s.details {
          var k, st :| IsBucketed(s, k) && Card(s.lists[k].cache, st, d).Some?;
          assert Current(s.lists[k].cache, v);
        }
      }
    }
    if forall d :: Held(s, d) ==> d in u && d in v && u[d] == v[d] {
      forall k, st, j | IsBucketed(s, k) && Card(s.lists[k].cache, st, j).Some?
        ensures j in u && Card(s.lists[k].cache, st, j) == Some(u[j])
      {
        assert Held(s, j) && Current(s.lists[k].cache, v);
      }
      forall d | d in s.details ensures d in u && s.details[d] == u[d] {
        assert Held(s, d);
      }
    }
  }

  // The server skips the issues it cannot write and answers success all the same. What the
  // client shows is right exactly when the patch changes no skipped issue it holds a copy of.
  lemma PartialBatchShowsIff(srv: Server, y: System, w: World, ids: seq<string>, done: seq<string>, p: Patch)
    requires Consistent(srv, y) && Level(y, w) && AllLegal(w, ids, p)
    requires forall d :: d in done ==> d in ids
    ensures var n := OptimisticAll(srv, y, ids, p);
      Shows(n.store, CommitAll(w, done, p)) <==>
        forall d :: d in ids && d !in done && Held(n.store, d) ==> d in w && AlreadyIn(p, w[d])
  {
    var n, v, u := OptimisticAll(srv, y, ids, p), CommitAll(w, ids, p), CommitAll(w, done, p);
    assert AllLegal(w, done, p) by {
      forall i | 0 <= i < |done| ensures done[i] in w && LegalWrite(w[done[i]], p) {
        assert done[i] in ids;
      }
    }
    BatchLevel(srv, y, w, ids, p);
    ShowsIff(n, v, u);
    forall d | Held(n.store, d)
      ensures d in w && (d in u && d in v && u[d] == v[d] <==> (d in ids && d !in done ==> AlreadyIn(p, w[d])))
    {
      LevelHolds(n, v, d);
      CommittedAt(w, ids, p, d);
      CommittedAt(w, done, p, d);
    }
  }

  /*** Which lists are right ***/

  // The issues of a set that the server counts under a status of the list.
  ghost function PlacedAmong(srv: Server, k: QueryKey, w: World, ids: set<string>, s: Status): set<string> {
    set d | d in ids && PlaceOf(srv, k, EntityOf(w, d)) == Some(s)
  }

  // Two states of the issues that differ at most in `ids`.
  ghost predicate SameOutside(u: World, v: World, ids: set<string>) {
    forall d :: d !in ids ==> EntityOf(u, d) == EntityOf(v, d)
  }

  lemma CountSplits(srv: Server, k: QueryKey, w: World, ids: set<string>, s: Status)
    ensures Count(Placed(srv, k, w), s)
         == |PlacedAmong(srv, k, w, ids, s)| + |Under(Placed(srv, k, w), s) - ids|
  {
    var all, inside := Under(Placed(srv, k, w), s), PlacedAmong(srv, k, w, ids, s);
    assert forall d :: d in all <==> PlaceOf(srv, k, EntityOf(w, d)) == Some(s);
    assert inside == all * ids;
    assert all == (all * ids) + (all - ids);
  }

  lemma UnderIff(srv: Server, k: QueryKey, w: World, s: Status, d: string)
    ensures d in Under(Placed(srv, k, w), s) <==> PlaceOf(srv, k, EntityOf(w, d)) == Some(s)
  {
  }

  lemma SameUnderOutside(srv: Server, k: QueryKey, u: World, v: World, ids: set<string>, s: Status)
    requires SameOutside(u, v, ids)
    ensures Under(Placed(srv, k, u), s) - ids == Under(Placed(srv, k, v), s) - ids
  {
    forall d | d !in ids ensures d in Under(Placed(srv, k, u), s) <==> d in Under(Placed(srv, k, v), s) {
      UnderIff(srv, k, u, s, d);
      UnderIff(srv, k, v, s, d);
      assert EntityOf(u, d) == EntityOf(v, d);
    }
  }

  lemma SameCountsIff(srv: Server, k: QueryKey, u: World, v: World, ids: set<string>, s: Status)
    requires SameOutside(u, v, ids)
    ensures Count(Placed(srv, k, u), s) == Count(Placed(srv, k, v), s)
        <==> |PlacedAmong(srv, k, u, ids, s)| == |PlacedAmong(srv, k, v, ids, s)|
  {
    CountSplits(srv, k, u, ids, s);
    CountSplits(srv, k, v, ids, s);
    SameUnderOutside(srv, k, u, v, ids, s);
  }

  // No loaded card among `ids` differs, and under every status the server counts as many of them.
  ghost predicate SkipsAgree(srv: Server, k: QueryKey, c: ListCache, u: World, v: World, ids: set<string>) {
    && (forall s, d :: d in ids && Card(c, s, d).Some? ==> EntityOf(u, d) == EntityOf(v, d))
    && (forall s :: |PlacedAmong(srv, k, u, ids, s)| == |PlacedAmong(srv, k, v, ids, s)|)
  }

  lemma RightBothIff(srv: Server, k: QueryKey, c: ListCache, v: World, u: World)
    requires Synced(srv, k, c, v)
    ensures Synced(srv, k, c, u) <==>
      && (forall s :: Count(Placed(srv, k, u), s) == Count(Placed(srv, k, v), s))
      && (forall s, j :: Card(c, s, j).Some? ==> EntityOf(u, j) == EntityOf(v, j))
  {
    if Synced(srv, k, c, u) {
      forall s ensures Count(Placed(srv, k, u), s) == Count(Placed(srv, k, v), s) {
        assert GetBucket(c, s).total == Count(Placed(srv, k, v), s);
      }
    }
  }

  // A list that is right for the issues shown is right for the server's, which differ in `ids` at
  // most, exactly when these agree.
  lemma SkippedIssuesIff(srv: Server, k: QueryKey, c: ListCache, v: World, u: World, ids: set<string>)
    requires Synced(srv, k, c, v) && SameOutside(u, v, ids)
    ensures Synced(srv, k, c, u) <==> SkipsAgree(srv, k, c, u, v, ids)
  {
    RightBothIff(srv, k, c, v, u);
    forall s ensures Count(Placed(srv, k, u), s) == Count(Placed(srv, k, v), s)
                <==> |PlacedAmong(srv, k, u, ids, s)| == |PlacedAmong(srv, k, v, ids, s)| {
      SameCountsIff(srv, k, u, v, ids, s);
    }
    forall s, j | Card(c, s, j).Some? && j !in ids ensures EntityOf(u, j) == EntityOf(v, j) {}
  }

  // One skipped issue makes a list wrong exactly when its card is loaded and differs, or it is
  // not loaded and the server counts it elsewhere, or nowhere, or now.
  lemma SkippedIssueIff(srv: Server, k: QueryKey, c: ListCache, v: World, i: Issue)
    requires i.id in v && Synced(srv, k, c, v)
    ensures Synced(srv, k, c, v[i.id := i]) <==>
      if Loaded(c, i.id) then v[i.id] == i else PlaceOf(srv, k, Some(v[i.id])) == PlaceOf(srv, k, Some(i))
  {
    var u := v[i.id := i];
    if Loaded(c, i.id) {
      var s :| Card(c, s, i.id).Some?;
      assert v[i.id] == i ==> u == v;
      assert u[i.id] == i;
    } else {
      forall s ensures Card(c, s, i.id).None? {}
      PlacedOther(srv, k, v, u, i.id);
      UntouchedList(c, Placed(srv, k, v), v, u, i.id, PlaceOf(srv, k, Some(i)));
    }
  }

  function Skipped(ids: seq<string>, done: seq<string>): set<string> {
    set d | d in ids && d !in done
  }

  lemma OnlySkippedDiffer(w: World, ids: seq<string>, done: seq<string>, p: Patch)
    requires AllLegal(w, ids, p) && forall d :: d in done ==> d in ids
    ensures SameOutside(CommitAll(w, done, p), CommitAll(w, ids, p), Skipped(ids, done))
  {
    assert AllLegal(w, done, p) by {
      forall i | 0 <= i < |done| ensures done[i] in w && LegalWrite(w[done[i]], p) {
        assert done[i] in ids;
      }
    }
    forall d | d !in Skipped(ids, done) ensures EntityOf(CommitAll(w, done, p), d) == EntityOf(CommitAll(w, ids, p), d) {
      CommittedAt(w, ids, p, d);
      CommittedAt(w, done, p, d);
    }
  }

  // After a batch committed in part, a list neither reported nor drifted is what the server would
  // answer exactly when no loaded card of a skipped issue is changed by the patch and, under every
  // status, the server counts as many skipped issues as it would with the patch.
  lemma PartialBatchListIff(srv: Server, y: System, w: World, ids: seq<string>, done: seq<string>, p: Patch, k: QueryKey)
    requires Consistent(srv, y) && Level(y, w) && AllLegal(w, ids, p)
    requires forall d :: d in done ==> d in ids
    ensures var n := OptimisticAll(srv, y, ids, p);
      IsBucketed(n.store, k) && !Known(n, k) && k !in n.drifted ==>
        (Synced(srv, k, n.store.lists[k].cache, CommitAll(w, done, p)) <==>
          SkipsAgree(srv, k, n.store.lists[k].cache, CommitAll(w, done, p), CommitAll(w, ids, p), Skipped(ids, done)))
  {
    var n, v, u := OptimisticAll(srv, y, ids, p), CommitAll(w, ids, p), CommitAll(w, done, p);
    BatchLevel(srv, y, w, ids, p);
    OnlySkippedDiffer(w, ids, done, p);
    if IsBucketed(n.store, k) && !Known(n, k) && k !in n.drifted {
      assert ListConsistent(srv, n, k) && n.seen[k] == v;
      SkippedIssuesIff(srv, k, n.store.lists[k].cache, v, u, Skipped(ids, done));
    }
  }

  // In particular if it changes no skipped issue.
  lemma PartialBatchListsRight(srv: Server, y: System, w: World, ids: seq<string>, done: seq<string>, p: Patch, k: QueryKey)
    requires Consistent(srv, y) && Level(y, w) && AllLegal(w, ids, p)
    requires forall d :: d in done ==> d in ids
    requires forall d :: d in ids && d !in done ==> d in w && AlreadyIn(p, w[d])
    ensures var n := OptimisticAll(srv, y, ids, p);
      IsBucketed(n.store, k) && !Known(n, k) && k !in n.drifted ==>
        Synced(srv, k, n.store.lists[k].cache, CommitAll(w, done, p))
  {
    var n, v, u := OptimisticAll(srv, y, ids, p), CommitAll(w, ids, p), CommitAll(w, done, p);
    BatchLevel(srv, y, w, ids, p);
    OnlySkippedDiffer(w, ids, done, p);
    forall d ensures EntityOf(u, d) == EntityOf(v, d) {
      if d in Skipped(ids, done) {
        SkippedUnchanged(w, ids, done, p, d);
      }
    }
    SameWorlds(u, v);
    if IsBucketed(n.store, k) {
      assert ListConsistent(srv, n, k);
    }
  }

  lemma SkippedUnchanged(w: World, ids: seq<string>, done: seq<string>, p: Patch, d: string)
    requires AllLegal(w, ids, p) && forall e :: e in done ==> e in ids
    requires d in ids && d !in done && d in w && AlreadyIn(p, w[d])
    ensures EntityOf(CommitAll(w, done, p), d) == EntityOf(CommitAll(w, ids, p), d)
  {
    assert AllLegal(w, done, p) by {
      forall i | 0 <= i < |done| ensures done[i] in w && LegalWrite(w[done[i]], p) {
        assert done[i] in ids;
      }
    }
    CommittedAt(w, ids, p, d);
    CommittedAt(w, done, p, d);
  }

  lemma SameWorlds(u: World, v: World)
    requires forall d :: EntityOf(u, d) == EntityOf(v, d)
    ensures u == v
  {
    forall d ensures d in u <==> d in v {
      assert EntityOf(u, d) == EntityOf(v, d);
    }
    forall d | d in u ensures u[d] == v[d] {
      assert EntityOf(u, d) == EntityOf(v, d);
    }
  }
}
