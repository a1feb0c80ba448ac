/** A save answered while another client's write is committed and its event still on the way. */
module LateAnswers {
  import opened Basics
  import opened IssueTypes
  import opened Membership
  import opened Buckets
  import opened QueryCache
  import opened Coordinator
  import opened Refinement
  import opened WsUpdates
  import opened CacheRuns

  const RETITLE := Patch(None, None, None, None, None, None, Some("b"))
  const REASSIGNED := MINE.(assigneeId := Some("you"))
  const BOTH := REASSIGNED.(title := "b")

  // Another client reassigns the issue; before its event arrives this client saves a title and
  // gets the answer, which carries the new assignee; then the two events arrive.
  const LATE_RUN: seq<Event> := [
    Optimistic("i", RETITLE),
    Answered(RETITLE, BOTH),
    Updated("i", Whole(REASSIGNED), Flags(Some(true), Some(false), Some(false))),
    Updated("i", Whole(BOTH), Flags(Some(false), Some(false), Some(false)))]

  // The list still is `c`, unreported; it has been told of `v`, and the detail shows the same.
  ghost predicate Waiting(y: System, c: ListCache, v: World) {
    && y.store.Valid() && IsBucketed(y.store, ASSIGNED_TO_ME) && y.store.lists[ASSIGNED_TO_ME].cache == c
    && ASSIGNED_TO_ME in y.seen && y.seen[ASSIGNED_TO_ME] == v
    && "i" in v && "i" in y.store.details && y.store.details["i"] == v["i"]
    && !Known(y, ASSIGNED_TO_ME)
  }

  // The four passes leave the list alone and do not report it.
  lemma FourIdlePasses(c: ListCache)
    requires FindIssueLocation(c, "i").None?
    ensures var quiet, claimed := Dims(false, false, false), Dims(true, false, false);
      && Reconcile(ASSIGNED_TO_ME, c, "i", RETITLE, quiet, Some(MINE)) == Outcome(c, false, false)
      && Reconcile(ASSIGNED_TO_ME, c, "i", Whole(BOTH), quiet, Some(BOTH)) == Outcome(c, false, false)
      && Reconcile(ASSIGNED_TO_ME, c, "i", Whole(REASSIGNED), claimed, Some(BOTH)) == Outcome(c, false, false)
      && Reconcile(ASSIGNED_TO_ME, c, "i", Whole(BOTH), quiet, Some(REASSIGNED)) == Outcome(c, false, false)
    ensures IssueChangedDims(RETITLE, Some(MINE)) == Dims(false, false, false)
    ensures IssueChangedDims(RETITLE, Some(BOTH)) == Dims(false, false, false)
  {
  }

  lemma IdlePassWaits(srv: Server, y: System, c: ListCache, v: World, p: Patch, changed: Dims, base: Option<Issue>, later: bool)
    requires Waiting(y, c, v) && Reconcile(ASSIGNED_TO_ME, c, "i", p, changed, base) == Outcome(c, false, false)
    ensures Waiting(Pass(srv, y, "i", p, changed, base, later), c, Commit(v, "i", p))
  {
    PassAt(srv, y, "i", p, changed, base, later, ASSIGNED_TO_ME);
    PassShape(srv, y, "i", p, changed, base, later);
  }

  lemma SavedTitle(srv: Server, y: System, c: ListCache, v: World)
    requires Waiting(y, c, v) && v["i"] == MINE && FindIssueLocation(c, "i").None?
    ensures Waiting(Next(srv, y, LATE_RUN[0]), c, Commit(v, "i", RETITLE))
  {
    FourIdlePasses(c);
    IdlePassWaits(srv, y, c, v, RETITLE, Dims(false, false, false), Some(MINE), true);
  }

  lemma GotAnswer(srv: Server, y: System, c: ListCache, v: World)
    requires Waiting(y, c, v) && FindIssueLocation(c, "i").None?
    ensures Waiting(Next(srv, y, LATE_RUN[1]), c, Commit(v, "i", Whole(BOTH)))
  {
    FourIdlePasses(c);
    IdlePassWaits(srv, y, c, v, Whole(BOTH), Dims(false, false, false), Some(BOTH), false);
  }

  lemma GotEvent(srv: Server, y: System, c: ListCache, v: World)
    requires Waiting(y, c, v) && v["i"] == BOTH && FindIssueLocation(c, "i").None?
    ensures Waiting(Next(srv, y, LATE_RUN[2]), c, Commit(v, "i", Whole(REASSIGNED)))
  {
    FourIdlePasses(c);
    IdlePassWaits(srv, y, c, v, Whole(REASSIGNED), Dims(true, false, false), Some(BOTH), false);
  }

  lemma GotEcho(srv: Server, y: System, c: ListCache, v: World)
    requires Waiting(y, c, v) && v["i"] == REASSIGNED && FindIssueLocation(c, "i").None?
    ensures Waiting(Next(srv, y, LATE_RUN[3]), c, Commit(v, "i", Whole(BOTH)))
  {
    FourIdlePasses(c);
    IdlePassWaits(srv, y, c, v, Whole(BOTH), Dims(false, false, false), Some(REASSIGNED), false);
  }

  lemma FinalStep(srv: Server, y: System, es: seq<Event>, k: nat)
    requires k < |es|
    ensures Final(srv, y, es[k..]) == Final(srv, Next(srv, y, es[k]), es[k + 1..])
  {
    assert es[k..][0] == es[k] && es[k..][1..] == es[k + 1..];
  }

  lemma FourTold(v: World)
    requires "i" in v && v["i"] == MINE
    ensures var a := Commit(v, "i", RETITLE);
      var b := Commit(a, "i", Whole(BOTH));
      var d := Commit(b, "i", Whole(REASSIGNED));
      b["i"] == BOTH && d["i"] == REASSIGNED && Commit(d, "i", Whole(BOTH)) == v["i" := BOTH]
  {
  }

  lemma RunEndsWaiting(srv: Server, y: System, c: ListCache, v: World)
    requires Waiting(y, c, v) && v["i"] == MINE && FindIssueLocation(c, "i").None?
    ensures Waiting(Final(srv, y, LATE_RUN), c, v["i" := BOTH])
  {
    var a := Commit(v, "i", RETITLE);
    var b := Commit(a, "i", Whole(BOTH));
    var d := Commit(b, "i", Whole(REASSIGNED));
    FourTold(v);
    var y1 := Next(srv, y, LATE_RUN[0]);
    var y2 := Next(srv, y1, LATE_RUN[1]);
    var y3 := Next(srv, y2, LATE_RUN[2]);
    FinalStep(srv, y, LATE_RUN, 0);
    FinalStep(srv, y1, LATE_RUN, 1);
    FinalStep(srv, y2, LATE_RUN, 2);
    FinalStep(srv, y3, LATE_RUN, 3);
    assert LATE_RUN[0..] == LATE_RUN && LATE_RUN[4..] == [];
    SavedTitle(srv, y, c, v);
    GotAnswer(srv, y1, c, a);
    GotEvent(srv, y2, c, b);
    GotEcho(srv, y3, c, d);
  }

  // The answer tells the client of the reassignment before the event does. Judged against an
  // entity that shows it already, neither the pass over the answer nor the event takes the issue
  // off the total of a list that counts it without having it loaded; no pass reports the list.
  lemma LateEventIsMissed(srv: Server, y: System)
    requires Consistent(srv, y) && srv.window("", MINE)
    requires IsBucketed(y.store, ASSIGNED_TO_ME) && !Known(y, ASSIGNED_TO_ME) && ASSIGNED_TO_ME !in y.drifted
    requires ASSIGNED_TO_ME in y.seen && "i" in y.seen[ASSIGNED_TO_ME] && y.seen[ASSIGNED_TO_ME]["i"] == MINE
    requires "i" in y.store.details && y.store.details["i"] == MINE
    requires FindIssueLocation(y.store.lists[ASSIGNED_TO_ME].cache, "i").None?
    ensures var n := Final(srv, y, LATE_RUN);
      && IsBucketed(n.store, ASSIGNED_TO_ME) && !Known(n, ASSIGNED_TO_ME) && ASSIGNED_TO_ME in n.seen
      && n.seen[ASSIGNED_TO_ME] == y.seen[ASSIGNED_TO_ME]["i" := BOTH]
      && !Synced(srv, ASSIGNED_TO_ME, n.store.lists[ASSIGNED_TO_ME].cache, n.seen[ASSIGNED_TO_ME])
  {
    var c, w := y.store.lists[ASSIGNED_TO_ME].cache, y.seen[ASSIGNED_TO_ME];
    RunEndsWaiting(srv, y, c, w);
    assert ListConsistent(srv, y, ASSIGNED_TO_ME);
    CountedNoMore(srv, c, w);
  }

  lemma CountedNoMore(srv: Server, c: ListCache, w: World)
    requires srv.window("", MINE) && "i" in w && w["i"] == MINE
    requires Synced(srv, ASSIGNED_TO_ME, c, w) && FindIssueLocation(c, "i").None?
    ensures !Synced(srv, ASSIGNED_TO_ME, c, w["i" := BOTH])
  {
    LocationSpec(c, "i");
    PlacedOther(srv, ASSIGNED_TO_ME, w, w["i" := BOTH], "i");
    UntouchedList(c, Placed(srv, ASSIGNED_TO_ME, w), w, w["i" := BOTH], "i", PlaceOf(srv, ASSIGNED_TO_ME, Some(BOTH)));
  }

  // A client that has fetched the detail and a list counting the issue, with no card loaded.
  function Fetched(): System {
    var c, w: World := ListCache(map[Todo := Bucket([], 1)]), map["i" := MINE];
    System(Store([ASSIGNED_TO_ME], map[ASSIGNED_TO_ME := Bucketed(c)], map["i" := MINE], None),
           map[ASSIGNED_TO_ME := w], {}, [], {})
  }

  lemma NothingLoaded(c: ListCache, id: string)
    requires forall s :: GetBucket(c, s).issues == []
    ensures (forall s, j :: Card(c, s, j).None?) && FindIssueLocation(c, id).None?
  {
    assert forall s, j :: Card(c, s, j).None?;
    LocationSpec(c, id);
  }

  // One member, counted but not loaded.
  lemma OneUnloaded(srv: Server, k: QueryKey, i: Issue)
    requires Member(srv, k, i)
    ensures Synced(srv, k, ListCache(map[i.status := Bucket([], 1)]), map[i.id := i])
  {
    var c := ListCache(map[i.status := Bucket([], 1)]);
    var placed := Placed(srv, k, map[i.id := i]);
    assert placed == map[i.id := i.status];
    assert Under(placed, i.status) == {i.id};
    assert forall s :: s != i.status ==> Under(placed, s) == {};
    NothingLoaded(c, i.id);
  }

  lemma FetchedIsConsistent(srv: Server)
    requires srv.window("", MINE)
    ensures Consistent(srv, Fetched()) && FindIssueLocation(Fetched().store.lists[ASSIGNED_TO_ME].cache, "i").None?
    ensures !Known(Fetched(), ASSIGNED_TO_ME)
  {
    OneUnloaded(srv, ASSIGNED_TO_ME, MINE);
    NothingLoaded(Fetched().store.lists[ASSIGNED_TO_ME].cache, "i");
  }

  // It does happen: from there the run leaves the list wrong and no refetch due.
  lemma LateEventHappens(srv: Server)
    requires srv.window("", MINE)
    ensures var n := Final(srv, Fetched(), LATE_RUN);
      && IsBucketed(n.store, ASSIGNED_TO_ME) && ASSIGNED_TO_ME in n.seen && !Known(n, ASSIGNED_TO_ME)
      && !Synced(srv, ASSIGNED_TO_ME, n.store.lists[ASSIGNED_TO_ME].cache, n.seen[ASSIGNED_TO_ME])
  {
    FetchedIsConsistent(srv);
    LateEventIsMissed(srv, Fetched());
  }

  // The same list is one on which an unassign by another client goes unnoticed.
  lemma UnassignHappens(srv: Server)
    requires srv.window("", MINE)
    ensures var c, now := ListCache(map[Todo := Bucket([], 1)]), Merge(MINE, UNASSIGN);
      var o := Reconcile(ASSIGNED_TO_ME, c, "i", Whole(now), ServerDims(UNASSIGN, MINE), Some(MINE));
      !o.stale && !Synced(srv, ASSIGNED_TO_ME, o.next, map["i" := now])
  {
    var w: World := map["i" := MINE];
    OneUnloaded(srv, ASSIGNED_TO_ME, MINE);
    assert w["i" := Merge(MINE, UNASSIGN)] == map["i" := Merge(MINE, UNASSIGN)];
    UnassignGoesUnnoticed(srv, ListCache(map[Todo := Bucket([], 1)]), w);
  }
}
