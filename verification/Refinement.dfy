/** The list caches refine "ask the server": after a change a list is right, or reported stale. */
module Refinement {
  import opened Basics
  import opened IssueTypes
  import opened Membership
  import opened Buckets
  import opened QueryCache
  import opened Coordinator
  import opened WsUpdates

  // The server's issues by id.
  type World = w: map<string, Issue> | forall id :: id in w ==> w[id].id == id

  predicate Member(srv: Server, k: QueryKey, i: Issue) {
    InFilter(srv, i, KeyScope(k), KeyFilter(k)) && srv.window(k.window, i)
  }

  // Where the server places each member of the list: the status it counts it under.
  ghost function Placed(srv: Server, k: QueryKey, w: World): map<string, Status> {
    map id | id in w && Member(srv, k, w[id]) :: w[id].status
  }

  ghost function Under(placed: map<string, Status>, s: Status): set<string> {
    set id | id in placed && placed[id] == s
  }

  ghost function Count(placed: map<string, Status>, s: Status): nat {
    |Under(placed, s)|
  }

  // The totals are the server's counts; the loaded cards are current members in their buckets.
  ghost predicate SyncedWith(c: ListCache, placed: map<string, Status>, w: World) {
    && UniqueIds(c)
    && (forall s :: GetBucket(c, s).total == Count(placed, s))
    && (forall s, j :: Card(c, s, j).Some? ==> j in placed && placed[j] == s && j in w && Card(c, s, j).value == w[j])
  }

  ghost predicate Synced(srv: Server, k: QueryKey, c: ListCache, w: World) {
    SyncedWith(c, Placed(srv, k, w), w)
  }

  function Commit(w: World, id: string, p: Patch): World
    requires id in w
  {
    w[id := Merge(w[id], p)]
  }

  ghost predicate SoundChange(w: World, id: string, p: Patch, changed: Dims, base: Option<Issue>) {
    && id in w
    && LegalWrite(w[id], p)
    && FlagsCover(changed, w[id], p)
    && (base.Some? ==> base.value == w[id])
  }

  // What the rules overlook: they judge the filter of a key but never the row filters in its
  // window. With `f` and `r` for "in the filter" and "in the window", before (0) and after (1):
  // a loaded card must not fall out of the window; an issue not loaded must not cross it while
  // it stays in the filter, nor be uncounted for leaving the filter if the window had never
  // counted it (unless there is nothing to uncount).
  predicate WindowAgrees(srv: Server, k: QueryKey, c: ListCache, was: Issue, now: Issue) {
    var f0, f1 := InFilter(srv, was, KeyScope(k), KeyFilter(k)), InFilter(srv, now, KeyScope(k), KeyFilter(k));
    var r0, r1 := srv.window(k.window, was), srv.window(k.window, now);
    if FindIssueLocation(c, was.id).Some? then f1 ==> r1
    else if f0 && f1 then r0 == r1
    else if f0 then r0 || GetBucket(c, was.status).total == 0
    else true
  }

  // The server's placement after one issue moved to `to` (None: it is not a member).
  ghost function Move(placed: map<string, Status>, id: string, to: Option<Status>): map<string, Status> {
    if to.Some? then placed[id := to.value] else placed - {id}
  }

  ghost function Place(placed: map<string, Status>, id: string): Option<Status> {
    if id in placed then Some(placed[id]) else None
  }

  lemma PlacedAfter(srv: Server, k: QueryKey, w: World, id: string, p: Patch)
    requires id in w
    ensures var now := Merge(w[id], p);
      Placed(srv, k, Commit(w, id, p)) == Move(Placed(srv, k, w), id, if Member(srv, k, now) then Some(now.status) else None)
  {
  }

  lemma UnderAfter(placed: map<string, Status>, id: string, to: Option<Status>, s: Status)
    ensures Under(Move(placed, id, to), s) == (Under(placed, s) - {id}) + (if to == Some(s) then {id} else {})
  {
  }

  lemma SizeMoved(m: set<string>, id: string, into: bool)
    ensures |(m - {id}) + (if into then {id} else {})| == |m| - (if id in m then 1 else 0) + (if into then 1 else 0)
    ensures id in m ==> |m| > 0
  {
    var rest := m - {id};
    assert m == if id in m then rest + {id} else rest;
    assert rest + {} == rest;
  }

  // How the server's count of one status moves.
  lemma CountAfter(placed: map<string, Status>, id: string, to: Option<Status>, s: Status)
    ensures Count(Move(placed, id, to), s) ==
            Count(placed, s) - (if Place(placed, id) == Some(s) then 1 else 0) + (if to == Some(s) then 1 else 0)
    ensures Place(placed, id) == Some(s) ==> Count(placed, s) > 0
  {
    UnderAfter(placed, id, to, s);
    assert id in Under(placed, s) <==> Place(placed, id) == Some(s);
    SizeMoved(Under(placed, s), id, to == Some(s));
  }

  ghost predicate CountsMoved(placed: map<string, Status>, id: string, to: Option<Status>) {
    forall s :: Count(Move(placed, id, to), s) ==
                Count(placed, s) - (if Place(placed, id) == Some(s) then 1 else 0) + (if to == Some(s) then 1 else 0)
  }

  lemma CountsAfter(placed: map<string, Status>, id: string, to: Option<Status>)
    ensures CountsMoved(placed, id, to)
    ensures forall s :: Place(placed, id) == Some(s) ==> Count(placed, s) > 0
  {
    forall s { CountAfter(placed, id, to, s); }
  }

  // A list whose cards and totals did not change is right exactly when the placement did not.
  lemma UntouchedList(c: ListCache, placed: map<string, Status>, w: World, w': World, id: string, to: Option<Status>)
    requires SyncedWith(c, placed, w) && (forall s :: Card(c, s, id).None?)
    requires forall j :: j != id && j in w ==> j in w' && w'[j] == w[j]
    ensures SyncedWith(c, Move(placed, id, to), w') <==> Place(placed, id) == to
  {
    CountsAfter(placed, id, to);
    assert forall s, j :: Card(c, s, j).Some? ==> j != id;
    SameCountsIffStays(placed, id, to);
    assert SyncedWith(c, Move(placed, id, to), w') <==> forall s :: Count(Move(placed, id, to), s) == Count(placed, s);
  }

  lemma SameCountsIffStays(placed: map<string, Status>, id: string, to: Option<Status>)
    ensures (forall s :: Count(Move(placed, id, to), s) == Count(placed, s)) <==> Place(placed, id) == to
  {
    CountsAfter(placed, id, to);
  }

  // A patched list: right exactly when the merged card is still a member.
  lemma PatchedList(c: ListCache, n: ListCache, placed: map<string, Status>, w: World, w': World,
                    from: Status, target: Status, m: Issue, to: Option<Status>)
    requires SyncedWith(c, placed, w) && Card(c, from, m.id).Some? && UniqueIds(n)
    requires Patched(c, n, from, target, m)
    requires w' == w[m.id := m]
    requires to.Some? ==> to.value == target
    ensures SyncedWith(n, Move(placed, m.id, to), w') <==> to.Some?
  {
    if to.Some? {
      PatchedStays(c, n, placed, w, from, target, m);
    } else {
      assert Card(n, target, m.id) == Some(m);
      assert m.id !in Move(placed, m.id, to);
    }
  }

  lemma PatchedStays(c: ListCache, n: ListCache, placed: map<string, Status>, w: World, from: Status, target: Status, m: Issue)
    requires SyncedWith(c, placed, w) && Card(c, from, m.id).Some? && UniqueIds(n)
    requires Patched(c, n, from, target, m)
    ensures SyncedWith(n, Move(placed, m.id, Some(target)), w[m.id := m])
  {
    CountsAfter(placed, m.id, Some(target));
    assert Place(placed, m.id) == Some(from);
  }

  lemma RemovedList(c: ListCache, n: ListCache, placed: map<string, Status>, w: World, w': World, from: Status, id: string)
    requires SyncedWith(c, placed, w) && Card(c, from, id).Some? && UniqueIds(n)
    requires Removed(c, n, from, id)
    requires forall j :: j != id && j in w ==> j in w' && w'[j] == w[j]
    ensures SyncedWith(n, Move(placed, id, None), w')
  {
    CountsAfter(placed, id, None);
    assert Place(placed, id) == Some(from);
  }

  // A list that keeps its cards, none of them the issue's: right exactly when its totals are.
  lemma SameCardsList(c: ListCache, n: ListCache, placed: map<string, Status>, w: World, w': World, id: string,
                      to: Option<Status>)
    requires SyncedWith(c, placed, w) && (forall s :: Card(c, s, id).None?)
    requires forall j :: j != id && j in w ==> j in w' && w'[j] == w[j]
    requires forall s :: GetBucket(n, s).issues == GetBucket(c, s).issues
    ensures SyncedWith(n, Move(placed, id, to), w') <==>
            forall s :: GetBucket(n, s).total == Count(Move(placed, id, to), s)
  {
    assert forall s, j :: Card(n, s, j) == Card(c, s, j);
    assert UniqueIds(n);
  }

  // A unit less at `s0` matches one issue moving from `from` to `to`.
  predicate UnitOff(from: Option<Status>, to: Option<Status>, s0: Status, total: int) {
    (from == Some(s0) && to == None) || (from == to && total == 0)
  }

  lemma UnitOffIff(placed: map<string, Status>, id: string, to: Option<Status>, s0: Status)
    ensures (forall s :: Count(Move(placed, id, to), s) == if s == s0 then Max(0, Count(placed, s) - 1) else Count(placed, s))
        <==> UnitOff(Place(placed, id), to, s0, Count(placed, s0))
  {
    CountsAfter(placed, id, to);
    var from := Place(placed, id);
    if forall s :: Count(Move(placed, id, to), s) == if s == s0 then Max(0, Count(placed, s) - 1) else Count(placed, s) {
      if to.Some? { assert Count(Move(placed, id, to), to.value) >= 0; }
      if from.Some? { assert Count(placed, from.value) > 0 && Count(Move(placed, id, to), from.value) >= 0; }
      assert Count(Move(placed, id, to), s0) >= 0;
    }
  }

  // A unit taken off a bucket for an issue that is not loaded: right exactly when the issue was
  // counted there and is no member any more, or nothing moved and there was nothing to take off.
  lemma DecrementedList(c: ListCache, placed: map<string, Status>, w: World, w': World, id: string, s0: Status,
                        to: Option<Status>)
    requires SyncedWith(c, placed, w) && (forall s :: Card(c, s, id).None?)
    requires forall j :: j != id && j in w ==> j in w' && w'[j] == w[j]
    ensures SyncedWith(DecrementTotal(c, s0), Move(placed, id, to), w') <==>
            UnitOff(Place(placed, id), to, s0, GetBucket(c, s0).total)
  {
    var n := DecrementTotal(c, s0);
    SameCardsList(c, n, placed, w, w', id, to);
    UnitOffIff(placed, id, to, s0);
    forall s ensures GetBucket(n, s).total == if s == s0 then Max(0, Count(placed, s) - 1) else Count(placed, s) {
      assert GetBucket(c, s).total == Count(placed, s);
    }
  }

  // A unit moved between two buckets for a member that is not loaded and changes its status.
  lemma MovedList(c: ListCache, placed: map<string, Status>, w: World, w': World, id: string, from: Status, target: Status)
    requires SyncedWith(c, placed, w) && (forall s :: Card(c, s, id).None?)
    requires forall j :: j != id && j in w ==> j in w' && w'[j] == w[j]
    requires Place(placed, id) == Some(from)
    ensures SyncedWith(MoveTotal(c, from, target), Move(placed, id, Some(target)), w')
  {
    CountsAfter(placed, id, Some(target));
    var n := MoveTotal(c, from, target);
    forall s ensures GetBucket(n, s).issues == GetBucket(c, s).issues {}
    assert forall s, j :: Card(n, s, j) == Card(c, s, j);
    assert UniqueIds(n);
    assert Count(placed, from) > 0;
    forall s ensures GetBucket(n, s).total == Count(Move(placed, id, Some(target)), s) {
      assert GetBucket(c, s).total == Count(placed, s);
    }
  }

  // The rule for a list that holds the card, with its verdicts as plain values: `drop` says
  // whether the card goes, `to` where the server counts the issue afterwards.
  lemma PresentCase(c: ListCache, placed: map<string, Status>, w: World, w': World, loc: Location, p: Patch,
                    drop: bool, to: Option<Status>)
    requires SyncedWith(c, placed, w) && At(c, loc) && loc.issue == w[loc.issue.id]
    requires w' == w[loc.issue.id := Merge(loc.issue, p)]
    requires to.Some? ==> to.value == p.status.GetOr(loc.status)
    requires drop ==> to.None?
    ensures SyncedWith(if drop then RemoveAt(c, loc) else PatchAt(c, loc, p), Move(placed, loc.issue.id, to), w')
            <==> (drop || to.Some?)
  {
    if drop {
      RemoveSpec(c, loc);
      RemovedList(c, RemoveAt(c, loc), placed, w, w', loc.status, loc.issue.id);
    } else {
      PatchSpec(c, loc, p);
      PatchedList(c, PatchAt(c, loc, p), placed, w, w', loc.status, p.status.GetOr(loc.status), Merge(loc.issue, p), to);
    }
  }

  /*** One pass, whatever its flags and its base ***/

  function EntityOf(w: World, id: string): Option<Issue> {
    if id in w then Some(w[id]) else None
  }

  // A patch that carries every field.
  predicate IsWhole(p: Patch) {
    p.status.Some? && p.position.Some? && p.assigneeId.Some? && p.assigneeType.Some?
    && p.creatorId.Some? && p.projectId.Some? && p.title.Some?
  }

  // The issues as they stand once the patch is known: a whole issue may be news.
  function Told(w: World, id: string, p: Patch): World {
    if id in w then Commit(w, id, p)
    else if IsWhole(p) then
      w[id := Issue(id, p.status.value, p.position.value, p.assigneeId.value, p.assigneeType.value,
                    p.creatorId.value, p.projectId.value, p.title.value)]
    else w
  }

  // Where the server counts an issue in a list, if it does.
  function PlaceOf(srv: Server, k: QueryKey, i: Option<Issue>): Option<Status> {
    if i.Some? && Member(srv, k, i.value) then Some(i.value.status) else None
  }

  // The bucket the rules take a unit off when the card is not loaded.
  function Uncounts(k: QueryKey, p: Patch, changed: Dims, base: Option<Issue>): Option<Status> {
    var scope, filter := KeyScope(k), KeyFilter(k);
    if base.Some? && (ListFilterDependsOn(scope, filter, changed) || changed.status)
       && MatchesListFilter(Whole(base.value), scope, filter).Yes? && MatchesListFilter(Overlay(base, p), scope, filter).No?
    then Some(base.value.status) else None
  }

  // A loaded card must still be counted by the server, or be seen to leave the filter. A card not
  // loaded must be counted as before if the rules leave the totals alone; if they take a unit
  // off, it must have been counted there and be counted nowhere now.
  predicate PassAgrees(srv: Server, k: QueryKey, c: ListCache, id: string, was: Option<Issue>, now: Option<Issue>,
                       p: Patch, changed: Dims, base: Option<Issue>)
  {
    var from, to := PlaceOf(srv, k, was), PlaceOf(srv, k, now);
    if FindIssueLocation(c, id).Some? then
      to.Some? || (ListFilterDependsOn(KeyScope(k), KeyFilter(k), changed)
                   && now.Some? && !InFilter(srv, now.value, KeyScope(k), KeyFilter(k)))
    else
      match Uncounts(k, p, changed, base)
      case None => from == to
      case Some(s) => UnitOff(from, to, s, GetBucket(c, s).total)
  }

  lemma PlacedOther(srv: Server, k: QueryKey, w: World, w': World, id: string)
    requires forall j :: j != id ==> EntityOf(w', j) == EntityOf(w, j)
    ensures Placed(srv, k, w') == Move(Placed(srv, k, w), id, PlaceOf(srv, k, EntityOf(w', id)))
  {
    var placed, moved := Placed(srv, k, w'), Move(Placed(srv, k, w), id, PlaceOf(srv, k, EntityOf(w', id)));
    forall j ensures Place(placed, j) == Place(moved, j) {
      if j != id {
        assert EntityOf(w', j) == EntityOf(w, j);
      }
    }
    SamePlaces(placed, moved);
  }

  lemma SamePlaces(a: map<string, Status>, b: map<string, Status>)
    requires forall j :: Place(a, j) == Place(b, j)
    ensures a == b
  {
    forall j ensures j in a <==> j in b {
      assert Place(a, j) == Place(b, j);
    }
    forall j | j in a ensures a[j] == b[j] {
      assert Place(a, j) == Place(b, j);
    }
  }

  lemma PlacedTold(srv: Server, k: QueryKey, w: World, id: string, p: Patch)
    ensures Placed(srv, k, Told(w, id, p)) == Move(Placed(srv, k, w), id, PlaceOf(srv, k, EntityOf(Told(w, id, p), id)))
    ensures Place(Placed(srv, k, w), id) == PlaceOf(srv, k, EntityOf(w, id))
  {
    var w' := Told(w, id, p);
    forall j | j != id ensures EntityOf(w', j) == EntityOf(w, j) {}
    PlacedOther(srv, k, w, w', id);
  }

  // What the rules leave of a list that does not hold the card, when they do not report it.
  lemma AbsentPass(k: QueryKey, c: ListCache, id: string, p: Patch, changed: Dims, base: Option<Issue>)
    requires FindIssueLocation(c, id).None?
    ensures var o := Reconcile(k, c, id, p, changed, base);
      !o.stale ==> o.next == match Uncounts(k, p, changed, base)
                             case None => c
                             case Some(s) => DecrementTotal(c, s)
  {
  }

  lemma PresentPassIff(srv: Server, k: QueryKey, c: ListCache, w: World, id: string, p: Patch, changed: Dims, base: Option<Issue>)
    requires Synced(srv, k, c, w) && FindIssueLocation(c, id).Some?
    ensures var o := Reconcile(k, c, id, p, changed, base);
      var w' := Told(w, id, p);
      !o.stale ==>
        (Synced(srv, k, o.next, w') <==> PassAgrees(srv, k, c, id, EntityOf(w, id), EntityOf(w', id), p, changed, base))
  {
    LocationSpec(c, id);
    PlacedTold(srv, k, w, id, p);
    var loc, now := FindIssueLocation(c, id).value, Merge(w[id], p);
    VerdictIsSound(srv, Whole(now), now, KeyScope(k), KeyFilter(k));
    var drop := ListFilterDependsOn(KeyScope(k), KeyFilter(k), changed)
                && MatchesListFilter(Whole(now), KeyScope(k), KeyFilter(k)).No?;
    PresentCase(c, Placed(srv, k, w), w, Told(w, id, p), loc, p, drop, PlaceOf(srv, k, Some(now)));
  }

  lemma AbsentPassIff(srv: Server, k: QueryKey, c: ListCache, w: World, id: string, p: Patch, changed: Dims, base: Option<Issue>)
    requires Synced(srv, k, c, w) && FindIssueLocation(c, id).None?
    ensures var o := Reconcile(k, c, id, p, changed, base);
      var w' := Told(w, id, p);
      !o.stale ==>
        (Synced(srv, k, o.next, w') <==> PassAgrees(srv, k, c, id, EntityOf(w, id), EntityOf(w', id), p, changed, base))
  {
    var w' := Told(w, id, p);
    var to := PlaceOf(srv, k, EntityOf(w', id));
    LocationSpec(c, id);
    PlacedTold(srv, k, w, id, p);
    AbsentPass(k, c, id, p, changed, base);
    match Uncounts(k, p, changed, base)
    case None => UntouchedList(c, Placed(srv, k, w), w, w', id, to);
    case Some(s) => DecrementedList(c, Placed(srv, k, w), w, w', id, s, to);
  }

  // Exactly when a list that was right, and that a pass does not report stale, is right after it:
  // for any patch, sound or unsound flags, and any base.
  lemma PassRefinesIff(srv: Server, k: QueryKey, c: ListCache, w: World, id: string, p: Patch, changed: Dims, base: Option<Issue>)
    requires Synced(srv, k, c, w)
    ensures var o := Reconcile(k, c, id, p, changed, base);
      var w' := Told(w, id, p);
      !o.stale ==>
        (Synced(srv, k, o.next, w') <==> PassAgrees(srv, k, c, id, EntityOf(w, id), EntityOf(w', id), p, changed, base))
  {
    if FindIssueLocation(c, id).Some? {
      PresentPassIff(srv, k, c, w, id, p, changed, base);
    } else {
      AbsentPassIff(srv, k, c, w, id, p, changed, base);
    }
  }

  /*** Sound flags and a true base ***/

  lemma SoundPresentAgreesIff(srv: Server, k: QueryKey, c: ListCache, w: World,
                              id: string, p: Patch, changed: Dims, base: Option<Issue>)
    requires SoundChange(w, id, p, changed, base) && Synced(srv, k, c, w) && FindIssueLocation(c, id).Some?
    ensures PassAgrees(srv, k, c, id, Some(w[id]), Some(Merge(w[id], p)), p, changed, base) <==>
            WindowAgrees(srv, k, c, w[id], Merge(w[id], p))
  {
    LocationSpec(c, id);
    if !ListFilterDependsOn(KeyScope(k), KeyFilter(k), changed) {
      IndependentKeepsMembership(srv, w[id], p, changed, KeyScope(k), KeyFilter(k));
    }
  }

  lemma SoundAbsentAgreesIff(srv: Server, k: QueryKey, c: ListCache, w: World,
                             id: string, p: Patch, changed: Dims, base: Option<Issue>)
    requires SoundChange(w, id, p, changed, base) && FindIssueLocation(c, id).None?
    requires !Reconcile(k, c, id, p, changed, base).stale
    ensures PassAgrees(srv, k, c, id, Some(w[id]), Some(Merge(w[id], p)), p, changed, base) <==>
            WindowAgrees(srv, k, c, w[id], Merge(w[id], p))
  {
    var was, now := w[id], Merge(w[id], p);
    var scope, filter := KeyScope(k), KeyFilter(k);
    VerdictIsSound(srv, Whole(was), was, scope, filter);
    VerdictIsSound(srv, Whole(now), now, scope, filter);
    if !ListFilterDependsOn(scope, filter, changed) {
      IndependentKeepsMembership(srv, was, p, changed, scope, filter);
    }
  }

  // With sound flags and a true base nothing but the window can disagree.
  lemma SoundPassAgreesIff(srv: Server, k: QueryKey, c: ListCache, w: World,
                           id: string, p: Patch, changed: Dims, base: Option<Issue>)
    requires SoundChange(w, id, p, changed, base) && Synced(srv, k, c, w)
    requires !Reconcile(k, c, id, p, changed, base).stale
    ensures PassAgrees(srv, k, c, id, Some(w[id]), Some(Merge(w[id], p)), p, changed, base) <==>
            WindowAgrees(srv, k, c, w[id], Merge(w[id], p))
  {
    if FindIssueLocation(c, id).Some? {
      SoundPresentAgreesIff(srv, k, c, w, id, p, changed, base);
    } else {
      SoundAbsentAgreesIff(srv, k, c, w, id, p, changed, base);
    }
  }

  // Exactly when a list the rules do not report stale is right after a sound change.
  lemma ReconcileRefinesIff(srv: Server, k: QueryKey, c: ListCache, w: World,
                            id: string, p: Patch, changed: Dims, base: Option<Issue>)
    requires SoundChange(w, id, p, changed, base)
    requires Synced(srv, k, c, w)
    ensures var o := Reconcile(k, c, id, p, changed, base);
      !o.stale ==>
        (Synced(srv, k, o.next, Commit(w, id, p)) <==> WindowAgrees(srv, k, c, w[id], Merge(w[id], p)))
  {
    PassRefinesIff(srv, k, c, w, id, p, changed, base);
    if !Reconcile(k, c, id, p, changed, base).stale {
      SoundPassAgreesIff(srv, k, c, w, id, p, changed, base);
    }
  }

  // The promise of the rules table: a list whose window passes the issue before and after the
  // change is reported stale, or counts what the server counts and shows current members only.
  lemma ReconcileRefines(srv: Server, k: QueryKey, c: ListCache, w: World,
                         id: string, p: Patch, changed: Dims, base: Option<Issue>)
    requires SoundChange(w, id, p, changed, base)
    requires Synced(srv, k, c, w)
    requires srv.window(k.window, w[id]) && srv.window(k.window, Merge(w[id], p))
    ensures var o := Reconcile(k, c, id, p, changed, base);
      o.stale || Synced(srv, k, o.next, Commit(w, id, p))
  {
    ReconcileRefinesIff(srv, k, c, w, id, p, changed, base);
  }

  // A definite member before and after that is not loaded: only its status can move a count, and
  // the counts come out right even in the list reported stale for its window.
  lemma CountsFollowTheStatus(srv: Server, k: QueryKey, c: ListCache, w: World,
                              id: string, p: Patch, changed: Dims, base: Option<Issue>)
    requires SoundChange(w, id, p, changed, base) && base.Some?
    requires Synced(srv, k, c, w) && FindIssueLocation(c, id).None?
    requires MatchesListFilter(Whole(base.value), KeyScope(k), KeyFilter(k)).Yes?
    requires MatchesListFilter(Overlay(base, p), KeyScope(k), KeyFilter(k)).Yes?
    requires srv.window(k.window, w[id]) && srv.window(k.window, Merge(w[id], p))
    ensures Synced(srv, k, Reconcile(k, c, id, p, changed, base).next, Commit(w, id, p))
    ensures Reconcile(k, c, id, p, changed, base).stale ==> w[id].status != Merge(w[id], p).status
  {
    var was, now := w[id], Merge(w[id], p);
    LocationSpec(c, id);
    PlacedAfter(srv, k, w, id, p);
    VerdictIsSound(srv, Whole(was), was, KeyScope(k), KeyFilter(k));
    VerdictIsSound(srv, Whole(now), now, KeyScope(k), KeyFilter(k));
    assert Member(srv, k, was) && Member(srv, k, now);
    var placed := Placed(srv, k, w);
    MovedList(c, placed, w, Commit(w, id, p), id, was.status, now.status);
    UntouchedList(c, placed, w, Commit(w, id, p), id, Some(now.status));
  }

  /*** Exactly what one pass writes and reports ***/

  // In the filter of the key, or out of it, whatever the server knows.
  ghost predicate In(k: QueryKey, i: Issue) {
    SurelyIn(i, KeyScope(k), KeyFilter(k))
  }

  ghost predicate Out(k: QueryKey, i: Issue) {
    SurelyOut(i, KeyScope(k), KeyFilter(k))
  }

  lemma VerdictOf(k: QueryKey, i: Issue)
    ensures var v := MatchesListFilter(Whole(i), KeyScope(k), KeyFilter(k));
      (v.Yes? <==> In(k, i)) && (v.No? <==> Out(k, i)) && !(In(k, i) && Out(k, i))
  {
    VerdictIsExact(i, KeyScope(k), KeyFilter(k));
    var one := InFilter(Says("", true), i, KeyScope(k), KeyFilter(k));
    assert !(In(k, i) && one == false) && !(Out(k, i) && one == true);
  }

  // A change that moves an issue surely out of the list is one the list depends on.
  lemma LeavingIsSeen(k: QueryKey, was: Issue, p: Patch, changed: Dims)
    requires LegalWrite(was, p) && FlagsCover(changed, was, p) && In(k, was) && Out(k, Merge(was, p))
    ensures ListFilterDependsOn(KeyScope(k), KeyFilter(k), changed)
  {
    assert InFilter(Says("", true), was, KeyScope(k), KeyFilter(k));
    assert !InFilter(Says("", true), Merge(was, p), KeyScope(k), KeyFilter(k));
    if !ListFilterDependsOn(KeyScope(k), KeyFilter(k), changed) {
      IndependentKeepsMembership(Says("", true), was, p, changed, KeyScope(k), KeyFilter(k));
    }
  }

  // A list that has not loaded the card: a unit goes if the issue surely leaves, and moves if it
  // surely stays under another status. The key is reported unless that says it all.
  lemma AbsentTable(k: QueryKey, c: ListCache, was: Issue, p: Patch, changed: Dims)
    requires LegalWrite(was, p) && FlagsCover(changed, was, p) && FindIssueLocation(c, was.id).None?
    ensures var now := Merge(was, p);
      var o := Reconcile(k, c, was.id, p, changed, Some(was));
      && (o.written <==> In(k, was) && (Out(k, now) || (In(k, now) && was.status != now.status)))
      && (o.stale <==>
            && (ListFilterDependsOn(KeyScope(k), KeyFilter(k), changed) || changed.status)
            && !(In(k, was) && Out(k, now)) && !(Out(k, was) && Out(k, now))
            && !(In(k, was) && In(k, now) && was.status == now.status))
      && (!o.written ==> o.next == c)
  {
    VerdictOf(k, was);
    VerdictOf(k, Merge(was, p));
    UnwrittenKeeps(k, c, was.id, p, changed, Some(was));
    if In(k, was) && Out(k, Merge(was, p)) {
      LeavingIsSeen(k, was, p, changed);
    }
  }

  // A list that shows the card: it goes if the issue is seen to leave, and is merged otherwise,
  // in the bucket of its status. The key is reported exactly if the client cannot tell.
  lemma PresentTable(k: QueryKey, c: ListCache, was: Issue, p: Patch, changed: Dims, base: Option<Issue>)
    requires UniqueIds(c) && Card(c, was.status, was.id) == Some(was)
    ensures var now := Merge(was, p);
      var o := Reconcile(k, c, was.id, p, changed, base);
      var touched := ListFilterDependsOn(KeyScope(k), KeyFilter(k), changed);
      && o.written && (o.stale <==> touched && !In(k, now) && !Out(k, now))
      && forall s :: Card(o.next, s, was.id) == if s == now.status && !(touched && Out(k, now)) then Some(now) else None
  {
    LocationSpec(c, was.id);
    VerdictOf(k, Merge(was, p));
    var loc := FindIssueLocation(c, was.id).value;
    PatchSpec(c, loc, p);
    RemoveSpec(c, loc);
  }

  // A list whose filter the client can judge alone.
  predicate Decided(k: QueryKey) {
    KeyScope(k) != Some("all") && KeyFilter(k).involvesUserId.None?
  }

  lemma DecidedIsSure(srv: Server, k: QueryKey, i: Issue)
    requires Decided(k)
    ensures if InFilter(srv, i, KeyScope(k), KeyFilter(k)) then In(k, i) && !Out(k, i) else Out(k, i) && !In(k, i)
  {
    VerdictOf(k, i);
    UnknownOnlyWhenServerSide(i, KeyScope(k), KeyFilter(k));
  }

  // Then it is reported exactly if the issue is not loaded and enters it, or stays in it with a
  // new status.
  lemma DecidedReportIff(srv: Server, k: QueryKey, c: ListCache, w: World, id: string, p: Patch, changed: Dims)
    requires Decided(k) && id in w && SoundChange(w, id, p, changed, Some(w[id])) && Synced(srv, k, c, w)
    ensures var was, now := w[id], Merge(w[id], p);
      Reconcile(k, c, id, p, changed, Some(was)).stale <==>
        && FindIssueLocation(c, id).None? && InFilter(srv, now, KeyScope(k), KeyFilter(k))
        && (!InFilter(srv, was, KeyScope(k), KeyFilter(k)) || was.status != now.status)
  {
    var was, now := w[id], Merge(w[id], p);
    LocationSpec(c, id);
    DecidedIsSure(srv, k, was);
    DecidedIsSure(srv, k, now);
    if FindIssueLocation(c, id).Some? {
      PresentTable(k, c, was, p, changed, Some(was));
    } else {
      AbsentTable(k, c, was, p, changed);
      if !ListFilterDependsOn(KeyScope(k), KeyFilter(k), changed) {
        IndependentKeepsMembership(srv, was, p, changed, KeyScope(k), KeyFilter(k));
      }
    }
  }

  // And, reported or not, it is right afterwards exactly unless an issue it has not loaded
  // enters it: if one leaves its unit is taken off, if one stays its unit moves.
  lemma DecidedPassIff(srv: Server, k: QueryKey, c: ListCache, w: World, id: string, p: Patch, changed: Dims)
    requires Decided(k) && id in w && SoundChange(w, id, p, changed, Some(w[id])) && Synced(srv, k, c, w)
    requires srv.window(k.window, w[id]) && srv.window(k.window, Merge(w[id], p))
    ensures Synced(srv, k, Reconcile(k, c, id, p, changed, Some(w[id])).next, Commit(w, id, p)) <==>
      !(FindIssueLocation(c, id).None? && !InFilter(srv, w[id], KeyScope(k), KeyFilter(k))
        && InFilter(srv, Merge(w[id], p), KeyScope(k), KeyFilter(k)))
  {
    var was, now := w[id], Merge(w[id], p);
    var o := Reconcile(k, c, id, p, changed, Some(was));
    DecidedReportIff(srv, k, c, w, id, p, changed);
    ReconcileRefines(srv, k, c, w, id, p, changed, Some(was));
    if o.stale {
      DecidedIsSure(srv, k, was);
      DecidedIsSure(srv, k, now);
      VerdictOf(k, was);
      VerdictOf(k, now);
      if InFilter(srv, was, KeyScope(k), KeyFilter(k)) {
        CountsFollowTheStatus(srv, k, c, w, id, p, changed, Some(was));
      } else {
        AbsentTable(k, c, was, p, changed);
        EnteredIsWrong(srv, k, c, w, id, p);
      }
    }
  }

  // A list left as it was when an issue entered it counts one too few.
  lemma EnteredIsWrong(srv: Server, k: QueryKey, c: ListCache, w: World, id: string, p: Patch)
    requires id in w && Synced(srv, k, c, w) && FindIssueLocation(c, id).None?
    requires !Member(srv, k, w[id]) && Member(srv, k, Merge(w[id], p))
    ensures !Synced(srv, k, c, Commit(w, id, p))
  {
    LocationSpec(c, id);
    PlacedAfter(srv, k, w, id, p);
    UntouchedList(c, Placed(srv, k, w), w, Commit(w, id, p), id, Some(Merge(w[id], p).status));
  }

  // An issue that leaves such a list without being loaded there: one unit goes, nothing is reported.
  lemma LeaverIsUncounted(srv: Server, k: QueryKey, c: ListCache, w: World, id: string, p: Patch, changed: Dims)
    requires Decided(k) && id in w && SoundChange(w, id, p, changed, Some(w[id])) && Synced(srv, k, c, w)
    requires FindIssueLocation(c, id).None? && Member(srv, k, w[id])
    requires !InFilter(srv, Merge(w[id], p), KeyScope(k), KeyFilter(k))
    ensures var o := Reconcile(k, c, id, p, changed, Some(w[id]));
      && !o.stale && Synced(srv, k, o.next, Commit(w, id, p))
      && GetBucket(o.next, w[id].status).total == GetBucket(c, w[id].status).total - 1
  {
    var o := Reconcile(k, c, id, p, changed, Some(w[id]));
    DecidedReportIff(srv, k, c, w, id, p, changed);
    ReconcileRefinesIff(srv, k, c, w, id, p, changed, Some(w[id]));
    PlacedAfter(srv, k, w, id, p);
    CountsAfter(Placed(srv, k, w), id, None);
    assert Place(Placed(srv, k, w), id) == Some(w[id].status);
    assert GetBucket(o.next, w[id].status).total == Count(Placed(srv, k, Commit(w, id, p)), w[id].status);
  }

  // Without that the promise fails: a list windowed to title "a" keeps, and does not report,
  // a loaded card whose title the change turns to "b".
  lemma RowFilteredWindowDrifts() returns (srv: Server, k: QueryKey, c: ListCache, w: World, id: string, p: Patch)
    ensures id in w && Synced(srv, k, c, w)
    ensures SoundChange(w, id, p, IssueChangedDims(p, Some(w[id])), Some(w[id]))
    ensures var o := Reconcile(k, c, id, p, IssueChangedDims(p, Some(w[id])), Some(w[id]));
      !o.stale && !Synced(srv, k, o.next, Commit(w, id, p))
  {
    var i := Issue("i", Todo, 0.0, None, None, "me", None, "a");
    id := "i";
    p := Patch(None, None, None, None, None, None, Some("b"));
    srv := Server("me", (a, t, u) => false, (window: string, x: Issue) => x.title == "a");
    k := WorkspaceList("title=a");
    c := OneCard(i);
    w := map["i" := i];
    OneCardIsRight(srv, k, i);
    ReconcileRefinesIff(srv, k, c, w, id, p, IssueChangedDims(p, Some(i)), Some(i));
  }

  function OneCard(i: Issue): ListCache {
    ListCache(map[i.status := Bucket([i], 1)])
  }

  lemma CardsOfOne(i: Issue)
    ensures forall s, j :: Card(OneCard(i), s, j) == if s == i.status && j == i.id then Some(i) else None
    ensures UniqueIds(OneCard(i)) && Loaded(OneCard(i), i.id)
  {
    var c := OneCard(i);
    assert forall j :: Find([], j).None?;
    assert [i][1..] == [];
    assert forall j :: Find([i], j) == if j == i.id then Some(i) else None;
    assert GetBucket(c, i.status) == Bucket([i], 1);
    assert forall s :: s != i.status ==> GetBucket(c, s).issues == [];
    assert DistinctIds([i]) && DistinctIds([]);
    assert Card(c, i.status, i.id).Some?;
    LocationSpec(c, i.id);
  }

  // The only issue there is, and it is a member: the list that shows it is right.
  lemma OneCardIsRight(srv: Server, k: QueryKey, i: Issue)
    requires Member(srv, k, i)
    ensures Synced(srv, k, OneCard(i), map[i.id := i]) && Loaded(OneCard(i), i.id)
  {
    var placed := Placed(srv, k, map[i.id := i]);
    CardsOfOne(i);
    assert placed == map[i.id := i.status];
    assert Under(placed, i.status) == {i.id};
    assert forall s :: s != i.status ==> Under(placed, s) == {};
  }

  /*** The pass over the server's answer ***/

  // What the pass over the answer overlooks: it is judged against the answer itself, so for an
  // issue that is not loaded it sees no difference between the optimistic `shown` and `answer`.
  predicate AnswerAgrees(srv: Server, k: QueryKey, c: ListCache, shown: Issue, answer: Issue, changed: Dims) {
    if FindIssueLocation(c, answer.id).Some? then
      Member(srv, k, answer)
      || (ListFilterDependsOn(KeyScope(k), KeyFilter(k), changed) && !InFilter(srv, answer, KeyScope(k), KeyFilter(k)))
    else PlaceOf(srv, k, Some(shown)) == PlaceOf(srv, k, Some(answer))
  }

  // A list that matches what was shown before the answer, and is not reported stale by the pass
  // over the answer, is right exactly when the two agree.
  lemma AnswerRefinesIff(srv: Server, k: QueryKey, c: ListCache, w: World, answer: Issue, changed: Dims)
    requires answer.id in w && Synced(srv, k, c, w)
    ensures var o := Reconcile(k, c, answer.id, Whole(answer), changed, Some(answer));
      !o.stale ==>
        (Synced(srv, k, o.next, w[answer.id := answer]) <==> AnswerAgrees(srv, k, c, w[answer.id], answer, changed))
  {
    assert Merge(w[answer.id], Whole(answer)) == answer;
    assert Overlay(Some(answer), Whole(answer)) == Whole(answer);
    PassRefinesIff(srv, k, c, w, answer.id, Whole(answer), changed, Some(answer));
  }

  /*** An unassign by another client ***/

  // The list of the issues assigned to "me", and one of them.
  const ASSIGNED_TO_ME := MyList("assigned", NO_FILTER.(assigneeId := Some("me")), "")
  const MINE := Issue("i", Todo, 0.0, Some("me"), Some("member"), "me", None, "a")
  const UNASSIGN := Patch(None, None, Some(None), Some(None), None, None, None)

  lemma UnassignUnflagged()
    ensures ServerDims(UNASSIGN, MINE) == Dims(false, false, false)
    ensures MatchesListFilter(Whole(Merge(MINE, UNASSIGN)), KeyScope(ASSIGNED_TO_ME), KeyFilter(ASSIGNED_TO_ME)).No?
    ensures !ListFilterDependsOn(KeyScope(ASSIGNED_TO_ME), KeyFilter(ASSIGNED_TO_ME), Dims(false, false, false))
  {
  }

  // So another client's unassign leaves the card in the list it left, or its unit in the total,
  // and reports nothing.
  lemma UnassignGoesUnnoticed(srv: Server, c: ListCache, w: World)
    requires "i" in w && w["i"] == MINE && Synced(srv, ASSIGNED_TO_ME, c, w) && Member(srv, ASSIGNED_TO_ME, MINE)
    ensures var now := Merge(MINE, UNASSIGN);
      var o := Reconcile(ASSIGNED_TO_ME, c, "i", Whole(now), ServerDims(UNASSIGN, MINE), Some(MINE));
      && !o.stale && !Synced(srv, ASSIGNED_TO_ME, o.next, w["i" := now])
      && (Loaded(c, "i") ==> Loaded(o.next, "i"))
  {
    var now := Merge(MINE, UNASSIGN);
    UnassignUnflagged();
    VerdictIsSound(srv, Whole(now), now, KeyScope(ASSIGNED_TO_ME), KeyFilter(ASSIGNED_TO_ME));
    assert Merge(MINE, Whole(now)) == now;
    PassRefinesIff(srv, ASSIGNED_TO_ME, c, w, "i", Whole(now), Dims(false, false, false), Some(MINE));
    LocationSpec(c, "i");
    if FindIssueLocation(c, "i").Some? {
      var loc := FindIssueLocation(c, "i").value;
      PatchSpec(c, loc, Whole(now));
      assert Card(PatchAt(c, loc, Whole(now)), Todo, "i").Some?;
    }
  }
}
