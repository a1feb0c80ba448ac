/** Realtime issue events: change flags, the base entity, and the echo of a client's own write. */
module WsUpdates {
  import opened Basics
  import opened IssueTypes
  import opened Membership
  import opened Buckets
  import opened QueryCache
  import opened Coordinator

  // The server's flags; an older server sends none.
  datatype Flags = Flags(assignee: Option<bool>, project: Option<bool>, status: Option<bool>)

  function FirstWorkspaceList(keys: seq<QueryKey>, lists: map<QueryKey, ListEntry>): Option<ListCache> {
    if keys == [] then None
    else if keys[0].WorkspaceList? then
      if keys[0] in lists && lists[keys[0]].Bucketed? then Some(lists[keys[0]].cache) else None
    else FirstWorkspaceList(keys[1..], lists)
  }

  // The cached entity an event is judged against: the detail, else the first list's copy.
  function CachedIssue(s: Store, id: string): Option<Issue> {
    if id in s.details then Some(s.details[id])
    else match FirstWorkspaceList(s.listKeys, s.lists)
         case None => None
         case Some(c) =>
           match FindIssueLocation(c, id)
           case None => None
           case Some(loc) => Some(loc.issue)
  }

  function WsDims(f: Flags, p: Patch, cached: Option<Issue>): Dims {
    Dims(
      f.assignee.GetOr(
        cached.Some?
        && ((p.assigneeId.Some? && p.assigneeId.value != cached.value.assigneeId)
            || (p.assigneeType.Some? && p.assigneeType.value != cached.value.assigneeType))),
      f.project.GetOr(
        p.projectId.Some? && p.projectId.value != (if cached.Some? then cached.value.projectId else None)),
      f.status.GetOr(
        cached.Some? && p.status.Some? && p.status.value != cached.value.status))
  }

  function AfterUpdated(s: Store, id: string, p: Patch, f: Flags): Store {
    var cached := CachedIssue(s, id);
    AfterChange(s, id, p, WsDims(f, p, cached), cached)
  }

  function UpdatedChange(s: Store, id: string, p: Patch, f: Flags): Change {
    var cached := CachedIssue(s, id);
    ChangeOf(s, id, p, WsDims(f, p, cached), cached)
  }

  // Each stale key is invalidated once, however often a change reported it.
  method InvalidateStaleListKeys(staleKeys: seq<QueryKey>) returns (invalidated: seq<QueryKey>)
    ensures Distinct(invalidated)
    ensures forall k :: k in invalidated <==> k in staleKeys
  {
    var seen: set<QueryKey> := {};
    invalidated := [];
    for n := 0 to |staleKeys|
      invariant Distinct(invalidated)
      invariant forall k :: k in seen <==> k in invalidated
      invariant forall k :: k in seen <==> k in staleKeys[..n]
    {
      var key := staleKeys[n];
      assert staleKeys[..n + 1] == staleKeys[..n] + [key];
      if key in seen {
        continue;
      }
      seen := seen + {key};
      invalidated := invalidated + [key];
    }
    assert staleKeys[..|staleKeys|] == staleKeys;
  }

  method OnIssueUpdated(qc: QueryClient, id: string, p: Patch, f: Flags) returns (invalidated: seq<QueryKey>)
    modifies qc
    ensures qc.View() == AfterUpdated(old(qc.View()), id, p, f)
    ensures Distinct(invalidated)
    ensures forall k :: k in invalidated <==> k in UpdatedChange(old(qc.View()), id, p, f).staleKeys
  {
    var cached := CachedIssue(qc.View(), id);
    var change := ApplyIssueChange(qc, id, p, WsDims(f, p, cached), cached);
    invalidated := InvalidateStaleListKeys(change.staleKeys);
  }

  /*** The flags ***/

  // The diff claims nothing else: a flag sent is the flag, and in its place stands what the patch
  // changes in the cached entity; without one, a project named.
  lemma WsDimsAreExact(f: Flags, p: Patch, cached: Option<Issue>)
    ensures var d := WsDims(f, p, cached);
      && (f.assignee.Some? ==> d.assignee == f.assignee.value)
      && (f.project.Some? ==> d.project == f.project.value)
      && (f.status.Some? ==> d.status == f.status.value)
      && (f == Flags(None, None, None) && cached.Some? ==> d == IssueChangedDims(p, cached))
      && (f == Flags(None, None, None) && cached.None? ==> d == Dims(false, p.projectId.Some? && p.projectId.value.Some?, false))
  {
  }

  ghost predicate IsFirstWorkspaceList(keys: seq<QueryKey>, n: int) {
    0 <= n < |keys| && keys[n].WorkspaceList? && forall m :: 0 <= m < n ==> !keys[m].WorkspaceList?
  }

  lemma {:induction false} FirstWorkspaceListSpec(keys: seq<QueryKey>, lists: map<QueryKey, ListEntry>)
    ensures forall n :: IsFirstWorkspaceList(keys, n) ==>
      FirstWorkspaceList(keys, lists) == if keys[n] in lists && lists[keys[n]].Bucketed? then Some(lists[keys[n]].cache) else None
    ensures (forall k :: k in keys ==> !k.WorkspaceList?) ==> FirstWorkspaceList(keys, lists).None?
  {
    if keys != [] && !keys[0].WorkspaceList? {
      FirstWorkspaceListSpec(keys[1..], lists);
      forall n | IsFirstWorkspaceList(keys, n) ensures n > 0 && IsFirstWorkspaceList(keys[1..], n - 1) {
        assert forall m :: 0 <= m < n - 1 ==> keys[1..][m] == keys[m + 1];
      }
    }
  }

  // The entity an event is judged against: the detail if there is one, else the copy in the first
  // workspace list, and no other.
  lemma CachedIssueSpec(s: Store, id: string, i: Issue)
    ensures CachedIssue(s, id) == Some(i) <==>
      if id in s.details then s.details[id] == i
      else exists n :: IsFirstWorkspaceList(s.listKeys, n) && LoadedIn(s, s.listKeys[n], id)
                       && FindIssueLocation(s.lists[s.listKeys[n]].cache, id).value.issue == i
  {
    FirstWorkspaceListSpec(s.listKeys, s.lists);
    if id !in s.details && CachedIssue(s, id) == Some(i) {
      var n := HasFirstWorkspaceList(s.listKeys);
      assert IsFirstWorkspaceList(s.listKeys, n) && LoadedIn(s, s.listKeys[n], id);
    }
  }

  lemma {:induction false} HasFirstWorkspaceList(keys: seq<QueryKey>) returns (n: int)
    requires exists k: QueryKey :: k in keys && k.WorkspaceList?
    ensures IsFirstWorkspaceList(keys, n)
  {
    if keys[0].WorkspaceList? {
      n := 0;
    } else {
      assert keys == [keys[0]] + keys[1..];
      var m := HasFirstWorkspaceList(keys[1..]);
      n := m + 1;
      assert forall j :: 0 < j < n ==> keys[j] == keys[1..][j - 1];
    }
  }

  // Against the true cached entity the diff is sound; a flag sent in its place is, exactly if it
  // is set or its fields did not change.
  lemma WsDimsAreSoundIff(f: Flags, p: Patch, was: Issue)
    ensures var now := Merge(was, p);
      FlagsCover(WsDims(f, p, Some(was)), was, p) <==>
        && (f.assignee.Some? ==> f.assignee.value || (now.assigneeId == was.assigneeId && now.assigneeType == was.assigneeType))
        && (f.project.Some? ==> f.project.value || now.projectId == was.projectId)
        && (f.status.Some? ==> f.status.value || now.status == was.status)
  {
  }

  // Without flags and without a cached entity the diff sees a write only when it sets a project:
  // it is sound exactly for writes that leave assignee and status alone and do not clear a project.
  lemma BlindDiffIff(p: Patch, was: Issue)
    ensures var now := Merge(was, p);
      FlagsCover(WsDims(Flags(None, None, None), p, None), was, p) <==>
        (now.assigneeId == was.assigneeId && now.assigneeType == was.assigneeType && now.status == was.status
         && (now.projectId == was.projectId || now.projectId.Some?))
  {
  }

  // The flags the server stamps on an update: a field group counts as changed only if the
  // request names a value for it, and an explicit null is no value.
  function ServerDims(request: Patch, was: Issue): Dims {
    var now := Merge(was, request);
    Dims(
      ((request.assigneeId.Some? && request.assigneeId.value.Some?) || (request.assigneeType.Some? && request.assigneeType.value.Some?))
      && (was.assigneeId != now.assigneeId || was.assigneeType != now.assigneeType),
      request.projectId.Some? && request.projectId.value.Some? && was.projectId != now.projectId,
      request.status.Some? && was.status != now.status)
  }

  // They are sound exactly for the writes that do not clear the assignee or the project.
  lemma ServerDimsAreSoundIff(request: Patch, was: Issue)
    ensures var now := Merge(was, request);
      FlagsCover(ServerDims(request, was), was, request) <==>
        && ((was.assigneeId != now.assigneeId || was.assigneeType != now.assigneeType) ==>
              (request.assigneeId.Some? && request.assigneeId.value.Some?) || (request.assigneeType.Some? && request.assigneeType.value.Some?))
        && (was.projectId != now.projectId ==> request.projectId.value.Some?)
  {
  }

  /*** Echo ***/

  // Flags that claim no more than others.
  predicate NoMore(a: Dims, b: Dims) {
    (a.assignee ==> b.assignee) && (a.project ==> b.project) && (a.status ==> b.status)
  }

  // Applied to a card that already carries the patch, the patch leaves the list as it is.
  lemma PatchSettled(c: ListCache, loc: Location, p: Patch)
    requires At(c, loc) && AlreadyIn(p, loc.issue)
    requires p.status.Some? ==> p.status.value == loc.status
    ensures PatchAt(c, loc, p) == c
  {
    var issues := GetBucket(c, loc.status).issues;
    FindSpec(issues, loc.issue.id);
    ReplaceSame(issues, loc.issue);
  }

  lemma {:induction false} ReplaceSame(issues: seq<Issue>, m: Issue)
    requires DistinctIds(issues) && Find(issues, m.id) == Some(m)
    ensures Replace(issues, m.id, m) == issues
  {
    forall i | 0 <= i < |issues| ensures Replace(issues, m.id, m)[i] == issues[i] {
      DistinctFind(issues, issues[i]);
    }
  }

  // A list that has seen the change: its copy of the issue, if any, carries the patch in the
  // bucket the patch names, and is not known to have left a list the flags touch.
  ghost predicate Settled(k: QueryKey, c: ListCache, id: string, p: Patch, changed: Dims) {
    && UniqueIds(c)
    && (FindIssueLocation(c, id).Some? ==>
          var loc := FindIssueLocation(c, id).value;
          && AlreadyIn(p, loc.issue)
          && (p.status.Some? ==> p.status.value == loc.status)
          && (ListFilterDependsOn(KeyScope(k), KeyFilter(k), changed) ==>
                !MatchesListFilter(Whole(loc.issue), KeyScope(k), KeyFilter(k)).No?))
  }

  // What is left undecided of a settled change, and so reported stale again.
  predicate Undecided(k: QueryKey, c: ListCache, id: string, changed: Dims, base: Option<Issue>) {
    var scope, filter := KeyScope(k), KeyFilter(k);
    var touched := ListFilterDependsOn(scope, filter, changed);
    match FindIssueLocation(c, id)
    case Some(loc) => touched && MatchesListFilter(Whole(loc.issue), scope, filter).Unknown?
    case None =>
      && (touched || changed.status)
      && (base.Some? ==> MatchesListFilter(Whole(base.value), scope, filter).Unknown?)
  }

  // On a settled list a second pass with an already-patched base writes the same list again,
  // and reports it stale exactly when its membership is undecided.
  lemma SettledIsIdle(k: QueryKey, c: ListCache, id: string, p: Patch, changed: Dims, base: Option<Issue>)
    requires Settled(k, c, id, p, changed)
    requires base.Some? ==> AlreadyIn(p, base.value)
    ensures var o := Reconcile(k, c, id, p, changed, base);
      o.next == c && (o.stale <==> Undecided(k, c, id, changed, base))
  {
    LocationSpec(c, id);
    if FindIssueLocation(c, id).Some? {
      PatchSettled(c, FindIssueLocation(c, id).value, p);
    }
  }

  lemma PatchSettles(k: QueryKey, c: ListCache, n: ListCache, loc: Location, p: Patch, changed: Dims)
    requires At(c, loc) && n == PatchAt(c, loc, p)
    requires ListFilterDependsOn(KeyScope(k), KeyFilter(k), changed) ==>
      !MatchesListFilter(Whole(Merge(loc.issue, p)), KeyScope(k), KeyFilter(k)).No?
    ensures Settled(k, n, loc.issue.id, p, changed)
  {
    PatchSpec(c, loc, p);
    LocationSpec(n, loc.issue.id);
  }

  lemma PresentSettles(k: QueryKey, c: ListCache, id: string, p: Patch, changed: Dims, base: Option<Issue>, later: Dims)
    requires UniqueIds(c) && NoMore(later, changed) && FindIssueLocation(c, id).Some?
    ensures Settled(k, Reconcile(k, c, id, p, changed, base).next, id, p, later)
  {
    var loc, n := FindIssueLocation(c, id).value, Reconcile(k, c, id, p, changed, base).next;
    LocationSpec(c, id);
    if ListFilterDependsOn(KeyScope(k), KeyFilter(k), changed)
       && MatchesListFilter(Whole(Merge(loc.issue, p)), KeyScope(k), KeyFilter(k)).No? {
      RemoveSpec(c, loc);
      LocationSpec(n, id);
    } else {
      PatchSettles(k, c, n, loc, p, later);
    }
  }

  // Whatever the flags and the base, one pass settles a list, for these flags and for fewer.
  lemma ReconcileSettles(k: QueryKey, c: ListCache, id: string, p: Patch, changed: Dims, base: Option<Issue>, later: Dims)
    requires UniqueIds(c) && NoMore(later, changed)
    ensures Settled(k, Reconcile(k, c, id, p, changed, base).next, id, p, later)
  {
    if FindIssueLocation(c, id).Some? {
      PresentSettles(k, c, id, p, changed, base, later);
    } else {
      LocationSpec(c, id);
      LocationSpec(Reconcile(k, c, id, p, changed, base).next, id);
      CardsKept(k, c, id, p, changed, base);
    }
  }

  // A list that does not hold the card keeps its cards; only totals may move.
  lemma CardsKept(k: QueryKey, c: ListCache, id: string, p: Patch, changed: Dims, base: Option<Issue>)
    requires FindIssueLocation(c, id).None?
    ensures forall s :: GetBucket(Reconcile(k, c, id, p, changed, base).next, s).issues == GetBucket(c, s).issues
    ensures forall s, j :: Card(Reconcile(k, c, id, p, changed, base).next, s, j) == Card(c, s, j)
  {
  }

  ghost predicate AllUnique(s: Store) {
    forall k :: k in s.lists && s.lists[k].Bucketed? ==> UniqueIds(s.lists[k].cache)
  }

  lemma InboxSettled(items: seq<InboxItem>, id: string, st: Status)
    ensures PatchInboxStatus(PatchInboxStatus(items, id, st), id, st) == PatchInboxStatus(items, id, st)
  {
  }

  lemma SecondPassAt(k: QueryKey, c: ListCache, id: string, p: Patch, changed: Dims, base: Option<Issue>,
                     later: Dims, base': Option<Issue>)
    requires UniqueIds(c) && NoMore(later, changed)
    requires base'.Some? ==> AlreadyIn(p, base'.value)
    ensures var n := Reconcile(k, c, id, p, changed, base).next;
      var o := Reconcile(k, n, id, p, later, base');
      o.next == n && (o.stale <==> Undecided(k, n, id, later, base'))
  {
    ReconcileSettles(k, c, id, p, changed, base, later);
    SettledIsIdle(k, Reconcile(k, c, id, p, changed, base).next, id, p, later, base');
  }

  // Each list on its own: written once, then never again.
  lemma SecondPassLists(s: Store, id: string, p: Patch, changed: Dims, base: Option<Issue>, later: Dims, base': Option<Issue>)
    requires s.Valid() && AllUnique(s) && NoMore(later, changed)
    requires base'.Some? ==> AlreadyIn(p, base'.value)
    ensures var t := AfterChange(s, id, p, changed, base);
      && t.Valid() && AfterChange(t, id, p, later, base').lists == t.lists
      && forall k :: k in ChangeOf(t, id, p, later, base').staleKeys ==>
           k in t.lists && t.lists[k].Bucketed? && Undecided(k, t.lists[k].cache, id, later, base')
  {
    var t := AfterChange(s, id, p, changed, base);
    AfterChangeAt(s, id, p, changed, base);
    forall k | k in t.lists && t.lists[k].Bucketed?
      ensures var o := Reconcile(k, t.lists[k].cache, id, p, later, base');
              o.next == t.lists[k].cache && (o.stale <==> Undecided(k, t.lists[k].cache, id, later, base'))
    {
      SecondPassAt(k, s.lists[k].cache, id, p, changed, base, later, base');
    }
    IdlePass(t, id, p, later, base');
  }

  // A pass that changes no list on its own leaves the lists as they are.
  lemma IdlePass(t: Store, id: string, p: Patch, changed: Dims, base: Option<Issue>)
    requires t.Valid()
    requires forall k :: k in t.lists && t.lists[k].Bucketed? ==>
      var o := Reconcile(k, t.lists[k].cache, id, p, changed, base);
      o.next == t.lists[k].cache && (o.stale <==> Undecided(k, t.lists[k].cache, id, changed, base))
    ensures AfterChange(t, id, p, changed, base).lists == t.lists
    ensures forall k :: k in ChangeOf(t, id, p, changed, base).staleKeys ==>
      k in t.lists && t.lists[k].Bucketed? && Undecided(k, t.lists[k].cache, id, changed, base)
  {
    AfterChangeAt(t, id, p, changed, base);
    ReportedStale(t, id, p, changed, base);
  }

  // After a change, any second pass of the same patch whose base already carries it and whose
  // flags claim no more leaves lists, details and inbox untouched: no total is counted twice.
  lemma SecondPassIsIdle(s: Store, id: string, p: Patch, changed: Dims, base: Option<Issue>, later: Dims, base': Option<Issue>)
    requires s.Valid() && AllUnique(s) && NoMore(later, changed)
    requires base'.Some? ==> AlreadyIn(p, base'.value)
    ensures var t := AfterChange(s, id, p, changed, base);
      && AfterChange(t, id, p, later, base') == t
      && forall k :: k in ChangeOf(t, id, p, later, base').staleKeys ==>
           k in t.lists && t.lists[k].Bucketed? && Undecided(k, t.lists[k].cache, id, later, base')
  {
    SecondPassLists(s, id, p, changed, base, later, base');
    SecondPassRest(s, id, p, changed, base, later, base');
  }

  lemma SecondPassRest(s: Store, id: string, p: Patch, changed: Dims, base: Option<Issue>, later: Dims, base': Option<Issue>)
    ensures var t := AfterChange(s, id, p, changed, base);
      var u := AfterChange(t, id, p, later, base');
      u.listKeys == t.listKeys && u.details == t.details && u.inbox == t.inbox
  {
    if p.status.Some? && s.inbox.Some? {
      InboxSettled(s.inbox.value, id, p.status.value);
    }
  }

  lemma {:induction false} FirstListIsLoaded(keys: seq<QueryKey>, lists: map<QueryKey, ListEntry>)
    ensures FirstWorkspaceList(keys, lists).Some? ==>
      exists k :: k in lists && lists[k].Bucketed? && k.WorkspaceList? && FirstWorkspaceList(keys, lists) == Some(lists[k].cache)
  {
    if keys != [] && !keys[0].WorkspaceList? {
      FirstListIsLoaded(keys[1..], lists);
    }
  }

  // Every card of the issue is `i`, in the bucket of its status.
  ghost predicate CardsAre(c: ListCache, i: Issue) {
    forall st :: Card(c, st, i.id).None? || (Card(c, st, i.id) == Some(i) && st == i.status)
  }

  ghost predicate Copies(s: Store, i: Issue) {
    && (i.id in s.details ==> s.details[i.id] == i)
    && (forall k :: k in s.lists && s.lists[k].Bucketed? ==> CardsAre(s.lists[k].cache, i))
  }

  // Every inbox row of the issue shows its status.
  ghost predicate InboxShows(s: Store, i: Issue) {
    s.inbox.Some? ==> forall n :: 0 <= n < |s.inbox.value| && s.inbox.value[n].issueId == Some(i.id) ==>
      s.inbox.value[n].issueStatus == Some(i.status)
  }

  // Every copy the client holds of the issue is `i`.
  ghost predicate Holds(s: Store, i: Issue) {
    Copies(s, i) && InboxShows(s, i)
  }

  /*** The echo of a client's own write: the whole issue, with the server's flags ***/

  // The rules turn copies of the issue before the write into copies of it after.
  lemma CardsFollow(k: QueryKey, c: ListCache, was: Issue, p: Patch, changed: Dims, base: Option<Issue>)
    requires UniqueIds(c) && CardsAre(c, was)
    ensures CardsAre(Reconcile(k, c, was.id, p, changed, base).next, Merge(was, p))
  {
    LocationSpec(c, was.id);
    if FindIssueLocation(c, was.id).Some? {
      var loc := FindIssueLocation(c, was.id).value;
      PatchSpec(c, loc, p);
      RemoveSpec(c, loc);
    } else {
      CardsKept(k, c, was.id, p, changed, base);
    }
  }

  lemma CardsAreSettled(k: QueryKey, c: ListCache, i: Issue, p: Patch, later: Dims)
    requires Settled(k, c, i.id, p, later) && CardsAre(c, i)
    ensures Settled(k, c, i.id, Whole(i), later)
  {
    LocationSpec(c, i.id);
  }

  lemma EchoAt(k: QueryKey, c: ListCache, was: Issue, p: Patch, changed: Dims, base: Option<Issue>,
               later: Dims, base': Option<Issue>)
    requires UniqueIds(c) && CardsAre(c, was) && NoMore(later, changed)
    requires base'.Some? ==> base'.value == Merge(was, p)
    ensures var now := Merge(was, p);
      var n := Reconcile(k, c, was.id, p, changed, base).next;
      var o := Reconcile(k, n, was.id, Whole(now), later, base');
      UniqueIds(n) && CardsAre(n, now) && o.next == n && (o.stale <==> Undecided(k, n, was.id, later, base'))
  {
    var now, n := Merge(was, p), Reconcile(k, c, was.id, p, changed, base).next;
    CardsFollow(k, c, was, p, changed, base);
    ReconcileSettles(k, c, was.id, p, changed, base, later);
    CardsAreSettled(k, n, now, p, later);
    SettledIsIdle(k, n, was.id, Whole(now), later, base');
  }

  lemma CopiesFollow(s: Store, was: Issue, p: Patch, changed: Dims, base: Option<Issue>)
    requires s.Valid() && AllUnique(s) && Copies(s, was)
    ensures var t := AfterChange(s, was.id, p, changed, base);
      t.Valid() && AllUnique(t) && Copies(t, Merge(was, p))
  {
    var t := AfterChange(s, was.id, p, changed, base);
    AfterChangeAt(s, was.id, p, changed, base);
    forall k | k in t.lists && t.lists[k].Bucketed?
      ensures UniqueIds(t.lists[k].cache) && CardsAre(t.lists[k].cache, Merge(was, p))
    {
      EchoAt(k, s.lists[k].cache, was, p, changed, base, changed, None);
    }
  }

  lemma CachedIsCopy(s: Store, i: Issue)
    requires Copies(s, i)
    ensures CachedIssue(s, i.id).Some? ==> CachedIssue(s, i.id).value == i
  {
    if CachedIssue(s, i.id).Some? && i.id !in s.details {
      FirstListIsLoaded(s.listKeys, s.lists);
      var k :| k in s.lists && s.lists[k].Bucketed? && FirstWorkspaceList(s.listKeys, s.lists) == Some(s.lists[k].cache);
      FoundIsCopy(s.lists[k].cache, i);
    }
  }

  lemma FoundIsCopy(c: ListCache, i: Issue)
    requires CardsAre(c, i)
    ensures FindIssueLocation(c, i.id).Some? ==> FindIssueLocation(c, i.id).value.issue == i
  {
    FindFromSpec(c, i.id, 0);
  }

  // A pass of the whole entity over a store of its copies: lists and details stay, exactly the
  // undecided lists are reported, and the inbox stays exactly if its rows show the status.
  lemma WholePassIsIdle(s: Store, was: Issue, p: Patch, changed: Dims, base: Option<Issue>, later: Dims, base': Option<Issue>)
    requires s.Valid() && AllUnique(s) && Copies(s, was) && NoMore(later, changed)
    requires base'.Some? ==> base'.value == Merge(was, p)
    ensures var now := Merge(was, p);
      var t := AfterChange(s, was.id, p, changed, base);
      var e := AfterChange(t, was.id, Whole(now), later, base');
      && e.listKeys == t.listKeys && e.lists == t.lists && e.details == t.details
      && (e.inbox == t.inbox <==> InboxShows(t, now)) && InboxShows(e, now)
      && forall k :: k in ChangeOf(t, was.id, Whole(now), later, base').staleKeys <==>
           (k in t.lists && t.lists[k].Bucketed? && Undecided(k, t.lists[k].cache, was.id, later, base'))
  {
    var now := Merge(was, p);
    var t := AfterChange(s, was.id, p, changed, base);
    AfterChangeAt(s, was.id, p, changed, base);
    AfterChangeAt(t, was.id, Whole(now), later, base');
    ReportedStale(t, was.id, Whole(now), later, base');
    forall k | k in s.lists && s.lists[k].Bucketed?
      ensures var o := Reconcile(k, t.lists[k].cache, was.id, Whole(now), later, base');
              o.next == t.lists[k].cache && (o.stale <==> Undecided(k, t.lists[k].cache, was.id, later, base'))
    {
      EchoAt(k, s.lists[k].cache, was, p, changed, base, later, base');
    }
    assert AfterChange(t, was.id, Whole(now), later, base').lists == t.lists;
    if t.inbox.Some? {
      InboxPatchedIff(t.inbox.value, was.id, now.status);
    }
  }

  lemma InboxPatchedIff(items: seq<InboxItem>, id: string, st: Status)
    ensures var r := PatchInboxStatus(items, id, st);
      && (r == items <==> forall n :: 0 <= n < |items| && items[n].issueId == Some(id) ==> items[n].issueStatus == Some(st))
      && forall n :: 0 <= n < |r| && r[n].issueId == Some(id) ==> r[n].issueStatus == Some(st)
  {
    var r := PatchInboxStatus(items, id, st);
    assert forall n :: 0 <= n < |items| ==> r[n].issueId == items[n].issueId;
  }

  // The event that echoes a client's own write, with flags that claim no more than the optimistic
  // pass did: no list and no detail changes, exactly the undecided lists are reported, and the
  // inbox stays exactly if its rows show the status - as they do if the write set it.
  lemma EchoIsIdle(s: Store, was: Issue, p: Patch, f: Flags)
    requires s.Valid() && AllUnique(s) && Copies(s, was)
    requires var now, changed := Merge(was, p), IssueChangedDims(p, Detail(s, was.id));
      var t := AfterChange(s, was.id, p, changed, Detail(s, was.id));
      NoMore(WsDims(f, Whole(now), CachedIssue(t, was.id)), changed)
    ensures var now, changed := Merge(was, p), IssueChangedDims(p, Detail(s, was.id));
      var t := AfterChange(s, was.id, p, changed, Detail(s, was.id));
      var e := AfterUpdated(t, was.id, Whole(now), f);
      && Copies(t, now) && (p.status.Some? ==> InboxShows(t, now))
      && e.listKeys == t.listKeys && e.lists == t.lists && e.details == t.details
      && (e.inbox == t.inbox <==> InboxShows(t, now))
      && forall k :: k in UpdatedChange(t, was.id, Whole(now), f).staleKeys <==>
           (k in t.lists && t.lists[k].Bucketed?
            && Undecided(k, t.lists[k].cache, was.id, WsDims(f, Whole(now), CachedIssue(t, was.id)), CachedIssue(t, was.id)))
  {
    var base := Detail(s, was.id);
    var now, changed := Merge(was, p), IssueChangedDims(p, base);
    var t := AfterChange(s, was.id, p, changed, base);
    CopiesFollow(s, was, p, changed, base);
    CachedIsCopy(t, now);
    var cached := CachedIssue(t, was.id);
    WholePassIsIdle(s, was, p, changed, base, WsDims(f, Whole(now), cached), cached);
    if p.status.Some? && s.inbox.Some? {
      InboxPatchedIff(s.inbox.value, was.id, p.status.value);
    }
  }

  function FlagsOf(d: Dims): Flags {
    Flags(Some(d.assignee), Some(d.project), Some(d.status))
  }

  // The flags the server stamps claim no more than the optimistic pass did.
  lemma ServerFlagsClaimNoMore(p: Patch, was: Issue, base: Option<Issue>)
    requires base.Some? ==> base.value == was
    ensures NoMore(ServerDims(p, was), IssueChangedDims(p, base))
  {
  }

  // So the echo the server sends is idle.
  lemma ServerEchoIsIdle(s: Store, was: Issue, p: Patch)
    requires s.Valid() && AllUnique(s) && Copies(s, was)
    ensures var t := AfterChange(s, was.id, p, IssueChangedDims(p, Detail(s, was.id)), Detail(s, was.id));
      var e := AfterUpdated(t, was.id, Whole(Merge(was, p)), FlagsOf(ServerDims(p, was)));
      && e.lists == t.lists && e.details == t.details
      && (e.inbox == t.inbox <==> InboxShows(t, Merge(was, p)))
  {
    ServerFlagsClaimNoMore(p, was, Detail(s, was.id));
    EchoIsIdle(s, was, p, FlagsOf(ServerDims(p, was)));
  }

  // The echo may come before or after the answer: each alone leaves the same store as the other,
  // and the one that comes second changes nothing at all.
  lemma EchoAndAnswerCommute(s: Store, was: Issue, p: Patch, f: Flags)
    requires s.Valid() && AllUnique(s) && Copies(s, was)
    requires var now, changed := Merge(was, p), IssueChangedDims(p, Detail(s, was.id));
      var t := AfterChange(s, was.id, p, changed, Detail(s, was.id));
      NoMore(WsDims(f, Whole(now), CachedIssue(t, was.id)), changed)
    ensures var now := Merge(was, p);
      var t := AfterChange(s, was.id, p, IssueChangedDims(p, Detail(s, was.id)), Detail(s, was.id));
      var e := AfterUpdated(t, was.id, Whole(now), f);
      var a := AfterChange(t, was.id, Whole(now), IssueChangedDims(p, Some(now)), Some(now));
      && e == a
      && AfterUpdated(a, was.id, Whole(now), f) == a
      && AfterChange(e, was.id, Whole(now), IssueChangedDims(p, Some(now)), Some(now)) == e
  {
    var base := Detail(s, was.id);
    var now, changed := Merge(was, p), IssueChangedDims(p, base);
    var t := AfterChange(s, was.id, p, changed, base);
    var none := IssueChangedDims(p, Some(now));
    CopiesFollow(s, was, p, changed, base);
    CachedIsCopy(t, now);
    var cached := CachedIssue(t, was.id);
    WholePassIsIdle(s, was, p, changed, base, WsDims(f, Whole(now), cached), cached);
    WholePassIsIdle(s, was, p, changed, base, none, Some(now));
    var e := AfterUpdated(t, was.id, Whole(now), f);
    HeldPassesAgree(t, e, now, WsDims(f, Whole(now), cached), cached);
    HeldPassesAgree(t, e, now, none, Some(now));
  }

  // A pass that leaves a store's lists leaves those of a store that differs in its inbox only.
  lemma HeldPassesAgree(t: Store, e: Store, i: Issue, d: Dims, base: Option<Issue>)
    requires t.Valid() && e.listKeys == t.listKeys && e.lists == t.lists && e.details == t.details
    requires var r := AfterChange(t, i.id, Whole(i), d, base); r.lists == t.lists && r.details == t.details
    requires InboxShows(e, i)
    ensures AfterChange(e, i.id, Whole(i), d, base) == e && CachedIssue(e, i.id) == CachedIssue(t, i.id)
  {
    assert BucketedListEntries(e) == BucketedListEntries(t);
    if e.inbox.Some? {
      InboxPatchedIff(e.inbox.value, i.id, i.status);
    }
  }

  lemma HeldListIsIdle(k: QueryKey, c: ListCache, i: Issue)
    requires UniqueIds(c)
    requires forall st :: Card(c, st, i.id).None? || (Card(c, st, i.id) == Some(i) && st == i.status)
    ensures Reconcile(k, c, i.id, Whole(i), Dims(false, false, false), Some(i)) == Outcome(c, Loaded(c, i.id), false)
  {
    LocationSpec(c, i.id);
    SettledIsIdle(k, c, i.id, Whole(i), Dims(false, false, false), Some(i));
  }

  lemma HeldInboxIsIdle(items: seq<InboxItem>, id: string, st: Status)
    requires forall n :: 0 <= n < |items| && items[n].issueId == Some(id) ==> items[n].issueStatus == Some(st)
    ensures PatchInboxStatus(items, id, st) == items
  {
  }

  // When the rules leave every list as it is and report none, so does the whole change.
  lemma IdleListsStay(s: Store, id: string, p: Patch, changed: Dims, base: Option<Issue>)
    requires s.Valid()
    requires forall k :: k in s.lists && s.lists[k].Bucketed? ==>
               Reconcile(k, s.lists[k].cache, id, p, changed, base).next == s.lists[k].cache
               && !Reconcile(k, s.lists[k].cache, id, p, changed, base).stale
    ensures AfterChange(s, id, p, changed, base).lists == s.lists
    ensures forall k :: k !in ChangeOf(s, id, p, changed, base).staleKeys
  {
    AfterChangeAt(s, id, p, changed, base);
    ReportedStale(s, id, p, changed, base);
  }

  lemma HeldListsAreIdle(s: Store, i: Issue)
    requires s.Valid() && AllUnique(s) && Holds(s, i)
    ensures var none := Dims(false, false, false);
      && AfterChange(s, i.id, Whole(i), none, Some(i)).lists == s.lists
      && forall k :: k !in ChangeOf(s, i.id, Whole(i), none, Some(i)).staleKeys
  {
    var none := Dims(false, false, false);
    forall k | k in s.lists && s.lists[k].Bucketed?
      ensures var o := Reconcile(k, s.lists[k].cache, i.id, Whole(i), none, Some(i));
              o.next == s.lists[k].cache && !o.stale
    {
      HeldListIsIdle(k, s.lists[k].cache, i);
    }
    IdleListsStay(s, i.id, Whole(i), none, Some(i));
  }

  // The reconcile after a successful write: when the server returns the issue the client already
  // shows and coerced nothing of the intent, nothing changes and nothing is reported stale.
  lemma ServerReconcileIsIdle(s: Store, i: Issue, intent: Patch)
    requires s.Valid() && AllUnique(s) && Holds(s, i) && AlreadyIn(intent, i)
    ensures var changed := IssueChangedDims(intent, Some(i));
      && AfterChange(s, i.id, Whole(i), changed, Some(i)) == s
      && forall k :: k !in ChangeOf(s, i.id, Whole(i), changed, Some(i)).staleKeys
  {
    var changed := Dims(false, false, false);
    assert IssueChangedDims(intent, Some(i)) == changed;
    HeldListsAreIdle(s, i);
    if s.inbox.Some? {
      HeldInboxIsIdle(s.inbox.value, i.id, i.status);
    }
  }
}
