/** Runs in which the client is told the truth: what it then shows, and which lists can drift. */
module LevelRuns {
  import opened Basics
  import opened IssueTypes
  import opened Membership
  import opened Buckets
  import opened QueryCache
  import opened Coordinator
  import opened Refinement
  import opened WsUpdates
  import opened CacheRuns

  // Cards as the list was told, each in the bucket of its status.
  ghost predicate InPlace(c: ListCache, w: World) {
    Current(c, w) && Bucketwise(c)
  }

  // Every list has been told of the same issues, `w`, and every card and detail shows them.
  ghost predicate Level(y: System, w: World) {
    && y.store.Valid()
    && (forall d :: d in y.store.details ==> d in w && y.store.details[d] == w[d])
    && (forall k :: IsBucketed(y.store, k) ==> k in y.seen && y.seen[k] == w && InPlace(y.store.lists[k].cache, w))
  }

  // What the client is told is so: flags cover the write, answers, pages and created issues are of
  // the same issues; a created issue may be known already, as one the client created itself or a
  // page told it of. Its own saves run ahead of the server until answered.
  ghost predicate Faithful(y: System, w: World, e: Event) {
    match e
    case Updated(id, p, f) => id in w && LegalWrite(w[id], p) && FlagsCover(WsDims(f, p, CachedIssue(y.store, id)), w[id], p)
    case Optimistic(id, p) => id in w && LegalWrite(w[id], p)
    case Answered(_, answer) => answer.id in w && w[answer.id] == answer
    case Settled(_) => true
    case Failed(_, _) => true
    case BatchFailed(ids, _) => Distinct(ids)
    case Created(i) => i.id in w ==> w[i.id] == i
    case Refetched(_, world, page) => world == w && InPlace(page, w)
    case DetailFetched(i) => i.id in w && w[i.id] == i
  }

  function WorldAfter(w: World, e: Event): World {
    match e
    case Updated(id, p, _) => Told(w, id, p)
    case Optimistic(id, p) => Told(w, id, p)
    case Created(i) => w[i.id := i]
    case _ => w
  }

  // What the rules do not see: a write or a new issue crosses the row filter of the list, or a
  // create event tells of a known issue the list has not loaded, and its card is added anew.
  predicate Crosses(srv: Server, k: QueryKey, c: ListCache, w: World, e: Event) {
    match e
    case Updated(id, p, _) => id in w && !WindowAgrees(srv, k, c, w[id], Merge(w[id], p))
    case Optimistic(id, p) => id in w && !WindowAgrees(srv, k, c, w[id], Merge(w[id], p))
    case Created(i) => k.WorkspaceList? && Card(c, i.status, i.id).None? && (i.id in w || !srv.window(k.window, i))
    case _ => false
  }

  // The base an event is judged against is the entity before the write.
  lemma CachedIssueIsTrue(y: System, w: World, id: string)
    requires Level(y, w)
    ensures CachedIssue(y.store, id).Some? ==> id in w && CachedIssue(y.store, id).value == w[id]
  {
    FirstListIsLoaded(y.store.listKeys, y.store.lists);
    if CachedIssue(y.store, id).Some? && id !in y.store.details {
      var k :| IsBucketed(y.store, k)
               && FirstWorkspaceList(y.store.listKeys, y.store.lists) == Some(y.store.lists[k].cache);
      LocationSpec(y.store.lists[k].cache, id);
    }
  }

  // Every card in the bucket of its status.
  ghost predicate Bucketwise(c: ListCache) {
    forall s, j :: Card(c, s, j).Some? ==> Card(c, s, j).value.status == s
  }

  lemma PatchStaysBucketwise(c: ListCache, loc: Location, p: Patch)
    requires Bucketwise(c) && At(c, loc) && loc.issue.status == loc.status
    ensures Bucketwise(PatchAt(c, loc, p))
  {
    PatchSpec(c, loc, p);
  }

  lemma RemoveStaysBucketwise(c: ListCache, loc: Location)
    requires Bucketwise(c) && At(c, loc)
    ensures Bucketwise(RemoveAt(c, loc))
  {
    RemoveSpec(c, loc);
  }

  lemma ReconcileStaysBucketwise(k: QueryKey, c: ListCache, id: string, p: Patch, changed: Dims, base: Option<Issue>)
    requires UniqueIds(c) && Bucketwise(c)
    ensures Bucketwise(Reconcile(k, c, id, p, changed, base).next)
  {
    LocationSpec(c, id);
    if FindIssueLocation(c, id).Some? {
      var loc := FindIssueLocation(c, id).value;
      assert Card(c, loc.status, id) == Some(loc.issue);
      PatchStaysBucketwise(c, loc, p);
      RemoveStaysBucketwise(c, loc);
    } else {
      CardsKept(k, c, id, p, changed, base);
    }
  }

  lemma ReconcileStaysInPlace(k: QueryKey, c: ListCache, w: World, id: string, p: Patch, changed: Dims, base: Option<Issue>)
    requires InPlace(c, w)
    ensures InPlace(Reconcile(k, c, id, p, changed, base).next, Told(w, id, p))
  {
    ReconcileStaysCurrent(k, c, w, id, p, changed, base);
    ReconcileStaysBucketwise(k, c, id, p, changed, base);
  }

  // A pass with sound flags and a true base, or none.
  lemma LevelPass(srv: Server, y: System, w: World, id: string, p: Patch, changed: Dims, base: Option<Issue>, later: bool)
    requires Level(y, w) && SoundChange(w, id, p, changed, base)
    ensures Level(Pass(srv, y, id, p, changed, base, later), Told(w, id, p))
  {
    var n := Pass(srv, y, id, p, changed, base, later);
    PassShape(srv, y, id, p, changed, base, later);
    forall k | IsBucketed(n.store, k)
      ensures k in n.seen && n.seen[k] == Told(w, id, p) && InPlace(n.store.lists[k].cache, Told(w, id, p))
    {
      PassAt(srv, y, id, p, changed, base, later, k);
      ReconcileStaysInPlace(k, y.store.lists[k].cache, w, id, p, changed, base);
    }
  }

  lemma LevelPassDrifts(srv: Server, y: System, w: World, id: string, p: Patch, changed: Dims, base: Option<Issue>,
                        later: bool, k: QueryKey)
    requires Level(y, w) && SoundChange(w, id, p, changed, base) && Consistent(srv, y) && IsBucketed(y.store, k)
    requires k !in y.drifted && k in Pass(srv, y, id, p, changed, base, later).drifted
    ensures !WindowAgrees(srv, k, y.store.lists[k].cache, w[id], Merge(w[id], p))
    ensures Synced(srv, k, y.store.lists[k].cache, w)
  {
    PassAt(srv, y, id, p, changed, base, later, k);
    assert ListConsistent(srv, y, k);
    SoundPassAgreesIff(srv, k, y.store.lists[k].cache, w, id, p, changed, base);
  }

  // The pass over an answer that says what is shown already.
  lemma AnswerIsSound(w: World, intent: Patch, answer: Issue)
    requires answer.id in w && w[answer.id] == answer
    ensures SoundChange(w, answer.id, Whole(answer), IssueChangedDims(intent, Some(answer)), Some(answer))
    ensures Merge(answer, Whole(answer)) == answer && Told(w, answer.id, Whole(answer)) == w
  {
  }

  lemma SameIssueAgrees(srv: Server, k: QueryKey, c: ListCache, w: World, id: string)
    requires id in w && Synced(srv, k, c, w)
    ensures WindowAgrees(srv, k, c, w[id], w[id])
  {
    LocationSpec(c, id);
  }

  // No card in its place contradicts an issue the client may know.
  lemma KnownCardsAgree(k: QueryKey, c: ListCache, w: World, i: Issue)
    requires InPlace(c, w) && (i.id in w ==> w[i.id] == i)
    ensures CardsAgree(k, c, i)
  {
    forall s ensures Card(c, s, i.id).None? || (Card(c, s, i.id) == Some(i) && s == i.status) {}
  }

  lemma CreateStaysInPlace(k: QueryKey, c: ListCache, w: World, i: Issue)
    requires InPlace(c, w) && (i.id in w ==> w[i.id] == i)
    ensures InPlace(if k.WorkspaceList? then AddIssue(c, i) else c, w[i.id := i])
  {
    KnownCardsAgree(k, c, w, i);
    CreateStaysCurrent(k, c, w, i);
    if k.WorkspaceList? && Card(c, i.status, i.id).None? {
      AddedCards(c, i);
    } else {
      assert k.WorkspaceList? ==> AddIssue(c, i) == c;
    }
  }

  lemma CreateLevel(srv: Server, y: System, w: World, i: Issue)
    requires Level(y, w) && (i.id in w ==> w[i.id] == i)
    ensures Level(Create(srv, y, i), w[i.id := i])
  {
    var n := Create(srv, y, i);
    forall k | IsBucketed(n.store, k)
      ensures k in n.seen && n.seen[k] == w[i.id := i] && InPlace(n.store.lists[k].cache, w[i.id := i])
    {
      assert IsBucketed(y.store, k);
      CreateStaysInPlace(k, y.store.lists[k].cache, w, i);
    }
  }

  lemma CreateCrosses(srv: Server, y: System, w: World, i: Issue, k: QueryKey)
    requires Level(y, w) && (i.id in w ==> w[i.id] == i) && Consistent(srv, y) && IsBucketed(y.store, k)
    requires k !in y.drifted && k in Create(srv, y, i).drifted
    ensures Crosses(srv, k, y.store.lists[k].cache, w, Created(i))
  {
    var c := y.store.lists[k].cache;
    KnownCardsAgree(k, c, w, i);
    assert k.WorkspaceList? && !CreateAgrees(srv, k, c, w, i);
    assert Card(c, i.status, i.id).Some? ==> Card(c, i.status, i.id) == Some(i);
    assert InFilter(srv, i, KeyScope(k), KeyFilter(k));
  }

  lemma RefetchLevel(srv: Server, y: System, w: World, k: QueryKey, page: ListCache)
    requires Level(y, w) && InPlace(page, w)
    ensures Level(Next(srv, y, Refetched(k, w, page)), w)
  {
    var n := Next(srv, y, Refetched(k, w, page));
    forall j | IsBucketed(n.store, j) ensures j in n.seen && n.seen[j] == w && InPlace(n.store.lists[j].cache, w) {
      if j != k {
        assert IsBucketed(y.store, j);
      }
    }
  }

  lemma DetailLevel(srv: Server, y: System, w: World, i: Issue)
    requires Level(y, w) && i.id in w && w[i.id] == i
    ensures Level(Next(srv, y, DetailFetched(i)), w)
  {
    var n := Next(srv, y, DetailFetched(i));
    forall k | IsBucketed(n.store, k) ensures k in n.seen && n.seen[k] == w && InPlace(n.store.lists[k].cache, w) {
      assert IsBucketed(y.store, k);
    }
  }

  // One faithful step keeps the client level.
  lemma StepKeepsLevel(srv: Server, y: System, w: World, e: Event)
    requires Level(y, w) && Faithful(y, w, e)
    ensures Level(Next(srv, y, e), WorldAfter(w, e))
  {
    match e {
      case Updated(id, p, f) =>
        CachedIssueIsTrue(y, w, id);
        LevelPass(srv, y, w, id, p, WsDims(f, p, CachedIssue(y.store, id)), CachedIssue(y.store, id), false);
      case Optimistic(id, p) =>
        ChangedDimsAreSound(p, w[id]);
        LevelPass(srv, y, w, id, p, IssueChangedDims(p, Detail(y.store, id)), Detail(y.store, id), true);
      case Answered(intent, answer) =>
        AnswerIsSound(w, intent, answer);
        LevelPass(srv, y, w, answer.id, Whole(answer), IssueChangedDims(intent, Some(answer)), Some(answer), false);
      case Created(i) => CreateLevel(srv, y, w, i);
      case Settled(_) =>
      case Refetched(k, _, page) => RefetchLevel(srv, y, w, k, page);
      case DetailFetched(i) => DetailLevel(srv, y, w, i);
      case Failed(_, _) =>
        FailureRestores(srv, y, e);
      case BatchFailed(_, _) =>
        FailureRestores(srv, y, e);
    }
  }

  // And a list that drifts at such a step is crossed by it.
  lemma StepDriftsByCrossing(srv: Server, y: System, w: World, e: Event, k: QueryKey)
    requires Consistent(srv, y) && Level(y, w) && Faithful(y, w, e) && IsBucketed(y.store, k)
    requires k !in y.drifted && k in Next(srv, y, e).drifted
    ensures Crosses(srv, k, y.store.lists[k].cache, w, e)
  {
    match e {
      case Updated(id, p, f) =>
        CachedIssueIsTrue(y, w, id);
        LevelPassDrifts(srv, y, w, id, p, WsDims(f, p, CachedIssue(y.store, id)), CachedIssue(y.store, id), false, k);
      case Optimistic(id, p) =>
        ChangedDimsAreSound(p, w[id]);
        LevelPassDrifts(srv, y, w, id, p, IssueChangedDims(p, Detail(y.store, id)), Detail(y.store, id), true, k);
      case Answered(intent, answer) =>
        AnswerIsSound(w, intent, answer);
        LevelPassDrifts(srv, y, w, answer.id, Whole(answer), IssueChangedDims(intent, Some(answer)), Some(answer), false, k);
        SameIssueAgrees(srv, k, y.store.lists[k].cache, w, answer.id);
      case Created(i) => CreateCrosses(srv, y, w, i, k);
      case Settled(_) =>
      case Refetched(_, _, _) =>
      case DetailFetched(_) =>
      case Failed(_, _) => FailureRestores(srv, y, e);
      case BatchFailed(_, _) => FailureRestores(srv, y, e);
    }
  }

  ghost predicate IsFaithfulRun(srv: Server, y: System, w: World, es: seq<Event>)
    decreases |es|
  {
    es == [] ||
    (Enabled(srv, y, es[0]) && Faithful(y, w, es[0]) && IsFaithfulRun(srv, Next(srv, y, es[0]), WorldAfter(w, es[0]), es[1..]))
  }

  function FinalWorld(w: World, es: seq<Event>): World
    decreases |es|
  {
    if es == [] then w else FinalWorld(WorldAfter(w, es[0]), es[1..])
  }

  // No event of the run crosses the list.
  ghost predicate NeverCrossed(srv: Server, y: System, w: World, es: seq<Event>, k: QueryKey)
    decreases |es|
  {
    es == [] ||
    ((IsBucketed(y.store, k) ==> !Crosses(srv, k, y.store.lists[k].cache, w, es[0]))
     && NeverCrossed(srv, Next(srv, y, es[0]), WorldAfter(w, es[0]), es[1..], k))
  }

  // Over any faithful run the client shows what it was told, and a list no event crosses never
  // drifts: a refetch is due, or it is exactly the server's answer, whatever happens to others.
  lemma {:induction false} FaithfulRunsStayRight(srv: Server, y: System, w: World, es: seq<Event>, k: QueryKey)
    requires Consistent(srv, y) && Level(y, w) && IsFaithfulRun(srv, y, w, es)
    requires IsBucketed(y.store, k) && k !in y.drifted && NeverCrossed(srv, y, w, es, k)
    ensures var n := Final(srv, y, es);
      && Level(n, FinalWorld(w, es)) && IsBucketed(n.store, k) && k !in n.drifted
      && (!Known(n, k) ==> Synced(srv, k, n.store.lists[k].cache, FinalWorld(w, es)))
    decreases |es|
  {
    if es == [] {
      assert ListConsistent(srv, y, k);
    } else {
      var e, n := es[0], Next(srv, y, es[0]);
      StepKeepsConsistent(srv, y, e);
      StepKeepsLevel(srv, y, w, e);
      if k in n.drifted {
        StepDriftsByCrossing(srv, y, w, e, k);
      }
      StepKeepsLists(srv, y, e, k);
      FaithfulRunsStayRight(srv, n, WorldAfter(w, e), es[1..], k);
    }
  }

  // A list without a row filter passes every issue.
  ghost predicate Unfiltered(srv: Server, k: QueryKey) {
    forall i :: srv.window(k.window, i)
  }

  // Such a list is crossed only by the create event of a known issue it has not loaded.
  lemma UnfilteredIsCrossedIff(srv: Server, k: QueryKey, c: ListCache, w: World, e: Event)
    requires Unfiltered(srv, k)
    ensures Crosses(srv, k, c, w, e) <==>
      e.Created? && k.WorkspaceList? && e.issue.id in w && Card(c, e.issue.status, e.issue.id).None?
  {
  }

  // That event counts the issue twice, in a list that counts it without having it loaded.
  lemma LateCreateCountsTwice(srv: Server, k: QueryKey, c: ListCache, w: World, i: Issue)
    requires k.WorkspaceList? && Synced(srv, k, c, w) && i.id in w && w[i.id] == i && Member(srv, k, i)
    requires !Loaded(c, i.id)
    ensures !Synced(srv, k, AddIssue(c, i), w)
    ensures GetBucket(AddIssue(c, i), i.status).total == Count(Placed(srv, k, w), i.status) + 1
  {
    forall s ensures Card(c, s, i.id).None? {}
    assert w[i.id := i] == w;
    CreatedListIff(srv, k, c, w, i);
    AddedCards(c, i);
    assert GetBucket(c, i.status).total == Count(Placed(srv, k, w), i.status);
  }

  lemma StepKeepsLists(srv: Server, y: System, e: Event, k: QueryKey)
    requires Consistent(srv, y) && IsBucketed(y.store, k)
    ensures IsBucketed(Next(srv, y, e).store, k)
  {
    assert ListConsistent(srv, y, k);
    match e {
      case Updated(id, p, f) =>
        PassShape(srv, y, id, p, WsDims(f, p, CachedIssue(y.store, id)), CachedIssue(y.store, id), false);
      case Optimistic(id, p) => PassShape(srv, y, id, p, IssueChangedDims(p, Detail(y.store, id)), Detail(y.store, id), true);
      case Answered(intent, answer) =>
        PassShape(srv, y, answer.id, Whole(answer), IssueChangedDims(intent, Some(answer)), Some(answer), false);
      case Created(_) =>
      case Settled(_) =>
      case Refetched(_, _, _) =>
      case DetailFetched(_) =>
      case Failed(_, _) => FailureRestores(srv, y, e);
      case BatchFailed(_, _) => FailureRestores(srv, y, e);
    }
  }
}
