/** The bucketed list cache: one bucket of loaded issues and one server total per status. */
module Buckets {
  import opened Basics
  import opened IssueTypes

  datatype Bucket = Bucket(issues: seq<Issue>, total: int)

  // A status without an entry has not been fetched; it reads as an empty bucket.
  datatype ListCache = ListCache(byStatus: map<Status, Bucket>)

  datatype Location = Location(status: Status, issue: Issue)

  const EMPTY_BUCKET := Bucket([], 0)

  function GetBucket(c: ListCache, s: Status): Bucket {
    if s in c.byStatus then c.byStatus[s] else EMPTY_BUCKET
  }

  function SetBucket(c: ListCache, s: Status, b: Bucket): ListCache {
    ListCache(c.byStatus[s := b])
  }

  function Find(issues: seq<Issue>, id: string): Option<Issue> {
    if issues == [] then None
    else if issues[0].id == id then Some(issues[0])
    else Find(issues[1..], id)
  }

  function FindFrom(c: ListCache, id: string, k: nat): Option<Location>
    requires k <= |PAGINATED_STATUSES|
    decreases |PAGINATED_STATUSES| - k
  {
    if k == |PAGINATED_STATUSES| then None
    else
      var s := PAGINATED_STATUSES[k];
      match Find(GetBucket(c, s).issues, id)
      case Some(i) => Some(Location(s, i))
      case None => FindFrom(c, id, k + 1)
  }

  function FindIssueLocation(c: ListCache, id: string): Option<Location> {
    FindFrom(c, id, 0)
  }

  // The loaded card of `id` in bucket `s`.
  function Card(c: ListCache, s: Status, id: string): Option<Issue> {
    Find(GetBucket(c, s).issues, id)
  }

  function Without(issues: seq<Issue>, id: string): seq<Issue> {
    if issues == [] then []
    else if issues[0].id == id then Without(issues[1..], id)
    else [issues[0]] + Without(issues[1..], id)
  }

  function Replace(issues: seq<Issue>, id: string, card: Issue): seq<Issue> {
    Map((i: Issue) => if i.id == id then card else i, issues)
  }

  // The index of the first issue positioned after `position`, or the length.
  function SlotFor(issues: seq<Issue>, position: real): (k: nat)
    ensures k <= |issues|
    ensures forall i :: 0 <= i < k ==> issues[i].position <= position
    ensures k < |issues| ==> issues[k].position > position
  {
    if issues == [] || issues[0].position > position then 0
    else 1 + SlotFor(issues[1..], position)
  }

  function InsertByPosition(issues: seq<Issue>, issue: Issue): seq<Issue> {
    var k := SlotFor(issues, issue.position);
    issues[..k] + [issue] + issues[k..]
  }

  function AddIssue(c: ListCache, issue: Issue): ListCache {
    var b := GetBucket(c, issue.status);
    if Find(b.issues, issue.id).Some? then c
    else SetBucket(c, issue.status, Bucket(b.issues + [issue], b.total + 1))
  }

  function RemoveAt(c: ListCache, loc: Location): ListCache {
    var b := GetBucket(c, loc.status);
    SetBucket(c, loc.status, Bucket(Without(b.issues, loc.issue.id), Max(0, b.total - 1)))
  }

  function RemoveIssue(c: ListCache, id: string): ListCache {
    match FindIssueLocation(c, id)
    case None => c
    case Some(loc) => RemoveAt(c, loc)
  }

  function MoveTotal(c: ListCache, from: Status, to: Status): ListCache {
    if from == to then c
    else
      var f := GetBucket(c, from);
      var t := GetBucket(c, to);
      SetBucket(SetBucket(c, from, f.(total := Max(0, f.total - 1))), to, t.(total := t.total + 1))
  }

  function DecrementTotal(c: ListCache, s: Status): ListCache {
    var b := GetBucket(c, s);
    SetBucket(c, s, b.(total := Max(0, b.total - 1)))
  }

  function PatchAt(c: ListCache, loc: Location, p: Patch): ListCache {
    var merged := Merge(loc.issue, p);
    var nextStatus := p.status.GetOr(loc.status);
    var from := GetBucket(c, loc.status);
    var rest := Without(from.issues, loc.issue.id);
    if nextStatus == loc.status then
      if p.position.Some? && p.position.value != loc.issue.position then
        SetBucket(c, loc.status, from.(issues := InsertByPosition(rest, merged)))
      else
        SetBucket(c, loc.status, from.(issues := Replace(from.issues, loc.issue.id, merged)))
    else
      var to := GetBucket(c, nextStatus);
      SetBucket(
        SetBucket(c, loc.status, Bucket(rest, Max(0, from.total - 1))),
        nextStatus, Bucket(InsertByPosition(to.issues, merged), to.total + 1))
  }

  function PatchIssue(c: ListCache, id: string, p: Patch): ListCache {
    match FindIssueLocation(c, id)
    case None => c
    case Some(loc) => PatchAt(c, loc, p)
  }

  /*** Invariants of a cache ***/

  ghost predicate DistinctIds(issues: seq<Issue>) {
    issues == [] || (Find(issues[1..], issues[0].id).None? && DistinctIds(issues[1..]))
  }

  ghost predicate Sorted(issues: seq<Issue>) {
    issues == [] || ((forall x :: x in issues[1..] ==> issues[0].position <= x.position) && Sorted(issues[1..]))
  }

  // No id is loaded twice, neither within a bucket nor across buckets.
  ghost predicate UniqueIds(c: ListCache) {
    && (forall s :: DistinctIds(GetBucket(c, s).issues))
    && (forall s, t, j :: Card(c, s, j).Some? && Card(c, t, j).Some? ==> s == t)
  }

  // A card sits in the bucket of its status, and no bucket loads more than its total.
  ghost predicate BucketInvariant(c: ListCache) {
    && UniqueIds(c)
    && (forall s, j :: Card(c, s, j).Some? ==> Card(c, s, j).value.status == s)
    && (forall s :: |GetBucket(c, s).issues| <= GetBucket(c, s).total)
  }

  ghost predicate PositionOrder(c: ListCache) {
    forall s :: Sorted(GetBucket(c, s).issues)
  }

  ghost predicate Loaded(c: ListCache, id: string) {
    exists s :: Card(c, s, id).Some?
  }

  /*** Sequence facts ***/

  lemma {:induction false} FindSpec(issues: seq<Issue>, id: string)
    ensures Find(issues, id).Some? ==> Find(issues, id).value in issues && Find(issues, id).value.id == id
    ensures Find(issues, id).None? ==> forall x :: x in issues ==> x.id != id
  {
    if issues != [] {
      FindSpec(issues[1..], id);
      assert issues == [issues[0]] + issues[1..];
    }
  }

  // With distinct ids, being in a bucket and being found in it are the same thing.
  lemma {:induction false} DistinctFind(issues: seq<Issue>, x: Issue)
    requires DistinctIds(issues) && x in issues
    ensures Find(issues, x.id) == Some(x)
  {
    if x != issues[0] {
      DistinctFind(issues[1..], x);
    }
  }

  lemma {:induction false} FindWithout(issues: seq<Issue>, id: string, j: string)
    ensures Find(Without(issues, id), j) == if j == id then None else Find(issues, j)
  {
    if issues != [] {
      FindWithout(issues[1..], id, j);
    }
  }

  lemma {:induction false} WithoutSpec(issues: seq<Issue>, id: string)
    requires DistinctIds(issues)
    ensures DistinctIds(Without(issues, id))
    ensures |Without(issues, id)| == |issues| - (if Find(issues, id).Some? then 1 else 0)
  {
    if issues != [] {
      WithoutSpec(issues[1..], id);
      FindWithout(issues[1..], id, issues[0].id);
    }
  }

  lemma {:induction false} WithoutSorted(issues: seq<Issue>, id: string)
    requires Sorted(issues)
    ensures Sorted(Without(issues, id))
    ensures forall x :: x in Without(issues, id) ==> x in issues
  {
    if issues != [] {
      WithoutSorted(issues[1..], id);
    }
  }

  lemma ReplaceUnfold(issues: seq<Issue>, id: string, m: Issue)
    requires issues != []
    ensures Replace(issues, id, m) == [if issues[0].id == id then m else issues[0]] + Replace(issues[1..], id, m)
  {
  }

  lemma {:induction false} FindReplace(issues: seq<Issue>, m: Issue, j: string)
    ensures Find(Replace(issues, m.id, m), j) ==
            if j == m.id && Find(issues, j).Some? then Some(m) else Find(issues, j)
  {
    if issues != [] {
      ReplaceUnfold(issues, m.id, m);
      FindReplace(issues[1..], m, j);
    }
  }

  lemma {:induction false} ReplaceDistinct(issues: seq<Issue>, m: Issue)
    requires DistinctIds(issues)
    ensures DistinctIds(Replace(issues, m.id, m))
  {
    if issues != [] {
      ReplaceUnfold(issues, m.id, m);
      ReplaceDistinct(issues[1..], m);
      FindReplace(issues[1..], m, issues[0].id);
    }
  }

  lemma {:induction false} ReplaceSorted(issues: seq<Issue>, m: Issue)
    requires Sorted(issues) && DistinctIds(issues)
    requires Find(issues, m.id).Some? ==> Find(issues, m.id).value.position == m.position
    ensures Sorted(Replace(issues, m.id, m))
  {
    if issues != [] {
      ReplaceUnfold(issues, m.id, m);
      ReplaceSorted(issues[1..], m);
      var rest := issues[1..];
      forall x | x in Replace(rest, m.id, m) ensures issues[0].position <= x.position {
        var k :| 0 <= k < |rest| && Replace(rest, m.id, m)[k] == x;
        assert rest[k] in rest;
        if rest[k].id == m.id {
          DistinctFind(rest, rest[k]);
          assert Find(issues, m.id) == Some(rest[k]) || issues[0].id == m.id;
        }
      }
      FindReplace(rest, m, m.id);
      if issues[0].id == m.id {
        FindSpec(rest, m.id);
        assert Replace(rest, m.id, m) == rest;
      }
    }
  }

  lemma InsertUnfold(issues: seq<Issue>, m: Issue)
    requires issues != [] && !(issues[0].position > m.position)
    ensures InsertByPosition(issues, m) == [issues[0]] + InsertByPosition(issues[1..], m)
  {
    var k := SlotFor(issues[1..], m.position);
    assert SlotFor(issues, m.position) == k + 1;
    assert issues[..k + 1] == [issues[0]] + issues[1..][..k];
    assert issues[k + 1..] == issues[1..][k..];
  }

  lemma InsertFirst(issues: seq<Issue>, m: Issue)
    requires issues == [] || issues[0].position > m.position
    ensures InsertByPosition(issues, m) == [m] + issues
  {
  }

  lemma {:induction false} FindInsert(issues: seq<Issue>, m: Issue, j: string)
    requires Find(issues, m.id).None?
    ensures Find(InsertByPosition(issues, m), j) == if j == m.id then Some(m) else Find(issues, j)
  {
    if issues == [] || issues[0].position > m.position {
      InsertFirst(issues, m);
    } else {
      InsertUnfold(issues, m);
      FindInsert(issues[1..], m, j);
    }
  }

  lemma {:induction false} InsertDistinct(issues: seq<Issue>, m: Issue)
    requires DistinctIds(issues) && Find(issues, m.id).None?
    ensures DistinctIds(InsertByPosition(issues, m))
    ensures |InsertByPosition(issues, m)| == |issues| + 1
  {
    if issues == [] || issues[0].position > m.position {
      InsertFirst(issues, m);
    } else {
      InsertUnfold(issues, m);
      InsertDistinct(issues[1..], m);
      FindInsert(issues[1..], m, issues[0].id);
    }
  }

  lemma {:induction false} InsertSorted(issues: seq<Issue>, m: Issue)
    requires Sorted(issues)
    ensures Sorted(InsertByPosition(issues, m))
    ensures forall x :: x in InsertByPosition(issues, m) <==> x in issues || x == m
  {
    if issues == [] || issues[0].position > m.position {
      InsertFirst(issues, m);
    } else {
      InsertUnfold(issues, m);
      InsertSorted(issues[1..], m);
      assert issues == [issues[0]] + issues[1..];
    }
  }

  /*** Locating a card ***/

  lemma {:induction false} FindFromSpec(c: ListCache, id: string, k: nat)
    requires k <= |PAGINATED_STATUSES|
    ensures FindFrom(c, id, k).Some? ==>
      var loc := FindFrom(c, id, k).value;
      Card(c, loc.status, id) == Some(loc.issue) && loc.issue.id == id
    ensures FindFrom(c, id, k).None? ==>
      forall j :: k <= j < |PAGINATED_STATUSES| ==> Card(c, PAGINATED_STATUSES[j], id).None?
    decreases |PAGINATED_STATUSES| - k
  {
    if k < |PAGINATED_STATUSES| {
      FindSpec(GetBucket(c, PAGINATED_STATUSES[k]).issues, id);
      FindFromSpec(c, id, k + 1);
    }
  }

  lemma EveryStatusIsPaginated(s: Status) returns (j: nat)
    ensures j < |PAGINATED_STATUSES| && PAGINATED_STATUSES[j] == s
  {
    j := match s
      case Backlog => 0 case Todo => 1 case InProgress => 2 case InReview => 3
      case Done => 4 case Blocked => 5 case Cancelled => 6;
  }

  // The scan over the statuses finds a loaded card whenever there is one.
  lemma LocationSpec(c: ListCache, id: string)
    ensures FindIssueLocation(c, id).Some? <==> Loaded(c, id)
    ensures FindIssueLocation(c, id).Some? ==>
      var loc := FindIssueLocation(c, id).value;
      Card(c, loc.status, id) == Some(loc.issue) && loc.issue.id == id
  {
    FindFromSpec(c, id, 0);
    forall s | Card(c, s, id).Some? ensures FindIssueLocation(c, id).Some? {
      var j := EveryStatusIsPaginated(s);
    }
  }

  /*** What each operation does to the cards and to the totals ***/

  // The other cards stay, the patched card moves to the bucket `to`; only a move between
  // buckets shifts totals, one unit each way.
  ghost predicate Patched(c: ListCache, n: ListCache, from: Status, to: Status, m: Issue) {
    && (forall s, j :: Card(n, s, j) == if j != m.id then Card(c, s, j) else if s == to then Some(m) else None)
    && (forall s :: GetBucket(n, s).total ==
         if from == to then GetBucket(c, s).total
         else if s == from then Max(0, GetBucket(c, s).total - 1)
         else if s == to then GetBucket(c, s).total + 1
         else GetBucket(c, s).total)
    && (forall s :: |GetBucket(n, s).issues| == |GetBucket(c, s).issues|
         + (if from == to then 0 else if s == from then -1 else if s == to then 1 else 0))
  }

  lemma WithoutCards(issues: seq<Issue>, id: string)
    ensures forall j :: Find(Without(issues, id), j) == if j == id then None else Find(issues, j)
  {
    forall j ensures Find(Without(issues, id), j) == if j == id then None else Find(issues, j) {
      FindWithout(issues, id, j);
    }
  }

  lemma InsertCards(issues: seq<Issue>, m: Issue)
    requires Find(issues, m.id).None?
    ensures forall j :: Find(InsertByPosition(issues, m), j) == if j == m.id then Some(m) else Find(issues, j)
  {
    forall j ensures Find(InsertByPosition(issues, m), j) == if j == m.id then Some(m) else Find(issues, j) {
      FindInsert(issues, m, j);
    }
  }

  ghost predicate At(c: ListCache, loc: Location) {
    UniqueIds(c) && Card(c, loc.status, loc.issue.id) == Some(loc.issue)
  }

  // The bucket a card is patched in without leaving it, whether or not it changes slot.
  lemma PatchInPlace(c: ListCache, loc: Location, p: Patch)
    requires At(c, loc) && p.status.GetOr(loc.status) == loc.status
    ensures
      var m := Merge(loc.issue, p);
      var was := GetBucket(c, loc.status);
      var b := GetBucket(PatchAt(c, loc, p), loc.status);
      && DistinctIds(b.issues) && |b.issues| == |was.issues| && b.total == was.total
      && (forall j :: Find(b.issues, j) == if j == m.id then Some(m) else Find(was.issues, j))
      && (Sorted(was.issues) ==> Sorted(b.issues))
  {
    var m := Merge(loc.issue, p);
    var was := GetBucket(c, loc.status).issues;
    if p.position.Some? && p.position.value != loc.issue.position {
      WithoutSpec(was, m.id);
      WithoutCards(was, m.id);
      InsertDistinct(Without(was, m.id), m);
      InsertCards(Without(was, m.id), m);
      if Sorted(was) {
        WithoutSorted(was, m.id);
        InsertSorted(Without(was, m.id), m);
      }
    } else {
      ReplaceDistinct(was, m);
      forall j ensures Find(Replace(was, m.id, m), j) == if j == m.id then Some(m) else Find(was, j) {
        FindReplace(was, m, j);
      }
      if Sorted(was) {
        ReplaceSorted(was, m);
      }
    }
  }

  // The two buckets of a patch that moves the card.
  lemma PatchAcross(c: ListCache, loc: Location, p: Patch)
    requires At(c, loc) && p.status.GetOr(loc.status) != loc.status
    ensures
      var m := Merge(loc.issue, p);
      var to := p.status.GetOr(loc.status);
      var from0, to0 := GetBucket(c, loc.status), GetBucket(c, to);
      var from1, to1 := GetBucket(PatchAt(c, loc, p), loc.status), GetBucket(PatchAt(c, loc, p), to);
      && DistinctIds(from1.issues) && |from1.issues| == |from0.issues| - 1
      && DistinctIds(to1.issues) && |to1.issues| == |to0.issues| + 1
      && from1.total == Max(0, from0.total - 1) && to1.total == to0.total + 1
      && (forall j :: Find(from1.issues, j) == if j == m.id then None else Find(from0.issues, j))
      && (forall j :: Find(to1.issues, j) == if j == m.id then Some(m) else Find(to0.issues, j))
      && (Sorted(from0.issues) ==> Sorted(from1.issues))
      && (Sorted(to0.issues) ==> Sorted(to1.issues))
  {
    var m := Merge(loc.issue, p);
    var to := p.status.GetOr(loc.status);
    var from0, to0 := GetBucket(c, loc.status).issues, GetBucket(c, to).issues;
    assert Card(c, to, m.id).None?;
    WithoutSpec(from0, m.id);
    WithoutCards(from0, m.id);
    InsertDistinct(to0, m);
    InsertCards(to0, m);
    if Sorted(from0) {
      WithoutSorted(from0, m.id);
    }
    if Sorted(to0) {
      InsertSorted(to0, m);
    }
  }

  lemma PatchElsewhere(c: ListCache, loc: Location, p: Patch)
    ensures forall s :: s != loc.status && s != p.status.GetOr(loc.status) ==> GetBucket(PatchAt(c, loc, p), s) == GetBucket(c, s)
  {
  }

  lemma PatchSpec(c: ListCache, loc: Location, p: Patch)
    requires At(c, loc)
    ensures Patched(c, PatchAt(c, loc, p), loc.status, p.status.GetOr(loc.status), Merge(loc.issue, p))
    ensures UniqueIds(PatchAt(c, loc, p))
    ensures PositionOrder(c) ==> PositionOrder(PatchAt(c, loc, p))
  {
    var to := p.status.GetOr(loc.status);
    var n := PatchAt(c, loc, p);
    if to == loc.status {
      PatchInPlace(c, loc, p);
    } else {
      PatchAcross(c, loc, p);
    }
    PatchElsewhere(c, loc, p);
    forall s | s != loc.status ensures Card(c, s, loc.issue.id).None? {}
    forall s, j ensures Card(n, s, j) ==
      if j != loc.issue.id then Card(c, s, j) else if s == to then Some(Merge(loc.issue, p)) else None
    {
      assert s != loc.status && s != to ==> Card(n, s, j) == Card(c, s, j);
    }
  }

  ghost predicate Removed(c: ListCache, n: ListCache, from: Status, id: string) {
    && (forall s, j :: Card(n, s, j) == if j != id then Card(c, s, j) else None)
    && (forall s :: GetBucket(n, s).total ==
         if s == from then Max(0, GetBucket(c, s).total - 1) else GetBucket(c, s).total)
    && (forall s :: |GetBucket(n, s).issues| == |GetBucket(c, s).issues| - (if s == from then 1 else 0))
  }

  lemma RemoveSpec(c: ListCache, loc: Location)
    requires At(c, loc)
    ensures Removed(c, RemoveAt(c, loc), loc.status, loc.issue.id)
    ensures UniqueIds(RemoveAt(c, loc))
    ensures PositionOrder(c) ==> PositionOrder(RemoveAt(c, loc))
  {
    var id := loc.issue.id;
    var from := GetBucket(c, loc.status).issues;
    var n := RemoveAt(c, loc);
    WithoutSpec(from, id);
    WithoutCards(from, id);
    if PositionOrder(c) {
      WithoutSorted(from, id);
    }
    forall s | s != loc.status ensures GetBucket(n, s) == GetBucket(c, s) {}
    forall s | s != loc.status ensures Card(c, s, id).None? {}
    forall s, j ensures Card(n, s, j) == if j != id then Card(c, s, j) else None {
      assert s != loc.status ==> Card(n, s, j) == Card(c, s, j);
    }
  }

  /*** The bucket invariant ***/

  lemma PatchKeepsInvariant(c: ListCache, id: string, p: Patch)
    requires BucketInvariant(c)
    ensures BucketInvariant(PatchIssue(c, id, p))
    ensures PositionOrder(c) ==> PositionOrder(PatchIssue(c, id, p))
  {
    LocationSpec(c, id);
    if FindIssueLocation(c, id).Some? {
      var loc := FindIssueLocation(c, id).value;
      PatchSpec(c, loc, p);
      PatchedKeepsInvariant(c, PatchAt(c, loc, p), loc.status, p.status.GetOr(loc.status), Merge(loc.issue, p));
    }
  }

  lemma PatchedKeepsInvariant(c: ListCache, n: ListCache, from: Status, to: Status, m: Issue)
    requires BucketInvariant(c) && UniqueIds(n) && Patched(c, n, from, to, m) && m.status == to
    ensures BucketInvariant(n)
  {
    forall s ensures |GetBucket(n, s).issues| <= GetBucket(n, s).total {
      assert |GetBucket(c, s).issues| <= GetBucket(c, s).total;
    }
  }

  lemma RemoveKeepsInvariant(c: ListCache, id: string)
    requires BucketInvariant(c)
    ensures BucketInvariant(RemoveIssue(c, id)) && !Loaded(RemoveIssue(c, id), id)
    ensures PositionOrder(c) ==> PositionOrder(RemoveIssue(c, id))
  {
    LocationSpec(c, id);
    if FindIssueLocation(c, id).Some? {
      RemoveSpec(c, FindIssueLocation(c, id).value);
    }
  }

  lemma {:induction false} FindAppend(issues: seq<Issue>, m: Issue, j: string)
    ensures Find(issues + [m], j) ==
      if Find(issues, j).Some? then Find(issues, j) else if j == m.id then Some(m) else None
    ensures DistinctIds(issues) && Find(issues, m.id).None? ==> DistinctIds(issues + [m])
  {
    if issues == [] {
      assert issues + [m] == [m];
    } else {
      assert (issues + [m])[1..] == issues[1..] + [m];
      FindAppend(issues[1..], m, j);
      FindAppend(issues[1..], m, issues[0].id);
    }
  }

  // Adding looks only at the issue's own bucket: the invariant survives exactly when the id
  // is not loaded in some other bucket.
  lemma AddKeepsInvariantIff(c: ListCache, issue: Issue)
    requires BucketInvariant(c)
    ensures BucketInvariant(AddIssue(c, issue)) <==>
      forall s :: s != issue.status && Card(c, issue.status, issue.id).None? ==> Card(c, s, issue.id).None?
  {
    var b := GetBucket(c, issue.status);
    var n := AddIssue(c, issue);
    if Find(b.issues, issue.id).None? {
      assert forall s :: s != issue.status ==> GetBucket(n, s) == GetBucket(c, s);
      forall j ensures Card(n, issue.status, j) ==
                 if j == issue.id then Some(issue) else Card(c, issue.status, j) {
        FindAppend(b.issues, issue, j);
      }
      FindAppend(b.issues, issue, issue.id);
      assert Card(n, issue.status, issue.id).Some?;
      assert forall s, j :: s != issue.status ==> Card(n, s, j) == Card(c, s, j);
    }
  }

  lemma {:induction false} SortedPushIff(issues: seq<Issue>, m: Issue)
    requires Sorted(issues)
    ensures Sorted(issues + [m]) <==> forall x :: x in issues ==> x.position <= m.position
  {
    if issues == [] {
      assert issues + [m] == [m] && [m][1..] == [];
    } else {
      assert (issues + [m])[1..] == issues[1..] + [m];
      assert issues == [issues[0]] + issues[1..];
      SortedPushIff(issues[1..], m);
    }
  }

  // Adding appends: position order is kept exactly when no card of the bucket is positioned after
  // the new one.
  lemma AddKeepsOrderIff(c: ListCache, issue: Issue)
    requires PositionOrder(c) && Card(c, issue.status, issue.id).None?
    ensures PositionOrder(AddIssue(c, issue)) <==>
      forall x :: x in GetBucket(c, issue.status).issues ==> x.position <= issue.position
  {
    var b, n := GetBucket(c, issue.status), AddIssue(c, issue);
    SortedPushIff(b.issues, issue);
    assert GetBucket(n, issue.status).issues == b.issues + [issue];
    forall s | s != issue.status ensures GetBucket(n, s) == GetBucket(c, s) {}
  }

  /*** The order of the cards ***/

  lemma {:induction false} WithoutAppend(a: seq<Issue>, b: seq<Issue>, id: string)
    ensures Without(a + b, id) == Without(a, id) + Without(b, id)
  {
    if a == [] {
      assert a + b == b;
    } else {
      assert (a + b)[0] == a[0] && (a + b)[1..] == a[1..] + b;
      WithoutAppend(a[1..], b, id);
    }
  }

  lemma {:induction false} WithoutTwice(issues: seq<Issue>, id: string)
    ensures Without(Without(issues, id), id) == Without(issues, id)
  {
    if issues != [] {
      WithoutTwice(issues[1..], id);
    }
  }

  lemma WithoutInserted(issues: seq<Issue>, m: Issue)
    ensures Without(InsertByPosition(issues, m), m.id) == Without(issues, m.id)
  {
    var k := SlotFor(issues, m.position);
    assert issues == issues[..k] + issues[k..];
    WithoutAppend(issues[..k], issues[k..], m.id);
    WithoutAppend(issues[..k] + [m], issues[k..], m.id);
    WithoutAppend(issues[..k], [m], m.id);
    assert Without([m], m.id) == [];
  }

  lemma {:induction false} WithoutReplaced(issues: seq<Issue>, m: Issue)
    ensures Without(Replace(issues, m.id, m), m.id) == Without(issues, m.id)
  {
    if issues != [] {
      WithoutReplaced(issues[1..], m);
      assert Replace(issues, m.id, m)[1..] == Replace(issues[1..], m.id, m);
    }
  }

  // A patch never reorders the other cards of any bucket.
  lemma PatchKeepsOthersInOrder(c: ListCache, loc: Location, p: Patch)
    requires At(c, loc)
    ensures forall s :: Without(GetBucket(PatchAt(c, loc, p), s).issues, loc.issue.id)
                     == Without(GetBucket(c, s).issues, loc.issue.id)
  {
    var m := Merge(loc.issue, p);
    var target := p.status.GetOr(loc.status);
    var from, to := GetBucket(c, loc.status).issues, GetBucket(c, target).issues;
    var n := PatchAt(c, loc, p);
    WithoutReplaced(from, m);
    WithoutTwice(from, m.id);
    WithoutInserted(Without(from, m.id), m);
    WithoutInserted(to, m);
    if target == loc.status {
      assert Without(GetBucket(n, target).issues, m.id) == Without(from, m.id);
    } else {
      assert GetBucket(n, loc.status).issues == Without(from, m.id);
      assert GetBucket(n, target).issues == InsertByPosition(to, m);
    }
    forall s | s != loc.status && s != target ensures GetBucket(n, s) == GetBucket(c, s) {}
  }

  // A patch that changes neither status nor position keeps every card, the patched one included,
  // in its slot.
  lemma PlainPatchKeepsSlots(c: ListCache, loc: Location, p: Patch)
    requires At(c, loc)
    requires p.status.GetOr(loc.status) == loc.status && p.position.GetOr(loc.issue.position) == loc.issue.position
    ensures forall s :: |GetBucket(PatchAt(c, loc, p), s).issues| == |GetBucket(c, s).issues|
    ensures forall s, i :: 0 <= i < |GetBucket(c, s).issues| ==>
              GetBucket(PatchAt(c, loc, p), s).issues[i].id == GetBucket(c, s).issues[i].id
  {
  }

  lemma {:induction false} WithoutMissing(issues: seq<Issue>, id: string)
    requires Find(issues, id).None?
    ensures Without(issues, id) == issues
  {
    if issues != [] {
      WithoutMissing(issues[1..], id);
    }
  }

  // The card behind the last of the others up to the first one positioned after it.
  ghost predicate InSlot(others: seq<Issue>, m: Issue, issues: seq<Issue>) {
    exists k :: 0 <= k <= |others| && issues == others[..k] + [m] + others[k..]
      && (forall i :: 0 <= i < k ==> others[i].position <= m.position)
      && (k < |others| ==> others[k].position > m.position)
  }

  lemma InsertedInSlot(others: seq<Issue>, m: Issue)
    ensures InSlot(others, m, InsertByPosition(others, m))
  {
    var k := SlotFor(others, m.position);
    assert InsertByPosition(others, m) == others[..k] + [m] + others[k..];
  }

  lemma InsertedWhere(c: ListCache, loc: Location, p: Patch)
    requires p.status.GetOr(loc.status) != loc.status || p.position.GetOr(loc.issue.position) != loc.issue.position
    ensures var target := p.status.GetOr(loc.status);
      var issues := GetBucket(c, target).issues;
      GetBucket(PatchAt(c, loc, p), target).issues ==
        InsertByPosition(if target == loc.status then Without(issues, loc.issue.id) else issues, Merge(loc.issue, p))
  {
  }

  // A card that a patch moves, to another bucket or another position, goes into that slot among
  // the others of its bucket, whatever order they are in.
  lemma MovedCardSlot(c: ListCache, loc: Location, p: Patch)
    requires At(c, loc)
    requires p.status.GetOr(loc.status) != loc.status || p.position.GetOr(loc.issue.position) != loc.issue.position
    ensures var m, target := Merge(loc.issue, p), p.status.GetOr(loc.status);
      InSlot(Without(GetBucket(c, target).issues, m.id), m, GetBucket(PatchAt(c, loc, p), target).issues)
  {
    var m, target := Merge(loc.issue, p), p.status.GetOr(loc.status);
    var issues := GetBucket(c, target).issues;
    if target != loc.status {
      assert Card(c, target, m.id).None?;
      WithoutMissing(issues, m.id);
    }
    InsertedWhere(c, loc, p);
    InsertedInSlot(Without(issues, m.id), m);
  }
}
