/** Loading more of a bucket: the loaded count is the offset of the next page. */
module LoadMore {
  import opened Basics
  import opened IssueTypes
  import opened Buckets

  const PAGE_SIZE := 50

  predicate Shows(issues: seq<Issue>, id: string) {
    Find(issues, id).Some?
  }

  // The issues of the page not loaded yet, in the order of the page.
  function Fresh(loaded: seq<Issue>, page: seq<Issue>): seq<Issue> {
    if page == [] then []
    else (if Shows(loaded, page[0].id) then [] else [page[0]]) + Fresh(loaded, page[1..])
  }

  // The page the server answers for an offset.
  function Page(server: seq<Issue>, offset: nat): seq<Issue> {
    if offset >= |server| then []
    else if offset + PAGE_SIZE <= |server| then server[offset..offset + PAGE_SIZE]
    else server[offset..]
  }

  // One load-more, while the bucket has fewer cards than the server counts.
  function Loaded1(loaded: seq<Issue>, server: seq<Issue>): seq<Issue> {
    if |loaded| < |server| then loaded + Fresh(loaded, Page(server, |loaded|)) else loaded
  }

  function LoadedTimes(loaded: seq<Issue>, server: seq<Issue>, n: nat): seq<Issue>
    decreases n
  {
    if n == 0 then loaded else LoadedTimes(Loaded1(loaded, server), server, n - 1)
  }

  // The first `n` issues of the server, or all.
  function Front(server: seq<Issue>, n: nat): seq<Issue> {
    if n <= |server| then server[..n] else server
  }

  // Every issue the server lists before the offset is loaded.
  ghost predicate NoGap(loaded: seq<Issue>, server: seq<Issue>) {
    forall x :: x in Front(server, |loaded|) ==> Shows(loaded, x.id)
  }

  ghost predicate ShowsAll(loaded: seq<Issue>, server: seq<Issue>) {
    forall x :: x in server ==> Shows(loaded, x.id)
  }

  /*** The pages ***/

  lemma {:induction false} ShowsAppend(a: seq<Issue>, b: seq<Issue>, id: string)
    ensures Shows(a + b, id) <==> Shows(a, id) || Shows(b, id)
  {
    if a == [] {
      assert a + b == b;
    } else {
      assert (a + b)[0] == a[0] && (a + b)[1..] == a[1..] + b;
      ShowsAppend(a[1..], b, id);
    }
  }

  lemma {:induction false} FreshShows(loaded: seq<Issue>, page: seq<Issue>, id: string)
    ensures Shows(Fresh(loaded, page), id) <==> Shows(page, id) && !Shows(loaded, id)
  {
    if page != [] {
      FreshShows(loaded, page[1..], id);
      ShowsAppend(if Shows(loaded, page[0].id) then [] else [page[0]], Fresh(loaded, page[1..]), id);
      assert [page[0]][1..] == [];
    }
  }

  lemma {:induction false} FreshIsAll(loaded: seq<Issue>, page: seq<Issue>)
    requires forall x :: x in page ==> !Shows(loaded, x.id)
    ensures Fresh(loaded, page) == page
  {
    if page != [] {
      assert page == [page[0]] + page[1..];
      FreshIsAll(loaded, page[1..]);
    }
  }

  function IdsOf(issues: seq<Issue>): set<string> {
    set x | x in issues :: x.id
  }

  lemma {:induction false} ShowsIff(issues: seq<Issue>, id: string)
    ensures Shows(issues, id) <==> id in IdsOf(issues)
  {
    FindSpec(issues, id);
  }

  lemma {:induction false} DistinctSize(issues: seq<Issue>)
    requires DistinctIds(issues)
    ensures |IdsOf(issues)| == |issues|
  {
    if issues != [] {
      DistinctSize(issues[1..]);
      assert issues == [issues[0]] + issues[1..];
      FindSpec(issues[1..], issues[0].id);
      assert IdsOf(issues) == {issues[0].id} + IdsOf(issues[1..]);
    }
  }

  lemma {:induction false} DistinctSplit(a: seq<Issue>, b: seq<Issue>)
    ensures DistinctIds(a + b) <==> DistinctIds(a) && DistinctIds(b) && forall x :: x in b ==> !Shows(a, x.id)
  {
    if a == [] {
      assert a + b == b;
    } else {
      assert (a + b)[0] == a[0] && (a + b)[1..] == a[1..] + b;
      DistinctSplit(a[1..], b);
      ShowsAppend(a[1..], b, a[0].id);
      FindSpec(b, a[0].id);
    }
  }

  lemma SameSetIfFull(a: set<string>, b: set<string>)
    requires a <= b && |a| == |b|
    ensures a == b
  {
    assert b == a + (b - a);
    assert |b| == |a| + |b - a|;
    assert b - a == {};
  }

  // Without a gap the loaded cards are the server's first, in some order.
  lemma NoGapIsFront(loaded: seq<Issue>, server: seq<Issue>)
    requires DistinctIds(loaded) && DistinctIds(server) && |loaded| <= |server| && NoGap(loaded, server)
    ensures IdsOf(loaded) == IdsOf(server[..|loaded|])
  {
    var front := server[..|loaded|];
    assert server == front + server[|loaded|..];
    DistinctSplit(front, server[|loaded|..]);
    DistinctSize(loaded);
    DistinctSize(front);
    forall id | id in IdsOf(front) ensures id in IdsOf(loaded) {
      ShowsIff(loaded, id);
    }
    SameSetIfFull(IdsOf(front), IdsOf(loaded));
  }

  // One load-more of a bucket without a gap appends the whole page, and leaves none.
  lemma LoadKeepsNoGap(loaded: seq<Issue>, server: seq<Issue>)
    requires DistinctIds(loaded) && DistinctIds(server) && |loaded| < |server| && NoGap(loaded, server)
    ensures var r := Loaded1(loaded, server);
      r == loaded + Page(server, |loaded|) && DistinctIds(r) && |loaded| < |r| <= |server| && NoGap(r, server)
  {
    var page := Page(server, |loaded|);
    var front, m := server[..|loaded|], |loaded| + |page|;
    NoGapIsFront(loaded, server);
    PageIsNext(server, |loaded|);
    assert server == server[..m] + server[m..];
    DistinctSplit(server[..m], server[m..]);
    DistinctSplit(front, page);
    forall x | x in page ensures !Shows(loaded, x.id) {
      ShowsIff(loaded, x.id);
      ShowsIff(front, x.id);
    }
    FreshIsAll(loaded, page);
    DistinctSplit(loaded, page);
    FrontIsShown(loaded, server, page);
  }

  // What was loaded shows the front, and the page shows itself.
  lemma FrontIsShown(loaded: seq<Issue>, server: seq<Issue>, page: seq<Issue>)
    requires |loaded| + |page| <= |server| && server[..|loaded| + |page|] == server[..|loaded|] + page
    requires NoGap(loaded, server)
    ensures NoGap(loaded + page, server)
  {
    forall x | x in Front(server, |loaded + page|) ensures Shows(loaded + page, x.id) {
      ShowsAppend(loaded, page, x.id);
      FindSpec(page, x.id);
      assert x in server[..|loaded|] || x in page;
    }
  }

  // It brings the next fifty, or all that are left.
  lemma LoadBringsFifty(loaded: seq<Issue>, server: seq<Issue>)
    requires DistinctIds(loaded) && DistinctIds(server) && |loaded| < |server| && NoGap(loaded, server)
    ensures |Loaded1(loaded, server)| == if |loaded| + 50 < |server| then |loaded| + 50 else |server|
  {
    LoadKeepsNoGap(loaded, server);
  }

  lemma PageIsNext(server: seq<Issue>, offset: nat)
    requires offset < |server|
    ensures var page := Page(server, offset);
      0 < |page| <= |server| - offset && server[..offset + |page|] == server[..offset] + page
  {
  }

  // Enough load-mores of a bucket without a gap load everything.
  lemma {:induction false} LoadsAll(loaded: seq<Issue>, server: seq<Issue>) returns (n: nat)
    requires DistinctIds(loaded) && DistinctIds(server) && NoGap(loaded, server)
    ensures ShowsAll(LoadedTimes(loaded, server, n), server)
    decreases |server| - |loaded|
  {
    if |loaded| >= |server| {
      n := 0;
      assert Front(server, |loaded|) == server;
    } else {
      LoadKeepsNoGap(loaded, server);
      var more := LoadsAll(Loaded1(loaded, server), server);
      n := more + 1;
      assert LoadedTimes(loaded, server, n) == LoadedTimes(Loaded1(loaded, server), server, more);
    }
  }

  // An issue of the server before the offset that is not loaded never is.
  lemma GapStaysOnce(loaded: seq<Issue>, server: seq<Issue>, i: nat)
    requires DistinctIds(server) && i < |loaded| && i < |server| && !Shows(loaded, server[i].id)
    ensures |loaded| <= |Loaded1(loaded, server)| && !Shows(Loaded1(loaded, server), server[i].id)
  {
    if |loaded| < |server| {
      var page := Page(server, |loaded|);
      BeforeThePage(server, i, |loaded|);
      FreshShows(loaded, page, server[i].id);
      ShowsAppend(loaded, Fresh(loaded, page), server[i].id);
    }
  }

  lemma {:induction false} GapStays(loaded: seq<Issue>, server: seq<Issue>, i: nat, n: nat)
    requires DistinctIds(server) && i < |loaded| && i < |server| && !Shows(loaded, server[i].id)
    ensures !Shows(LoadedTimes(loaded, server, n), server[i].id)
    decreases n
  {
    if n > 0 {
      GapStaysOnce(loaded, server, i);
      GapStays(Loaded1(loaded, server), server, i, n - 1);
    }
  }

  lemma BeforeThePage(server: seq<Issue>, i: nat, offset: nat)
    requires DistinctIds(server) && i < offset < |server|
    ensures !Shows(Page(server, offset), server[i].id)
  {
    var front, page := server[..offset], Page(server, offset);
    var m := offset + |page|;
    PageIsNext(server, offset);
    assert server == server[..m] + server[m..];
    DistinctSplit(server[..m], server[m..]);
    DistinctSplit(front, page);
    assert front[i] == server[i] && front[i] in front;
    ShowsIff(front, server[i].id);
    ShowsIff(page, server[i].id);
  }

  // Some number of load-mores loads the whole bucket.
  ghost predicate EverShowsAll(loaded: seq<Issue>, server: seq<Issue>) {
    exists n: nat :: ShowsAll(LoadedTimes(loaded, server, n), server)
  }

  lemma GapNeverCloses(loaded: seq<Issue>, server: seq<Issue>)
    requires DistinctIds(server) && !NoGap(loaded, server)
    ensures !EverShowsAll(loaded, server)
  {
    var x :| x in Front(server, |loaded|) && !Shows(loaded, x.id);
    var i :| 0 <= i < |loaded| && i < |server| && server[i] == x;
    assert server[i] in server;
    forall n: nat ensures !ShowsAll(LoadedTimes(loaded, server, n), server) {
      GapStays(loaded, server, i, n);
    }
  }

  // Loading more ever loads the whole bucket exactly if no issue the server lists before the
  // loaded count is missing. One that is, is skipped for good.
  lemma LoadsAllIff(loaded: seq<Issue>, server: seq<Issue>)
    requires DistinctIds(loaded) && DistinctIds(server)
    ensures EverShowsAll(loaded, server) <==> NoGap(loaded, server)
  {
    if NoGap(loaded, server) {
      var n := LoadsAll(loaded, server);
      assert ShowsAll(LoadedTimes(loaded, server, n), server);
    } else {
      GapNeverCloses(loaded, server);
    }
  }

  /*** What a patch does to the loaded part ***/

  // The server's order with the card at slot `k`.
  function Placed(server: seq<Issue>, k: nat, m: Issue): seq<Issue>
    requires k <= |server|
  {
    server[..k] + [m] + server[k..]
  }

  lemma OnlySlot(server: seq<Issue>, k: nat, m: Issue, i: nat)
    requires k <= |server| && Find(server, m.id).None? && i < |Placed(server, k, m)| && Placed(server, k, m)[i] == m
    ensures i == k
  {
    FindSpec(server, m.id);
    assert forall j :: 0 <= j < |server| ==> server[j] in server && server[j] != m;
  }

  lemma SamePrefix(loaded: seq<Issue>, server: seq<Issue>, k: nat, m: Issue)
    requires loaded <= server && k <= |loaded|
    ensures loaded[..k] + [m] + loaded[k..] <= Placed(server, k, m)
  {
    assert server == loaded + server[|loaded|..];
    assert server[..k] == loaded[..k] && server[k..] == loaded[k..] + server[|loaded|..];
    assert Placed(server, k, m) == (loaded[..k] + [m] + loaded[k..]) + server[|loaded|..];
  }

  // The client puts a card it moves into a bucket at the slot of its position among the loaded
  // cards. The loaded part stays the server's first cards exactly if that is the server's slot.
  lemma MoveKeepsPrefixIff(loaded: seq<Issue>, server: seq<Issue>, m: Issue, k: nat)
    requires loaded <= server && k <= |server| && Find(server, m.id).None?
    ensures InsertByPosition(loaded, m) <= Placed(server, k, m) <==> k == SlotFor(loaded, m.position)
  {
    var slot, next := SlotFor(loaded, m.position), InsertByPosition(loaded, m);
    if k == slot {
      SamePrefix(loaded, server, k, m);
    } else if next <= Placed(server, k, m) {
      assert next[slot] == m;
      OnlySlot(server, k, m, slot);
    }
  }

  // A server that orders by position puts the card there exactly if the bucket is loaded in full
  // or its first card not loaded is positioned after the card.
  lemma {:induction false} SlotIff(loaded: seq<Issue>, server: seq<Issue>, position: real)
    requires loaded <= server && Sorted(server)
    ensures SlotFor(server, position) == SlotFor(loaded, position) <==>
      |loaded| == |server| || SlotFor(loaded, position) < |loaded| || server[|loaded|].position > position
  {
    if loaded == [] {
      assert SlotFor(loaded, position) == 0;
    } else {
      SlotIff(loaded[1..], server[1..], position);
      assert |loaded| < |server| ==> server[1..][|loaded| - 1] == server[|loaded|];
    }
  }

  // Otherwise the card lands behind the loaded ones, the first card not loaded falls below the
  // offset, and no load-more ever brings it.
  lemma MoveSkipsForGood(loaded: seq<Issue>, server: seq<Issue>, m: Issue, n: nat)
    requires loaded <= server && |loaded| < |server| && DistinctIds(server) && Find(server, m.id).None?
    requires SlotFor(loaded, m.position) == |loaded| < SlotFor(server, m.position)
    ensures var all := Placed(server, SlotFor(server, m.position), m);
      !Shows(LoadedTimes(InsertByPosition(loaded, m), all, n), server[|loaded|].id)
  {
    var k := SlotFor(server, m.position);
    var next, all, x := InsertByPosition(loaded, m), Placed(server, k, m), server[|loaded|];
    assert next == loaded + [m] && all[|loaded|] == x;
    PlacedDistinct(server, k, m);
    BehindIsNotShown(loaded, server);
    FindSpec(server, m.id);
    assert x in server;
    ShowsPush(loaded, m, x.id);
    GapStays(next, all, |loaded|, n);
  }

  lemma BehindIsNotShown(loaded: seq<Issue>, server: seq<Issue>)
    requires loaded <= server && |loaded| < |server| && DistinctIds(server)
    ensures !Shows(loaded, server[|loaded|].id)
  {
    assert server == loaded + server[|loaded|..];
    DistinctSplit(loaded, server[|loaded|..]);
    assert server[|loaded|] == server[|loaded|..][0];
  }

  lemma DistinctPush(a: seq<Issue>, m: Issue)
    requires DistinctIds(a) && !Shows(a, m.id)
    ensures DistinctIds(a + [m])
  {
    assert [m][1..] == [];
    DistinctSplit(a, [m]);
  }

  lemma ShowsPush(a: seq<Issue>, m: Issue, id: string)
    ensures Shows(a + [m], id) <==> Shows(a, id) || m.id == id
  {
    assert [m][1..] == [] && Find([], id).None?;
    assert Find([m], id) == if m.id == id then Some(m) else Find([m][1..], id);
    ShowsAppend(a, [m], id);
  }

  lemma PlacedDistinct(server: seq<Issue>, k: nat, m: Issue)
    requires DistinctIds(server) && k <= |server| && Find(server, m.id).None?
    ensures DistinctIds(Placed(server, k, m))
  {
    var a, b := server[..k], server[k..];
    assert server == a + b;
    DistinctSplit(a, b);
    ShowsAppend(a, b, m.id);
    DistinctPush(a, m);
    forall x | x in b ensures !Shows(a + [m], x.id) {
      ShowsPush(a, m, x.id);
      FindSpec(b, m.id);
    }
    DistinctSplit(a + [m], b);
  }

  // Taking a loaded card out leaves the server's first cards.
  lemma {:induction false} RemoveKeepsPrefix(loaded: seq<Issue>, server: seq<Issue>, id: string)
    requires loaded <= server && DistinctIds(server) && Shows(loaded, id)
    ensures Without(loaded, id) <= Without(server, id)
  {
    assert loaded[0] == server[0];
    if loaded[0].id == id {
      assert loaded[1..] <= server[1..];
      WithoutNone(loaded[1..], server[1..], id);
    } else {
      RemoveKeepsPrefix(loaded[1..], server[1..], id);
    }
  }

  lemma {:induction false} WithoutNone(loaded: seq<Issue>, server: seq<Issue>, id: string)
    requires loaded <= server && Find(server, id).None?
    ensures Without(loaded, id) == loaded && Without(server, id) == server
    decreases |server|
  {
    if server != [] {
      WithoutNone(if loaded == [] then [] else loaded[1..], server[1..], id);
    }
  }
}
