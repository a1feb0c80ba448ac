/** The comments of one thread: a guarded walk up, then a depth-first walk down. */
module Threads {
  import opened Basics
  import opened Timeline

  /*** What a thread is ***/

  ghost predicate Linked(l: Links, a: string, b: string) {
    (a in l && l[a] == Some(b)) || (b in l && l[b] == Some(a))
  }

  // A walk along reply links, in either direction.
  ghost predicate IsPath(l: Links, path: seq<string>) {
    path != [] && forall i :: 0 <= i < |path| - 1 ==> Linked(l, path[i], path[i + 1])
  }

  // The connected component: two loaded comments joined by links between loaded comments.
  ghost predicate SameThread(l: Links, a: string, b: string) {
    a in l && b in l && exists path :: IsPath(Pruned(l), path) && path[0] == a && path[|path| - 1] == b
  }

  ghost predicate Meet(l: Links, a: string, b: string) {
    exists m: nat, n: nat :: Ancestor(l, a, m).Some? && Ancestor(l, a, m) == Ancestor(l, b, n)
  }

  lemma MeetTrans(l: Links, a: string, b: string, c: string)
    requires Meet(l, a, b) && Meet(l, b, c)
    ensures Meet(l, a, c)
  {
    var m: nat, n: nat :| Ancestor(l, a, m).Some? && Ancestor(l, a, m) == Ancestor(l, b, n);
    var p: nat, q: nat :| Ancestor(l, b, p).Some? && Ancestor(l, b, p) == Ancestor(l, c, q);
    if n <= p {
      AncestorAdd(l, a, m, p - n);
      AncestorAdd(l, b, n, p - n);
      assert Ancestor(l, a, m + (p - n)) == Ancestor(l, c, q);
    } else {
      AncestorAdd(l, c, q, n - p);
      AncestorAdd(l, b, p, n - p);
      assert Ancestor(l, c, q + (n - p)) == Ancestor(l, a, m);
    }
  }

  lemma LinkedMeet(l: Links, a: string, b: string)
    requires Linked(l, a, b)
    ensures Meet(l, a, b)
  {
    if a in l && l[a] == Some(b) {
      assert Ancestor(l, b, 0) == Some(b);
      assert Ancestor(l, a, 1) == Ancestor(l, b, 0);
    } else {
      assert Ancestor(l, a, 0) == Some(a);
      assert Ancestor(l, b, 1) == Ancestor(l, a, 0);
    }
  }

  lemma {:induction false} PathMeets(l: Links, path: seq<string>)
    requires IsPath(l, path)
    ensures Meet(l, path[0], path[|path| - 1])
  {
    if |path| == 1 {
      assert Ancestor(l, path[0], 0) == Some(path[0]);
    } else {
      PathMeets(l, path[1..]);
      LinkedMeet(l, path[0], path[1]);
      MeetTrans(l, path[0], path[1], path[|path| - 1]);
    }
  }

  // The ancestors of `a` up to the `m`-th, as a path.
  lemma {:induction false} Climb(l: Links, a: string, m: nat) returns (path: seq<string>)
    requires Ancestor(l, a, m).Some?
    ensures IsPath(l, path) && path[0] == a && Some(path[|path| - 1]) == Ancestor(l, a, m)
    decreases m
  {
    if m == 0 {
      path := [a];
    } else {
      var rest := Climb(l, l[a].value, m - 1);
      path := [a] + rest;
      assert forall i :: 0 < i < |path| - 1 ==> path[i] == rest[i - 1] && path[i + 1] == rest[i];
    }
  }

  lemma {:induction false} Backwards(l: Links, path: seq<string>) returns (r: seq<string>)
    requires IsPath(l, path)
    ensures IsPath(l, r) && r[0] == path[|path| - 1] && r[|r| - 1] == path[0]
  {
    if |path| == 1 {
      r := path;
    } else {
      var rest := Backwards(l, path[1..]);
      r := rest + [path[0]];
    }
  }

  // Two comments share a thread exactly when they share an ancestor (each its own ancestor).
  lemma SameThreadIffMeet(l: Links, a: string, b: string)
    requires a in l && b in l
    ensures SameThread(l, a, b) <==> Meet(Pruned(l), a, b)
  {
    var p := Pruned(l);
    if SameThread(l, a, b) {
      var path :| IsPath(p, path) && path[0] == a && path[|path| - 1] == b;
      PathMeets(p, path);
    }
    if Meet(p, a, b) {
      var m: nat, n: nat :| Ancestor(p, a, m).Some? && Ancestor(p, a, m) == Ancestor(p, b, n);
      var up := Climb(p, a, m);
      var other := Climb(p, b, n);
      var down := Backwards(p, other);
      var path := up + down[1..];
      assert up[|up| - 1] == down[0];
      assert forall i :: |up| - 1 <= i < |path| ==> path[i] == down[i - (|up| - 1)];
      assert IsPath(p, path);
      assert path[0] == a && path[|path| - 1] == b;
    }
  }

  /*** The walk up ***/

  // Where the walk up ends: a comment above `c` that has no loaded parent or lies on a cycle.
  ghost predicate IsRootFor(l: Links, c: string, r: string) {
    r in l && Reaches(l, c, r) && (l[r].None? || ReachesAbove(l, r, r))
  }

  lemma {:induction false} CycleLeadsBack(l: Links, r: string, j: nat, k: nat, x: string)
    requires j > 0 && Ancestor(l, r, j) == Some(r) && Ancestor(l, r, k) == Some(x)
    ensures Reaches(l, x, r)
    decreases k
  {
    if k <= j {
      AncestorAdd(l, r, k, j - k);
      assert Ancestor(l, x, j - k) == Some(r);
    } else {
      AncestorAdd(l, r, j, k - j);
      CycleLeadsBack(l, r, j, k - j, x);
    }
  }

  // Everything that meets `c` lies below such a root.
  lemma RootIsAboveAll(l: Links, c: string, r: string, x: string)
    requires Inside(l) && c in l && x in l && IsRootFor(l, c, r)
    ensures Meet(l, c, x) <==> Reaches(l, x, r)
  {
    var k: nat :| Ancestor(l, c, k) == Some(r);
    if Reaches(l, x, r) {
      var n: nat :| Ancestor(l, x, n) == Some(r);
      assert Ancestor(l, c, k) == Ancestor(l, x, n);
    }
    if Meet(l, c, x) {
      var m: nat, n: nat :| Ancestor(l, c, m).Some? && Ancestor(l, c, m) == Ancestor(l, x, n);
      var y := Ancestor(l, c, m).value;
      assert Reaches(l, x, y);
      if m <= k {
        AncestorAdd(l, c, m, k - m);
        assert Ancestor(l, y, k - m) == Some(r);
      } else {
        AncestorAdd(l, c, k, m - k);
        assert Ancestor(l, r, m - k) == Some(y);
        var j: nat :| j > 0 && Ancestor(l, r, j) == Some(r);
        CycleLeadsBack(l, r, j, m - k, y);
      }
      ReachesTrans(l, x, y, r);
    }
  }

  // The comments of the thread of `c`; for an id that is not loaded, the id and what hangs off it.
  ghost function ThreadOf(l: Links, c: string): set<string> {
    if c in l then set x | x in l && SameThread(l, c, x)
    else {c} + set x | x in l && Reaches(l, x, c)
  }

  lemma ThreadIsBelowRoot(l: Links, c: string, r: string, s: set<string>)
    requires if c in l then IsRootFor(Pruned(l), c, r) else r == c
    requires s == {r} + set x | x in l && Reaches(l, x, r)
    ensures s == ThreadOf(l, c)
  {
    if c in l {
      var p := Pruned(l);
      forall x | x in l ensures x in s <==> SameThread(l, c, x) {
        SameThreadIffMeet(l, c, x);
        RootIsAboveAll(p, c, r, x);
        ReachesSelf(l, r);
        if Reaches(l, x, r) {
          var n: nat :| Ancestor(l, x, n) == Some(r);
          PrunedAncestor(l, x, n, r);
        }
        if Reaches(p, x, r) {
          var n: nat :| Ancestor(p, x, n) == Some(r);
          PrunedAncestor(l, x, n, r);
        }
      }
    }
  }

  /*** The method ***/

  // The entry stored under each comment id, with the ids in insertion order.
  ghost predicate IndexOf(entries: seq<Entry>, byId: map<string, Entry>, order: seq<string>) {
    && byId.Keys == LinksOf(entries).Keys
    && (forall x :: x in byId ==> byId[x].id == x && ParentOf(byId[x]) == LinksOf(entries)[x])
    && (forall x :: x in order <==> x in byId)
  }

  method Index(entries: seq<Entry>) returns (byId: map<string, Entry>, order: seq<string>)
    ensures IndexOf(entries, byId, order)
  {
    byId, order := map[], [];
    for n := 0 to |entries|
      invariant IndexOf(entries[..n], byId, order)
    {
      assert entries[..n + 1][..n] == entries[..n];
      var e := entries[n];
      if e.comment {
        if e.id !in byId {
          order := order + [e.id];
        }
        byId := byId[e.id := e];
      }
    }
    assert entries[..|entries|] == entries;
  }

  method WalkUp(byId: map<string, Entry>, commentId: string, ghost l: Links) returns (rootId: string)
    requires byId.Keys == l.Keys && forall x :: x in byId ==> byId[x].id == x && ParentOf(byId[x]) == l[x]
    ensures if commentId in l then IsRootFor(Pruned(l), commentId, rootId) else rootId == commentId
  {
    rootId := commentId;
    var guard: set<string> := {};
    ghost var p := Pruned(l);
    ReachesSelf(p, commentId);
    while rootId in byId && ParentOf(byId[rootId]).Some? && ParentOf(byId[rootId]).value in byId && rootId !in guard
      invariant commentId in l ==> rootId in l
      invariant commentId !in l ==> rootId == commentId
      invariant guard <= byId.Keys
      invariant Reaches(p, commentId, rootId)
      invariant forall g :: g in guard ==> ReachesAbove(p, g, rootId)
      decreases byId.Keys - guard
    {
      var parent := ParentOf(byId[rootId]).value;
      assert p[rootId] == Some(parent);
      ReachesSelf(p, parent);
      ReachesParent(p, rootId, parent);
      forall g | g in guard + {rootId} ensures ReachesAbove(p, g, parent) {
        if g in guard {
          StepAbove(p, g, rootId, parent);
        }
      }
      ReachesTrans(p, commentId, rootId, parent);
      guard := guard + {rootId};
      rootId := parent;
    }
  }

  lemma StepAbove(l: Links, x: string, y: string, z: string)
    requires ReachesAbove(l, x, y) && Reaches(l, y, z)
    ensures ReachesAbove(l, x, z)
  {
    var m: nat :| m > 0 && Ancestor(l, x, m) == Some(y);
    var n: nat :| Ancestor(l, y, n) == Some(z);
    AncestorAdd(l, x, m, n);
    assert Ancestor(l, x, m + n) == Some(z);
  }

  function ChildrenOf(children: map<string, seq<string>>, id: string): seq<string> {
    if id in children then children[id] else []
  }

  ghost predicate ChildIndex(children: map<string, seq<string>>, l: Links) {
    forall x, y :: x in ChildrenOf(children, y) <==> (x in l && l[x] == Some(y))
  }

  method IndexChildren(byId: map<string, Entry>, order: seq<string>, ghost l: Links)
    returns (children: map<string, seq<string>>)
    requires byId.Keys == l.Keys && forall x :: x in byId ==> byId[x].id == x && ParentOf(byId[x]) == l[x]
    requires forall x :: x in order <==> x in byId
    ensures ChildIndex(children, l)
  {
    children := map[];
    for n := 0 to |order|
      invariant forall x, y :: x in ChildrenOf(children, y) <==> (x in order[..n] && l[x] == Some(y))
    {
      var e := byId[order[n]];
      assert order[..n + 1] == order[..n] + [order[n]];
      if ParentOf(e).Some? {
        var parent := ParentOf(e).value;
        children := children[parent := ChildrenOf(children, parent) + [e.id]];
      }
    }
    assert order[..|order|] == order;
  }

  ghost predicate ClosedBut(l: Links, ids: set<string>, stack: seq<string>) {
    forall x :: x in l && l[x].Some? && l[x].value in ids && x !in ids ==> l[x].value in stack
  }

  // The children not seen yet are marked and stacked.
  method PushUnseen(ids: set<string>, stack: seq<string>, kids: seq<string>) returns (seen: set<string>, next: seq<string>)
    ensures seen == ids + set x | x in kids
    ensures stack <= next && (forall x :: x in next ==> x in stack || x in kids)
    ensures forall x :: x in kids && x !in ids ==> x in next
    ensures seen == ids ==> next == stack
  {
    seen, next := ids, stack;
    for n := 0 to |kids|
      invariant seen == ids + set x | x in kids[..n]
      invariant stack <= next && (forall x :: x in next ==> x in stack || x in kids)
      invariant forall x :: x in kids[..n] && x !in ids ==> x in next
      invariant seen == ids ==> next == stack
    {
      var child := kids[n];
      assert kids[..n + 1] == kids[..n] + [child];
      if child !in seen {
        seen := seen + {child};
        next := next + [child];
      }
    }
    assert kids[..|kids|] == kids;
  }

  lemma PopKeepsClosed(l: Links, ids: set<string>, rest: seq<string>, id: string, kids: seq<string>,
                       seen: set<string>, next: seq<string>)
    requires ClosedBut(l, ids, rest + [id])
    requires forall x :: x in kids <==> (x in l && l[x] == Some(id))
    requires seen == ids + set x | x in kids
    requires rest <= next && forall x :: x in kids && x !in ids ==> x in next
    ensures ClosedBut(l, seen, next)
  {
    forall x | x in l && l[x].Some? && l[x].value in seen && x !in seen ensures l[x].value in next {
      assert l[x].value != id;
      assert forall y :: y in rest ==> y in next;
    }
  }

  method WalkDown(children: map<string, seq<string>>, rootId: string, ghost l: Links) returns (ids: set<string>)
    requires ChildIndex(children, l)
    ensures ids == {rootId} + set x | x in l && Reaches(l, x, rootId)
  {
    ids := {rootId};
    var stack := [rootId];
    ReachesSelf(l, rootId);
    while |stack| > 0
      invariant rootId in ids && ids <= l.Keys + {rootId}
      invariant forall x :: x in ids ==> Reaches(l, x, rootId)
      invariant forall x :: x in stack ==> x in ids
      invariant ClosedBut(l, ids, stack)
      decreases l.Keys + {rootId} - ids, |stack|
    {
      var id := stack[|stack| - 1];
      var rest := stack[..|stack| - 1];
      assert stack == rest + [id];
      var kids := ChildrenOf(children, id);
      assert forall x :: x in kids <==> (x in l && l[x] == Some(id));
      forall x | x in kids ensures Reaches(l, x, rootId) {
        ReachesParent(l, x, rootId);
      }
      var seen, next := PushUnseen(ids, rest, kids);
      PopKeepsClosed(l, ids, rest, id, kids, seen, next);
      ids, stack := seen, next;
    }
    forall x | x in l && Reaches(l, x, rootId) ensures x in ids {
      var n: nat :| Ancestor(l, x, n) == Some(rootId);
      ClosedHoldsDescendants(l, ids, rootId, x, n);
    }
  }

  // Exactly the thread, for any parent links whatsoever, cyclic ones included.
  method CollectThreadCommentIds(entries: seq<Entry>, commentId: string) returns (ids: set<string>)
    ensures ids == ThreadOf(LinksOf(entries), commentId)
  {
    ghost var l := LinksOf(entries);
    var byId, order := Index(entries);
    var rootId := WalkUp(byId, commentId, l);
    var children := IndexChildren(byId, order, l);
    ids := WalkDown(children, rootId, l);
    ThreadIsBelowRoot(l, commentId, rootId, ids);
  }

  // The threads partition the loaded comments: one set per thread.
  lemma SameSetIffSameThread(l: Links, a: string, b: string)
    requires a in l && b in l
    ensures a in ThreadOf(l, a)
    ensures SameThread(l, a, b) <==> ThreadOf(l, a) == ThreadOf(l, b)
  {
    assert IsPath(Pruned(l), [a]) && IsPath(Pruned(l), [b]);
    assert [a][0] == a && [b][0] == b;
    assert SameThread(l, a, a) && SameThread(l, b, b);
    assert b in ThreadOf(l, b);
    if SameThread(l, a, b) {
      forall x | x in l ensures SameThread(l, a, x) <==> SameThread(l, b, x) {
        SameThreadIffMeet(l, a, b);
        SameThreadIffMeet(l, a, x);
        SameThreadIffMeet(l, b, x);
        if Meet(Pruned(l), a, x) { MeetTrans(Pruned(l), b, a, x); }
        if Meet(Pruned(l), b, x) { MeetTrans(Pruned(l), a, b, x); }
      }
    }
  }
}
