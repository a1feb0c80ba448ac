/** Breadth-first search over reply links: when it ends, for any entries whatever. */
module ReplySearch {
  import opened Basics
  import opened Timeline

  // No two comments share an id.
  ghost predicate DistinctComments(entries: seq<Entry>) {
    forall i, j :: 0 <= i < j < |entries| && entries[i].comment && entries[j].comment ==> entries[i].id != entries[j].id
  }

  function CommentIds(entries: seq<Entry>): set<string> {
    set e | e in entries && e.comment :: e.id
  }

  // A reply to a loaded comment; everything else is a row of its own (activities, top-level
  // comments, and replies whose parent is not loaded).
  predicate IsReply(e: Entry, ids: set<string>) {
    e.comment && ParentOf(e).Some? && ParentOf(e).value in ids
  }

  function TopLevel(entries: seq<Entry>, ids: set<string>): seq<Entry> {
    if entries == [] then []
    else
      var n := |entries| - 1;
      TopLevel(entries[..n], ids) + (if IsReply(entries[n], ids) then [] else [entries[n]])
  }

  // The replies to one comment, in input order.
  function Kids(entries: seq<Entry>, ids: set<string>, pid: string): seq<Entry> {
    if entries == [] then []
    else
      var n := |entries| - 1;
      Kids(entries[..n], ids, pid)
      + (if IsReply(entries[n], ids) && ParentOf(entries[n]).value == pid then [entries[n]] else [])
  }

  function Ids(entries: seq<Entry>): (r: seq<string>)
    ensures |r| == |entries| && forall i :: 0 <= i < |r| ==> r[i] == entries[i].id
  {
    Map((e: Entry) => e.id, entries)
  }

  lemma {:induction false} KidsMembers(entries: seq<Entry>, ids: set<string>, pid: string)
    ensures forall e :: e in Kids(entries, ids, pid) <==> (e in entries && IsReply(e, ids) && ParentOf(e).value == pid)
    ensures DistinctComments(entries) ==> Distinct(Ids(Kids(entries, ids, pid)))
  {
    if entries != [] {
      var n := |entries| - 1;
      var rest := Kids(entries[..n], ids, pid);
      KidsMembers(entries[..n], ids, pid);
      assert entries == entries[..n] + [entries[n]];
      if DistinctComments(entries) {
        forall e | e in rest ensures e.id != entries[n].id || !entries[n].comment {
          var i :| 0 <= i < n && entries[..n][i] == e;
          assert entries[i] == e;
        }
      }
    }
  }

  lemma {:induction false} TopLevelMembers(entries: seq<Entry>, ids: set<string>)
    ensures forall e :: e in TopLevel(entries, ids) <==> (e in entries && !IsReply(e, ids))
  {
    if entries != [] {
      var n := |entries| - 1;
      TopLevelMembers(entries[..n], ids);
      assert entries == entries[..n] + [entries[n]];
    }
  }

  // An entry without a parent, or with an empty parent id, is a row of its own.
  lemma NoParentIsTopLevel(entries: seq<Entry>, e: Entry)
    requires e in entries && (e.parentId == None || e.parentId == Some(""))
    ensures e in TopLevel(entries, CommentIds(entries))
  {
    TopLevelMembers(entries, CommentIds(entries));
  }

  lemma {:induction false} TopLevelDistinct(entries: seq<Entry>, ids: set<string>)
    requires DistinctComments(entries)
    ensures DistinctComments(TopLevel(entries, ids))
  {
    if entries != [] {
      var n := |entries| - 1;
      var rest := TopLevel(entries[..n], ids);
      TopLevelDistinct(entries[..n], ids);
      TopLevelMembers(entries[..n], ids);
      forall e | e in rest && e.comment ensures e.id != entries[n].id || !entries[n].comment {
        var i :| 0 <= i < n && entries[..n][i] == e;
        assert entries[i] == e;
      }
    }
  }

  /*** What the search meets ***/

  lemma {:induction false} DistinctLength(s: seq<string>, universe: set<string>)
    requires Distinct(s) && forall x :: x in s ==> x in universe
    ensures |s| <= |universe|
  {
    if s != [] {
      var n := |s| - 1;
      DistinctLength(s[..n], universe - {s[n]});
    }
  }

  lemma IdsMembers(entries: seq<Entry>, x: string)
    ensures x in Ids(entries) <==> exists e :: e in entries && e.id == x
  {
    if x in Ids(entries) {
      var i :| 0 <= i < |entries| && Ids(entries)[i] == x;
      assert entries[i] in entries;
    }
    if e :| e in entries && e.id == x {
      var i :| 0 <= i < |entries| && entries[i] == e;
      assert Ids(entries)[i] == x;
    }
  }

  // The ids met so far: the root, then the replies in the order they were put out.
  function Met(root: string, out: seq<Entry>): seq<string> {
    [root] + Ids(out)
  }

  // The replies to each of the parents in turn, those to one parent in input order.
  function KidsOfAll(entries: seq<Entry>, ids: set<string>, parents: seq<string>): seq<Entry> {
    if parents == [] then []
    else
      var n := |parents| - 1;
      KidsOfAll(entries, ids, parents[..n]) + Kids(entries, ids, parents[n])
  }

  lemma KidsOfOneMore(entries: seq<Entry>, ids: set<string>, parents: seq<string>, pid: string)
    ensures KidsOfAll(entries, ids, parents + [pid]) == KidsOfAll(entries, ids, parents) + Kids(entries, ids, pid)
  {
    assert (parents + [pid])[..|parents|] == parents;
  }

  /*** The search, pop by pop ***/

  function BfsQueue(entries: seq<Entry>, queue: seq<string>): seq<string> {
    if queue == [] then [] else queue[1..] + KidIds(entries, queue[0])
  }

  function BfsQueueAfter(entries: seq<Entry>, queue: seq<string>, steps: nat): seq<string>
    decreases steps
  {
    if steps == 0 then queue else BfsQueueAfter(entries, BfsQueue(entries, queue), steps - 1)
  }

  function KidIds(entries: seq<Entry>, x: string): seq<string> {
    Ids(Kids(entries, CommentIds(entries), x))
  }

  // `y` is the id of a reply to `x`.
  predicate Edge(entries: seq<Entry>, x: string, y: string) {
    y in KidIds(entries, x)
  }

  ghost predicate IsWalk(entries: seq<Entry>, path: seq<string>) {
    path != [] && forall i :: 0 <= i < |path| - 1 ==> Edge(entries, path[i], path[i + 1])
  }

  // `y` is `x`, or below it.
  ghost predicate Leads(entries: seq<Entry>, x: string, y: string) {
    exists path :: IsWalk(entries, path) && path[0] == x && path[|path| - 1] == y
  }

  ghost predicate Below(entries: seq<Entry>, x: string, y: string) {
    exists path :: IsWalk(entries, path) && |path| >= 2 && path[0] == x && path[|path| - 1] == y
  }

  // No id the search meets is below itself.
  ghost predicate NoLoopBelow(entries: seq<Entry>, root: string) {
    forall x :: Leads(entries, root, x) ==> !Below(entries, x, x)
  }

  /*** Without a loop the walks below an id are finitely many ***/

  // No walk from `x` has `f` edges.
  ghost predicate FiniteBy(entries: seq<Entry>, x: string, f: nat)
    decreases f
  {
    f > 0 && forall y :: y in KidIds(entries, x) ==> FiniteBy(entries, y, f - 1)
  }

  // How many walks start at `x`: how often the search pops on its account.
  ghost function Tree(entries: seq<Entry>, x: string, f: nat): nat
    requires FiniteBy(entries, x, f)
    decreases f, 0
  {
    1 + TreeAll(entries, KidIds(entries, x), f - 1)
  }

  ghost function TreeAll(entries: seq<Entry>, xs: seq<string>, f: nat): nat
    requires forall x :: x in xs ==> FiniteBy(entries, x, f)
    decreases f, |xs|
  {
    if xs == [] then 0 else Tree(entries, xs[0], f) + TreeAll(entries, xs[1..], f)
  }

  lemma {:induction false} TreeMore(entries: seq<Entry>, x: string, f: nat)
    requires FiniteBy(entries, x, f)
    ensures FiniteBy(entries, x, f + 1) && Tree(entries, x, f + 1) == Tree(entries, x, f)
    decreases f, 0
  {
    forall y | y in KidIds(entries, x) ensures FiniteBy(entries, y, f) {
      TreeMore(entries, y, f - 1);
    }
    TreeAllMore(entries, KidIds(entries, x), f - 1);
  }

  lemma {:induction false} TreeAllMore(entries: seq<Entry>, xs: seq<string>, f: nat)
    requires forall x :: x in xs ==> FiniteBy(entries, x, f)
    ensures forall x :: x in xs ==> FiniteBy(entries, x, f + 1)
    ensures TreeAll(entries, xs, f + 1) == TreeAll(entries, xs, f)
    decreases f, |xs|
  {
    if xs != [] {
      assert xs == [xs[0]] + xs[1..];
      TreeMore(entries, xs[0], f);
      TreeAllMore(entries, xs[1..], f);
    }
  }

  lemma {:induction false} TreeAllAppend(entries: seq<Entry>, a: seq<string>, b: seq<string>, f: nat)
    requires forall x :: x in a + b ==> FiniteBy(entries, x, f)
    ensures (forall x :: x in a ==> FiniteBy(entries, x, f)) && (forall x :: x in b ==> FiniteBy(entries, x, f))
    ensures TreeAll(entries, a + b, f) == TreeAll(entries, a, f) + TreeAll(entries, b, f)
  {
    forall x | x in a ensures FiniteBy(entries, x, f) { assert x in a + b; }
    forall x | x in b ensures FiniteBy(entries, x, f) { assert x in a + b; }
    if a == [] {
      assert a + b == b;
    } else {
      assert (a + b)[0] == a[0] && (a + b)[1..] == a[1..] + b;
      TreeAllAppend(entries, a[1..], b, f);
    }
  }

  // Each pop leaves one walk fewer.
  lemma PopCosts(entries: seq<Entry>, queue: seq<string>, f: nat)
    requires queue != [] && forall x :: x in queue ==> FiniteBy(entries, x, f)
    ensures forall x :: x in BfsQueue(entries, queue) ==> FiniteBy(entries, x, f)
    ensures TreeAll(entries, BfsQueue(entries, queue), f) == TreeAll(entries, queue, f) - 1
  {
    var kids := KidIds(entries, queue[0]);
    assert queue[0] in queue && FiniteBy(entries, queue[0], f);
    TreeAllMore(entries, kids, f - 1);
    TreeAllAppend(entries, queue[1..], kids, f);
  }

  lemma {:induction false} SearchDrains(entries: seq<Entry>, queue: seq<string>, f: nat)
    requires forall x :: x in queue ==> FiniteBy(entries, x, f)
    ensures BfsQueueAfter(entries, queue, TreeAll(entries, queue, f)) == []
    decreases TreeAll(entries, queue, f)
  {
    if queue != [] {
      PopCosts(entries, queue, f);
      SearchDrains(entries, BfsQueue(entries, queue), f);
    }
  }

  lemma {:induction false} LongWalk(entries: seq<Entry>, x: string, f: nat) returns (path: seq<string>)
    requires !FiniteBy(entries, x, f)
    ensures IsWalk(entries, path) && |path| == f + 1 && path[0] == x
    decreases f
  {
    if f == 0 {
      path := [x];
    } else {
      var y :| y in KidIds(entries, x) && !FiniteBy(entries, y, f - 1);
      var rest := LongWalk(entries, y, f - 1);
      path := [x] + rest;
    }
  }

  lemma WalkPart(entries: seq<Entry>, path: seq<string>, i: nat, j: nat)
    requires IsWalk(entries, path) && i <= j < |path|
    ensures Leads(entries, path[i], path[j]) && (i < j ==> Below(entries, path[i], path[j]))
  {
    var part := path[i..j + 1];
    assert IsWalk(entries, part) && part[0] == path[i] && part[|part| - 1] == path[j];
  }

  lemma EdgeIsComment(entries: seq<Entry>, x: string, y: string)
    requires Edge(entries, x, y)
    ensures y in CommentIds(entries)
  {
    var kids := Kids(entries, CommentIds(entries), x);
    IdsMembers(kids, y);
    KidsMembers(entries, CommentIds(entries), x);
  }

  lemma {:induction false} RepeatedIn(s: seq<string>) returns (i: nat, j: nat)
    requires !Distinct(s)
    ensures i < j < |s| && s[i] == s[j]
  {
    i, j :| 0 <= i < j < |s| && s[i] == s[j];
  }

  // A walk longer than there are comments meets an id twice.
  lemma LongWalkLoops(entries: seq<Entry>, path: seq<string>) returns (i: nat, j: nat)
    requires IsWalk(entries, path) && |path| > |CommentIds(entries)| + 1
    ensures i < j < |path| && path[i] == path[j]
  {
    var tail := path[1..];
    forall y | y in tail ensures y in CommentIds(entries) {
      var m :| 0 <= m < |tail| && tail[m] == y;
      assert Edge(entries, path[m], path[m + 1]);
      EdgeIsComment(entries, path[m], path[m + 1]);
    }
    if Distinct(tail) {
      DistinctLength(tail, CommentIds(entries));
      assert false;
    }
    i, j := RepeatedIn(tail);
    i, j := i + 1, j + 1;
  }

  lemma NoLoopIsFinite(entries: seq<Entry>, root: string)
    requires NoLoopBelow(entries, root)
    ensures FiniteBy(entries, root, |CommentIds(entries)| + 1)
  {
    var f := |CommentIds(entries)| + 1;
    if !FiniteBy(entries, root, f) {
      var path := LongWalk(entries, root, f);
      var i, j := LongWalkLoops(entries, path);
      WalkPart(entries, path, 0, i);
      WalkPart(entries, path, i, j);
      assert false;
    }
  }

  /*** A loop keeps the queue busy ***/

  ghost predicate Doomed(entries: seq<Entry>, y: string) {
    exists x :: Leads(entries, y, x) && Below(entries, x, x)
  }

  lemma DoomedPassesOn(entries: seq<Entry>, y: string) returns (z: string)
    requires Doomed(entries, y)
    ensures Edge(entries, y, z) && Doomed(entries, z)
  {
    var x :| Leads(entries, y, x) && Below(entries, x, x);
    var path :| IsWalk(entries, path) && path[0] == y && path[|path| - 1] == x;
    if |path| < 2 {
      path :| IsWalk(entries, path) && |path| >= 2 && path[0] == x && path[|path| - 1] == x;
    }
    z := path[1];
    WalkPart(entries, path, 1, |path| - 1);
    assert Edge(entries, path[0], path[0 + 1]);
  }

  ghost predicate QueueDoomed(entries: seq<Entry>, queue: seq<string>) {
    exists y :: y in queue && Doomed(entries, y)
  }

  lemma DoomedPop(entries: seq<Entry>, queue: seq<string>)
    requires QueueDoomed(entries, queue)
    ensures queue != [] && QueueDoomed(entries, BfsQueue(entries, queue))
  {
    var y :| y in queue && Doomed(entries, y);
    assert queue == [queue[0]] + queue[1..];
    if y == queue[0] {
      var z := DoomedPassesOn(entries, y);
      assert z in KidIds(entries, queue[0]);
      assert z in BfsQueue(entries, queue);
    } else {
      assert y in BfsQueue(entries, queue);
    }
  }

  lemma {:induction false} DoomedNeverDrains(entries: seq<Entry>, queue: seq<string>, steps: nat)
    requires QueueDoomed(entries, queue)
    ensures QueueDoomed(entries, BfsQueueAfter(entries, queue, steps))
    decreases steps
  {
    if steps > 0 {
      DoomedPop(entries, queue);
      DoomedNeverDrains(entries, BfsQueue(entries, queue), steps - 1);
    }
  }

  // The search from `root` ends exactly when no id it meets is below itself.
  lemma SearchEndsIff(entries: seq<Entry>, root: string)
    ensures (exists steps: nat :: BfsQueueAfter(entries, [root], steps) == []) <==> NoLoopBelow(entries, root)
  {
    if NoLoopBelow(entries, root) {
      var f := |CommentIds(entries)| + 1;
      NoLoopIsFinite(entries, root);
      SearchDrains(entries, [root], f);
    } else {
      var x :| Leads(entries, root, x) && Below(entries, x, x);
      assert root in [root] && Doomed(entries, root);
      forall steps: nat ensures BfsQueueAfter(entries, [root], steps) != [] {
        DoomedNeverDrains(entries, [root], steps);
        DoomedPop(entries, BfsQueueAfter(entries, [root], steps));
      }
    }
  }

  // Without distinct ids the search need not end: a second comment with id "a" below a reply
  // to the first keeps the queue of the first busy forever.
  lemma {:induction false} DuplicateIdsNeverDrain(a: Entry, b: Entry, a': Entry, steps: nat)
    requires a.comment && a.id == "a" && ParentOf(a).None?
    requires b.comment && b.id == "b" && ParentOf(b) == Some("a")
    requires a'.comment && a'.id == "a" && ParentOf(a') == Some("b")
    ensures a in TopLevel([a, b, a'], CommentIds([a, b, a']))
    ensures BfsQueueAfter([a, b, a'], ["a"], steps) != []
    decreases steps
  {
    var es := [a, b, a'];
    assert a in es;
    TopLevelMembers(es, CommentIds(es));
    if steps >= 2 {
      DuplicateIdsNeverDrain(a, b, a', steps - 2);
      TheyTakeTurns(a, b, a');
      assert BfsQueueAfter(es, ["a"], steps) == BfsQueueAfter(es, ["b"], steps - 1);
    } else if steps == 1 {
      TheyTakeTurns(a, b, a');
      assert BfsQueueAfter(es, ["a"], 1) == BfsQueueAfter(es, ["b"], 0);
    }
  }

  lemma TheyTakeTurns(a: Entry, b: Entry, a': Entry)
    requires a.comment && a.id == "a" && ParentOf(a).None?
    requires b.comment && b.id == "b" && ParentOf(b) == Some("a")
    requires a'.comment && a'.id == "a" && ParentOf(a') == Some("b")
    ensures BfsQueue([a, b, a'], ["a"]) == ["b"] && BfsQueue([a, b, a'], ["b"]) == ["a"]
  {
    var es := [a, b, a'];
    var ids := CommentIds(es);
    assert es[0] in es && es[1] in es;
    assert "a" in ids && "b" in ids;
    KidsOfThree(a, b, a', ids, "a");
    KidsOfThree(a, b, a', ids, "b");
  }

  lemma KidsOfThree(a: Entry, b: Entry, c: Entry, ids: set<string>, pid: string)
    ensures Kids([a, b, c], ids, pid) ==
      (if IsReply(a, ids) && ParentOf(a).value == pid then [a] else [])
      + (if IsReply(b, ids) && ParentOf(b).value == pid then [b] else [])
      + (if IsReply(c, ids) && ParentOf(c).value == pid then [c] else [])
  {
    assert [a, b, c][..2] == [a, b];
    assert [a, b][..1] == [a];
    assert [a][..0] == [];
    assert Kids([], ids, pid) == [];
    assert Kids([a], ids, pid) == if IsReply(a, ids) && ParentOf(a).value == pid then [a] else [];
    assert Kids([a, b], ids, pid) ==
      Kids([a], ids, pid) + (if IsReply(b, ids) && ParentOf(b).value == pid then [b] else []);
  }
}
