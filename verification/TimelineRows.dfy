/** The flat timeline: each top-level entry bundled with its whole reply chain by breadth-first search. */
module TimelineRows {
  import opened Basics
  import opened Timeline
  import opened Comments
  import opened ReplySearch

  datatype Row = Row(entry: Entry, replies: seq<Entry>)

  /*** The reply links of the loaded comments ***/

  // `p` holds each loaded comment's loaded parent, if any; ids name one comment each.
  ghost predicate Describes(entries: seq<Entry>, p: Links) {
    && p.Keys == CommentIds(entries)
    && (forall e :: e in entries && e.comment ==> p[e.id] == if IsReply(e, p.Keys) then ParentOf(e) else None)
    && (forall e, f :: e in entries && f in entries && e.comment && f.comment && e.id == f.id ==> e == f)
  }

  function ReplyLinks(entries: seq<Entry>): Links {
    Pruned(LinksOf(entries))
  }

  lemma LinkKeys(entries: seq<Entry>)
    ensures LinksOf(entries).Keys == CommentIds(entries)
  {
    LinksWitness(entries);
    forall x | x in LinksOf(entries) ensures x in CommentIds(entries) {
      assert Wrote(entries, x, LinksOf(entries)[x]);
    }
  }

  lemma LinksDescribe(entries: seq<Entry>)
    requires DistinctComments(entries)
    ensures Describes(entries, ReplyLinks(entries))
  {
    LinkKeys(entries);
    LinksWitness(entries);
    forall e | e in entries && e.comment ensures LinksOf(entries)[e.id] == ParentOf(e) {
      assert Wrote(entries, e.id, LinksOf(entries)[e.id]);
    }
  }

  method CollectCommentIds(entries: seq<Entry>) returns (commentIds: set<string>)
    ensures commentIds == CommentIds(entries)
  {
    commentIds := {};
    for n := 0 to |entries|
      invariant commentIds == CommentIds(entries[..n])
    {
      assert entries[..n + 1] == entries[..n] + [entries[n]];
      if entries[n].comment {
        commentIds := commentIds + {entries[n].id};
      }
    }
    assert entries[..|entries|] == entries;
  }

  function RepliesTo(children: map<string, seq<Entry>>, id: string): seq<Entry> {
    if id in children then children[id] else []
  }

  ghost predicate Grouped(entries: seq<Entry>, ids: set<string>, children: map<string, seq<Entry>>) {
    forall p :: RepliesTo(children, p) == Kids(entries, ids, p)
  }

  lemma KidsNext(entries: seq<Entry>, n: nat, ids: set<string>)
    requires n < |entries|
    ensures TopLevel(entries[..n + 1], ids) ==
      TopLevel(entries[..n], ids) + (if IsReply(entries[n], ids) then [] else [entries[n]])
    ensures forall p ::
              Kids(entries[..n + 1], ids, p) ==
              Kids(entries[..n], ids, p)
              + (if IsReply(entries[n], ids) && ParentOf(entries[n]).value == p then [entries[n]] else [])
  {
    assert entries[..n + 1][..n] == entries[..n];
  }

  method Partition(entries: seq<Entry>, commentIds: set<string>)
    returns (topLevel: seq<Entry>, children: map<string, seq<Entry>>)
    ensures topLevel == TopLevel(entries, commentIds) && Grouped(entries, commentIds, children)
  {
    topLevel, children := [], map[];
    for n := 0 to |entries|
      invariant topLevel == TopLevel(entries[..n], commentIds) && Grouped(entries[..n], commentIds, children)
    {
      assert entries[..n + 1][..n] == entries[..n];
      var e := entries[n];
      KidsNext(entries, n, commentIds);
      if e.comment && ParentOf(e).Some? && ParentOf(e).value in commentIds {
        var parent := ParentOf(e).value;
        children := children[parent := RepliesTo(children, parent) + [e]];
      } else {
        topLevel := topLevel + [e];
      }
    }
    assert entries[..|entries|] == entries;
  }

  /*** The breadth-first search ***/

  // A loaded comment whose loaded parent is in `parents`.
  ghost predicate RepliesInto(entries: seq<Entry>, p: Links, e: Entry, parents: seq<string>) {
    e in entries && e.comment && e.id in p && p[e.id].Some? && p[e.id].value in parents
  }

  // After expanding the ids `popped`, with `queue` to go.
  ghost predicate Searched(entries: seq<Entry>, p: Links, root: string, out: seq<Entry>, popped: seq<string>, queue: seq<string>) {
    && Met(root, out) == popped + queue
    && Distinct(popped + queue)
    && (forall e :: e in out <==> RepliesInto(entries, p, e, popped))
    && (forall e :: e in out ==> Reaches(p, e.id, root))
  }

  // Every reply comes after its parent, the replies to the root itself first.
  ghost predicate ParentsFirst(p: Links, root: string, out: seq<Entry>) {
    forall i :: 0 <= i < |out| ==> out[i].id in p && p[out[i].id].Some? && p[out[i].id].value in Met(root, out[..i])
  }

  // A top-level root: a loaded comment that replies to no loaded comment.
  ghost predicate IsTop(p: Links, root: string) {
    root in p && p[root].None?
  }

  lemma KidsReplyTo(entries: seq<Entry>, p: Links, pid: string)
    requires Describes(entries, p)
    ensures forall e :: e in Kids(entries, p.Keys, pid) <==> RepliesInto(entries, p, e, [pid])
  {
    KidsMembers(entries, p.Keys, pid);
  }

  // An id met was already expanded into by its parent, so expanding `pid` meets it no second time.
  lemma KidIsNew(entries: seq<Entry>, p: Links, root: string, out: seq<Entry>, popped: seq<string>, pid: string, x: string)
    requires IsTop(p, root) && pid !in popped && x in p && p[x] == Some(pid)
    requires forall e :: e in out <==> RepliesInto(entries, p, e, popped)
    ensures x !in Met(root, out)
  {
    IdsMembers(out, x);
  }

  lemma MiddleIsNew<T>(a: seq<T>, x: T, b: seq<T>)
    requires Distinct(a + ([x] + b))
    ensures x !in a
  {
    var s := a + ([x] + b);
    assert s[|a|] == x;
    assert forall i :: 0 <= i < |a| ==> s[i] == a[i];
  }

  lemma MetMore(root: string, out: seq<Entry>, kids: seq<Entry>)
    ensures Met(root, out + kids) == Met(root, out) + Ids(kids)
  {
    assert Ids(out + kids) == Ids(out) + Ids(kids);
  }

  lemma KidsAreNew(entries: seq<Entry>, p: Links, root: string, out: seq<Entry>, popped: seq<string>, pid: string,
                   kids: seq<Entry>, x: string)
    requires Describes(entries, p) && IsTop(p, root) && pid !in popped
    requires forall e :: e in out <==> RepliesInto(entries, p, e, popped)
    requires kids == Kids(entries, p.Keys, pid) && x in Ids(kids)
    ensures x !in Met(root, out)
  {
    KidsReplyTo(entries, p, pid);
    IdsMembers(kids, x);
    KidIsNew(entries, p, root, out, popped, pid, x);
  }

  lemma ExpandMeets(entries: seq<Entry>, p: Links, root: string, out: seq<Entry>, popped: seq<string>, pid: string,
                    rest: seq<string>, kids: seq<Entry>)
    requires Describes(entries, p) && IsTop(p, root) && DistinctComments(entries)
    requires Searched(entries, p, root, out, popped, [pid] + rest)
    requires kids == Kids(entries, p.Keys, pid)
    ensures Met(root, out + kids) == (popped + [pid]) + (rest + Ids(kids))
    ensures Distinct(Met(root, out + kids))
  {
    MiddleIsNew(popped, pid, rest);
    AddedAreNew(entries, p, root, out, popped, pid, kids);
    MetOnward(root, out, popped, pid, rest, kids);
  }

  lemma MetOnward(root: string, out: seq<Entry>, popped: seq<string>, pid: string, rest: seq<string>, kids: seq<Entry>)
    requires Met(root, out) == popped + ([pid] + rest) && Distinct(Met(root, out))
    requires Distinct(Ids(kids)) && forall x :: x in Ids(kids) ==> x !in Met(root, out)
    ensures Met(root, out + kids) == (popped + [pid]) + (rest + Ids(kids))
    ensures Distinct(Met(root, out + kids))
  {
    var met, added := Met(root, out), Ids(kids);
    DistinctAppend(met, added);
    MetMore(root, out, kids);
    assert met + added == (popped + [pid]) + (rest + added);
  }

  lemma AddedAreNew(entries: seq<Entry>, p: Links, root: string, out: seq<Entry>, popped: seq<string>, pid: string,
                    kids: seq<Entry>)
    requires Describes(entries, p) && IsTop(p, root) && DistinctComments(entries) && pid !in popped
    requires forall e :: e in out <==> RepliesInto(entries, p, e, popped)
    requires kids == Kids(entries, p.Keys, pid)
    ensures Distinct(Ids(kids)) && forall x :: x in Ids(kids) ==> x !in Met(root, out)
  {
    KidsMembers(entries, p.Keys, pid);
    forall x | x in Ids(kids) ensures x !in Met(root, out) {
      KidsAreNew(entries, p, root, out, popped, pid, kids, x);
    }
  }

  lemma RepliesIntoMore(entries: seq<Entry>, p: Links, e: Entry, popped: seq<string>, pid: string)
    ensures RepliesInto(entries, p, e, popped + [pid]) <==>
            (RepliesInto(entries, p, e, popped) || RepliesInto(entries, p, e, [pid]))
  {
  }

  lemma ExpandNext(entries: seq<Entry>, p: Links, root: string, out: seq<Entry>, popped: seq<string>, pid: string,
                   rest: seq<string>, kids: seq<Entry>)
    requires Describes(entries, p) && IsTop(p, root) && DistinctComments(entries)
    requires Searched(entries, p, root, out, popped, [pid] + rest)
    requires kids == Kids(entries, p.Keys, pid)
    ensures Searched(entries, p, root, out + kids, popped + [pid], rest + Ids(kids))
  {
    ExpandMeets(entries, p, root, out, popped, pid, rest, kids);
    KidsReplyTo(entries, p, pid);
    assert (popped + ([pid] + rest))[|popped|] == pid;
    MetReach(entries, p, root, out, popped, [pid] + rest, pid);
    forall e | e in kids ensures Reaches(p, e.id, root) {
      ReachesParent(p, e.id, root);
    }
    forall e ensures e in out + kids <==> RepliesInto(entries, p, e, popped + [pid]) {
      RepliesIntoMore(entries, p, e, popped, pid);
    }
  }

  lemma MetReach(entries: seq<Entry>, p: Links, root: string, out: seq<Entry>, popped: seq<string>, queue: seq<string>, x: string)
    requires Searched(entries, p, root, out, popped, queue) && x in popped + queue
    ensures Reaches(p, x, root)
  {
    ReachesSelf(p, root);
    assert x in Met(root, out);
    if x != root {
      IdsMembers(out, x);
    }
  }

  lemma MetGrows(root: string, out: seq<Entry>, kids: seq<Entry>, x: string)
    requires x in Met(root, out)
    ensures x in Met(root, out + kids)
  {
    MetMore(root, out, kids);
  }

  lemma ExpandKeepsOrder(entries: seq<Entry>, p: Links, root: string, out: seq<Entry>, pid: string, kids: seq<Entry>)
    requires Describes(entries, p) && kids == Kids(entries, p.Keys, pid) && pid in Met(root, out)
    requires ParentsFirst(p, root, out)
    ensures ParentsFirst(p, root, out + kids)
  {
    KidsReplyTo(entries, p, pid);
    var out' := out + kids;
    forall i | 0 <= i < |out'|
      ensures out'[i].id in p && p[out'[i].id].Some? && p[out'[i].id].value in Met(root, out'[..i])
    {
      if i < |out| {
        assert out'[..i] == out[..i];
      } else {
        assert RepliesInto(entries, p, out'[i], [pid]) by {
          assert out'[i] in kids;
        }
        assert out'[..i] == out + kids[..i - |out|];
        MetGrows(root, out, kids[..i - |out|], pid);
      }
    }
  }

  // A bundle: exactly the comments below the root, each once, every reply after its parent.
  ghost predicate IsBundle(entries: seq<Entry>, p: Links, root: string, replies: seq<Entry>) {
    && Distinct(Met(root, replies))
    && (forall e :: e in replies <==> (e in entries && e.comment && e.id != root && Reaches(p, e.id, root)))
    && ParentsFirst(p, root, replies)
  }

  // The replies to the root first, then those to each reply in turn, always in input order; what
  // is listed is a reply to something listed before.
  ghost predicate InTurn(entries: seq<Entry>, root: string, replies: seq<Entry>) {
    var met := Met(root, replies);
    && replies == KidsOfAll(entries, CommentIds(entries), met)
    && forall n :: 0 <= n <= |replies| ==> n <= |KidsOfAll(entries, CommentIds(entries), met[..n])|
  }

  // No pop went ahead of what the earlier pops had put out.
  ghost predicate NeverAhead(entries: seq<Entry>, popped: seq<string>) {
    forall n :: 0 <= n < |popped| ==> n <= |KidsOfAll(entries, CommentIds(entries), popped[..n])|
  }

  // Half-way: the ids popped and those in the queue are the ids met.
  ghost predicate HalfWay(entries: seq<Entry>, root: string, out: seq<Entry>, popped: seq<string>, queue: seq<string>) {
    && Met(root, out) == popped + queue
    && out == KidsOfAll(entries, CommentIds(entries), popped)
    && NeverAhead(entries, popped)
  }

  lemma NeverAheadPush(entries: seq<Entry>, popped: seq<string>, pid: string)
    requires NeverAhead(entries, popped) && |popped| <= |KidsOfAll(entries, CommentIds(entries), popped)|
    ensures NeverAhead(entries, popped + [pid])
  {
    var next := popped + [pid];
    forall n | 0 <= n < |next| ensures n <= |KidsOfAll(entries, CommentIds(entries), next[..n])| {
      assert next[..n] == if n < |popped| then popped[..n] else popped;
    }
  }

  lemma MetPop(root: string, out: seq<Entry>, popped: seq<string>, pid: string, rest: seq<string>, kids: seq<Entry>)
    requires Met(root, out) == popped + ([pid] + rest)
    ensures Met(root, out + kids) == (popped + [pid]) + (rest + Ids(kids)) && |popped| <= |out|
  {
    MetMore(root, out, kids);
    assert |Met(root, out)| == |out| + 1;
    assert popped + ([pid] + rest) + Ids(kids) == (popped + [pid]) + (rest + Ids(kids));
  }

  lemma PopHalfWay(entries: seq<Entry>, root: string, out: seq<Entry>, popped: seq<string>, pid: string, rest: seq<string>,
                   kids: seq<Entry>)
    requires HalfWay(entries, root, out, popped, [pid] + rest) && kids == Kids(entries, CommentIds(entries), pid)
    ensures HalfWay(entries, root, out + kids, popped + [pid], rest + Ids(kids))
  {
    KidsOfOneMore(entries, CommentIds(entries), popped, pid);
    MetPop(root, out, popped, pid, rest, kids);
    NeverAheadPush(entries, popped, pid);
  }

  lemma HalfWayDone(entries: seq<Entry>, root: string, out: seq<Entry>, popped: seq<string>)
    requires HalfWay(entries, root, out, popped, [])
    ensures InTurn(entries, root, out)
  {
    assert popped + [] == popped;
  }

  lemma SearchDone(entries: seq<Entry>, p: Links, root: string, out: seq<Entry>, popped: seq<string>)
    requires Describes(entries, p) && IsTop(p, root) && Searched(entries, p, root, out, popped, [])
    requires ParentsFirst(p, root, out)
    ensures IsBundle(entries, p, root, out)
  {
    assert popped + [] == popped == Met(root, out);
    var all := set x | x in popped;
    assert popped[0] == root;
    forall y | y in p && p[y].Some? && p[y].value in all ensures y in all {
      var e :| e in entries && e.comment && e.id == y;
      assert RepliesInto(entries, p, e, popped);
      IdsMembers(out, y);
    }
    forall e | e in entries && e.comment && e.id != root && Reaches(p, e.id, root) ensures e in out {
      var n: nat :| Ancestor(p, e.id, n) == Some(root);
      ClosedHoldsDescendants(p, all, root, e.id, n);
      IdsMembers(out, e.id);
    }
    forall e | e in out ensures e.id != root {
      assert RepliesInto(entries, p, e, popped);
    }
  }

  // The links by which the search is exact: distinct ids, and a root that is no reply.
  ghost predicate Exact(entries: seq<Entry>, root: string) {
    DistinctComments(entries) && IsTop(ReplyLinks(entries), root)
  }

  // Where the links are exact the search so far is too.
  ghost predicate SoFar(entries: seq<Entry>, root: string, out: seq<Entry>, popped: seq<string>, queue: seq<string>) {
    Exact(entries, root) ==>
      Searched(entries, ReplyLinks(entries), root, out, popped, queue) && ParentsFirst(ReplyLinks(entries), root, out)
  }

  lemma SoFarNext(entries: seq<Entry>, root: string, out: seq<Entry>, popped: seq<string>, pid: string, rest: seq<string>,
                  kids: seq<Entry>)
    requires SoFar(entries, root, out, popped, [pid] + rest) && kids == Kids(entries, CommentIds(entries), pid)
    ensures SoFar(entries, root, out + kids, popped + [pid], rest + Ids(kids))
  {
    if Exact(entries, root) {
      var p := ReplyLinks(entries);
      LinksDescribe(entries);
      assert pid in popped + ([pid] + rest) by {
        assert (popped + ([pid] + rest))[|popped|] == pid;
      }
      ExpandNext(entries, p, root, out, popped, pid, rest, kids);
      ExpandKeepsOrder(entries, p, root, out, pid, kids);
    }
  }

  lemma SoFarDone(entries: seq<Entry>, root: string, out: seq<Entry>, popped: seq<string>)
    requires SoFar(entries, root, out, popped, []) && Exact(entries, root)
    ensures IsBundle(entries, ReplyLinks(entries), root, out)
  {
    LinksDescribe(entries);
    SearchDone(entries, ReplyLinks(entries), root, out, popped);
  }

  // Ends exactly because no id it meets is below itself; with distinct ids and a top-level root
  // the result is the bundle.
  method CollectDescendants(entries: seq<Entry>, children: map<string, seq<Entry>>, parentId: string)
    returns (out: seq<Entry>)
    requires NoLoopBelow(entries, parentId) && Grouped(entries, CommentIds(entries), children)
    ensures InTurn(entries, parentId, out)
    ensures Exact(entries, parentId) ==> IsBundle(entries, ReplyLinks(entries), parentId, out)
  {
    ghost var f := |CommentIds(entries)| + 1;
    NoLoopIsFinite(entries, parentId);
    out := [];
    var queue := [parentId];
    ghost var popped: seq<string> := [];
    assert popped + queue == queue;
    while |queue| > 0
      invariant HalfWay(entries, parentId, out, popped, queue)
      invariant SoFar(entries, parentId, out, popped, queue)
      invariant forall x :: x in queue ==> FiniteBy(entries, x, f)
      decreases TreeAll(entries, queue, f)
    {
      PopCosts(entries, queue, f);
      var pid, rest := queue[0], queue[1..];
      assert queue == [pid] + rest;
      var kids := RepliesTo(children, pid);
      PopHalfWay(entries, parentId, out, popped, pid, rest, kids);
      SoFarNext(entries, parentId, out, popped, pid, rest, kids);
      out, queue := out + kids, rest + Ids(kids);
      popped := popped + [pid];
    }
    HalfWayDone(entries, parentId, out, popped);
    if Exact(entries, parentId) {
      SoFarDone(entries, parentId, out, popped);
    }
  }

  lemma {:induction false} WalkClimbs(entries: seq<Entry>, p: Links, path: seq<string>)
    requires Describes(entries, p) && IsWalk(entries, path)
    ensures Ancestor(p, path[|path| - 1], |path| - 1) == Some(path[0])
  {
    if |path| > 1 {
      var n := |path| - 1;
      WalkClimbs(entries, p, path[..n]);
      assert Edge(entries, path[n - 1], path[n - 1 + 1]);
      IdsMembers(Kids(entries, p.Keys, path[n - 1]), path[n]);
      KidsReplyTo(entries, p, path[n - 1]);
      assert p[path[n]] == Some(path[n - 1]);
      assert Ancestor(p, path[n], n) == Ancestor(p, path[n - 1], n - 1);
    }
  }

  lemma {:induction false} TopIsBelowNoLoop(p: Links, x: string, root: string, n: nat, m: nat)
    requires IsTop(p, root) && Ancestor(p, x, n) == Some(root) && m > 0
    ensures Ancestor(p, x, m) != Some(x)
    decreases n
  {
    if n > 0 && Ancestor(p, x, m) == Some(x) {
      AncestorAdd(p, x, m, 1);
      AncestorAdd(p, x, 1, m);
      TopIsBelowNoLoop(p, p[x].value, root, n - 1, m);
    }
  }

  // With distinct ids no loop is below a top-level comment: its ancestor chain would never end.
  lemma TopNeverLoops(entries: seq<Entry>, root: string)
    requires Exact(entries, root)
    ensures NoLoopBelow(entries, root)
  {
    var p := ReplyLinks(entries);
    LinksDescribe(entries);
    forall x | Leads(entries, root, x) ensures !Below(entries, x, x) {
      var path :| IsWalk(entries, path) && path[0] == root && path[|path| - 1] == x;
      WalkClimbs(entries, p, path);
      if Below(entries, x, x) {
        var loop :| IsWalk(entries, loop) && |loop| >= 2 && loop[0] == x && loop[|loop| - 1] == x;
        WalkClimbs(entries, p, loop);
        TopIsBelowNoLoop(p, x, root, |path| - 1, |loop| - 1);
      }
    }
  }

  /*** The rows ***/

  // What a row holds, for any entries.
  ghost predicate IsSearchedRow(entries: seq<Entry>, e: Entry, r: Row) {
    r.entry == e && (if e.comment then InTurn(entries, e.id, r.replies) else r.replies == [])
  }

  ghost predicate IsRow(entries: seq<Entry>, p: Links, e: Entry, r: Row) {
    r.entry == e && (if e.comment then IsBundle(entries, p, e.id, r.replies) else r.replies == [])
  }

  // One row per top-level entry, in input order, each comment with its bundle.
  ghost predicate IsTimeline(entries: seq<Entry>, p: Links, rows: seq<Row>) {
    var top := TopLevel(entries, p.Keys);
    |rows| == |top| && forall i :: 0 <= i < |rows| ==> IsRow(entries, p, top[i], rows[i])
  }

  lemma TopIsTop(entries: seq<Entry>, p: Links, e: Entry)
    requires Describes(entries, p) && e in TopLevel(entries, p.Keys)
    ensures e in entries && (e.comment ==> IsTop(p, e.id))
  {
    TopLevelMembers(entries, p.Keys);
  }

  // The search ends below every row.
  ghost predicate EveryRowEnds(entries: seq<Entry>) {
    forall e :: e in TopLevel(entries, CommentIds(entries)) && e.comment ==> NoLoopBelow(entries, e.id)
  }

  lemma DistinctRowsEnd(entries: seq<Entry>)
    requires DistinctComments(entries)
    ensures EveryRowEnds(entries)
  {
    LinksDescribe(entries);
    forall e | e in TopLevel(entries, CommentIds(entries)) && e.comment ensures NoLoopBelow(entries, e.id) {
      TopIsTop(entries, ReplyLinks(entries), e);
      TopNeverLoops(entries, e.id);
    }
  }

  // One row per top-level entry, in input order, for all entries on which the searches end; with
  // distinct comment ids the rows are the timeline.
  method BuildTimelineRows(entries: seq<Entry>) returns (rows: seq<Row>)
    requires EveryRowEnds(entries)
    ensures var top := TopLevel(entries, CommentIds(entries));
      |rows| == |top| && forall i :: 0 <= i < |rows| ==> IsSearchedRow(entries, top[i], rows[i])
    ensures DistinctComments(entries) ==> IsTimeline(entries, ReplyLinks(entries), rows)
  {
    ghost var p := ReplyLinks(entries);
    var commentIds := CollectCommentIds(entries);
    var topLevel, children := Partition(entries, commentIds);
    if DistinctComments(entries) {
      LinksDescribe(entries);
    }
    rows := [];
    for n := 0 to |topLevel|
      invariant |rows| == n && forall i :: 0 <= i < n ==> IsSearchedRow(entries, topLevel[i], rows[i])
      invariant DistinctComments(entries) ==> forall i :: 0 <= i < n ==> IsRow(entries, p, topLevel[i], rows[i])
    {
      var row := BuildRow(entries, children, topLevel[n]);
      rows := rows + [row];
    }
  }

  method BuildRow(entries: seq<Entry>, children: map<string, seq<Entry>>, entry: Entry) returns (row: Row)
    requires entry in TopLevel(entries, CommentIds(entries)) && (entry.comment ==> NoLoopBelow(entries, entry.id))
    requires Grouped(entries, CommentIds(entries), children)
    ensures IsSearchedRow(entries, entry, row)
    ensures DistinctComments(entries) ==> IsRow(entries, ReplyLinks(entries), entry, row)
  {
    var replies: seq<Entry> := [];
    if entry.comment {
      if DistinctComments(entries) {
        LinksDescribe(entries);
        TopIsTop(entries, ReplyLinks(entries), entry);
      }
      replies := CollectDescendants(entries, children, entry.id);
    }
    row := Row(entry, replies);
  }

  /*** Conservation ***/

  function Flatten(rows: seq<Row>): seq<Entry> {
    if rows == [] then []
    else Flatten(rows[..|rows| - 1]) + [rows[|rows| - 1].entry] + rows[|rows| - 1].replies
  }

  function AllReplies(rows: seq<Row>): seq<Entry> {
    if rows == [] then [] else AllReplies(rows[..|rows| - 1]) + rows[|rows| - 1].replies
  }

  function RowEntries(rows: seq<Row>): seq<Entry> {
    Map((r: Row) => r.entry, rows)
  }

  // Some ancestor of the comment (or itself) replies to no loaded comment.
  ghost predicate Rooted(p: Links, id: string) {
    exists r :: IsTop(p, r) && Reaches(p, id, r)
  }

  // The entries a timeline can show: all but the comments whose ancestor chain is a cycle.
  ghost predicate Shown(p: Links, e: Entry) {
    e.comment ==> Rooted(p, e.id)
  }

  ghost function ShownOnly(entries: seq<Entry>, p: Links): seq<Entry> {
    if entries == [] then []
    else
      var n := |entries| - 1;
      ShownOnly(entries[..n], p) + (if Shown(p, entries[n]) then [entries[n]] else [])
  }

  ghost function ShownReplies(entries: seq<Entry>, p: Links): seq<Entry> {
    if entries == [] then []
    else
      var n := |entries| - 1;
      ShownReplies(entries[..n], p) + (if IsReply(entries[n], p.Keys) && Shown(p, entries[n]) then [entries[n]] else [])
  }

  lemma {:induction false} FlattenSplits(rows: seq<Row>)
    ensures multiset(Flatten(rows)) == multiset(RowEntries(rows)) + multiset(AllReplies(rows))
  {
    if rows != [] {
      var n := |rows| - 1;
      FlattenSplits(rows[..n]);
      assert RowEntries(rows) == RowEntries(rows[..n]) + [rows[n].entry];
    }
  }

  lemma {:induction false} ShownSplits(entries: seq<Entry>, p: Links)
    requires forall e :: e in entries && !IsReply(e, p.Keys) ==> Shown(p, e)
    ensures multiset(ShownOnly(entries, p)) == multiset(TopLevel(entries, p.Keys)) + multiset(ShownReplies(entries, p))
  {
    if entries != [] {
      var n := |entries| - 1;
      assert entries == entries[..n] + [entries[n]];
      ShownSplits(entries[..n], p);
      var e := entries[n];
      if IsReply(e, p.Keys) {
        assert TopLevel(entries, p.Keys) == TopLevel(entries[..n], p.Keys);
      } else {
        assert Shown(p, e);
        assert ShownReplies(entries, p) == ShownReplies(entries[..n], p);
      }
    }
  }

  lemma {:induction false} ShownRepliesMembers(entries: seq<Entry>, p: Links)
    ensures forall e :: e in ShownReplies(entries, p) <==> (e in entries && IsReply(e, p.Keys) && Shown(p, e))
  {
    if entries != [] {
      assert entries == entries[..|entries| - 1] + [entries[|entries| - 1]];
      ShownRepliesMembers(entries[..|entries| - 1], p);
    }
  }

  lemma {:induction false} ShownRepliesDistinct(entries: seq<Entry>, p: Links)
    requires DistinctComments(entries)
    ensures Distinct(ShownReplies(entries, p))
  {
    if entries != [] {
      var n := |entries| - 1;
      ShownRepliesDistinct(entries[..n], p);
      ShownRepliesMembers(entries[..n], p);
      forall f | f in ShownReplies(entries[..n], p) ensures f != entries[n] || !entries[n].comment {
        var i :| 0 <= i < n && entries[..n][i] == f;
        assert entries[i] == f;
      }
    }
  }

  lemma {:induction false} OnceEach<T>(a: seq<T>, x: T)
    requires Distinct(a)
    ensures multiset(a)[x] == if x in a then 1 else 0
  {
    if a != [] {
      OnceEach(a[1..], x);
      assert a == [a[0]] + a[1..];
      assert a[0] !in a[1..];
    }
  }

  lemma SameMembersSameBag<T>(a: seq<T>, b: seq<T>)
    requires Distinct(a) && Distinct(b) && forall x :: x in a <==> x in b
    ensures multiset(a) == multiset(b)
  {
    forall x ensures multiset(a)[x] == multiset(b)[x] {
      OnceEach(a, x);
      OnceEach(b, x);
    }
  }

  // An ancestor chain has at most one top.
  lemma {:induction false} OneTop(p: Links, x: string, r: string, q: string, m: nat, n: nat)
    requires IsTop(p, r) && IsTop(p, q)
    requires Ancestor(p, x, m) == Some(r) && Ancestor(p, x, n) == Some(q)
    ensures r == q
    decreases m
  {
    if m > 0 && n > 0 {
      OneTop(p, p[x].value, r, q, m - 1, n - 1);
    }
  }

  // Two rows have no reply in common.
  lemma RowsAreDisjoint(entries: seq<Entry>, p: Links, rows: seq<Row>, i: nat, j: nat, e: Entry)
    requires DistinctComments(entries) && Describes(entries, p) && IsTimeline(entries, p, rows)
    requires i < j < |rows| && e in rows[i].replies
    ensures e !in rows[j].replies
  {
    var top := TopLevel(entries, p.Keys);
    assert top[i] in top && top[j] in top;
    assert IsRow(entries, p, top[i], rows[i]) && IsRow(entries, p, top[j], rows[j]);
    TopIsTop(entries, p, top[i]);
    TopIsTop(entries, p, top[j]);
    TopLevelDistinct(entries, p.Keys);
    if e in rows[j].replies {
      var m: nat :| Ancestor(p, e.id, m) == Some(top[i].id);
      var n: nat :| Ancestor(p, e.id, n) == Some(top[j].id);
      OneTop(p, e.id, top[i].id, top[j].id, m, n);
      assert false;
    }
  }

  lemma MetDistinct(root: string, out: seq<Entry>)
    requires Distinct(Met(root, out))
    ensures Distinct(out)
  {
    var met := Met(root, out);
    forall i, j | 0 <= i < j < |out| ensures out[i] != out[j] {
      assert met[i + 1] == out[i].id && met[j + 1] == out[j].id;
    }
  }

  lemma BundleDistinct(entries: seq<Entry>, p: Links, e: Entry, r: Row)
    requires IsRow(entries, p, e, r)
    ensures Distinct(r.replies)
  {
    if e.comment {
      MetDistinct(e.id, r.replies);
    }
  }

  ghost predicate InSomeRow(rows: seq<Row>, n: nat, e: Entry) {
    exists i :: 0 <= i < n && i < |rows| && e in rows[i].replies
  }

  lemma {:induction false} AllRepliesMembers(rows: seq<Row>)
    ensures forall e :: e in AllReplies(rows) <==> InSomeRow(rows, |rows|, e)
  {
    if rows != [] {
      var n := |rows| - 1;
      AllRepliesMembers(rows[..n]);
      forall e ensures InSomeRow(rows, |rows|, e) <==> InSomeRow(rows[..n], n, e) || e in rows[n].replies {
        if InSomeRow(rows[..n], n, e) {
          var i :| 0 <= i < n && e in rows[..n][i].replies;
          assert rows[i] == rows[..n][i];
        }
        if InSomeRow(rows, |rows|, e) {
          var i :| 0 <= i < |rows| && e in rows[i].replies;
          assert i < n ==> rows[..n][i] == rows[i];
        }
      }
    }
  }

  lemma {:induction false} AllRepliesDistinct(entries: seq<Entry>, p: Links, rows: seq<Row>, n: nat)
    requires DistinctComments(entries) && Describes(entries, p) && IsTimeline(entries, p, rows) && n <= |rows|
    ensures Distinct(AllReplies(rows[..n]))
  {
    if n > 0 {
      AllRepliesDistinct(entries, p, rows, n - 1);
      assert rows[..n][..n - 1] == rows[..n - 1];
      BundleDistinct(entries, p, TopLevel(entries, p.Keys)[n - 1], rows[n - 1]);
      AllRepliesMembers(rows[..n - 1]);
      var before, last := AllReplies(rows[..n - 1]), rows[n - 1].replies;
      forall e | e in before ensures e !in last {
        var i :| 0 <= i < n - 1 && e in rows[..n - 1][i].replies;
        assert rows[i] == rows[..n - 1][i];
        RowsAreDisjoint(entries, p, rows, i, n - 1, e);
      }
      DistinctAppend(before, last);
    }
  }

  lemma BundledIsShown(entries: seq<Entry>, p: Links, rows: seq<Row>, i: nat, e: Entry)
    requires Describes(entries, p) && IsTimeline(entries, p, rows) && i < |rows| && e in rows[i].replies
    ensures e in entries && IsReply(e, p.Keys) && Shown(p, e)
  {
    var top := TopLevel(entries, p.Keys);
    assert top[i] in top && IsRow(entries, p, top[i], rows[i]);
    TopIsTop(entries, p, top[i]);
    var n: nat :| Ancestor(p, e.id, n) == Some(top[i].id);
    assert n > 0;
  }

  lemma ShownIsBundled(entries: seq<Entry>, p: Links, rows: seq<Row>, e: Entry)
    requires Describes(entries, p) && IsTimeline(entries, p, rows)
    requires e in entries && IsReply(e, p.Keys) && Shown(p, e)
    ensures InSomeRow(rows, |rows|, e)
  {
    var top := TopLevel(entries, p.Keys);
    var r :| IsTop(p, r) && Reaches(p, e.id, r);
    var t :| t in entries && t.comment && t.id == r;
    TopLevelMembers(entries, p.Keys);
    var i :| 0 <= i < |top| && top[i] == t;
    assert IsRow(entries, p, top[i], rows[i]);
    assert e in rows[i].replies;
  }

  // The bundles hold exactly the replies the timeline can show, each once.
  lemma BundlesAreShownReplies(entries: seq<Entry>, p: Links, rows: seq<Row>)
    requires DistinctComments(entries) && Describes(entries, p) && IsTimeline(entries, p, rows)
    ensures multiset(AllReplies(rows)) == multiset(ShownReplies(entries, p))
  {
    assert rows[..|rows|] == rows;
    AllRepliesDistinct(entries, p, rows, |rows|);
    AllRepliesMembers(rows);
    ShownRepliesDistinct(entries, p);
    ShownRepliesMembers(entries, p);
    forall e ensures e in AllReplies(rows) <==> e in ShownReplies(entries, p) {
      if e in AllReplies(rows) {
        var i :| 0 <= i < |rows| && e in rows[i].replies;
        BundledIsShown(entries, p, rows, i, e);
      }
      if e in ShownReplies(entries, p) {
        ShownIsBundled(entries, p, rows, e);
      }
    }
    SameMembersSameBag(AllReplies(rows), ShownReplies(entries, p));
  }

  lemma RowsAreTopLevel(entries: seq<Entry>, p: Links, rows: seq<Row>)
    requires IsTimeline(entries, p, rows)
    ensures RowEntries(rows) == TopLevel(entries, p.Keys)
  {
    var top := TopLevel(entries, p.Keys);
    forall i | 0 <= i < |rows| ensures RowEntries(rows)[i] == top[i] {
      assert IsRow(entries, p, top[i], rows[i]);
    }
  }

  lemma TopIsShown(entries: seq<Entry>, p: Links, e: Entry)
    requires Describes(entries, p) && e in entries && !IsReply(e, p.Keys)
    ensures Shown(p, e)
  {
    ReachesSelf(p, e.id);
    assert e.comment ==> IsTop(p, e.id);
  }

  // The rows hold every entry exactly once, but for the comments on or below a cycle of parents.
  lemma RowsConserveEntries(entries: seq<Entry>, rows: seq<Row>)
    requires DistinctComments(entries) && IsTimeline(entries, ReplyLinks(entries), rows)
    ensures multiset(Flatten(rows)) == multiset(ShownOnly(entries, ReplyLinks(entries)))
  {
    var p := ReplyLinks(entries);
    LinksDescribe(entries);
    FlattenSplits(rows);
    RowsAreTopLevel(entries, p, rows);
    forall e | e in entries && !IsReply(e, p.Keys) ensures Shown(p, e) {
      TopIsShown(entries, p, e);
    }
    ShownSplits(entries, p);
    BundlesAreShownReplies(entries, p, rows);
  }

  ghost predicate AllShown(entries: seq<Entry>, p: Links) {
    forall e :: e in entries ==> Shown(p, e)
  }

  lemma AllShownLast(entries: seq<Entry>, p: Links)
    requires entries != []
    ensures AllShown(entries, p) <==> AllShown(entries[..|entries| - 1], p) && Shown(p, entries[|entries| - 1])
  {
    assert entries == entries[..|entries| - 1] + [entries[|entries| - 1]];
  }

  lemma ShownPush(entries: seq<Entry>, p: Links, n: nat)
    requires |entries| == n + 1
    ensures |ShownOnly(entries, p)| == |ShownOnly(entries[..n], p)| + (if Shown(p, entries[n]) then 1 else 0)
    ensures Shown(p, entries[n]) ==> ShownOnly(entries, p) == ShownOnly(entries[..n], p) + [entries[n]]
  {
  }

  lemma {:induction false} AllShownIsAll(entries: seq<Entry>, p: Links)
    requires AllShown(entries, p)
    ensures ShownOnly(entries, p) == entries
  {
    if entries != [] {
      var n := |entries| - 1;
      AllShownLast(entries, p);
      AllShownIsAll(entries[..n], p);
      ShownPush(entries, p, n);
      assert entries == entries[..n] + [entries[n]];
    }
  }

  lemma {:induction false} ShownOnlyLength(entries: seq<Entry>, p: Links)
    ensures |ShownOnly(entries, p)| <= |entries|
    ensures |ShownOnly(entries, p)| == |entries| <==> AllShown(entries, p)
  {
    if entries != [] {
      var n := |entries| - 1;
      ShownOnlyLength(entries[..n], p);
      AllShownLast(entries, p);
      ShownPush(entries, p, n);
    }
  }

  // The counts agree, and the rows are a permutation of the entries, exactly when no comment
  // has a cyclic ancestor chain.
  lemma CountsAgreeIff(entries: seq<Entry>, rows: seq<Row>)
    requires DistinctComments(entries) && IsTimeline(entries, ReplyLinks(entries), rows)
    ensures |Flatten(rows)| == |entries| <==> forall e :: e in entries && e.comment ==> Rooted(ReplyLinks(entries), e.id)
    ensures |Flatten(rows)| == |entries| ==> multiset(Flatten(rows)) == multiset(entries)
  {
    RowsConserveEntries(entries, rows);
    var shown := ShownOnly(entries, ReplyLinks(entries));
    assert |multiset(Flatten(rows))| == |Flatten(rows)| && |multiset(shown)| == |shown|;
    ShownOnlyLength(entries, ReplyLinks(entries));
    if AllShown(entries, ReplyLinks(entries)) {
      AllShownIsAll(entries, ReplyLinks(entries));
    }
  }

  // Two comments that reply to each other: neither is a row, nor in one.
  lemma CyclicCommentsVanish(a: Entry, b: Entry)
    requires a.comment && a.id == "a" && ParentOf(a) == Some("b")
    requires b.comment && b.id == "b" && ParentOf(b) == Some("a")
    ensures DistinctComments([a, b]) && IsTimeline([a, b], ReplyLinks([a, b]), [])
  {
    var entries := [a, b];
    ReplyLinkKeys(entries);
    EachRepliesToOther(a, b);
    RepliesOnly(entries, CommentIds(entries));
    NoRows(entries, ReplyLinks(entries));
  }

  lemma EachRepliesToOther(a: Entry, b: Entry)
    requires a.comment && b.comment && ParentOf(a) == Some(b.id) && ParentOf(b) == Some(a.id)
    ensures forall e :: e in [a, b] ==> IsReply(e, CommentIds([a, b]))
  {
    var entries := [a, b];
    assert entries[0] in entries && entries[1] in entries;
    assert a.id in CommentIds(entries) && b.id in CommentIds(entries);
  }

  lemma ReplyLinkKeys(entries: seq<Entry>)
    ensures ReplyLinks(entries).Keys == CommentIds(entries)
  {
    LinkKeys(entries);
  }

  lemma RepliesOnly(entries: seq<Entry>, ids: set<string>)
    requires forall e :: e in entries ==> IsReply(e, ids)
    ensures TopLevel(entries, ids) == []
  {
    TopLevelMembers(entries, ids);
    NoMembers(TopLevel(entries, ids));
  }

  lemma NoRows(entries: seq<Entry>, p: Links)
    requires TopLevel(entries, p.Keys) == []
    ensures IsTimeline(entries, p, [])
  {
  }

  // No activity has its parent in the row, unless its own id is there.
  ghost predicate NoneHangsOn(entries: seq<Entry>, row: set<string>) {
    forall e :: e in entries && !e.comment && ParentOf(e).Some? && ParentOf(e).value in row ==> e.id in row
  }

  // Deleting a top-level comment removes its row, the comment and its bundle, and nothing else
  // exactly when no activity hangs on it.
  lemma CascadeIsTheRow(entries: seq<Entry>, root: string, replies: seq<Entry>, gone: set<string>)
    requires DistinctComments(entries)
    requires var p := ReplyLinks(entries); IsTop(p, root) && IsBundle(entries, p, root, replies)
    requires LeastChildClosed(entries, root, gone)
    ensures var row := set x | x in Met(root, replies);
      row <= gone && (gone == row <==> NoneHangsOn(entries, row))
  {
    var p := ReplyLinks(entries);
    LinksDescribe(entries);
    var row := set x | x in Met(root, replies);
    assert Met(root, replies)[0] == root;
    forall e | e in entries && e.comment && ParentOf(e).Some? && ParentOf(e).value in row ensures e.id in row {
      RowIsClosed(entries, root, replies, e);
    }
    assert ChildClosed(entries, row) <==> NoneHangsOn(entries, row);
    forall y | y in p && p[y].Some? && p[y].value in gone ensures y in gone {
      var e :| e in entries && e.comment && e.id == y;
    }
    forall x | x in row && x != root ensures x in gone {
      IdsMembers(replies, x);
      var e :| e in replies && e.id == x;
      var n: nat :| Ancestor(p, x, n) == Some(root);
      ClosedHoldsDescendants(p, gone, root, x, n);
    }
  }

  lemma RowIsClosed(entries: seq<Entry>, root: string, replies: seq<Entry>, e: Entry)
    requires DistinctComments(entries)
    requires var p := ReplyLinks(entries); IsTop(p, root) && IsBundle(entries, p, root, replies)
    requires e in entries && e.comment && ParentOf(e).Some? && ParentOf(e).value in Met(root, replies)
    ensures e.id in Met(root, replies)
  {
    var p := ReplyLinks(entries);
    LinksDescribe(entries);
    var parent := ParentOf(e).value;
    IdsMembers(replies, parent);
    ReachesSelf(p, root);
    assert Reaches(p, parent, root) && parent in p;
    ReachesParent(p, e.id, root);
    assert e.id != root;
    IdsMembers(replies, e.id);
  }
}
