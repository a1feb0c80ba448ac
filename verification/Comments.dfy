/** Optimistic resolve, unresolve and cascade delete of comments, over whole runs. */
module Comments {
  import opened Basics
  import opened Timeline
  import opened Threads

  /*** Resolve and unresolve ***/

  function Resolved(e: Entry, commentId: string, resolved: bool, now: int, thread: set<string>): Entry {
    if e.id == commentId then e.(resolvedAt := if resolved then Some(now) else None)
    else if resolved && e.resolvedAt.Some? && e.id in thread then e.(resolvedAt := None)
    else e
  }

  ghost function AfterResolve(entries: seq<Entry>, commentId: string, resolved: bool, now: int): seq<Entry> {
    Map((e: Entry) => Resolved(e, commentId, resolved, now, ThreadOf(LinksOf(entries), commentId)), entries)
  }

  method ResolveComment(entries: seq<Entry>, commentId: string, resolved: bool, now: int) returns (r: seq<Entry>)
    ensures r == AfterResolve(entries, commentId, resolved, now)
  {
    var thread: set<string> := {};
    if resolved {
      thread := CollectThreadCommentIds(entries, commentId);
    }
    r := Map((e: Entry) => Resolved(e, commentId, resolved, now, thread), entries);
  }

  ghost predicate IsResolution(e: Entry) {
    e.comment && e.resolvedAt.Some?
  }

  lemma {:induction false} SameLinks(a: seq<Entry>, b: seq<Entry>)
    requires |a| == |b|
    requires forall i :: 0 <= i < |a| ==> a[i].comment == b[i].comment && a[i].id == b[i].id && a[i].parentId == b[i].parentId
    ensures LinksOf(a) == LinksOf(b)
  {
    if a != [] {
      SameLinks(a[..|a| - 1], b[..|b| - 1]);
    }
  }

  // The entry a link was read from.
  ghost predicate Wrote(entries: seq<Entry>, x: string, parent: Option<string>) {
    exists e :: e in entries && e.comment && e.id == x && ParentOf(e) == parent
  }

  lemma {:induction false} LinksWitness(entries: seq<Entry>)
    ensures forall x :: x in LinksOf(entries) ==> Wrote(entries, x, LinksOf(entries)[x])
    ensures forall e :: e in entries && e.comment ==> e.id in LinksOf(entries)
  {
    if entries != [] {
      var n := |entries| - 1;
      LinksWitness(entries[..n]);
      assert entries == entries[..n] + [entries[n]];
      forall x | x in LinksOf(entries) ensures Wrote(entries, x, LinksOf(entries)[x]) {
        if entries[n].comment && entries[n].id == x {
          assert entries[n] in entries;
        } else {
          assert x in LinksOf(entries[..n]) && LinksOf(entries)[x] == LinksOf(entries[..n])[x];
          assert Wrote(entries[..n], x, LinksOf(entries)[x]);
        }
      }
    }
  }

  // Resolving a loaded comment makes it the one resolution of its thread and leaves every
  // entry outside the thread as it was; no link changes.
  lemma SoleResolution(entries: seq<Entry>, commentId: string, now: int)
    requires commentId in LinksOf(entries)
    ensures var r := AfterResolve(entries, commentId, true, now);
      var thread := ThreadOf(LinksOf(entries), commentId);
      && |r| == |entries| && LinksOf(r) == LinksOf(entries) && commentId in thread
      && (forall i :: 0 <= i < |r| && r[i].id in thread ==> (r[i].resolvedAt.Some? <==> r[i].id == commentId))
      && (forall i :: 0 <= i < |r| && r[i].id !in thread ==> r[i] == entries[i])
  {
    SameSetIffSameThread(LinksOf(entries), commentId, commentId);
    SameLinks(entries, AfterResolve(entries, commentId, true, now));
  }

  // The same entry but for when it was resolved.
  predicate SameButResolution(a: Entry, b: Entry) {
    a == b.(resolvedAt := a.resolvedAt)
  }

  // Entry by entry: nothing but resolutions changes. Resolving sets that of the comment to the given
  // time and clears the others of its thread; unresolving clears that of the comment only.
  lemma ResolveAt(entries: seq<Entry>, commentId: string, resolved: bool, now: int, i: nat)
    requires i < |entries|
    ensures var r := AfterResolve(entries, commentId, resolved, now);
      && |r| == |entries| && SameButResolution(r[i], entries[i])
      && (entries[i].id == commentId ==> r[i].resolvedAt == if resolved then Some(now) else None)
      && (entries[i].id != commentId && !resolved ==> r[i] == entries[i])
      && (entries[i].id != commentId && resolved ==>
            if entries[i].id in ThreadOf(LinksOf(entries), commentId) then r[i].resolvedAt == None else r[i] == entries[i])
  {
  }

  // Unresolving after resolving leaves no resolution in the thread.
  lemma UnresolveClearsTheThread(entries: seq<Entry>, commentId: string, now: int, i: nat)
    requires commentId in LinksOf(entries) && i < |entries|
    ensures var r := AfterResolve(AfterResolve(entries, commentId, true, now), commentId, false, now);
      |r| == |entries| && if r[i].id in ThreadOf(LinksOf(entries), commentId) then r[i].resolvedAt == None else r[i] == entries[i]
  {
    var mid := AfterResolve(entries, commentId, true, now);
    SoleResolution(entries, commentId, now);
    ResolveAt(entries, commentId, true, now, i);
    ResolveAt(mid, commentId, false, now, i);
    assert mid[i].id in ThreadOf(LinksOf(entries), commentId) ==> (mid[i].resolvedAt.Some? <==> mid[i].id == commentId);
  }

  // At most one comment of a thread is resolved.
  ghost predicate OneResolutionPerThread(entries: seq<Entry>) {
    forall i, j ::
      0 <= i < |entries| && 0 <= j < |entries| && IsResolution(entries[i]) && IsResolution(entries[j])
      && SameThread(LinksOf(entries), entries[i].id, entries[j].id)
      ==> entries[i].id == entries[j].id
  }

  lemma ResolveKeepsOneResolution(entries: seq<Entry>, commentId: string, resolved: bool, now: int)
    requires OneResolutionPerThread(entries)
    ensures OneResolutionPerThread(AfterResolve(entries, commentId, resolved, now))
  {
    var l := LinksOf(entries);
    var r := AfterResolve(entries, commentId, resolved, now);
    SameLinks(entries, r);
    LinksWitness(entries);
    forall i, j | 0 <= i < |r| && 0 <= j < |r| && IsResolution(r[i]) && IsResolution(r[j]) && SameThread(l, r[i].id, r[j].id)
      ensures r[i].id == r[j].id
    {
      if resolved && commentId in l {
        SoleResolution(entries, commentId, now);
        var thread := ThreadOf(l, commentId);
        assert r[i].id in l && r[j].id in l;
        SameSetIffSameThread(l, commentId, r[i].id);
        SameSetIffSameThread(l, commentId, r[j].id);
        SameSetIffSameThread(l, r[i].id, r[j].id);
        assert r[i].id in thread <==> r[j].id in thread;
        if r[i].id !in thread {
          assert r[i] == entries[i] && r[j] == entries[j];
        }
      } else {
        assert r[i].id in l && r[j].id in l;
        assert r[i].id != commentId && r[j].id != commentId;
        assert IsResolution(entries[i]) && IsResolution(entries[j]);
      }
    }
  }

  /*** Cascade delete ***/

  // Holds every entry whose parent it holds.
  ghost predicate ChildClosed(entries: seq<Entry>, s: set<string>) {
    forall e :: e in entries && ParentOf(e).Some? && ParentOf(e).value in s ==> e.id in s
  }

  ghost predicate LeastChildClosed(entries: seq<Entry>, commentId: string, s: set<string>) {
    && commentId in s && ChildClosed(entries, s)
    && forall t :: commentId in t && ChildClosed(entries, t) ==> s <= t
  }

  function IdsOf(entries: seq<Entry>): set<string> {
    set i | 0 <= i < |entries| :: entries[i].id
  }

  // The fixpoint loop: passes over the entries until one pass adds nothing.
  method CollectCascade(entries: seq<Entry>, commentId: string) returns (toRemove: set<string>)
    ensures LeastChildClosed(entries, commentId, toRemove)
  {
    toRemove := {commentId};
    var changed := true;
    while changed
      invariant commentId in toRemove && toRemove <= IdsOf(entries) + {commentId}
      invariant forall t :: commentId in t && ChildClosed(entries, t) ==> toRemove <= t
      invariant !changed ==> ChildClosed(entries, toRemove)
      decreases IdsOf(entries) + {commentId} - toRemove, changed
    {
      changed := false;
      ghost var before := toRemove;
      for n := 0 to |entries|
        invariant commentId in toRemove && before <= toRemove <= IdsOf(entries) + {commentId}
        invariant forall t :: commentId in t && ChildClosed(entries, t) ==> toRemove <= t
        invariant !changed ==> toRemove == before
        invariant changed ==> before < toRemove
        invariant !changed ==> ChildClosed(entries[..n], toRemove)
      {
        var e := entries[n];
        assert entries[..n + 1] == entries[..n] + [e];
        if ParentOf(e).Some? && ParentOf(e).value in toRemove && e.id !in toRemove {
          toRemove := toRemove + {e.id};
          changed := true;
        }
      }
      assert entries[..|entries|] == entries;
    }
  }

  function Remaining(entries: seq<Entry>, gone: set<string>): seq<Entry> {
    if entries == [] then []
    else
      var n := |entries| - 1;
      Remaining(entries[..n], gone) + (if entries[n].id in gone then [] else [entries[n]])
  }

  method DeleteComment(entries: seq<Entry>, commentId: string) returns (r: seq<Entry>)
    ensures exists gone :: LeastChildClosed(entries, commentId, gone) && r == Remaining(entries, gone)
  {
    var toRemove := CollectCascade(entries, commentId);
    r := Remaining(entries, toRemove);
  }

  lemma {:induction false} RemainingMembers(entries: seq<Entry>, gone: set<string>)
    ensures forall e :: e in Remaining(entries, gone) <==> (e in entries && e.id !in gone)
  {
    if entries != [] {
      var n := |entries| - 1;
      RemainingMembers(entries[..n], gone);
      assert entries == entries[..n] + [entries[n]];
    }
  }

  lemma {:induction false} RemainingLinks(entries: seq<Entry>, gone: set<string>)
    ensures LinksOf(Remaining(entries, gone)) == LinksOf(entries) - gone
  {
    if entries != [] {
      var n := |entries| - 1;
      RemainingLinks(entries[..n], gone);
      var rest := Remaining(entries[..n], gone);
      if entries[n].id !in gone {
        assert (rest + [entries[n]])[..|rest|] == rest;
      } else {
        assert Remaining(entries, gone) == rest;
        assert LinksOf(entries) - gone == LinksOf(entries[..n]) - gone;
      }
    }
  }

  // A reply that survives keeps its loaded parent: deletion promotes none to the top level.
  lemma DeleteNeverPromotes(entries: seq<Entry>, commentId: string, gone: set<string>)
    requires ChildClosed(entries, gone)
    ensures var l, l' := LinksOf(entries), LinksOf(Remaining(entries, gone));
      l'.Keys == l.Keys - gone && forall x :: x in l' ==> Pruned(l')[x] == Pruned(l)[x]
  {
    RemainingLinks(entries, gone);
    LinksWitness(entries);
  }

  // Comments in one thread after a deletion were in one thread before.
  lemma DeleteJoinsNothing(entries: seq<Entry>, commentId: string, gone: set<string>, a: string, b: string)
    requires ChildClosed(entries, gone) && SameThread(LinksOf(Remaining(entries, gone)), a, b)
    ensures SameThread(LinksOf(entries), a, b)
  {
    var l, l' := LinksOf(entries), LinksOf(Remaining(entries, gone));
    DeleteNeverPromotes(entries, commentId, gone);
    var path :| IsPath(Pruned(l'), path) && path[0] == a && path[|path| - 1] == b;
    assert IsPath(Pruned(l), path);
  }

  lemma DeleteKeepsOneResolution(entries: seq<Entry>, commentId: string, gone: set<string>)
    requires OneResolutionPerThread(entries) && ChildClosed(entries, gone)
    ensures OneResolutionPerThread(Remaining(entries, gone))
  {
    var r := Remaining(entries, gone);
    RemainingMembers(entries, gone);
    forall i, j | 0 <= i < |r| && 0 <= j < |r| && IsResolution(r[i]) && IsResolution(r[j])
                  && SameThread(LinksOf(r), r[i].id, r[j].id)
      ensures r[i].id == r[j].id
    {
      DeleteJoinsNothing(entries, commentId, gone, r[i].id, r[j].id);
      assert r[i] in entries && r[j] in entries;
      var m :| 0 <= m < |entries| && entries[m] == r[i];
      var n :| 0 <= n < |entries| && entries[n] == r[j];
    }
  }

  /*** Runs ***/

  datatype Action = Resolve(id: string, now: int) | Unresolve(id: string) | Delete(id: string)

  ghost predicate Step(before: seq<Entry>, a: Action, after: seq<Entry>) {
    match a
    case Resolve(id, now) => after == AfterResolve(before, id, true, now)
    case Unresolve(id) => after == AfterResolve(before, id, false, 0)
    case Delete(id) => exists gone :: LeastChildClosed(before, id, gone) && after == Remaining(before, gone)
  }

  ghost predicate IsRun(states: seq<seq<Entry>>, actions: seq<Action>) {
    |states| == |actions| + 1 && forall i :: 0 <= i < |actions| ==> Step(states[i], actions[i], states[i + 1])
  }

  // Over any run of resolves, unresolves and cascade deletes, on any ids and any links.
  lemma {:induction false} RunsKeepOneResolution(states: seq<seq<Entry>>, actions: seq<Action>)
    requires IsRun(states, actions) && OneResolutionPerThread(states[0])
    ensures OneResolutionPerThread(states[|actions|])
    decreases |actions|
  {
    if actions != [] {
      var s := states[0];
      match actions[0] {
        case Resolve(id, now) => ResolveKeepsOneResolution(s, id, true, now);
        case Unresolve(id) => ResolveKeepsOneResolution(s, id, false, 0);
        case Delete(id) =>
          var gone :| LeastChildClosed(s, id, gone) && states[1] == Remaining(s, gone);
          DeleteKeepsOneResolution(s, id, gone);
      }
      assert OneResolutionPerThread(states[1]) by { assert Step(states[0], actions[0], states[1]); }
      RunsKeepOneResolution(states[1..], actions[1..]);
    }
  }
}
