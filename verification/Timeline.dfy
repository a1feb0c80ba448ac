/** Timeline entries and the parent links between comments. */
module Timeline {
  import opened Basics

  // `body` stands for every field no rule below reads. Timestamps are milliseconds.
  datatype Entry = Entry(
    comment: bool,
    id: string,
    parentId: Option<string>,
    resolvedAt: Option<int>,
    actorType: string,
    actorId: string,
    action: Option<string>,
    createdAt: int,
    coalescedCount: Option<nat>,
    body: string)

  // A null, missing or empty parent id is no parent.
  function ParentOf(e: Entry): Option<string> {
    if e.parentId.Some? && e.parentId.value != "" then e.parentId else None
  }

  // Child to parent, for the ids of some comments; a parent may be outside.
  type Links = map<string, Option<string>>

  // The links of the loaded comments; of several with one id the last counts.
  function LinksOf(entries: seq<Entry>): Links {
    if entries == [] then map[]
    else
      var n := |entries| - 1;
      var before := LinksOf(entries[..n]);
      if entries[n].comment then before[entries[n].id := ParentOf(entries[n])] else before
  }

  // The `n`-th ancestor.
  function Ancestor(l: Links, x: string, n: nat): Option<string>
    decreases n
  {
    if n == 0 then Some(x)
    else if x in l && l[x].Some? then Ancestor(l, l[x].value, n - 1)
    else None
  }

  ghost predicate Reaches(l: Links, x: string, y: string) {
    exists n: nat :: Ancestor(l, x, n) == Some(y)
  }

  ghost predicate ReachesAbove(l: Links, x: string, y: string) {
    exists n: nat :: n > 0 && Ancestor(l, x, n) == Some(y)
  }

  // Every link leads to a loaded comment.
  predicate Inside(l: Links) {
    forall x :: x in l && l[x].Some? ==> l[x].value in l
  }

  // The links with those to missing comments dropped.
  function Pruned(l: Links): Links {
    map x | x in l :: if l[x].Some? && l[x].value in l then l[x] else None
  }

  lemma {:induction false} AncestorAdd(l: Links, x: string, m: nat, n: nat)
    ensures Ancestor(l, x, m + n) ==
      match Ancestor(l, x, m)
      case None => None
      case Some(y) => Ancestor(l, y, n)
    decreases m
  {
    if m > 0 && x in l && l[x].Some? {
      AncestorAdd(l, l[x].value, m - 1, n);
    }
  }

  lemma ReachesTrans(l: Links, x: string, y: string, z: string)
    requires Reaches(l, x, y) && Reaches(l, y, z)
    ensures Reaches(l, x, z)
  {
    var m: nat :| Ancestor(l, x, m) == Some(y);
    var n: nat :| Ancestor(l, y, n) == Some(z);
    AncestorAdd(l, x, m, n);
  }

  lemma ReachesParent(l: Links, x: string, y: string)
    requires x in l && l[x].Some? && Reaches(l, l[x].value, y)
    ensures Reaches(l, x, y) && ReachesAbove(l, x, y)
  {
    var n: nat :| Ancestor(l, l[x].value, n) == Some(y);
    assert Ancestor(l, x, n + 1) == Some(y);
  }

  lemma ReachesSelf(l: Links, x: string)
    ensures Reaches(l, x, x)
  {
    assert Ancestor(l, x, 0) == Some(x);
  }

  // Up to a loaded comment, dropping the links to missing ones changes nothing.
  lemma {:induction false} PrunedAncestor(l: Links, x: string, n: nat, r: string)
    requires r in l
    ensures Ancestor(Pruned(l), x, n) == Some(r) <==> Ancestor(l, x, n) == Some(r)
    decreases n
  {
    if n > 0 && x in l && l[x].Some? {
      PrunedAncestor(l, l[x].value, n - 1, r);
      if l[x].value !in l && n > 1 {
        assert Ancestor(l, l[x].value, n - 1) == None;
      }
    }
  }

  // A set that holds `r` and the children of its members holds everything below `r`.
  lemma {:induction false} ClosedHoldsDescendants(l: Links, s: set<string>, r: string, x: string, n: nat)
    requires r in s && forall y :: y in l && l[y].Some? && l[y].value in s ==> y in s
    requires Ancestor(l, x, n) == Some(r)
    ensures x in s
    decreases n
  {
    if n > 0 {
      ClosedHoldsDescendants(l, s, r, l[x].value, n - 1);
    }
  }

  // Of several comments with one id the last one's parent counts.
  lemma {:induction false} LastLinkCounts(entries: seq<Entry>, i: nat)
    requires i < |entries| && entries[i].comment
    requires forall j :: i < j < |entries| && entries[j].comment ==> entries[j].id != entries[i].id
    ensures entries[i].id in LinksOf(entries)
    ensures LinksOf(entries)[entries[i].id] ==
      if entries[i].parentId == None || entries[i].parentId == Some("") then None else entries[i].parentId
  {
    var n := |entries| - 1;
    if i < n {
      LastLinkCounts(entries[..n], i);
    }
  }
}
