/** The deduplicated inbox against the optimistic mark-read and archive mutations. */
module Inbox {
  import opened Basics
  import opened StableSort
  import opened QueryCache

  predicate NewestFirst(a: InboxItem, b: InboxItem) {
    a.createdAt >= b.createdAt
  }

  // One entry per issue; an item without an issue is on its own.
  function KeyOf(i: InboxItem): string {
    i.issueId.GetOr(i.id)
  }

  function Active(items: seq<InboxItem>): seq<InboxItem> {
    Filter((i: InboxItem) => !i.archived, items)
  }

  function Group(items: seq<InboxItem>, key: string): seq<InboxItem> {
    Filter((i: InboxItem) => KeyOf(i) == key, items)
  }

  // The keys in order of first appearance.
  function KeysOf(items: seq<InboxItem>): seq<string> {
    if items == [] then []
    else
      var n := |items| - 1;
      var before := KeysOf(items[..n]);
      if KeyOf(items[n]) in before then before else before + [KeyOf(items[n])]
  }

  function FirstComment(group: seq<InboxItem>): Option<string> {
    if group == [] then None
    else if group[0].commentId.Some? && group[0].commentId.value != "" then group[0].commentId
    else FirstComment(group[1..])
  }

  // The newest item of a group; if it names no comment, with the newest comment of the group.
  function Representative(group: seq<InboxItem>): InboxItem
    requires group != []
  {
    var sorted := Sort(group, NewestFirst);
    var newest := sorted[0];
    if newest.commentId.Some? || FirstComment(sorted).None? then newest
    else newest.(commentId := FirstComment(sorted))
  }

  lemma {:induction false} KeysOfSpec(items: seq<InboxItem>)
    ensures forall k :: k in KeysOf(items) <==> exists i :: i in items && KeyOf(i) == k
    ensures Distinct(KeysOf(items))
    ensures forall k :: k in KeysOf(items) ==> Group(items, k) != []
    ensures forall k :: k !in KeysOf(items) ==> Group(items, k) == []
  {
    if items != [] {
      var n := |items| - 1;
      KeysOfSpec(items[..n]);
      assert items == items[..n] + [items[n]];
      assert items[n] in items;
    }
    forall k { GroupMembers(items, k); }
    forall k | k in KeysOf(items) ensures Group(items, k) != [] {
      var i :| i in items && KeyOf(i) == k;
      assert i in Group(items, k);
    }
    forall k | k !in KeysOf(items) ensures Group(items, k) == [] {
      NoMembers(Group(items, k));
    }
  }

  lemma GroupMembers(items: seq<InboxItem>, k: string)
    ensures forall i :: i in Group(items, k) <==> (i in items && KeyOf(i) == k)
  {
    FilterMembers((i: InboxItem) => KeyOf(i) == k, items);
  }

  // The representatives of the given keys, in that order.
  function Representatives(items: seq<InboxItem>, keys: seq<string>): seq<InboxItem>
    requires forall k :: k in keys ==> Group(items, k) != []
  {
    if keys == [] then []
    else
      assert keys[0] in keys;
      [Representative(Group(items, keys[0]))] + Representatives(items, keys[1..])
  }

  function Merged(active: seq<InboxItem>): seq<InboxItem> {
    KeysOfSpec(active);
    Representatives(active, KeysOf(active))
  }

  function Deduplicated(items: seq<InboxItem>): seq<InboxItem> {
    Sort(Merged(Active(items)), NewestFirst)
  }

  function UnreadCount(items: seq<InboxItem>): nat {
    |Filter((i: InboxItem) => !i.read, Deduplicated(items))|
  }

  /*** The loops ***/

  // One more item joins the group of its key and no other.
  lemma GroupPush(items: seq<InboxItem>, item: InboxItem, k: string)
    ensures Group(items + [item], k) == Group(items, k) + (if k == KeyOf(item) then [item] else [])
  {
    FilterAppend((i: InboxItem) => KeyOf(i) == k, items, [item]);
    assert Group([item], k) == if k == KeyOf(item) then [item] else [];
  }

  function GroupIn(groups: map<string, seq<InboxItem>>, k: string): seq<InboxItem> {
    if k in groups then groups[k] else []
  }

  method GroupByKey(active: seq<InboxItem>) returns (groups: map<string, seq<InboxItem>>, order: seq<string>)
    ensures order == KeysOf(active)
    ensures forall k :: GroupIn(groups, k) == Group(active, k)
    ensures forall k :: k in order ==> k in groups
  {
    groups, order := map[], [];
    for n := 0 to |active|
      invariant order == KeysOf(active[..n])
      invariant forall k :: k in groups <==> k in order
      invariant forall k :: GroupIn(groups, k) == Group(active[..n], k)
    {
      var item := active[n];
      var key := KeyOf(item);
      ghost var before := groups;
      assert active[..n + 1] == active[..n] + [item] && active[..n + 1][..n] == active[..n];
      if key !in groups {
        order := order + [key];
      }
      groups := groups[key := GroupIn(groups, key) + [item]];
      forall k ensures GroupIn(groups, k) == Group(active[..n + 1], k) {
        GroupPush(active[..n], item, k);
        assert GroupIn(before, k) == Group(active[..n], k);
      }
    }
    assert active[..|active|] == active;
  }

  // The body of the loop over the groups: the newest item, with the newest comment if it names none.
  method NewestOf(items: seq<InboxItem>) returns (r: InboxItem)
    requires items != []
    ensures r == Representative(items)
  {
    var group := Sort(items, NewestFirst);
    var newest := group[0];
    var comment := if newest.commentId.Some? then newest.commentId else FirstComment(group);
    if comment.Some? && comment.value != "" && newest.commentId != comment {
      return newest.(commentId := comment);
    }
    FirstCommentIsText(group);
    return newest;
  }

  method DeduplicateInboxItems(items: seq<InboxItem>) returns (r: seq<InboxItem>)
    ensures r == Deduplicated(items)
  {
    var active := Active(items);
    var groups, order := GroupByKey(active);
    KeysOfSpec(active);
    var merged: seq<InboxItem> := [];
    for n := 0 to |order|
      invariant merged == Representatives(active, order[..n])
    {
      assert order[n] in order;
      assert GroupIn(groups, order[n]) == Group(active, order[n]);
      RepresentativesPush(active, order[..n], order[n]);
      assert order[..n + 1] == order[..n] + [order[n]];
      var newest := NewestOf(groups[order[n]]);
      merged := merged + [newest];
    }
    assert order[..|order|] == order;
    r := Sort(merged, NewestFirst);
  }

  lemma {:induction false} FirstCommentIsText(group: seq<InboxItem>)
    ensures FirstComment(group).Some? ==> FirstComment(group).value != ""
  {
    if group != [] {
      FirstCommentIsText(group[1..]);
    }
  }

  lemma {:induction false} RepresentativesPush(items: seq<InboxItem>, keys: seq<string>, k: string)
    requires forall j :: j in keys + [k] ==> Group(items, j) != []
    ensures forall j :: j in keys ==> j in keys + [k]
    ensures k in keys + [k]
    ensures Representatives(items, keys + [k]) == Representatives(items, keys) + [Representative(Group(items, k))]
  {
    assert (keys + [k])[|keys|] == k;
    if keys != [] {
      assert (keys + [k])[1..] == keys[1..] + [k];
      RepresentativesPush(items, keys[1..], k);
    } else {
      assert keys + [k] == [k] && [k][1..] == [];
    }
  }

  /*** What a representative is ***/

  lemma NewestFirstIsTotal()
    ensures TotalPreorder(NewestFirst)
  {
  }

  lemma RepresentativeSpec(items: seq<InboxItem>, k: string)
    requires Group(items, k) != []
    ensures var r := Representative(Group(items, k));
      && KeyOf(r) == k
      && (exists i :: i in items && KeyOf(i) == k && r == i.(commentId := r.commentId))
      && (forall i :: i in items && KeyOf(i) == k ==> i.createdAt <= r.createdAt)
  {
    var group := Group(items, k);
    var r, newest := Representative(group), Sort(group, NewestFirst)[0];
    NewestOfGroup(group);
    GroupMembers(items, k);
    assert r == newest.(commentId := r.commentId);
  }

  lemma NewestOfGroup(group: seq<InboxItem>)
    requires group != []
    ensures var newest := Sort(group, NewestFirst)[0];
      newest in group && forall i :: i in group ==> i.createdAt <= newest.createdAt
  {
    NewestFirstIsTotal();
    SortSpec(group, NewestFirst);
    var sorted := Sort(group, NewestFirst);
    assert sorted[0] in sorted;
    assert sorted == [sorted[0]] + sorted[1..];
    assert forall i :: i in group ==> i in sorted;
  }

  predicate NamesComment(i: InboxItem) {
    i.commentId.Some? && i.commentId.value != ""
  }

  // In a list ordered newest first, the first comment named is that of the newest item naming one.
  lemma {:induction false} FirstCommentIsNewest(s: seq<InboxItem>)
    requires Sorted(s, NewestFirst)
    ensures FirstComment(s).None? <==> forall i :: i in s ==> !NamesComment(i)
    ensures FirstComment(s).Some? ==>
              exists i :: i in s && NamesComment(i) && i.commentId == FirstComment(s)
                && forall j :: j in s && NamesComment(j) ==> j.createdAt <= i.createdAt
  {
    if s != [] {
      assert s == [s[0]] + s[1..];
      if NamesComment(s[0]) {
        assert s[0] in s;
      } else {
        FirstCommentIsNewest(s[1..]);
      }
    }
  }

  // The comment `c` is that of the newest item of the key that names one, or none names one.
  ghost predicate NewestComment(items: seq<InboxItem>, k: string, c: Option<string>) {
    if c.None? then forall i :: i in items && KeyOf(i) == k ==> !NamesComment(i)
    else exists i :: i in items && KeyOf(i) == k && NamesComment(i) && c == i.commentId
           && forall j :: j in items && KeyOf(j) == k && NamesComment(j) ==> j.createdAt <= i.createdAt
  }

  // The comment an entry opens at: its newest item's own, an empty one too, or else that of the
  // newest item of the group that names one; none only if no item names one.
  lemma CarriedComment(items: seq<InboxItem>, k: string)
    requires Group(items, k) != []
    ensures var r := Representative(Group(items, k));
      exists n :: n in items && KeyOf(n) == k && r == n.(commentId := r.commentId)
        && (forall j :: j in items && KeyOf(j) == k ==> j.createdAt <= n.createdAt)
        && (if n.commentId.Some? then r == n else NewestComment(items, k, r.commentId))
  {
    var group := Group(items, k);
    var sorted := Sort(group, NewestFirst);
    var n := sorted[0];
    NewestOfGroup(group);
    GroupMembers(items, k);
    NewestFirstIsTotal();
    SortSpec(group, NewestFirst);
    FirstCommentIsNewest(sorted);
    assert forall i :: i in sorted <==> i in group;
    assert n in items && KeyOf(n) == k;
    if n.commentId.None? {
      CommentOfGroup(items, k, sorted);
      assert FirstComment(sorted).None? ==> Representative(group) == n;
    }
  }

  lemma CommentOfGroup(items: seq<InboxItem>, k: string, sorted: seq<InboxItem>)
    requires Sorted(sorted, NewestFirst) && forall i :: i in sorted <==> i in items && KeyOf(i) == k
    ensures NewestComment(items, k, FirstComment(sorted))
  {
    FirstCommentIsNewest(sorted);
  }

  // The inbox is sorted newest first, holds one entry per active key, each the newest of its key.
  lemma DeduplicatedSpec(items: seq<InboxItem>)
    ensures Sorted(Deduplicated(items), NewestFirst)
    ensures forall i :: i in Deduplicated(items) ==> !i.archived && KeyOf(i) in KeysOf(Active(items))
    ensures |Deduplicated(items)| == |KeysOf(Active(items))|
    ensures forall k :: k in KeysOf(Active(items)) ==>
              exists e :: e in Deduplicated(items) && KeyOf(e) == k
                && forall i :: i in Active(items) && KeyOf(i) == k ==> i.createdAt <= e.createdAt
  {
    var active := Active(items);
    NewestFirstIsTotal();
    KeysOfSpec(active);
    SortSpec(Merged(active), NewestFirst);
    assert |multiset(Merged(active))| == |Merged(active)| && |multiset(Deduplicated(items))| == |Deduplicated(items)|;
    FilterMembers((i: InboxItem) => !i.archived, items);
    RepresentativesSpec(active, KeysOf(active));
    forall k | k in KeysOf(active)
      ensures exists e :: e in Deduplicated(items) && KeyOf(e) == k
                && forall i :: i in active && KeyOf(i) == k ==> i.createdAt <= e.createdAt
    {
      RepresentativeSpec(active, k);
      var e := Representative(Group(active, k));
      assert e in Merged(active);
    }
    forall i | i in Deduplicated(items) ensures !i.archived && KeyOf(i) in KeysOf(active) {
      assert i in Merged(active);
    }
  }

  lemma {:induction false} RepresentativesSpec(items: seq<InboxItem>, keys: seq<string>)
    requires forall k :: k in keys ==> Group(items, k) != []
    ensures |Representatives(items, keys)| == |keys|
    ensures forall k :: k in keys ==> Representative(Group(items, k)) in Representatives(items, keys)
    ensures forall r :: r in Representatives(items, keys) ==>
              KeyOf(r) in keys && r == Representative(Group(items, KeyOf(r)))
              && exists i :: i in items && r == i.(commentId := r.commentId)
  {
    if keys != [] {
      assert keys == [keys[0]] + keys[1..];
      RepresentativesSpec(items, keys[1..]);
      RepresentativeSpec(items, keys[0]);
    }
  }

  /*** Distinct keys ***/

  ghost predicate DistinctKeys(s: seq<InboxItem>) {
    s == [] || ((forall y :: y in s[1..] ==> KeyOf(y) != KeyOf(s[0])) && DistinctKeys(s[1..]))
  }

  lemma {:induction false} InsertDistinctKeys(x: InboxItem, t: seq<InboxItem>)
    requires DistinctKeys(t) && forall y :: y in t ==> KeyOf(y) != KeyOf(x)
    ensures DistinctKeys(Insert(x, t, NewestFirst))
    ensures forall y :: y in Insert(x, t, NewestFirst) <==> (y == x || y in t)
  {
    if t == [] || NewestFirst(x, t[0]) {
      assert ([x] + t)[1..] == t;
    } else {
      assert t == [t[0]] + t[1..];
      InsertDistinctKeys(x, t[1..]);
      assert ([t[0]] + Insert(x, t[1..], NewestFirst))[1..] == Insert(x, t[1..], NewestFirst);
    }
  }

  lemma {:induction false} SortDistinctKeys(s: seq<InboxItem>)
    requires DistinctKeys(s)
    ensures DistinctKeys(Sort(s, NewestFirst))
    ensures forall y :: y in Sort(s, NewestFirst) <==> y in s
  {
    if s != [] {
      assert s == [s[0]] + s[1..];
      SortDistinctKeys(s[1..]);
      InsertDistinctKeys(s[0], Sort(s[1..], NewestFirst));
    }
  }

  lemma {:induction false} RepresentativesDistinct(items: seq<InboxItem>, keys: seq<string>)
    requires Distinct(keys) && forall k :: k in keys ==> Group(items, k) != []
    ensures DistinctKeys(Representatives(items, keys))
  {
    if keys != [] {
      assert keys == [keys[0]] + keys[1..];
      RepresentativesDistinct(items, keys[1..]);
      RepresentativesSpec(items, keys[1..]);
      RepresentativeSpec(items, keys[0]);
      assert keys[0] !in keys[1..];
      assert Representatives(items, keys)[1..] == Representatives(items, keys[1..]);
    }
  }

  lemma DeduplicatedDistinct(items: seq<InboxItem>)
    ensures DistinctKeys(Deduplicated(items))
    ensures forall y :: y in Deduplicated(items) <==> y in Merged(Active(items))
  {
    KeysOfSpec(Active(items));
    RepresentativesDistinct(Active(items), KeysOf(Active(items)));
    SortDistinctKeys(Merged(Active(items)));
  }

  // No two entries are of one issue, and they stand newest first.
  lemma {:induction false} EntriesApart(s: seq<InboxItem>, i: nat, j: nat)
    requires DistinctKeys(s) && Sorted(s, NewestFirst) && i < j < |s|
    ensures s[i].issueId.Some? ==> s[i].issueId != s[j].issueId
    ensures s[i].createdAt >= s[j].createdAt
  {
    assert s == [s[0]] + s[1..];
    if i == 0 {
      assert s[j] in s[1..];
      assert NewestFirst(s[0], s[j]);
    } else {
      EntriesApart(s[1..], i - 1, j - 1);
    }
  }

  lemma OneEntryPerIssue(items: seq<InboxItem>, i: nat, j: nat)
    requires i < j < |Deduplicated(items)|
    ensures var d := Deduplicated(items);
      (d[i].issueId.Some? ==> d[i].issueId != d[j].issueId) && d[i].createdAt >= d[j].createdAt
  {
    DeduplicatedDistinct(items);
    DeduplicatedSpec(items);
    EntriesApart(Deduplicated(items), i, j);
  }

  /*** Deduplicating twice is deduplicating once ***/

  lemma {:induction false} ActiveAlready(s: seq<InboxItem>)
    requires forall i :: i in s ==> !i.archived
    ensures Active(s) == s
  {
    if s != [] {
      assert s == [s[0]] + s[1..];
      ActiveAlready(s[1..]);
    }
  }

  lemma {:induction false} DistinctKeysSplit(a: seq<InboxItem>, b: seq<InboxItem>)
    requires DistinctKeys(a + b)
    ensures DistinctKeys(a) && DistinctKeys(b)
    ensures forall x, y :: x in a && y in b ==> KeyOf(x) != KeyOf(y)
  {
    if a == [] {
      assert a + b == b;
    } else {
      assert (a + b)[1..] == a[1..] + b;
      assert a == [a[0]] + a[1..];
      DistinctKeysSplit(a[1..], b);
    }
  }

  lemma {:induction false} KeysOfDistinct(s: seq<InboxItem>)
    requires DistinctKeys(s)
    ensures |KeysOf(s)| == |s| && forall n :: 0 <= n < |s| ==> KeysOf(s)[n] == KeyOf(s[n])
  {
    if s != [] {
      var n := |s| - 1;
      assert s == s[..n] + [s[n]];
      DistinctKeysSplit(s[..n], [s[n]]);
      KeysOfDistinct(s[..n]);
      KeysOfSpec(s[..n]);
    }
  }

  lemma {:induction false} SingleGroup(s: seq<InboxItem>, e: InboxItem)
    requires DistinctKeys(s) && e in s
    ensures Group(s, KeyOf(e)) == [e]
  {
    assert s == [s[0]] + s[1..];
    if e == s[0] {
      GroupMembers(s[1..], KeyOf(e));
      NoMembers(Group(s[1..], KeyOf(e)));
    } else {
      SingleGroup(s[1..], e);
    }
  }

  lemma {:induction false} OwnRepresentatives(all: seq<InboxItem>, s: seq<InboxItem>, keys: seq<string>)
    requires DistinctKeys(all) && |keys| == |s|
    requires forall n :: 0 <= n < |s| ==> s[n] in all && keys[n] == KeyOf(s[n])
    ensures forall k :: k in keys ==> Group(all, k) != []
    ensures Representatives(all, keys) == s
  {
    forall k | k in keys ensures Group(all, k) != [] {
      var n :| 0 <= n < |keys| && keys[n] == k;
      SingleGroup(all, s[n]);
    }
    if s != [] {
      SingleGroup(all, s[0]);
      assert [s[0]][1..] == [];
      assert Sort([s[0]], NewestFirst) == [s[0]];
      assert FirstComment([]) == None;
      assert Representative([s[0]]) == s[0];
      OwnRepresentatives(all, s[1..], keys[1..]);
      assert s == [s[0]] + s[1..];
    }
  }

  lemma DeduplicationIsIdempotent(items: seq<InboxItem>)
    ensures Deduplicated(Deduplicated(items)) == Deduplicated(items)
  {
    var d := Deduplicated(items);
    DeduplicatedSpec(items);
    DeduplicatedDistinct(items);
    ActiveAlready(d);
    KeysOfDistinct(d);
    OwnRepresentatives(d, d, KeysOf(d));
    SortedAlready(d, NewestFirst);
  }

  /*** The mutations ***/

  // Item ids are distinct, no issue id is the id of an item without an issue, none is empty.
  ghost predicate NoCollisions(items: seq<InboxItem>) {
    && (forall i, j :: i in items && j in items && i.id == j.id ==> i == j)
    && (forall i, j :: i in items && j in items && i.issueId.None? ==> j.issueId != Some(i.id))
    && (forall i :: i in items ==> i.issueId != Some(""))
  }

  function FindItem(items: seq<InboxItem>, id: string): Option<InboxItem> {
    if items == [] then None
    else if items[0].id == id then Some(items[0])
    else FindItem(items[1..], id)
  }

  predicate ArchivedWith(i: InboxItem, id: string, issueId: Option<string>) {
    i.id == id || (issueId.Some? && issueId.value != "" && i.issueId == issueId)
  }

  // The item and all the others of its issue.
  function AfterArchive(items: seq<InboxItem>, id: string): seq<InboxItem> {
    var target := FindItem(items, id);
    var issueId := if target.Some? then target.value.issueId else None;
    Map((i: InboxItem) => if ArchivedWith(i, id, issueId) then i.(archived := true) else i, items)
  }

  function ReadIf(id: string, i: InboxItem): InboxItem {
    if i.id == id then i.(read := true) else i
  }

  function AfterRead(items: seq<InboxItem>, id: string): seq<InboxItem> {
    Map((i: InboxItem) => ReadIf(id, i), items)
  }

  function ReadUnlessArchived(i: InboxItem): InboxItem {
    if !i.archived then i.(read := true) else i
  }

  function AfterReadAll(items: seq<InboxItem>): seq<InboxItem> {
    Map((i: InboxItem) => ReadUnlessArchived(i), items)
  }

  class InboxCache {
    var list: Option<seq<InboxItem>>

    constructor (list: Option<seq<InboxItem>>)
      ensures this.list == list
    {
      this.list := list;
    }

    method ArchiveInbox(id: string) returns (prev: Option<seq<InboxItem>>)
      modifies this
      ensures prev == old(list)
      ensures list == if old(list).Some? then Some(AfterArchive(old(list).value, id)) else None
    {
      prev := list;
      if list.Some? {
        list := Some(AfterArchive(list.value, id));
      }
    }

    method MarkInboxRead(id: string) returns (prev: Option<seq<InboxItem>>)
      modifies this
      ensures prev == old(list)
      ensures list == if old(list).Some? then Some(AfterRead(old(list).value, id)) else None
    {
      prev := list;
      if list.Some? {
        list := Some(AfterRead(list.value, id));
      }
    }

    method MarkAllInboxRead() returns (prev: Option<seq<InboxItem>>)
      modifies this
      ensures prev == old(list)
      ensures list == if old(list).Some? then Some(AfterReadAll(old(list).value)) else None
    {
      prev := list;
      if list.Some? {
        list := Some(AfterReadAll(list.value));
      }
    }

    method OnError(prev: Option<seq<InboxItem>>)
      modifies this
      ensures list == if prev.Some? then prev else old(list)
    {
      if prev.Some? {
        list := prev;
      }
    }
  }

  lemma KeyHasEntry(items: seq<InboxItem>, x: InboxItem) returns (e: InboxItem, i: InboxItem)
    requires x in items && !x.archived
    ensures e in Deduplicated(items) && i in items && e == i.(commentId := e.commentId)
    ensures KeyOf(e) == KeyOf(x) && e.createdAt >= x.createdAt
  {
    var active := Active(items);
    FilterMembers((y: InboxItem) => !y.archived, items);
    KeysOfSpec(active);
    assert KeyOf(x) in KeysOf(active);
    DeduplicatedDistinct(items);
    RepresentativesSpec(active, KeysOf(active));
    RepresentativeSpec(active, KeyOf(x));
    e := Representative(Group(active, KeyOf(x)));
    i :| i in active && KeyOf(i) == KeyOf(x) && e == i.(commentId := e.commentId);
  }

  // Every item not archived is stood for: by an entry of its issue no older than it or, without an
  // issue, by itself.
  lemma EachItemIsStoodFor(items: seq<InboxItem>, x: InboxItem)
    requires NoCollisions(items) && x in items && !x.archived
    ensures exists e :: e in Deduplicated(items) && e.createdAt >= x.createdAt
              && if x.issueId.Some? then e.issueId == x.issueId else e.id == x.id
  {
    var e, i := KeyHasEntry(items, x);
    assert e.issueId == i.issueId && e.id == i.id;
  }

  // Item by item: archiving marks the item and, if it is found with an issue, the others of that
  // issue, and changes nothing else.
  lemma ArchiveAt(items: seq<InboxItem>, id: string, i: nat)
    requires i < |items|
    ensures var r := AfterArchive(items, id);
      && |r| == |items| && r[i] == items[i].(archived := r[i].archived)
      && (r[i].archived <==>
            || items[i].archived || items[i].id == id
            || (exists n :: FirstWithId(items, id, n) && items[n].issueId != None && items[n].issueId != Some("")
                  && items[i].issueId == items[n].issueId))
  {
    FindsFirst(items, id);
  }

  ghost predicate FirstWithId(items: seq<InboxItem>, id: string, n: int) {
    0 <= n < |items| && items[n].id == id && forall m :: 0 <= m < n ==> items[m].id != id
  }

  lemma {:induction false} FindsFirst(items: seq<InboxItem>, id: string)
    ensures FindItem(items, id).None? ==> forall n :: !FirstWithId(items, id, n)
    ensures FindItem(items, id).Some? ==> exists n :: FirstWithId(items, id, n)
    ensures forall n :: FirstWithId(items, id, n) ==> FindItem(items, id) == Some(items[n])
  {
    if items != [] && items[0].id == id {
      assert FirstWithId(items, id, 0);
    } else if items != [] {
      FindsFirst(items[1..], id);
      forall n ensures FirstWithId(items, id, n + 1) <==> FirstWithId(items[1..], id, n) {
        assert forall m :: 0 <= m < n && n < |items[1..]| ==> items[1..][m] == items[m + 1];
        assert forall m :: 0 < m <= n && n < |items[1..]| ==> items[m] == items[1..][m - 1];
      }
      forall n | FirstWithId(items, id, n) ensures n > 0 && FirstWithId(items[1..], id, n - 1) {
        assert FirstWithId(items, id, n - 1 + 1);
      }
      if n :| FirstWithId(items[1..], id, n) {
        assert FirstWithId(items, id, n + 1);
      }
    }
  }

  // Reading marks the item read; reading all, every item that is not archived.
  lemma ReadAt(items: seq<InboxItem>, id: string, i: nat)
    requires i < |items|
    ensures var one, all := AfterRead(items, id), AfterReadAll(items);
      && |one| == |items| && one[i] == items[i].(read := one[i].read) && (one[i].read <==> items[i].read || items[i].id == id)
      && |all| == |items| && all[i] == items[i].(read := all[i].read) && (all[i].read <==> items[i].read || !items[i].archived)
  {
  }

  /*** Archiving removes exactly one entry ***/

  function Others(s: seq<InboxItem>, k: string): seq<InboxItem> {
    Filter((i: InboxItem) => KeyOf(i) != k, s)
  }

  lemma {:induction false} FindItemSpec(items: seq<InboxItem>, id: string)
    ensures FindItem(items, id).Some? ==> FindItem(items, id).value in items && FindItem(items, id).value.id == id
    ensures FindItem(items, id).None? ==> forall i :: i in items ==> i.id != id
  {
    if items != [] {
      assert items == [items[0]] + items[1..];
      FindItemSpec(items[1..], id);
    }
  }

  lemma {:induction false} ActiveAfterArchive(items: seq<InboxItem>, id: string, issueId: Option<string>, k: string)
    requires forall i :: i in items ==> (ArchivedWith(i, id, issueId) <==> KeyOf(i) == k)
    ensures Active(Map((i: InboxItem) => if ArchivedWith(i, id, issueId) then i.(archived := true) else i, items))
         == Others(Active(items), k)
  {
    if items != [] {
      var f := (i: InboxItem) => if ArchivedWith(i, id, issueId) then i.(archived := true) else i;
      assert items[0] in items;
      assert items == [items[0]] + items[1..];
      ActiveAfterArchive(items[1..], id, issueId, k);
      assert Map(f, items) == [f(items[0])] + Map(f, items[1..]);
    }
  }

  lemma KeysPush(s: seq<InboxItem>, e: InboxItem)
    ensures KeysOf(s + [e]) == if KeyOf(e) in KeysOf(s) then KeysOf(s) else KeysOf(s) + [KeyOf(e)]
  {
    assert (s + [e])[..|s|] == s;
  }

  lemma OthersPush(s: seq<InboxItem>, e: InboxItem, k: string)
    ensures Others(s + [e], k) == if KeyOf(e) != k then Others(s, k) + [e] else Others(s, k)
  {
    FilterAppend((i: InboxItem) => KeyOf(i) != k, s, [e]);
    assert [e][1..] == [];
    assert Others(s, k) + [] == Others(s, k);
  }

  lemma DropKeyPush(keys: seq<string>, j: string, k: string)
    ensures var keep := (x: string) => x != k;
      Filter(keep, keys + [j]) == if j != k then Filter(keep, keys) + [j] else Filter(keep, keys)
  {
    var keep := (x: string) => x != k;
    FilterAppend(keep, keys, [j]);
    assert [j][1..] == [];
    assert Filter(keep, keys) + [] == Filter(keep, keys);
  }

  lemma {:induction false} KeysOfOthers(s: seq<InboxItem>, k: string)
    ensures KeysOf(Others(s, k)) == Filter((j: string) => j != k, KeysOf(s))
  {
    if s != [] {
      var n := |s| - 1;
      var e := s[n];
      KeysOfOthers(s[..n], k);
      assert s == s[..n] + [e];
      KeysPush(s[..n], e);
      OthersPush(s[..n], e, k);
      KeysPush(Others(s[..n], k), e);
      FilterMembers((j: string) => j != k, KeysOf(s[..n]));
      DropKeyPush(KeysOf(s[..n]), KeyOf(e), k);
    }
  }

  lemma {:induction false} GroupOfOthers(s: seq<InboxItem>, k: string, j: string)
    requires j != k
    ensures Group(Others(s, k), j) == Group(s, j)
  {
    if s != [] {
      GroupOfOthers(s[1..], k, j);
    }
  }

  lemma {:induction false} RepresentativesOfOthers(s: seq<InboxItem>, k: string, keys: seq<string>)
    requires forall j :: j in keys ==> Group(s, j) != []
    ensures var rest := Filter((j: string) => j != k, keys);
      && (forall j :: j in rest ==> Group(Others(s, k), j) != [])
      && Representatives(Others(s, k), rest) == Others(Representatives(s, keys), k)
  {
    FilterMembers((j: string) => j != k, keys);
    forall j | j in Filter((j: string) => j != k, keys) ensures Group(Others(s, k), j) != [] {
      GroupOfOthers(s, k, j);
    }
    if keys != [] {
      assert keys == [keys[0]] + keys[1..];
      RepresentativesOfOthers(s, k, keys[1..]);
      RepresentativeSpec(s, keys[0]);
      if keys[0] != k {
        GroupOfOthers(s, k, keys[0]);
      }
    }
  }

  // Archiving an item takes the entry of its issue out of the inbox and leaves the rest in order.
  lemma ArchiveRemovesOneEntry(items: seq<InboxItem>, target: InboxItem)
    requires NoCollisions(items) && target in items
    ensures Deduplicated(AfterArchive(items, target.id)) == Others(Deduplicated(items), KeyOf(target))
  {
    var k := KeyOf(target);
    FindItemSpec(items, target.id);
    assert FindItem(items, target.id) == Some(target);
    ActiveAfterArchive(items, target.id, target.issueId, k);
    var active := Active(items);
    KeysOfSpec(active);
    KeysOfOthers(active, k);
    KeysOfSpec(Others(active, k));
    RepresentativesOfOthers(active, k, KeysOf(active));
    NewestFirstIsTotal();
    FilterSort((i: InboxItem) => KeyOf(i) != k, Merged(active), NewestFirst);
  }

  /*** Reading an entry lowers the count by one ***/

  function WithComment(i: InboxItem, c: Option<string>): InboxItem {
    i.(commentId := c)
  }

  // A change that grouping, ordering and the comment carried over do not see.
  ghost predicate Mild(f: InboxItem -> InboxItem) {
    && (forall i :: KeyOf(f(i)) == KeyOf(i))
    && (forall i :: f(i).archived == i.archived)
    && (forall i :: f(i).createdAt == i.createdAt)
    && (forall i :: f(i).commentId == i.commentId)
    && (forall i, c :: f(WithComment(i, c)) == WithComment(f(i), c))
  }

  lemma {:induction false} FilterMapCommute(f: InboxItem -> InboxItem, p: InboxItem -> bool, s: seq<InboxItem>)
    requires forall i :: p(f(i)) == p(i)
    ensures Filter(p, Map(f, s)) == Map(f, Filter(p, s))
  {
    if s != [] {
      FilterMapCommute(f, p, s[1..]);
      assert Map(f, s) == [f(s[0])] + Map(f, s[1..]);
    }
  }

  lemma {:induction false} KeysOfMapped(f: InboxItem -> InboxItem, s: seq<InboxItem>)
    requires forall i :: KeyOf(f(i)) == KeyOf(i)
    ensures KeysOf(Map(f, s)) == KeysOf(s)
  {
    if s != [] {
      var n := |s| - 1;
      KeysOfMapped(f, s[..n]);
      assert Map(f, s)[..n] == Map(f, s[..n]);
    }
  }

  lemma {:induction false} FirstCommentMapped(f: InboxItem -> InboxItem, g: seq<InboxItem>)
    requires forall i :: f(i).commentId == i.commentId
    ensures FirstComment(Map(f, g)) == FirstComment(g)
  {
    if g != [] {
      FirstCommentMapped(f, g[1..]);
      assert Map(f, g)[1..] == Map(f, g[1..]);
    }
  }

  lemma RepresentativeMapped(f: InboxItem -> InboxItem, g: seq<InboxItem>)
    requires Mild(f) && g != []
    ensures Representative(Map(f, g)) == f(Representative(g))
  {
    var sorted := Sort(g, NewestFirst);
    MapSort(f, g, NewestFirst);
    FirstCommentMapped(f, sorted);
    assert f(WithComment(sorted[0], FirstComment(sorted))) == WithComment(f(sorted[0]), FirstComment(sorted));
  }

  lemma GroupMapped(f: InboxItem -> InboxItem, s: seq<InboxItem>, k: string)
    requires forall i :: KeyOf(f(i)) == KeyOf(i)
    ensures Group(Map(f, s), k) == Map(f, Group(s, k))
  {
    FilterMapCommute(f, (i: InboxItem) => KeyOf(i) == k, s);
  }

  lemma {:induction false} RepresentativesMapped(f: InboxItem -> InboxItem, s: seq<InboxItem>, keys: seq<string>)
    requires Mild(f) && forall k :: k in keys ==> Group(s, k) != []
    ensures forall k :: k in keys ==> Group(Map(f, s), k) != []
    ensures Representatives(Map(f, s), keys) == Map(f, Representatives(s, keys))
  {
    forall k | k in keys ensures Group(Map(f, s), k) != [] {
      GroupMapped(f, s, k);
    }
    if keys != [] {
      assert keys == [keys[0]] + keys[1..];
      RepresentativesMapped(f, s, keys[1..]);
      GroupMapped(f, s, keys[0]);
      RepresentativeMapped(f, Group(s, keys[0]));
    }
  }

  // A mild change and deduplicating commute.
  lemma DeduplicatedMapped(f: InboxItem -> InboxItem, items: seq<InboxItem>)
    requires Mild(f)
    ensures Deduplicated(Map(f, items)) == Map(f, Deduplicated(items))
  {
    FilterMapCommute(f, (i: InboxItem) => !i.archived, items);
    var active := Active(items);
    KeysOfSpec(active);
    KeysOfMapped(f, active);
    RepresentativesMapped(f, active, KeysOf(active));
    MapSort(f, Merged(active), NewestFirst);
  }

  function Unread(s: seq<InboxItem>): seq<InboxItem> {
    Filter((i: InboxItem) => !i.read, s)
  }

  lemma {:induction false} UnreadAfter(s: seq<InboxItem>, id: string, e: InboxItem)
    requires forall i :: i in s && i.id == id ==> i == e
    requires DistinctKeys(s) && e.id == id
    ensures |Unread(Map((i: InboxItem) => ReadIf(id, i), s))| == |Unread(s)| - (if e in s && !e.read then 1 else 0)
  {
    if s != [] {
      var f := (i: InboxItem) => ReadIf(id, i);
      assert s == [s[0]] + s[1..];
      assert Map(f, s) == [f(s[0])] + Map(f, s[1..]);
      UnreadAfter(s[1..], id, e);
      assert s[0].id == id ==> s[0] == e && e !in s[1..];
    }
  }

  // An id names one entry of the inbox.
  lemma OneEntryPerId(items: seq<InboxItem>, d: InboxItem, e: InboxItem)
    requires NoCollisions(items) && d in Deduplicated(items) && e in Deduplicated(items) && d.id == e.id
    ensures d == e
  {
    var active := Active(items);
    DeduplicatedDistinct(items);
    KeysOfSpec(active);
    RepresentativesSpec(active, KeysOf(active));
    FilterMembers((i: InboxItem) => !i.archived, items);
    assert d in Merged(active) && e in Merged(active);
    var a :| a in active && d == a.(commentId := d.commentId);
    var b :| b in active && e == b.(commentId := e.commentId);
    assert a.id == b.id;
  }

  lemma ReadingIsMild(id: string)
    ensures Mild((i: InboxItem) => ReadIf(id, i))
  {
  }

  lemma ReadMarksOneEntry(items: seq<InboxItem>, id: string)
    ensures Deduplicated(AfterRead(items, id)) == AfterRead(Deduplicated(items), id)
  {
    ReadingIsMild(id);
    DeduplicatedMapped((i: InboxItem) => ReadIf(id, i), items);
  }

  // Reading an entry the inbox shows marks that entry and no other, and lowers the unread count
  // by one if it was unread.
  lemma ReadLowersCountByOne(items: seq<InboxItem>, e: InboxItem)
    requires NoCollisions(items) && e in Deduplicated(items)
    ensures Deduplicated(AfterRead(items, e.id)) == AfterRead(Deduplicated(items), e.id)
    ensures UnreadCount(AfterRead(items, e.id)) == UnreadCount(items) - (if e.read then 0 else 1)
  {
    var d := Deduplicated(items);
    ReadMarksOneEntry(items, e.id);
    forall i | i in d && i.id == e.id ensures i == e {
      OneEntryPerId(items, i, e);
    }
    assert DistinctKeys(d) by {
      DeduplicatedDistinct(items);
    }
    UnreadAfter(d, e.id, e);
  }

  lemma {:induction false} AllRead(s: seq<InboxItem>)
    requires forall i :: i in s ==> !i.archived
    ensures Unread(Map((i: InboxItem) => ReadUnlessArchived(i), s)) == []
  {
    if s != [] {
      var f := (i: InboxItem) => ReadUnlessArchived(i);
      assert s[0] in s && f(s[0]).read;
      assert Map(f, s)[1..] == Map(f, s[1..]);
      AllRead(s[1..]);
    }
  }

  // Marking everything read leaves the same entries in the same order, none of them unread.
  lemma ReadAllClearsTheCount(items: seq<InboxItem>)
    ensures Deduplicated(AfterReadAll(items)) == Map((i: InboxItem) => ReadUnlessArchived(i), Deduplicated(items))
    ensures UnreadCount(AfterReadAll(items)) == 0
  {
    var f := (i: InboxItem) => ReadUnlessArchived(i);
    assert Mild(f);
    assert AfterReadAll(items) == Map(f, items);
    DeduplicatedMapped(f, items);
    DeduplicatedSpec(items);
    AllRead(Deduplicated(items));
  }
}
