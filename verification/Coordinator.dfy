/** The rules table that pushes one issue change through every loaded list, the detail and the inbox. */
module Coordinator {
  import opened Basics
  import opened IssueTypes
  import opened Membership
  import opened Buckets
  import opened QueryCache

  /*** The rules for one list ***/

  // `written`: the list was replaced in the cache; `stale`: its key must be refetched.
  datatype Outcome = Outcome(next: ListCache, written: bool, stale: bool)

  function Reconcile(k: QueryKey, c: ListCache, id: string, p: Patch, changed: Dims, base: Option<Issue>): Outcome {
    var scope, filter := KeyScope(k), KeyFilter(k);
    var touched := ListFilterDependsOn(scope, filter, changed);
    match FindIssueLocation(c, id)
    case Some(loc) =>
      if touched then
        var v := MatchesListFilter(Whole(Merge(loc.issue, p)), scope, filter);
        if v.No? then Outcome(RemoveIssue(c, id), true, false)
        else Outcome(PatchIssue(c, id, p), true, v.Unknown?)
      else Outcome(PatchIssue(c, id, p), true, false)
    case None =>
      if !touched && !changed.status then Outcome(c, false, false)
      else
        var wasMember := if base.Some? then MatchesListFilter(Whole(base.value), scope, filter) else Unknown;
        var isMember := MatchesListFilter(Overlay(base, p), scope, filter);
        if wasMember.No? && isMember.No? then Outcome(c, false, false)
        else if wasMember.Yes? && isMember.Yes? then
          if !changed.status || p.status.None? || base.value.status == p.status.value then Outcome(c, false, false)
          else Outcome(MoveTotal(c, base.value.status, p.status.value), true, true)
        else if wasMember.Yes? && isMember.No? then Outcome(DecrementTotal(c, base.value.status), true, false)
        else Outcome(c, false, true)
  }

  /*** The whole store ***/

  datatype Change = Change(
    prevLists: seq<(QueryKey, ListCache)>,
    prevDetail: Option<Issue>,
    prevInbox: Option<seq<InboxItem>>,
    staleKeys: seq<QueryKey>,
    prevIssue: Option<Issue>)

  function WriteLists(lists: map<QueryKey, ListEntry>, entries: seq<(QueryKey, ListCache)>,
                      id: string, p: Patch, changed: Dims, base: Option<Issue>): map<QueryKey, ListEntry>
  {
    if entries == [] then lists
    else
      var n := |entries| - 1;
      var before := WriteLists(lists, entries[..n], id, p, changed, base);
      var o := Reconcile(entries[n].0, entries[n].1, id, p, changed, base);
      if o.written then before[entries[n].0 := Bucketed(o.next)] else before
  }

  function Written(entries: seq<(QueryKey, ListCache)>, id: string, p: Patch, changed: Dims, base: Option<Issue>)
    : seq<(QueryKey, ListCache)>
  {
    if entries == [] then []
    else
      var n := |entries| - 1;
      Written(entries[..n], id, p, changed, base)
      + (if Reconcile(entries[n].0, entries[n].1, id, p, changed, base).written then [entries[n]] else [])
  }

  function StaleKeys(entries: seq<(QueryKey, ListCache)>, id: string, p: Patch, changed: Dims, base: Option<Issue>)
    : seq<QueryKey>
  {
    if entries == [] then []
    else
      var n := |entries| - 1;
      StaleKeys(entries[..n], id, p, changed, base)
      + (if Reconcile(entries[n].0, entries[n].1, id, p, changed, base).stale then [entries[n].0] else [])
  }

  // The first loaded copy of the issue, in the order the loop meets the lists.
  function FirstCopy(entries: seq<(QueryKey, ListCache)>, id: string): Option<Issue> {
    if entries == [] then None
    else
      var n := |entries| - 1;
      var before := FirstCopy(entries[..n], id);
      if before.Some? then before
      else match FindIssueLocation(entries[n].1, id)
           case Some(loc) => Some(loc.issue)
           case None => None
  }

  function PatchInboxStatus(items: seq<InboxItem>, issueId: string, status: Status): seq<InboxItem> {
    Map((i: InboxItem) => if i.issueId == Some(issueId) then i.(issueStatus := Some(status)) else i, items)
  }

  function Detail(s: Store, id: string): Option<Issue> {
    if id in s.details then Some(s.details[id]) else None
  }

  function AfterChange(s: Store, id: string, p: Patch, changed: Dims, base: Option<Issue>): Store {
    Store(
      s.listKeys,
      WriteLists(s.lists, BucketedListEntries(s), id, p, changed, base),
      if id in s.details then s.details[id := Merge(s.details[id], p)] else s.details,
      if p.status.Some? && s.inbox.Some? then Some(PatchInboxStatus(s.inbox.value, id, p.status.value)) else s.inbox)
  }

  function ChangeOf(s: Store, id: string, p: Patch, changed: Dims, base: Option<Issue>): Change {
    var entries := BucketedListEntries(s);
    var copy := FirstCopy(entries, id);
    Change(
      Written(entries, id, p, changed, base),
      Detail(s, id),
      if p.status.Some? then s.inbox else None,
      StaleKeys(entries, id, p, changed, base),
      if base.Some? then base else if copy.Some? then copy else Detail(s, id))
  }

  // The body of the loop: one list entry, read before the loop began.
  method ReconcileEntry(qc: QueryClient, key: QueryKey, data: ListCache, loc: Option<Location>,
                        id: string, p: Patch, changed: Dims, base: Option<Issue>)
    returns (written: bool, stale: bool)
    requires loc == FindIssueLocation(data, id)
    modifies qc`lists
    ensures var o := Reconcile(key, data, id, p, changed, base);
      && written == o.written && stale == o.stale
      && qc.lists == if o.written then old(qc.lists)[key := Bucketed(o.next)] else old(qc.lists)
  {
    var scope, filter := KeyScope(key), KeyFilter(key);
    var filterTouched := ListFilterDependsOn(scope, filter, changed);
    if loc.Some? {
      if filterTouched {
        var membership := MatchesListFilter(Whole(Merge(loc.value.issue, p)), scope, filter);
        if membership.No? {
          qc.lists := qc.lists[key := Bucketed(RemoveIssue(data, id))];
          return true, false;
        }
        qc.lists := qc.lists[key := Bucketed(PatchIssue(data, id, p))];
        return true, membership.Unknown?;
      }
      qc.lists := qc.lists[key := Bucketed(PatchIssue(data, id, p))];
      return true, false;
    }
    if !filterTouched && !changed.status {
      return false, false;
    }
    var wasMember := if base.Some? then MatchesListFilter(Whole(base.value), scope, filter) else Unknown;
    var isMember := MatchesListFilter(Overlay(base, p), scope, filter);
    if wasMember.No? && isMember.No? {
      return false, false;
    }
    if wasMember.Yes? && base.Some? {
      if isMember.Yes? {
        // Moving a unit between two different buckets is the only case that builds a new object.
        if !changed.status || p.status.None? || base.value.status == p.status.value {
          return false, false;
        }
        qc.lists := qc.lists[key := Bucketed(MoveTotal(data, base.value.status, p.status.value))];
        return true, true;
      }
      if isMember.No? {
        qc.lists := qc.lists[key := Bucketed(DecrementTotal(data, base.value.status))];
        return true, false;
      }
    }
    return false, true;
  }

  // The loop over the entries, all read before the first write.
  method ReconcileLists(qc: QueryClient, entries: seq<(QueryKey, ListCache)>, id: string, p: Patch, changed: Dims,
                        base: Option<Issue>)
    returns (prevLists: seq<(QueryKey, ListCache)>, staleKeys: seq<QueryKey>, prevIssue: Option<Issue>)
    modifies qc`lists
    ensures qc.lists == WriteLists(old(qc.lists), entries, id, p, changed, base)
    ensures prevLists == Written(entries, id, p, changed, base)
    ensures staleKeys == StaleKeys(entries, id, p, changed, base)
    ensures prevIssue == if base.Some? then base else FirstCopy(entries, id)
  {
    prevLists, staleKeys, prevIssue := [], [], base;
    for n := 0 to |entries|
      invariant qc.lists == WriteLists(old(qc.lists), entries[..n], id, p, changed, base)
      invariant prevLists == Written(entries[..n], id, p, changed, base)
      invariant staleKeys == StaleKeys(entries[..n], id, p, changed, base)
      invariant prevIssue == if base.Some? then base else FirstCopy(entries[..n], id)
    {
      assert entries[..n + 1][..n] == entries[..n];
      var (key, data) := entries[n];
      var loc := FindIssueLocation(data, id);
      if loc.Some? && prevIssue.None? {
        prevIssue := Some(loc.value.issue);
      }
      var written, stale := ReconcileEntry(qc, key, data, loc, id, p, changed, base);
      if written {
        prevLists := prevLists + [(key, data)];
      }
      if stale {
        staleKeys := staleKeys + [key];
      }
    }
    assert entries[..|entries|] == entries;
  }

  method PatchDetail(qc: QueryClient, id: string, p: Patch) returns (prevDetail: Option<Issue>)
    modifies qc`details
    ensures prevDetail == if id in old(qc.details) then Some(old(qc.details)[id]) else None
    ensures qc.details == if prevDetail.Some? then old(qc.details)[id := Merge(prevDetail.value, p)] else old(qc.details)
  {
    prevDetail := None;
    if id in qc.details {
      prevDetail := Some(qc.details[id]);
      qc.details := qc.details[id := Merge(qc.details[id], p)];
    }
  }

  method PatchInbox(qc: QueryClient, id: string, p: Patch) returns (prevInbox: Option<seq<InboxItem>>)
    modifies qc`inbox
    ensures prevInbox == if p.status.Some? then old(qc.inbox) else None
    ensures qc.inbox == if prevInbox.Some? then Some(PatchInboxStatus(prevInbox.value, id, p.status.value)) else old(qc.inbox)
  {
    prevInbox := None;
    if p.status.Some? {
      prevInbox := qc.inbox;
      if prevInbox.Some? {
        qc.inbox := Some(PatchInboxStatus(prevInbox.value, id, p.status.value));
      }
    }
  }

  method ApplyIssueChange(qc: QueryClient, id: string, p: Patch, changed: Dims, base: Option<Issue>)
    returns (result: Change)
    modifies qc
    ensures qc.View() == AfterChange(old(qc.View()), id, p, changed, base)
    ensures result == ChangeOf(old(qc.View()), id, p, changed, base)
  {
    var entries := BucketedListEntries(qc.View());
    var prevLists, staleKeys, prevIssue := ReconcileLists(qc, entries, id, p, changed, base);
    var prevDetail := PatchDetail(qc, id, p);
    if prevDetail.Some? && prevIssue.None? {
      prevIssue := prevDetail;
    }
    var prevInbox := PatchInbox(qc, id, p);
    result := Change(prevLists, prevDetail, prevInbox, staleKeys, prevIssue);
  }

  /*** The store-level meaning, list by list ***/

  lemma LastEntry(entries: seq<(QueryKey, ListCache)>)
    requires entries != []
    ensures forall k :: Lists(entries, k) <==> (Lists(entries[..|entries| - 1], k) || k == entries[|entries| - 1].0)
  {
    var n := |entries| - 1;
    ListsConcat(entries[..n], [entries[n]]);
    assert entries == entries[..n] + [entries[n]];
    assert [entries[n]][0].0 == entries[n].0;
  }

  lemma {:induction false} WriteListsAt(lists: map<QueryKey, ListEntry>, entries: seq<(QueryKey, ListCache)>,
                                        id: string, p: Patch, changed: Dims, base: Option<Issue>)
    requires Snapshot(entries, lists)
    ensures WriteLists(lists, entries, id, p, changed, base).Keys == lists.Keys
    ensures forall k :: k in lists ==>
      WriteLists(lists, entries, id, p, changed, base)[k] ==
        if Lists(entries, k) then Bucketed(Reconcile(k, lists[k].cache, id, p, changed, base).next) else lists[k]
  {
    if entries != [] {
      var n := |entries| - 1;
      WriteListsAt(lists, entries[..n], id, p, changed, base);
      UnwrittenKeeps(entries[n].0, entries[n].1, id, p, changed, base);
      LastEntry(entries);
    }
  }

  lemma UnwrittenKeeps(k: QueryKey, c: ListCache, id: string, p: Patch, changed: Dims, base: Option<Issue>)
    ensures !Reconcile(k, c, id, p, changed, base).written ==> Reconcile(k, c, id, p, changed, base).next == c
  {
  }

  // Each bucketed list goes through the rules on its own; nothing else in the lists moves.
  lemma AfterChangeAt(s: Store, id: string, p: Patch, changed: Dims, base: Option<Issue>)
    requires s.Valid()
    ensures AfterChange(s, id, p, changed, base).Valid()
    ensures AfterChange(s, id, p, changed, base).lists.Keys == s.lists.Keys
    ensures forall k :: k in s.lists ==>
      AfterChange(s, id, p, changed, base).lists[k] ==
        match s.lists[k]
        case Opaque => Opaque
        case Bucketed(c) => Bucketed(Reconcile(k, c, id, p, changed, base).next)
  {
    BucketedEntriesSpec(s);
    WriteListsAt(s.lists, BucketedListEntries(s), id, p, changed, base);
  }

  lemma {:induction false} StaleKeysAt(entries: seq<(QueryKey, ListCache)>, lists: map<QueryKey, ListEntry>,
                                       id: string, p: Patch, changed: Dims, base: Option<Issue>, k: QueryKey)
    requires Snapshot(entries, lists)
    ensures k in StaleKeys(entries, id, p, changed, base) <==>
      (Lists(entries, k) && Reconcile(k, lists[k].cache, id, p, changed, base).stale)
  {
    if entries != [] {
      var n := |entries| - 1;
      StaleKeysAt(entries[..n], lists, id, p, changed, base, k);
      LastEntry(entries);
    }
  }

  // The reported stale keys are exactly the lists whose own rules report them.
  lemma ReportedStale(s: Store, id: string, p: Patch, changed: Dims, base: Option<Issue>)
    requires s.Valid()
    ensures forall k :: k in ChangeOf(s, id, p, changed, base).staleKeys <==>
      (k in s.lists && s.lists[k].Bucketed? && Reconcile(k, s.lists[k].cache, id, p, changed, base).stale)
  {
    BucketedEntriesSpec(s);
    forall k {
      StaleKeysAt(BucketedListEntries(s), s.lists, id, p, changed, base, k);
    }
  }

  ghost predicate NaturalTotals(c: ListCache) {
    forall s :: GetBucket(c, s).total >= 0
  }

  lemma SetNatural(c: ListCache, s: Status, b: Bucket)
    requires NaturalTotals(c) && b.total >= 0
    ensures NaturalTotals(SetBucket(c, s, b))
  {
    forall t ensures GetBucket(SetBucket(c, s, b), t).total >= 0 {
      assert GetBucket(c, t).total >= 0;
    }
  }

  lemma PatchStaysNatural(c: ListCache, loc: Location, p: Patch)
    requires NaturalTotals(c)
    ensures NaturalTotals(PatchAt(c, loc, p)) && NaturalTotals(RemoveAt(c, loc))
  {
    var from, to := GetBucket(c, loc.status), GetBucket(c, p.status.GetOr(loc.status));
    var less := Bucket(Without(from.issues, loc.issue.id), Max(0, from.total - 1));
    var merged := Merge(loc.issue, p);
    SetNatural(c, loc.status, less);
    SetNatural(SetBucket(c, loc.status, less), p.status.GetOr(loc.status), Bucket(InsertByPosition(to.issues, merged), to.total + 1));
    SetNatural(c, loc.status, from.(issues := InsertByPosition(Without(from.issues, loc.issue.id), merged)));
    SetNatural(c, loc.status, from.(issues := Replace(from.issues, loc.issue.id, merged)));
  }

  lemma UnitsStayNatural(c: ListCache, from: Status, to: Status)
    requires NaturalTotals(c)
    ensures NaturalTotals(MoveTotal(c, from, to)) && NaturalTotals(DecrementTotal(c, from))
  {
    var f, t := GetBucket(c, from), GetBucket(c, to);
    SetNatural(c, from, f.(total := Max(0, f.total - 1)));
    SetNatural(SetBucket(c, from, f.(total := Max(0, f.total - 1))), to, t.(total := t.total + 1));
  }

  // No pass takes a total below zero, whatever was counted before.
  lemma TotalsStayNatural(k: QueryKey, c: ListCache, id: string, p: Patch, changed: Dims, base: Option<Issue>)
    requires NaturalTotals(c)
    ensures NaturalTotals(Reconcile(k, c, id, p, changed, base).next)
  {
    if FindIssueLocation(c, id).Some? {
      PatchStaysNatural(c, FindIssueLocation(c, id).value, p);
    } else if base.Some? {
      UnitsStayNatural(c, base.value.status, p.status.GetOr(base.value.status));
    }
  }

  /*** The issue as it was before the change ***/

  ghost predicate LoadedIn(s: Store, k: QueryKey, id: string) {
    k in s.lists && s.lists[k].Bucketed? && FindIssueLocation(s.lists[k].cache, id).Some?
  }

  // Loaded in a workspace list, or in one of the user's own.
  ghost predicate InSomeList(s: Store, mine: bool, id: string) {
    exists k: QueryKey :: k.MyList? == mine && LoadedIn(s, k, id)
  }

  // `i` is the copy of the issue in such a list.
  ghost predicate IsCopy(s: Store, mine: bool, id: string, i: Issue) {
    exists k: QueryKey :: k.MyList? == mine && LoadedIn(s, k, id) && FindIssueLocation(s.lists[k].cache, id).value.issue == i
  }

  lemma {:induction false} FirstCopyAppend(a: seq<(QueryKey, ListCache)>, b: seq<(QueryKey, ListCache)>, id: string)
    ensures FirstCopy(a + b, id) == if FirstCopy(a, id).Some? then FirstCopy(a, id) else FirstCopy(b, id)
  {
    if b == [] {
      assert a + b == a;
    } else {
      assert (a + b)[..|a + b| - 1] == a + b[..|b| - 1];
      FirstCopyAppend(a, b[..|b| - 1], id);
    }
  }

  // The entry the first copy is read from.
  ghost predicate CopyAt(entries: seq<(QueryKey, ListCache)>, id: string, n: int, i: Issue) {
    0 <= n < |entries| && FindIssueLocation(entries[n].1, id).Some? && FindIssueLocation(entries[n].1, id).value.issue == i
  }

  lemma {:induction false} FirstCopySpec(entries: seq<(QueryKey, ListCache)>, id: string) returns (n: int)
    ensures FirstCopy(entries, id).None? ==> forall i :: 0 <= i < |entries| ==> FindIssueLocation(entries[i].1, id).None?
    ensures FirstCopy(entries, id).Some? ==> CopyAt(entries, id, n, FirstCopy(entries, id).value)
  {
    n := 0;
    if entries != [] {
      var last := |entries| - 1;
      n := FirstCopySpec(entries[..last], id);
      if FirstCopy(entries[..last], id).None? {
        n := last;
        assert forall i :: 0 <= i < last ==> entries[..last][i] == entries[i];
      }
    }
  }

  // The copies one part of the loop meets.
  lemma CopyOfEntries(s: Store, mine: bool, id: string)
    requires s.Valid()
    ensures var copy := FirstCopy(EntriesOf(s.listKeys, s.lists, mine), id);
      if copy.Some? then IsCopy(s, mine, id, copy.value)
      else !InSomeList(s, mine, id)
  {
    var entries := EntriesOf(s.listKeys, s.lists, mine);
    EntriesOfSpec(s.listKeys, s.lists, mine);
    var n := FirstCopySpec(entries, id);
    if FirstCopy(entries, id).Some? {
      assert Lists(entries, entries[n].0);
      assert LoadedIn(s, entries[n].0, id);
    } else {
      forall k: QueryKey | k.MyList? == mine && k in s.lists && s.lists[k].Bucketed? ensures !LoadedIn(s, k, id) {
        assert Lists(entries, k);
        var i :| 0 <= i < |entries| && entries[i].0 == k;
        assert FindIssueLocation(entries[i].1, id).None?;
      }
    }
  }

  // What a change hands back as the issue before it: the base given, else the copy of a workspace
  // list, else that of another list, else the detail; none exactly if nothing holds the issue.
  lemma PrevIssueSpec(s: Store, id: string, p: Patch, changed: Dims)
    requires s.Valid()
    ensures forall base: Issue :: ChangeOf(s, id, p, changed, Some(base)).prevIssue == Some(base)
    ensures var prev := ChangeOf(s, id, p, changed, None).prevIssue;
      if InSomeList(s, false, id) then prev.Some? && IsCopy(s, false, id, prev.value)
      else if InSomeList(s, true, id) then prev.Some? && IsCopy(s, true, id, prev.value)
      else if id in s.details then prev == Some(s.details[id])
      else prev == None
  {
    FirstCopyAppend(EntriesOf(s.listKeys, s.lists, false), EntriesOf(s.listKeys, s.lists, true), id);
    CopyOfEntries(s, false, id);
    CopyOfEntries(s, true, id);
  }
}
