/** The query client as the issue code uses it: a keyed store of lists, details and the inbox. */
module QueryCache {
  import opened Basics
  import opened IssueTypes
  import opened Membership
  import opened Buckets

  // `window` names the sort bag of the key: sort order, date window and property filter.
  datatype QueryKey =
    | WorkspaceList(window: string)
    | MyList(scope: string, filter: Filter, window: string)

  // Opaque: a query with no data yet, or a grouped/flat shape without `byStatus`.
  datatype ListEntry = Bucketed(cache: ListCache) | Opaque

  datatype InboxItem = InboxItem(
    id: string,
    issueId: Option<string>,
    issueStatus: Option<Status>,
    read: bool,
    archived: bool,
    createdAt: int,
    commentId: Option<string>)

  // `listKeys` is the order in which the client created the list queries.
  datatype Store = Store(
    listKeys: seq<QueryKey>,
    lists: map<QueryKey, ListEntry>,
    details: map<string, Issue>,
    inbox: Option<seq<InboxItem>>)
  {
    ghost predicate Valid() {
      && Distinct(listKeys)
      && (forall k :: k in listKeys <==> k in lists)
    }
  }

  class QueryClient {
    var listKeys: seq<QueryKey>
    var lists: map<QueryKey, ListEntry>
    var details: map<string, Issue>
    var inbox: Option<seq<InboxItem>>

    function View(): Store
      reads this
    {
      Store(listKeys, lists, details, inbox)
    }

    constructor (s: Store)
      ensures View() == s
    {
      listKeys, lists, details, inbox := s.listKeys, s.lists, s.details, s.inbox;
    }
  }

  function KeyScope(k: QueryKey): Option<string> {
    if k.MyList? then Some(k.scope) else None
  }

  function KeyFilter(k: QueryKey): Filter {
    if k.MyList? then k.filter else NO_FILTER
  }

  function EntriesOf(keys: seq<QueryKey>, lists: map<QueryKey, ListEntry>, mine: bool): seq<(QueryKey, ListCache)> {
    if keys == [] then []
    else
      var k := keys[0];
      (if k.MyList? == mine && k in lists && lists[k].Bucketed? then [(k, lists[k].cache)] else [])
      + EntriesOf(keys[1..], lists, mine)
  }

  // Every bucketed list: the workspace lists first, then the "my" lists.
  function BucketedListEntries(s: Store): seq<(QueryKey, ListCache)> {
    EntriesOf(s.listKeys, s.lists, false) + EntriesOf(s.listKeys, s.lists, true)
  }

  // Entries as a loop meets them: distinct keys, each with the cache stored under it.
  ghost predicate Snapshot(entries: seq<(QueryKey, ListCache)>, lists: map<QueryKey, ListEntry>) {
    && (forall i, j :: 0 <= i < j < |entries| ==> entries[i].0 != entries[j].0)
    && (forall i :: 0 <= i < |entries| ==> entries[i].0 in lists && lists[entries[i].0] == Bucketed(entries[i].1))
  }

  ghost predicate Lists(entries: seq<(QueryKey, ListCache)>, k: QueryKey) {
    exists i :: 0 <= i < |entries| && entries[i].0 == k
  }

  lemma ListsConcat(a: seq<(QueryKey, ListCache)>, b: seq<(QueryKey, ListCache)>)
    ensures forall k :: Lists(a + b, k) <==> (Lists(a, k) || Lists(b, k))
  {
    forall k ensures Lists(a + b, k) <==> (Lists(a, k) || Lists(b, k)) {
      if Lists(a, k) {
        var i :| 0 <= i < |a| && a[i].0 == k;
        assert (a + b)[i].0 == k;
      }
      if Lists(b, k) {
        var i :| 0 <= i < |b| && b[i].0 == k;
        assert (a + b)[|a| + i].0 == k;
      }
      if Lists(a + b, k) {
        var i :| 0 <= i < |a + b| && (a + b)[i].0 == k;
        assert if i < |a| then a[i].0 == k else b[i - |a|].0 == k;
      }
    }
  }

  lemma SnapshotConcat(a: seq<(QueryKey, ListCache)>, b: seq<(QueryKey, ListCache)>, lists: map<QueryKey, ListEntry>)
    requires Snapshot(a, lists) && Snapshot(b, lists)
    requires forall k :: !(Lists(a, k) && Lists(b, k))
    ensures Snapshot(a + b, lists)
  {
    assert forall i :: 0 <= i < |a| ==> Lists(a, a[i].0);
    assert forall i :: 0 <= i < |b| ==> Lists(b, b[i].0);
  }

  lemma {:induction false} EntriesOfSpec(keys: seq<QueryKey>, lists: map<QueryKey, ListEntry>, mine: bool)
    requires Distinct(keys)
    ensures Snapshot(EntriesOf(keys, lists, mine), lists)
    ensures forall k :: Lists(EntriesOf(keys, lists, mine), k) <==>
              (k in keys && k.MyList? == mine && k in lists && lists[k].Bucketed?)
  {
    if keys != [] {
      var k0 := keys[0];
      EntriesOfSpec(keys[1..], lists, mine);
      var head := if k0.MyList? == mine && k0 in lists && lists[k0].Bucketed? then [(k0, lists[k0].cache)] else [];
      ListsConcat(head, EntriesOf(keys[1..], lists, mine));
      assert forall k :: Lists(head, k) ==> k == k0;
      assert head != [] ==> head[0].0 == k0 && Lists(head, k0);
      assert k0 !in keys[1..];
      SnapshotConcat(head, EntriesOf(keys[1..], lists, mine), lists);
    }
  }

  // The loop visits every bucketed list exactly once.
  lemma BucketedEntriesSpec(s: Store)
    requires s.Valid()
    ensures Snapshot(BucketedListEntries(s), s.lists)
    ensures forall k :: Lists(BucketedListEntries(s), k) <==> (k in s.lists && s.lists[k].Bucketed?)
  {
    EntriesOfSpec(s.listKeys, s.lists, false);
    EntriesOfSpec(s.listKeys, s.lists, true);
    var a, b := EntriesOf(s.listKeys, s.lists, false), EntriesOf(s.listKeys, s.lists, true);
    ListsConcat(a, b);
    SnapshotConcat(a, b, s.lists);
  }
}
