/** The chat store's persisted restore queues and applied-restore ledger, per workspace. */
module ChatStore {
  import opened Basics

  // A restore with no server copy, waiting for its session's composer.
  datatype Restore = Restore(id: string, sessionId: string, content: string)

  type Queues = map<string, seq<Restore>>

  // The storage namespace of a workspace; without a slug, the bare key.
  function Namespace(slug: Option<string>): Option<string> {
    if slug.Some? && slug.value != "" then slug else None
  }

  function QueueOf(q: Queues, sessionId: string): seq<Restore> {
    if sessionId in q then q[sessionId] else []
  }

  predicate HasId(s: seq<Restore>, id: string) {
    exists i :: 0 <= i < |s| && s[i].id == id
  }

  function WithoutId(s: seq<Restore>, id: string): seq<Restore> {
    if s == [] then []
    else if s[0].id == id then WithoutId(s[1..], id)
    else [s[0]] + WithoutId(s[1..], id)
  }

  // Empty queues are pruned on the way to storage and on the way back.
  function NonEmpty(q: Queues): (r: Queues)
    ensures forall s :: s in r ==> r[s] != []
    ensures forall s :: QueueOf(r, s) == QueueOf(q, s)
  {
    map s | s in q && q[s] != [] :: q[s]
  }

  function Enqueued(q: seq<Restore>, r: Restore): seq<Restore> {
    if r.sessionId == "" || r.id == "" || HasId(q, r.id) then q else q + [r]
  }

  lemma {:induction false} WithoutIdMissing(s: seq<Restore>, id: string)
    ensures !HasId(s, id) ==> WithoutId(s, id) == s
  {
    if s != [] {
      WithoutIdMissing(s[1..], id);
      if !HasId(s, id) {
        assert forall i :: 0 <= i < |s[1..]| ==> s[1..][i] == s[i + 1];
        assert !HasId(s[1..], id);
        assert s[0].id != id;
      }
    }
  }

  /*** What storage holds, and what each store action does to it ***/

  // The current namespace and one queue blob per namespace; a missing blob reads as empty.
  datatype Disk = Disk(ws: Option<string>, queues: map<Option<string>, Queues>)

  function At(d: Disk, ws: Option<string>, sessionId: string): seq<Restore> {
    if ws in d.queues then QueueOf(d.queues[ws], sessionId) else []
  }

  // Two disks a reader cannot tell apart.
  ghost predicate SameDisk(a: Disk, b: Disk) {
    a.ws == b.ws && forall ws, s :: At(a, ws, s) == At(b, ws, s)
  }

  function Put(d: Disk, sessionId: string, q: seq<Restore>): Disk {
    var current := if d.ws in d.queues then d.queues[d.ws] else map[];
    d.(queues := d.queues[d.ws := current[sessionId := q]])
  }

  datatype Event = Enqueue(r: Restore) | Dequeue(sessionId: string, id: string) | Switch(slug: Option<string>) | Reload

  function Next(d: Disk, e: Event): Disk {
    match e
    case Enqueue(r) => Put(d, r.sessionId, Enqueued(At(d, d.ws, r.sessionId), r))
    case Dequeue(s, id) => Put(d, s, WithoutId(At(d, d.ws, s), id))
    case Switch(slug) => d.(ws := Namespace(slug))
    case Reload => d
  }

  /*** The store ***/

  function LedgerAt(ledgers: map<Option<string>, seq<string>>, ws: Option<string>): seq<string> {
    if ws in ledgers then ledgers[ws] else []
  }

  class Store {
    // Storage: one blob per workspace and kind.
    var storedQueues: map<Option<string>, Queues>
    var storedLedgers: map<Option<string>, seq<string>>
    // The current workspace, and what the store holds in memory for it.
    var slug: Option<string>
    var queues: Queues
    var ledger: seq<string>

    function OnDisk(): Disk
      reads this
    {
      Disk(Namespace(slug), storedQueues)
    }

    // Memory mirrors the storage of the current workspace.
    ghost predicate Valid()
      reads this
    {
      && (forall s :: QueueOf(queues, s) == At(OnDisk(), Namespace(slug), s))
      && ledger == LedgerAt(storedLedgers, Namespace(slug))
    }

    function ReadQueues(): Queues
      reads this
    {
      var key := Namespace(slug);
      if key in storedQueues then NonEmpty(storedQueues[key]) else map[]
    }

    function ReadLedger(): seq<string>
      reads this
    {
      LedgerAt(storedLedgers, Namespace(slug))
    }

    method WriteQueues(q: Queues)
      modifies `storedQueues
      ensures var key := Namespace(slug);
        storedQueues == if NonEmpty(q) == map[] then old(storedQueues) - {key} else old(storedQueues)[key := NonEmpty(q)]
    {
      var key := Namespace(slug);
      var pruned := NonEmpty(q);
      storedQueues := if pruned == map[] then storedQueues - {key} else storedQueues[key := pruned];
    }

    method WriteLedger(ids: seq<string>)
      modifies `storedLedgers
      ensures var key := Namespace(slug);
        storedLedgers == if ids == [] then old(storedLedgers) - {key} else old(storedLedgers)[key := ids]
    {
      var key := Namespace(slug);
      storedLedgers := if ids == [] then storedLedgers - {key} else storedLedgers[key := ids];
    }

    // A fresh store over what storage holds: the page was reloaded.
    constructor (storedQueues: map<Option<string>, Queues>, storedLedgers: map<Option<string>, seq<string>>, slug: Option<string>)
      ensures Valid() && OnDisk() == Disk(Namespace(slug), storedQueues) && this.storedLedgers == storedLedgers
    {
      this.storedQueues, this.storedLedgers, this.slug := storedQueues, storedLedgers, slug;
      new;
      queues, ledger := ReadQueues(), ReadLedger();
    }

    // The workspace changes and the store rehydrates from the new namespace.
    method SwitchWorkspace(next: Option<string>)
      modifies this
      ensures Valid() && OnDisk() == Next(old(OnDisk()), Switch(next)) && storedLedgers == old(storedLedgers)
    {
      slug := next;
      queues, ledger := ReadQueues(), ReadLedger();
    }

    method EnqueuePendingSendRestore(r: Restore)
      requires Valid()
      modifies this
      ensures Valid() && SameDisk(OnDisk(), Next(old(OnDisk()), Enqueue(r))) && storedLedgers == old(storedLedgers)
    {
      if r.sessionId == "" || r.id == "" {
        return;
      }
      var existing := QueueOf(queues, r.sessionId);
      if HasId(existing, r.id) {
        return;
      }
      var next := queues[r.sessionId := existing + [r]];
      ghost var before := OnDisk();
      WriteQueues(next);
      queues := next;
      StoredIsPut(before, OnDisk(), queues, r.sessionId);
    }

    method DequeuePendingSendRestore(sessionId: string, restoreId: string)
      requires Valid()
      modifies this
      ensures Valid() && SameDisk(OnDisk(), Next(old(OnDisk()), Dequeue(sessionId, restoreId)))
      ensures storedLedgers == old(storedLedgers)
    {
      var existing := QueueOf(queues, sessionId);
      WithoutIdMissing(existing, restoreId);
      if !HasId(existing, restoreId) {
        return;
      }
      var remaining := WithoutId(existing, restoreId);
      var next := if |remaining| > 0 then queues[sessionId := remaining] else queues - {sessionId};
      ghost var before := OnDisk();
      WriteQueues(next);
      queues := next;
      StoredIsPut(before, OnDisk(), queues, sessionId);
    }

    method MarkDraftRestoreApplied(restoreId: string)
      requires Valid()
      modifies this
      ensures Valid() && OnDisk() == old(OnDisk())
      ensures restoreId in ledger && forall id :: id in ledger <==> (id in old(ledger) || id == restoreId)
      ensures forall ws :: ws != Namespace(slug) ==> LedgerAt(storedLedgers, ws) == LedgerAt(old(storedLedgers), ws)
    {
      if restoreId in ledger {
        return;
      }
      var next := ledger + [restoreId];
      WriteLedger(next);
      ledger := next;
    }

    method ForgetDraftRestoreApplied(restoreId: string)
      requires Valid()
      modifies this
      ensures Valid() && OnDisk() == old(OnDisk())
      ensures forall id :: id in ledger <==> (id in old(ledger) && id != restoreId)
      ensures forall ws :: ws != Namespace(slug) ==> LedgerAt(storedLedgers, ws) == LedgerAt(old(storedLedgers), ws)
    {
      if restoreId !in ledger {
        return;
      }
      var keep := (id: string) => id != restoreId;
      FilterMembers(keep, ledger);
      var next := Filter(keep, ledger);
      WriteLedger(next);
      ledger := next;
    }
  }

  // Writing the queues of the current namespace, with one session changed, is a Put.
  lemma StoredIsPut(before: Disk, after: Disk, q: Queues, sessionId: string)
    requires after.ws == before.ws
    requires after.queues == if NonEmpty(q) == map[] then before.queues - {before.ws} else before.queues[before.ws := NonEmpty(q)]
    requires forall s :: s != sessionId ==> QueueOf(q, s) == At(before, before.ws, s)
    ensures SameDisk(after, Put(before, sessionId, QueueOf(q, sessionId)))
    ensures forall s :: At(after, after.ws, s) == QueueOf(q, s)
  {
    forall s ensures At(after, after.ws, s) == QueueOf(q, s) {
      assert QueueOf(NonEmpty(q), s) == QueueOf(q, s);
    }
  }

  /*** Runs ***/

  function After(d: Disk, es: seq<Event>): Disk {
    if es == [] then d else Next(After(d, es[..|es| - 1]), es[|es| - 1])
  }

  ghost predicate UniqueIds(s: seq<Restore>) {
    forall i, j :: 0 <= i < j < |s| ==> s[i].id != s[j].id
  }

  ghost predicate AllUnique(d: Disk) {
    forall ws, s :: UniqueIds(At(d, ws, s))
  }

  lemma {:induction false} WithoutIdMembers(s: seq<Restore>, id: string)
    ensures forall r :: r in WithoutId(s, id) <==> (r in s && r.id != id)
  {
    if s != [] {
      WithoutIdMembers(s[1..], id);
      assert s == [s[0]] + s[1..];
    }
  }

  lemma {:induction false} WithoutIdSpec(s: seq<Restore>, id: string)
    ensures forall r :: r in WithoutId(s, id) <==> (r in s && r.id != id)
    ensures UniqueIds(s) ==> UniqueIds(WithoutId(s, id))
  {
    WithoutIdMembers(s, id);
    if s != [] && UniqueIds(s) {
      WithoutIdSpec(s[1..], id);
    }
  }

  // Position of a restore in a queue without duplicates never moves back: only restores ahead
  // of it leave.
  function Ahead(s: seq<Restore>, id: string): nat {
    if s == [] || s[0].id == id then 0 else 1 + Ahead(s[1..], id)
  }

  lemma {:induction false} RemovalMovesUp(s: seq<Restore>, gone: string, id: string)
    requires gone != id
    ensures Ahead(WithoutId(s, gone), id) <= Ahead(s, id)
    ensures HasId(s, id) ==> HasId(WithoutId(s, gone), id)
  {
    if s != [] {
      RemovalMovesUp(s[1..], gone, id);
      if HasId(s, id) {
        var i :| 0 <= i < |s| && s[i].id == id;
        if i > 0 {
          assert s[1..][i - 1].id == id;
          var j :| 0 <= j < |WithoutId(s[1..], gone)| && WithoutId(s[1..], gone)[j].id == id;
          if s[0].id != gone {
            assert WithoutId(s, gone)[j + 1].id == id;
          }
        } else {
          assert WithoutId(s, gone)[0].id == id;
        }
      }
    }
  }

  lemma {:induction false} AppendKeepsPlace(s: seq<Restore>, r: Restore, id: string)
    requires HasId(s, id)
    ensures Ahead(s + [r], id) == Ahead(s, id) && HasId(s + [r], id)
  {
    var i :| 0 <= i < |s| && s[i].id == id;
    assert (s + [r])[i].id == id;
    if s[0].id != id {
      assert s[1..][i - 1].id == id;
      assert (s + [r])[1..] == s[1..] + [r];
      AppendKeepsPlace(s[1..], r, id);
    }
  }

  lemma PutAt(d: Disk, sessionId: string, q: seq<Restore>)
    ensures forall ws, s :: At(Put(d, sessionId, q), ws, s) == (if ws == d.ws && s == sessionId then q else At(d, ws, s))
  {
  }

  // Over any run no queue holds an id twice.
  lemma {:induction false} RunsKeepIdsUnique(d: Disk, es: seq<Event>)
    requires AllUnique(d)
    ensures AllUnique(After(d, es))
  {
    if es != [] {
      var b := After(d, es[..|es| - 1]);
      RunsKeepIdsUnique(d, es[..|es| - 1]);
      match es[|es| - 1] {
        case Enqueue(r) =>
          PutAt(b, r.sessionId, Enqueued(At(b, b.ws, r.sessionId), r));
        case Dequeue(s, id) =>
          WithoutIdSpec(At(b, b.ws, s), id);
          PutAt(b, s, WithoutId(At(b, b.ws, s), id));
        case Switch(slug) =>
          forall ws, s ensures At(After(d, es), ws, s) == At(b, ws, s) {}
        case Reload =>
      }
    }
  }

  // Nothing in the run takes `id` out of the queue of `session` in `ws`.
  ghost predicate NeverDequeued(d: Disk, es: seq<Event>, ws: Option<string>, session: string, id: string) {
    forall n :: 0 <= n < |es| && es[n] == Dequeue(session, id) ==> After(d, es[..n]).ws != ws
  }

  // A queued restore survives every reload, workspace switch and other request until it is
  // dequeued in its own workspace and session, and nobody ever gets ahead of it.
  lemma {:induction false} QueuedSurvives(d: Disk, es: seq<Event>, ws: Option<string>, session: string, id: string)
    requires HasId(At(d, ws, session), id) && NeverDequeued(d, es, ws, session, id)
    ensures HasId(At(After(d, es), ws, session), id)
    ensures Ahead(At(After(d, es), ws, session), id) <= Ahead(At(d, ws, session), id)
  {
    if es != [] {
      var n := |es| - 1;
      var b := After(d, es[..n]);
      assert forall m :: 0 <= m < n ==> es[..n][..m] == es[..m];
      QueuedSurvives(d, es[..n], ws, session, id);
      if b.ws == ws {
        match es[n] {
          case Enqueue(r) =>
            if r.sessionId == session { AppendKeepsPlace(At(b, ws, session), r, id); }
          case Dequeue(s, gone) =>
            if s == session {
              assert gone != id by { assert es[n] == Dequeue(s, gone); }
              RemovalMovesUp(At(b, ws, session), gone, id);
            }
          case Switch(_) =>
          case Reload =>
        }
      }
    }
  }

  /*** What each request reaches ***/

  const APPLIED_RESTORES_KEY := "multica:chat:applied-draft-restores"
  const PENDING_SEND_RESTORES_KEY := "multica:chat:pending-send-restores"

  // The key under which a blob is stored.
  function StorageKey(base: string, slug: Option<string>): string {
    if slug.Some? && slug.value != "" then base + ":" + slug.value else base
  }

  // A namespace is what its keys tell apart: two workspaces share a blob only if both have no slug.
  lemma KeysApartIff(base: string, a: Option<string>, b: Option<string>)
    ensures StorageKey(base, a) == StorageKey(base, b) <==> Namespace(a) == Namespace(b)
    ensures Namespace(a) == Namespace(b) <==> a == b || (a.GetOr("") == "" && b.GetOr("") == "")
  {
    var x, y := a.GetOr(""), b.GetOr("");
    if x != "" {
      assert (base + ":" + x)[|base| + 1..] == x;
    }
    if y != "" {
      assert (base + ":" + y)[|base| + 1..] == y;
    }
  }

  // The two kinds of blob never share a key.
  lemma KindsApart(a: Option<string>, b: Option<string>)
    ensures StorageKey(APPLIED_RESTORES_KEY, a) != StorageKey(PENDING_SEND_RESTORES_KEY, b)
  {
    assert StorageKey(APPLIED_RESTORES_KEY, a)[13] == 'a' && StorageKey(PENDING_SEND_RESTORES_KEY, b)[13] == 'p';
  }

  // A restore goes to the end of its session's queue in the current workspace, once, and nowhere
  // else; one without an id or a session goes nowhere.
  lemma EnqueueReaches(d: Disk, r: Restore, ws: Option<string>, session: string)
    ensures var was := At(d, ws, session);
      At(Next(d, Enqueue(r)), ws, session) ==
        if ws == d.ws && session == r.sessionId && session != "" && r.id != "" && (forall i :: 0 <= i < |was| ==> was[i].id != r.id)
        then was + [r] else was
  {
    PutAt(d, r.sessionId, Enqueued(At(d, d.ws, r.sessionId), r));
  }

  // A dequeue takes the restores of that id out of one session's queue in the current workspace,
  // and nothing else.
  lemma DequeueReaches(d: Disk, gone: string, id: string, ws: Option<string>, session: string)
    ensures var was, now := At(d, ws, session), At(Next(d, Dequeue(gone, id)), ws, session);
      if ws == d.ws && session == gone then forall r :: r in now <==> r in was && r.id != id else now == was
  {
    WithoutIdMembers(At(d, d.ws, gone), id);
    PutAt(d, gone, WithoutId(At(d, d.ws, gone), id));
  }
}
