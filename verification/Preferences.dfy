/** Notification preferences: sparse patches, optimistic writes in a serial queue, selective rollback. */
module Preferences {
  import opened Basics

  datatype Key = Assignments | StatusChanges | Comments | Updates | AgentActivity | SystemNotifications

  const GROUP_KEYS: seq<Key> :=
    [Assignments, StatusChanges, Comments, Updates, AgentActivity, SystemNotifications]

  datatype Value = All | Muted

  type Prefs = map<Key, Value>

  // A missing key reads as "all".
  function View(p: Prefs, k: Key): Value {
    if k in p then p[k] else All
  }

  ghost predicate SameView(a: Prefs, b: Prefs) {
    forall k :: View(a, k) == View(b, k)
  }

  /*** The three patch functions ***/

  function Derived(previous: Prefs, next: Prefs, keys: set<Key>): Prefs {
    map k | k in keys && View(previous, k) != View(next, k) :: View(next, k)
  }

  function Applied(current: Prefs, patch: Prefs, keys: set<Key>): Prefs {
    map k | k in current.Keys + patch.Keys
            && (if k in keys && k in patch then patch[k] == Muted else k in current)
         :: if k in keys && k in patch then Muted else current[k]
  }

  // The patch still stands at `k`: no later toggle has changed what it wrote.
  predicate Stands(current: Prefs, patch: Prefs, k: Key) {
    k in patch && View(current, k) == patch[k]
  }

  function RolledBack(current: Prefs, patch: Prefs, previous: Prefs, keys: set<Key>): Prefs {
    map k | k in current.Keys + previous.Keys
            && (if k in keys && Stands(current, patch, k) then View(previous, k) == Muted else k in current)
         :: if k in keys && Stands(current, patch, k) then Muted else current[k]
  }

  function KeySet(keys: seq<Key>): set<Key> {
    set k | k in keys
  }

  const GROUPS: set<Key> := KeySet(GROUP_KEYS)

  lemma EveryKeyIsAGroup(k: Key)
    ensures k in GROUPS
  {
    assert GROUP_KEYS[0] == Assignments && GROUP_KEYS[1] == StatusChanges && GROUP_KEYS[2] == Comments
        && GROUP_KEYS[3] == Updates && GROUP_KEYS[4] == AgentActivity && GROUP_KEYS[5] == SystemNotifications;
  }

  method DerivePatch(previous: Prefs, next: Prefs) returns (patch: Prefs)
    ensures patch == Derived(previous, next, GROUPS)
  {
    patch := map[];
    for n := 0 to |GROUP_KEYS|
      invariant patch == Derived(previous, next, KeySet(GROUP_KEYS[..n]))
    {
      var key := GROUP_KEYS[n];
      NextGroup(n);
      var nextValue := View(next, key);
      if View(previous, key) != nextValue {
        patch := patch[key := nextValue];
      }
    }
    assert GROUP_KEYS[..|GROUP_KEYS|] == GROUP_KEYS;
  }

  // One key further.
  lemma AppliedStep(current: Prefs, patch: Prefs, keys: set<Key>, k: Key)
    requires k !in keys
    ensures var next := Applied(current, patch, keys);
      Applied(current, patch, keys + {k}) ==
        if k !in patch then next else if patch[k] == Muted then next[k := Muted] else next - {k}
  {
  }

  lemma RolledBackStep(current: Prefs, patch: Prefs, previous: Prefs, keys: set<Key>, k: Key)
    requires k !in keys
    ensures var next := RolledBack(current, patch, previous, keys);
      RolledBack(current, patch, previous, keys + {k}) ==
        if !Stands(current, patch, k) then next
        else if View(previous, k) == All then next - {k} else next[k := View(previous, k)]
  {
  }

  // The groups before the `n`-th, and the next one, which is new.
  lemma NextGroup(n: nat)
    requires n < |GROUP_KEYS|
    ensures KeySet(GROUP_KEYS[..n + 1]) == KeySet(GROUP_KEYS[..n]) + {GROUP_KEYS[n]}
    ensures GROUP_KEYS[n] !in KeySet(GROUP_KEYS[..n])
  {
    assert GROUP_KEYS[..n + 1] == GROUP_KEYS[..n] + [GROUP_KEYS[n]];
  }

  method ApplyPatch(current: Prefs, patch: Prefs) returns (next: Prefs)
    ensures next == Applied(current, patch, GROUPS)
  {
    next := current;
    for n := 0 to |GROUP_KEYS|
      invariant next == Applied(current, patch, KeySet(GROUP_KEYS[..n]))
    {
      var key := GROUP_KEYS[n];
      NextGroup(n);
      AppliedStep(current, patch, KeySet(GROUP_KEYS[..n]), key);
      if key in patch {
        if patch[key] == Muted {
          next := next[key := Muted];
        } else {
          next := next - {key};
        }
      }
    }
    assert GROUP_KEYS[..|GROUP_KEYS|] == GROUP_KEYS;
  }

  method RollbackPatch(current: Prefs, patch: Prefs, previous: Prefs) returns (next: Prefs)
    ensures next == RolledBack(current, patch, previous, GROUPS)
  {
    next := current;
    for n := 0 to |GROUP_KEYS|
      invariant next == RolledBack(current, patch, previous, KeySet(GROUP_KEYS[..n]))
    {
      var key := GROUP_KEYS[n];
      NextGroup(n);
      RolledBackStep(current, patch, previous, KeySet(GROUP_KEYS[..n]), key);
      if key !in patch || View(current, key) != patch[key] {
        continue;
      }
      if View(previous, key) == All {
        next := next - {key};
      } else {
        next := next[key := View(previous, key)];
      }
    }
    assert GROUP_KEYS[..|GROUP_KEYS|] == GROUP_KEYS;
  }

  function Derive(previous: Prefs, next: Prefs): Prefs {
    Derived(previous, next, GROUPS)
  }

  function Apply(current: Prefs, patch: Prefs): Prefs {
    Applied(current, patch, GROUPS)
  }

  function Rollback(current: Prefs, patch: Prefs, previous: Prefs): Prefs {
    RolledBack(current, patch, previous, GROUPS)
  }

  // What each does to what the settings page shows.
  lemma Shows(current: Prefs, patch: Prefs, previous: Prefs)
    ensures forall k :: View(Apply(current, patch), k) == if k in patch then patch[k] else View(current, k)
    ensures forall k :: View(Rollback(current, patch, previous), k)
                     == if Stands(current, patch, k) then View(previous, k) else View(current, k)
  {
    forall k { EveryKeyIsAGroup(k); }
  }

  // What is stored: applying stores exactly the muted keys of the patch and leaves the others as
  // they were, stored or not; rolling back does so for the keys that still stand.
  lemma Stores(current: Prefs, patch: Prefs, previous: Prefs, k: Key)
    ensures k in Apply(current, patch) <==> if k in patch then patch[k] == Muted else k in current
    ensures k in Rollback(current, patch, previous) <==> if Stands(current, patch, k) then View(previous, k) == Muted else k in current
    ensures k in current && k !in patch ==> Apply(current, patch)[k] == current[k] && Rollback(current, patch, previous)[k] == current[k]
  {
    EveryKeyIsAGroup(k);
  }

  lemma DerivedAt(previous: Prefs, next: Prefs)
    ensures forall k :: k in Derive(previous, next) <==> View(previous, k) != View(next, k)
    ensures forall k :: k in Derive(previous, next) ==> Derive(previous, next)[k] == View(next, k)
  {
    forall k { EveryKeyIsAGroup(k); }
  }

  // The derived patch leads from the first view to the second, and rolling it back leads back.
  lemma DeriveApplyRollback(previous: Prefs, next: Prefs)
    ensures var patch := Derive(previous, next);
      && SameView(Apply(previous, patch), next)
      && SameView(Rollback(Apply(previous, patch), patch, previous), previous)
  {
    var patch := Derive(previous, next);
    DerivedAt(previous, next);
    Shows(previous, patch, previous);
    Shows(Apply(previous, patch), patch, previous);
  }

  // No patch that leads there is smaller.
  lemma DerivedIsSmallest(previous: Prefs, next: Prefs, patch: Prefs)
    requires SameView(Apply(previous, patch), next)
    ensures Derive(previous, next).Keys <= patch.Keys
  {
    DerivedAt(previous, next);
    Shows(previous, patch, previous);
  }

  /*** The protocol: optimistic writes, sent one at a time ***/

  // A write waiting for its turn or its answer: its patch and the cache before it.
  datatype Write = Write(patch: Prefs, previous: Prefs)

  // The server's preferences, the cached ones, and the writes outstanding, in order.
  datatype State = State(server: Prefs, cache: Prefs, queue: seq<Write>)

  class PreferenceCache {
    var preferences: Prefs

    constructor (p: Prefs)
      ensures preferences == p
    {
      preferences := p;
    }

    method OnMutate(patch: Prefs) returns (previous: Prefs)
      modifies this
      ensures previous == old(preferences) && preferences == Apply(old(preferences), patch)
    {
      previous := preferences;
      preferences := ApplyPatch(preferences, patch);
    }

    method OnError(patch: Prefs, previous: Prefs)
      modifies this
      ensures preferences == Rollback(old(preferences), patch, previous)
    {
      preferences := RollbackPatch(preferences, patch, previous);
    }
  }

  // The user saves `next` while the cache shows something else.
  function Issue(s: State, patch: Prefs): State {
    State(s.server, Apply(s.cache, patch), s.queue + [Write(patch, s.cache)])
  }

  // The first write outstanding succeeds (`ok`) or fails.
  function Settle(s: State, ok: bool): State
    requires s.queue != []
  {
    var w := s.queue[0];
    if ok then State(Apply(s.server, w.patch), s.cache, s.queue[1..])
    else State(s.server, Rollback(s.cache, w.patch, w.previous), s.queue[1..])
  }

  datatype Event = Issued(patch: Prefs) | Settled(ok: bool)

  ghost predicate Enabled(s: State, e: Event) {
    match e
    case Issued(patch) => forall i :: 0 <= i < |s.queue| ==> patch.Keys !! s.queue[i].patch.Keys
    case Settled(_) => s.queue != []
  }

  ghost predicate Runs(s: State, es: seq<Event>)
    decreases |es|
  {
    es == [] || (Enabled(s, es[0]) && Runs(Next(s, es[0]), es[1..]))
  }

  function Next(s: State, e: Event): State {
    match e
    case Issued(patch) => Issue(s, patch)
    case Settled(ok) => if s.queue == [] then s else Settle(s, ok)
  }

  function After(s: State, es: seq<Event>): State
    decreases |es|
  {
    if es == [] then s else After(Next(s, es[0]), es[1..])
  }

  // With disjoint patches: each outstanding write still shows at its keys and remembers what
  // the server has there; everywhere else the cache shows the server's value.
  ghost predicate Overlay(s: State) {
    && (forall i, j :: 0 <= i < j < |s.queue| ==> s.queue[i].patch.Keys !! s.queue[j].patch.Keys)
    && (forall i, k :: 0 <= i < |s.queue| && k in s.queue[i].patch ==>
          View(s.cache, k) == s.queue[i].patch[k] && View(s.queue[i].previous, k) == View(s.server, k))
    && (forall k :: (forall i :: 0 <= i < |s.queue| ==> k !in s.queue[i].patch) ==> View(s.cache, k) == View(s.server, k))
  }

  lemma IssueKeepsOverlay(s: State, patch: Prefs)
    requires Overlay(s) && Enabled(s, Issued(patch))
    ensures Overlay(Issue(s, patch))
  {
    Shows(s.cache, patch, s.cache);
    var t := Issue(s, patch);
    assert t.queue[|s.queue|] == Write(patch, s.cache);
    forall k | forall i :: 0 <= i < |t.queue| ==> k !in t.queue[i].patch ensures View(t.cache, k) == View(t.server, k) {
      assert forall i :: 0 <= i < |s.queue| ==> t.queue[i] == s.queue[i];
    }
  }

  lemma SettleKeepsOverlay(s: State, ok: bool)
    requires Overlay(s) && s.queue != []
    ensures Overlay(Settle(s, ok))
  {
    var w := s.queue[0];
    var t := Settle(s, ok);
    Shows(s.server, w.patch, w.previous);
    Shows(s.cache, w.patch, w.previous);
    assert forall i :: 0 <= i < |t.queue| ==> t.queue[i] == s.queue[i + 1];
    forall k | forall i :: 0 <= i < |t.queue| ==> k !in t.queue[i].patch ensures View(t.cache, k) == View(t.server, k) {
      if k !in w.patch {
        forall i | 0 <= i < |s.queue| ensures k !in s.queue[i].patch {
          if i > 0 { assert s.queue[i] == t.queue[i - 1]; }
        }
      }
    }
  }

  // Over any interleaving of saves, successes and failures in which no key is saved twice at
  // once: whenever nothing is outstanding the page shows what the server has.
  lemma {:induction false} QuiescentViewsAgree(s: State, es: seq<Event>)
    requires Overlay(s) && Runs(s, es)
    ensures Overlay(After(s, es))
    ensures After(s, es).queue == [] ==> SameView(After(s, es).cache, After(s, es).server)
    decreases |es|
  {
    if es != [] {
      match es[0] {
        case Issued(patch) => IssueKeepsOverlay(s, patch);
        case Settled(ok) => SettleKeepsOverlay(s, ok);
      }
      QuiescentViewsAgree(Next(s, es[0]), es[1..]);
    }
  }

  /*** Exactly when a queue of writes settles right ***/

  function IssueAll(s: State, patches: seq<Prefs>): State {
    if patches == [] then s
    else Issue(IssueAll(s, patches[..|patches| - 1]), patches[|patches| - 1])
  }

  function SettleAll(s: State, oks: seq<bool>): State
    requires |oks| <= |s.queue|
    decreases |oks|
  {
    if oks == [] then s else SettleAll(Settle(s, oks[0]), oks[1..])
  }

  // What shows at `k` after some patches, from `v`.
  function Shown(v: Value, patches: seq<Prefs>, k: Key): Value {
    if patches == [] then v
    else
      var n := |patches| - 1;
      if k in patches[n] then patches[n][k] else Shown(v, patches[..n], k)
  }

  // Each save changes what the page showed at that moment.
  ghost predicate Toggles(s: State, patches: seq<Prefs>) {
    forall n, k :: 0 <= n < |patches| && k in patches[n] ==> patches[n][k] != Shown(View(s.cache, k), patches[..n], k)
  }

  function Patches(queue: seq<Write>): seq<Prefs> {
    Map((w: Write) => w.patch, queue)
  }

  lemma {:induction false} QueueLength(s: State, patches: seq<Prefs>)
    requires s.queue == []
    ensures IssueAll(s, patches).server == s.server && |IssueAll(s, patches).queue| == |patches|
  {
    if patches != [] {
      QueueLength(s, patches[..|patches| - 1]);
    }
  }

  // Each save remembers the cache it was made on.
  lemma {:induction false} QueueOfAll(s: State, patches: seq<Prefs>, n: nat)
    requires s.queue == [] && n < |patches|
    ensures |IssueAll(s, patches).queue| == |patches|
    ensures IssueAll(s, patches).queue[n] == Write(patches[n], IssueAll(s, patches[..n]).cache)
  {
    var rest := patches[..|patches| - 1];
    QueueLength(s, rest);
    if n < |rest| {
      QueueOfAll(s, rest, n);
      assert rest[..n] == patches[..n];
    }
  }

  lemma {:induction false} CacheOfAll(s: State, patches: seq<Prefs>)
    ensures forall k :: View(IssueAll(s, patches).cache, k) == Shown(View(s.cache, k), patches, k)
  {
    if patches != [] {
      var n := |patches| - 1;
      var before := IssueAll(s, patches[..n]);
      CacheOfAll(s, patches[..n]);
      Shows(before.cache, patches[n], before.cache);
    }
  }

  lemma IssueAllSpec(s: State, patches: seq<Prefs>)
    requires s.queue == []
    ensures var t := IssueAll(s, patches);
      && t.server == s.server && |t.queue| == |patches|
      && (forall n :: 0 <= n < |patches| ==> t.queue[n].patch == patches[n])
      && (forall n, k :: 0 <= n < |patches| ==> View(t.queue[n].previous, k) == Shown(View(s.cache, k), patches[..n], k))
      && (forall k :: View(t.cache, k) == Shown(View(s.cache, k), patches, k))
  {
    QueueLength(s, patches);
    CacheOfAll(s, patches);
    forall n | 0 <= n < |patches|
      ensures IssueAll(s, patches).queue[n] == Write(patches[n], IssueAll(s, patches[..n]).cache)
    {
      QueueOfAll(s, patches, n);
    }
    forall n, k | 0 <= n < |patches|
      ensures View(IssueAll(s, patches[..n]).cache, k) == Shown(View(s.cache, k), patches[..n], k)
    {
      CacheOfAll(s, patches[..n]);
    }
  }

  lemma {:induction false} ShownSplit(v: Value, a: seq<Prefs>, b: seq<Prefs>, k: Key)
    ensures Shown(v, a + b, k) == Shown(Shown(v, a, k), b, k)
  {
    if b == [] {
      assert a + b == a;
    } else {
      assert (a + b)[..|a + b| - 1] == a + b[..|b| - 1];
      ShownSplit(v, a, b[..|b| - 1], k);
    }
  }

  lemma {:induction false} ShownUntouched(v: Value, patches: seq<Prefs>, k: Key)
    requires forall n :: 0 <= n < |patches| ==> k !in patches[n]
    ensures Shown(v, patches, k) == v
  {
    if patches != [] {
      ShownUntouched(v, patches[..|patches| - 1], k);
    }
  }

  // What settling one write does at one key.
  lemma SettleAt(s: State, ok: bool, k: Key)
    requires s.queue != []
    ensures var w, t := s.queue[0], Settle(s, ok);
      && t.queue == s.queue[1..]
      && View(t.cache, k) == (if !ok && Stands(s.cache, w.patch, k) then View(w.previous, k) else View(s.cache, k))
      && View(t.server, k) == (if ok && k in w.patch then w.patch[k] else View(s.server, k))
  {
    Shows(s.server, s.queue[0].patch, s.queue[0].previous);
    Shows(s.cache, s.queue[0].patch, s.queue[0].previous);
  }

  lemma PatchesSplit(w: Write, rest: seq<Write>)
    ensures Patches([w] + rest) == [w.patch] + Patches(rest)
  {
  }

  // While every write that touches `k` succeeds, the cache keeps its value at `k` and the
  // server follows the patches.
  lemma {:induction false} SuccessesAt(s: State, oks: seq<bool>, k: Key)
    requires |oks| <= |s.queue|
    requires forall n :: 0 <= n < |oks| && !oks[n] ==> k !in s.queue[n].patch
    ensures var t := SettleAll(s, oks);
      && t.queue == s.queue[|oks|..]
      && View(t.cache, k) == View(s.cache, k)
      && View(t.server, k) == Shown(View(s.server, k), Patches(s.queue[..|oks|]), k)
    decreases |oks|
  {
    if oks == [] {
      assert s.queue[0..] == s.queue;
    } else {
      var n, w, t := |oks|, s.queue[0], Settle(s, oks[0]);
      SettleAt(s, oks[0], k);
      forall m | 0 <= m < n - 1 && !oks[1..][m] ensures k !in t.queue[m].patch {
        assert oks[m + 1] == oks[1..][m] && t.queue[m] == s.queue[m + 1];
      }
      SuccessesAt(t, oks[1..], k);
      FirstPatch(View(s.server, k), s.queue, n, k);
      assert t.queue[n - 1..] == s.queue[n..];
    }
  }

  // The first patch is shown first.
  lemma FirstPatch(v: Value, queue: seq<Write>, n: nat, k: Key)
    requires 0 < n <= |queue|
    ensures var w := queue[0];
      Shown(v, Patches(queue[..n]), k) == Shown(if k in w.patch then w.patch[k] else v, Patches(queue[1..][..n - 1]), k)
  {
    var w, rest := queue[0], queue[1..][..n - 1];
    assert queue[..n] == [w] + rest;
    PatchesSplit(w, rest);
    ShownSplit(v, [w.patch], Patches(rest), k);
    assert [w.patch][..0] == [];
  }

  lemma {:induction false} SettleAllSplit(s: State, a: seq<bool>, b: seq<bool>)
    requires |a| + |b| <= |s.queue|
    ensures |SettleAll(s, a).queue| == |s.queue| - |a|
    ensures SettleAll(s, a + b) == SettleAll(SettleAll(s, a), b)
    decreases |a|
  {
    if a == [] {
      assert a + b == b;
    } else {
      assert (a + b)[1..] == a[1..] + b;
      SettleAllSplit(Settle(s, a[0]), a[1..], b);
    }
  }

  function Successes(n: nat): seq<bool> {
    seq(n, _ => true)
  }

  // All writes succeed but the two at `i` and `j`.
  function TwoFail(n: nat, i: nat, j: nat): seq<bool>
    requires i < j < n
  {
    Successes(i) + [false] + Successes(j - i - 1) + [false] + Successes(n - j - 1)
  }

  lemma TwoFailSplit(n: nat, i: nat, j: nat)
    requires i < j < n
    ensures TwoFail(n, i, j) == Successes(i) + (([false] + Successes(j - i - 1)) + ([false] + Successes(n - j - 1)))
  {
  }

  lemma SettleTwoFail(s: State, n: nat, i: nat, j: nat)
    requires i < j < n && |s.queue| == n
    ensures |SettleAll(s, Successes(i)).queue| == n - i
    ensures SettleAll(s, TwoFail(n, i, j))
         == SettleAll(SettleAll(s, Successes(i)), ([false] + Successes(j - i - 1)) + ([false] + Successes(n - j - 1)))
  {
    TwoFailSplit(n, i, j);
    SettleAllSplit(s, Successes(i), ([false] + Successes(j - i - 1)) + ([false] + Successes(n - j - 1)));
  }

  // A failed write that no longer stands at `k` is passed over, and so are the writes after it
  // that leave `k` alone and succeed.
  lemma FailurePassedOver(s: State, gap: nat, k: Key)
    requires gap < |s.queue|
    requires k in s.queue[0].patch && s.queue[0].patch[k] != View(s.cache, k)
    requires forall m :: 0 < m <= gap ==> k !in s.queue[m].patch
    ensures var c := SettleAll(s, [false] + Successes(gap));
      c.queue == s.queue[gap + 1..] && View(c.cache, k) == View(s.cache, k) && View(c.server, k) == View(s.server, k)
  {
    SettleAllSplit(s, [false], Successes(gap));
    var b := SettleAll(s, [false]);
    assert b == Settle(s, false);
    SettleAt(s, false, k);
    SuccessesAt(b, Successes(gap), k);
    ShownUntouched(View(b.server, k), Patches(b.queue[..gap]), k);
    assert b.queue[gap..] == s.queue[gap + 1..];
  }

  // A failed write that stands at `k` is undone; nothing after it touches `k`.
  lemma FailureUndone(s: State, rest: nat, k: Key)
    requires |s.queue| == rest + 1
    requires k in s.queue[0].patch && s.queue[0].patch[k] == View(s.cache, k)
    requires forall m :: 0 < m <= rest ==> k !in s.queue[m].patch
    ensures var u := SettleAll(s, [false] + Successes(rest));
      View(u.cache, k) == View(s.queue[0].previous, k) && View(u.server, k) == View(s.server, k)
  {
    SettleAllSplit(s, [false], Successes(rest));
    var d := SettleAll(s, [false]);
    assert d == Settle(s, false);
    SettleAt(s, false, k);
    SuccessesAt(d, Successes(rest), k);
    ShownUntouched(View(d.server, k), Patches(d.queue[..rest]), k);
  }

  // From a state with one write at `k` first and the next one after `gap` others, both fail.
  lemma TwoFailuresAt(s: State, gap: nat, rest: nat, k: Key)
    requires |s.queue| == gap + rest + 2
    requires var w, x := s.queue[0], s.queue[gap + 1];
      k in w.patch && k in x.patch && w.patch[k] != View(s.cache, k) && x.patch[k] == View(s.cache, k)
    requires forall m :: 0 < m < |s.queue| && m != gap + 1 ==> k !in s.queue[m].patch
    ensures var u := SettleAll(s, ([false] + Successes(gap)) + ([false] + Successes(rest)));
      View(u.cache, k) == View(s.queue[gap + 1].previous, k) && View(u.server, k) == View(s.server, k)
  {
    SettleAllSplit(s, [false] + Successes(gap), [false] + Successes(rest));
    FailurePassedOver(s, gap, k);
    FailureUndone(SettleAll(s, [false] + Successes(gap)), rest, k);
  }

  // What the page showed along the way, when `i` and `j` are the last two saves of `k`.
  lemma ShownAtLastTwo(v: Value, patches: seq<Prefs>, i: nat, j: nat, k: Key)
    requires i < j < |patches| && k in patches[i] && k in patches[j]
    requires forall m :: i < m < |patches| && m != j ==> k !in patches[m]
    ensures Shown(v, patches, k) == patches[j][k]
    ensures Shown(v, patches[..j], k) == patches[i][k]
  {
    assert patches == patches[..j + 1] + patches[j + 1..];
    ShownSplit(v, patches[..j + 1], patches[j + 1..], k);
    ShownUntouched(patches[j][k], patches[j + 1..], k);
    assert patches[..j + 1][..j] == patches[..j];
    assert patches[..j] == patches[..i + 1] + patches[i + 1..j];
    assert patches[..i + 1][..i] == patches[..i];
    ShownSplit(v, patches[..i + 1], patches[i + 1..j], k);
    ShownUntouched(patches[i][k], patches[i + 1..j], k);
  }

  // Just before the two fail: the first no longer stands, the second does and remembers the
  // first, and the server has what was there before either.
  ghost predicate Ready(a: State, patches: seq<Prefs>, i: nat, j: nat, k: Key)
    requires i < j < |patches| && k in patches[i] && k in patches[j]
  {
    && |a.queue| == |patches| - i
    && (forall m :: 0 <= m < |a.queue| ==> a.queue[m].patch == patches[i + m])
    && patches[i][k] != View(a.cache, k) && patches[j][k] == View(a.cache, k)
    && View(a.queue[j - i].previous, k) == patches[i][k] && View(a.server, k) != patches[i][k]
  }

  lemma LastTwoReady(s: State, patches: seq<Prefs>, i: nat, j: nat, k: Key)
    requires s.queue == [] && SameView(s.cache, s.server) && Toggles(s, patches)
    requires i < j < |patches| && k in patches[i] && k in patches[j]
    requires forall m :: i < m < |patches| && m != j ==> k !in patches[m]
    ensures |IssueAll(s, patches).queue| == |patches|
    ensures Ready(SettleAll(IssueAll(s, patches), Successes(i)), patches, i, j, k)
  {
    FirstSucceed(s, patches, i, k);
    ShownAtLastTwo(View(s.cache, k), patches, i, j, k);
    assert patches[i][k] != Shown(View(s.cache, k), patches[..i], k);
    assert patches[j][k] != Shown(View(s.cache, k), patches[..j], k);
  }

  lemma ReadyFails(a: State, patches: seq<Prefs>, i: nat, j: nat, k: Key)
    requires i < j < |patches| && k in patches[i] && k in patches[j]
    requires forall m :: i < m < |patches| && m != j ==> k !in patches[m]
    requires Ready(a, patches, i, j, k)
    ensures |a.queue| == |patches| - i
    ensures var u := SettleAll(a, ([false] + Successes(j - i - 1)) + ([false] + Successes(|patches| - j - 1)));
      View(u.cache, k) != View(u.server, k)
  {
    TwoFailuresAt(a, j - i - 1, |patches| - j - 1, k);
  }

  // If the last two saves of a key both fail and the rest succeed, the page is left showing
  // the first of the two, which the server never took.
  lemma LastTwoFail(s: State, patches: seq<Prefs>, i: nat, j: nat, k: Key)
    requires s.queue == [] && SameView(s.cache, s.server) && Toggles(s, patches)
    requires i < j < |patches| && k in patches[i] && k in patches[j]
    requires forall m :: i < m < |patches| && m != j ==> k !in patches[m]
    ensures |IssueAll(s, patches).queue| == |patches|
    ensures var u := SettleAll(IssueAll(s, patches), TwoFail(|patches|, i, j));
      View(u.cache, k) != View(u.server, k)
  {
    LastTwoReady(s, patches, i, j, k);
    SettleTwoFail(IssueAll(s, patches), |patches|, i, j);
    ReadyFails(SettleAll(IssueAll(s, patches), Successes(i)), patches, i, j, k);
  }

  // Muting a group and unmuting it before the first answer, both saves failing: the page shows it
  // muted, the server has it unmuted.
  lemma MuteUnmuteBothFail(k: Key)
    ensures var s := IssueAll(State(map[], map[], []), [map[k := Muted], map[k := All]]);
      && |s.queue| == 2
      && View(SettleAll(s, [false, false]).cache, k) == Muted && View(SettleAll(s, [false, false]).server, k) == All
  {
    var s0, patches := State(map[], map[], []), [map[k := Muted], map[k := All]];
    assert patches[..1] == [map[k := Muted]] && patches[..0] == [] && patches[..1][..0] == [];
    assert Shown(All, patches[..0], k) == All && Shown(All, patches[..1], k) == Muted;
    IssueAllSpec(s0, patches);
    var s := IssueAll(s0, patches);
    var t := Settle(s, false);
    SettleAt(s, false, k);
    SettleAt(t, false, k);
    assert Shown(All, patches, k) == All;
    assert [false, false][1..] == [false] && [false][1..] == [];
    assert SettleAll(s, [false, false]) == SettleAll(t, [false]) == Settle(t, false);
  }

  // The first `i` of the saves succeeded, the rest is outstanding.
  lemma FirstSucceed(s: State, patches: seq<Prefs>, i: nat, k: Key)
    requires s.queue == [] && SameView(s.cache, s.server) && i <= |patches|
    ensures |IssueAll(s, patches).queue| == |patches|
    ensures var a := SettleAll(IssueAll(s, patches), Successes(i));
      && |a.queue| == |patches| - i
      && (forall m :: 0 <= m < |a.queue| ==>
            a.queue[m].patch == patches[i + m] && View(a.queue[m].previous, k) == Shown(View(s.cache, k), patches[..i + m], k))
      && View(a.cache, k) == Shown(View(s.cache, k), patches, k)
      && View(a.server, k) == Shown(View(s.cache, k), patches[..i], k)
  {
    var t := IssueAll(s, patches);
    IssueAllSpec(s, patches);
    SuccessesAt(t, Successes(i), k);
    assert Patches(t.queue[..i]) == patches[..i];
    assert View(s.server, k) == View(s.cache, k);
  }

  ghost predicate Disjoint(patches: seq<Prefs>) {
    forall i, j :: 0 <= i < j < |patches| ==> patches[i].Keys !! patches[j].Keys
  }

  lemma {:induction false} DisjointOverlay(s: State, patches: seq<Prefs>)
    requires s.queue == [] && SameView(s.cache, s.server) && Disjoint(patches)
    ensures Overlay(IssueAll(s, patches))
  {
    if patches != [] {
      var n := |patches| - 1;
      DisjointOverlay(s, patches[..n]);
      IssueAllSpec(s, patches[..n]);
      IssueKeepsOverlay(IssueAll(s, patches[..n]), patches[n]);
    }
  }

  lemma {:induction false} SettleAllKeepsOverlay(s: State, oks: seq<bool>)
    requires Overlay(s) && |oks| == |s.queue|
    ensures SameView(SettleAll(s, oks).cache, SettleAll(s, oks).server)
    decreases |oks|
  {
    if oks != [] {
      SettleKeepsOverlay(s, oks[0]);
      SettleAllKeepsOverlay(Settle(s, oks[0]), oks[1..]);
    }
  }

  // The last two of the patches that touch `k`.
  lemma {:induction false} LastTwo(patches: seq<Prefs>, i: nat, j: nat, k: Key) returns (i': nat, j': nat)
    requires i < j < |patches| && k in patches[i] && k in patches[j]
    ensures i' < j' < |patches| && k in patches[i'] && k in patches[j']
    ensures forall m :: i' < m < |patches| && m != j' ==> k !in patches[m]
    decreases 2 * |patches| - i - j
  {
    if m :| i < m < |patches| && m != j && k in patches[m] {
      if m < j {
        i', j' := LastTwo(patches, m, j, k);
      } else {
        i', j' := LastTwo(patches, j, m, k);
      }
    } else {
      i', j' := i, j;
    }
  }

  // Whatever becomes of the writes outstanding, the page shows what the server has in the end.
  ghost predicate SettlesRight(t: State) {
    forall oks :: |oks| == |t.queue| ==> SameView(SettleAll(t, oks).cache, SettleAll(t, oks).server)
  }

  lemma DisjointSettlesRight(s: State, patches: seq<Prefs>)
    requires s.queue == [] && SameView(s.cache, s.server) && Disjoint(patches)
    ensures SettlesRight(IssueAll(s, patches))
  {
    var t := IssueAll(s, patches);
    DisjointOverlay(s, patches);
    forall oks | |oks| == |t.queue| ensures SameView(SettleAll(t, oks).cache, SettleAll(t, oks).server) {
      SettleAllKeepsOverlay(t, oks);
    }
  }

  lemma OverlapSettlesWrong(s: State, patches: seq<Prefs>)
    requires s.queue == [] && SameView(s.cache, s.server) && Toggles(s, patches) && !Disjoint(patches)
    ensures !SettlesRight(IssueAll(s, patches))
  {
    var i, j :| 0 <= i < j < |patches| && !(patches[i].Keys !! patches[j].Keys);
    var k :| k in patches[i] && k in patches[j];
    var i', j' := LastTwo(patches, i, j, k);
    LastTwoFail(s, patches, i', j', k);
    var t, oks := IssueAll(s, patches), TwoFail(|patches|, i', j');
    assert |oks| == |t.queue| && !SameView(SettleAll(t, oks).cache, SettleAll(t, oks).server);
  }

  // A queue of saves settles right under every outcome exactly when no key is saved twice.
  lemma QueueSettlesRightIff(s: State, patches: seq<Prefs>)
    requires s.queue == [] && SameView(s.cache, s.server) && Toggles(s, patches)
    ensures |IssueAll(s, patches).queue| == |patches|
    ensures Disjoint(patches) <==> SettlesRight(IssueAll(s, patches))
  {
    IssueAllSpec(s, patches);
    if Disjoint(patches) {
      DisjointSettlesRight(s, patches);
    } else {
      OverlapSettlesWrong(s, patches);
    }
  }
}
