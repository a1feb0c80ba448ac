/** The per-session exception fuse: bounded counters over a storage that may fail at any access. */
module ExceptionFuse {
  import opened Basics

  const SAMPLE_LIMIT := 3
  const MAX_FINGERPRINTS := 50

  // A stored count that is not a number is `None`.
  type Counts = map<string, Option<int>>

  // What the storage holds: nothing or something unreadable, or a blob of counts.
  datatype Blob = Unusable | Stored(counts: Counts)

  function ReadCounts(b: Blob): Counts {
    if b.Stored? then b.counts else map[]
  }

  function CurrentOf(counts: Counts, fingerprint: string): int {
    if fingerprint in counts then counts[fingerprint].GetOr(0) else 0
  }

  // How the storage behaves during one report.
  datatype Access = Access(available: bool, readable: bool, writable: bool)

  // The decision for one report, and the blob afterwards.
  function Report(b: Blob, fingerprint: Option<string>, a: Access): (bool, Blob) {
    if fingerprint.None? || !a.available || !a.readable then (false, b)
    else
      var f := fingerprint.value;
      var counts := ReadCounts(b);
      var current := CurrentOf(counts, f);
      if current >= SAMPLE_LIMIT then (true, b)
      else if current == 0 && |counts| >= MAX_FINGERPRINTS then (false, b)
      else (false, if a.writable then Stored(counts[f := Some(current + 1)]) else b)
  }

  class SessionFuse {
    var storage: Blob

    constructor ()
      ensures storage == Unusable
    {
      storage := Unusable;
    }

    method ShouldDropException(fingerprint: Option<string>, a: Access) returns (drop: bool)
      modifies this
      ensures (drop, storage) == Report(old(storage), fingerprint, a)
    {
      if fingerprint.None? {
        return false;
      }
      if !a.available || !a.readable {
        return false;
      }
      var f := fingerprint.value;
      var counts := ReadCounts(storage);
      var current := CurrentOf(counts, f);
      if current >= SAMPLE_LIMIT {
        return true;
      }
      if current == 0 && |counts| >= MAX_FINGERPRINTS {
        return false;
      }
      counts := counts[f := Some(current + 1)];
      if a.writable {
        storage := Stored(counts);
      }
      return false;
    }
  }

  /*** Runs ***/

  // A report, or the storage losing its contents.
  datatype Event = Reported(fingerprint: Option<string>, access: Access) | Cleared

  function After(es: seq<Event>): Blob {
    if es == [] then Unusable
    else
      var n := |es| - 1;
      match es[n]
      case Reported(f, a) => Report(After(es[..n]), f, a).1
      case Cleared => Unusable
  }

  // Whether the report at `n` was dropped.
  predicate Dropped(es: seq<Event>, n: nat)
    requires n < |es|
  {
    es[n].Reported? && Report(After(es[..n]), es[n].fingerprint, es[n].access).0
  }

  // The reports of `f` kept so far.
  function Kept(es: seq<Event>, f: string): nat {
    if es == [] then 0
    else
      var n := |es| - 1;
      Kept(es[..n], f) + (if es[n].Reported? && es[n].fingerprint == Some(f) && !Dropped(es, n) then 1 else 0)
  }

  // No count exceeds what was kept, nor the limit; at most fifty fingerprints are tracked.
  ghost predicate Bounded(es: seq<Event>) {
    var counts := ReadCounts(After(es));
    && |counts| <= 50
    && forall f :: f in counts ==> counts[f].Some? && 0 < counts[f].value <= 3 && counts[f].value <= Kept(es, f)
  }

  lemma {:induction false} RunsStayBounded(es: seq<Event>)
    ensures Bounded(es)
  {
    if es != [] {
      var n := |es| - 1;
      RunsStayBounded(es[..n]);
      var before, now := ReadCounts(After(es[..n])), ReadCounts(After(es));
      forall f ensures Kept(es, f) >= Kept(es[..n], f) {}
      if es[n].Reported? && es[n].fingerprint.Some? && now != before {
        var f := es[n].fingerprint.value;
        assert now == before[f := Some(CurrentOf(before, f) + 1)];
        assert f !in before ==> CurrentOf(before, f) == 0;
        assert now.Keys == before.Keys + {f};
        assert |now.Keys| == |before.Keys| + (if f in before then 0 else 1);
        assert Kept(es, f) == Kept(es[..n], f) + 1;
      }
    }
  }

  // Whatever fails and whenever, a report is dropped only after three kept reports of the same
  // fingerprint: the fuse never takes a first occurrence.
  lemma DroppedOnlyAfterThree(es: seq<Event>, n: nat)
    requires n < |es| && Dropped(es, n)
    ensures es[n].fingerprint.Some? && Kept(es[..n], es[n].fingerprint.value) >= 3
  {
    RunsStayBounded(es[..n]);
  }

  ghost predicate Reliable(es: seq<Event>) {
    forall n :: 0 <= n < |es| ==> es[n].Reported? && es[n].access == Access(true, true, true)
  }

  // The first fifty kinds of error reported.
  function FirstKinds(es: seq<Event>): set<string> {
    if es == [] then {}
    else
      var before, last := FirstKinds(es[..|es| - 1]), es[|es| - 1];
      if last.Reported? && last.fingerprint.Some? && |before| < 50 then before + {last.fingerprint.value} else before
  }

  function TimesReported(es: seq<Event>, f: string): nat {
    if es == [] then 0
    else
      TimesReported(es[..|es| - 1], f)
      + (if es[|es| - 1].Reported? && es[|es| - 1].fingerprint == Some(f) then 1 else 0)
  }

  // While there is room every kind reported is among them.
  lemma {:induction false} RoomForAll(es: seq<Event>, f: string)
    ensures |FirstKinds(es)| <= 50
    ensures f in FirstKinds(es) ==> TimesReported(es, f) > 0
    ensures |FirstKinds(es)| < 50 && TimesReported(es, f) > 0 ==> f in FirstKinds(es)
  {
    if es != [] {
      var n := |es| - 1;
      var before := FirstKinds(es[..n]);
      RoomForAll(es[..n], f);
      if es[n].Reported? && es[n].fingerprint.Some? {
        AddedSize(before, es[n].fingerprint.value);
      }
    }
  }

  lemma AddedSize(a: set<string>, x: string)
    ensures |a + {x}| == |a| + (if x in a then 0 else 1)
  {
    assert x in a ==> a + {x} == a;
  }

  // The counts hold the kinds among the first fifty, each with its reports up to the limit.
  lemma {:induction false} ReliableCounts(es: seq<Event>)
    requires Reliable(es)
    ensures ReadCounts(After(es)).Keys == FirstKinds(es)
    ensures forall f ::
              CurrentOf(ReadCounts(After(es)), f) ==
              if f !in FirstKinds(es) then 0 else if TimesReported(es, f) < 3 then TimesReported(es, f) else 3
  {
    if es != [] {
      var n := |es| - 1;
      ReliableCounts(es[..n]);
      var counts := ReadCounts(After(es[..n]));
      assert es[n].access == Access(true, true, true);
      assert |counts| == |counts.Keys|;
      if es[n].fingerprint.Some? {
        RoomForAll(es[..n], es[n].fingerprint.value);
      }
    }
  }

  // When storage works, exactly the reports from the fourth of a kind on are dropped, for the
  // first fifty kinds; later kinds are never dropped.
  lemma ReliableFuseIff(es: seq<Event>, n: nat)
    requires Reliable(es) && n < |es|
    ensures Dropped(es, n) <==>
      && es[n].fingerprint.Some? && es[n].fingerprint.value in FirstKinds(es[..n])
      && TimesReported(es[..n], es[n].fingerprint.value) >= 3
  {
    ReliableCounts(es[..n]);
  }
}
