/** Durable draft restores: offered from fetched rows, handed to the composer, recorded, consumed. */
module DraftRestores {
  import opened Basics

  // One client and one session. Ids name server rows and are never reused.
  datatype State = State(
    rows: set<string>,              // rows on the server
    created: set<string>,           // ids of all rows ever created
    taken: set<string>,             // ids another client of the user consumed
    reading: Option<set<string>>,   // a fetch answered by the server and not delivered yet
    cached: set<string>,            // the fetched list in the query cache
    ledger: set<string>,            // restores recorded as applied; persisted
    slot: Option<string>,           // the restore offered to the composer
    inFlight: set<string>,          // consume requests not settled yet
    answered: set<string>,          // those of them the server has executed
    handed: seq<string>)            // restores the composer adopted, in order

  const START := State({}, {}, {}, None, {}, {}, None, {}, {}, [])

  datatype Event =
    | Created(id: string)
    | TakenElsewhere(id: string)
    | FetchRead
    | FetchDelivered
    | Offered(id: string)
    | Withdrawn
    | Applied
    | Reconsumed(id: string)
    | Executed(id: string)
    | Acknowledged(id: string)
    | Lost(id: string)
    | Reload

  predicate Enabled(s: State, e: Event) {
    match e
    case Created(id) => id !in s.created
    case TakenElsewhere(id) => id in s.rows
    case FetchRead => true
    case FetchDelivered => s.reading.Some?
    case Offered(id) => s.slot.None? && id in s.cached && id !in s.ledger
    case Withdrawn => true
    case Applied => s.slot.Some?
    case Reconsumed(id) => id in s.cached && id in s.ledger && id !in s.inFlight
    case Executed(id) => id in s.inFlight
    case Acknowledged(id) => id in s.answered
    case Lost(id) => id in s.inFlight
    case Reload => true
  }

  // Sending a consume drops the row from the cached list at once.
  function Consume(s: State, id: string): State {
    s.(cached := s.cached - {id}, inFlight := s.inFlight + {id}, answered := s.answered - {id})
  }

  function Next(s: State, e: Event): State
    requires Enabled(s, e)
  {
    match e
    case Created(id) => s.(rows := s.rows + {id}, created := s.created + {id})
    case TakenElsewhere(id) => s.(rows := s.rows - {id}, taken := s.taken + {id})
    case FetchRead => s.(reading := Some(s.rows))
    case FetchDelivered => s.(cached := s.reading.value, reading := None)
    case Offered(id) => s.(slot := Some(id))
    case Withdrawn => s.(slot := None)
    // The composer adopts the draft: the ledger is written before the request goes out.
    case Applied =>
      var id := s.slot.value;
      Consume(s.(ledger := s.ledger + {id}, handed := s.handed + [id], slot := None), id)
    case Reconsumed(id) => Consume(s, id)
    case Executed(id) => s.(rows := s.rows - {id}, answered := s.answered + {id})
    // The row is confirmed gone: the ledger forgets it.
    case Acknowledged(id) =>
      s.(ledger := s.ledger - {id}, inFlight := s.inFlight - {id}, answered := s.answered - {id})
    case Lost(id) => s.(inFlight := s.inFlight - {id}, answered := s.answered - {id})
    // Only the ledger is persisted.
    case Reload => s.(reading := None, cached := {}, slot := None, inFlight := {}, answered := {})
  }

  ghost predicate IsRun(s: State, es: seq<Event>)
    decreases |es|
  {
    es == [] || (Enabled(s, es[0]) && IsRun(Next(s, es[0]), es[1..]))
  }

  function After(s: State, es: seq<Event>): State
    requires IsRun(s, es)
    decreases |es|
  {
    if es == [] then s else After(Next(s, es[0]), es[1..])
  }

  // The client has no copy of the row to offer again, and no fetch will deliver one.
  predicate Gone(s: State, id: string) {
    id !in s.rows && id !in s.cached && (s.reading.Some? ==> id !in s.reading.value)
  }

  // Every restore handed over is still recorded, or nowhere to be offered from.
  ghost predicate Safe(s: State) {
    && Distinct(s.handed)
    && (forall id :: id in s.handed ==> id in s.ledger || Gone(s, id))
    && (s.slot.Some? ==> s.slot.value !in s.handed)
    && (forall id :: id in s.ledger + s.inFlight ==> id in s.handed)
    && s.answered <= s.inFlight && s.answered !! s.rows
    && s.rows <= s.created && s.cached <= s.created && (s.reading.Some? ==> s.reading.value <= s.created)
    && (s.slot.Some? ==> s.slot.value in s.created) && (forall id :: id in s.handed ==> id in s.created)
  }

  // No row is lost: it is on the server until some client has it.
  ghost predicate Lossless(s: State) {
    forall id :: id in s.created ==> id in s.rows || id in s.handed || id in s.taken
  }

  // Acknowledgements that find no copy of the row left in the client.
  predicate Quiet(s: State, e: Event) {
    e.Acknowledged? ==> Gone(s, e.id)
  }

  lemma StepKeepsSafe(s: State, e: Event)
    requires Safe(s) && Enabled(s, e) && Quiet(s, e)
    ensures Safe(Next(s, e))
  {
  }

  lemma StepKeepsLossless(s: State, e: Event)
    requires Safe(s) && Lossless(s) && Enabled(s, e)
    ensures Lossless(Next(s, e))
  {
  }

  ghost predicate IsQuietRun(s: State, es: seq<Event>)
    decreases |es|
  {
    es == [] || (Enabled(s, es[0]) && Quiet(s, es[0]) && IsQuietRun(Next(s, es[0]), es[1..]))
  }

  // Over any run with lost requests, lost answers, reloads and rival clients in which every
  // acknowledgement finds no copy of its row left, each restore is handed over at most once
  // and no row disappears unseen.
  lemma {:induction false} QuietRunsHandOverOnce(s: State, es: seq<Event>)
    requires Safe(s) && Lossless(s) && IsQuietRun(s, es)
    ensures IsRun(s, es) && Safe(After(s, es)) && Lossless(After(s, es)) && Distinct(After(s, es).handed)
    decreases |es|
  {
    if es != [] {
      StepKeepsSafe(s, es[0]);
      StepKeepsLossless(s, es[0]);
      QuietRunsHandOverOnce(Next(s, es[0]), es[1..]);
    }
  }

  // In particular from a fresh client.
  lemma FreshClientHandsOverOnce(es: seq<Event>)
    requires IsQuietRun(START, es)
    ensures Safe(START) && Lossless(START)
    ensures IsRun(START, es) && Safe(After(START, es)) && Lossless(After(START, es)) && Distinct(After(START, es).handed)
  {
    QuietRunsHandOverOnce(START, es);
  }

  // The way back to a second hand-over from a state that offers a restore again.
  function AgainFrom(s: State, id: string): seq<Event> {
    if id in s.cached then [Withdrawn, Offered(id), Applied] else [FetchDelivered, Withdrawn, Offered(id), Applied]
  }

  ghost predicate HandsOverTwice(s: State, es: seq<Event>) {
    IsRun(s, es) && !Distinct(After(s, es).handed)
  }

  // An acknowledgement is safe exactly when it finds no copy of the row left: otherwise the
  // ledger forgets a row the client still holds, and the composer may adopt it a second time.
  lemma AcknowledgementIsSafeIff(s: State, id: string)
    requires Safe(s) && Enabled(s, Acknowledged(id))
    ensures Gone(s, id) <==> Safe(Next(s, Acknowledged(id)))
    ensures !Gone(s, id) ==> HandsOverTwice(Next(s, Acknowledged(id)), AgainFrom(s, id))
  {
    if Gone(s, id) {
      StepKeepsSafe(s, Acknowledged(id));
    } else {
      assert id in s.handed;
      var t := Next(s, Acknowledged(id));
      assert id !in t.ledger && id !in t.rows;
      var u := if id in s.cached then t else Next(t, FetchDelivered);
      OfferAgain(u, id);
      if id !in s.cached {
        assert AgainFrom(s, id)[1..] == [Withdrawn, Offered(id), Applied];
        assert AgainFrom(s, id)[0] == FetchDelivered;
      }
    }
  }

  lemma OfferAgain(s: State, id: string)
    requires id in s.cached && id !in s.ledger && id in s.handed
    ensures HandsOverTwice(s, [Withdrawn, Offered(id), Applied])
  {
    var es := [Withdrawn, Offered(id), Applied];
    var a := Next(s, Withdrawn);
    var b := Next(a, Offered(id));
    var c := Next(b, Applied);
    assert es[1..] == [Offered(id), Applied] && es[1..][1..] == [Applied] && es[1..][1..][1..] == [];
    assert IsRun(c, []) && IsRun(b, [Applied]) && IsRun(a, [Offered(id), Applied]) && IsRun(s, es);
    assert After(c, []) == c && After(b, [Applied]) == c && After(a, [Offered(id), Applied]) == c;
    assert After(s, es) == c;
    var i :| 0 <= i < |s.handed| && s.handed[i] == id;
    assert c.handed[i] == id && c.handed[|s.handed|] == id;
  }

  // The row of `id` exists and the composer has just adopted it.
  function JustAdopted(id: string): State {
    State({id}, {id}, {}, None, {}, {id}, None, {id}, {}, [id])
  }

  function RefetchThenAck(id: string): seq<Event> {
    [FetchRead, FetchDelivered, Executed(id), Acknowledged(id), Withdrawn, Offered(id), Applied]
  }

  lemma RefetchDuringConsume(id: string)
    ensures HandsOverTwice(JustAdopted(id), RefetchThenAck(id))
  {
    var es := RefetchThenAck(id);
    var s0 := JustAdopted(id);
    var s1 := s0.(reading := Some({id}));
    var s2 := s0.(cached := {id});
    var s3 := s2.(rows := {}, answered := {id});
    var s4 := s2.(rows := {}, ledger := {}, inFlight := {});
    assert Next(s0, FetchRead) == s1 && Next(s1, FetchDelivered) == s2;
    assert Next(s2, Executed(id)) == s3 && Next(s3, Acknowledged(id)) == s4;
    OfferAgain(s4, id);
    assert es[4..] == [Withdrawn, Offered(id), Applied];
    Prepend(s3, es, 3);
    Prepend(s2, es, 2);
    Prepend(s1, es, 1);
    Prepend(s0, es, 0);
    assert es[0..] == es;
  }

  // It does happen: a fetch that reads the row after the composer adopted it and before the
  // server executed the consume leaves the row in the cache when the ledger forgets it.
  lemma RefetchDuringConsumeReoffers(id: string)
    ensures HandsOverTwice(START, [Created(id), FetchRead, FetchDelivered, Offered(id), Applied] + RefetchThenAck(id))
  {
    var es := [Created(id), FetchRead, FetchDelivered, Offered(id), Applied] + RefetchThenAck(id);
    var s1 := START.(rows := {id}, created := {id});
    var s2 := s1.(reading := Some({id}));
    var s3 := s1.(cached := {id});
    var s4 := s3.(slot := Some(id));
    assert Next(START, Created(id)) == s1 && Next(s1, FetchRead) == s2 && Next(s2, FetchDelivered) == s3;
    assert Next(s3, Offered(id)) == s4 && Next(s4, Applied) == JustAdopted(id);
    RefetchDuringConsume(id);
    assert es[5..] == RefetchThenAck(id);
    Prepend(s4, es, 4);
    Prepend(s3, es, 3);
    Prepend(s2, es, 2);
    Prepend(s1, es, 1);
    Prepend(START, es, 0);
    assert es[0..] == es;
  }

  lemma Prepend(s: State, es: seq<Event>, k: nat)
    requires k < |es| && Enabled(s, es[k]) && HandsOverTwice(Next(s, es[k]), es[k + 1..])
    ensures HandsOverTwice(s, es[k..])
  {
    assert es[k..][1..] == es[k + 1..];
  }

  /*** What is always still possible ***/

  lemma RunCons(s: State, e: Event, es: seq<Event>)
    requires Enabled(s, e) && IsRun(Next(s, e), es)
    ensures IsRun(s, [e] + es) && After(s, [e] + es) == After(Next(s, e), es)
  {
    assert ([e] + es)[1..] == es;
  }

  lemma RunOf(s: State, es: seq<Event>, states: seq<State>)
    requires |states| == |es| + 1 && states[0] == s
    requires forall i :: 0 <= i < |es| ==> Enabled(states[i], es[i]) && Next(states[i], es[i]) == states[i + 1]
    ensures IsRun(s, es) && After(s, es) == states[|es|]
    decreases |es|
  {
    if es != [] {
      forall i | 0 <= i < |es| - 1
        ensures Enabled(states[1..][i], es[1..][i]) && Next(states[1..][i], es[1..][i]) == states[1..][i + 1]
      {
        assert Enabled(states[i + 1], es[i + 1]) && Next(states[i + 1], es[i + 1]) == states[i + 2];
      }
      RunOf(states[1], es[1..], states[1..]);
      RunCons(s, es[0], es[1..]);
      assert es == [es[0]] + es[1..];
    }
  }

  // A row nobody has been handed can be: fetched, offered and adopted.
  lemma RowCanBeHandedOver(s: State, id: string)
    requires Safe(s) && id in s.rows && id !in s.handed
    ensures var es := [Withdrawn, FetchRead, FetchDelivered, Offered(id), Applied];
      IsRun(s, es) && After(s, es).handed == s.handed + [id] && id in After(s, es).ledger
  {
    var a := Next(s, Withdrawn);
    var b := Next(a, FetchRead);
    var c := Next(b, FetchDelivered);
    var d := Next(c, Offered(id));
    RunOf(s, [Withdrawn, FetchRead, FetchDelivered, Offered(id), Applied], [s, a, b, c, d, Next(d, Applied)]);
  }

  // A request that got lost, if one is out, and a new one sent on the next fetch.
  function ConsumeAgain(s: State, id: string): seq<Event> {
    (if id in s.inFlight then [Lost(id)] else []) + [FetchRead, FetchDelivered, Reconsumed(id), Executed(id), Acknowledged(id)]
  }

  lemma ConsumedFrom(a: State, id: string)
    requires Safe(a) && id in a.rows && id in a.handed && id !in a.inFlight
    ensures var es := [FetchRead, FetchDelivered, Reconsumed(id), Executed(id), Acknowledged(id)];
      && IsRun(a, es)
      && var t := After(a, es); Safe(t) && Gone(t, id) && id !in t.ledger && t.handed == a.handed
  {
    var b := Next(a, FetchRead);
    var c := Next(b, FetchDelivered);
    var d := Next(c, Reconsumed(id));
    var e := Next(d, Executed(id));
    StepKeepsSafe(a, FetchRead);
    StepKeepsSafe(b, FetchDelivered);
    StepKeepsSafe(c, Reconsumed(id));
    StepKeepsSafe(d, Executed(id));
    StepKeepsSafe(e, Acknowledged(id));
    RunOf(a, [FetchRead, FetchDelivered, Reconsumed(id), Executed(id), Acknowledged(id)], [a, b, c, d, e, Next(e, Acknowledged(id))]);
  }

  // A row that outlived its hand-over can be consumed: it leaves the server, the cache and the
  // ledger, and is not handed over again.
  lemma HandedRowCanBeConsumed(s: State, id: string)
    requires Safe(s) && id in s.rows && id in s.handed
    ensures var es := ConsumeAgain(s, id);
      && IsRun(s, es)
      && var t := After(s, es); Safe(t) && Gone(t, id) && id !in t.ledger && t.handed == s.handed
  {
    var tail := [FetchRead, FetchDelivered, Reconsumed(id), Executed(id), Acknowledged(id)];
    if id in s.inFlight {
      var a := Next(s, Lost(id));
      StepKeepsSafe(s, Lost(id));
      ConsumedFrom(a, id);
      RunCons(s, Lost(id), tail);
    } else {
      ConsumedFrom(s, id);
      assert ConsumeAgain(s, id) == tail;
    }
  }
}
