/** Merging task-message batches into one list by sequence number. */
module TaskMessages {
  import opened Basics
  import opened StableSort

  datatype Message = Message(seqNo: int, body: string)

  predicate BySeq(a: Message, b: Message) {
    a.seqNo <= b.seqNo
  }

  predicate Knows(m: seq<Message>, n: int) {
    exists i :: 0 <= i < |m| && m[i].seqNo == n
  }

  function Unseen(existing: seq<Message>, incoming: seq<Message>): seq<Message> {
    Filter((m: Message) => !Knows(existing, m.seqNo), incoming)
  }

  // Existing entries win; `existing` itself when nothing is new.
  function MergeBySeq(existing: seq<Message>, incoming: seq<Message>): seq<Message> {
    if incoming == [] then existing
    else if Unseen(existing, incoming) == [] then existing
    else Sort(existing + Unseen(existing, incoming), BySeq)
  }

  // Strictly increasing sequence numbers: ordered, without duplicates.
  ghost predicate Increasing(m: seq<Message>) {
    m == [] || ((forall x :: x in m[1..] ==> m[0].seqNo < x.seqNo) && Increasing(m[1..]))
  }

  ghost predicate DistinctSeqs(m: seq<Message>) {
    m == [] || ((forall x :: x in m[1..] ==> m[0].seqNo != x.seqNo) && DistinctSeqs(m[1..]))
  }

  // Every message is the log's message of its number: batches never disagree.
  ghost predicate FromLog(m: seq<Message>, log: map<int, Message>) {
    forall x :: x in m ==> x.seqNo in log && log[x.seqNo] == x
  }

  lemma KnowsMember(m: seq<Message>, n: int)
    ensures Knows(m, n) <==> exists x :: x in m && x.seqNo == n
  {
    if x :| x in m && x.seqNo == n {
      var i :| 0 <= i < |m| && m[i] == x;
      assert m[i].seqNo == n;
    }
  }

  lemma {:induction false} InsertIncreasing(x: Message, t: seq<Message>)
    requires Increasing(t) && forall y :: y in t ==> y.seqNo != x.seqNo
    ensures Increasing(Insert(x, t, BySeq))
    ensures forall y :: y in Insert(x, t, BySeq) <==> (y == x || y in t)
  {
    if t == [] || BySeq(x, t[0]) {
      assert ([x] + t)[1..] == t;
      if t != [] {
        assert t == [t[0]] + t[1..];
      }
    } else {
      assert t == [t[0]] + t[1..];
      InsertIncreasing(x, t[1..]);
      assert ([t[0]] + Insert(x, t[1..], BySeq))[1..] == Insert(x, t[1..], BySeq);
    }
  }

  lemma {:induction false} SortIncreasing(s: seq<Message>)
    requires DistinctSeqs(s)
    ensures Increasing(Sort(s, BySeq))
    ensures forall y :: y in Sort(s, BySeq) <==> y in s
  {
    if s != [] {
      assert s == [s[0]] + s[1..];
      SortIncreasing(s[1..]);
      InsertIncreasing(s[0], Sort(s[1..], BySeq));
    }
  }

  lemma {:induction false} IncreasingIsDistinct(m: seq<Message>)
    requires Increasing(m)
    ensures DistinctSeqs(m)
  {
    if m != [] {
      IncreasingIsDistinct(m[1..]);
    }
  }

  lemma {:induction false} DistinctAppendSeqs(a: seq<Message>, b: seq<Message>)
    requires DistinctSeqs(a) && DistinctSeqs(b) && forall x, y :: x in a && y in b ==> x.seqNo != y.seqNo
    ensures DistinctSeqs(a + b)
  {
    if a == [] {
      assert a + b == b;
    } else {
      assert a == [a[0]] + a[1..];
      assert (a + b)[1..] == a[1..] + b;
      DistinctAppendSeqs(a[1..], b);
    }
  }

  lemma {:induction false} UnseenDistinct(existing: seq<Message>, incoming: seq<Message>)
    requires DistinctSeqs(incoming)
    ensures DistinctSeqs(Unseen(existing, incoming))
  {
    if incoming != [] {
      UnseenDistinct(existing, incoming[1..]);
      FilterMembers((m: Message) => !Knows(existing, m.seqNo), incoming[1..]);
      var rest := Unseen(existing, incoming[1..]);
      assert ([incoming[0]] + rest)[1..] == rest;
    }
  }

  // A merge keeps the list ordered and duplicate-free, knows exactly the old and the delivered
  // numbers, and keeps every message it had.
  lemma MergeSpec(existing: seq<Message>, incoming: seq<Message>)
    requires Increasing(existing) && DistinctSeqs(incoming)
    ensures var r := MergeBySeq(existing, incoming);
      && Increasing(r)
      && (forall x :: x in r <==> (x in existing || (x in incoming && !Knows(existing, x.seqNo))))
      && (forall n :: Knows(r, n) <==> (Knows(existing, n) || Knows(incoming, n)))
  {
    var r := MergeBySeq(existing, incoming);
    var unseen := Unseen(existing, incoming);
    FilterMembers((m: Message) => !Knows(existing, m.seqNo), incoming);
    UnseenDistinct(existing, incoming);
    IncreasingIsDistinct(existing);
    forall x, y | x in existing && y in unseen ensures x.seqNo != y.seqNo {
      KnowsMember(existing, y.seqNo);
    }
    DistinctAppendSeqs(existing, unseen);
    SortIncreasing(existing + unseen);
    forall n ensures Knows(r, n) <==> (Knows(existing, n) || Knows(incoming, n)) {
      KnowsMember(r, n);
      KnowsMember(existing, n);
      KnowsMember(incoming, n);
    }
  }

  // Any batch, also one that repeats numbers: a merge is the list and its unseen messages, all of
  // them, in order, and knows exactly the old and the delivered numbers.
  lemma MergeIsOrdered(existing: seq<Message>, incoming: seq<Message>)
    requires Sorted(existing, BySeq)
    ensures var r := MergeBySeq(existing, incoming);
      && Sorted(r, BySeq) && multiset(r) == multiset(existing) + multiset(Unseen(existing, incoming))
      && (forall n :: Knows(r, n) <==> (Knows(existing, n) || Knows(incoming, n)))
  {
    var r, unseen := MergeBySeq(existing, incoming), Unseen(existing, incoming);
    FilterMembers((m: Message) => !Knows(existing, m.seqNo), incoming);
    assert TotalPreorder(BySeq);
    SortSpec(existing + unseen, BySeq);
    assert existing + [] == existing;
    forall n ensures Knows(r, n) <==> (Knows(existing, n) || Knows(incoming, n)) {
      KnowsMember(r, n);
      KnowsMember(existing, n);
      KnowsMember(incoming, n);
    }
  }

  // A merge leaves the list as it is exactly if it knew every number delivered.
  lemma MergeIsSameIff(existing: seq<Message>, incoming: seq<Message>)
    ensures MergeBySeq(existing, incoming) == existing <==> forall m :: m in incoming ==> Knows(existing, m.seqNo)
  {
    var unseen := Unseen(existing, incoming);
    FilterMembers((m: Message) => !Knows(existing, m.seqNo), incoming);
    if unseen == [] {
      assert forall m :: m in incoming ==> m !in unseen;
    } else {
      assert unseen[0] in unseen;
      assert TotalPreorder(BySeq);
      SortSpec(existing + unseen, BySeq);
      assert |multiset(Sort(existing + unseen, BySeq))| == |existing| + |unseen|;
    }
  }

  /*** Deliveries ***/

  function Delivered(batches: seq<seq<Message>>): seq<Message> {
    if batches == [] then [] else MergeBySeq(Delivered(batches[..|batches| - 1]), batches[|batches| - 1])
  }

  ghost predicate Arrived(batches: seq<seq<Message>>, n: int) {
    exists i :: 0 <= i < |batches| && Knows(batches[i], n)
  }

  ghost predicate GoodBatches(batches: seq<seq<Message>>, log: map<int, Message>) {
    forall i :: 0 <= i < |batches| ==> DistinctSeqs(batches[i]) && FromLog(batches[i], log)
  }

  lemma {:induction false} DeliveredSpec(batches: seq<seq<Message>>, log: map<int, Message>)
    requires GoodBatches(batches, log)
    ensures Increasing(Delivered(batches)) && FromLog(Delivered(batches), log)
    ensures forall n :: Knows(Delivered(batches), n) <==> Arrived(batches, n)
  {
    if batches != [] {
      var k := |batches| - 1;
      DeliveredSpec(batches[..k], log);
      MergeSpec(Delivered(batches[..k]), batches[k]);
      forall n ensures Arrived(batches, n) <==> (Arrived(batches[..k], n) || Knows(batches[k], n)) {
        ArrivedPush(batches, n);
      }
    }
  }

  // After any deliveries whatever the list is in order and knows exactly the numbers that arrived.
  lemma {:induction false} DeliveredIsOrdered(batches: seq<seq<Message>>)
    ensures Sorted(Delivered(batches), BySeq)
    ensures forall n :: Knows(Delivered(batches), n) <==> Arrived(batches, n)
  {
    if batches != [] {
      var k := |batches| - 1;
      DeliveredIsOrdered(batches[..k]);
      MergeIsOrdered(Delivered(batches[..k]), batches[k]);
      forall n ensures Arrived(batches, n) <==> (Arrived(batches[..k], n) || Knows(batches[k], n)) {
        ArrivedPush(batches, n);
      }
    }
  }

  lemma ArrivedPush(batches: seq<seq<Message>>, n: int)
    requires batches != []
    ensures var k := |batches| - 1;
      Arrived(batches, n) <==> (Arrived(batches[..k], n) || Knows(batches[k], n))
  {
    var k := |batches| - 1;
    if Arrived(batches[..k], n) {
      var i :| 0 <= i < k && Knows(batches[..k][i], n);
      assert batches[i] == batches[..k][i];
    }
    if Arrived(batches, n) {
      var i :| 0 <= i < |batches| && Knows(batches[i], n);
      assert i < k ==> batches[..k][i] == batches[i];
    }
  }

  lemma {:induction false} OneOrderedList(a: seq<Message>, b: seq<Message>)
    requires Increasing(a) && Increasing(b) && forall x :: x in a <==> x in b
    ensures a == b
  {
    if a == [] {
      NoMembers(b);
    } else {
      assert a == [a[0]] + a[1..];
      assert a[0] in b;
      assert b == [b[0]] + b[1..];
      assert b[0] in a;
      assert a[0] == b[0];
      forall x ensures x in a[1..] <==> x in b[1..] {
        if x in a[1..] {
          assert a[0].seqNo < x.seqNo && x in a;
        }
        if x in b[1..] {
          assert b[0].seqNo < x.seqNo && x in b;
        }
      }
      OneOrderedList(a[1..], b[1..]);
    }
  }

  lemma FromLogMembers(a: seq<Message>, b: seq<Message>, log: map<int, Message>, x: Message)
    requires FromLog(a, log) && FromLog(b, log) && x in a && Knows(b, x.seqNo)
    ensures x in b
  {
    KnowsMember(b, x.seqNo);
  }

  // The list depends only on which messages arrived: not on their order, their batching, nor on
  // how often they came.
  lemma DeliveryOrderIsIrrelevant(batches: seq<seq<Message>>, others: seq<seq<Message>>, log: map<int, Message>)
    requires GoodBatches(batches, log) && GoodBatches(others, log)
    requires forall n :: Arrived(batches, n) <==> Arrived(others, n)
    ensures Delivered(batches) == Delivered(others)
  {
    var a, b := Delivered(batches), Delivered(others);
    DeliveredSpec(batches, log);
    DeliveredSpec(others, log);
    forall x ensures x in a <==> x in b {
      KnowsMember(a, x.seqNo);
      KnowsMember(b, x.seqNo);
      if x in a { FromLogMembers(a, b, log, x); }
      if x in b { FromLogMembers(b, a, log, x); }
    }
    OneOrderedList(a, b);
  }

  /*** Numbers repeated within one batch ***/

  lemma {:induction false} InsertKeepsRepeats(x: Message, t: seq<Message>)
    requires DistinctSeqs(Insert(x, t, BySeq))
    ensures DistinctSeqs(t) && forall y :: y in t ==> y.seqNo != x.seqNo
    ensures forall y :: y in Insert(x, t, BySeq) <==> (y == x || y in t)
  {
    if t == [] || BySeq(x, t[0]) {
      assert ([x] + t)[1..] == t;
    } else {
      assert t == [t[0]] + t[1..];
      var rest := Insert(x, t[1..], BySeq);
      assert ([t[0]] + rest)[1..] == rest;
      InsertKeepsRepeats(x, t[1..]);
    }
  }

  lemma {:induction false} SortKeepsRepeats(s: seq<Message>)
    requires DistinctSeqs(Sort(s, BySeq))
    ensures DistinctSeqs(s)
    ensures forall y :: y in Sort(s, BySeq) <==> y in s
  {
    if s != [] {
      assert s == [s[0]] + s[1..];
      InsertKeepsRepeats(s[0], Sort(s[1..], BySeq));
      SortKeepsRepeats(s[1..]);
    }
  }

  lemma {:induction false} DistinctTail(a: seq<Message>, b: seq<Message>)
    requires DistinctSeqs(a + b)
    ensures DistinctSeqs(b)
  {
    if a == [] {
      assert a + b == b;
    } else {
      assert (a + b)[1..] == a[1..] + b;
      DistinctTail(a[1..], b);
    }
  }

  // The filter looks at the list, never at the rest of the batch: the merged list is free of
  // repeated numbers exactly when the batch repeats none of the numbers it newly delivers.
  lemma MergeIsDistinctIff(existing: seq<Message>, incoming: seq<Message>)
    requires Increasing(existing)
    ensures DistinctSeqs(MergeBySeq(existing, incoming)) <==> DistinctSeqs(Unseen(existing, incoming))
  {
    var unseen := Unseen(existing, incoming);
    IncreasingIsDistinct(existing);
    FilterMembers((m: Message) => !Knows(existing, m.seqNo), incoming);
    if unseen != [] {
      if DistinctSeqs(unseen) {
        forall x, y | x in existing && y in unseen ensures x.seqNo != y.seqNo {
          KnowsMember(existing, y.seqNo);
        }
        DistinctAppendSeqs(existing, unseen);
        SortIncreasing(existing + unseen);
        IncreasingIsDistinct(Sort(existing + unseen, BySeq));
      }
      if DistinctSeqs(Sort(existing + unseen, BySeq)) {
        SortKeepsRepeats(existing + unseen);
        DistinctTail(existing, unseen);
      }
    }
  }

  // A batch that repeats a number it delivers for the first time leaves both copies in.
  lemma RepeatedInOneBatch(m: Message)
    ensures MergeBySeq([], [m, m]) == [m, m]
  {
    assert [m, m][1..] == [m] && [m][1..] == [];
    var p := (x: Message) => !Knows([], x.seqNo);
    assert p(m);
    assert Filter(p, []) == [];
    assert Filter(p, [m]) == [m] + Filter(p, [m][1..]) == [m];
    assert Filter(p, [m, m]) == [m] + Filter(p, [m, m][1..]) == [m, m];
    assert Unseen([], [m, m]) == Filter(p, [m, m]);
    assert [] + [m, m] == [m, m];
    assert Sort([m], BySeq) == [m];
  }
}
