/** The client-side sort that stands in for the server's ORDER BY, and the merged "all mine" buckets. */
module IssueMerge {
  import opened Basics
  import opened StableSort

  datatype PropertyValue = Number(n: real) | Text(t: string) | Unsortable

  datatype Row = Row(
    id: string,
    position: real,
    priority: string,
    title: string,
    createdAt: int,
    startDate: Option<string>,
    dueDate: Option<string>,
    properties: map<string, PropertyValue>)

  datatype SortBy = Position | Priority | Title | CreatedAt | StartDate | DueDate | Property(id: string)

  // Text order (only the sign of a difference of ranks matters), and how a number prints.
  datatype Locale = Locale(rank: string -> real, show: real -> string)

  datatype SortParam = SortParam(key: SortBy, descending: bool)

  function PriorityRank(p: string): real {
    if p == "urgent" then 0.0 else if p == "high" then 1.0 else if p == "medium" then 2.0
    else if p == "low" then 3.0 else if p == "none" then 4.0 else 9.0
  }

  function Direction(s: SortParam): real {
    if !s.key.Position? && s.descending then -1.0 else 1.0
  }

  function TieBreak(a: Row, b: Row): real {
    (b.createdAt - a.createdAt) as real
  }

  function Or(d: real, otherwise: real): real {
    if d != 0.0 then d else otherwise
  }

  function Collate(l: Locale, a: string, b: string): real {
    l.rank(a) - l.rank(b)
  }

  function MissingAware(l: Locale, dir: real, a: Row, b: Row, av: Option<string>, bv: Option<string>): real {
    var aMissing := av.None? || av.value == "";
    var bMissing := bv.None? || bv.value == "";
    if aMissing && bMissing then TieBreak(a, b)
    else if aMissing then 1.0
    else if bMissing then -1.0
    else Or(dir * Collate(l, av.value, bv.value), TieBreak(a, b))
  }

  function PropertyOf(r: Row, id: string): PropertyValue {
    if id in r.properties then r.properties[id] else Unsortable
  }

  function Printed(l: Locale, v: PropertyValue): string {
    match v
    case Number(n) => l.show(n)
    case Text(t) => t
    case Unsortable => ""
  }

  function CompareIssues(l: Locale, s: SortParam, a: Row, b: Row): real {
    var dir := Direction(s);
    match s.key
    case Property(id) =>
      var av, bv := PropertyOf(a, id), PropertyOf(b, id);
      if av.Unsortable? && bv.Unsortable? then TieBreak(a, b)
      else if av.Unsortable? then 1.0
      else if bv.Unsortable? then -1.0
      else if av.Number? && bv.Number? then Or(dir * (av.n - bv.n), TieBreak(a, b))
      else Or(dir * Collate(l, Printed(l, av), Printed(l, bv)), TieBreak(a, b))
    case Priority => Or(dir * (PriorityRank(a.priority) - PriorityRank(b.priority)), TieBreak(a, b))
    case Title => Or(dir * Collate(l, a.title, b.title), TieBreak(a, b))
    case CreatedAt => dir * (a.createdAt - b.createdAt) as real
    case StartDate => MissingAware(l, dir, a, b, a.startDate, b.startDate)
    case DueDate => MissingAware(l, dir, a, b, a.dueDate, b.dueDate)
    case Position => Or(a.position - b.position, TieBreak(a, b))
  }

  /*** The order it means ***/

  // The value a row is sorted by; None is missing.
  function SortValue(l: Locale, s: SortParam, r: Row): Option<real> {
    match s.key
    case Property(id) =>
      (match PropertyOf(r, id)
       case Number(n) => Some(n)
       case Text(t) => Some(l.rank(t))
       case Unsortable => None)
    case Priority => Some(PriorityRank(r.priority))
    case Title => Some(l.rank(r.title))
    case CreatedAt => Some(r.createdAt as real)
    case StartDate => if r.startDate.None? || r.startDate.value == "" then None else Some(l.rank(r.startDate.value))
    case DueDate => if r.dueDate.None? || r.dueDate.value == "" then None else Some(l.rank(r.dueDate.value))
    case Position => Some(r.position)
  }

  // ORDER BY: missing values last in both directions, ties newest first.
  predicate Precedes(l: Locale, s: SortParam, a: Row, b: Row) {
    var av, bv := SortValue(l, s, a), SortValue(l, s, b);
    if av.None? && bv.None? then a.createdAt >= b.createdAt
    else if av.None? || bv.None? then bv.None?
    else if av.value == bv.value then s.key.CreatedAt? || a.createdAt >= b.createdAt
    else (av.value < bv.value) == (Direction(s) == 1.0)
  }

  // No two rows compare a number with a text.
  predicate SameTyped(s: SortParam, a: Row, b: Row) {
    s.key.Property? ==>
      var av, bv := PropertyOf(a, s.key.id), PropertyOf(b, s.key.id);
      !(av.Number? && bv.Text?) && !(av.Text? && bv.Number?)
  }

  ghost predicate AllSameTyped(s: SortParam, rows: seq<Row>) {
    forall a, b :: a in rows && b in rows ==> SameTyped(s, a, b)
  }

  lemma DirectedSign(dir: real, x: real, y: real)
    requires dir == 1.0 || dir == -1.0
    ensures dir * (x - y) == 0.0 <==> x == y
    ensures dir * (x - y) < 0.0 <==> x != y && ((x < y) == (dir == 1.0))
  {
  }

  // On rows of one type the comparator puts `b` before `a` exactly when the order does.
  lemma ComparatorIsTheOrder(l: Locale, s: SortParam, a: Row, b: Row)
    requires SameTyped(s, a, b)
    ensures CompareIssues(l, s, a, b) <= 0.0 <==> Precedes(l, s, a, b)
  {
    var av, bv := SortValue(l, s, a), SortValue(l, s, b);
    if av.Some? && bv.Some? {
      DirectedSign(Direction(s), av.value, bv.value);
    }
  }

  lemma OrderIsTotal(l: Locale, s: SortParam)
    ensures TotalPreorder((a: Row, b: Row) => Precedes(l, s, a, b))
  {
  }

  // Numbers and texts under one property do not mix: the comparator then need not be an order.
  lemma MixedTypesAreNoOrder(l: Locale, nine: Row, ten: Row, text: Row, id: string)
    requires PropertyOf(nine, id) == Number(9.0) && PropertyOf(ten, id) == Number(10.0) && PropertyOf(text, id) == Text("9")
    requires l.show(9.0) == "9" && l.show(10.0) == "10" && l.rank("10") < l.rank("9")
    requires nine.createdAt < text.createdAt
    ensures var s := SortParam(Property(id), false);
      && CompareIssues(l, s, nine, ten) < 0.0 && CompareIssues(l, s, ten, text) < 0.0
      && CompareIssues(l, s, nine, text) > 0.0
  {
  }

  /*** Exactly when the comparator orders rows of mixed types ***/

  // By value, then newest first.
  function Lexically(dir: real, av: real, bv: real, a: Row, b: Row): real {
    Or(dir * (av - bv), TieBreak(a, b))
  }

  function NumberOf(s: SortParam, r: Row): real {
    if s.key.Property? && PropertyOf(r, s.key.id).Number? then PropertyOf(r, s.key.id).n else 0.0
  }

  function PrintRank(l: Locale, s: SortParam, r: Row): real {
    if s.key.Property? then l.rank(Printed(l, PropertyOf(r, s.key.id))) else 0.0
  }

  // How two numbers compare, and how they would compare as they print.
  function NumberOrder(s: SortParam, a: Row, b: Row): real {
    Lexically(Direction(s), NumberOf(s, a), NumberOf(s, b), a, b)
  }

  function PrintOrder(l: Locale, s: SortParam, a: Row, b: Row): real {
    Lexically(Direction(s), PrintRank(l, s, a), PrintRank(l, s, b), a, b)
  }

  predicate IsNumber(s: SortParam, r: Row) {
    s.key.Property? && PropertyOf(r, s.key.id).Number?
  }

  predicate IsText(s: SortParam, r: Row) {
    s.key.Property? && PropertyOf(r, s.key.id).Text?
  }

  predicate SameSign(x: real, y: real) {
    (x < 0.0 <==> y < 0.0) && (x > 0.0 <==> y > 0.0)
  }

  // Two numbers between which a text lies, as they print, are in the order in which they print.
  ghost predicate PrintAgrees(l: Locale, s: SortParam, rows: seq<Row>) {
    forall x, t, y :: x in rows && t in rows && y in rows ==> PrintAgreesAt(l, s, x, t, y)
  }

  predicate PrintAgreesAt(l: Locale, s: SortParam, x: Row, t: Row, y: Row) {
    IsNumber(s, x) && IsText(s, t) && IsNumber(s, y) && PrintOrder(l, s, x, t) <= 0.0 && PrintOrder(l, s, t, y) <= 0.0
    ==> SameSign(NumberOrder(s, x, y), PrintOrder(l, s, x, y))
  }

  predicate TransitiveAt(l: Locale, s: SortParam, a: Row, b: Row, c: Row) {
    CompareIssues(l, s, a, b) <= 0.0 && CompareIssues(l, s, b, c) <= 0.0 ==> CompareIssues(l, s, a, c) <= 0.0
  }

  lemma ComparesPrints(l: Locale, s: SortParam, a: Row, b: Row)
    requires (IsNumber(s, a) || IsText(s, a)) && (IsNumber(s, b) || IsText(s, b)) && !(IsNumber(s, a) && IsNumber(s, b))
    ensures CompareIssues(l, s, a, b) == PrintOrder(l, s, a, b)
  {
  }

  lemma PrintOrders(l: Locale, s: SortParam, a: Row, b: Row, c: Row)
    ensures PrintOrder(l, s, a, b) <= 0.0 && PrintOrder(l, s, b, c) <= 0.0 ==> PrintOrder(l, s, a, c) <= 0.0
    ensures PrintOrder(l, s, a, b) < 0.0 && PrintOrder(l, s, b, c) <= 0.0 ==> PrintOrder(l, s, a, c) < 0.0
    ensures PrintOrder(l, s, a, b) <= 0.0 && PrintOrder(l, s, b, c) < 0.0 ==> PrintOrder(l, s, a, c) < 0.0
    ensures PrintOrder(l, s, b, a) < 0.0 <==> PrintOrder(l, s, a, b) > 0.0
  {
  }

  // A text among two numbers: in any of its three places the comparator is transitive.
  lemma MixedTransitive(l: Locale, s: SortParam, a: Row, b: Row, c: Row)
    requires PrintAgreesAt(l, s, a, b, c) && PrintAgreesAt(l, s, c, a, b) && PrintAgreesAt(l, s, b, c, a)
    requires (IsNumber(s, a) && IsText(s, b) && IsNumber(s, c)) || (IsText(s, a) && IsNumber(s, b) && IsNumber(s, c))
             || (IsNumber(s, a) && IsNumber(s, b) && IsText(s, c))
    ensures TransitiveAt(l, s, a, b, c)
  {
    PrintOrders(l, s, a, b, c);
    PrintOrders(l, s, b, c, a);
    PrintOrders(l, s, c, a, b);
    if IsText(s, b) {
      ComparesPrints(l, s, a, b);
      ComparesPrints(l, s, b, c);
    } else if IsText(s, a) {
      ComparesPrints(l, s, a, b);
      ComparesPrints(l, s, a, c);
    } else {
      ComparesPrints(l, s, b, c);
      ComparesPrints(l, s, a, c);
    }
  }

  lemma PrintsTransitive(l: Locale, s: SortParam, a: Row, b: Row, c: Row)
    requires (IsNumber(s, a) || IsText(s, a)) && (IsNumber(s, b) || IsText(s, b)) && (IsNumber(s, c) || IsText(s, c))
    requires !(IsNumber(s, a) && IsNumber(s, b)) && !(IsNumber(s, b) && IsNumber(s, c)) && !(IsNumber(s, a) && IsNumber(s, c))
    ensures TransitiveAt(l, s, a, b, c)
  {
    PrintOrders(l, s, a, b, c);
    ComparesPrints(l, s, a, b);
    ComparesPrints(l, s, b, c);
    ComparesPrints(l, s, a, c);
  }

  lemma SameTypedTransitive(l: Locale, s: SortParam, a: Row, b: Row, c: Row)
    requires SameTyped(s, a, b) && SameTyped(s, b, c) && SameTyped(s, a, c)
    ensures TransitiveAt(l, s, a, b, c)
  {
    OrderIsTotal(l, s);
    var le := (x: Row, y: Row) => Precedes(l, s, x, y);
    ComparatorIsTheOrder(l, s, a, b);
    ComparatorIsTheOrder(l, s, b, c);
    ComparatorIsTheOrder(l, s, a, c);
    assert le(a, b) && le(b, c) ==> le(a, c);
  }

  // A row without a value comes after every row that has one.
  lemma MissingTransitive(l: Locale, s: SortParam, a: Row, b: Row, c: Row)
    requires s.key.Property?
    requires PropertyOf(a, s.key.id).Unsortable? || PropertyOf(b, s.key.id).Unsortable? || PropertyOf(c, s.key.id).Unsortable?
    ensures TransitiveAt(l, s, a, b, c)
  {
  }

  lemma AgreementIsTransitive(l: Locale, s: SortParam, a: Row, b: Row, c: Row)
    requires PrintAgreesAt(l, s, a, b, c) && PrintAgreesAt(l, s, c, a, b) && PrintAgreesAt(l, s, b, c, a)
    ensures TransitiveAt(l, s, a, b, c)
  {
    if SameTyped(s, a, b) && SameTyped(s, b, c) && SameTyped(s, a, c) {
      SameTypedTransitive(l, s, a, b, c);
    } else if PropertyOf(a, s.key.id).Unsortable? || PropertyOf(b, s.key.id).Unsortable? || PropertyOf(c, s.key.id).Unsortable? {
      MissingTransitive(l, s, a, b, c);
    } else if (IsNumber(s, a) && IsNumber(s, b)) || (IsNumber(s, b) && IsNumber(s, c)) || (IsNumber(s, a) && IsNumber(s, c)) {
      MixedTransitive(l, s, a, b, c);
    } else {
      PrintsTransitive(l, s, a, b, c);
    }
  }

  lemma TransitivityAgrees(l: Locale, s: SortParam, x: Row, t: Row, y: Row)
    requires TransitiveAt(l, s, x, t, y) && TransitiveAt(l, s, y, t, x) && TransitiveAt(l, s, y, x, t) && TransitiveAt(l, s, t, y, x)
    ensures PrintAgreesAt(l, s, x, t, y)
  {
    if IsNumber(s, x) && IsText(s, t) && IsNumber(s, y) && PrintOrder(l, s, x, t) <= 0.0 && PrintOrder(l, s, t, y) <= 0.0 {
      ComparesPrints(l, s, x, t);
      ComparesPrints(l, s, t, x);
      ComparesPrints(l, s, t, y);
      ComparesPrints(l, s, y, t);
      PrintOrders(l, s, x, t, y);
      PrintOrders(l, s, y, x, t);
      PrintOrders(l, s, t, y, x);
      PrintOrders(l, s, y, t, x);
    }
  }

  lemma ComparatorIsTotal(l: Locale, s: SortParam, a: Row, b: Row)
    ensures CompareIssues(l, s, a, b) <= 0.0 || CompareIssues(l, s, b, a) <= 0.0
  {
    if SameTyped(s, a, b) {
      ComparatorIsTheOrder(l, s, a, b);
      assert SameTyped(s, b, a);
      ComparatorIsTheOrder(l, s, b, a);
    } else {
      ComparesPrints(l, s, a, b);
      ComparesPrints(l, s, b, a);
      PrintOrders(l, s, a, b, a);
    }
  }

  // The comparator orders a set of rows exactly when the prints of its numbers agree with the
  // numbers wherever a text lies between them.
  lemma ComparatorOrdersIff(l: Locale, s: SortParam, rows: seq<Row>)
    ensures OrdersOn(rows, ByComparator(l, s)) <==> PrintAgrees(l, s, rows)
  {
    var le := ByComparator(l, s);
    if OrdersOn(rows, le) {
      forall x, t, y | x in rows && t in rows && y in rows ensures PrintAgreesAt(l, s, x, t, y) {
        assert (le(x, t) && le(t, y) ==> le(x, y)) && (le(y, t) && le(t, x) ==> le(y, x));
        assert (le(y, x) && le(x, t) ==> le(y, t)) && (le(t, y) && le(y, x) ==> le(t, x));
        TransitivityAgrees(l, s, x, t, y);
      }
    }
    if PrintAgrees(l, s, rows) {
      forall a, b, c | a in rows && b in rows && c in rows && le(a, b) && le(b, c) ensures le(a, c) {
        AgreementIsTransitive(l, s, a, b, c);
      }
      forall a, b | a in rows && b in rows ensures le(a, b) || le(b, a) {
        ComparatorIsTotal(l, s, a, b);
      }
    }
  }

  /*** Sorting with the comparator ***/

  function ByComparator(l: Locale, s: SortParam): (Row, Row) -> bool {
    (a: Row, b: Row) => CompareIssues(l, s, a, b) <= 0.0
  }

  function ByOrder(l: Locale, s: SortParam): (Row, Row) -> bool {
    (a: Row, b: Row) => Precedes(l, s, a, b)
  }

  lemma {:induction false} SameInsert(x: Row, t: seq<Row>, f: (Row, Row) -> bool, g: (Row, Row) -> bool)
    requires forall y :: y in t ==> f(x, y) == g(x, y)
    ensures Insert(x, t, f) == Insert(x, t, g)
  {
    if t != [] {
      assert t == [t[0]] + t[1..];
      SameInsert(x, t[1..], f, g);
    }
  }

  lemma {:induction false} SortByTheOrder(l: Locale, s: SortParam, rows: seq<Row>)
    requires AllSameTyped(s, rows)
    ensures Sort(rows, ByComparator(l, s)) == Sort(rows, ByOrder(l, s))
  {
    if rows != [] {
      assert rows == [rows[0]] + rows[1..];
      SortByTheOrder(l, s, rows[1..]);
      var t := Sort(rows[1..], ByOrder(l, s));
      OrderIsTotal(l, s);
      assert TotalPreorder(ByOrder(l, s));
      SortSpec(rows[1..], ByOrder(l, s));
      forall y | y in t ensures ByComparator(l, s)(rows[0], y) == ByOrder(l, s)(rows[0], y) {
        ComparatorIsTheOrder(l, s, rows[0], y);
      }
      SameInsert(rows[0], t, ByComparator(l, s), ByOrder(l, s));
    }
  }

  /*** The merged bucket ***/

  ghost predicate HasRow(rows: seq<Row>, id: string) {
    exists r :: r in rows && r.id == id
  }

  ghost predicate DistinctRows(rows: seq<Row>) {
    forall i, j :: 0 <= i < j < |rows| ==> rows[i].id != rows[j].id
  }

  // `r` is the first row of the sources with its id.
  ghost predicate FirstSeen(r: Row, sources: seq<Row>) {
    exists i :: 0 <= i < |sources| && sources[i] == r && forall j :: 0 <= j < i ==> sources[j].id != r.id
  }

  // Every id of the sources once, as its first appearance.
  ghost predicate Union(merged: seq<Row>, sources: seq<Row>) {
    && DistinctRows(merged)
    && (forall r :: r in merged ==> FirstSeen(r, sources))
    && (forall id :: HasRow(merged, id) <==> HasRow(sources, id))
  }

  function Flat(sources: seq<seq<Row>>): seq<Row> {
    if sources == [] then [] else Flat(sources[..|sources| - 1]) + sources[|sources| - 1]
  }

  method MergeSources(sources: seq<seq<Row>>) returns (merged: seq<Row>)
    ensures Union(merged, Flat(sources))
  {
    var seen: set<string> := {};
    merged := [];
    for n := 0 to |sources|
      invariant Union(merged, Flat(sources[..n]))
      invariant forall id :: id in seen <==> HasRow(merged, id)
    {
      assert sources[..n + 1][..n] == sources[..n];
      ghost var before := Flat(sources[..n]);
      var bucket := sources[n];
      assert before + bucket[..0] == before;
      for i := 0 to |bucket|
        invariant Union(merged, before + bucket[..i])
        invariant forall id :: id in seen <==> HasRow(merged, id)
      {
        var issue := bucket[i];
        ghost var was := before + bucket[..i];
        assert before + bucket[..i + 1] == was + [issue];
        AddRow(was, issue);
        forall r | r in merged ensures FirstSeen(r, was + [issue]) {
          StillFirst(r, was, issue);
        }
        if issue.id in seen {
          assert forall id :: HasRow(was + [issue], id) <==> HasRow(was, id);
          continue;
        }
        AddRow(merged, issue);
        FirstNow(was, issue);
        seen := seen + {issue.id};
        merged := merged + [issue];
      }
      assert bucket[..|bucket|] == bucket;
    }
    assert sources[..|sources|] == sources;
  }

  lemma StillFirst(r: Row, rows: seq<Row>, more: Row)
    requires FirstSeen(r, rows)
    ensures FirstSeen(r, rows + [more])
  {
    var i :| 0 <= i < |rows| && rows[i] == r && forall j :: 0 <= j < i ==> rows[j].id != r.id;
    assert (rows + [more])[i] == r;
  }

  lemma FirstNow(rows: seq<Row>, r: Row)
    requires !HasRow(rows, r.id)
    ensures FirstSeen(r, rows + [r])
  {
    assert (rows + [r])[|rows|] == r;
    forall j | 0 <= j < |rows| ensures (rows + [r])[j].id != r.id {
      assert rows[j] in rows;
    }
  }

  lemma AddRow(rows: seq<Row>, r: Row)
    ensures forall id :: HasRow(rows + [r], id) <==> (HasRow(rows, id) || id == r.id)
  {
    forall id ensures HasRow(rows + [r], id) <==> (HasRow(rows, id) || id == r.id) {
      assert r in rows + [r];
      if HasRow(rows, id) {
        var x :| x in rows && x.id == id;
        assert x in rows + [r];
      }
    }
  }

  lemma {:induction false} DistinctRowsByBag(a: seq<Row>, b: seq<Row>)
    requires DistinctRows(a) && multiset(a) == multiset(b)
    ensures DistinctRows(b)
  {
    forall i, j | 0 <= i < j < |b| ensures b[i].id != b[j].id {
      assert b[i] in multiset(b) && b[j] in multiset(b);
      var m :| 0 <= m < |a| && a[m] == b[i];
      var n :| 0 <= n < |a| && a[n] == b[j];
      if b[i].id == b[j].id {
        assert m == n;
        var x := b[i];
        Twice(b, i, j);
        Once(a, x);
      }
    }
  }

  lemma Twice(b: seq<Row>, i: nat, j: nat)
    requires i < j < |b| && b[i] == b[j]
    ensures multiset(b)[b[i]] >= 2
  {
    assert b == b[..j] + [b[j]] + b[j + 1..];
    assert b[..j][i] == b[i];
    assert b[i] in multiset(b[..j]);
  }

  lemma {:induction false} Once(a: seq<Row>, x: Row)
    requires DistinctRows(a)
    ensures multiset(a)[x] <= 1
  {
    if a != [] {
      var n := |a| - 1;
      assert a == a[..n] + [a[n]];
      Once(a[..n], x);
      if x == a[n] {
        assert x !in a[..n];
      }
    }
  }

  lemma {:induction false} InsertPermutes(x: Row, t: seq<Row>, le: (Row, Row) -> bool)
    ensures multiset(Insert(x, t, le)) == multiset{x} + multiset(t)
  {
    if t != [] {
      assert t == [t[0]] + t[1..];
      InsertPermutes(x, t[1..], le);
    }
  }

  // Whatever the comparator, sorting loses and invents nothing.
  lemma {:induction false} SortPermutes(rows: seq<Row>, le: (Row, Row) -> bool)
    ensures multiset(Sort(rows, le)) == multiset(rows)
  {
    if rows != [] {
      assert rows == [rows[0]] + rows[1..];
      SortPermutes(rows[1..], le);
      InsertPermutes(rows[0], Sort(rows[1..], le), le);
    }
  }

  lemma PermutedUnion(merged: seq<Row>, issues: seq<Row>, sources: seq<Row>)
    requires Union(merged, sources) && multiset(merged) == multiset(issues)
    ensures Union(issues, sources)
  {
    DistinctRowsByBag(merged, issues);
    forall r ensures r in issues <==> r in merged {
      assert r in issues <==> r in multiset(issues);
      assert r in merged <==> r in multiset(merged);
    }
  }

  lemma SortedByTheOrder(l: Locale, s: SortParam, rows: seq<Row>)
    requires AllSameTyped(s, rows)
    ensures Sorted(Sort(rows, ByComparator(l, s)), ByOrder(l, s))
  {
    SortByTheOrder(l, s, rows);
    OrderIsTotal(l, s);
    assert TotalPreorder(ByOrder(l, s));
    SortSpec(rows, ByOrder(l, s));
  }

  /*** What the picked order means, key by key ***/

  // In the direction the user picked.
  predicate Directed(descending: bool, x: real, y: real) {
    if descending then x >= y else x <= y
  }

  // By value, and of equal values the newest first.
  predicate ByValue(descending: bool, x: real, y: real, a: Row, b: Row) {
    Directed(descending, x, y) && (x == y ==> a.createdAt >= b.createdAt)
  }

  // Rows without a date come last, among themselves newest first.
  predicate ByDate(l: Locale, descending: bool, x: Option<string>, y: Option<string>, a: Row, b: Row) {
    var hasX, hasY := x.Some? && x.value != "", y.Some? && y.value != "";
    && (hasY ==> hasX)
    && (!hasX && !hasY ==> a.createdAt >= b.createdAt)
    && (hasX && hasY ==> ByValue(descending, l.rank(x.value), l.rank(y.value), a, b))
  }

  // Likewise for a property: numbers by size, texts in text order.
  predicate ByProperty(l: Locale, descending: bool, x: PropertyValue, y: PropertyValue, a: Row, b: Row) {
    && (x.Unsortable? ==> y.Unsortable? && a.createdAt >= b.createdAt)
    && (x.Number? && y.Number? ==> ByValue(descending, x.n, y.n, a, b))
    && (x.Text? && y.Text? ==> ByValue(descending, l.rank(x.t), l.rank(y.t), a, b))
  }

  const PRIORITIES := ["urgent", "high", "medium", "low", "none"]

  // The place of a priority among the known ones; all others come after them.
  predicate HasPlace(priority: string, place: nat) {
    if place < |PRIORITIES| then PRIORITIES[place] == priority
    else place == |PRIORITIES| && priority !in PRIORITIES
  }

  // The pair is as the user who picked this sort expects it.
  ghost predicate InPickedOrder(l: Locale, s: SortParam, a: Row, b: Row) {
    match s.key
    case Position => ByValue(false, a.position, b.position, a, b)
    case Title => ByValue(s.descending, l.rank(a.title), l.rank(b.title), a, b)
    case CreatedAt => if s.descending then a.createdAt >= b.createdAt else a.createdAt <= b.createdAt
    case Priority =>
      exists m, n :: HasPlace(a.priority, m) && HasPlace(b.priority, n) && ByValue(s.descending, m as real, n as real, a, b)
    case StartDate => ByDate(l, s.descending, a.startDate, b.startDate, a, b)
    case DueDate => ByDate(l, s.descending, a.dueDate, b.dueDate, a, b)
    case Property(id) => ByProperty(l, s.descending, PropertyOf(a, id), PropertyOf(b, id), a, b)
  }

  lemma PlaceOf(priority: string) returns (place: nat)
    ensures HasPlace(priority, place)
    ensures forall p, m, n :: HasPlace(p, m) && HasPlace(p, n) ==> m == n
    ensures PriorityRank(priority) == if place == |PRIORITIES| then 9.0 else place as real
  {
    assert PRIORITIES[0] == "urgent" && PRIORITIES[1] == "high" && PRIORITIES[2] == "medium"
        && PRIORITIES[3] == "low" && PRIORITIES[4] == "none";
    place := if priority == "urgent" then 0 else if priority == "high" then 1 else if priority == "medium" then 2
             else if priority == "low" then 3 else if priority == "none" then 4 else 5;
  }

  lemma PriorityOrders(l: Locale, s: SortParam, a: Row, b: Row)
    requires s.key.Priority?
    ensures CompareIssues(l, s, a, b) <= 0.0 <==> InPickedOrder(l, s, a, b)
  {
    var m := PlaceOf(a.priority);
    var n := PlaceOf(b.priority);
    assert InPickedOrder(l, s, a, b) <==> ByValue(s.descending, m as real, n as real, a, b);
  }

  // On rows of one type the comparator says exactly whether a pair is in the picked order.
  lemma ComparatorIsPickedOrder(l: Locale, s: SortParam, a: Row, b: Row)
    requires SameTyped(s, a, b)
    ensures CompareIssues(l, s, a, b) <= 0.0 <==> InPickedOrder(l, s, a, b)
  {
    if s.key.Priority? {
      PriorityOrders(l, s, a, b);
    }
  }

  // So any two rows of a bucket of one type are.
  lemma {:induction false} BucketIsInPickedOrder(l: Locale, s: SortParam, rows: seq<Row>, i: nat, j: nat)
    requires AllSameTyped(s, rows) && Sorted(rows, ByOrder(l, s)) && i < j < |rows|
    ensures InPickedOrder(l, s, rows[i], rows[j])
  {
    if i == 0 {
      assert rows[j] == rows[1..][j - 1] && rows[j] in rows[1..];
      assert ByOrder(l, s)(rows[0], rows[j]);
      assert SameTyped(s, rows[0], rows[j]);
      ComparatorIsTheOrder(l, s, rows[0], rows[j]);
      ComparatorIsPickedOrder(l, s, rows[0], rows[j]);
    } else {
      assert rows == [rows[0]] + rows[1..];
      BucketIsInPickedOrder(l, s, rows[1..], i - 1, j - 1);
    }
  }

  // A merged bucket lists every issue of the three sources once, and its total is its length. It is
  // in the comparator's order where that is one; on values of one type, in the order the user picked.
  method MergedBucket(l: Locale, s: SortParam, sources: seq<seq<Row>>) returns (issues: seq<Row>, total: nat)
    ensures Union(issues, Flat(sources)) && total == |issues|
    ensures PrintAgrees(l, s, Flat(sources)) ==> Sorted(issues, ByComparator(l, s))
    ensures AllSameTyped(s, Flat(sources)) ==> Sorted(issues, ByOrder(l, s))
    ensures AllSameTyped(s, Flat(sources)) ==> forall i, j :: 0 <= i < j < |issues| ==> InPickedOrder(l, s, issues[i], issues[j])
  {
    var merged := MergeSources(sources);
    issues := Sort(merged, ByComparator(l, s));
    total := |issues|;
    SortPermutes(merged, ByComparator(l, s));
    PermutedUnion(merged, issues, Flat(sources));
    forall r | r in merged ensures r in Flat(sources) {
      assert FirstSeen(r, Flat(sources));
    }
    if PrintAgrees(l, s, Flat(sources)) {
      ComparatorOrdersIff(l, s, Flat(sources));
      SortOn(Flat(sources), merged, ByComparator(l, s));
    }
    if AllSameTyped(s, Flat(sources)) {
      SortedByTheOrder(l, s, merged);
      assert forall r :: r in issues ==> r in multiset(issues);
      assert forall r :: r in issues ==> r in merged;
      forall i, j | 0 <= i < j < |issues| ensures InPickedOrder(l, s, issues[i], issues[j]) {
        BucketIsInPickedOrder(l, s, issues, i, j);
      }
    }
  }

  // Rows without a value come last, whichever the direction.
  lemma {:induction false} MissingComesLast(l: Locale, s: SortParam, rows: seq<Row>, i: nat, j: nat)
    requires Sorted(rows, ByOrder(l, s)) && i < j < |rows|
    requires SortValue(l, s, rows[i]).None?
    ensures SortValue(l, s, rows[j]).None?
  {
    if i == 0 {
      assert rows[j] == rows[1..][j - 1] && rows[j] in rows[1..];
    } else {
      MissingComesLast(l, s, rows[1..], i - 1, j - 1);
    }
  }
}
