/** Array.prototype.sort: a stable sort by a comparison. */
module StableSort {
  import opened Basics

  // `le(a, b)`: the comparator does not put `b` before `a`.
  ghost predicate TotalPreorder<T(!new)>(le: (T, T) -> bool) {
    && (forall a, b :: le(a, b) || le(b, a))
    && (forall a, b, c :: le(a, b) && le(b, c) ==> le(a, c))
  }

  // An element goes before the first one it may precede: equals keep their order.
  function Insert<T>(x: T, t: seq<T>, le: (T, T) -> bool): seq<T> {
    if t == [] || le(x, t[0]) then [x] + t else [t[0]] + Insert(x, t[1..], le)
  }

  function Sort<T>(s: seq<T>, le: (T, T) -> bool): seq<T> {
    if s == [] then [] else Insert(s[0], Sort(s[1..], le), le)
  }

  ghost predicate Sorted<T>(s: seq<T>, le: (T, T) -> bool) {
    s == [] || ((forall y :: y in s[1..] ==> le(s[0], y)) && Sorted(s[1..], le))
  }

  lemma {:induction false} InsertSorted<T(!new)>(x: T, t: seq<T>, le: (T, T) -> bool)
    requires TotalPreorder(le) && Sorted(t, le)
    ensures Sorted(Insert(x, t, le), le)
    ensures multiset(Insert(x, t, le)) == multiset{x} + multiset(t)
    ensures forall y :: y in Insert(x, t, le) <==> (y == x || y in t)
  {
    if t == [] || le(x, t[0]) {
      assert ([x] + t)[1..] == t;
      forall y | y in t ensures le(x, y) {
        assert t == [t[0]] + t[1..];
        assert y == t[0] || le(t[0], y);
      }
    } else {
      InsertSorted(x, t[1..], le);
      assert t == [t[0]] + t[1..];
    }
  }

  // The result is ordered and a permutation of the input.
  lemma {:induction false} SortSpec<T(!new)>(s: seq<T>, le: (T, T) -> bool)
    requires TotalPreorder(le)
    ensures Sorted(Sort(s, le), le)
    ensures multiset(Sort(s, le)) == multiset(s)
    ensures forall y :: y in Sort(s, le) <==> y in s
  {
    if s != [] {
      SortSpec(s[1..], le);
      InsertSorted(s[0], Sort(s[1..], le), le);
      assert s == [s[0]] + s[1..];
    }
  }

  lemma {:induction false} SortedAlready<T(!new)>(s: seq<T>, le: (T, T) -> bool)
    requires Sorted(s, le)
    ensures Sort(s, le) == s
  {
    if s != [] {
      SortedAlready(s[1..], le);
      if |s| > 1 {
        assert s[1] in s[1..];
      }
    }
  }

  lemma {:induction false} FilterInsert<T(!new)>(p: T -> bool, x: T, t: seq<T>, le: (T, T) -> bool)
    requires TotalPreorder(le) && Sorted(t, le)
    ensures Filter(p, Insert(x, t, le)) == if p(x) then Insert(x, Filter(p, t), le) else Filter(p, t)
  {
    if t == [] {
    } else if le(x, t[0]) {
      assert ([x] + t)[1..] == t;
      FilterMembers(p, t);
      var f := Filter(p, t);
      if f != [] {
        assert f[0] in t;
        assert t == [t[0]] + t[1..];
        assert f[0] == t[0] || le(t[0], f[0]);
        assert le(t[0], t[0]);
        assert le(x, f[0]);
      }
    } else {
      FilterInsert(p, x, t[1..], le);
      assert ([t[0]] + Insert(x, t[1..], le))[1..] == Insert(x, t[1..], le);
    }
  }

  // Stability: sorting and dropping elements commute.
  lemma {:induction false} FilterSort<T(!new)>(p: T -> bool, s: seq<T>, le: (T, T) -> bool)
    requires TotalPreorder(le)
    ensures Filter(p, Sort(s, le)) == Sort(Filter(p, s), le)
  {
    if s != [] {
      FilterSort(p, s[1..], le);
      SortSpec(s[1..], le);
      FilterInsert(p, s[0], Sort(s[1..], le), le);
    }
  }

  lemma {:induction false} MapInsert<T(!new)>(f: T -> T, x: T, t: seq<T>, le: (T, T) -> bool)
    requires forall a, b :: le(f(a), f(b)) == le(a, b)
    ensures Map(f, Insert(x, t, le)) == Insert(f(x), Map(f, t), le)
  {
    if t == [] || le(x, t[0]) {
    } else {
      MapInsert(f, x, t[1..], le);
      assert Map(f, t)[1..] == Map(f, t[1..]);
      assert Map(f, Insert(x, t, le)) == [f(t[0])] + Map(f, Insert(x, t[1..], le));
    }
  }

  // Sorting and a change the comparison does not see commute.
  lemma {:induction false} MapSort<T(!new)>(f: T -> T, s: seq<T>, le: (T, T) -> bool)
    requires forall a, b :: le(f(a), f(b)) == le(a, b)
    ensures Map(f, Sort(s, le)) == Sort(Map(f, s), le)
  {
    if s != [] {
      MapSort(f, s[1..], le);
      MapInsert(f, s[0], Sort(s[1..], le), le);
      assert Map(f, s)[1..] == Map(f, s[1..]);
    }
  }

  // An order of the given elements, if not of all.
  ghost predicate OrdersOn<T(!new)>(s: seq<T>, le: (T, T) -> bool) {
    && (forall a, b :: a in s && b in s ==> le(a, b) || le(b, a))
    && (forall a, b, c :: a in s && b in s && c in s && le(a, b) && le(b, c) ==> le(a, c))
  }

  lemma {:induction false} InsertSortedOn<T(!new)>(all: seq<T>, x: T, t: seq<T>, le: (T, T) -> bool)
    requires OrdersOn(all, le) && x in all && (forall y :: y in t ==> y in all) && Sorted(t, le)
    ensures Sorted(Insert(x, t, le), le)
    ensures forall y :: y in Insert(x, t, le) <==> (y == x || y in t)
  {
    if t == [] || le(x, t[0]) {
      assert ([x] + t)[1..] == t;
      forall y | y in t ensures le(x, y) {
        assert t == [t[0]] + t[1..];
        assert y == t[0] || le(t[0], y);
      }
    } else {
      assert t == [t[0]] + t[1..];
      InsertSortedOn(all, x, t[1..], le);
      assert le(t[0], x);
      assert ([t[0]] + Insert(x, t[1..], le))[1..] == Insert(x, t[1..], le);
    }
  }

  // Sorting elements the comparison orders puts them in order.
  lemma {:induction false} SortOn<T(!new)>(all: seq<T>, s: seq<T>, le: (T, T) -> bool)
    requires OrdersOn(all, le) && forall y :: y in s ==> y in all
    ensures Sorted(Sort(s, le), le)
    ensures forall y :: y in Sort(s, le) <==> y in s
  {
    if s != [] {
      assert s == [s[0]] + s[1..];
      SortOn(all, s[1..], le);
      InsertSortedOn(all, s[0], Sort(s[1..], le), le);
    }
  }
}
