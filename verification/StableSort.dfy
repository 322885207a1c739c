/** Array.prototype.sort as the language standard specifies it: the result is sorted by the
    comparator and elements that compare equal keep their order (section 23.1.3.30 of ECMA-262).
    `StableSortUnique` shows that this determines the result, so `Sort` stands for every engine. */
module StableSort {
  import opened Sequences

  ghost predicate TotalPreorder<T(!new)>(leq: (T, T) -> bool)
  {
    && (forall a, b :: leq(a, b) || leq(b, a))
    && (forall a, b, c :: leq(a, b) && leq(b, c) ==> leq(a, c))
  }

  ghost predicate Sorted<T>(leq: (T, T) -> bool, s: seq<T>)
  {
    forall i, j :: 0 <= i < j < |s| ==> leq(s[i], s[j])
  }

  /** The elements that compare equal to `k`. */
  function TiedWith<T>(leq: (T, T) -> bool, k: T): T -> bool
  {
    x => leq(k, x) && leq(x, k)
  }

  /** What the standard promises of `r = s.sort(...)`. */
  ghost predicate StableSortOf<T(!new)>(leq: (T, T) -> bool, s: seq<T>, r: seq<T>)
  {
    && Sorted(leq, r)
    && forall k :: Filter(TiedWith(leq, k), r) == Filter(TiedWith(leq, k), s)
  }

  function Insert<T>(leq: (T, T) -> bool, x: T, s: seq<T>): (r: seq<T>)
  {
    if s == [] || leq(x, s[0]) then [x] + s
    else [s[0]] + Insert(leq, x, s[1..])
  }

  function Sort<T>(leq: (T, T) -> bool, s: seq<T>): (r: seq<T>)
  {
    if s == [] then [] else Insert(leq, s[0], Sort(leq, s[1..]))
  }

  lemma {:induction false} InsertPermutes<T>(leq: (T, T) -> bool, x: T, s: seq<T>)
    ensures multiset(Insert(leq, x, s)) == multiset{x} + multiset(s)
    ensures |Insert(leq, x, s)| == |s| + 1
  {
    if !(s == [] || leq(x, s[0])) {
      InsertPermutes(leq, x, s[1..]);
      assert s == [s[0]] + s[1..];
    }
  }

  lemma {:induction false} SortPermutes<T>(leq: (T, T) -> bool, s: seq<T>)
    ensures multiset(Sort(leq, s)) == multiset(s)
    ensures |Sort(leq, s)| == |s|
  {
    if s != [] {
      SortPermutes(leq, s[1..]);
      InsertPermutes(leq, s[0], Sort(leq, s[1..]));
      assert s == [s[0]] + s[1..];
    }
  }

  lemma SameElements<T>(s: seq<T>, t: seq<T>)
    requires multiset(s) == multiset(t)
    ensures forall x :: x in s <==> x in t
  {
    forall x
      ensures x in s <==> x in t
    {
      assert x in s <==> x in multiset(s);
      assert x in t <==> x in multiset(t);
    }
  }

  lemma {:induction false} InsertSorted<T(!new)>(leq: (T, T) -> bool, x: T, s: seq<T>)
    requires TotalPreorder(leq) && Sorted(leq, s)
    ensures Sorted(leq, Insert(leq, x, s))
  {
    if !(s == [] || leq(x, s[0])) {
      var rest := Insert(leq, x, s[1..]);
      InsertSorted(leq, x, s[1..]);
      InsertPermutes(leq, x, s[1..]);
      forall y | y in rest
        ensures leq(s[0], y)
      {
        assert y in multiset(rest);
        assert y == x || y in s[1..];
      }
    }
  }

  lemma {:induction false} SortSorted<T(!new)>(leq: (T, T) -> bool, s: seq<T>)
    requires TotalPreorder(leq)
    ensures Sorted(leq, Sort(leq, s))
  {
    if s != [] {
      SortSorted(leq, s[1..]);
      InsertSorted(leq, s[0], Sort(leq, s[1..]));
    }
  }

  lemma {:induction false} FilterInsert<T(!new)>(leq: (T, T) -> bool, keep: T -> bool, x: T, s: seq<T>)
    requires TotalPreorder(leq) && Sorted(leq, s)
    ensures Filter(keep, Insert(leq, x, s)) ==
            if keep(x) then Insert(leq, x, Filter(keep, s)) else Filter(keep, s)
  {
    if s == [] || leq(x, s[0]) {
      FilterAppend(keep, [x], s);
      var f := Filter(keep, s);
      if f != [] {
        assert f[0] in s;
        assert leq(x, f[0]);
      }
    } else {
      FilterInsert(leq, keep, x, s[1..]);
      var inserted := Insert(leq, x, s);
      assert inserted[1..] == Insert(leq, x, s[1..]);
      var tail := Filter(keep, s[1..]);
      if keep(s[0]) {
        var kept := Filter(keep, s);
        assert kept[0] == s[0] && kept[1..] == tail;
      }
    }
  }

  /** Dropping elements before or after sorting makes no difference. */
  lemma {:induction false} SortCommutesWithFilter<T(!new)>(leq: (T, T) -> bool, keep: T -> bool, s: seq<T>)
    requires TotalPreorder(leq)
    ensures Filter(keep, Sort(leq, s)) == Sort(leq, Filter(keep, s))
  {
    if s != [] {
      SortCommutesWithFilter(leq, keep, s[1..]);
      SortSorted(leq, s[1..]);
      FilterInsert(leq, keep, s[0], Sort(leq, s[1..]));
      var kept := Filter(keep, s);
      if keep(s[0]) {
        assert kept[0] == s[0] && kept[1..] == Filter(keep, s[1..]);
      }
    }
  }

  /** A sequence that is in order already is left alone. */
  lemma {:induction false} SortFixesSorted<T>(leq: (T, T) -> bool, s: seq<T>)
    requires Sorted(leq, s)
    ensures Sort(leq, s) == s
  {
    if s != [] {
      SortFixesSorted(leq, s[1..]);
    }
  }

  /** `Sort` meets the standard's promise. */
  lemma SortIsStable<T(!new)>(leq: (T, T) -> bool, s: seq<T>)
    requires TotalPreorder(leq)
    ensures StableSortOf(leq, s, Sort(leq, s))
  {
    SortSorted(leq, s);
    forall k
      ensures Filter(TiedWith(leq, k), Sort(leq, s)) == Filter(TiedWith(leq, k), s)
    {
      SortKeepsTies(leq, s, k);
    }
  }

  lemma SortKeepsTies<T(!new)>(leq: (T, T) -> bool, s: seq<T>, k: T)
    requires TotalPreorder(leq)
    ensures Filter(TiedWith(leq, k), Sort(leq, s)) == Filter(TiedWith(leq, k), s)
  {
    var tied := Filter(TiedWith(leq, k), s);
    SortCommutesWithFilter(leq, TiedWith(leq, k), s);
    forall i, j | 0 <= i < j < |tied|
      ensures leq(tied[i], tied[j])
    {
      assert tied[i] in tied && tied[j] in tied;
      assert leq(tied[i], k) && leq(k, tied[j]);
    }
    SortFixesSorted(leq, tied);
  }

  /** ... and is the only sequence that does. */
  lemma {:induction false} StableSortUnique<T(!new)>(leq: (T, T) -> bool, r: seq<T>, t: seq<T>)
    requires TotalPreorder(leq) && Sorted(leq, r) && Sorted(leq, t)
    requires forall k :: Filter(TiedWith(leq, k), r) == Filter(TiedWith(leq, k), t)
    ensures r == t
    decreases |r|
  {
    if r == [] {
      if t != [] {
        OwnTie(leq, t, r, t[0]);
      }
    } else {
      OwnTie(leq, r, t, r[0]);
      OwnTie(leq, t, r, t[0]);
      SameHead(leq, r, t);
      forall k
        ensures Filter(TiedWith(leq, k), r[1..]) == Filter(TiedWith(leq, k), t[1..])
      {
        DropHead(TiedWith(leq, k), r, t);
      }
      StableSortUnique(leq, r[1..], t[1..]);
    }
  }

  lemma OwnTie<T(!new)>(leq: (T, T) -> bool, r: seq<T>, t: seq<T>, x: T)
    requires x in r && leq(x, x)
    requires Filter(TiedWith(leq, x), r) == Filter(TiedWith(leq, x), t)
    ensures x in t
  {
    assert x in Filter(TiedWith(leq, x), r);
  }

  lemma SameHead<T(!new)>(leq: (T, T) -> bool, r: seq<T>, t: seq<T>)
    requires Sorted(leq, r) && Sorted(leq, t) && r != [] && t != []
    requires leq(r[0], r[0]) && leq(t[0], t[0]) && t[0] in r && r[0] in t
    requires Filter(TiedWith(leq, r[0]), r) == Filter(TiedWith(leq, r[0]), t)
    ensures r[0] == t[0]
  {
    assert leq(r[0], t[0]) && leq(t[0], r[0]);
    assert Filter(TiedWith(leq, r[0]), r)[0] == r[0];
    assert Filter(TiedWith(leq, r[0]), t)[0] == t[0];
  }

  lemma DropHead<T(!new)>(keep: T -> bool, r: seq<T>, t: seq<T>)
    requires r != [] && t != [] && r[0] == t[0]
    requires Filter(keep, r) == Filter(keep, t)
    ensures Filter(keep, r[1..]) == Filter(keep, t[1..])
  {
    if keep(r[0]) {
      assert Filter(keep, r)[1..] == Filter(keep, r[1..]);
      assert Filter(keep, t)[1..] == Filter(keep, t[1..]);
    }
  }

  /** Every engine that keeps the standard's promise returns `Sort`. */
  lemma AnyStableSortIsSort<T(!new)>(leq: (T, T) -> bool, s: seq<T>, r: seq<T>)
    requires TotalPreorder(leq)
    ensures StableSortOf(leq, s, r) <==> r == Sort(leq, s)
  {
    SortIsStable(leq, s);
    if StableSortOf(leq, s, r) {
      StableSortUnique(leq, r, Sort(leq, s));
    }
  }

  lemma LeastsTie<T(!new)>(leq: (T, T) -> bool, r: seq<T>, t: seq<T>)
    requires Sorted(leq, r) && Sorted(leq, t) && TotalPreorder(leq)
    requires r != [] && t != [] && r[0] in t && t[0] in r
    ensures leq(r[0], t[0]) && leq(t[0], r[0])
  {}

  lemma MultisetTail<T>(s: seq<T>)
    requires s != []
    ensures multiset(s[1..]) == multiset(s) - multiset{s[0]}
  {
    assert s == [s[0]] + s[1..];
  }

  lemma {:induction false} SortedUnique<T(!new)>(leq: (T, T) -> bool, r: seq<T>, t: seq<T>)
    requires Sorted(leq, r) && Sorted(leq, t) && multiset(r) == multiset(t)
    requires TotalPreorder(leq)
    requires forall x, y :: x in r && y in r && leq(x, y) && leq(y, x) ==> x == y
    ensures r == t
    decreases |r|
  {
    assert |r| == |multiset(r)| == |multiset(t)| == |t|;
    if r != [] {
      SameElements(r, t);
      LeastsTie(leq, r, t);
      MultisetTail(r);
      MultisetTail(t);
      SortedUnique(leq, r[1..], t[1..]);
    }
  }

  /** Where only identical elements tie, the starting order is irrelevant. */
  lemma SortIgnoresOrder<T(!new)>(leq: (T, T) -> bool, s: seq<T>, t: seq<T>)
    requires TotalPreorder(leq) && multiset(s) == multiset(t)
    requires forall x, y :: x in s && y in s && leq(x, y) && leq(y, x) ==> x == y
    ensures Sort(leq, s) == Sort(leq, t)
  {
    SortPermutes(leq, s);
    SortPermutes(leq, t);
    SortSorted(leq, s);
    SortSorted(leq, t);
    SameElements(s, Sort(leq, s));
    SortedUnique(leq, Sort(leq, s), Sort(leq, t));
  }

  /** String.prototype.localeCompare, taken as a given total order on strings. */
  ghost predicate Collation(compare: (string, string) -> int)
  {
    && (forall a, b :: compare(a, b) == 0 <==> a == b)
    && (forall a, b :: compare(a, b) <= 0 <==> compare(b, a) >= 0)
    && (forall a, b, c :: compare(a, b) <= 0 && compare(b, c) <= 0 ==> compare(a, c) <= 0)
  }
}
