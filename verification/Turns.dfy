/** Reading a list `limit` entries at a time from an offset, where the list may be another one at every turn. */
module Turns {
  import opened Sequences

  /** One turn at the list. */
  function Turn<T>(list: seq<T>, limit: nat, offset: nat): seq<T>
  {
    if offset + limit < |list| then list[offset..offset + limit]
    else if offset <= |list| then list[offset..]
    else []
  }

  /** The i-th turn reads lists(i); the reading ends when an offset is reached that is behind the list. */
  function TakeTurns<T>(lists: nat -> seq<T>, limit: nat, bound: nat, offset: nat, i: nat): (turns: seq<seq<T>>)
    requires limit >= 1 && Bounded(lists, bound)
    ensures |turns| >= 1
    decreases bound - offset
  {
    assert |lists(i)| <= bound;
    [Turn(lists(i), limit, offset)] +
    if offset + limit >= |lists(i)| then [] else TakeTurns(lists, limit, bound, offset + limit, i + 1)
  }

  ghost predicate Bounded<T>(lists: nat -> seq<T>, bound: nat) { forall i :: |lists(i)| <= bound }

  /** How many turns `n` entries take; an empty list is one turn. */
  function PagesFor(n: nat, limit: nat): nat
    requires limit >= 1
  {
    if n <= limit then 1 else 1 + PagesFor(n - limit, limit)
  }

  /** That is max(1, ceil(n / limit)): the least number of turns with room for all. */
  lemma {:induction false} PagesForIsCeiling(n: nat, limit: nat)
    requires limit >= 1
    ensures PagesFor(n, limit) >= 1 && n <= PagesFor(n, limit) * limit
    ensures PagesFor(n, limit) > 1 ==> (PagesFor(n, limit) - 1) * limit < n
  {
    if n > limit {
      PagesForIsCeiling(n - limit, limit);
      var k := PagesFor(n - limit, limit);
      assert (k + 1) * limit == k * limit + limit;
      assert k > 1 ==> k * limit == (k - 1) * limit + limit;
    }
  }

  lemma FlattenOne<T>(s: seq<T>)
    ensures Flatten([s]) == s
  {
    assert [s][1..] == [];
  }

  lemma FlattenCons<T>(s: seq<T>, rest: seq<seq<T>>)
    ensures Flatten([s] + rest) == s + Flatten(rest)
  {
    assert ([s] + rest)[1..] == rest;
  }

  // ----- a list that stays the same -----

  /** The next `n` turns all read the list `all`. */
  ghost predicate StaysFor<T>(lists: nat -> seq<T>, all: seq<T>, i: nat, n: nat)
  {
    forall j :: i <= j < i + n ==> lists(j) == all
  }

  /** Every entry is read once, in order. */
  lemma {:induction false} TurnsOfOneList<T>(lists: nat -> seq<T>, limit: nat, bound: nat, all: seq<T>, offset: nat,
                                             i: nat)
    requires limit >= 1 && Bounded(lists, bound) && offset <= |all|
    requires StaysFor(lists, all, i, |TakeTurns(lists, limit, bound, offset, i)|)
    ensures Flatten(TakeTurns(lists, limit, bound, offset, i)) == all[offset..]
    ensures |TakeTurns(lists, limit, bound, offset, i)| == PagesFor(|all| - offset, limit)
    decreases bound - offset
  {
    var turn := Turn(all, limit, offset);
    StaysNext(lists, all, i, |TakeTurns(lists, limit, bound, offset, i)| - 1);
    if offset + limit >= |all| {
      FlattenOne(turn);
    } else {
      TurnsOfOneList(lists, limit, bound, all, offset + limit, i + 1);
      FlattenCons(turn, TakeTurns(lists, limit, bound, offset + limit, i + 1));
      assert all[offset..] == turn + all[offset + limit..];
    }
  }

  lemma StaysNext<T>(lists: nat -> seq<T>, all: seq<T>, i: nat, n: nat)
    requires StaysFor(lists, all, i, n + 1)
    ensures lists(i) == all && StaysFor(lists, all, i + 1, n)
  {}

  // ----- a list that grows in front -----

  predicate Suffix<T(==)>(a: seq<T>, b: seq<T>) { |a| <= |b| && b[|b| - |a|..] == a }

  ghost predicate GrowsAt<T>(lists: nat -> seq<T>, i: nat) { Suffix(lists(i), lists(i + 1)) }

  /** Where an entry is once the list has grown. */
  lemma Shifted<T>(a: seq<T>, b: seq<T>, k: nat) returns (l: nat)
    requires Suffix(a, b) && k < |a|
    ensures l == k + |b| - |a| < |b| && b[l] == a[k]
  {
    l := k + |b| - |a|;
    assert b[|b| - |a|..][k] == a[k];
  }

  /** No entry behind the offset is skipped. */
  lemma {:induction false} NothingSkipped<T>(lists: nat -> seq<T>, limit: nat, bound: nat, offset: nat, i: nat, k: nat)
    requires limit >= 1 && Bounded(lists, bound) && offset <= k < |lists(i)|
    requires forall j :: GrowsAt(lists, j)
    ensures lists(i)[k] in Flatten(TakeTurns(lists, limit, bound, offset, i))
    decreases bound - offset
  {
    if k < offset + limit {
      ReadNow(lists, limit, bound, offset, i, k);
    } else {
      assert GrowsAt(lists, i);
      var l := Shifted(lists(i), lists(i + 1), k);
      NothingSkipped(lists, limit, bound, offset + limit, i + 1, l);
      ReadLater(lists, limit, bound, offset, i, lists(i)[k]);
    }
  }

  lemma ReadNow<T>(lists: nat -> seq<T>, limit: nat, bound: nat, offset: nat, i: nat, k: nat)
    requires limit >= 1 && Bounded(lists, bound) && offset <= k < |lists(i)| && k < offset + limit
    ensures lists(i)[k] in Flatten(TakeTurns(lists, limit, bound, offset, i))
  {
    var turn := Turn(lists(i), limit, offset);
    EntryOfTurn(lists(i), limit, offset, k);
    if offset + limit >= |lists(i)| {
      FlattenOne(turn);
    } else {
      FlattenCons(turn, TakeTurns(lists, limit, bound, offset + limit, i + 1));
    }
  }

  lemma ReadLater<T>(lists: nat -> seq<T>, limit: nat, bound: nat, offset: nat, i: nat, x: T)
    requires limit >= 1 && Bounded(lists, bound) && offset + limit < |lists(i)|
    requires x in Flatten(TakeTurns(lists, limit, bound, offset + limit, i + 1))
    ensures x in Flatten(TakeTurns(lists, limit, bound, offset, i))
  {
    FlattenCons(Turn(lists(i), limit, offset), TakeTurns(lists, limit, bound, offset + limit, i + 1));
  }

  lemma EntryOfTurn<T>(list: seq<T>, limit: nat, offset: nat, k: nat)
    requires offset <= k < |list| && k < offset + limit
    ensures list[k] in Turn(list, limit, offset)
  {
    assert Turn(list, limit, offset)[k - offset] == list[k];
  }

  // ----- what the entries tell of the lists -----

  /** One of the lists is a suffix of the other. */
  predicate Nested<T(==)>(a: seq<T>, b: seq<T>) { Suffix(a, b) || Suffix(b, a) }

  ghost predicate Comparable<T>(a: seq<T>, b: seq<T>) { NoDuplicates(a) && NoDuplicates(b) && Nested(a, b) }

  lemma SameEntrySameList<T>(a: seq<T>, b: seq<T>, k: nat)
    requires Comparable(a, b) && k < |a| && k < |b| && a[k] == b[k]
    ensures a == b
  {
    if |a| <= |b| {
      var l := Shifted(a, b, k);
    } else {
      var l := Shifted(b, a, k);
    }
  }

  /** A turn that reads what `all` has at the offset reads the list `all`. */
  lemma TurnTells<T>(list: seq<T>, all: seq<T>, limit: nat, offset: nat, rest: seq<T>)
    requires limit >= 1 && Comparable(list, all) && offset <= |all| && (offset < |all| || list == all)
    requires Turn(list, limit, offset) + rest == all[offset..] && (offset + limit >= |list| ==> rest == [])
    ensures list == all
    ensures offset + limit < |list| ==> rest == all[offset + limit..]
  {
    var turn := Turn(list, limit, offset);
    if offset < |all| {
      assert turn != [];
      assert turn[0] == (turn + rest)[0] == all[offset..][0] == all[offset];
      SameEntrySameList(list, all, offset);
    }
    if offset + limit < |list| {
      assert rest == (turn + rest)[limit..] == all[offset..][limit..];
    }
  }

  ghost predicate AllComparable<T>(lists: nat -> seq<T>, all: seq<T>)
  {
    forall k: nat :: Comparable(lists(k), all)
  }

  /** Turns that read just `all` from an offset on read the list `all` every time. */
  lemma {:induction false} TurnsTell<T>(lists: nat -> seq<T>, limit: nat, bound: nat, all: seq<T>, offset: nat, i: nat,
                                        turns: seq<seq<T>>, j: nat)
    requires limit >= 1 && Bounded(lists, bound) && offset <= |all| && (offset < |all| || lists(i) == all)
    requires AllComparable(lists, all)
    requires turns == TakeTurns(lists, limit, bound, offset, i) && Flatten(turns) == all[offset..] && j < |turns|
    ensures lists(i + j) == all
    decreases j
  {
    assert Comparable(lists(i), all);
    if offset + limit >= |lists(i)| {
      FirstTells(lists(i), all, limit, offset, turns, []);
    } else {
      var rest := TakeTurns(lists, limit, bound, offset + limit, i + 1);
      FirstTells(lists(i), all, limit, offset, turns, rest);
      if j > 0 {
        TurnsTell(lists, limit, bound, all, offset + limit, i + 1, rest, j - 1);
      }
    }
  }

  lemma FirstTells<T>(list: seq<T>, all: seq<T>, limit: nat, offset: nat, turns: seq<seq<T>>, rest: seq<seq<T>>)
    requires limit >= 1 && Comparable(list, all) && offset <= |all| && (offset < |all| || list == all)
    requires turns == [Turn(list, limit, offset)] + rest && (offset + limit >= |list| ==> rest == [])
    requires Flatten(turns) == all[offset..]
    ensures list == all && (offset + limit < |list| ==> Flatten(rest) == all[offset + limit..])
  {
    FlattenCons(Turn(list, limit, offset), rest);
    TurnTells(list, all, limit, offset, Flatten(rest));
  }
}
