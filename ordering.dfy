/** Python's `sorted`, `sum` and `max` over sequences: sorting under a strict total order,
    with and without duplicates, and the two aggregates. */
module Ordering {

  ghost predicate IsStrictTotalOrder<T(!new)>(less: (T, T) -> bool)
  {
    && (forall a :: !less(a, a))
    && (forall a, b, c :: less(a, b) && less(b, c) ==> less(a, c))
    && (forall a, b :: a != b ==> less(a, b) || less(b, a))
  }

  /** Non-decreasing: no later element is smaller than an earlier one. */
  ghost predicate Sorted<T>(s: seq<T>, less: (T, T) -> bool)
  {
    forall i, j :: 0 <= i < j < |s| ==> !less(s[j], s[i])
  }

  /** Strictly ascending, hence without duplicates. */
  ghost predicate StrictlySorted<T>(s: seq<T>, less: (T, T) -> bool)
  {
    forall i, j :: 0 <= i < j < |s| ==> less(s[i], s[j])
  }

  ghost predicate Distinct<T>(s: seq<T>)
  {
    forall i, j :: 0 <= i < j < |s| ==> s[i] != s[j]
  }

  function Elements<T>(s: seq<T>): set<T>
  {
    set x | x in s
  }

  function IntLess(a: int, b: int): bool { a < b }

  function CharLess(a: char, b: char): bool { a < b }

  lemma IntLessIsStrictTotalOrder()
    ensures IsStrictTotalOrder(IntLess)
  {
  }

  lemma CharLessIsStrictTotalOrder()
    ensures IsStrictTotalOrder(CharLess)
  {
  }

  /** Puts x before the first element that is not smaller than it. */
  function Insert<T(!new)>(x: T, s: seq<T>, less: (T, T) -> bool): (r: seq<T>)
    requires IsStrictTotalOrder(less)
    requires Sorted(s, less)
    ensures Sorted(r, less)
    ensures multiset(r) == multiset(s) + multiset{x}
  {
    if s == [] || !less(s[0], x) then
      [x] + s
    else
      var tail := Insert(x, s[1..], less);
      InsertBelowHead(x, s, tail, less);
      [s[0]] + tail
  }

  /** Every element of Insert(x, s[1..]) is at least s[0] when s[0] < x. */
  lemma InsertBelowHead<T(!new)>(x: T, s: seq<T>, tail: seq<T>, less: (T, T) -> bool)
    requires IsStrictTotalOrder(less)
    requires Sorted(s, less) && s != [] && less(s[0], x)
    requires Sorted(tail, less) && multiset(tail) == multiset(s[1..]) + multiset{x}
    ensures Sorted([s[0]] + tail, less)
    ensures multiset([s[0]] + tail) == multiset(s) + multiset{x}
  {
    assert s == [s[0]] + s[1..];
    forall k | 0 <= k < |tail|
      ensures !less(tail[k], s[0])
    {
      assert tail[k] in multiset(tail);
      if tail[k] != x {
        assert tail[k] in multiset(s[1..]);
        var i :| 0 <= i < |s[1..]| && s[1..][i] == tail[k];
        assert s[i + 1] == tail[k];
      }
    }
    var r := [s[0]] + tail;
    forall i, j | 0 <= i < j < |r|
      ensures !less(r[j], r[i])
    {
      if i > 0 {
        assert r[i] == tail[i - 1] && r[j] == tail[j - 1];
      } else {
        assert r[j] == tail[j - 1];
      }
    }
  }

  /** sorted(xs): a non-decreasing permutation of xs. */
  function Sort<T(!new)>(xs: seq<T>, less: (T, T) -> bool): (r: seq<T>)
    requires IsStrictTotalOrder(less)
    ensures Sorted(r, less)
    ensures multiset(r) == multiset(xs)
  {
    if xs == [] then []
    else
      assert xs == [xs[0]] + xs[1..];
      Insert(xs[0], Sort(xs[1..], less), less)
  }

  /** Inserts x into a strictly ascending sequence unless it is already there. */
  function InsertUnique<T(==,!new)>(x: T, s: seq<T>, less: (T, T) -> bool): (r: seq<T>)
    requires IsStrictTotalOrder(less)
    requires StrictlySorted(s, less)
    ensures StrictlySorted(r, less)
    ensures Elements(r) == Elements(s) + {x}
  {
    if s == [] || less(x, s[0]) then
      [x] + s
    else if x == s[0] then
      s
    else
      var tail := InsertUnique(x, s[1..], less);
      InsertUniqueAboveHead(x, s, tail, less);
      [s[0]] + tail
  }

  lemma InsertUniqueAboveHead<T(!new)>(x: T, s: seq<T>, tail: seq<T>, less: (T, T) -> bool)
    requires IsStrictTotalOrder(less)
    requires StrictlySorted(s, less) && s != [] && less(s[0], x)
    requires StrictlySorted(tail, less) && Elements(tail) == Elements(s[1..]) + {x}
    ensures StrictlySorted([s[0]] + tail, less)
    ensures Elements([s[0]] + tail) == Elements(s) + {x}
  {
    assert s == [s[0]] + s[1..];
    forall k | 0 <= k < |tail|
      ensures less(s[0], tail[k])
    {
      assert tail[k] in Elements(tail);
      if tail[k] != x {
        var i :| 0 <= i < |s[1..]| && s[1..][i] == tail[k];
        assert s[i + 1] == tail[k];
      }
    }
    var r := [s[0]] + tail;
    forall i, j | 0 <= i < j < |r|
      ensures less(r[i], r[j])
    {
      if i > 0 {
        assert r[i] == tail[i - 1] && r[j] == tail[j - 1];
      } else {
        assert r[j] == tail[j - 1];
      }
    }
    assert Elements(r) == {s[0]} + Elements(tail);
    assert Elements(s) == {s[0]} + Elements(s[1..]);
  }

  /** sorted(set(xs)): the distinct elements of xs in strictly ascending order. */
  function SortedUnique<T(==,!new)>(xs: seq<T>, less: (T, T) -> bool): (r: seq<T>)
    requires IsStrictTotalOrder(less)
    ensures StrictlySorted(r, less)
    ensures Elements(r) == Elements(xs)
  {
    if xs == [] then []
    else
      assert xs == [xs[0]] + xs[1..];
      InsertUnique(xs[0], SortedUnique(xs[1..], less), less)
  }

  /** A strictly sorted sequence has no duplicates, so it has as many elements as its set. */
  lemma {:induction false} StrictlySortedCard<T(!new)>(s: seq<T>, less: (T, T) -> bool)
    requires IsStrictTotalOrder(less)
    requires StrictlySorted(s, less)
    ensures Distinct(s)
    ensures |Elements(s)| == |s|
  {
    if s != [] {
      StrictlySortedCard(s[1..], less);
      assert Elements(s) == {s[0]} + Elements(s[1..]);
      forall k | 0 <= k < |s| - 1
        ensures s[1..][k] != s[0]
      {
        assert less(s[0], s[k + 1]);
      }
      assert s[0] !in Elements(s[1..]);
    }
  }

  /** Removing the first element of a sequence removes it from its multiset. */
  lemma TailMultiset<T>(a: seq<T>)
    requires a != []
    ensures multiset(a[1..]) == multiset(a) - multiset{a[0]}
  {
    assert a == [a[0]] + a[1..];
  }

  /** Two sorted arrangements of one multiset start with the same element. */
  lemma SortedHeadsAgree<T(!new)>(a: seq<T>, b: seq<T>, less: (T, T) -> bool)
    requires IsStrictTotalOrder(less)
    requires Sorted(a, less) && Sorted(b, less)
    requires a != [] && multiset(a) == multiset(b)
    ensures a[0] == b[0]
  {
    assert a[0] in multiset(b);
    assert b[0] in multiset(a);
    var i :| 0 <= i < |b| && b[i] == a[0];
    var j :| 0 <= j < |a| && a[j] == b[0];
    assert !less(b[0], a[0]) by {
      if j > 0 {
        assert !less(a[j], a[0]);
      }
    }
    assert !less(a[0], b[0]) by {
      if i > 0 {
        assert !less(b[i], b[0]);
      }
    }
  }

  /** Two sorted sequences with the same elements (counted with multiplicity) are equal. */
  lemma {:induction false} SortedUniquely<T(!new)>(a: seq<T>, b: seq<T>, less: (T, T) -> bool)
    requires IsStrictTotalOrder(less)
    requires Sorted(a, less) && Sorted(b, less)
    requires multiset(a) == multiset(b)
    ensures a == b
  {
    if a != [] {
      assert b != [] && a[0] == b[0] && multiset(a[1..]) == multiset(b[1..]) by {
        assert a[0] in multiset(b);
        SortedHeadsAgree(a, b, less);
        TailMultiset(a);
        TailMultiset(b);
      }
      assert Sorted(a[1..], less) && Sorted(b[1..], less);
      SortedUniquely(a[1..], b[1..], less);
      assert a == [a[0]] + a[1..] && b == [b[0]] + b[1..];
    }
  }

  /** The result of sorting does not depend on the order of its input. */
  lemma SortDeterminedByMultiset<T(!new)>(xs: seq<T>, ys: seq<T>, less: (T, T) -> bool)
    requires IsStrictTotalOrder(less)
    requires multiset(xs) == multiset(ys)
    ensures Sort(xs, less) == Sort(ys, less)
  {
    SortedUniquely(Sort(xs, less), Sort(ys, less), less);
  }

  // ---------------------------------------------------------------- sum() and max()

  /** sum(s). */
  function Sum(s: seq<int>): int
  {
    if s == [] then 0 else Sum(s[..|s| - 1]) + s[|s| - 1]
  }

  lemma {:induction false} SumAppend(a: seq<int>, b: seq<int>)
    ensures Sum(a + b) == Sum(a) + Sum(b)
    decreases |b|
  {
    if b != [] {
      assert (a + b)[..|a + b| - 1] == a + b[..|b| - 1];
      SumAppend(a, b[..|b| - 1]);
    } else {
      assert a + b == a;
    }
  }

  lemma {:induction false} SumOfZeros(s: seq<int>)
    requires forall i :: 0 <= i < |s| ==> s[i] == 0
    ensures Sum(s) == 0
  {
    if s != [] {
      SumOfZeros(s[..|s| - 1]);
    }
  }

  /** No entry of a sequence of non-negative numbers exceeds its sum. */
  lemma {:induction false} EntryAtMostSum(s: seq<int>, j: nat)
    requires forall i :: 0 <= i < |s| ==> s[i] >= 0
    requires j < |s|
    ensures s[j] <= Sum(s)
  {
    var pre := s[..|s| - 1];
    if j < |s| - 1 {
      EntryAtMostSum(pre, j);
    }
    SumOfNonNegatives(pre);
  }

  lemma {:induction false} SumOfNonNegatives(s: seq<int>)
    requires forall i :: 0 <= i < |s| ==> s[i] >= 0
    ensures Sum(s) >= 0
  {
    if s != [] {
      SumOfNonNegatives(s[..|s| - 1]);
    }
  }

  /** Adding one to one entry adds one to the sum. */
  lemma {:induction false} SumIncrement(s: seq<int>, i: nat)
    requires i < |s|
    ensures Sum(s[i := s[i] + 1]) == Sum(s) + 1
  {
    var t := s[i := s[i] + 1];
    assert s == s[..i] + [s[i]] + s[i + 1..];
    assert t == s[..i] + [s[i] + 1] + s[i + 1..];
    SumAppend(s[..i] + [s[i]], s[i + 1..]);
    SumAppend(s[..i] + [s[i] + 1], s[i + 1..]);
    SumAppend(s[..i], [s[i]]);
    SumAppend(s[..i], [s[i] + 1]);
  }

  /** max(s + [0]): the largest entry, or 0 for an empty sequence. */
  function MaxOrZero(s: seq<nat>): (m: nat)
    ensures forall i :: 0 <= i < |s| ==> s[i] <= m
    ensures m == 0 || exists i :: 0 <= i < |s| && s[i] == m
  {
    if s == [] then 0
    else
      var m := MaxOrZero(s[..|s| - 1]);
      if s[|s| - 1] > m then s[|s| - 1] else m
  }
}
