/** List comprehensions with a condition, counting by a key, and list.index. */
module Lists {
  import opened Ordering

  /** The elements of s satisfying p, in their order in s. */
  function Filter<T(!new)>(s: seq<T>, p: T -> bool): (r: seq<T>)
    ensures |r| <= |s|
    ensures forall x :: x in r <==> x in s && p(x)
  {
    if s == [] then []
    else
      assert s == s[..|s| - 1] + [s[|s| - 1]];
      Filter(s[..|s| - 1], p) + (if p(s[|s| - 1]) then [s[|s| - 1]] else [])
  }

  /** A filter keeps every element of a run of s on which p holds. */
  lemma {:induction false} FilterKeepsRun<T(!new)>(s: seq<T>, p: T -> bool, lo: nat, hi: nat)
    requires lo <= hi <= |s|
    requires forall i :: lo <= i < hi ==> p(s[i])
    ensures |Filter(s, p)| >= hi - lo
    decreases |s|
  {
    if lo < hi {
      var init := s[..|s| - 1];
      if hi == |s| {
        FilterKeepsRun(init, p, lo, hi - 1);
      } else {
        FilterKeepsRun(init, p, lo, hi);
      }
    }
  }

  /** Filtering keeps order: it distributes over concatenation. */
  lemma {:induction false} FilterAppend<T(!new)>(a: seq<T>, b: seq<T>, p: T -> bool)
    ensures Filter(a + b, p) == Filter(a, p) + Filter(b, p)
    decreases |b|
  {
    if b == [] {
      assert a + b == a;
    } else {
      assert (a + b)[..|a + b| - 1] == a + b[..|b| - 1];
      FilterAppend(a, b[..|b| - 1], p);
    }
  }

  /** Filtering by a stronger condition after a weaker one is filtering by the stronger one. */
  lemma {:induction false} FilterOfFilter<T(!new)>(s: seq<T>, p: T -> bool, q: T -> bool)
    requires forall x :: p(x) ==> q(x)
    ensures Filter(Filter(s, q), p) == Filter(s, p)
  {
    if s != [] {
      var pre, last := s[..|s| - 1], s[|s| - 1];
      FilterOfFilter(pre, p, q);
      var kept := if q(last) then [last] else [];
      FilterAppend(Filter(pre, q), kept, p);
      if q(last) {
        assert [last][..0] == [];
      }
    }
  }

  /** The number of elements of s whose key is k. */
  function Count<T, K(==)>(s: seq<T>, key: T -> K, k: K): nat
  {
    if s == [] then 0
    else Count(s[..|s| - 1], key, k) + (if key(s[|s| - 1]) == k then 1 else 0)
  }

  /** The count of every key, in the order of keys. */
  function Counts<T, K(==)>(s: seq<T>, key: T -> K, keys: seq<K>): (cs: seq<nat>)
    ensures |cs| == |keys| && forall i :: 0 <= i < |keys| ==> cs[i] == Count(s, key, keys[i])
  {
    seq(|keys|, i requires 0 <= i < |keys| => Count(s, key, keys[i]))
  }

  /** A non-empty sequence is its front followed by its last element. */
  lemma FrontLast<T>(s: seq<T>)
    requires s != []
    ensures s[..|s| - 1] + [s[|s| - 1]] == s
  {
  }

  /** A prefix one longer is the prefix followed by the next element. */
  lemma PrefixSnoc<T>(s: seq<T>, i: nat)
    requires i < |s|
    ensures s[..i + 1] == s[..i] + [s[i]]
  {
  }

  /** The prefix of a sequence up to its length is the whole sequence. */
  lemma WholePrefix<T>(s: seq<T>)
    ensures s[..|s|] == s
  {
  }

  /** keys.index(x): the first position holding x. */
  function IndexOf<T(==)>(s: seq<T>, x: T): (i: nat)
    requires x in s
    ensures i < |s| && s[i] == x
    ensures forall j :: 0 <= j < i ==> s[j] != x
  {
    if s[0] == x then 0 else 1 + IndexOf(s[1..], x)
  }

  /** Appending an element whose key is keys[i] adds one to the i-th count and nothing else. */
  lemma CountsStep<T, K>(s: seq<T>, x: T, t: seq<T>, key: T -> K, keys: seq<K>, i: nat)
    requires t == s + [x]
    requires Distinct(keys) && i < |keys| && key(x) == keys[i]
    ensures Counts(t, key, keys) == Counts(s, key, keys)[i := Counts(s, key, keys)[i] + 1]
  {
    assert t[..|s|] == s;
    var before := Counts(s, key, keys);
    forall j | 0 <= j < |keys|
      ensures Counts(t, key, keys)[j] == before[i := before[i] + 1][j]
    {
      assert key(x) == keys[j] <==> j == i;
    }
  }

  /** Appending an element whose key is not listed changes no count. */
  lemma CountsSkip<T, K>(s: seq<T>, x: T, t: seq<T>, key: T -> K, keys: seq<K>)
    requires t == s + [x]
    requires key(x) !in keys
    ensures Counts(t, key, keys) == Counts(s, key, keys)
  {
    assert t[..|s|] == s;
    forall j | 0 <= j < |keys|
      ensures Counts(t, key, keys)[j] == Counts(s, key, keys)[j]
    {
      assert key(x) != keys[j];
    }
  }

  /** When every element's key is one of a list of distinct keys, the counts per key add up
      to the number of elements: the keys partition the list. */
  lemma {:induction false} CountsPartition<T, K>(s: seq<T>, key: T -> K, keys: seq<K>)
    requires Distinct(keys)
    requires forall i :: 0 <= i < |s| ==> key(s[i]) in keys
    ensures Sum(Counts(s, key, keys)) == |s|
  {
    if s != [] {
      var pre, last := s[..|s| - 1], s[|s| - 1];
      CountsPartition(pre, key, keys);
      var i := IndexOf(keys, key(last));
      assert s == pre + [last];
      CountsStep(pre, last, s, key, keys, i);
      SumIncrement(Counts(pre, key, keys), i);
    } else {
      SumOfZeros(Counts(s, key, keys));
    }
  }

  /** Counting by a finer key: when the keys listed are exactly the finer keys of the elements
      in one coarse class, their counts add up to the size of that class. */
  lemma {:induction false} CountsRefine<T, K, C>(s: seq<T>, key: T -> K, keys: seq<K>, coarse: T -> C, c: C)
    requires Distinct(keys)
    requires forall i :: 0 <= i < |s| && coarse(s[i]) == c ==> key(s[i]) in keys
    requires forall x, i :: 0 <= i < |keys| && key(x) == keys[i] ==> coarse(x) == c
    ensures Sum(Counts(s, key, keys)) == Count(s, coarse, c)
  {
    if s != [] {
      var pre, last := s[..|s| - 1], s[|s| - 1];
      CountsRefine(pre, key, keys, coarse, c);
      assert s == pre + [last];
      if coarse(last) == c {
        var i := IndexOf(keys, key(last));
        CountsStep(pre, last, s, key, keys, i);
        SumIncrement(Counts(pre, key, keys), i);
      } else {
        CountsSkip(pre, last, s, key, keys);
      }
    } else {
      SumOfZeros(Counts(s, key, keys));
    }
  }

  /** Filtering keeps a sorted list sorted. */
  lemma {:induction false} FilterSorted<T(!new)>(s: seq<T>, p: T -> bool, less: (T, T) -> bool)
    requires Sorted(s, less)
    ensures Sorted(Filter(s, p), less)
  {
    if s != [] {
      var init, last := s[..|s| - 1], s[|s| - 1];
      FilterSorted(init, p, less);
      var front := Filter(init, p);
      if p(last) {
        forall i | 0 <= i < |front|
          ensures !less(last, front[i])
        {
          assert front[i] in init;
          var j :| 0 <= j < |init| && init[j] == front[i];
          assert s[j] == init[j];
        }
        assert Filter(s, p) == front + [last];
      }
    }
  }

  /** Taking the same element out of two lists with the same elements. */
  lemma RemoveOne<T>(init: seq<T>, before: seq<T>, after: seq<T>, x: T, s: seq<T>, t: seq<T>)
    requires s == init + [x] && t == before + [x] + after && multiset(s) == multiset(t)
    ensures multiset(init) == multiset(before + after)
  {
    calc {
      multiset(init);
      multiset(s) - multiset{x};
      multiset(t) - multiset{x};
      multiset(before) + multiset(after);
    }
  }

  /** Two lists with the same elements have as many elements passing any test. */
  lemma {:induction false} FilterLengthPermutation<T(!new)>(s: seq<T>, t: seq<T>, p: T -> bool)
    requires multiset(s) == multiset(t)
    ensures |Filter(s, p)| == |Filter(t, p)|
    decreases |s|
  {
    if s == [] {
      assert |t| == |multiset(t)|;
    } else {
      var init, last := s[..|s| - 1], s[|s| - 1];
      assert s == init + [last];
      assert last in multiset(t);
      var i :| 0 <= i < |t| && t[i] == last;
      var before, after := t[..i], t[i + 1..];
      assert t == before + [last] + after;
      RemoveOne(init, before, after, last, s, t);
      FilterLengthPermutation(init, before + after, p);
      FilterAppend(before, after, p);
      FilterAppend(before + [last], after, p);
      FilterAppend(before, [last], p);
      FilterAppend(init, [last], p);
    }
  }

  /** Counting the elements with key k is measuring the list of those elements. */
  lemma {:induction false} CountIsFilterLength<T(!new), K>(s: seq<T>, key: T -> K, k: K, p: T -> bool)
    requires forall x :: p(x) <==> key(x) == k
    ensures Count(s, key, k) == |Filter(s, p)|
  {
    if s != [] {
      CountIsFilterLength(s[..|s| - 1], key, k, p);
    }
  }

  /** Nothing passes the test: the comprehension is empty. */
  lemma {:induction false} FilterNone<T(!new)>(s: seq<T>, p: T -> bool)
    requires forall i :: 0 <= i < |s| ==> !p(s[i])
    ensures Filter(s, p) == []
  {
    if s != [] {
      FilterNone(s[..|s| - 1], p);
    }
  }
}
