/**
 * A stable sort into non-increasing order of a key, the behaviour of
 * `std::stable_sort` with the comparator `key(a) > key(b)`. The Lexicon
 * rebuild orders its rows by frequency with it and the classifier ranks
 * its labels by score with it.
 */
module Sorting {

  /** Non-increasing order of `key`. */
  predicate SortedDesc<T>(s: seq<T>, key: T -> real)
  {
    forall i, j :: 0 <= i < j < |s| ==> key(s[i]) >= key(s[j])
  }

  /** The elements of `s` whose key is `k`, in their order in `s`. */
  function WithKey<T>(s: seq<T>, key: T -> real, k: real): (r: seq<T>)
    ensures |r| <= |s|
  {
    if s == [] then []
    else WithKey(s[..|s| - 1], key, k) + (if key(s[|s| - 1]) == k then [s[|s| - 1]] else [])
  }

  /** Inserts `x` after every element whose key is at least `key(x)`. */
  function InsertDesc<T>(s: seq<T>, x: T, key: T -> real): (r: seq<T>)
  {
    if s == [] || key(s[|s| - 1]) >= key(x) then s + [x]
    else InsertDesc(s[..|s| - 1], x, key) + [s[|s| - 1]]
  }

  /** Insertion sort: each element in turn is inserted into the sorted prefix. */
  function SortDesc<T>(s: seq<T>, key: T -> real): (r: seq<T>)
  {
    if s == [] then [] else InsertDesc(SortDesc(s[..|s| - 1], key), s[|s| - 1], key)
  }

  // ---------------------------------------------------------------------

  lemma {:induction false} InsertDescMultiset<T>(s: seq<T>, x: T, key: T -> real)
    ensures multiset(InsertDesc(s, x, key)) == multiset(s) + multiset{x}
  {
    if s == [] || key(s[|s| - 1]) >= key(x) {
    } else {
      var init := s[..|s| - 1];
      InsertDescMultiset(init, x, key);
      assert s == init + [s[|s| - 1]];
    }
  }

  /** Every element of the result is either `x` or an element of `s`. */
  lemma InsertDescMembers<T>(s: seq<T>, x: T, key: T -> real)
    ensures |InsertDesc(s, x, key)| == |s| + 1
    ensures forall y :: y in InsertDesc(s, x, key) ==> y == x || y in s
  {
    InsertDescMultiset(s, x, key);
    assert |multiset(InsertDesc(s, x, key))| == |s| + 1;
    forall y | y in InsertDesc(s, x, key)
      ensures y == x || y in s
    {
      assert y in multiset(InsertDesc(s, x, key));
    }
  }

  lemma {:induction false} InsertDescSorted<T>(s: seq<T>, x: T, key: T -> real)
    requires SortedDesc(s, key)
    ensures SortedDesc(InsertDesc(s, x, key), key)
  {
    if s == [] || key(s[|s| - 1]) >= key(x) {
    } else {
      var init := s[..|s| - 1];
      var last := s[|s| - 1];
      InsertDescSorted(init, x, key);
      InsertDescMembers(init, x, key);
      var r := InsertDesc(init, x, key);
      forall y | y in r ensures key(y) >= key(last) {
        if y != x {
          var i :| 0 <= i < |init| && init[i] == y;
          assert s[i] == y;
        }
      }
      forall i, j | 0 <= i < j < |r + [last]|
        ensures key((r + [last])[i]) >= key((r + [last])[j])
      {
        if j == |r| {
          assert (r + [last])[i] == r[i];
          assert r[i] in r;
        }
      }
    }
  }

  lemma {:induction false} InsertDescWithKey<T>(s: seq<T>, x: T, key: T -> real, k: real)
    requires SortedDesc(s, key)
    ensures WithKey(InsertDesc(s, x, key), key, k)
         == WithKey(s, key, k) + (if key(x) == k then [x] else [])
  {
    if s == [] || key(s[|s| - 1]) >= key(x) {
      assert (s + [x])[..|s|] == s;
    } else {
      var init := s[..|s| - 1];
      var last := s[|s| - 1];
      assert SortedDesc(init, key);
      InsertDescWithKey(init, x, key, k);
      var r := InsertDesc(init, x, key);
      assert (r + [last])[..|r|] == r;
      assert key(last) < key(x);
      assert WithKey(r + [last], key, k) == WithKey(r, key, k) + (if key(last) == k then [last] else []);
      assert WithKey(s, key, k) == WithKey(init, key, k) + (if key(last) == k then [last] else []);
      if key(x) == k {
        assert key(last) != k;
      }
    }
  }

  /** The sort orders its input into non-increasing key order. */
  lemma {:induction false} SortDescSorted<T>(s: seq<T>, key: T -> real)
    ensures SortedDesc(SortDesc(s, key), key)
  {
    if s != [] {
      SortDescSorted(s[..|s| - 1], key);
      InsertDescSorted(SortDesc(s[..|s| - 1], key), s[|s| - 1], key);
    }
  }

  /** The sort is a permutation of its input. */
  lemma {:induction false} SortDescPermutation<T>(s: seq<T>, key: T -> real)
    ensures multiset(SortDesc(s, key)) == multiset(s)
  {
    if s != [] {
      var init := s[..|s| - 1];
      SortDescPermutation(init, key);
      InsertDescMultiset(SortDesc(init, key), s[|s| - 1], key);
      assert s == init + [s[|s| - 1]];
    }
  }

  /** The sort is stable: elements with equal keys keep their relative order. */
  lemma {:induction false} SortDescStable<T>(s: seq<T>, key: T -> real, k: real)
    ensures WithKey(SortDesc(s, key), key, k) == WithKey(s, key, k)
  {
    if s != [] {
      var init := s[..|s| - 1];
      SortDescStable(init, key, k);
      SortDescSorted(init, key);
      InsertDescWithKey(SortDesc(init, key), s[|s| - 1], key, k);
    }
  }

  /** A sequence that is already in order is its own sort. */
  lemma {:induction false} SortDescOfSorted<T>(s: seq<T>, key: T -> real)
    requires SortedDesc(s, key)
    ensures SortDesc(s, key) == s
  {
    if s != [] {
      var init := s[..|s| - 1];
      assert SortedDesc(init, key);
      SortDescOfSorted(init, key);
      if |init| > 0 {
        assert key(init[|init| - 1]) >= key(s[|s| - 1]);
      }
      assert init + [s[|s| - 1]] == s;
    }
  }

  lemma SortDescLength<T>(s: seq<T>, key: T -> real)
    ensures |SortDesc(s, key)| == |s|
  {
    SortDescPermutation(s, key);
    assert |multiset(SortDesc(s, key))| == |multiset(s)|;
  }

  /** Insertion places `x` somewhere among the elements, which keep their order. */
  lemma {:induction false} InsertDescSplit<T>(s: seq<T>, x: T, key: T -> real)
    ensures exists k :: 0 <= k <= |s| && InsertDesc(s, x, key) == s[..k] + [x] + s[k..]
  {
    if s == [] || key(s[|s| - 1]) >= key(x) {
      assert s + [x] == s[..|s|] + [x] + s[|s|..];
    } else {
      var init := s[..|s| - 1];
      var last := s[|s| - 1];
      InsertDescSplit(init, x, key);
      var k :| 0 <= k <= |init| && InsertDesc(init, x, key) == init[..k] + [x] + init[k..];
      assert init[..k] == s[..k];
      SliceSnoc(s, k);
      assert InsertDesc(s, x, key) == s[..k] + [x] + s[k..];
    }
  }

  lemma SliceSnoc<T>(s: seq<T>, k: nat)
    requires 0 < |s| && k <= |s| - 1
    ensures s[..|s| - 1][k..] + [s[|s| - 1]] == s[k..]
  {
    assert s[k..] == s[k..|s| - 1] + [s[|s| - 1]];
    assert s[..|s| - 1][k..] == s[k..|s| - 1];
  }

  /** `f` takes different values at different positions of `s`. */
  predicate InjectiveOn<T, U(==)>(s: seq<T>, f: T -> U)
  {
    forall i, j :: 0 <= i < j < |s| ==> f(s[i]) != f(s[j])
  }

  lemma InjectiveInsert<T, U>(s: seq<T>, k: nat, x: T, f: T -> U)
    requires k <= |s| && InjectiveOn(s, f)
    requires forall y :: y in s ==> f(y) != f(x)
    ensures InjectiveOn(s[..k] + [x] + s[k..], f)
  {
    var r := s[..k] + [x] + s[k..];
    forall i, j | 0 <= i < j < |r| ensures f(r[i]) != f(r[j]) {
      if i < k && j < k {
        assert r[i] == s[i] && r[j] == s[j];
      } else if i < k && j == k {
        assert r[i] == s[i] && s[i] in s;
      } else if i < k {
        assert r[i] == s[i] && r[j] == s[j - 1];
      } else if i == k {
        assert r[j] == s[j - 1] && s[j - 1] in s;
      } else {
        assert r[i] == s[i - 1] && r[j] == s[j - 1];
      }
    }
  }

  /** Sorting keeps exactly the elements of its input. */
  lemma SortDescMembers<T>(s: seq<T>, key: T -> real)
    ensures forall y :: y in SortDesc(s, key) <==> y in s
  {
    SortDescPermutation(s, key);
    forall y ensures y in SortDesc(s, key) <==> y in s {
      assert y in SortDesc(s, key) <==> y in multiset(SortDesc(s, key));
      assert y in s <==> y in multiset(s);
    }
  }

  /** A projection with distinct values on the input has distinct values on the sort. */
  lemma {:induction false} SortDescInjective<T, U>(s: seq<T>, key: T -> real, f: T -> U)
    requires InjectiveOn(s, f)
    ensures InjectiveOn(SortDesc(s, key), f)
  {
    if s != [] {
      var init := s[..|s| - 1];
      var last := s[|s| - 1];
      assert InjectiveOn(init, f);
      SortDescInjective(init, key, f);
      var sorted := SortDesc(init, key);
      forall y | y in sorted ensures f(y) != f(last) {
        SortDescPermutation(init, key);
        assert y in multiset(sorted);
        assert y in multiset(init);
        var i :| 0 <= i < |init| && init[i] == y;
        assert s[i] == y;
      }
      InsertDescSplit(sorted, last, key);
      var k :| 0 <= k <= |sorted| && InsertDesc(sorted, last, key) == sorted[..k] + [last] + sorted[k..];
      InjectiveInsert(sorted, k, last, f);
    }
  }
}
