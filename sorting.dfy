/**
 * `Array.prototype.sort` with a numeric comparator `(a, b) => key(a) - key(b)` and
 * `Array.prototype.filter`. ECMAScript requires `sort` to be stable, and a stable
 * sort has exactly one possible result, so an insertion sort is a faithful model.
 */
module Sorting {

  predicate SortedBy<T>(s: seq<T>, key: T -> real)
  {
    forall i, j :: 0 <= i < j < |s| ==> key(s[i]) <= key(s[j])
  }

  /** Inserts `x` after every element whose key is not larger than its own. */
  function Insert<T>(x: T, s: seq<T>, key: T -> real): (r: seq<T>)
    ensures |r| == |s| + 1
    decreases |s|
  {
    if s == [] then [x]
    else if key(x) < key(s[0]) then [x] + s
    else [s[0]] + Insert(x, s[1..], key)
  }

  /** The stable sort of `s` by ascending key. */
  function SortBy<T>(s: seq<T>, key: T -> real): (r: seq<T>)
    ensures |r| == |s|
    decreases |s|
  {
    if s == [] then [] else Insert(s[|s| - 1], SortBy(s[..|s| - 1], key), key)
  }

  lemma {:induction false} InsertMultiset<T>(x: T, s: seq<T>, key: T -> real)
    ensures multiset(Insert(x, s, key)) == multiset(s) + multiset{x}
    decreases |s|
  {
    if s != [] && key(x) >= key(s[0]) {
      InsertMultiset(x, s[1..], key);
      assert s == [s[0]] + s[1..];
    }
  }

  lemma {:induction false} InsertSorted<T>(x: T, s: seq<T>, key: T -> real)
    requires SortedBy(s, key)
    ensures SortedBy(Insert(x, s, key), key)
    decreases |s|
  {
    if s != [] && key(x) >= key(s[0]) {
      InsertSorted(x, s[1..], key);
      var r := Insert(x, s, key);
      InsertMultiset(x, s[1..], key);
      forall k | 1 <= k < |r| ensures key(s[0]) <= key(r[k]) {
        assert r[k] in multiset(Insert(x, s[1..], key));
        assert r[k] in multiset(s[1..]) + multiset{x};
        if r[k] != x {
          assert r[k] in s[1..];
        }
      }
    }
  }

  /** The sort yields an ascending sequence. */
  lemma {:induction false} SortBySorted<T>(s: seq<T>, key: T -> real)
    ensures SortedBy(SortBy(s, key), key)
    decreases |s|
  {
    if s != [] {
      SortBySorted(s[..|s| - 1], key);
      InsertSorted(s[|s| - 1], SortBy(s[..|s| - 1], key), key);
    }
  }

  /** The sort is a permutation of its input. */
  lemma {:induction false} SortByPermutation<T>(s: seq<T>, key: T -> real)
    ensures multiset(SortBy(s, key)) == multiset(s)
    decreases |s|
  {
    if s != [] {
      SortByPermutation(s[..|s| - 1], key);
      InsertMultiset(s[|s| - 1], SortBy(s[..|s| - 1], key), key);
      assert s == s[..|s| - 1] + [s[|s| - 1]];
    }
  }

  lemma {:induction false} InsertLast<T>(x: T, s: seq<T>, key: T -> real)
    requires forall i :: 0 <= i < |s| ==> key(s[i]) <= key(x)
    ensures Insert(x, s, key) == s + [x]
    decreases |s|
  {
    if s != [] {
      InsertLast(x, s[1..], key);
    }
  }

  /** Sorting a sequence that is already ascending leaves it as it is. */
  lemma {:induction false} SortByIdentity<T>(s: seq<T>, key: T -> real)
    requires SortedBy(s, key)
    ensures SortBy(s, key) == s
    decreases |s|
  {
    if s != [] {
      var p := s[..|s| - 1];
      SortByIdentity(p, key);
      InsertLast(s[|s| - 1], p, key);
    }
  }

  /** The elements whose key is `v`. */
  function KeyIs<T>(key: T -> real, v: real): T -> bool
  {
    (x: T) => key(x) == v
  }

  /** Inserting into an ascending list puts `x` after every element of its own key. */
  lemma {:induction false} InsertStable<T>(x: T, s: seq<T>, key: T -> real, v: real)
    requires SortedBy(s, key)
    ensures Filter(Insert(x, s, key), KeyIs(key, v))
            == Filter(s, KeyIs(key, v)) + (if key(x) == v then [x] else [])
    decreases |s|
  {
    if s == [] {
    } else if key(x) < key(s[0]) {
      if key(x) == v {
        FilterNone(s, KeyIs(key, v));
      }
    } else {
      InsertStable(x, s[1..], key, v);
    }
  }

  lemma {:induction false} FilterNone<T>(s: seq<T>, p: T -> bool)
    requires forall i :: 0 <= i < |s| ==> !p(s[i])
    ensures Filter(s, p) == []
    decreases |s|
  {
    if s != [] {
      FilterNone(s[1..], p);
    }
  }

  /**
   * The sort is stable: the elements that share any one key come out in the order
   * they went in.
   */
  lemma {:induction false} SortByStable<T>(s: seq<T>, key: T -> real, v: real)
    ensures Filter(SortBy(s, key), KeyIs(key, v)) == Filter(s, KeyIs(key, v))
    decreases |s|
  {
    if s != [] {
      var init := s[..|s| - 1];
      SortByStable(init, key, v);
      SortBySorted(init, key);
      InsertStable(s[|s| - 1], SortBy(init, key), key, v);
      FilterSnoc(init, s[|s| - 1], KeyIs(key, v));
      assert init + [s[|s| - 1]] == s;
    }
  }

  /** `Array.prototype.filter`. */
  function Filter<T>(s: seq<T>, p: T -> bool): (r: seq<T>)
    ensures |r| <= |s|
    ensures forall i :: 0 <= i < |r| ==> p(r[i])
    ensures forall x :: x in r ==> x in s
    decreases |s|
  {
    if s == [] then []
    else if p(s[0]) then [s[0]] + Filter(s[1..], p)
    else Filter(s[1..], p)
  }

  lemma {:induction false} FilterKeeps<T>(s: seq<T>, p: T -> bool, x: T)
    requires x in s && p(x)
    ensures x in Filter(s, p)
    decreases |s|
  {
    if s[0] != x {
      FilterKeeps(s[1..], p, x);
    }
  }

  lemma {:induction false} FilterAll<T>(s: seq<T>, p: T -> bool)
    requires forall i :: 0 <= i < |s| ==> p(s[i])
    ensures Filter(s, p) == s
    decreases |s|
  {
    if s != [] {
      FilterAll(s[1..], p);
    }
  }

  /** Filtering a list with one more element at the end. */
  lemma {:induction false} FilterSnoc<T>(s: seq<T>, x: T, p: T -> bool)
    ensures Filter(s + [x], p) == Filter(s, p) + (if p(x) then [x] else [])
    decreases |s|
  {
    if s == [] {
      assert [x][1..] == [];
    } else {
      FilterSnoc(s[1..], x, p);
      assert (s + [x])[1..] == s[1..] + [x];
    }
  }

  /** The elements that fail `p`. */
  function Not<T>(p: T -> bool): T -> bool
  {
    (x: T) => !p(x)
  }

  /** Filtering a concatenation filters each part. */
  lemma {:induction false} FilterConcat<T>(a: seq<T>, b: seq<T>, p: T -> bool)
    ensures Filter(a + b, p) == Filter(a, p) + Filter(b, p)
    decreases |a|
  {
    if a == [] {
      assert a + b == b;
    } else {
      FilterConcat(a[1..], b, p);
      assert (a + b)[1..] == a[1..] + b;
    }
  }

  /** What a filter keeps and what it drops make up the list between them. */
  lemma {:induction false} FilterSplit<T>(s: seq<T>, p: T -> bool)
    ensures multiset(Filter(s, p)) + multiset(Filter(s, Not(p))) == multiset(s)
    decreases |s|
  {
    if s != [] {
      FilterSplit(s[1..], p);
      assert s == [s[0]] + s[1..];
    }
  }

  /** An element survives the filter exactly when it is in the list and passes the test. */
  lemma FilterMember<T>(s: seq<T>, p: T -> bool, x: T)
    ensures x in Filter(s, p) <==> x in s && p(x)
  {
    if x in s && p(x) {
      FilterKeeps(s, p, x);
    }
  }

  /** The sort neither adds nor loses an element. */
  lemma SortByMember<T>(s: seq<T>, key: T -> real, x: T)
    ensures x in SortBy(s, key) <==> x in s
  {
    SortByPermutation(s, key);
    assert x in SortBy(s, key) <==> x in multiset(SortBy(s, key));
  }

  /** Positions listed in strictly increasing order. */
  predicate Increasing(s: seq<nat>)
  {
    forall a, b :: 0 <= a < b < |s| ==> s[a] < s[b]
  }

  /** Elements with equal keys stand in increasing order. */
  predicate TiesIncreasing(s: seq<nat>, key: nat -> real)
  {
    forall a, b :: 0 <= a < b < |s| && key(s[a]) == key(s[b]) ==> s[a] < s[b]
  }

  lemma {:induction false} FilterIncreasing(s: seq<nat>, p: nat -> bool)
    requires Increasing(s)
    ensures Increasing(Filter(s, p))
    decreases |s|
  {
    if s != [] {
      FilterIncreasing(s[1..], p);
      if p(s[0]) {
        var f := Filter(s[1..], p);
        forall b | 0 <= b < |f| ensures s[0] < f[b] {
          assert f[b] in s[1..];
        }
      }
    }
  }

  lemma {:induction false} InsertTies(x: nat, s: seq<nat>, key: nat -> real)
    requires SortedBy(s, key) && TiesIncreasing(s, key)
    requires forall k :: 0 <= k < |s| ==> s[k] < x
    ensures TiesIncreasing(Insert(x, s, key), key)
    decreases |s|
  {
    if s != [] && key(x) >= key(s[0]) {
      InsertTies(x, s[1..], key);
      InsertMultiset(x, s[1..], key);
      var r := Insert(x, s, key);
      forall b | 0 < b < |r| && key(r[0]) == key(r[b]) ensures r[0] < r[b] {
        assert r[b] in multiset(Insert(x, s[1..], key));
        if r[b] != x {
          assert r[b] in s[1..];
          var c :| 1 <= c < |s| && s[c] == r[b];
        }
      }
    }
  }

  /**
   * Sorting a list of positions given in increasing order keeps equally keyed
   * positions in increasing order, so the result has no repeats.
   */
  lemma {:induction false} SortByTies(s: seq<nat>, key: nat -> real)
    requires Increasing(s)
    ensures TiesIncreasing(SortBy(s, key), key)
    ensures forall a, b :: 0 <= a < b < |SortBy(s, key)| ==> SortBy(s, key)[a] != SortBy(s, key)[b]
    decreases |s|
  {
    if s != [] {
      var init := s[..|s| - 1];
      var x := s[|s| - 1];
      SortByTies(init, key);
      SortBySorted(init, key);
      SortByPermutation(init, key);
      var p := SortBy(init, key);
      forall k | 0 <= k < |p| ensures p[k] < x {
        assert p[k] in multiset(init);
      }
      InsertTies(x, p, key);
    }
    SortBySorted(s, key);
  }
}
