/**
 * Sorting a list into outcome lists by a label per element, as the import and sync
 * screens do when they push each item onto `created`, `duplicates` or `errors`.
 */
module Partition {

  /** The elements of `xs` whose label is `k`, in their original order. */
  function Pick<T, K(==)>(xs: seq<T>, ks: seq<K>, k: K): (r: seq<T>)
    requires |xs| == |ks|
    ensures |r| <= |xs|
    decreases |xs|
  {
    if xs == [] then []
    else Pick(xs[..|xs| - 1], ks[..|ks| - 1], k) + (if ks[|ks| - 1] == k then [xs[|xs| - 1]] else [])
  }

  /** Labelling one more element extends exactly the list of its label. */
  lemma PickSnoc<T, K>(xs: seq<T>, ks: seq<K>, k: K, x: T, kx: K)
    requires |xs| == |ks|
    ensures Pick(xs + [x], ks + [kx], k) == Pick(xs, ks, k) + (if kx == k then [x] else [])
  {
    assert (xs + [x])[..|xs|] == xs;
    assert (ks + [kx])[..|ks|] == ks;
  }

  /** A prefix one longer is the shorter prefix and the next element. */
  lemma TakeSnoc<T>(s: seq<T>, n: nat)
    requires 0 < n <= |s|
    ensures s[..n] == s[..n - 1] + [s[n - 1]]
  {
  }

  /** Three labels that cover every element split the list: nothing lost, nothing counted twice. */
  lemma PickThreeWay<T, K>(xs: seq<T>, ks: seq<K>, a: K, b: K, c: K)
    requires |xs| == |ks|
    requires a != b && b != c && a != c
    requires forall i :: 0 <= i < |ks| ==> ks[i] == a || ks[i] == b || ks[i] == c
    ensures |Pick(xs, ks, a)| + |Pick(xs, ks, b)| + |Pick(xs, ks, c)| == |xs|
    ensures multiset(Pick(xs, ks, a)) + multiset(Pick(xs, ks, b)) + multiset(Pick(xs, ks, c)) == multiset(xs)
  {
    PickThreeWayMultiset(xs, ks, a, b, c);
    var pa, pb, pc := Pick(xs, ks, a), Pick(xs, ks, b), Pick(xs, ks, c);
    assert |multiset(pa) + multiset(pb) + multiset(pc)| == |pa| + |pb| + |pc|;
  }

  lemma {:induction false} PickThreeWayMultiset<T, K>(xs: seq<T>, ks: seq<K>, a: K, b: K, c: K)
    requires |xs| == |ks|
    requires a != b && b != c && a != c
    requires forall i :: 0 <= i < |ks| ==> ks[i] == a || ks[i] == b || ks[i] == c
    ensures multiset(Pick(xs, ks, a)) + multiset(Pick(xs, ks, b)) + multiset(Pick(xs, ks, c)) == multiset(xs)
    decreases |xs|
  {
    if xs != [] {
      var n := |xs| - 1;
      var pre, kpre := xs[..n], ks[..n];
      PickThreeWayMultiset(pre, kpre, a, b, c);
      assert xs == pre + [xs[n]] && ks == kpre + [ks[n]];
      PickThreeStep(pre, kpre, xs[n], ks[n], a, b, c);
    }
  }

  lemma PickThreeStep<T, K>(pre: seq<T>, kpre: seq<K>, x: T, k: K, a: K, b: K, c: K)
    requires |pre| == |kpre|
    requires a != b && b != c && a != c
    requires k == a || k == b || k == c
    ensures multiset(Pick(pre + [x], kpre + [k], a)) + multiset(Pick(pre + [x], kpre + [k], b))
            + multiset(Pick(pre + [x], kpre + [k], c))
            == multiset(Pick(pre, kpre, a)) + multiset(Pick(pre, kpre, b)) + multiset(Pick(pre, kpre, c)) + multiset{x}
  {
    PickSnoc(pre, kpre, a, x, k);
    PickSnoc(pre, kpre, b, x, k);
    PickSnoc(pre, kpre, c, x, k);
  }

  /** Two labels that cover every element split the list. */
  lemma {:induction false} PickTwoWay<T, K>(xs: seq<T>, ks: seq<K>, a: K, b: K)
    requires |xs| == |ks|
    requires a != b
    requires forall i :: 0 <= i < |ks| ==> ks[i] == a || ks[i] == b
    ensures |Pick(xs, ks, a)| + |Pick(xs, ks, b)| == |xs|
    ensures multiset(Pick(xs, ks, a)) + multiset(Pick(xs, ks, b)) == multiset(xs)
    decreases |xs|
  {
    if xs != [] {
      var n := |xs| - 1;
      var pre, kpre := xs[..n], ks[..n];
      PickTwoWay(pre, kpre, a, b);
      assert xs == pre + [xs[n]];
      assert multiset(xs) == multiset(pre) + multiset{xs[n]};
      var pa, pb := Pick(pre, kpre, a), Pick(pre, kpre, b);
      if ks[n] == a {
        assert Pick(xs, ks, a) == pa + [xs[n]] && Pick(xs, ks, b) == pb;
      } else {
        assert Pick(xs, ks, a) == pa && Pick(xs, ks, b) == pb + [xs[n]];
      }
    }
  }
}
