/** Sums, means and absolute values over exact reals (JavaScript numbers without rounding). */
module Numbers {

  function Abs(x: real): (r: real)
    ensures r >= 0.0 && (r == x || r == -x)
  {
    if x < 0.0 then -x else x
  }

  /** `xs.reduce((a, b) => a + b)`, and 0 for the empty list. */
  function Sum(xs: seq<real>): real
  {
    if xs == [] then 0.0 else Sum(xs[..|xs| - 1]) + xs[|xs| - 1]
  }

  predicate AllWithin(xs: seq<real>, lo: real, hi: real)
  {
    forall i :: 0 <= i < |xs| ==> lo <= xs[i] <= hi
  }

  lemma {:induction false} SumBounds(xs: seq<real>, lo: real, hi: real)
    requires AllWithin(xs, lo, hi)
    ensures |xs| as real * lo <= Sum(xs) <= |xs| as real * hi
    decreases |xs|
  {
    if xs != [] {
      SumBounds(xs[..|xs| - 1], lo, hi);
    }
  }

  lemma {:induction false} SumConcat(xs: seq<real>, ys: seq<real>)
    ensures Sum(xs + ys) == Sum(xs) + Sum(ys)
    decreases |ys|
  {
    if ys != [] {
      assert (xs + ys)[..|xs + ys| - 1] == xs + ys[..|ys| - 1];
      SumConcat(xs, ys[..|ys| - 1]);
    } else {
      assert xs + ys == xs;
    }
  }

  /** The arithmetic mean, 0 for the empty list (the confidence of a page without events). */
  function Mean(xs: seq<real>): real
  {
    if xs == [] then 0.0 else Sum(xs) / |xs| as real
  }

  /** A mean of scores in [lo, hi] stays in [lo, hi]. */
  lemma MeanBounds(xs: seq<real>, lo: real, hi: real)
    requires xs != []
    requires AllWithin(xs, lo, hi)
    ensures lo <= Mean(xs) <= hi
  {
    SumBounds(xs, lo, hi);
    var n := |xs| as real;
    assert Sum(xs) / n >= lo by {
      assert Sum(xs) >= n * lo;
    }
    assert Sum(xs) / n <= hi by {
      assert Sum(xs) <= n * hi;
    }
  }
}
