/**
 * Small facts about sequences, stated once so that the proofs that need them do not
 * have to rediscover them by extensionality in a crowded context.
 */
module Seqs {
  /** A non-empty sequence is its front followed by its last element. */
  lemma SnocLast<T>(xs: seq<T>)
    requires xs != []
    ensures xs[..|xs| - 1] + [xs[|xs| - 1]] == xs
  {
  }

  /** Taking the whole length gives the sequence back. */
  lemma TakeAll<T>(xs: seq<T>)
    ensures xs[..|xs|] == xs
  {
  }

  /** One more element of `b` after `a` extends the prefix by that element. */
  lemma PrefixSnoc<T>(a: seq<T>, b: seq<T>, j: nat)
    requires j < |b|
    ensures a + b[..j + 1] == (a + b[..j]) + [b[j]]
  {
    assert b[..j + 1] == b[..j] + [b[j]];
  }

  /** Dropping the last element of `a + b`, with `b` non-empty, drops the last element of `b`. */
  lemma ConcatInit<T>(a: seq<T>, b: seq<T>)
    requires b != []
    ensures (a + b)[..|a + b| - 1] == a + b[..|b| - 1] && (a + b)[|a + b| - 1] == b[|b| - 1]
  {
    assert (a + b)[..|a + b| - 1] == a + b[..|b| - 1];
  }

  /** The position of the last element that passes `p`, or -1 when none does. */
  function LastWhere<T>(xs: seq<T>, p: T -> bool): (r: int)
    ensures -1 <= r < |xs|
    ensures r == -1 <==> forall k :: 0 <= k < |xs| ==> !p(xs[k])
    ensures r >= 0 ==> p(xs[r]) && forall j :: r < j < |xs| ==> !p(xs[j])
    decreases |xs|
  {
    if xs == [] then -1
    else if p(xs[|xs| - 1]) then |xs| - 1
    else
      var init := xs[..|xs| - 1];
      assert forall k :: 0 <= k < |init| ==> init[k] == xs[k];
      LastWhere(init, p)
  }

  lemma AppendAssoc<T>(x: seq<T>, y: seq<T>, z: seq<T>)
    ensures (x + y) + z == x + (y + z)
  {
  }
}
