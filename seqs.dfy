/** Facts about taking and concatenating sequences, stated once for every element type so
    that the proofs over calls and strings use them without looking inside the elements. */
module Seqs {

  lemma ConcatSnoc<T>(a: seq<T>, b: seq<T>)
    requires |b| > 0
    ensures a + b == (a + b[..|b| - 1]) + [b[|b| - 1]]
  {
  }

  lemma ConcatAssoc<T>(a: seq<T>, b: seq<T>, c: seq<T>)
    ensures a + b + c == a + (b + c)
  {
  }

  lemma ConcatEmpty<T>(a: seq<T>, b: seq<T>)
    requires |b| == 0
    ensures a + b == a
  {
  }

  lemma EmptyConcat<T>(b: seq<T>)
    ensures [] + b == b
  {
  }

  lemma TakeSnoc<T>(xs: seq<T>, k: nat)
    requires k < |xs|
    ensures xs[..k + 1][..k] == xs[..k]
    ensures xs[..k + 1] == xs[..k] + [xs[k]]
  {
  }

  lemma TakeAll<T>(xs: seq<T>)
    ensures xs[..|xs|] == xs
  {
  }

  /** `c` copies of `t`. */
  function Copies<T>(t: T, c: nat): (r: seq<T>)
    ensures |r| == c && forall k :: 0 <= k < c ==> r[k] == t
  {
    seq(c, _ => t)
  }

  lemma RepeatStep<T>(a: seq<T>, t: T, j: nat)
    ensures a + Copies(t, j) + [t] == a + Copies(t, j + 1)
  {
    assert Copies(t, j) + [t] == Copies(t, j + 1);
  }
}
