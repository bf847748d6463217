/** Sequence relations used to state what the list pipelines keep. */
module Seqs {

  /** `xs` is `ys` with some elements left out, order kept. */
  predicate IsSubseq<T(==)>(xs: seq<T>, ys: seq<T>)
    decreases |xs| + |ys|
  {
    xs == []
    || (ys != []
        && ((xs[0] == ys[0] && IsSubseq(xs[1..], ys[1..])) || IsSubseq(xs, ys[1..])))
  }

  lemma {:induction false} SubseqMembers<T>(xs: seq<T>, ys: seq<T>)
    requires IsSubseq(xs, ys)
    ensures |xs| <= |ys|
    ensures forall x :: x in xs ==> x in ys
    decreases |xs| + |ys|
  {
    if xs == [] {
    } else if xs[0] == ys[0] && IsSubseq(xs[1..], ys[1..]) {
      SubseqMembers(xs[1..], ys[1..]);
      assert forall x :: x in xs ==> x == xs[0] || x in xs[1..];
    } else {
      SubseqMembers(xs, ys[1..]);
    }
  }

  lemma {:induction false} SubseqOfSuffix<T>(xs: seq<T>, ys: seq<T>, k: nat)
    requires k <= |ys| && IsSubseq(xs, ys[k..])
    ensures IsSubseq(xs, ys)
    decreases k
  {
    if k > 0 {
      assert ys[k..] == ys[1..][k - 1..];
      SubseqOfSuffix(xs, ys[1..], k - 1);
    }
  }

  /** A non-empty prefix is the head followed by a prefix of the tail. */
  lemma HeadThenPrefix<T>(xs: seq<T>, k: nat)
    requires 0 < k <= |xs|
    ensures xs[..k] == [xs[0]] + xs[1..][..k - 1]
    ensures xs[1..][k - 1..] == xs[k..]
  {
  }

  /** The two halves of a concatenation, recovered by slicing. */
  lemma ConcatParts<T>(a: seq<T>, b: seq<T>)
    ensures (a + b)[..|a|] == a && (a + b)[|a|..] == b
    ensures forall i :: 0 <= i < |a| ==> (a + b)[i] == a[i]
  {
  }

  /** A sequence is what lies before index `n`, the element at `n`, and what follows. */
  lemma SplitAt<T>(xs: seq<T>, n: nat)
    requires n < |xs|
    ensures xs == xs[..n] + [xs[n]] + xs[n + 1..]
  {
  }

  lemma ConcatAssoc<T>(a: seq<T>, b: seq<T>, c: seq<T>)
    ensures a + (b + c) == (a + b) + c
  {
  }

  /** A sequence is any of its prefixes followed by the rest. */
  lemma PrefixThenRest<T>(p: seq<T>, xs: seq<T>)
    requires p <= xs
    ensures xs == p + xs[|p|..]
  {
  }

  /** `xs.slice(0, n)`. */
  function Take<T>(xs: seq<T>, n: nat): (r: seq<T>)
    ensures r <= xs
    ensures |r| == if |xs| < n then |xs| else n
  {
    if |xs| <= n then xs else xs[..n]
  }
}
