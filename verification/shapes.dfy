/** Shapes as sequences of extents, and the permuted view of a shape. The
    permute operator itself is not part of this model; only the rule it follows
    for sizes, Size(d) == op.Size(perm[d]), is used here. */
module Shapes {

  /** p lists every dimension 0 .. n-1 exactly once. */
  predicate IsPermutation(p: seq<int>, n: nat) {
    && |p| == n
    && (forall i :: 0 <= i < n ==> 0 <= p[i] < n)
    && (forall i, j :: 0 <= i < j < n ==> p[i] != p[j])
  }

  /** The shape of permute(op, p) when op has shape s. */
  function Permute(s: seq<int>, p: seq<int>): (r: seq<int>)
    requires IsPermutation(p, |s|)
    ensures |r| == |s|
  {
    seq(|p|, i requires 0 <= i < |p| => s[p[i]])
  }
}
