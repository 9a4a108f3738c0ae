/** Output shape of the matrix-product operator. The operator's rank is the
    rank of A; the shape is fixed at construction, with or without a
    permutation, and never checks that the inner dimensions agree. */
module MatMul {
  import opened Base
  import opened Shapes

  /** The unpermuted constructor writes out_dims_ at Rank(A)-2 and at
      Rank(B)-1; both writes stay inside the Rank(A)-entry array exactly when
      A has rank at least 2 and B has rank between 1 and Rank(A). */
  predicate PlainRanksOk(a: seq<int>, b: seq<int>) {
    2 <= |a| && 1 <= |b| <= |a|
  }

  /** out_dims_ after the unpermuted constructor, as written: A's leading
      dimensions and A's second-to-last dimension are copied, then B's last
      dimension is written at position Rank(B)-1. None marks an entry the
      constructor never writes. */
  function PlainOutDimsAsWritten(a: seq<int>, b: seq<int>): (out: seq<Option<int>>)
    requires PlainRanksOk(a, b)
    ensures |out| == |a|
    ensures out[|b| - 1] == Some(b[|b| - 1])
    ensures forall r :: 0 <= r < |a| - 1 && r != |b| - 1 ==> out[r] == Some(a[r])
    ensures |b| < |a| ==> out[|a| - 1] == None
  {
    var leading := seq(|a|, r requires 0 <= r < |a| => if r < |a| - 2 then Some(a[r]) else None);
    leading[|a| - 2 := Some(a[|a| - 2])][|b| - 1 := Some(b[|b| - 1])]
  }

  /** The product's shape as evidently intended: every dimension of A but the
      last, then B's last dimension (the rows of A by the columns of B, batched
      over A's leading dimensions). */
  function PlainOutDims(a: seq<int>, b: seq<int>): (out: seq<int>)
    requires PlainRanksOk(a, b)
    ensures |out| == |a|
    ensures forall r :: 0 <= r < |a| - 1 ==> out[r] == a[r]
    ensures out[|a| - 1] == b[|b| - 1]
  {
    a[..|a| - 1] + [b[|b| - 1]]
  }

  function SomeAll(s: seq<int>): (r: seq<Option<int>>)
    ensures |r| == |s| && forall i :: 0 <= i < |s| ==> r[i] == Some(s[i])
  {
    seq(|s|, i requires 0 <= i < |s| => Some(s[i]))
  }

  /** When A and B have the same rank, the constructor as written writes every
      entry and produces exactly the intended shape. */
  lemma PlainAsWrittenAgreesOnEqualRanks(a: seq<int>, b: seq<int>)
    requires PlainRanksOk(a, b) && |a| == |b|
    ensures PlainOutDimsAsWritten(a, b) == SomeAll(PlainOutDims(a, b))
  {
    var w := PlainOutDimsAsWritten(a, b);
    var c := SomeAll(PlainOutDims(a, b));
    forall r | 0 <= r < |a|
      ensures w[r] == c[r]
    {
    }
  }

  /** A batched A of shape {4, 3, 5} times a matrix B of shape {5, 6}: as
      written, B's column count lands on A's row position and the last entry
      is never written; the intended product shape is {4, 3, 6}. */
  lemma PlainAsWrittenLosesRows()
    ensures PlainOutDimsAsWritten([4, 3, 5], [5, 6]) == [Some(4), Some(6), None]
    ensures PlainOutDims([4, 3, 5], [5, 6]) == [4, 3, 6]
  {
    var w := PlainOutDimsAsWritten([4, 3, 5], [5, 6]);
    assert w[0] == Some(4) && w[1] == Some(6) && w[2] == None;
  }

  /** out_dims_ after the permuted constructor, as written, in terms of the
      stored operands a_ = permute(A, perm) and b_ = permute(B, perm):
      position r takes a_.Size(perm[r]) when perm[r] is the row axis, b_.Size(perm[r])
      when it is the column axis, and a_.Size(r) otherwise. */
  function PermOutDimsAsWritten(aP: seq<int>, bP: seq<int>, perm: seq<int>): (out: seq<int>)
    requires |aP| == |bP| && IsPermutation(perm, |aP|)
    ensures |out| == |aP|
    ensures forall r :: 0 <= r < |aP| && perm[r] == |aP| - 1 ==> out[r] == bP[|aP| - 1]
    ensures forall r :: 0 <= r < |aP| && perm[r] != |aP| - 1 ==> out[r] in aP
    ensures forall r :: 0 <= r < |aP| && perm[r] == |aP| - 2 ==> out[r] == aP[|aP| - 2]
    ensures forall r :: 0 <= r < |aP| && perm[r] < |aP| - 2 ==> out[r] == aP[r]
  {
    var R := |aP|;
    seq(R, r requires 0 <= r < R =>
      if perm[r] == R - 2 then aP[perm[r]]
      else if perm[r] == R - 1 then bP[perm[r]]
      else aP[r])
  }

  /** The permuted product's shape as evidently intended, in terms of the
      unpermuted operands A and B: A's shape with the dimension that perm moves
      last replaced by B's. Permuting it by perm yields exactly the unpermuted
      product shape of permute(A, perm) and permute(B, perm), which is the view
      Exec writes the result through. */
  function PermOutDims(a: seq<int>, b: seq<int>, perm: seq<int>): (out: seq<int>)
    requires 2 <= |a| && |a| == |b| && IsPermutation(perm, |a|)
    ensures |out| == |a|
    ensures Permute(out, perm) == PlainOutDims(Permute(a, perm), Permute(b, perm))
  {
    var R := |a|;
    var out := a[perm[R - 1] := b[perm[R - 1]]];
    assert forall i :: 0 <= i < R - 1 ==> perm[i] != perm[R - 1];
    out
  }

  /** When perm is its own inverse and leaves every batch dimension in place
      (the identity, or swapping the two matrix axes), the permuted constructor
      as written gives the intended shape. */
  lemma {:induction false} PermAsWrittenAgreesOnSelfInverse(a: seq<int>, b: seq<int>, perm: seq<int>)
    requires 2 <= |a| && |a| == |b| && IsPermutation(perm, |a|)
    requires forall r :: 0 <= r < |a| ==> perm[perm[r]] == r
    requires forall r :: 0 <= r < |a| && perm[r] < |a| - 2 ==> perm[r] == r
    ensures PermOutDimsAsWritten(Permute(a, perm), Permute(b, perm), perm) == PermOutDims(a, b, perm)
  {
    var R := |a|;
    var w := PermOutDimsAsWritten(Permute(a, perm), Permute(b, perm), perm);
    var c := PermOutDims(a, b, perm);
    forall r | 0 <= r < R
      ensures w[r] == c[r]
    {
      if perm[r] == R - 2 {
        assert perm[R - 2] == r;
        assert r != perm[R - 1];
      } else if perm[r] == R - 1 {
        assert perm[R - 1] == r;
      } else {
        assert perm[r] == r;
        assert r != perm[R - 1];
      }
    }
  }

  /** A {2, 3, 4} times B {3, 5, 4} with matrix axes 0 and 1, i.e. perm
      {2, 0, 1}: the intended output is {2, 5, 4}, whose permuted view {4, 2, 5}
      is the batch-of-2x5 result Exec writes. As written the constructor gives
      {5, 2, 2}, whose permuted view {2, 5, 2} is not. */
  lemma PermAsWrittenMisplacesDims()
    ensures var perm := [2, 0, 1];
      && IsPermutation(perm, 3)
      && PermOutDimsAsWritten(Permute([2, 3, 4], perm), Permute([3, 5, 4], perm), perm) == [5, 2, 2]
      && PermOutDims([2, 3, 4], [3, 5, 4], perm) == [2, 5, 4]
      && Permute([5, 2, 2], perm) != PlainOutDims(Permute([2, 3, 4], perm), Permute([3, 5, 4], perm))
  {
    var perm := [2, 0, 1];
    var aP := Permute([2, 3, 4], perm);
    var bP := Permute([3, 5, 4], perm);
    assert aP == [4, 2, 3];
    assert bP == [4, 3, 5];
    var w := PermOutDimsAsWritten(aP, bP, perm);
    assert w[0] == 5 && w[1] == 2 && w[2] == 2;
    assert Permute([5, 2, 2], perm)[2] == 2;
  }

  /** The view Exec hands to the kernel: the output itself, or permute(out,
      perm) when the operator carries a permutation. Exec exists only for the
      device executor. */
  function ExecView(out: seq<int>, perm: Option<seq<int>>, ex: Executor): (r: Result<seq<int>>)
    requires perm.Some? ==> IsPermutation(perm.value, |out|)
    ensures r.Failure? <==> ex.HostExecutor?
    ensures r.Failure? ==> r.error == UnsupportedExecutor
    ensures r.Success? ==> |r.value| == |out|
    ensures r.Success? && perm.Some? ==> forall i :: 0 <= i < |out| ==> r.value[i] == out[perm.value[i]]
    ensures r.Success? && perm.None? ==> r.value == out
  {
    if ex.HostExecutor? then Failure(UnsupportedExecutor)
    else if perm.Some? then Success(Permute(out, perm.value))
    else Success(out)
  }

  /** For the intended permuted shape, the view Exec writes on the device has
      exactly the unpermuted product shape of the permuted operands, so the
      kernel sees a conforming output. */
  lemma ExecViewConforms(a: seq<int>, b: seq<int>, perm: seq<int>)
    requires 2 <= |a| && |a| == |b| && IsPermutation(perm, |a|)
    ensures ExecView(PermOutDims(a, b, perm), Some(perm), DeviceExecutor)
         == Success(PlainOutDims(Permute(a, perm), Permute(b, perm)))
  {
  }
}
