/** Reference semantics of the trace transform: the sum of the diagonal of a
    square matrix. */
module Trace {

  predicate IsSquare(m: seq<seq<int>>) {
    forall i :: 0 <= i < |m| ==> |m[i]| == |m|
  }

  /** Sum of the first k diagonal entries. */
  function Diagonal(m: seq<seq<int>>, k: nat): (sum: int)
    requires IsSquare(m) && k <= |m|
  {
    if k == 0 then 0 else Diagonal(m, k - 1) + m[k - 1][k - 1]
  }

  function TraceOf(m: seq<seq<int>>): (t: int)
    requires IsSquare(m)
  {
    Diagonal(m, |m|)
  }

  /** One pass down the diagonal. */
  method Compute(m: seq<seq<int>>) returns (t: int)
    requires IsSquare(m)
    ensures t == TraceOf(m)
  {
    t := 0;
    var i := 0;
    while i < |m|
      invariant 0 <= i <= |m|
      invariant t == Diagonal(m, i)
    {
      t := t + m[i][i];
      i := i + 1;
    }
  }
}
