/** Reference semantics of the cumulative-sum transform along one row: an
    inclusive prefix sum, as the operator's documentation example shows
    ([1, 2, 3, 4] gives [1, 3, 6, 10]). */
module CumSum {

  /** Sum of the first k elements of xs. */
  function SumTo(xs: seq<int>, k: nat): (sum: int)
    requires k <= |xs|
  {
    if k == 0 then 0 else SumTo(xs, k - 1) + xs[k - 1]
  }

  /** A sum over the first k elements only reads those elements. */
  lemma {:induction false} SumToPrefix(xs: seq<int>, n: nat, k: nat)
    requires k <= n <= |xs|
    ensures SumTo(xs[..n], k) == SumTo(xs, k)
    decreases k
  {
    if k > 0 {
      SumToPrefix(xs, n, k - 1);
    }
  }

  /** Element i is the sum of elements 0 .. i of the input, i included. */
  function PrefixSums(xs: seq<int>): (ys: seq<int>)
    ensures |ys| == |xs|
    ensures forall i :: 0 <= i < |xs| ==> ys[i] == SumTo(xs, i + 1)
    decreases |xs|
  {
    if |xs| == 0 then []
    else
      var n := |xs|;
      var init := PrefixSums(xs[..n - 1]);
      assert forall i :: 0 <= i < n - 1 ==> init[i] == SumTo(xs, i + 1) by {
        forall i | 0 <= i < n - 1
          ensures init[i] == SumTo(xs, i + 1)
        {
          SumToPrefix(xs, n - 1, i + 1);
        }
      }
      init + [SumTo(xs, n)]
  }

  /** The inverse of a prefix sum: the first element, then each element minus
      its predecessor. */
  function Differences(ys: seq<int>): (xs: seq<int>)
    ensures |xs| == |ys|
  {
    seq(|ys|, i requires 0 <= i < |ys| => if i == 0 then ys[0] else ys[i] - ys[i - 1])
  }

  /** Taking differences recovers the row a prefix sum was computed from. */
  lemma DifferencesUndoPrefixSums(xs: seq<int>)
    ensures Differences(PrefixSums(xs)) == xs
  {
    var ys := PrefixSums(xs);
    forall i | 0 <= i < |xs|
      ensures Differences(ys)[i] == xs[i]
    {
      if i > 0 {
        assert ys[i - 1] == SumTo(xs, i);
        assert ys[i] == SumTo(xs, i) + xs[i];
      } else {
        assert ys[0] == SumTo(xs, 0) + xs[0];
      }
    }
  }

  /** Summing the first i + 1 differences of a row gives back its element i. */
  lemma {:induction false} SumOfDifferences(ys: seq<int>, i: nat)
    requires i < |ys|
    ensures SumTo(Differences(ys), i + 1) == ys[i]
    decreases i
  {
    if i > 0 {
      SumOfDifferences(ys, i - 1);
    }
  }

  /** Summing the differences of a row rebuilds the row: every row is the
      prefix sum of some row. */
  lemma PrefixSumsUndoDifferences(ys: seq<int>)
    ensures PrefixSums(Differences(ys)) == ys
  {
    forall i | 0 <= i < |ys|
      ensures PrefixSums(Differences(ys))[i] == ys[i]
    {
      SumOfDifferences(ys, i);
    }
  }

  /** A single running total over the row, as a host loop would compute it. */
  method Scan(xs: seq<int>) returns (ys: seq<int>)
    ensures ys == PrefixSums(xs)
  {
    ys := [];
    var total := 0;
    var i := 0;
    while i < |xs|
      invariant 0 <= i <= |xs|
      invariant |ys| == i
      invariant total == SumTo(xs, i)
      invariant forall k :: 0 <= k < i ==> ys[k] == SumTo(xs, k + 1)
    {
      total := total + xs[i];
      ys := ys + [total];
      i := i + 1;
    }
  }

  /** The documentation example: [1, 2, 3, 4] gives [1, 3, 6, 10], an inclusive
      prefix sum although the text calls it exclusive. */
  lemma DocumentedExample()
    ensures PrefixSums([1, 2, 3, 4]) == [1, 3, 6, 10]
  {
    var xs := [1, 2, 3, 4];
    assert SumTo(xs, 1) == 1;
    assert SumTo(xs, 2) == 3;
    assert SumTo(xs, 3) == 6;
    assert SumTo(xs, 4) == 10;
  }
}
