/** The slice view operator: construction from per-dimension (start, end,
    stride) triples, the sizes of the retained dimensions, and the map from an
    output index vector back to an input index vector. */
module Slice {
  import opened Base

  /** The `end` of one input dimension: an exclusive bound, matxEnd ("all
      remaining elements") or matxDropDim ("remove this dimension"). */
  datatype SliceEnd = At(n: int) | End | Drop

  /** What a constructed slice keeps. `starts` has one entry per input
      dimension; `dims`, `steps` and `sizes` have one per output dimension:
      output dimension d walks input dimension dims[d], `steps[d]` elements at a
      time, and has sizes[d] elements. */
  datatype SliceOp = SliceOp(starts: seq<int>, dims: seq<nat>, steps: seq<int>, sizes: seq<int>)

  predicate Valid(v: SliceOp) {
    && |v.steps| == |v.dims|
    && |v.sizes| == |v.dims|
    && (forall d :: 0 <= d < |v.dims| ==> v.dims[d] < |v.starts|)
    && (forall d, e :: 0 <= d < e < |v.dims| ==> v.dims[d] < v.dims[e])
  }

  /** Arguments the slice() overloads accept: the input rank is positive, the
      declared output rank does not exceed it, every array has one entry per
      input dimension, and strides are positive. */
  predicate Admissible(shape: seq<int>, starts: seq<int>, ends: seq<SliceEnd>, strides: seq<int>, rank: nat) {
    && |shape| > 0
    && rank <= |shape|
    && |starts| == |shape|
    && |ends| == |shape|
    && |strides| == |shape|
    && (forall i :: 0 <= i < |strides| ==> strides[i] > 0)
  }

  /** Ceiling of a / b for a positive divisor, written with Euclidean division. */
  function CeilDiv(a: int, b: int): (q: int)
    requires b > 0
  {
    -((-a) / b)
  }

  /** CeilDiv is the exact ceiling: the least q with a <= q * b. */
  lemma CeilDivBounds(a: int, b: int)
    requires b > 0
    ensures (CeilDiv(a, b) - 1) * b < a <= CeilDiv(a, b) * b
  {
    var k := (-a) / b;
    assert -a == k * b + (-a) % b;
  }

  /** Number of input elements between start and the end bound, before striding. */
  function Extent(size: int, start: int, end: SliceEnd): (n: int)
    requires !end.Drop?
  {
    if end.End? then size - start else end.n - start
  }

  /** The input dimensions a slice keeps: those whose end is not Drop, in
      increasing order. */
  function Retained(ends: seq<SliceEnd>): (dims: seq<nat>)
    ensures |dims| <= |ends|
    ensures forall d :: 0 <= d < |dims| ==> dims[d] < |ends| && !ends[dims[d]].Drop?
    decreases |ends|
  {
    if |ends| == 0 then []
    else
      var init := Retained(ends[..|ends| - 1]);
      if ends[|ends| - 1].Drop? then init else init + [|ends| - 1]
  }

  /** The retained dimensions are strictly increasing and include every
      dimension that is not dropped. */
  lemma {:induction false} RetainedSpec(ends: seq<SliceEnd>)
    ensures var dims := Retained(ends);
      && (forall d, e :: 0 <= d < e < |dims| ==> dims[d] < dims[e])
      && (forall i :: 0 <= i < |ends| && !ends[i].Drop? ==> i in dims)
    decreases |ends|
  {
    if |ends| > 0 {
      var init := ends[..|ends| - 1];
      RetainedSpec(init);
      assert forall i :: 0 <= i < |init| ==> init[i] == ends[i];
    }
  }

  /** sizes[d]: the extent of input dimension dims[d], ceiling-divided by steps[d]. */
  function Sizes(shape: seq<int>, starts: seq<int>, ends: seq<SliceEnd>, dims: seq<nat>, steps: seq<int>): (sizes: seq<int>)
    requires |starts| == |shape| && |ends| == |shape| && |steps| == |dims|
    requires forall d :: 0 <= d < |dims| ==> dims[d] < |shape| && !ends[dims[d]].Drop? && steps[d] > 0
    ensures |sizes| == |dims|
  {
    seq(|dims|, d requires 0 <= d < |dims| =>
      CeilDiv(Extent(shape[dims[d]], starts[dims[d]], ends[dims[d]]), steps[d]))
  }

  /** Each size covers its extent with the fewest steps. */
  lemma SizesCoverExtents(shape: seq<int>, starts: seq<int>, ends: seq<SliceEnd>, dims: seq<nat>, steps: seq<int>)
    requires |starts| == |shape| && |ends| == |shape| && |steps| == |dims|
    requires forall d :: 0 <= d < |dims| ==> dims[d] < |shape| && !ends[dims[d]].Drop? && steps[d] > 0
    ensures var sizes := Sizes(shape, starts, ends, dims, steps);
      forall d :: 0 <= d < |dims| ==>
        var extent := Extent(shape[dims[d]], starts[dims[d]], ends[dims[d]]);
        (sizes[d] - 1) * steps[d] < extent <= sizes[d] * steps[d]
  {
    forall d | 0 <= d < |dims| {
      CeilDivBounds(Extent(shape[dims[d]], starts[dims[d]], ends[dims[d]]), steps[d]);
    }
  }

  /** The stride each output dimension applies, as written: output position d
      takes strides[d]. */
  function StepsAsWritten(strides: seq<int>, dims: seq<nat>): (steps: seq<int>)
    requires |dims| <= |strides|
    ensures |steps| == |dims|
  {
    strides[..|dims|]
  }

  /** The SliceOp constructor as written: output dimension d is strided by
      strides[d], the stride supplied for INPUT dimension d, whichever input
      dimension it walks. Fails with InvalidDim unless exactly `rank` dimensions
      are retained. */
  function Build(shape: seq<int>, starts: seq<int>, ends: seq<SliceEnd>, strides: seq<int>, rank: nat): (r: Result<SliceOp>)
    requires Admissible(shape, starts, ends, strides, rank)
    ensures r.Failure? <==> |Retained(ends)| != rank
    ensures r.Failure? ==> r.error == InvalidDim
    ensures r.Success? ==>
      && Valid(r.value)
      && r.value.dims == Retained(ends)
      && |r.value.dims| == rank
      && r.value.starts == starts
      && (forall i :: 0 <= i < |shape| ==> (i in r.value.dims <==> !ends[i].Drop?))
      && (forall d :: 0 <= d < rank ==> r.value.steps[d] == strides[d])
  {
    RetainedSpec(ends);
    var dims := Retained(ends);
    if |dims| != rank then Failure(InvalidDim)
    else
      var steps := StepsAsWritten(strides, dims);
      Success(SliceOp(starts, dims, steps, Sizes(shape, starts, ends, dims, steps)))
  }

  lemma RetainedStep(ends: seq<SliceEnd>, i: nat)
    requires i < |ends|
    ensures Retained(ends[..i + 1]) == if ends[i].Drop? then Retained(ends[..i]) else Retained(ends[..i]) + [i]
  {
    assert ends[..i + 1][..i] == ends[..i];
  }

  /** The constructor's loop: walks the input dimensions once, recording each
      retained dimension and its size, the latter strided by the stride at the
      next free output position. */
  method Walk(shape: seq<int>, starts: seq<int>, ends: seq<SliceEnd>, strides: seq<int>)
    returns (dims: seq<nat>, sizes: seq<int>)
    requires |starts| == |shape| && |ends| == |shape| && |strides| == |shape|
    requires forall i :: 0 <= i < |strides| ==> strides[i] > 0
    ensures dims == Retained(ends)
    ensures |sizes| == |dims|
    ensures forall d :: 0 <= d < |dims| ==>
      sizes[d] == CeilDiv(Extent(shape[dims[d]], starts[dims[d]], ends[dims[d]]), strides[d])
  {
    dims, sizes := [], [];
    var i: nat := 0;
    while i < |shape|
      invariant i <= |shape|
      invariant dims == Retained(ends[..i])
      invariant |sizes| == |dims|
      invariant forall d :: 0 <= d < |dims| ==>
        sizes[d] == CeilDiv(Extent(shape[dims[d]], starts[dims[d]], ends[dims[d]]), strides[d])
    {
      RetainedStep(ends, i);
      if !ends[i].Drop? {
        sizes := sizes + [CeilDiv(Extent(shape[i], starts[i], ends[i]), strides[|dims|])];
        dims := dims + [i];
      }
      i := i + 1;
    }
    assert ends[..|shape|] == ends;
  }

  /** The SliceOp constructor: the loop, then the check that exactly `rank`
      dimensions were retained. */
  method Make(shape: seq<int>, starts: seq<int>, ends: seq<SliceEnd>, strides: seq<int>, rank: nat)
    returns (r: Result<SliceOp>)
    requires Admissible(shape, starts, ends, strides, rank)
    ensures r == Build(shape, starts, ends, strides, rank)
    ensures r.Success? ==> forall d :: 0 <= d < rank ==>
      var i := r.value.dims[d];
      (r.value.sizes[d] - 1) * strides[d] < Extent(shape[i], starts[i], ends[i]) <= r.value.sizes[d] * strides[d]
  {
    var dims, sizes := Walk(shape, starts, ends, strides);
    if |dims| != rank {
      return Failure(InvalidDim);
    }
    var steps := StepsAsWritten(strides, dims);
    assert sizes == Sizes(shape, starts, ends, dims, steps);
    r := Success(SliceOp(starts, dims, steps, sizes));
    BuildSizes(shape, starts, ends, strides, rank);
  }

  /** Size(dim) of the slice: the count recorded at construction. */
  function Size(v: SliceOp, dim: nat): (s: int)
    requires dim < |v.sizes|
  {
    v.sizes[dim]
  }

  /** Each retained size is the ceiling of its extent over the stride the
      constructor applies at that output position. */
  lemma BuildSizes(shape: seq<int>, starts: seq<int>, ends: seq<SliceEnd>, strides: seq<int>, rank: nat)
    requires Admissible(shape, starts, ends, strides, rank)
    requires Build(shape, starts, ends, strides, rank).Success?
    ensures var v := Build(shape, starts, ends, strides, rank).value;
      forall d :: 0 <= d < rank ==>
        var i := v.dims[d];
        (Size(v, d) - 1) * strides[d] < Extent(shape[i], starts[i], ends[i]) <= Size(v, d) * strides[d]
  {
    var v := Build(shape, starts, ends, strides, rank).value;
    SizesCoverExtents(shape, starts, ends, v.dims, v.steps);
  }

  /** Scaling by a positive factor keeps the order. */
  lemma MulMonotone(x: int, y: int, c: int)
    requires x <= y && c > 0
    ensures x * c <= y * c
  {
    assert y * c - x * c == (y - x) * c;
  }

  /** Output coordinate k of dimension d is inside the slice exactly when its
      offset from the start, k strides, falls inside the extent. */
  lemma CoordinateInRange(shape: seq<int>, starts: seq<int>, ends: seq<SliceEnd>, strides: seq<int>, rank: nat, d: nat, k: nat)
    requires Admissible(shape, starts, ends, strides, rank)
    requires Build(shape, starts, ends, strides, rank).Success?
    requires d < rank
    ensures var v := Build(shape, starts, ends, strides, rank).value;
      var i := v.dims[d];
      k < Size(v, d) <==> k * strides[d] < Extent(shape[i], starts[i], ends[i])
  {
    var v := Build(shape, starts, ends, strides, rank).value;
    BuildSizes(shape, starts, ends, strides, rank);
    if k < Size(v, d) {
      MulMonotone(k, Size(v, d) - 1, strides[d]);
    } else {
      MulMonotone(Size(v, d), k, strides[d]);
    }
  }


  /** The input index vector after the first k output coordinates have been
      added to the starts. */
  function Place(v: SliceOp, idx: seq<int>, k: nat): (ind: seq<int>)
    requires Valid(v) && |idx| == |v.dims| && k <= |v.dims|
    ensures |ind| == |v.starts|
    decreases k
  {
    if k == 0 then v.starts
    else
      var prev := Place(v, idx, k - 1);
      prev[v.dims[k - 1] := prev[v.dims[k - 1]] + idx[k - 1] * v.steps[k - 1]]
  }

  lemma {:induction false} PlaceSpec(v: SliceOp, idx: seq<int>, k: nat)
    requires Valid(v) && |idx| == |v.dims| && k <= |v.dims|
    ensures forall d :: 0 <= d < k ==> Place(v, idx, k)[v.dims[d]] == v.starts[v.dims[d]] + idx[d] * v.steps[d]
    ensures forall i :: 0 <= i < |v.starts| && i !in v.dims[..k] ==> Place(v, idx, k)[i] == v.starts[i]
    decreases k
  {
    if k > 0 {
      PlaceSpec(v, idx, k - 1);
      assert forall i :: i in v.dims[..k - 1] ==> i in v.dims[..k];
    }
  }

  /** The const operator(): the input index vector an output index vector reads.
      Every input coordinate starts at its start; a retained dimension dims[d]
      then advances by idx[d] steps of steps[d]; a dropped one stays put. */
  function Index(v: SliceOp, idx: seq<int>): (ind: seq<int>)
    requires Valid(v) && |idx| == |v.dims|
    ensures |ind| == |v.starts|
    ensures forall d :: 0 <= d < |v.dims| ==> ind[v.dims[d]] == v.starts[v.dims[d]] + idx[d] * v.steps[d]
    ensures forall i :: 0 <= i < |ind| && i !in v.dims ==> ind[i] == v.starts[i]
  {
    PlaceSpec(v, idx, |v.dims|);
    assert v.dims[..|v.dims|] == v.dims;
    Place(v, idx, |v.dims|)
  }

  /** The non-const operator(): the same two loops, computing the same input
      index vector as the const overload. */
  method IndexMut(v: SliceOp, idx: seq<int>) returns (ind: seq<int>)
    requires Valid(v) && |idx| == |v.dims|
    ensures ind == Index(v, idx)
  {
    ind := [];
    var i := 0;
    while i < |v.starts|
      invariant 0 <= i <= |v.starts|
      invariant ind == v.starts[..i]
    {
      ind := ind + [v.starts[i]];
      i := i + 1;
    }
    assert ind == Place(v, idx, 0);
    var d := 0;
    while d < |v.dims|
      invariant 0 <= d <= |v.dims|
      invariant ind == Place(v, idx, d)
    {
      ind := ind[v.dims[d] := ind[v.dims[d]] + idx[d] * v.steps[d]];
      d := d + 1;
    }
  }

  /** The slice() overloads without strides: every stride is 1, so each
      retained size is the plain extent and output coordinate d adds idx[d] to
      the start. `rank` is N of slice<N>; the overload without N fixes it at
      the input's rank. */
  function SliceUnitStride(shape: seq<int>, starts: seq<int>, ends: seq<SliceEnd>, rank: nat): (r: Result<SliceOp>)
    requires |shape| > 0 && rank <= |shape| && |starts| == |shape| && |ends| == |shape|
    ensures r.Failure? <==> |Retained(ends)| != rank
    ensures r.Success? ==> Valid(r.value) && |r.value.dims| == rank && r.value.starts == starts
    ensures r.Success? ==> forall d :: 0 <= d < rank ==> r.value.dims[d] < |shape| && !ends[r.value.dims[d]].Drop?
    ensures r.Success? ==> forall d :: 0 <= d < rank ==>
      var i := r.value.dims[d];
      r.value.sizes[d] == Extent(shape[i], starts[i], ends[i])
    ensures r.Success? ==> forall idx :: |idx| == rank ==>
      forall d :: 0 <= d < rank ==> Index(r.value, idx)[r.value.dims[d]] == starts[r.value.dims[d]] + idx[d]
  {
    var ones := seq(|shape|, _ => 1);
    var r := Build(shape, starts, ends, ones, rank);
    if r.Success? then
      assert forall d :: 0 <= d < rank ==> r.value.steps[d] == 1;
      r
    else r
  }

  /** The constructor as evidently intended: output dimension d is strided by
      the stride supplied for the input dimension it walks, strides[dims[d]]. */
  function BuildIntended(shape: seq<int>, starts: seq<int>, ends: seq<SliceEnd>, strides: seq<int>, rank: nat): (r: Result<SliceOp>)
    requires Admissible(shape, starts, ends, strides, rank)
    ensures r.Failure? <==> |Retained(ends)| != rank
    ensures r.Failure? ==> r.error == InvalidDim
    ensures r.Success? ==>
      && Valid(r.value)
      && r.value.dims == Retained(ends)
      && |r.value.dims| == rank
      && r.value.starts == starts
      && (forall i :: 0 <= i < |shape| ==> (i in r.value.dims <==> !ends[i].Drop?))
      && (forall d :: 0 <= d < rank ==> r.value.steps[d] == strides[r.value.dims[d]])
  {
    RetainedSpec(ends);
    var dims := Retained(ends);
    if |dims| != rank then Failure(InvalidDim)
    else
      var steps := seq(|dims|, d requires 0 <= d < |dims| => strides[dims[d]]);
      Success(SliceOp(starts, dims, steps, Sizes(shape, starts, ends, dims, steps)))
  }

  /** One step along output dimension d moves input dimension dims[d] by
      steps[d] and leaves every other input coordinate where it was. */
  lemma StepMovesOneCoordinate(v: SliceOp, idx: seq<int>, d: nat)
    requires Valid(v) && |idx| == |v.dims| && d < |v.dims|
    ensures var here := Index(v, idx);
      var next := Index(v, idx[d := idx[d] + 1]);
      && next[v.dims[d]] == here[v.dims[d]] + v.steps[d]
      && (forall i :: 0 <= i < |next| && i != v.dims[d] ==> next[i] == here[i])
  {
    var here := Index(v, idx);
    var next := Index(v, idx[d := idx[d] + 1]);
    forall i | 0 <= i < |next| && i != v.dims[d]
      ensures next[i] == here[i]
    {
      if i in v.dims {
        var e :| 0 <= e < |v.dims| && v.dims[e] == i;
        assert e != d;
      }
    }
  }

  /** Under the intended rule, one step along output dimension d moves input
      dimension dims[d] by exactly the stride supplied for that input dimension,
      and leaves every other input coordinate where it was. */
  lemma IntendedStepFollowsInputStride(
    shape: seq<int>, starts: seq<int>, ends: seq<SliceEnd>, strides: seq<int>, rank: nat,
    idx: seq<int>, d: nat)
    requires Admissible(shape, starts, ends, strides, rank)
    requires BuildIntended(shape, starts, ends, strides, rank).Success?
    requires |idx| == rank && d < rank
    ensures var v := BuildIntended(shape, starts, ends, strides, rank).value;
      var here := Index(v, idx);
      var next := Index(v, idx[d := idx[d] + 1]);
      && next[v.dims[d]] == here[v.dims[d]] + strides[v.dims[d]]
      && (forall i :: 0 <= i < |next| && i != v.dims[d] ==> next[i] == here[i])
  {
    StepMovesOneCoordinate(BuildIntended(shape, starts, ends, strides, rank).value, idx, d);
  }

  /** When every retained output position d carries the same stride as the
      input dimension it walks (all strides equal, say), the constructor as
      written and the intended one build the same slice. */
  lemma BuildAgreesWhenStridesAlign(shape: seq<int>, starts: seq<int>, ends: seq<SliceEnd>, strides: seq<int>, rank: nat)
    requires Admissible(shape, starts, ends, strides, rank)
    requires forall d :: 0 <= d < |Retained(ends)| ==> strides[d] == strides[Retained(ends)[d]]
    ensures Build(shape, starts, ends, strides, rank) == BuildIntended(shape, starts, ends, strides, rank)
  {
    var dims := Retained(ends);
    if |dims| == rank {
      var intended := seq(|dims|, d requires 0 <= d < |dims| => strides[dims[d]]);
      assert StepsAsWritten(strides, dims) == intended;
    }
  }

  /** With no dimension dropped, output dimension d walks input dimension d. */
  lemma {:induction false} RetainedWithoutDrops(ends: seq<SliceEnd>)
    requires forall i :: 0 <= i < |ends| ==> !ends[i].Drop?
    ensures |Retained(ends)| == |ends|
    ensures forall d :: 0 <= d < |ends| ==> Retained(ends)[d] == d
    decreases |ends|
  {
    if |ends| > 0 {
      RetainedWithoutDrops(ends[..|ends| - 1]);
    }
  }

  /** Any matxDropDim leaves fewer retained dimensions than input dimensions. */
  lemma {:induction false} RetainedShortByDrop(ends: seq<SliceEnd>, i: nat)
    requires i < |ends| && ends[i].Drop?
    ensures |Retained(ends)| < |ends|
    decreases |ends|
  {
    var init := ends[..|ends| - 1];
    if i < |ends| - 1 {
      assert init[i] == ends[i];
      RetainedShortByDrop(init, i);
    }
  }

  /** The overload without an output rank builds a slice of the input's own
      rank, so it succeeds exactly when no dimension is dropped: any
      matxDropDim there fails the rank check with InvalidDim. */
  lemma SameRankSliceRejectsDrops(shape: seq<int>, starts: seq<int>, ends: seq<SliceEnd>)
    requires |shape| > 0 && |starts| == |shape| && |ends| == |shape|
    ensures var r := SliceUnitStride(shape, starts, ends, |shape|);
      && (r.Failure? <==> exists i :: 0 <= i < |ends| && ends[i].Drop?)
      && (r.Failure? ==> r.error == InvalidDim)
  {
    if exists i :: 0 <= i < |ends| && ends[i].Drop? {
      var i :| 0 <= i < |ends| && ends[i].Drop?;
      RetainedShortByDrop(ends, i);
    } else {
      RetainedWithoutDrops(ends);
    }
  }

  /** A slice that drops nothing is built identically by both rules. */
  lemma NoDropsBuildsAsIntended(shape: seq<int>, starts: seq<int>, ends: seq<SliceEnd>, strides: seq<int>, rank: nat)
    requires Admissible(shape, starts, ends, strides, rank)
    requires forall i :: 0 <= i < |ends| ==> !ends[i].Drop?
    ensures Build(shape, starts, ends, strides, rank) == BuildIntended(shape, starts, ends, strides, rank)
  {
    RetainedWithoutDrops(ends);
    BuildAgreesWhenStridesAlign(shape, starts, ends, strides, rank);
  }

  lemma RetainedDropEnd()
    ensures Retained([Drop, End]) == [1]
  {
    var ends := [Drop, End];
    assert ends[..1] == [Drop];
    assert [Drop][..0] == [];
  }

  /** Dropping input dimension 0 of a 10x10 operator and asking for stride 3 on
      it and stride 1 on dimension 1: as written, the retained dimension is
      strided by 3, so it has 4 elements and element 1 reads input (0, 3). */
  lemma StrideQuirkAsWritten()
    ensures var r := Build([10, 10], [0, 0], [Drop, End], [3, 1], 1);
      && r.Success?
      && r.value.sizes == [4]
      && Index(r.value, [1]) == [0, 3]
  {
    RetainedDropEnd();
    var r := Build([10, 10], [0, 0], [Drop, End], [3, 1], 1);
    assert r.value == SliceOp([0, 0], [1], [3], [4]);
    assert Index(r.value, [1])[1] == 3;
  }

  /** The same slice as intended: the retained dimension is strided by 1, so
      it has 10 elements and element 1 reads input (0, 1). */
  lemma StrideQuirkIntended()
    ensures var r := BuildIntended([10, 10], [0, 0], [Drop, End], [3, 1], 1);
      && r.Success?
      && r.value.sizes == [10]
      && Index(r.value, [1]) == [0, 1]
  {
    RetainedDropEnd();
    var r := BuildIntended([10, 10], [0, 0], [Drop, End], [3, 1], 1);
    assert r.value == SliceOp([0, 0], [1], [1], [10]);
    assert Index(r.value, [1])[1] == 1;
  }

  /** Slicing a 10x10 operator with starts {0, 0} and ends {matxEnd,
      matxDropDim} gives a rank-1 slice of 10 elements whose element i is input
      element (i, 0): column 0. */
  lemma ColumnScenario()
    ensures var r := SliceUnitStride([10, 10], [0, 0], [End, Drop], 1);
      && r.Success?
      && r.value.dims == [0]
      && Size(r.value, 0) == 10
      && forall i :: Index(r.value, [i]) == [i, 0]
  {
    var ends := [End, Drop];
    assert ends[..1] == [End];
    assert [End][..0] == [];
    assert Retained(ends) == [0];
    var r := SliceUnitStride([10, 10], [0, 0], ends, 1);
    forall i
      ensures Index(r.value, [i]) == [i, 0]
    {
      var ind := Index(r.value, [i]);
      assert ind[0] == i;
      assert 1 !in r.value.dims;
    }
  }
}
