# MatX slice view and transform operators, in Dafny

This project models two parts of MatX's operator layer.

**The slice view** (`SliceOp`, module `Slice`). The constructor walks the input dimensions once:
- it keeps every dimension whose end is not `matxDropDim`;
- it records the kept dimension's extent, ceiling-divided by a stride;
- it then checks that the number of kept dimensions equals the declared output rank.

Indexing the view with an output index vector produces an input index vector. Every coordinate starts at its `start`; each kept dimension then advances by its output coordinate times a stride.

**The transform operators** `matmul`, `cov`, `cumsum`, `trace`, `qr` and `cusolver_qr` (modules `MatMul`, `Transform` and `Protocol`). Each is modelled as a node of an expression tree. For each operator the model gives:
- its analytic shape, fixed at construction (`Rank()`, `Size(dim)`);
- which executor and which output tuple its `Exec` accepts;
- the two-phase `PreRun` protocol.

`PreRun` recurses into operands that are themselves operators. It then allocates the node's result buffer `tmp_out_` when the node and executor call for it, and finally calls `Exec` into that buffer. `operator()` later reads that buffer.

The run of `PreRun` over a tree is a sequence of `Alloc(id, executor)` and `Exec(id)` events.
- An executor that some `Exec` rejects statically fails the whole tree with `UnsupportedExecutor`, and no events are produced.
- `qr` and `cusolver_qr` refuse `PreRun` at run time with `NotSupported`. Events enqueued before that point stay enqueued.

Two small modules give reference semantics for what two kernels compute, per their documentation:
- `CumSum`: an inclusive prefix sum along a row;
- `Trace`: the sum of a square matrix's diagonal.

The properties proved include:
- the slice constructor fails exactly when the retained-dimension count differs from the rank;
- both `operator()` overloads compute the same input index;
- the intended product shapes are the ones the `Exec` views need;
- `PreRun` succeeds exactly when no decomposition is reached and the executor suits every `matmul`/`cov` reached;
- it executes every operator once, and operands before the operators that read them, with a product's A operand walked completely before its B operand;
- every `Exec` is preceded by the allocation of its buffer exactly for the nodes that allocate on that executor.

Some behaviour is kept exactly as written and exposed by a lemma rather than corrected:
- On the host executor, `cumsum`'s `Exec` is accepted but its buffer is never allocated. `Protocol.CumSumOnHostIsNeverAllocated` and `Protocol.CumSumHostAndDevice` show this.
- `cumsum`'s documentation calls the sum exclusive, but its own example (`[1, 2, 3, 4]` gives `[1, 3, 6, 10]`) is inclusive. `CumSum` follows the example.

## Model

| member | source | states |
|---|---|---|
| Slice.CeilDivBounds | include/matx/operators/slice.h:89-90 | The size adjustment rounds up: the result q is the least value with extent <= q * stride. |
| Slice.CeilDiv | include/matx/operators/slice.h:90 | The ceiling of the extent over the stride, computed in integers; that it is the exact ceiling is Slice.CeilDivBounds. |
| Slice.Retained | include/matx/operators/slice.h:71-81 | The dimensions recorded in dims_: at most one per input dimension, each an input dimension whose end is not matxDropDim. |
| Slice.RetainedSpec | include/matx/operators/slice.h:71-93 | The recorded dimensions are strictly increasing, and every dimension whose end is not matxDropDim is among them. |
| Slice.Build | include/matx/operators/slice.h:68-95 | The constructor fails with InvalidDim exactly when the number of non-dropped dimensions differs from the rank. On success, a dimension is retained iff its end is not matxDropDim, the starts are kept, and output position d is strided by strides[d]. |
| Slice.SizesCoverExtents | include/matx/operators/slice.h:83-90 | Each recorded size is the fewest steps that cover the dimension's extent, with matxEnd meaning the operand's size minus the start. |
| Slice.Walk | include/matx/operators/slice.h:71-93 | The loop records exactly the retained dimensions, and a size for each, ceiling-divided by the stride at its output position. |
| Slice.Make | include/matx/operators/slice.h:68-95 | The loop-and-check constructor computes exactly Build's result, and every size satisfies the ceiling bound. |
| Slice.BuildSizes | include/matx/operators/slice.h:83-91 | Every size of a built slice is the ceiling of its extent over strides[d]. |
| Slice.Size | include/matx/operators/slice.h:149-152 | Size(dim) answers the count recorded for output dimension dim; Slice.BuildSizes and Slice.CoordinateInRange state what that count is for a built slice. |
| Slice.CoordinateInRange | include/matx/operators/slice.h:83-91 | Output coordinate k of dimension d lies below Size(d) exactly when k strides from the start stay inside the dimension's extent (matxEnd meaning the operand's size). |
| Slice.PlaceSpec | include/matx/operators/slice.h:107-115 | After the first k output coordinates are added, those k input coordinates have moved and every other input coordinate is still at its start. |
| Slice.Index | include/matx/operators/slice.h:97-119 | The input index vector has one entry per input dimension. A retained dimension dims[d] reads start + idx[d] * step; a dropped dimension reads its start. |
| Slice.IndexMut | include/matx/operators/slice.h:121-143 | The non-const operator() computes the same input index vector as the const one. |
| Slice.SliceUnitStride | include/matx/operators/slice.h:288-296 | slice<N> without strides fills every stride with 1; `rank` is N. It fails exactly when the retained count differs from N; otherwise each size is the plain extent, and output coordinate d adds idx[d] to its start. |
| Slice.SameRankSliceRejectsDrops | include/matx/operators/slice.h:210-219 | The overload without N builds a slice of the input's own rank (line 181), so it fails with InvalidDim exactly when some end is matxDropDim. |
| Slice.StepMovesOneCoordinate | include/matx/operators/slice.h:112-115 | Incrementing output coordinate d moves only input coordinate dims[d], by that output position's step. |
| Slice.BuildIntended | include/matx/operators/slice.h:167-169 | The corrected constructor: same failure condition and retained dimensions, but output dimension d is strided by strides[dims[d]], the stride given for the input dimension it walks. |
| Slice.IntendedStepFollowsInputStride | include/matx/operators/slice.h:167-169 | Under the corrected rule, one output step moves input dimension dims[d] by exactly the stride given for that dimension, and nothing else. |
| Slice.BuildAgreesWhenStridesAlign | include/matx/operators/slice.h:89-90 | As written and as intended agree whenever strides[d] == strides[dims[d]] for each retained position. |
| Slice.RetainedWithoutDrops | include/matx/operators/slice.h:80-81 | With no dropped dimension, output dimension d walks input dimension d. |
| Slice.NoDropsBuildsAsIntended | include/matx/operators/slice.h:68-95 | A slice that drops nothing is built identically by both rules. |
| Slice.StrideQuirkAsWritten | include/matx/operators/slice.h:90 | Dropping dimension 0 of a 10x10 operator with strides {3, 1}: as written the kept dimension has 4 elements, and element 1 reads input (0, 3). |
| Slice.StrideQuirkIntended | include/matx/operators/slice.h:168-169 | The same slice as intended has 10 elements, and element 1 reads input (0, 1). |
| Slice.ColumnScenario | include/matx/operators/slice.h:288-296 | slice<1> with ends {matxEnd, matxDropDim} on a 10x10 operator gives a rank-1 slice of size 10 whose element i reads input (i, 0). |
| MatMul.PlainOutDimsAsWritten | include/matx/operators/matmul.h:81-88 | The unpermuted constructor as written: entry Rank(B)-1 holds B's last extent, every other entry below Rank(A)-1 holds A's extent, and when Rank(B) < Rank(A) the last entry is never written. |
| MatMul.PlainOutDims | include/matx/operators/matmul.h:81-88 | The corrected unpermuted product shape: A's leading dimensions, then B's last dimension, rank Rank(A). |
| MatMul.PlainAsWrittenAgreesOnEqualRanks | include/matx/operators/matmul.h:81-88 | When Rank(B) == Rank(A), the constructor as written writes every entry and gives the intended shape. |
| MatMul.PlainAsWrittenLosesRows | include/matx/operators/matmul.h:86-87 | A {4, 3, 5} times B {5, 6}: as written, B's columns land on A's row entry and the last entry is never written. The intended shape is {4, 3, 6}. |
| MatMul.PermOutDims | include/matx/operators/matmul.h:107-112 | The corrected permuted shape: viewed through perm, the output has exactly the plain product shape of permute(A, perm) and permute(B, perm), which is what Exec writes through. |
| MatMul.PermOutDimsAsWritten | include/matx/operators/matmul.h:67-78 | The permuted constructor as written, on the stored (already permuted) operands: position r takes b_'s last extent when perm[r] is the column axis, a_'s row extent when perm[r] is the row axis, and a_.Size(r) when perm[r] is a batch axis. |
| MatMul.PermAsWrittenAgreesOnSelfInverse | include/matx/operators/matmul.h:67-78 | When perm is an involution that keeps every batch dimension in place, the permuted constructor as written gives the intended shape. |
| MatMul.PermAsWrittenMisplacesDims | include/matx/operators/matmul.h:67-78 | With A {2, 3, 4}, B {3, 5, 4} and perm {2, 0, 1}, the constructor as written gives {5, 2, 2}. Its permuted view is not the product shape; the intended {2, 5, 4} is. |
| MatMul.ExecView | include/matx/operators/matmul.h:107-116 | Exec exists only on the device; it writes through the output itself, or through permute(out, perm) when a permutation is carried. |
| MatMul.ExecViewConforms | include/matx/operators/matmul.h:110-111 | With the intended permuted shape, the view Exec hands to the kernel conforms to the product of the permuted operands. |
| Transform.Rank | include/matx/operators/matmul.h:98-101 | Rank() is 0 for trace (trace.h:72-75) and the first operand's rank for every other transform (cov.h:75-78, cumsum.h:76-79, qr.h:70-73). |
| Transform.Shape | include/matx/operators/matmul.h:98-105 | A node's analytic shape has exactly Rank() extents: the operand's rank, or 0 for trace. |
| Transform.Size | include/matx/operators/trace.h:94-97 | Size(dim) is the shape's extent below the rank, and trace answers 1 for every dim. |
| Transform.MatMulAxis | include/matx/operators/matmul.h:192-202 | The axis overload builds a product over equal-rank operands. Under the corrected shape rule `MatMul.PermOutDims` (not the constructor as written), its output viewed through perm has the plain product shape of the permuted operands. |
| Transform.ExecOutputs | include/matx/operators/qr.h:62-68 | Exec is rejected statically exactly on the host for matmul, cov and the decompositions, or for the wrong tuple size. The decompositions need a 3-tuple and write components 0 and 1; every other transform writes component 0. |
| Transform.Allocates | include/matx/operators/cumsum.h:88-90 | trace allocates its buffer on either executor (trace.h:84-89); matmul, cov and cumsum only on the device; leaves and the decompositions never. |
| Transform.Compiles | include/matx/operators/matmul.h:107-109 | The device executor always compiles; a matmul or cov node on the host never does (cov.h:86). |
| Transform.Dispatch | include/matx/operators/cumsum.h:81-93 | A node's own PreRun events are an optional allocation of its buffer on the given executor, then its Exec, last. |
| Transform.Enqueue | include/matx/operators/matmul.h:118-134 | A walk either faults with NotSupported or completes with the node's own Exec as its last event. |
| Transform.PreRunTrace | include/matx/operators/qr.h:75-79 | PreRun fails only with UnsupportedExecutor or NotSupported; on success the last event is the root's Exec. |
| Transform.Read | include/matx/operators/matmul.h:91-95 | operator() is unavailable exactly on the decompositions (qr.h:58-60). A leaf reads itself; every other transform reads its own result buffer, identified by its id, at the same indices. |
| Protocol.CompilesIff | include/matx/operators/matmul.h:107-109 | The tree compiles for an executor iff it is the device, or no matmul/cov is reached. |
| Protocol.FaultsIffReachesQR | include/matx/operators/qr.h:75-79 | The walk faults iff it reaches qr or cusolver_qr. |
| Protocol.PreRunSucceedsIff | include/matx/operators/qr.h:142-146 | PreRun succeeds iff the executor suits every reached Exec and no decomposition is reached. Otherwise it fails with UnsupportedExecutor or NotSupported, respectively. |
| Protocol.EventIds | include/matx/operators/matmul.h:118-134 | Every enqueued event names a transform of the tree. |
| Protocol.ExecComplete | include/matx/operators/cov.h:90-102 | A walk that completes executes every transform of the tree. |
| Protocol.ExecutesExactlyTheTree | include/matx/operators/matmul.h:118-134 | A successful PreRun executes a node iff it is in the tree. |
| Protocol.ExecOnce | include/matx/operators/cumsum.h:81-93 | With distinct buffers, no Exec occurs twice, even in a walk that faults. |
| Protocol.OperandsExecuteFirst | include/matx/operators/matmul.h:121-133 | With distinct buffers, every transform inside an operator's operands is executed before the operator's own Exec. |
| Protocol.MatMulWalkOrder | include/matx/operators/matmul.h:121-133 | With distinct buffers, every event of A's subtree precedes every event of B's subtree, and every operand event precedes the product's own allocation and Exec. |
| Protocol.AllocsMatchExecutor | include/matx/operators/trace.h:84-89 | Every allocation uses the memory kind of the executor PreRun received, and belongs to a node that allocates on it. |
| Protocol.AllocatedFirstAlways | include/matx/operators/cov.h:97-101 | With distinct buffers, every Exec of a buffer the tree allocates comes right after its allocation. |
| Protocol.AllocationDiscipline | include/matx/operators/matmul.h:129-133 | An Exec is immediately preceded by its own allocation, in this executor's memory, iff its node allocates on this executor (that every allocation uses the executor's memory is Protocol.AllocsMatchExecutor). |
| Protocol.DeviceAllocatesEveryBuffer | include/matx/operators/cov.h:97-99 | On the device, every transform reached allocates its buffer. |
| Protocol.HostAllocatesOnlyTraces | include/matx/operators/trace.h:84-89 | On the host, exactly the traces allocate (a subset of them if a decomposition stops the walk). |
| Protocol.CumSumOnHostIsNeverAllocated | include/matx/operators/cumsum.h:71-92 | With distinct buffers, a host PreRun only ever executes a cumsum and never allocates its buffer. |
| Protocol.CumSumHostAndDevice | include/matx/operators/cumsum.h:81-93 | cumsum over a tensor enqueues a bare Exec on the host, and an allocation then an Exec on the device. |
| Protocol.TraceAllocatesOnEither | include/matx/operators/trace.h:77-92 | trace over a tensor allocates in the executor's memory on both executors, then executes. |
| Protocol.ReadsDispatchedBuffer | include/matx/operators/cumsum.h:66-69 | After a successful PreRun, operator() reads the buffer written by the last event, the node's Exec, at the same indices. |
| Protocol.SizeForwardsToOperand | include/matx/operators/qr.h:83-86 | cov, cumsum, qr and cusolver_qr report their operand's extents below the rank. |
| Protocol.NoInnerDimensionCheck | include/matx/operators/matmul.h:81-88 | The constructor never compares A's columns with B's rows: 2x3 times 4x5 is accepted, with shape 2x5. |
| CumSum.PrefixSums | include/matx/operators/cumsum.h:103-107 | Element i of the result is the sum of input elements 0 through i. |
| CumSum.DifferencesUndoPrefixSums | include/matx/operators/cumsum.h:103-107 | Taking differences of a prefix sum recovers the input row. |
| CumSum.PrefixSumsUndoDifferences | include/matx/operators/cumsum.h:103-107 | Every row is the prefix sum of its differences. |
| CumSum.Scan | include/matx/operators/cumsum.h:103-107 | A single running total computes the prefix sum. |
| CumSum.DocumentedExample | include/matx/operators/cumsum.h:106-107 | [1, 2, 3, 4] gives [1, 3, 6, 10]. |
| Trace.Compute | include/matx/operators/trace.h:102-105 | One pass down the diagonal computes the trace. |

## Left out

- **Kernels.** The numerical kernels (`matmul_impl`, `cov_impl`, `cumsum_impl`, `trace_impl`, `qr_impl`, `cusolver_qr_impl`) are not part of this model. `CumSum` and `Trace` state only what the documentation says cumsum and trace compute, over unbounded integers; floating point and overflow are not modelled.
- **QR and covariance results.** What the Q and R factors and the covariance matrix contain is not modelled.
- **Scalar parameters.** matmul's `alpha` and `beta` scale factors are floating-point values the shape logic never reads.
- **Plans and memory.** The GEMM plan cache, streams, `make_tensor` and memory spaces are not modelled. An allocation is an `Alloc` event tagged with its executor.
- **Host-side text.** `str()`, and the `printf` of the permuted matmul constructor, are console output.
- **Permute.** The `permute` operator and `getPermuteDims` are not part of this model. `Transform.MatMulAxis` takes the permutation as given, requires it to be a permutation of at least two dimensions, and assumes the permuted operands forward `PreRun` to the operands they wrap.
- **Tensor-view slicing.** The fast path of `slice()` for tensor views (`op.Slice(...)`) belongs to the tensor class and is not modelled. Only `SliceOp` is.
- **Compile-time arity of `operator()`.** The check that `operator()` takes `Rank()` indices is a precondition `|idx| == |dims|`.
- **Multi-output assignment.** `mtie`, through which the decompositions are actually run, is not part of this model. Only their refusal of `PreRun`, their `Exec` contract and their deleted `operator()` are.
- **Cumsum rank.** Cumsum over a higher-rank tensor ("rows of a tensor") is modelled for one row only.
- Slice.Build: non-positive strides are excluded (`Admissible`). A zero stride divides by zero in floating point. A negative stride with an end below the start would give a reverse slice (line 90 still rounds the quotient up); reverse slices are not modelled.
- Slice.Build: when more dimensions are retained than the declared rank, the source writes past `dims_` and `sizes_` before its rank check fails. The model reports only the `InvalidDim` failure.
- Slice.CeilDivBounds: `std::ceil` of a double quotient is modelled as the exact integer ceiling. Rounding of quotients beyond double precision is not modelled.
- Transform.Shape: the out-of-range writes of the matmul and cov constructors are excluded by `WellShaped`, not modelled as undefined behaviour:
  - the plain product needs Rank(A) >= 2 and 1 <= Rank(B) <= Rank(A);
  - cov stores two extents, so it needs an operand of rank at most 2.
- Transform.Shape: matmul shapes use the corrected rules `MatMul.PlainOutDims` and `MatMul.PermOutDims` (see Findings). The as-written rules are kept beside them in `MatMul`.
- Transform.MatMulAxis: its conformance with the plain product shape holds for the corrected shape rule `MatMul.PermOutDims` that `Transform.Shape` uses. The permuted constructor as written violates it (`MatMul.PermAsWrittenMisplacesDims`).
- Transform.PreRunTrace: the decompositions' `MATX_ASSERT_STR` inside a `noexcept` `PreRun` is modelled as a `NotSupported` fault that stops the walk. Process termination is not modelled.

## Findings

| source | as written | input that shows it | evidently intended | confidence | as-written member | corrected member |
|---|---|---|---|---|---|---|
| include/matx/operators/matmul.h:86-87 | B's last extent is written at index Rank(B)-1 of an array with Rank(A) entries | A {4, 3, 5}, B {5, 6}: out_dims_ becomes {4, 6, unwritten} | B's last extent at index Rank(A)-1, giving {4, 3, 6} | not executed | MatMul.PlainAsWrittenLosesRows | MatMul.PlainOutDims |
| include/matx/operators/matmul.h:67-78 | position r takes a_.Size(perm[r]) or b_.Size(perm[r]) of the already-permuted operands, i.e. perm is applied twice | A {2, 3, 4}, B {3, 5, 4}, perm {2, 0, 1}: out_dims_ {5, 2, 2}, whose permuted view {2, 5, 2} is not the 4x(2x5) product shape {4, 2, 5} | A's shape with entry perm[R-1] taken from B, giving {2, 5, 4}, whose permuted view is the product shape | not executed | MatMul.PermAsWrittenMisplacesDims | MatMul.PermOutDims |
| include/matx/operators/slice.h:90 | sizes and index steps use strides_[d], indexed by the output position d, although strides_ is indexed by input dimension (line 77, and also lines 114 and 138) | 10x10 operator, ends {matxDropDim, matxEnd}, strides {3, 1}: the kept dimension gets stride 3 (4 elements) | stride strides[dims[d]] = 1, giving 10 elements | not executed | Slice.StrideQuirkAsWritten | Slice.BuildIntended |
