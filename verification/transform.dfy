/** Transform operators (matmul, cov, cumsum, trace, qr, cusolver_qr) as nodes
    of an expression tree: their analytic shapes, which executor and output
    tuple their Exec accepts, the two-phase PreRun protocol as an event trace,
    and what operator() reads. */
module Transform {
  import opened Base
  import opened Shapes
  import MatMul

  /** An expression tree. A Leaf is any operand that is not a transform (a
      tensor, say) and has a shape; every transform node carries an id naming
      its result buffer tmp_out_. A MatMulOp with a permutation is what the
      axis overload of matmul() builds: a and b are the unpermuted operands. */
  datatype Node =
    | Leaf(dims: seq<int>)
    | MatMulOp(id: nat, a: Node, b: Node, perm: Option<seq<int>>)
    | CovOp(id: nat, a: Node)
    | CumSumOp(id: nat, a: Node)
    | TraceOp(id: nat, a: Node)
    | QROp(id: nat, a: Node)
    | CuSolverQROp(id: nat, a: Node)

  /** The multi-output decompositions. */
  predicate IsQR(n: Node) {
    n.QROp? || n.CuSolverQROp?
  }

  /** Rank(): the operand's rank for every transform but trace, whose result
      is a scalar. */
  function Rank(n: Node): (r: nat)
    ensures n.TraceOp? ==> r == 0
    ensures !n.Leaf? && !n.TraceOp? ==> r == Rank(n.a)
  {
    match n
    case Leaf(dims) => |dims|
    case MatMulOp(_, a, _, _) => Rank(a)
    case CovOp(_, a) => Rank(a)
    case CumSumOp(_, a) => Rank(a)
    case TraceOp(_, _) => 0
    case QROp(_, a) => Rank(a)
    case CuSolverQROp(_, a) => Rank(a)
  }

  /** The conditions under which every constructor in the tree stays inside
      its out_dims_ array: matmul without a permutation needs Rank(A) >= 2 and
      1 <= Rank(B) <= Rank(A); the axis overload needs equal ranks and a
      permutation of the dimensions; cov's out_dims_ has two entries. */
  predicate WellShaped(n: Node) {
    match n
    case Leaf(_) => true
    case MatMulOp(_, a, b, perm) =>
      && WellShaped(a) && WellShaped(b)
      && 2 <= Rank(a)
      && (if perm.None? then 1 <= Rank(b) <= Rank(a)
          else Rank(b) == Rank(a) && IsPermutation(perm.value, Rank(a)))
    case CovOp(_, a) => WellShaped(a) && Rank(a) <= 2
    case CumSumOp(_, a) => WellShaped(a)
    case TraceOp(_, a) => WellShaped(a)
    case QROp(_, a) => WellShaped(a)
    case CuSolverQROp(_, a) => WellShaped(a)
  }

  /** The analytic output shape, fixed at construction: one extent per
      dimension of Rank(n). Matmul follows the product rules of module MatMul;
      cov, cumsum and the decompositions keep the operand's shape; trace is a
      scalar. */
  function Shape(n: Node): (s: seq<int>)
    requires WellShaped(n)
    ensures |s| == Rank(n)
  {
    match n
    case Leaf(dims) => dims
    case MatMulOp(_, a, b, perm) =>
      if perm.None? then MatMul.PlainOutDims(Shape(a), Shape(b))
      else MatMul.PermOutDims(Shape(a), Shape(b), perm.value)
    case CovOp(_, a) => Shape(a)
    case CumSumOp(_, a) => Shape(a)
    case TraceOp(_, _) => []
    case QROp(_, a) => Shape(a)
    case CuSolverQROp(_, a) => Shape(a)
  }

  /** Dimensions Size(dim) may be asked for: trace answers every dim; the
      decompositions forward to their operand; the others read an array with
      Rank() entries. */
  predicate SizeDefined(n: Node, dim: int) {
    match n
    case TraceOp(_, _) => true
    case QROp(_, a) => SizeDefined(a, dim)
    case CuSolverQROp(_, a) => SizeDefined(a, dim)
    case _ => 0 <= dim < Rank(n)
  }

  /** Size(dim). Below the rank it is the analytic shape's extent; trace
      answers 1 whatever dim is asked. */
  function Size(n: Node, dim: int): (s: int)
    requires WellShaped(n) && SizeDefined(n, dim)
    ensures 0 <= dim < Rank(n) ==> s == Shape(n)[dim]
    ensures n.TraceOp? ==> s == 1
  {
    match n
    case TraceOp(_, _) => 1
    case QROp(_, a) => Size(a, dim)
    case CuSolverQROp(_, a) => Size(a, dim)
    case _ => Shape(n)[dim]
  }

  /** matmul(A, B, axis): both operands are permuted by the same permutation
      (the one getPermuteDims derives from axis, taken here as given) and must
      have the same rank. The result, viewed through that permutation, has the
      plain product shape of the permuted operands. */
  function MatMulAxis(id: nat, a: Node, b: Node, perm: seq<int>): (n: Node)
    requires Rank(a) == Rank(b)
    requires 2 <= Rank(a) && IsPermutation(perm, Rank(a))
    ensures n.MatMulOp? && n.a == a && n.b == b && Rank(n) == Rank(a)
    ensures WellShaped(a) && WellShaped(b) ==>
      && WellShaped(n)
      && Permute(Shape(n), perm) == MatMul.PlainOutDims(Permute(Shape(a), perm), Permute(Shape(b), perm))
  {
    MatMulOp(id, a, b, Some(perm))
  }

  /** Transforms whose Exec is restricted to the device executor. */
  predicate DeviceOnly(n: Node) {
    n.MatMulOp? || n.CovOp? || IsQR(n)
  }

  /** Exec(out, ex) on an output tuple of `arity` components: the components it
      writes, or the static check that rejects the call. matmul, cov and the
      decompositions need the device executor; the decompositions need a
      3-tuple and write components 0 and 1 only; every other Exec writes
      component 0. */
  function ExecOutputs(n: Node, ex: Executor, arity: nat): (r: Result<set<nat>>)
    requires !n.Leaf?
    ensures r.Failure? <==> (DeviceOnly(n) && ex.HostExecutor?) || arity < 1 || (IsQR(n) && arity != 3)
    ensures r.Failure? && DeviceOnly(n) && ex.HostExecutor? ==> r.error == UnsupportedExecutor
    ensures r.Success? ==> 0 in r.value && forall k :: k in r.value ==> k < arity
    ensures r.Success? && IsQR(n) ==> r.value == {0, 1}
    ensures r.Success? && !IsQR(n) ==> r.value == {0}
  {
    if DeviceOnly(n) && ex.HostExecutor? then Failure(UnsupportedExecutor)
    else if IsQR(n) then (if arity == 3 then Success({0, 1}) else Failure(InvalidAssignment))
    else if arity < 1 then Failure(InvalidAssignment)
    else Success({0})
  }

  /** What PreRun enqueues: the allocation of a node's result buffer (tagged
      with the executor whose memory kind it uses) and the node's Exec into it. */
  datatype Event = Alloc(id: nat, on: Executor) | Exec(id: nat)

  /** A PreRun walk: the events enqueued, and the fault that stopped it, if
      any. Work enqueued before a fault is not rolled back. */
  datatype Run = Run(events: seq<Event>, fault: Option<Error>)

  /** Whether PreRun allocates tmp_out_ before Exec: trace always does (device
      memory or host memory), matmul, cov and cumsum only on the device. */
  function Allocates(n: Node, ex: Executor): (b: bool)
    ensures n.TraceOp? ==> b
    ensures (n.MatMulOp? || n.CovOp? || n.CumSumOp?) ==> (b <==> ex.DeviceExecutor?)
    ensures n.Leaf? || IsQR(n) ==> !b
  {
    && !n.Leaf?
    && !IsQR(n)
    && (n.TraceOp? || ex.DeviceExecutor?)
  }

  /** The tail of a transform's PreRun: allocation when it allocates, then Exec. */
  function Dispatch(n: Node, ex: Executor): (evs: seq<Event>)
    requires !n.Leaf?
    ensures 1 <= |evs| <= 2 && evs[|evs| - 1] == Exec(n.id)
    ensures Allocates(n, ex) <==> |evs| == 2
    ensures |evs| == 2 ==> evs[0] == Alloc(n.id, ex)
  {
    (if Allocates(n, ex) then [Alloc(n.id, ex)] else []) + [Exec(n.id)]
  }

  /** First one walk, then the next unless the first faulted. */
  function Join(first: Run, next: Run): (r: Run) {
    if first.fault.Some? then first else Run(first.events + next.events, next.fault)
  }

  /** After the operands' walk: this node's allocation and Exec, unless an
      operand faulted. */
  function Finish(operands: Run, n: Node, ex: Executor): (r: Run)
    requires !n.Leaf?
  {
    if operands.fault.Some? then operands else Run(operands.events + Dispatch(n, ex), None)
  }

  /** The events PreRun enqueues at run time: operands first (A then B for
      matmul), then this node's allocation and Exec; the decompositions fault
      with NotSupported without touching their operand. A walk that completes
      ends with the node's own Exec. */
  function Enqueue(n: Node, ex: Executor): (r: Run)
    ensures r.fault.Some? ==> r.fault.value == NotSupported
    ensures r.fault.None? && !n.Leaf? ==> |r.events| > 0 && r.events[|r.events| - 1] == Exec(n.id)
  {
    if n.Leaf? then Run([], None)
    else if IsQR(n) then Run([], Some(NotSupported))
    else if n.MatMulOp? then Finish(Join(Enqueue(n.a, ex), Enqueue(n.b, ex)), n, ex)
    else Finish(Enqueue(n.a, ex), n, ex)
  }

  /** Whether every Exec that PreRun instantiates accepts the executor and the
      one-element tuple PreRun passes. This is decided at compile time: a
      violation means nothing runs. The decompositions' PreRun instantiates
      neither their Exec nor their operand's PreRun. */
  function Compiles(n: Node, ex: Executor): (b: bool)
    ensures ex.DeviceExecutor? ==> b
    ensures (n.MatMulOp? || n.CovOp?) && ex.HostExecutor? ==> !b
  {
    if n.Leaf? || IsQR(n) then true
    else if n.MatMulOp? then ExecOutputs(n, ex, 1).Success? && Compiles(n.a, ex) && Compiles(n.b, ex)
    else ExecOutputs(n, ex, 1).Success? && Compiles(n.a, ex)
  }

  /** PreRun(shape, ex) on a tree: either the error that stops it, or the
      events it enqueues in order. */
  function PreRunTrace(n: Node, ex: Executor): (r: Result<seq<Event>>)
    ensures r.Failure? ==> r.error == UnsupportedExecutor || r.error == NotSupported
    ensures r.Success? && !n.Leaf? ==> |r.value| > 0 && r.value[|r.value| - 1] == Exec(n.id)
  {
    if !Compiles(n, ex) then Failure(UnsupportedExecutor)
    else
      var run := Enqueue(n, ex);
      if run.fault.Some? then Failure(run.fault.value) else Success(run.events)
  }

  /** What operator()(idx...) reads: a leaf reads itself, a transform its own
      result buffer at the same indices; the decompositions delete operator(). */
  datatype Access = LeafAccess(idx: seq<int>) | BufferAccess(id: nat, idx: seq<int>) | NotIndexable

  function Read(n: Node, idx: seq<int>): (r: Access)
    ensures r.NotIndexable? <==> IsQR(n)
    ensures r.BufferAccess? ==> r.idx == idx
    ensures n.Leaf? ==> r == LeafAccess(idx)
    ensures !n.Leaf? && !IsQR(n) ==> r == BufferAccess(n.id, idx)
  {
    if n.Leaf? then LeafAccess(idx)
    else if IsQR(n) then NotIndexable
    else BufferAccess(n.id, idx)
  }
}
