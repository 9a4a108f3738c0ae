/** Properties of the PreRun protocol on a tree of transforms: when it fails
    and why, that it executes every operator exactly once and operands before
    the operators that read them, and which result buffers it allocates. */
module Protocol {
  import opened Base
  import opened Transform

  /** The result-buffer ids of the transforms in a tree. */
  function Ids(n: Node): (ids: set<nat>) {
    if n.Leaf? then {}
    else if n.MatMulOp? then {n.id} + Ids(n.a) + Ids(n.b)
    else {n.id} + Ids(n.a)
  }

  /** Every transform owns its own tmp_out_: no two nodes share an id. */
  predicate DistinctIds(n: Node) {
    if n.Leaf? then true
    else if n.MatMulOp? then
      && n.id !in Ids(n.a) && n.id !in Ids(n.b) && Ids(n.a) !! Ids(n.b)
      && DistinctIds(n.a) && DistinctIds(n.b)
    else n.id !in Ids(n.a) && DistinctIds(n.a)
  }

  /** Whether PreRun's walk reaches a decomposition. */
  predicate ReachesQR(n: Node) {
    if n.Leaf? then false
    else if IsQR(n) then true
    else if n.MatMulOp? then ReachesQR(n.a) || ReachesQR(n.b)
    else ReachesQR(n.a)
  }

  /** Whether PreRun's walk instantiates a device-only Exec (matmul or cov). */
  predicate ReachesDeviceOnly(n: Node) {
    if n.Leaf? || IsQR(n) then false
    else if DeviceOnly(n) then true
    else ReachesDeviceOnly(n.a)
  }

  // ---------------------------------------------------------------------
  // When PreRun fails

  /** A host executor is rejected at compile time exactly when the walk
      reaches a matmul or a cov; the device executor always compiles. */
  lemma {:induction false} CompilesIff(n: Node, ex: Executor)
    ensures Compiles(n, ex) <==> ex.DeviceExecutor? || !ReachesDeviceOnly(n)
  {
    if n.Leaf? || IsQR(n) {
    } else if n.MatMulOp? {
      CompilesIff(n.a, ex);
      CompilesIff(n.b, ex);
    } else {
      CompilesIff(n.a, ex);
    }
  }

  /** The walk faults exactly when it reaches a decomposition. */
  lemma {:induction false} FaultsIffReachesQR(n: Node, ex: Executor)
    ensures Enqueue(n, ex).fault.Some? <==> ReachesQR(n)
  {
    if n.Leaf? || IsQR(n) {
    } else if n.MatMulOp? {
      FaultsIffReachesQR(n.a, ex);
      FaultsIffReachesQR(n.b, ex);
    } else {
      FaultsIffReachesQR(n.a, ex);
    }
  }

  /** PreRun succeeds exactly when the executor suits every Exec it
      instantiates and no decomposition is reached; otherwise it reports which
      of the two stopped it. */
  lemma PreRunSucceedsIff(n: Node, ex: Executor)
    ensures PreRunTrace(n, ex).Success? <==> (ex.DeviceExecutor? || !ReachesDeviceOnly(n)) && !ReachesQR(n)
    ensures ex.HostExecutor? && ReachesDeviceOnly(n) ==> PreRunTrace(n, ex) == Failure(UnsupportedExecutor)
    ensures (ex.DeviceExecutor? || !ReachesDeviceOnly(n)) && ReachesQR(n) ==> PreRunTrace(n, ex) == Failure(NotSupported)
  {
    CompilesIff(n, ex);
    FaultsIffReachesQR(n, ex);
  }

  // ---------------------------------------------------------------------
  // Which events are enqueued

  /** Every event names a transform of the tree. */
  lemma {:induction false} EventIds(n: Node, ex: Executor)
    ensures forall e :: e in Enqueue(n, ex).events ==> e.id in Ids(n)
  {
    if n.Leaf? || IsQR(n) {
    } else if n.MatMulOp? {
      EventIds(n.a, ex);
      EventIds(n.b, ex);
    } else {
      EventIds(n.a, ex);
    }
  }

  /** A walk that completes executes every transform of the tree. */
  lemma {:induction false} ExecComplete(n: Node, ex: Executor)
    ensures Enqueue(n, ex).fault.None? ==> forall x :: x in Ids(n) ==> Exec(x) in Enqueue(n, ex).events
  {
    if n.Leaf? || IsQR(n) {
    } else if n.MatMulOp? {
      ExecComplete(n.a, ex);
      ExecComplete(n.b, ex);
    } else {
      ExecComplete(n.a, ex);
    }
  }

  /** A successful PreRun executes exactly the transforms of the tree. */
  lemma ExecutesExactlyTheTree(n: Node, ex: Executor)
    requires PreRunTrace(n, ex).Success?
    ensures forall x :: Exec(x) in PreRunTrace(n, ex).value <==> x in Ids(n)
  {
    EventIds(n, ex);
    ExecComplete(n, ex);
  }

  /** No Exec event occurs twice. */
  predicate ExecsOnce(evs: seq<Event>) {
    forall i, j :: 0 <= i < j < |evs| && evs[i].Exec? ==> evs[i] != evs[j]
  }

  lemma ExecsOnceConcat(xs: seq<Event>, ys: seq<Event>)
    requires ExecsOnce(xs) && ExecsOnce(ys)
    requires forall e :: e in xs && e.Exec? ==> e !in ys
    ensures ExecsOnce(xs + ys)
  {
    var zs := xs + ys;
    forall i, j | 0 <= i < j < |zs| && zs[i].Exec?
      ensures zs[i] != zs[j]
    {
      if j < |xs| {
        assert zs[i] == xs[i] && zs[j] == xs[j];
      } else if i >= |xs| {
        assert zs[i] == ys[i - |xs|] && zs[j] == ys[j - |xs|];
      } else {
        assert zs[i] == xs[i] && xs[i] in xs;
        assert zs[j] == ys[j - |xs|] && ys[j - |xs|] in ys;
      }
    }
  }

  /** With distinct ids, PreRun executes each transform at most once, even
      when its walk faults part way. */
  lemma {:induction false} ExecOnce(n: Node, ex: Executor)
    requires DistinctIds(n)
    ensures ExecsOnce(Enqueue(n, ex).events)
  {
    if n.Leaf? || IsQR(n) {
    } else {
      var ops: Run;
      if n.MatMulOp? {
        var ra, rb := Enqueue(n.a, ex), Enqueue(n.b, ex);
        ExecOnce(n.a, ex);
        ExecOnce(n.b, ex);
        EventIds(n.a, ex);
        EventIds(n.b, ex);
        if ra.fault.None? {
          ExecsOnceConcat(ra.events, rb.events);
        }
        ops := Join(ra, rb);
      } else {
        ExecOnce(n.a, ex);
        EventIds(n.a, ex);
        ops := Enqueue(n.a, ex);
      }
      assert forall e :: e in ops.events ==> e.id != n.id;
      if ops.fault.None? {
        var d := Dispatch(n, ex);
        assert ExecsOnce(d);
        ExecsOnceConcat(ops.events, d);
      }
    }
  }

  // ---------------------------------------------------------------------
  // Operands execute first

  /** Every Exec of p comes after an Exec of c. */
  predicate ExecutedBefore(evs: seq<Event>, c: nat, p: nat) {
    forall j :: 0 <= j < |evs| && evs[j] == Exec(p) ==> Exec(c) in evs[..j]
  }

  /** (c, p) when c is a transform somewhere inside p's operands. */
  function Below(n: Node): (pairs: set<(nat, nat)>) {
    if n.Leaf? then {}
    else if n.MatMulOp? then Below(n.a) + Below(n.b) + (set c | c in Ids(n.a) + Ids(n.b) :: (c, n.id))
    else Below(n.a) + (set c | c in Ids(n.a) :: (c, n.id))
  }

  lemma {:induction false} BelowWithinIds(n: Node)
    ensures forall c, p :: (c, p) in Below(n) ==> c in Ids(n) && p in Ids(n)
  {
    if n.Leaf? {
    } else if n.MatMulOp? {
      BelowWithinIds(n.a);
      BelowWithinIds(n.b);
    } else {
      BelowWithinIds(n.a);
    }
  }

  lemma BeforeWhenAbsent(evs: seq<Event>, c: nat, p: nat)
    requires Exec(p) !in evs
    ensures ExecutedBefore(evs, c, p)
  {
  }

  lemma BeforeConcat(xs: seq<Event>, ys: seq<Event>, c: nat, p: nat)
    requires ExecutedBefore(xs, c, p)
    requires ExecutedBefore(ys, c, p) || Exec(c) in xs
    ensures ExecutedBefore(xs + ys, c, p)
  {
    var zs := xs + ys;
    forall j | 0 <= j < |zs| && zs[j] == Exec(p)
      ensures Exec(c) in zs[..j]
    {
      if j < |xs| {
        assert zs[j] == xs[j];
        assert zs[..j] == xs[..j];
      } else {
        assert zs[j] == ys[j - |xs|];
        assert zs[..j] == xs + ys[..j - |xs|];
      }
    }
  }

  lemma JoinBefore(ra: Run, rb: Run, c: nat, p: nat)
    requires ExecutedBefore(ra.events, c, p) && ExecutedBefore(rb.events, c, p)
    ensures ExecutedBefore(Join(ra, rb).events, c, p)
  {
    if ra.fault.None? {
      BeforeConcat(ra.events, rb.events, c, p);
    }
  }

  /** An ordering among the operands survives this node's own events. */
  lemma FinishKeepsBefore(ops: Run, n: Node, ex: Executor, c: nat, p: nat)
    requires !n.Leaf? && p != n.id
    requires ExecutedBefore(ops.events, c, p)
    ensures ExecutedBefore(Finish(ops, n, ex).events, c, p)
  {
    if ops.fault.None? {
      var d := Dispatch(n, ex);
      assert Exec(p) !in d;
      BeforeWhenAbsent(d, c, p);
      BeforeConcat(ops.events, d, c, p);
    }
  }

  /** This node executes after anything the completed operand walk executed. */
  lemma FinishAfterOperands(ops: Run, n: Node, ex: Executor, c: nat)
    requires !n.Leaf?
    requires Exec(n.id) !in ops.events
    requires ops.fault.None? ==> Exec(c) in ops.events
    ensures ExecutedBefore(Finish(ops, n, ex).events, c, n.id)
  {
    BeforeWhenAbsent(ops.events, c, n.id);
    if ops.fault.None? {
      BeforeConcat(ops.events, Dispatch(n, ex), c, n.id);
    }
  }

  /** With distinct ids, every transform inside an operator's operands is
      executed before the operator itself, whether or not the walk faults
      later. */
  lemma {:induction false} OperandsExecuteFirst(n: Node, ex: Executor)
    requires DistinctIds(n)
    ensures forall c, p :: (c, p) in Below(n) ==> ExecutedBefore(Enqueue(n, ex).events, c, p)
  {
    if n.Leaf? {
    } else if IsQR(n) {
      forall c, p | (c, p) in Below(n)
        ensures ExecutedBefore(Enqueue(n, ex).events, c, p)
      {
        BeforeWhenAbsent([], c, p);
      }
    } else if n.MatMulOp? {
      var ra, rb := Enqueue(n.a, ex), Enqueue(n.b, ex);
      var ops := Join(ra, rb);
      OperandsExecuteFirst(n.a, ex);
      OperandsExecuteFirst(n.b, ex);
      BelowWithinIds(n.a);
      BelowWithinIds(n.b);
      EventIds(n.a, ex);
      EventIds(n.b, ex);
      ExecComplete(n.a, ex);
      ExecComplete(n.b, ex);
      forall c, p | (c, p) in Below(n)
        ensures ExecutedBefore(Enqueue(n, ex).events, c, p)
      {
        if (c, p) in Below(n.a) {
          assert Exec(p) !in rb.events;
          BeforeWhenAbsent(rb.events, c, p);
          JoinBefore(ra, rb, c, p);
          FinishKeepsBefore(ops, n, ex, c, p);
        } else if (c, p) in Below(n.b) {
          assert Exec(p) !in ra.events;
          BeforeWhenAbsent(ra.events, c, p);
          JoinBefore(ra, rb, c, p);
          FinishKeepsBefore(ops, n, ex, c, p);
        } else {
          assert p == n.id && c in Ids(n.a) + Ids(n.b);
          assert Exec(n.id) !in ra.events && Exec(n.id) !in rb.events;
          FinishAfterOperands(ops, n, ex, c);
        }
      }
    } else {
      var ra := Enqueue(n.a, ex);
      OperandsExecuteFirst(n.a, ex);
      BelowWithinIds(n.a);
      EventIds(n.a, ex);
      ExecComplete(n.a, ex);
      forall c, p | (c, p) in Below(n)
        ensures ExecutedBefore(Enqueue(n, ex).events, c, p)
      {
        if (c, p) in Below(n.a) {
          FinishKeepsBefore(ra, n, ex, c, p);
        } else {
          assert p == n.id && c in Ids(n.a);
          assert Exec(n.id) !in ra.events;
          FinishAfterOperands(ra, n, ex, c);
        }
      }
    }
  }

  /** A product's walk runs A's PreRun to the end before anything of B's,
      and both before the product's own allocation and Exec: with distinct
      ids, every event of A's subtree precedes every event of B's subtree,
      and every operand event precedes every event of the product itself. */
  lemma MatMulWalkOrder(n: Node, ex: Executor)
    requires n.MatMulOp? && DistinctIds(n)
    ensures var evs := Enqueue(n, ex).events;
      forall i, j :: 0 <= i < |evs| && 0 <= j < |evs| && evs[i].id in Ids(n.a) && evs[j].id in Ids(n.b) ==> i < j
    ensures var evs := Enqueue(n, ex).events;
      forall i, j :: 0 <= i < |evs| && 0 <= j < |evs| && evs[i].id in Ids(n.a) + Ids(n.b) && evs[j].id == n.id ==> i < j
  {
    var ra := Enqueue(n.a, ex);
    var rb := Enqueue(n.b, ex);
    var evs := Enqueue(n, ex).events;
    EventIds(n.a, ex);
    EventIds(n.b, ex);
    if ra.fault.Some? {
      assert evs == ra.events;
      forall k | 0 <= k < |evs|
        ensures evs[k].id in Ids(n.a)
      {
        assert evs[k] in ra.events;
      }
    } else {
      var mid := ra.events + rb.events;
      assert |mid| <= |evs|;
      forall k | 0 <= k < |evs|
        ensures k < |ra.events| ==> evs[k].id in Ids(n.a)
        ensures |ra.events| <= k < |mid| ==> evs[k].id in Ids(n.b)
        ensures |mid| <= k ==> evs[k].id == n.id
      {
        if k < |ra.events| {
          assert evs[k] == ra.events[k];
          assert ra.events[k] in ra.events;
        } else if k < |mid| {
          assert evs[k] == rb.events[k - |ra.events|];
          assert rb.events[k - |ra.events|] in rb.events;
        } else {
          assert evs == mid + Dispatch(n, ex);
          assert evs[k] == Dispatch(n, ex)[k - |mid|];
        }
      }
    }
  }

  // ---------------------------------------------------------------------
  // Allocation of result buffers

  /** The ids whose tmp_out_ PreRun allocates on executor ex. */
  function AllocIds(n: Node, ex: Executor): (ids: set<nat>) {
    if n.Leaf? || IsQR(n) then {}
    else
      (if Allocates(n, ex) then {n.id} else {})
      + AllocIds(n.a, ex)
      + (if n.MatMulOp? then AllocIds(n.b, ex) else {})
  }

  lemma {:induction false} AllocIdsWithinIds(n: Node, ex: Executor)
    ensures AllocIds(n, ex) <= Ids(n)
  {
    if n.Leaf? || IsQR(n) {
    } else if n.MatMulOp? {
      AllocIdsWithinIds(n.a, ex);
      AllocIdsWithinIds(n.b, ex);
    } else {
      AllocIdsWithinIds(n.a, ex);
    }
  }

  /** Every allocation uses the memory kind of the executor PreRun was given
      and belongs to a transform that allocates on it. */
  lemma {:induction false} AllocsMatchExecutor(n: Node, ex: Executor)
    ensures forall e :: e in Enqueue(n, ex).events && e.Alloc? ==> e.on == ex && e.id in AllocIds(n, ex)
  {
    if n.Leaf? || IsQR(n) {
    } else if n.MatMulOp? {
      AllocsMatchExecutor(n.a, ex);
      AllocsMatchExecutor(n.b, ex);
    } else {
      AllocsMatchExecutor(n.a, ex);
    }
  }

  /** Every Exec of an id in s comes straight after that id's allocation. */
  predicate AllocatedFirst(evs: seq<Event>, s: set<nat>, ex: Executor) {
    forall j :: 0 <= j < |evs| && evs[j].Exec? && evs[j].id in s ==> 0 < j && evs[j - 1] == Alloc(evs[j].id, ex)
  }

  lemma AllocatedFirstConcat(xs: seq<Event>, ys: seq<Event>, s: set<nat>, ex: Executor)
    requires AllocatedFirst(xs, s, ex) && AllocatedFirst(ys, s, ex)
    ensures AllocatedFirst(xs + ys, s, ex)
  {
    var zs := xs + ys;
    forall j | 0 <= j < |zs| && zs[j].Exec? && zs[j].id in s
      ensures 0 < j && zs[j - 1] == Alloc(zs[j].id, ex)
    {
      if j < |xs| {
        assert zs[j] == xs[j] && zs[j - 1] == xs[j - 1];
      } else {
        assert zs[j] == ys[j - |xs|];
        assert 0 < j - |xs|;
        assert zs[j - 1] == ys[j - |xs| - 1];
      }
    }
  }

  lemma AllocatedFirstNarrow(xs: seq<Event>, s: set<nat>, s': set<nat>, t: set<nat>, ex: Executor)
    requires AllocatedFirst(xs, s, ex)
    requires forall e :: e in xs ==> e.id in t
    requires s' * t <= s
    ensures AllocatedFirst(xs, s', ex)
  {
    forall j | 0 <= j < |xs| && xs[j].Exec? && xs[j].id in s'
      ensures 0 < j && xs[j - 1] == Alloc(xs[j].id, ex)
    {
      assert xs[j] in xs;
    }
  }

  /** This node's allocation and Exec keep every Exec right behind its
      allocation, when the node's id is in s exactly if it allocates. */
  lemma FinishAllocatedFirst(ops: Run, n: Node, ex: Executor, s: set<nat>)
    requires !n.Leaf? && AllocatedFirst(ops.events, s, ex)
    requires n.id in s <==> Allocates(n, ex)
    ensures AllocatedFirst(Finish(ops, n, ex).events, s, ex)
  {
    if ops.fault.None? {
      AllocatedFirstConcat(ops.events, Dispatch(n, ex), s, ex);
    }
  }

  /** With distinct ids, every Exec of a buffer the tree allocates comes
      straight after that allocation, even in a walk that faults. */
  lemma {:induction false} AllocatedFirstAlways(n: Node, ex: Executor)
    requires DistinctIds(n)
    ensures AllocatedFirst(Enqueue(n, ex).events, AllocIds(n, ex), ex)
  {
    if n.Leaf? || IsQR(n) {
    } else {
      var s := AllocIds(n, ex);
      var ra := Enqueue(n.a, ex);
      AllocatedFirstAlways(n.a, ex);
      EventIds(n.a, ex);
      AllocIdsWithinIds(n.a, ex);
      if n.MatMulOp? {
        var rb := Enqueue(n.b, ex);
        AllocatedFirstAlways(n.b, ex);
        EventIds(n.b, ex);
        AllocIdsWithinIds(n.b, ex);
        AllocatedFirstNarrow(ra.events, AllocIds(n.a, ex), s, Ids(n.a), ex);
        AllocatedFirstNarrow(rb.events, AllocIds(n.b, ex), s, Ids(n.b), ex);
        if ra.fault.None? {
          AllocatedFirstConcat(ra.events, rb.events, s, ex);
        }
        FinishAllocatedFirst(Join(ra, rb), n, ex, s);
      } else {
        AllocatedFirstNarrow(ra.events, AllocIds(n.a, ex), s, Ids(n.a), ex);
        FinishAllocatedFirst(ra, n, ex, s);
      }
    }
  }

  /** With distinct ids, a transform's Exec is preceded immediately by the
      allocation of its result buffer, in the executor's memory kind, exactly
      when it is one that allocates on this executor. */
  lemma AllocationDiscipline(n: Node, ex: Executor)
    requires DistinctIds(n)
    ensures var evs := Enqueue(n, ex).events;
      forall j :: 0 <= j < |evs| && evs[j].Exec? ==>
        (evs[j].id in AllocIds(n, ex) <==> 0 < j && evs[j - 1] == Alloc(evs[j].id, ex))
  {
    var evs := Enqueue(n, ex).events;
    AllocsMatchExecutor(n, ex);
    AllocatedFirstAlways(n, ex);
    forall j | 0 <= j < |evs| && evs[j].Exec? && 0 < j && evs[j - 1] == Alloc(evs[j].id, ex)
      ensures evs[j].id in AllocIds(n, ex)
    {
      assert evs[j - 1] in evs;
    }
  }

  /** Transforms by kind. */
  datatype Kind = MatMulKind | CovKind | CumSumKind | TraceKind | QRKind | CuSolverQRKind

  function KindOf(n: Node): (k: Kind)
    requires !n.Leaf?
    ensures k == TraceKind <==> n.TraceOp?
    ensures k == CumSumKind <==> n.CumSumOp?
    ensures k == MatMulKind <==> n.MatMulOp?
  {
    match n
    case MatMulOp(_, _, _, _) => MatMulKind
    case CovOp(_, _) => CovKind
    case CumSumOp(_, _) => CumSumKind
    case TraceOp(_, _) => TraceKind
    case QROp(_, _) => QRKind
    case CuSolverQROp(_, _) => CuSolverQRKind
  }

  /** The ids of the transforms of kind k. */
  function IdsOf(n: Node, k: Kind): (ids: set<nat>) {
    if n.Leaf? then {}
    else
      (if KindOf(n) == k then {n.id} else {})
      + IdsOf(n.a, k)
      + (if n.MatMulOp? then IdsOf(n.b, k) else {})
  }

  lemma {:induction false} IdsOfWithinIds(n: Node, k: Kind)
    ensures IdsOf(n, k) <= Ids(n)
  {
    if n.Leaf? {
    } else if n.MatMulOp? {
      IdsOfWithinIds(n.a, k);
      IdsOfWithinIds(n.b, k);
    } else {
      IdsOfWithinIds(n.a, k);
    }
  }

  /** With distinct ids, no id belongs to two kinds. */
  lemma {:induction false} KindsDisjoint(n: Node, k1: Kind, k2: Kind)
    requires DistinctIds(n) && k1 != k2
    ensures IdsOf(n, k1) !! IdsOf(n, k2)
  {
    if n.Leaf? {
    } else {
      KindsDisjoint(n.a, k1, k2);
      IdsOfWithinIds(n.a, k1);
      IdsOfWithinIds(n.a, k2);
      if n.MatMulOp? {
        KindsDisjoint(n.b, k1, k2);
        IdsOfWithinIds(n.b, k1);
        IdsOfWithinIds(n.b, k2);
      }
    }
  }

  /** On the device, every transform the walk reaches allocates its result
      buffer. */
  lemma {:induction false} DeviceAllocatesEveryBuffer(n: Node)
    requires !ReachesQR(n)
    ensures AllocIds(n, DeviceExecutor) == Ids(n)
  {
    if n.Leaf? {
    } else if n.MatMulOp? {
      DeviceAllocatesEveryBuffer(n.a);
      DeviceAllocatesEveryBuffer(n.b);
    } else {
      DeviceAllocatesEveryBuffer(n.a);
    }
  }

  /** On the host, only trace allocates its result buffer; in particular
      cumsum, whose host Exec is accepted, runs into a buffer PreRun never
      allocated. */
  lemma {:induction false} HostAllocatesOnlyTraces(n: Node)
    ensures AllocIds(n, HostExecutor) <= IdsOf(n, TraceKind)
    ensures !ReachesQR(n) ==> AllocIds(n, HostExecutor) == IdsOf(n, TraceKind)
  {
    if n.Leaf? || IsQR(n) {
    } else if n.MatMulOp? {
      HostAllocatesOnlyTraces(n.a);
      HostAllocatesOnlyTraces(n.b);
    } else {
      HostAllocatesOnlyTraces(n.a);
    }
  }

  /** With distinct ids, a host PreRun executes every cumsum it reaches
      without allocating its buffer. */
  lemma CumSumOnHostIsNeverAllocated(n: Node)
    requires DistinctIds(n)
    ensures forall e :: e in Enqueue(n, HostExecutor).events && e.id in IdsOf(n, CumSumKind) ==> e.Exec?
  {
    AllocsMatchExecutor(n, HostExecutor);
    HostAllocatesOnlyTraces(n);
    KindsDisjoint(n, TraceKind, CumSumKind);
  }

  /** The same, on a single cumsum over a tensor: on the host the trace is a
      bare Exec, on the device the allocation comes first. */
  lemma CumSumHostAndDevice(id: nat, dims: seq<int>)
    ensures PreRunTrace(CumSumOp(id, Leaf(dims)), HostExecutor) == Success([Exec(id)])
    ensures PreRunTrace(CumSumOp(id, Leaf(dims)), DeviceExecutor) == Success([Alloc(id, DeviceExecutor), Exec(id)])
  {
    var n := CumSumOp(id, Leaf(dims));
    assert Enqueue(n.a, HostExecutor) == Run([], None) == Enqueue(n.a, DeviceExecutor);
    assert Dispatch(n, HostExecutor) == [Exec(id)];
    assert Dispatch(n, DeviceExecutor) == [Alloc(id, DeviceExecutor), Exec(id)];
    assert Compiles(n, HostExecutor) && Compiles(n, DeviceExecutor);
    assert Enqueue(n, HostExecutor) == Run([Exec(id)], None);
    assert Enqueue(n, DeviceExecutor) == Run([Alloc(id, DeviceExecutor), Exec(id)], None);
  }

  /** Trace allocates on either executor, in that executor's memory. */
  lemma TraceAllocatesOnEither(id: nat, dims: seq<int>, ex: Executor)
    ensures PreRunTrace(TraceOp(id, Leaf(dims)), ex) == Success([Alloc(id, ex), Exec(id)])
  {
    var n := TraceOp(id, Leaf(dims));
    assert Enqueue(n.a, ex) == Run([], None);
    assert Dispatch(n, ex) == [Alloc(id, ex), Exec(id)];
    assert Compiles(n, ex);
    assert Enqueue(n, ex) == Run([Alloc(id, ex), Exec(id)], None);
  }

  // ---------------------------------------------------------------------
  // Reads and sizes

  /** After a successful PreRun the node's Exec is the last event, and
      operator() reads the buffer that Exec wrote, at the same indices. */
  lemma ReadsDispatchedBuffer(n: Node, ex: Executor, idx: seq<int>)
    requires !n.Leaf? && PreRunTrace(n, ex).Success?
    ensures var evs := PreRunTrace(n, ex).value;
      && Read(n, idx) == BufferAccess(n.id, idx)
      && evs[|evs| - 1] == Exec(n.id)
  {
  }

  lemma {:induction false} SizeDefinedBelowRank(n: Node, dim: int)
    requires 0 <= dim < Rank(n)
    ensures SizeDefined(n, dim)
  {
    if IsQR(n) {
      SizeDefinedBelowRank(n.a, dim);
    }
  }

  /** cov, cumsum and the decompositions report their operand's extents. */
  lemma SizeForwardsToOperand(n: Node, dim: int)
    requires WellShaped(n) && (n.CovOp? || n.CumSumOp? || IsQR(n))
    requires 0 <= dim < Rank(n)
    ensures SizeDefined(n, dim) && SizeDefined(n.a, dim)
    ensures Size(n, dim) == Size(n.a, dim)
  {
    SizeDefinedBelowRank(n, dim);
    SizeDefinedBelowRank(n.a, dim);
  }

  /** matmul never compares A's columns with B's rows: a 2x3 by 4x5 product
      is well formed and has shape 2x5. */
  lemma NoInnerDimensionCheck()
    ensures WellShaped(MatMulOp(0, Leaf([2, 3]), Leaf([4, 5]), None))
    ensures Shape(MatMulOp(0, Leaf([2, 3]), Leaf([4, 5]), None)) == [2, 5]
  {
  }
}
