/**
 * The routine recorder: a render routine emits its passes by opening render
 * or compute passes and adding operations, and an operation always goes into
 * the most recently opened pass, which must be of the matching kind.
 *
 * Pass and operation descriptors are plain data that this model never
 * inspects; each is represented by an opaque identifier.
 */
module Recorder {
  import opened Wrappers
  import opened Descriptors

  datatype RenderPassDescriptor = RenderPassDescriptor(id: nat)
  datatype RenderOpDescriptor = RenderOpDescriptor(id: nat)
  datatype ComputePassDescriptor = ComputePassDescriptor(id: nat)
  datatype ComputeOpDescriptor = ComputeOpDescriptor(id: nat)

  datatype RenderPass = RenderPass(desc: RenderPassDescriptor, ops: seq<RenderOpDescriptor>)
  datatype ComputePass = ComputePass(desc: ComputePassDescriptor, ops: seq<ComputeOpDescriptor>)

  datatype Pass = Compute(compute: ComputePass) | Render(render: RenderPass)

  /** `RenderListRoutineRecorder`. */
  datatype RoutineRecorder = RoutineRecorder(target: RenderRoutineTarget, passes: seq<Pass>)

  datatype ObjectSortingStyle = Unsorted | FrontToBack | BackToFront

  /** `ObjectProcessing`; its filter carries no data in the Rust code. */
  datatype ObjectProcessing = ObjectProcessing(frustumCulling: bool, objectSorting: ObjectSortingStyle)

  /** A recorded routine; the callback itself is opaque and named by an identifier. */
  datatype RenderRoutine = RenderRoutine(processing: ObjectProcessing, target: RenderRoutineTarget, routine: nat)

  /** `RenderListRecorder`'s list of routines. */
  datatype ListRecorder = ListRecorder(routines: seq<RenderRoutine>)

  /** `Pass::as_render_mut`: the render pass inside a pass, if it is one. */
  function AsRender(p: Pass): (r: Option<RenderPass>)
    ensures r.Some? <==> p.Render?
    ensures r.Some? ==> p == Render(r.value)
  {
    match p
    case Render(rp) => Some(rp)
    case Compute(_) => None
  }

  /** `Pass::as_compute_mut`: the compute pass inside a pass, if it is one. */
  function AsCompute(p: Pass): (r: Option<ComputePass>)
    ensures r.Some? <==> p.Compute?
    ensures r.Some? ==> p == Compute(r.value)
  {
    match p
    case Compute(cp) => Some(cp)
    case Render(_) => None
  }

  /** The kind of each pass, in order. */
  function Kinds(passes: seq<Pass>): seq<bool> {
    seq(|passes|, i requires 0 <= i < |passes| => passes[i].Render?)
  }

  /** All render operations of a pass list, pass by pass, in recording order. */
  function RenderOps(passes: seq<Pass>): seq<RenderOpDescriptor> {
    if |passes| == 0 then [] else RenderOps(passes[..|passes| - 1]) + RenderOpsOf(passes[|passes| - 1])
  }

  function RenderOpsOf(p: Pass): seq<RenderOpDescriptor> {
    match p
    case Render(rp) => rp.ops
    case Compute(_) => []
  }

  function ComputeOpsOf(p: Pass): seq<ComputeOpDescriptor> {
    match p
    case Compute(cp) => cp.ops
    case Render(_) => []
  }

  /** All compute operations of a pass list, pass by pass, in recording order. */
  function ComputeOps(passes: seq<Pass>): seq<ComputeOpDescriptor> {
    if |passes| == 0 then [] else ComputeOps(passes[..|passes| - 1]) + ComputeOpsOf(passes[|passes| - 1])
  }

  /** `add_render_pass`: opens a new, empty render pass after the existing ones. */
  function AddRenderPass(rec: RoutineRecorder, desc: RenderPassDescriptor): (r: RoutineRecorder)
    ensures r.target == rec.target
    ensures |r.passes| == |rec.passes| + 1 && r.passes[..|rec.passes|] == rec.passes
    ensures r.passes[|rec.passes|] == Render(RenderPass(desc, []))
    ensures RenderOps(r.passes) == RenderOps(rec.passes) && ComputeOps(r.passes) == ComputeOps(rec.passes)
  {
    var ps := rec.passes + [Render(RenderPass(desc, []))];
    assert ps[..|ps| - 1] == rec.passes;
    rec.(passes := ps)
  }

  /** `add_compute_pass`: opens a new, empty compute pass after the existing ones. */
  function AddComputePass(rec: RoutineRecorder, desc: ComputePassDescriptor): (r: RoutineRecorder)
    ensures r.target == rec.target
    ensures |r.passes| == |rec.passes| + 1 && r.passes[..|rec.passes|] == rec.passes
    ensures r.passes[|rec.passes|] == Compute(ComputePass(desc, []))
    ensures RenderOps(r.passes) == RenderOps(rec.passes) && ComputeOps(r.passes) == ComputeOps(rec.passes)
  {
    var ps := rec.passes + [Compute(ComputePass(desc, []))];
    assert ps[..|ps| - 1] == rec.passes;
    rec.(passes := ps)
  }

  /** An operation of the given kind may be added: some pass is open and the last one has that kind. */
  predicate InsideRenderPass(rec: RoutineRecorder) {
    |rec.passes| > 0 && rec.passes[|rec.passes| - 1].Render?
  }

  predicate InsideComputePass(rec: RoutineRecorder) {
    |rec.passes| > 0 && rec.passes[|rec.passes| - 1].Compute?
  }

  /**
   * `add_render_op`: fatal unless the last pass is a render pass; the
   * operation is appended to that pass only. The overall stream of render
   * operations grows by exactly this one and nothing else changes.
   */
  function AddRenderOp(rec: RoutineRecorder, op: RenderOpDescriptor): (r: RoutineRecorder)
    requires InsideRenderPass(rec)
    ensures r.target == rec.target
    ensures Kinds(r.passes) == Kinds(rec.passes)
    ensures forall i :: 0 <= i < |rec.passes| - 1 ==> r.passes[i] == rec.passes[i]
    ensures var last := |rec.passes| - 1;
      r.passes[last] == Render(rec.passes[last].render.(ops := rec.passes[last].render.ops + [op]))
    ensures RenderOps(r.passes) == RenderOps(rec.passes) + [op]
    ensures ComputeOps(r.passes) == ComputeOps(rec.passes)
  {
    var last := |rec.passes| - 1;
    var rp := AsRender(rec.passes[last]).value;
    var ps := rec.passes[last := Render(rp.(ops := rp.ops + [op]))];
    assert ps[..last] == rec.passes[..last];
    rec.(passes := ps)
  }

  /**
   * `add_compute_op`: fatal unless the last pass is a compute pass; the
   * operation is appended to that pass only.
   */
  function AddComputeOp(rec: RoutineRecorder, op: ComputeOpDescriptor): (r: RoutineRecorder)
    requires InsideComputePass(rec)
    ensures r.target == rec.target
    ensures Kinds(r.passes) == Kinds(rec.passes)
    ensures forall i :: 0 <= i < |rec.passes| - 1 ==> r.passes[i] == rec.passes[i]
    ensures var last := |rec.passes| - 1;
      r.passes[last] == Compute(rec.passes[last].compute.(ops := rec.passes[last].compute.ops + [op]))
    ensures ComputeOps(r.passes) == ComputeOps(rec.passes) + [op]
    ensures RenderOps(r.passes) == RenderOps(rec.passes)
  {
    var last := |rec.passes| - 1;
    var cp := AsCompute(rec.passes[last]).value;
    var ps := rec.passes[last := Compute(cp.(ops := cp.ops + [op]))];
    assert ps[..last] == rec.passes[..last];
    rec.(passes := ps)
  }

  /** `add_render_routine`: the routine is recorded after all earlier ones. */
  function AddRenderRoutine(rec: ListRecorder, processing: ObjectProcessing, target: RenderRoutineTarget, routine: nat)
    : (r: ListRecorder)
    ensures |r.routines| == |rec.routines| + 1
    ensures r.routines[..|rec.routines|] == rec.routines
    ensures r.routines[|rec.routines|] == RenderRoutine(processing, target, routine)
  {
    ListRecorder(rec.routines + [RenderRoutine(processing, target, routine)])
  }

  /** One call a routine makes on its recorder. */
  datatype RecorderCall =
    | OpenRender(rpd: RenderPassDescriptor)
    | OpenCompute(cpd: ComputePassDescriptor)
    | DrawOp(rop: RenderOpDescriptor)
    | DispatchOp(cop: ComputeOpDescriptor)

  /** The call is not fatal on `rec`: an operation needs an open pass of its kind. */
  predicate Allowed(rec: RoutineRecorder, c: RecorderCall) {
    && (c.DrawOp? ==> InsideRenderPass(rec))
    && (c.DispatchOp? ==> InsideComputePass(rec))
  }

  /** Makes one call on the recorder. */
  function Step(rec: RoutineRecorder, c: RecorderCall): RoutineRecorder
    requires Allowed(rec, c)
  {
    match c
    case OpenRender(d) => AddRenderPass(rec, d)
    case OpenCompute(d) => AddComputePass(rec, d)
    case DrawOp(o) => AddRenderOp(rec, o)
    case DispatchOp(o) => AddComputeOp(rec, o)
  }

  /** The calls never hit a fatal case when made, in order, on `rec`. */
  predicate Legal(rec: RoutineRecorder, calls: seq<RecorderCall>)
    decreases |calls|
  {
    |calls| == 0 || (Allowed(rec, calls[0]) && Legal(Step(rec, calls[0]), calls[1..]))
  }

  /** Makes the calls, in order, on `rec`. */
  function Run(rec: RoutineRecorder, calls: seq<RecorderCall>): RoutineRecorder
    requires Legal(rec, calls)
    decreases |calls|
  {
    if |calls| == 0 then rec else Run(Step(rec, calls[0]), calls[1..])
  }

  /** The render operations among the calls, in call order. */
  function DrawCalls(calls: seq<RecorderCall>): seq<RenderOpDescriptor> {
    if |calls| == 0 then []
    else (if calls[0].DrawOp? then [calls[0].rop] else []) + DrawCalls(calls[1..])
  }

  /** The number of passes the calls open. */
  function Opened(calls: seq<RecorderCall>): nat {
    if |calls| == 0 then 0
    else (if calls[0].OpenRender? || calls[0].OpenCompute? then 1 else 0) + Opened(calls[1..])
  }

  /**
   * Whatever legal sequence of calls a routine makes, the recorder ends up
   * with one more pass per opening call, and its render operations are
   * exactly the earlier ones followed by the draw calls, in call order.
   */
  lemma {:induction false} RunRecordsInOrder(rec: RoutineRecorder, calls: seq<RecorderCall>)
    requires Legal(rec, calls)
    ensures |Run(rec, calls).passes| == |rec.passes| + Opened(calls)
    ensures RenderOps(Run(rec, calls).passes) == RenderOps(rec.passes) + DrawCalls(calls)
    decreases |calls|
  {
    if |calls| > 0 {
      var c := calls[0];
      var next := Step(rec, c);
      var drawn := if c.DrawOp? then [c.rop] else [];
      StepRecords(rec, c);
      RunRecordsInOrder(next, calls[1..]);
      assert Run(rec, calls) == Run(next, calls[1..]);
      assert Opened(calls) == (if c.OpenRender? || c.OpenCompute? then 1 else 0) + Opened(calls[1..]);
      var before, after := RenderOps(rec.passes), DrawCalls(calls[1..]);
      assert DrawCalls(calls) == drawn + after;
      ConcatAssoc(before, drawn, after);
    }
  }

  /** One call opens at most one pass and adds at most its own render operation. */
  lemma StepRecords(rec: RoutineRecorder, c: RecorderCall)
    requires Allowed(rec, c)
    ensures |Step(rec, c).passes| == |rec.passes| + (if c.OpenRender? || c.OpenCompute? then 1 else 0)
    ensures RenderOps(Step(rec, c).passes) == RenderOps(rec.passes) + (if c.DrawOp? then [c.rop] else [])
  {
  }

  /** A first call that adds an operation before any pass is opened is always fatal. */
  lemma OpBeforeAnyPassIsFatal(target: RenderRoutineTarget, calls: seq<RecorderCall>)
    requires |calls| > 0 && (calls[0].DrawOp? || calls[0].DispatchOp?)
    ensures !Legal(RoutineRecorder(target, []), calls)
  {
  }
}
