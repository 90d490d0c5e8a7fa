/**
 * The order in which a frame's pass recordings are scheduled and their
 * command buffers submitted: for every directional light, in registry
 * order, every per-shadow pass of the render list in list order; then every
 * once-per-frame pass in list order, rendered from the camera. The primary
 * encoder's command buffer is submitted first, then the recordings' buffers
 * in the order they were scheduled.
 *
 * Recording a pass is opaque: it is a function from the task to the command
 * buffer it produces. Culling, uniforms and bind groups are not modelled.
 *
 * The registry `ScheduleFrame` walks is the directional light manager after
 * the frame's drain (the `lights` registry of `Frame.Scene`), seen only
 * through what scheduling uses of each light: the shadow layer it renders
 * into. Its handles and table order are those of that manager.
 */
module Schedule {
  import opened Registry

  /** `RenderPassRunRate`. */
  datatype RunRate = Once | PerShadow

  /** A pass of the render list: its run rate, and an identifier for the rest of its descriptor. */
  datatype ListPass = ListPass(runRate: RunRate, id: nat)

  /** A directional light as the scheduler sees it: the shadow layer it renders into. */
  datatype Light = Light(shadowTex: nat)

  /** Where a scheduled pass renders from and to: a light into its shadow layer, or the camera into the frame. */
  datatype Viewpoint = LightView(light: Light) | CameraView

  /** One spawned recording: a pass rendered from a viewpoint. */
  datatype Task = Task(pass: ListPass, viewpoint: Viewpoint)

  /** The passes with run rate `rate`, in list order. */
  function Filter(passes: seq<ListPass>, rate: RunRate): seq<ListPass> {
    if |passes| == 0 then []
    else Filter(passes[..|passes| - 1], rate) + (if passes[|passes| - 1].runRate == rate then [passes[|passes| - 1]] else [])
  }

  /**
   * The filtered passes are the passes of that rate, and only those: every
   * kept pass has the rate and comes from the list, and every pass of the
   * rate is kept. Order and multiplicity are `FilterAppend`'s.
   */
  lemma {:induction false} FilterMembers(passes: seq<ListPass>, rate: RunRate)
    ensures var f := Filter(passes, rate);
      && (forall q :: 0 <= q < |f| ==> f[q].runRate == rate && f[q] in passes)
      && (forall p :: p in passes && p.runRate == rate ==> p in f)
    decreases |passes|
  {
    if |passes| > 0 {
      var init := passes[..|passes| - 1];
      var last := passes[|passes| - 1];
      var f := Filter(passes, rate);
      var tail := if last.runRate == rate then [last] else [];
      FilterMembers(init, rate);
      assert f == Filter(init, rate) + tail;
      forall q | 0 <= q < |f| ensures f[q].runRate == rate && f[q] in passes {
        if q < |Filter(init, rate)| {
          assert f[q] == Filter(init, rate)[q];
          var i :| 0 <= i < |init| && init[i] == f[q];
          assert passes[i] == f[q];
        } else {
          assert f[q] == last;
        }
      }
      forall p | p in passes && p.runRate == rate ensures p in f {
        var i :| 0 <= i < |passes| && passes[i] == p;
        if i < |passes| - 1 {
          assert init[i] == p;
          assert p in Filter(init, rate);
        } else {
          assert f[|f| - 1] == p;
        }
      }
    }
  }

  /**
   * The filter keeps list order and duplicates: it distributes over
   * concatenation. With `FilterSingle` this fixes the filter on every list,
   * as the pushing loop over the list does.
   */
  lemma {:induction false} FilterAppend(a: seq<ListPass>, b: seq<ListPass>, rate: RunRate)
    ensures Filter(a + b, rate) == Filter(a, rate) + Filter(b, rate)
    decreases |b|
  {
    if |b| == 0 {
      assert a + b == a;
    } else {
      var init := b[..|b| - 1];
      var last := b[|b| - 1];
      assert (a + b)[..|a + b| - 1] == a + init;
      assert (a + b)[|a + b| - 1] == last;
      FilterAppend(a, init, rate);
      assert Filter(b, rate) == Filter(init, rate) + (if last.runRate == rate then [last] else []);
    }
  }

  /** A single pass is kept exactly when it has the rate. */
  lemma FilterSingle(p: ListPass, rate: RunRate)
    ensures Filter([p], rate) == (if p.runRate == rate then [p] else [])
  {
    assert [p][..0] == [];
  }

  lemma FilterAt(passes: seq<ListPass>, rate: RunRate, q: nat)
    requires q < |Filter(passes, rate)|
    ensures Filter(passes, rate)[q].runRate == rate && Filter(passes, rate)[q] in passes
  {
    FilterMembers(passes, rate);
  }

  /** Every pass has one of the two rates: the two filters split the list. */
  lemma {:induction false} FilterSplits(passes: seq<ListPass>)
    ensures |Filter(passes, Once)| + |Filter(passes, PerShadow)| == |passes|
    decreases |passes|
  {
    if |passes| > 0 {
      FilterSplits(passes[..|passes| - 1]);
    }
  }

  /** The given passes, each rendered from viewpoint v. */
  function TasksFor(v: Viewpoint, passes: seq<ListPass>): (ts: seq<Task>)
    ensures |ts| == |passes|
    ensures forall q :: 0 <= q < |ts| ==> ts[q] == Task(passes[q], v)
  {
    seq(|passes|, q requires 0 <= q < |passes| => Task(passes[q], v))
  }

  /** The per-shadow passes of every light, light by light. */
  function ShadowTasks(lights: seq<Light>, passes: seq<ListPass>): seq<Task> {
    if |lights| == 0 then []
    else ShadowTasks(lights[..|lights| - 1], passes) + TasksFor(LightView(lights[|lights| - 1]), Filter(passes, PerShadow))
  }

  /** The full schedule: all shadow tasks, then the once-per-frame passes from the camera. */
  function Expected(lights: seq<Light>, passes: seq<ListPass>): seq<Task> {
    ShadowTasks(lights, passes) + TasksFor(CameraView, Filter(passes, Once))
  }

  /**
   * The scheduling loops: for each light, every per-shadow pass (others are
   * skipped with `continue`); then every once-per-frame pass. Tasks are
   * pushed in order onto an ordered queue.
   */
  method ScheduleTasks(lights: seq<Light>, passes: seq<ListPass>) returns (tasks: seq<Task>)
    ensures tasks == Expected(lights, passes)
  {
    tasks := [];
    for l := 0 to |lights|
      invariant tasks == ShadowTasks(lights[..l], passes)
    {
      for p := 0 to |passes|
        invariant tasks == ShadowTasks(lights[..l], passes) + TasksFor(LightView(lights[l]), Filter(passes[..p], PerShadow))
      {
        assert passes[..p + 1][..p] == passes[..p];
        if passes[p].runRate != PerShadow {
          continue;
        }
        tasks := tasks + [Task(passes[p], LightView(lights[l]))];
      }
      assert passes[..|passes|] == passes;
      assert lights[..l + 1][..l] == lights[..l];
    }
    assert lights[..|lights|] == lights;
    for p := 0 to |passes|
      invariant tasks == ShadowTasks(lights, passes) + TasksFor(CameraView, Filter(passes[..p], Once))
    {
      assert passes[..p + 1][..p] == passes[..p];
      if passes[p].runRate != Once {
        continue;
      }
      tasks := tasks + [Task(passes[p], CameraView)];
    }
    assert passes[..|passes|] == passes;
  }

  /** The directional lights are walked in the registry's order. */
  method ScheduleFrame(lightManager: ResourceRegistry<Light>, passes: seq<ListPass>) returns (tasks: seq<Task>)
    ensures tasks == Expected(Values(lightManager), passes)
  {
    tasks := ScheduleTasks(Values(lightManager), passes);
  }

  /**
   * Shadow task l*P + q is light l's q-th per-shadow pass, where P is the
   * number of per-shadow passes.
   */
  lemma {:induction false} ShadowTaskAt(lights: seq<Light>, passes: seq<ListPass>, l: nat, q: nat)
    requires l < |lights| && q < |Filter(passes, PerShadow)|
    ensures |ShadowTasks(lights, passes)| == |lights| * |Filter(passes, PerShadow)|
    ensures l * |Filter(passes, PerShadow)| + q < |ShadowTasks(lights, passes)|
    ensures ShadowTasks(lights, passes)[l * |Filter(passes, PerShadow)| + q]
         == Task(Filter(passes, PerShadow)[q], LightView(lights[l]))
    decreases |lights|
  {
    var n := |lights|;
    var per := |Filter(passes, PerShadow)|;
    var init := lights[..n - 1];
    var prev := ShadowTasks(init, passes);
    var face := TasksFor(LightView(lights[n - 1]), Filter(passes, PerShadow));
    assert ShadowTasks(lights, passes) == prev + face;
    ShadowCount(lights, passes);
    ShadowCount(init, passes);
    if l < n - 1 {
      ShadowTaskAt(init, passes, l, q);
      RowBound(l, q, n - 1, per);
      assert (prev + face)[l * per + q] == prev[l * per + q];
    } else {
      assert (prev + face)[|prev| + q] == face[q];
    }
  }

  /** Row l of a table with `per` entries per row lies before the table's end. */
  lemma RowBound(l: nat, q: nat, n: nat, per: nat)
    requires l < n && q < per
    ensures l * per + q < n * per
  {
    var k := n - l;
    assert n * per == l * per + k * per;
    assert k * per == (k - 1) * per + per;
  }

  lemma {:induction false} ShadowCount(lights: seq<Light>, passes: seq<ListPass>)
    ensures |ShadowTasks(lights, passes)| == |lights| * |Filter(passes, PerShadow)|
    decreases |lights|
  {
    if |lights| > 0 {
      var per := |Filter(passes, PerShadow)|;
      ShadowCount(lights[..|lights| - 1], passes);
      assert (|lights| - 1) * per + per == |lights| * per;
    }
  }

  /** Every shadow task is rendered from a light. */
  lemma {:induction false} ShadowTasksFromLights(lights: seq<Light>, passes: seq<ListPass>)
    ensures forall i :: 0 <= i < |ShadowTasks(lights, passes)| ==> ShadowTasks(lights, passes)[i].viewpoint.LightView?
    decreases |lights|
  {
    if |lights| > 0 {
      ShadowTasksFromLights(lights[..|lights| - 1], passes);
    }
  }

  /**
   * The schedule has |lights| * #PerShadow + #Once tasks, and every task
   * rendered from a light comes before every task rendered from the camera,
   * which are the once-per-frame passes in list order.
   */
  lemma ScheduleShape(lights: seq<Light>, passes: seq<ListPass>)
    ensures var ts := Expected(lights, passes); var shadows := |lights| * |Filter(passes, PerShadow)|;
      && |ts| == shadows + |Filter(passes, Once)|
      && (forall i :: 0 <= i < shadows ==> ts[i].viewpoint.LightView? && ts[i].pass.runRate == PerShadow)
      && (forall i :: shadows <= i < |ts| ==> ts[i] == Task(Filter(passes, Once)[i - shadows], CameraView))
  {
    var st := ShadowTasks(lights, passes);
    var once := TasksFor(CameraView, Filter(passes, Once));
    var ts := st + once;
    ShadowCount(lights, passes);
    ShadowTasksFromLights(lights, passes);
    forall i | 0 <= i < |st| ensures ts[i].viewpoint.LightView? && ts[i].pass.runRate == PerShadow {
      assert ts[i] == st[i];
      ShadowPassRate(lights, passes, i);
    }
    forall i | |st| <= i < |ts| ensures ts[i] == Task(Filter(passes, Once)[i - |st|], CameraView) {
      assert ts[i] == once[i - |st|];
    }
  }

  lemma {:induction false} ShadowPassRate(lights: seq<Light>, passes: seq<ListPass>, i: nat)
    requires i < |ShadowTasks(lights, passes)|
    ensures ShadowTasks(lights, passes)[i].pass.runRate == PerShadow
    decreases |lights|
  {
    var n := |lights|;
    var prev := ShadowTasks(lights[..n - 1], passes);
    FilterMembers(passes, PerShadow);
    var f := Filter(passes, PerShadow);
    assert ShadowTasks(lights, passes) == prev + TasksFor(LightView(lights[n - 1]), f);
    if i < |prev| {
      ShadowPassRate(lights[..n - 1], passes, i);
    } else {
      var q := i - |prev|;
      assert ShadowTasks(lights, passes)[i] == Task(f[q], LightView(lights[n - 1]));
      FilterAt(passes, PerShadow, q);
    }
  }

  /** With no lights only the once-per-frame passes are scheduled, e.g. one Once and one PerShadow pass give one task. */
  lemma NoLightsOnlyOnce(passes: seq<ListPass>)
    ensures Expected([], passes) == TasksFor(CameraView, Filter(passes, Once))
    ensures passes == [ListPass(Once, 0), ListPass(PerShadow, 1)] ==> Expected([], passes) == [Task(ListPass(Once, 0), CameraView)]
  {
    if passes == [ListPass(Once, 0), ListPass(PerShadow, 1)] {
      assert passes[..1] == [ListPass(Once, 0)];
      assert passes[..1][..0] == [];
      assert Filter(passes[..1], Once) == [ListPass(Once, 0)];
      assert Filter(passes, Once) == [ListPass(Once, 0)];
    }
  }

  /**
   * The submitted command buffers: the primary encoder's first, then each
   * task's buffer as the ordered queue yields them, which is push order.
   */
  method CollectSubmission(primary: nat, tasks: seq<Task>, record: Task -> nat) returns (buffers: seq<nat>)
    ensures |buffers| == |tasks| + 1
    ensures buffers[0] == primary
    ensures forall k :: 0 <= k < |tasks| ==> buffers[k + 1] == record(tasks[k])
  {
    buffers := [primary];
    var next := 0;
    while next < |tasks|
      invariant next <= |tasks|
      invariant |buffers| == next + 1 && buffers[0] == primary
      invariant forall k :: 0 <= k < next ==> buffers[k + 1] == record(tasks[k])
    {
      buffers := buffers + [record(tasks[next])];
      next := next + 1;
    }
  }
}
