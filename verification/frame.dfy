/**
 * The instruction drain at the start of a frame: every buffered instruction
 * is applied, strictly in queue order, to the resource managers and the
 * global slots (camera, background), while new render options are only
 * remembered and take effect once the drain is over.
 *
 * The managers' own code is not part of this model: each manager is its
 * `ResourceRegistry`, filled by `insert`, emptied by `remove` and edited in
 * place through `get_mut`. Meshes, materials, objects, lights, shaders,
 * changes and options are data the drain hands on without looking inside,
 * named by an identifier.
 */
module Frame {
  import opened Wrappers
  import opened Registry
  import opened MipUpload

  /** Data the drain passes to a manager unchanged (a mesh, a material change, a shader binary, ...). */
  type Payload = nat

  /** `RendererOptions`; the camera only derives its aspect ratio from them. */
  datatype Options = Options(id: nat)

  /** The data of a `SetCameraData` instruction. */
  datatype CameraData = CameraData(id: nat)

  /** The global camera: its data and the options its aspect ratio was taken from. */
  datatype Camera = Camera(data: CameraData, aspectFrom: Options)

  /** One buffered scene mutation. */
  datatype Instruction =
    | AddMesh(handle: Handle, mesh: Payload)
    | RemoveMesh(handle: Handle)
    | AddTexture2D(handle: Handle, texture: Texture)
    | RemoveTexture2D(handle: Handle)
    | AddTextureCube(handle: Handle, texture: Texture)
    | RemoveTextureCube(handle: Handle)
    | AddMaterial(handle: Handle, material: Payload)
    | ChangeMaterial(handle: Handle, change: Payload)
    | RemoveMaterial(handle: Handle)
    | AddObject(handle: Handle, object: Payload)
    | SetObjectTransform(handle: Handle, transform: Payload)
    | RemoveObject(handle: Handle)
    | AddDirectionalLight(handle: Handle, light: Payload)
    | ChangeDirectionalLight(handle: Handle, change: Payload)
    | RemoveDirectionalLight(handle: Handle)
    | AddBinaryShader(handle: Handle, shader: Payload)
    | RemoveShader(handle: Handle)
    | RemovePipeline(handle: Handle)
    | SetOptions(options: Options)
    | SetCameraData(data: CameraData)
    | SetBackgroundTexture(handle: Handle)
    | ClearBackgroundTexture

  /** The managers an instruction can be routed to. */
  datatype Kind = Mesh | Texture2D | TextureCube | Material | Object | DirectionalLight | Shader | Pipeline

  /**
   * What a manager holds for a handle: data with the changes applied to it
   * since, in order, or an uploaded texture with its mip count and the
   * writes that filled it.
   */
  datatype Entry =
    | Stored(data: Payload, changes: seq<Payload>)
    | Uploaded(texture: Texture, mipLevels: nat, writes: seq<MipWrite>)

  datatype Scene = Scene(
    meshes: ResourceRegistry<Entry>,
    textures2D: ResourceRegistry<Entry>,
    texturesCube: ResourceRegistry<Entry>,
    materials: ResourceRegistry<Entry>,
    objects: ResourceRegistry<Entry>,
    lights: ResourceRegistry<Entry>,
    shaders: ResourceRegistry<Entry>,
    pipelines: ResourceRegistry<Entry>,
    options: Options,
    camera: Camera,
    background: Option<Handle>)

  /** The drain in progress: the scene, and the options `SetOptions` asked for so far (`new_options`). */
  datatype Draining = Draining(scene: Scene, pending: Option<Options>)

  function Manager(s: Scene, k: Kind): ResourceRegistry<Entry> {
    match k
    case Mesh => s.meshes
    case Texture2D => s.textures2D
    case TextureCube => s.texturesCube
    case Material => s.materials
    case Object => s.objects
    case DirectionalLight => s.lights
    case Shader => s.shaders
    case Pipeline => s.pipelines
  }

  /** The scene with manager k replaced and everything else kept. */
  function WithManager(s: Scene, k: Kind, r: ResourceRegistry<Entry>): (s': Scene)
    ensures Manager(s', k) == r
    ensures forall k' :: k' != k ==> Manager(s', k') == Manager(s, k')
    ensures s'.options == s.options && s'.camera == s.camera && s'.background == s.background
  {
    match k
    case Mesh => s.(meshes := r)
    case Texture2D => s.(textures2D := r)
    case TextureCube => s.(texturesCube := r)
    case Material => s.(materials := r)
    case Object => s.(objects := r)
    case DirectionalLight => s.(lights := r)
    case Shader => s.(shaders := r)
    case Pipeline => s.(pipelines := r)
  }

  /** The manager an instruction goes to; `None` for the global slots. */
  function KindOf(i: Instruction): Option<Kind> {
    match i
    case AddMesh(_, _) => Some(Mesh)
    case RemoveMesh(_) => Some(Mesh)
    case AddTexture2D(_, _) => Some(Texture2D)
    case RemoveTexture2D(_) => Some(Texture2D)
    case AddTextureCube(_, _) => Some(TextureCube)
    case RemoveTextureCube(_) => Some(TextureCube)
    case AddMaterial(_, _) => Some(Material)
    case ChangeMaterial(_, _) => Some(Material)
    case RemoveMaterial(_) => Some(Material)
    case AddObject(_, _) => Some(Object)
    case SetObjectTransform(_, _) => Some(Object)
    case RemoveObject(_) => Some(Object)
    case AddDirectionalLight(_, _) => Some(DirectionalLight)
    case ChangeDirectionalLight(_, _) => Some(DirectionalLight)
    case RemoveDirectionalLight(_) => Some(DirectionalLight)
    case AddBinaryShader(_, _) => Some(Shader)
    case RemoveShader(_) => Some(Shader)
    case RemovePipeline(_) => Some(Pipeline)
    case SetOptions(_) => None
    case SetCameraData(_) => None
    case SetBackgroundTexture(_) => None
    case ClearBackgroundTexture => None
  }

  predicate IsAdd(i: Instruction) {
    i.AddMesh? || i.AddTexture2D? || i.AddTextureCube? || i.AddMaterial? || i.AddObject?
    || i.AddDirectionalLight? || i.AddBinaryShader?
  }

  predicate IsRemove(i: Instruction) {
    i.RemoveMesh? || i.RemoveTexture2D? || i.RemoveTextureCube? || i.RemoveMaterial? || i.RemoveObject?
    || i.RemoveDirectionalLight? || i.RemoveShader? || i.RemovePipeline?
  }

  predicate IsChange(i: Instruction) {
    i.ChangeMaterial? || i.SetObjectTransform? || i.ChangeDirectionalLight?
  }

  /**
   * A 2D texture upload does not panic: the mip clamp is defined and every
   * mip's range lies inside the data.
   */
  predicate Upload2DFits(t: Texture) {
    Uploadable(t) && PrefixBytes(t, MipLevels(t)) <= |t.data|
  }

  /**
   * A cube upload does not panic: the mip clamp is defined, `1 << mip` stays
   * inside a `u32` for every requested mip, and the last face's last written
   * range ends inside the data, which `UploadCubeInBounds` shows is exactly
   * every written range lying inside the data.
   */
  predicate UploadCubeFits(t: Texture) {
    Uploadable(t) && t.mipLevels <= U32Bits && Mul(5, FaceBytes(t)) + PrefixBytes(t, MipLevels(t)) <= |t.data|
  }

  /** The entry an add instruction stores. */
  function AddedEntry(i: Instruction): Entry
    requires IsAdd(i)
    requires i.AddTexture2D? ==> Uploadable(i.texture)
    requires i.AddTextureCube? ==> Uploadable(i.texture)
  {
    match i
    case AddTexture2D(_, t) => Uploaded(t, MipLevels(t), FaceWrites(t, 0, 0, MipLevels(t)))
    case AddTextureCube(_, t) => Uploaded(t, MipLevels(t), CubeWrites(t, MipLevels(t), 6))
    case AddMesh(_, m) => Stored(m, [])
    case AddMaterial(_, m) => Stored(m, [])
    case AddObject(_, o) => Stored(o, [])
    case AddDirectionalLight(_, l) => Stored(l, [])
    case AddBinaryShader(_, b) => Stored(b, [])
  }

  /** The change a change instruction carries. */
  function ChangeOf(i: Instruction): Payload
    requires IsChange(i)
  {
    match i
    case ChangeMaterial(_, c) => c
    case SetObjectTransform(_, c) => c
    case ChangeDirectionalLight(_, c) => c
  }

  /** Records one more change on a stored entry. */
  function Record(c: Payload): Entry -> Entry {
    (e: Entry) => if e.Stored? then e.(changes := e.changes + [c]) else e
  }

  /**
   * The instruction does not panic in state `d`: removes and changes need
   * the handle present (`remove` and `get_mut` unwrap), texture uploads need
   * their data to fit.
   */
  predicate Applicable(d: Draining, i: Instruction) {
    && (i.AddTexture2D? ==> Upload2DFits(i.texture))
    && (i.AddTextureCube? ==> UploadCubeFits(i.texture))
    && (IsRemove(i) || IsChange(i) ==> Contains(Manager(d.scene, KindOf(i).value), i.handle))
  }

  /** One instruction applied to its manager or global slot (one arm of the drain's `match`). */
  function Apply(d: Draining, i: Instruction): (d': Draining)
    requires Applicable(d, i)
    ensures d'.scene.options == d.scene.options
    ensures KindOf(i).None? ==> forall k :: Manager(d'.scene, k) == Manager(d.scene, k)
    ensures KindOf(i).Some? ==> forall k :: k != KindOf(i).value ==> Manager(d'.scene, k) == Manager(d.scene, k)
    ensures KindOf(i).Some? ==> Manager(d'.scene, KindOf(i).value).next == Manager(d.scene, KindOf(i).value).next
    ensures d'.pending == if i.SetOptions? then Some(i.options) else d.pending
    ensures d'.scene.camera == if i.SetCameraData? then Camera(i.data, d.scene.options) else d.scene.camera
    ensures d'.scene.background
         == if i.SetBackgroundTexture? then Some(i.handle)
            else if i.ClearBackgroundTexture? then None
            else d.scene.background
  {
    if KindOf(i).Some? then
      var k := KindOf(i).value;
      var r := Manager(d.scene, k);
      var r' :=
        if IsAdd(i) then Insert(r, i.handle, AddedEntry(i)).registry
        else if IsRemove(i) then Remove(r, i.handle).registry
        else GetMut(r, i.handle, Record(ChangeOf(i)));
      d.(scene := WithManager(d.scene, k, r'))
    else
      match i
      case SetOptions(o) => d.(pending := Some(o))
      // The aspect ratio comes from the options read when the frame started.
      case SetCameraData(c) => d.(scene := d.scene.(camera := Camera(c, d.scene.options)))
      case SetBackgroundTexture(h) => d.(scene := d.scene.(background := Some(h)))
      case ClearBackgroundTexture => d.(scene := d.scene.(background := None))
  }

  /**
   * What the instruction does to its own manager: an add stores its entry
   * under the handle, a remove deletes the handle, a change records itself
   * on the handle's entry; every other handle reads as before.
   */
  lemma ApplyToManager(d: Draining, i: Instruction, h: Handle)
    requires Applicable(d, i) && KindOf(i).Some?
    ensures var before, after := Manager(d.scene, KindOf(i).value), Manager(Apply(d, i).scene, KindOf(i).value);
      TryGet(after, h)
      == if h != i.handle then TryGet(before, h)
         else if IsAdd(i) then Some(AddedEntry(i))
         else if IsRemove(i) then None
         else Some(Record(ChangeOf(i))(Get(before, h)))
  {
    var r := Manager(d.scene, KindOf(i).value);
    if !IsAdd(i) && !IsRemove(i) {
      GetMutLookup(r, i.handle, Record(ChangeOf(i)), h);
    }
  }

  /** The instructions can be applied one after another, starting from `d`, without a panic. */
  predicate Drainable(d: Draining, batch: seq<Instruction>)
    decreases |batch|
  {
    |batch| == 0 || (Applicable(d, batch[0]) && Drainable(Apply(d, batch[0]), batch[1..]))
  }

  /** `instructions.drain(..)`: every instruction, in queue order. */
  function Drain(d: Draining, batch: seq<Instruction>): Draining
    requires Drainable(d, batch)
    decreases |batch|
  {
    if |batch| == 0 then d else Drain(Apply(d, batch[0]), batch[1..])
  }

  /**
   * Draining a batch in two parts is draining it whole: the queue is
   * consumed strictly in order, and a batch panics exactly when one of its
   * parts does.
   */
  lemma {:induction false} DrainAppend(d: Draining, a: seq<Instruction>, b: seq<Instruction>)
    ensures Drainable(d, a + b) <==> Drainable(d, a) && Drainable(Drain(d, a), b)
    ensures Drainable(d, a + b) ==> Drain(d, a + b) == Drain(Drain(d, a), b)
    decreases |a|
  {
    if |a| > 0 {
      assert (a + b)[0] == a[0] && (a + b)[1..] == a[1..] + b;
      if Applicable(d, a[0]) {
        DrainAppend(Apply(d, a[0]), a[1..], b);
      }
    } else {
      assert a + b == b;
    }
  }

  /** The options the camera reads never change during the drain. */
  lemma {:induction false} DrainKeepsOptions(d: Draining, batch: seq<Instruction>)
    requires Drainable(d, batch)
    ensures Drain(d, batch).scene.options == d.scene.options
    decreases |batch|
  {
    if |batch| > 0 {
      DrainKeepsOptions(Apply(d, batch[0]), batch[1..]);
    }
  }

  /** A batch without `SetOptions` leaves the pending options as they were. */
  lemma {:induction false} PendingUntouched(d: Draining, batch: seq<Instruction>)
    requires Drainable(d, batch)
    requires forall j :: 0 <= j < |batch| ==> !batch[j].SetOptions?
    ensures Drain(d, batch).pending == d.pending
    decreases |batch|
  {
    if |batch| > 0 {
      PendingUntouched(Apply(d, batch[0]), batch[1..]);
    }
  }

  /** The last `SetOptions` of the batch is the one pending when the drain ends. */
  lemma {:induction false} LastOptionsWin(d: Draining, batch: seq<Instruction>, k: nat)
    requires Drainable(d, batch)
    requires k < |batch| && batch[k].SetOptions?
    requires forall j :: k < j < |batch| ==> !batch[j].SetOptions?
    ensures Drain(d, batch).pending == Some(batch[k].options)
    decreases |batch|
  {
    if k == 0 {
      PendingUntouched(Apply(d, batch[0]), batch[1..]);
    } else {
      LastOptionsWin(Apply(d, batch[0]), batch[1..], k - 1);
    }
  }

  predicate SetsBackground(i: Instruction) {
    i.SetBackgroundTexture? || i.ClearBackgroundTexture?
  }

  lemma {:induction false} BackgroundUntouched(d: Draining, batch: seq<Instruction>)
    requires Drainable(d, batch)
    requires forall j :: 0 <= j < |batch| ==> !SetsBackground(batch[j])
    ensures Drain(d, batch).scene.background == d.scene.background
    decreases |batch|
  {
    if |batch| > 0 {
      BackgroundUntouched(Apply(d, batch[0]), batch[1..]);
    }
  }

  /** The background slot ends as the last `SetBackgroundTexture` / `ClearBackgroundTexture` left it. */
  lemma {:induction false} LastBackgroundWins(d: Draining, batch: seq<Instruction>, k: nat)
    requires Drainable(d, batch)
    requires k < |batch| && SetsBackground(batch[k])
    requires forall j :: k < j < |batch| ==> !SetsBackground(batch[j])
    ensures Drain(d, batch).scene.background == if batch[k].SetBackgroundTexture? then Some(batch[k].handle) else None
    decreases |batch|
  {
    if k == 0 {
      BackgroundUntouched(Apply(d, batch[0]), batch[1..]);
    } else {
      LastBackgroundWins(Apply(d, batch[0]), batch[1..], k - 1);
    }
  }

  lemma {:induction false} CameraUntouched(d: Draining, batch: seq<Instruction>)
    requires Drainable(d, batch)
    requires forall j :: 0 <= j < |batch| ==> !batch[j].SetCameraData?
    ensures Drain(d, batch).scene.camera == d.scene.camera
    decreases |batch|
  {
    if |batch| > 0 {
      CameraUntouched(Apply(d, batch[0]), batch[1..]);
    }
  }

  /**
   * The camera ends with the last `SetCameraData`'s data, and its aspect
   * ratio comes from the options of the frame start, even when the same
   * batch sets new options before it.
   */
  lemma {:induction false} LastCameraWins(d: Draining, batch: seq<Instruction>, k: nat)
    requires Drainable(d, batch)
    requires k < |batch| && batch[k].SetCameraData?
    requires forall j :: k < j < |batch| ==> !batch[j].SetCameraData?
    ensures Drain(d, batch).scene.camera == Camera(batch[k].data, d.scene.options)
    decreases |batch|
  {
    if k == 0 {
      CameraUntouched(Apply(d, batch[0]), batch[1..]);
    } else {
      LastCameraWins(Apply(d, batch[0]), batch[1..], k - 1);
    }
  }

  /**
   * One frame's drain: it starts with no pending options, and afterwards the
   * pending options, if any, replace the renderer's options. The update of
   * the global resources is taken to install those options and to leave the
   * camera and background as the drain left them.
   */
  function ProcessInstructions(s: Scene, batch: seq<Instruction>): (s': Scene)
    requires Drainable(Draining(s, None), batch)
    ensures var d := Drain(Draining(s, None), batch);
      && (forall k :: Manager(s', k) == Manager(d.scene, k))
      && s'.camera == d.scene.camera && s'.background == d.scene.background
  {
    var d := Drain(Draining(s, None), batch);
    d.scene.(options := d.pending.GetOr(d.scene.options))
  }

  /** After the frame's drain the renderer uses the options of the batch's last `SetOptions`, or keeps its own. */
  lemma FrameOptions(s: Scene, batch: seq<Instruction>)
    requires Drainable(Draining(s, None), batch)
    ensures (forall j :: 0 <= j < |batch| ==> !batch[j].SetOptions?) ==> ProcessInstructions(s, batch).options == s.options
    ensures forall k ::
      (0 <= k < |batch| && batch[k].SetOptions? && (forall j :: k < j < |batch| ==> !batch[j].SetOptions?))
      ==> ProcessInstructions(s, batch).options == batch[k].options
  {
    var d := Draining(s, None);
    DrainKeepsOptions(d, batch);
    if forall j :: 0 <= j < |batch| ==> !batch[j].SetOptions? {
      PendingUntouched(d, batch);
    }
    forall k | 0 <= k < |batch| && batch[k].SetOptions? && (forall j :: k < j < |batch| ==> !batch[j].SetOptions?)
      ensures ProcessInstructions(s, batch).options == batch[k].options
    {
      LastOptionsWin(d, batch, k);
    }
  }

  /**
   * Add, Remove, Add of the same mesh in one batch never panics and leaves the
   * mesh present with the second add's data.
   */
  lemma AddRemoveAdd(d: Draining, h: Handle, first: Payload, second: Payload)
    ensures var batch := [AddMesh(h, first), RemoveMesh(h), AddMesh(h, second)];
      && Drainable(d, batch)
      && TryGet(Drain(d, batch).scene.meshes, h) == Some(Stored(second, []))
  {
    AddMeshStores(d, h, first);
    var d1 := Apply(d, AddMesh(h, first));
    var d2 := Apply(d1, RemoveMesh(h));
    AddMeshStores(d2, h, second);
    DrainSingle(d2, AddMesh(h, second));
    DrainCons(d1, RemoveMesh(h), [AddMesh(h, second)]);
    DrainCons(d, AddMesh(h, first), [RemoveMesh(h), AddMesh(h, second)]);
  }

  /** Adding a mesh never panics and stores it, with no changes yet. */
  lemma AddMeshStores(d: Draining, h: Handle, m: Payload)
    ensures Applicable(d, AddMesh(h, m))
    ensures TryGet(Apply(d, AddMesh(h, m)).scene.meshes, h) == Some(Stored(m, []))
  {
    ApplyToManager(d, AddMesh(h, m), h);
  }

  /** A batch that starts with i drains as i followed by the rest of the batch. */
  lemma DrainCons(d: Draining, i: Instruction, rest: seq<Instruction>)
    ensures Drainable(d, [i] + rest) <==> Applicable(d, i) && Drainable(Apply(d, i), rest)
    ensures Drainable(d, [i] + rest) ==> Drain(d, [i] + rest) == Drain(Apply(d, i), rest)
  {
    assert ([i] + rest)[0] == i && ([i] + rest)[1..] == rest;
  }

  /** A batch of one instruction drains as that instruction alone. */
  lemma DrainSingle(d: Draining, i: Instruction)
    ensures Drainable(d, [i]) <==> Applicable(d, i)
    ensures Applicable(d, i) ==> Drain(d, [i]) == Apply(d, i)
  {
    assert [i][1..] == [];
  }

  /** A remove queued before the add of an absent handle panics: the queue is never reordered. */
  lemma RemoveBeforeAddPanics(d: Draining, h: Handle, m: Payload)
    requires !Contains(d.scene.meshes, h)
    ensures !Drainable(d, [RemoveMesh(h), AddMesh(h, m)])
  {
  }
}
