# rend3 frame construction, modelled in Dafny

This project models the sequential core of rend3's frame construction as pure
Dafny functions over immutable data, and proves properties of that model.
It covers five parts:

- **Resource registry.** `ResourceRegistry` is an ordered table from handles
  to values, plus a handle counter. New entries go at the end; a removal
  moves the last entry into the vacated slot. Every manager and the
  transient cache are built on it (module `Registry`).
- **Transient cache and descriptors.** The cache holds a render list's
  images and buffers. Its structural reuse rule keeps a cached resource
  only when the new descriptor equals the cached one, field by field
  (modules `Descriptors` and `Cache`).
- **Routine recorder.** A render routine opens render or compute passes and
  adds operations to the last pass, which must have the matching kind
  (module `Recorder`).
- **Mip upload layout.** This covers the mip-count clamp, the block-rounded
  byte size of each mip, and the list of texture writes with their source
  ranges, for 2D and cube textures (module `MipUpload`).
- **Frame drain and scheduling.**
  - The frame drains the buffered instructions in queue order into the
    managers and the global slots (module `Frame`).
  - It then schedules the pass recordings: every light's per-shadow passes
    come first, then the once-per-frame passes.
  - It submits the primary encoder's command buffer first, followed by the
    recordings' buffers (module `Schedule`).

GPU objects are opaque. A created texture or buffer is a serial number taken
from a `Device` creation counter, so the model can say when nothing new is
created. A panic in rend3 (`expect`, `unwrap`, `assert!`) becomes a
precondition. So do three u32 overflows of the upload code that panic only in
a build with overflow checks: `32 - leading_zeros() - 1` on a zero width,
height or block width, the subtraction of the mip clamp, and `1 << mip` past
32 bits. A release build wraps them instead, and that wrap is not
modelled (see "Left out"). The u32 multiplications of the upload loops
(`rend3/src/renderer/render.rs` lines 116-117 and 201-202) are not
preconditions: sizes are unbounded here and their overflow is not modelled. The atomic
handle counter becomes a plain unbounded counter, because all of its uses here
are sequential.

`remove` relies on `IndexMap::swap_remove_full`, as the doc comment of
`rend3/src/registry.rs` lines 45-46 says: it returns the index the removed
handle occupied, and the former last entry moves into that index.
`Registry.Remove` states exactly this.

## Model

| member | source | states |
|---|---|---|
| Registry.New | rend3/src/registry.rs:14-19 | a new registry holds no handle, its count is 0 and its first allocation yields handle 0 |
| Registry.Allocate | rend3/src/registry.rs:21-24 | allocation returns the counter's current value and increments it, leaving the table unchanged |
| Registry.AllocationsIncrease | rend3/src/registry.rs:21-24 | n successive allocations return next, next+1, ..., next+n-1: strictly increasing, so pairwise distinct |
| Registry.AllocateOrReuse | rend3/src/registry.rs:26-34 | a present handle is returned with the registry unchanged; an absent one behaves exactly like `allocate` |
| Registry.Insert | rend3/src/registry.rs:36-41 | upsert: an existing key keeps its index and count with only its value replaced; a new key is appended at index `count`; the key's index is returned; every other handle reads as before; the counter is untouched |
| Registry.Remove | rend3/src/registry.rs:43-50 | requires the handle (panics otherwise); returns its former index and value; count drops by one; the former last entry moves into the vacated slot and every other entry keeps its index; afterwards the handle is absent and `try_get` yields none; other handles and the counter are unchanged |
| Registry.Values | rend3/src/registry.rs:57-60 | the values are listed in table order, one per entry |
| Registry.Get | rend3/src/registry.rs:67-70 | requires the handle; the value returned is the one paired with it in the table |
| Registry.TryGet | rend3/src/registry.rs:72-75 | some value exactly when the handle is present |
| Registry.TryGetMeansMember | rend3/src/registry.rs:72-75 | `try_get(h)` is `Some(v)` if and only if the pair (h, v) is in the table |
| Registry.GetMut | rend3/src/registry.rs:77-80 | requires the handle; an edit through the reference changes only that handle's slot, in place, and nothing else |
| Registry.GetMutLookup | rend3/src/registry.rs:77-80 | after the edit, the handle reads as the edited value and every other handle reads as before |
| Registry.GetIndexOf | rend3/src/registry.rs:82-85 | requires the handle; the returned index is below the count and holds that handle |
| Registry.Count | rend3/src/registry.rs:87-90 | the count is the number of distinct handles in the table |
| Descriptors.ImageDescEqIsIdentity | rend3/src/renderer/list/descriptors.rs:108-116 | two image descriptors compare equal exactly when label, resolution, mips, format, samples and usage are all equal |
| Descriptors.BufferDescEqIsIdentity | rend3/src/renderer/list/descriptors.rs:122-127 | two buffer descriptors compare equal exactly when label, size and usage are all equal |
| Descriptors.IntoBaseDescriptorData | rend3/src/renderer/list/descriptors.rs:136-147 | the base descriptor's size is the data length, its label and usage are the init descriptor's, and the data is returned unchanged |
| Descriptors.IntoBaseRoundTrip | rend3/src/renderer/list/descriptors.rs:137-147 | the conversion loses nothing: rebuilding an init descriptor from its result gives it back, and every base descriptor whose size matches its data arises this way |
| Cache.NewCache | rend3/src/renderer/list/cache.rs:16-22 | both registries of a new cache are empty and the first allocation from either yields handle 0 |
| Cache.ImageReusable | rend3/src/renderer/list/mod.rs:69-74 | the reuse test holds exactly when an image is cached under the handle with the requested descriptor |
| Cache.BufferReusable | rend3/src/renderer/list/mod.rs:114-119 | the reuse test holds exactly when a buffer is cached under the handle with the requested descriptor |
| Cache.CreateImage | rend3/src/renderer/list/mod.rs:64-107 | a reuse handle whose cached descriptor equals the request is returned with nothing changed and no texture created; otherwise a new texture is stored under the reuse handle (counter unchanged) or under a freshly allocated handle; the returned handle then holds the requested descriptor; no other image and no buffer changes |
| Cache.CreateBuffer | rend3/src/renderer/list/mod.rs:109-142 | the same three reuse rules on the buffer registry; images are untouched |
| Cache.CreateBufferInit | rend3/src/renderer/list/mod.rs:144-164 | always allocates a fresh handle and creates a buffer; the stored descriptor's size is the data length, with label and usage kept; no other entry and no image changes |
| Cache.CreateImageIdempotent | rend3/src/renderer/list/mod.rs:69-74 | asking again for the same image descriptor under the handle just returned changes nothing and creates nothing |
| Cache.CreateBufferIdempotent | rend3/src/renderer/list/mod.rs:114-119 | asking again for the same buffer descriptor under the handle just returned changes nothing and creates nothing |
| Cache.CreateImageKeepsIssued | rend3/src/renderer/list/mod.rs:69-79 | while the cache only holds handles its counter issued, and reuse handles were issued by it, a fresh request never lands on a cached image, and the cache keeps holding issued handles only |
| Cache.UnissuedReuseHandleIsOverwritten | rend3/src/renderer/list/mod.rs:76-78 | a reuse handle the cache never issued is used verbatim; a later fresh allocation hands out the same handle and replaces that image |
| Cache.RegistriesIndependent | rend3/src/renderer/list/cache.rs:11-14 | image and buffer requests do not affect which handle the other kind of request yields |
| Recorder.AsRender | rend3/src/renderer/list/mod.rs:234-239 | yields the render pass exactly when the pass is a render pass |
| Recorder.AsCompute | rend3/src/renderer/list/mod.rs:227-232 | yields the compute pass exactly when the pass is a compute pass |
| Recorder.AddRenderPass | rend3/src/renderer/list/mod.rs:185-187 | appends one empty render pass after the existing passes, which are unchanged; the recorded operations are unchanged |
| Recorder.AddComputePass | rend3/src/renderer/list/mod.rs:199-201 | appends one empty compute pass after the existing passes, which are unchanged; the recorded operations are unchanged |
| Recorder.AddRenderOp | rend3/src/renderer/list/mod.rs:189-197 | requires a last pass that is a render pass (both `expect`s); the operation is appended to that pass only; pass kinds and all earlier passes are unchanged; the stream of render operations grows by exactly this one |
| Recorder.AddComputeOp | rend3/src/renderer/list/mod.rs:203-211 | requires a last pass that is a compute pass; the operation is appended to that pass only; the stream of compute operations grows by exactly this one |
| Recorder.AddRenderRoutine | rend3/src/renderer/list/mod.rs:168-181 | the routine is appended after all earlier routines, which are unchanged |
| Recorder.StepRecords | rend3/src/renderer/list/mod.rs:184-212 | one call opens at most one pass and adds at most its own render operation |
| Recorder.RunRecordsInOrder | rend3/src/renderer/list/mod.rs:184-212 | for any legal call sequence, the pass count grows by the number of opening calls and the render operations are the earlier ones followed by the draw calls in call order |
| Recorder.OpBeforeAnyPassIsFatal | rend3/src/renderer/list/mod.rs:189-192 | an operation added before any pass is opened is always fatal |
| MipUpload.LeadingZerosIsLog2 | rend3/src/renderer/render.rs:82-83 | for a non-zero value of a given bit width, width minus leading zeros minus 1 is floor(log2) |
| MipUpload.FloorLog2 | rend3/src/renderer/render.rs:82-83 | `32 - x.leading_zeros() - 1` on a non-zero u32 is floor(log2 x), below 32 |
| MipUpload.MaxMipLevels | rend3/src/renderer/render.rs:81-84 | the clamp is floor(log2(min(w,h))) - floor(log2(block width)) + 1, between 1 and 32, and requires no u32 underflow |
| MipUpload.MipLevels | rend3/src/renderer/render.rs:86 | the mip count created is the smaller of the requested count and the clamp, so it is at least 1 |
| MipUpload.RoundToMultiple | rend3/src/renderer/render.rs:104-108 | the result is a multiple of the block width, not below the extent and less than one block above it |
| MipUpload.MipBlocksIsRoundedQuotient | rend3/src/renderer/render.rs:104-114 | the block count used for every mip is the rounded extent divided by the block width, as rend3 computes it |
| MipUpload.BytesPerRow | rend3/src/renderer/render.rs:107-116 | a mip's row pitch: its block-rounded width in blocks times the bytes of one block |
| MipUpload.MipBytes | rend3/src/renderer/render.rs:107-117 | a mip's byte size: its row pitch times its block-rounded height in blocks |
| MipUpload.MipBlocksCover | rend3/src/renderer/render.rs:106-114 | a mip's blocks cover its extent `dim >> mip` with less than one block to spare |
| MipUpload.ShrLowerBound | rend3/src/renderer/render.rs:102-107 | `dim >> n` is at least y once dim holds y copies of 2^n |
| MipUpload.FaceWriteAt | rend3/src/renderer/render.rs:119-136 | write m of a layer reads mip m's bytes, starting m mips' worth past the layer's base, with that mip's row pitch |
| MipUpload.FaceWritesLayout | rend3/src/renderer/render.rs:98-137 | a layer's writes target mips 0..n-1 in order; their ranges are contiguous from the base, write m starts m mips' bytes in, and the last ends after n mips' bytes |
| MipUpload.FaceWritesSizes | rend3/src/renderer/render.rs:116-127 | each write's range is exactly its mip's block-rounded byte size |
| MipUpload.PlanMips2D | rend3/src/renderer/render.rs:98-137 | running the loop body for mips 0..n-1 yields exactly the layer-0 plan for n mips, and leaves the offset after those mips' bytes |
| MipUpload.PlanUpload2D | rend3/src/renderer/render.rs:98-137 | the 2D loop issues exactly MipLevels writes, for mips 0.. in order, with contiguous ranges from 0 whose sizes are the mips' byte sizes; the final offset is the total of those sizes |
| MipUpload.Upload2DInBounds | rend3/src/renderer/render.rs:119-127 | every 2D slice of the source data is in bounds exactly when the data holds all uploaded mips |
| MipUpload.UploadCubeInBounds | rend3/src/renderer/render.rs:204-215 | every cube slice of the source data is in bounds exactly when the data reaches the end of the last face's uploaded mips, 5 whole faces plus the uploaded mips' bytes |
| MipUpload.CubeWriteBound | rend3/src/renderer/render.rs:204-223 | every write of the first n faces lies inside its face, before the end of face n-1's uploaded mips |
| MipUpload.PlanCubeFace | rend3/src/renderer/render.rs:185-225 | one layer visits every requested mip and advances the offset past each, but writes only mips below the clamp |
| MipUpload.PlanUploadCube | rend3/src/renderer/render.rs:181-226 | the cube loop's writes are the six layers' plans in order, layer l starting l whole faces in; the final offset is 6 times the bytes of all requested mips |
| MipUpload.CubeLayer | rend3/src/renderer/render.rs:183-226 | slice l of the cube plan is exactly layer l's own plan, starting l faces into the data |
| MipUpload.FaceStart | rend3/src/renderer/render.rs:181-226 | the first write of cube face l starts l whole faces into the data |
| MipUpload.FaceEnd | rend3/src/renderer/render.rs:181-226 | the last uploaded write of cube face l ends after that face's uploaded mips' bytes |
| MipUpload.FaceSeam | rend3/src/renderer/render.rs:206-224 | between two consecutive faces, the source skips exactly the bytes of the requested mips that were not uploaded |
| MipUpload.CubeSkipsUnusedBytes | rend3/src/renderer/render.rs:206-224 | the cube plan has 6 times the clamped mip count of writes, and the next face's first write starts the skipped mips' bytes after this face's last write |
| MipUpload.MipsStayAboveBlock | rend3/src/renderer/render.rs:77-86 | for a power-of-two block width, every mip below the clamp is at least one block wide and high |
| MipUpload.SquareMip | rend3/src/renderer/render.rs:106-117 | a square mip a whole number of blocks wide has that many blocks times the block bytes per row, and that many rows |
| MipUpload.MipBlocksExact | rend3/src/renderer/render.rs:106-114 | an extent of a whole number of blocks needs exactly that many blocks |
| MipUpload.RoundExact | rend3/src/renderer/render.rs:104-108 | rounding a multiple of the block width leaves it unchanged |
| MipUpload.Example256Levels | rend3/src/renderer/render.rs:81-86 | 256x256 with 4-pixel blocks allows 8 - 2 + 1 = 7 mips; 4 requested gives 4 |
| MipUpload.Example256Mips | rend3/src/renderer/render.rs:77-86 | none of the example's four uploaded mips is smaller than a block |
| MipUpload.Example256Bytes | rend3/src/renderer/render.rs:106-117 | with 8-byte blocks the four mips take 32768, 8192, 2048 and 512 bytes |
| MipUpload.Example256Prefix | rend3/src/renderer/render.rs:98-137 | the example's four mips are packed into 43520 bytes |
| Frame.Applicable | rend3/src/renderer/render.rs:62-305 | an instruction panics unless its texture upload fits its data, and a remove or change panics unless its handle is in its manager (`remove` and `get_mut` unwrap) |
| Frame.Apply | rend3/src/renderer/render.rs:51-316 | an instruction touches only its own manager (keeping its counter) or its own global slot; `SetOptions` is only remembered; `SetCameraData` takes its aspect from the frame-start options; set/clear background writes the slot |
| Frame.ApplyToManager | rend3/src/renderer/render.rs:52-305 | in its manager an add stores its entry under the handle, a remove deletes the handle, a change records itself on the handle's entry; every other handle reads as before |
| Frame.Drain | rend3/src/renderer/render.rs:50-317 | applies the batch's instructions one by one, in queue order, each to the state the previous one left |
| Frame.DrainCons | rend3/src/renderer/render.rs:50-317 | a batch drains as its first instruction followed by the rest, and panics exactly when the first instruction or the rest does |
| Frame.DrainAppend | rend3/src/renderer/render.rs:50-317 | draining a batch equals draining its two parts in order, and the batch panics exactly when one part does |
| Frame.DrainKeepsOptions | rend3/src/renderer/render.rs:48-50 | the renderer's options do not change during the drain |
| Frame.PendingUntouched | rend3/src/renderer/render.rs:306 | a batch with no `SetOptions` leaves the pending options as they were |
| Frame.LastOptionsWin | rend3/src/renderer/render.rs:306 | the last `SetOptions` of the batch is the one pending when the drain ends |
| Frame.BackgroundUntouched | rend3/src/renderer/render.rs:310-315 | a batch that neither sets nor clears the background leaves it as it was |
| Frame.LastBackgroundWins | rend3/src/renderer/render.rs:310-315 | the background ends as the last set or clear of the batch left it |
| Frame.CameraUntouched | rend3/src/renderer/render.rs:307-309 | a batch without `SetCameraData` leaves the camera as it was |
| Frame.LastCameraWins | rend3/src/renderer/render.rs:307-309 | the camera ends with the last `SetCameraData`'s data and the frame-start options' aspect, even when the batch sets new options earlier |
| Frame.ProcessInstructions | rend3/src/renderer/render.rs:389-395 | after the drain, managers, camera and background are the drain's result |
| Frame.FrameOptions | rend3/src/renderer/render.rs:389-395 | after the drain the renderer's options are those of the batch's last `SetOptions`, or unchanged if there is none |
| Frame.AddMeshStores | rend3/src/renderer/render.rs:52-61 | adding a mesh never panics and stores it under its handle with no changes yet |
| Frame.AddRemoveAdd | rend3/src/renderer/render.rs:52-64 | add, remove, add of one mesh in one batch never panics and leaves the mesh present with the second add's data |
| Frame.RemoveBeforeAddPanics | rend3/src/renderer/render.rs:62-64 | removing a mesh that is absent panics even when its add follows in the same batch |
| Schedule.Filter | rend3/src/renderer/render.rs:468-471 | the passes of the list whose run rate is the given one, in list order |
| Schedule.FilterMembers | rend3/src/renderer/render.rs:468-471 | the passes kept for a run rate all have that rate and come from the list, and every pass of that rate is kept |
| Schedule.FilterAppend | rend3/src/renderer/render.rs:468-471 | the filter keeps list order and duplicates: filtering a concatenation is the concatenation of the filtered parts |
| Schedule.FilterSingle | rend3/src/renderer/render.rs:468-471 | a single pass is kept exactly when it has the filtered rate |
| Schedule.FilterAt | rend3/src/renderer/render.rs:468-471 | each kept pass has the filtered rate and is a pass of the list |
| Schedule.FilterSplits | rend3/src/renderer/render.rs:468-471 | the Once passes and the PerShadow passes together account for every pass |
| Schedule.ScheduleTasks | rend3/src/renderer/render.rs:409-573 | the loops push, for each light in order, its per-shadow passes in list order, then the once-per-frame passes from the camera in list order |
| Schedule.ScheduleFrame | rend3/src/renderer/render.rs:404-409 | lights are taken from the light manager in registry order |
| Schedule.ShadowCount | rend3/src/renderer/render.rs:409-486 | there are #lights x #PerShadow shadow tasks |
| Schedule.ShadowTaskAt | rend3/src/renderer/render.rs:409-486 | shadow task l*P+q is light l's q-th per-shadow pass, where P is the number of per-shadow passes |
| Schedule.ShadowTasksFromLights | rend3/src/renderer/render.rs:409-481 | every shadow task is rendered from a light |
| Schedule.ShadowPassRate | rend3/src/renderer/render.rs:468-471 | every shadow task is a per-shadow pass |
| Schedule.ScheduleShape | rend3/src/renderer/render.rs:407-573 | the schedule has #lights x #PerShadow + #Once tasks; every light task comes before every camera task; the camera tasks are the Once passes in list order |
| Schedule.NoLightsOnlyOnce | rend3/src/renderer/render.rs:557-573 | with no lights only the Once passes are scheduled; one Once and one PerShadow pass give exactly the Once task |
| Schedule.CollectSubmission | rend3/src/renderer/render.rs:580-584 | the submitted list is the primary encoder's buffer first, then each task's buffer in push order |

## Left out

- GPU API calls are not modelled: texture, buffer, view and shader-module creation, `write_texture`, bind groups, `poll` and `submit`. Created objects are serial numbers and writes are a list of `MipWrite` records.
- Culling is not modelled (`prepare`, `cpu_run`, `gpu_run`), nor are camera uniforms or the light camera's orthographic projection. That code is floating point or is not part of this model.
- Concurrency plumbing is not modelled: the instruction queue's swap and locks, `RwLock` guards, the worker pool, `FuturesOrdered`, pipeline recompilation and buffer-recall pumping. Only the order they produce is kept.
- `RenderListCache::get_buffer` and `get_image` are `unimplemented!()` and are not modelled.
- `rend3/src/renderer/list/unsync.rs` and `rend3/src/renderer/list/passes.rs` are not modelled. Pass and operation descriptors are opaque identifiers.
- The glTF viewer example (windowing, glTF import) is not modelled: it only drives the renderer.
- Manager internals are not part of this model. Every manager is its `ResourceRegistry`: `fill` is `insert`, `remove` is `remove`, and changes edit the entry in place.
  - Removes and changes require the handle, as `remove` and `get_mut` demand.
  - Frame.Apply: an object add does not check its mesh.
  - Frame.Apply: a light direction change is recorded like any other change, without recomputing the light's camera.
  - Frame.Apply: materials do not touch the 2D textures.
  - Frame.Apply: shader and pipeline managers are treated as registries.
- The renderer's `ready()` steps and the per-frame `add_render_list` of the cache are not modelled.
- Frame.ProcessInstructions: `GlobalResources::update` is not part of this model. It is taken to install the new options, which is what the code reads back right after, and to leave the camera and background as the drain left them.
- MipUpload.RoundToMultiple: `round_to_multiple` is not part of this model. It is assumed to round up to the next multiple of the block width, as its call site's comment says.
- MipUpload.PlanUpload2D: byte sizes and offsets are unbounded. A u32 overflow of `width_blocks * block_bytes` or `bytes_per_row * height_blocks` is not modelled.
- MipUpload.PlanUploadCube: byte sizes and offsets are unbounded. A u32 overflow of `width_blocks * block_bytes` or `bytes_per_row * height_blocks` is not modelled.
- MipUpload.PlanUploadCube: requires at most 32 requested mips. `1 << mip` on a u32 overflows from mip 32 on, which panics with overflow checks; the release-build shift, masked to `mip % 32`, is not modelled.
- MipUpload.MaxMipLevels: the release-build wrap of `tex_mips - block_mips + 1` is not modelled. `Uploadable` excludes the inputs where it underflows (a texture smaller than one block, such as 2x2 with 4-pixel blocks), which panic with overflow checks. Likewise a zero width, height or block width makes `32 - leading_zeros() - 1` wrap in a release build; `Uploadable` excludes those inputs too.
- Cache.CreateImage: the created texture is opaque. The model does not record that it is created with `sample_count: 1` whatever the descriptor's `samples`.
- Registry.Allocate: the counter is an unbounded `nat`. rend3's counter is an `AtomicUsize` whose `fetch_add` wraps after `usize::MAX` allocations; that wrap is excluded, so `Registry.AllocationsIncrease`'s distinct handles hold only below that many allocations.
- Panic messages are not modelled. A panic is a precondition that does not hold.
