/**
 * The render list's transient-resource cache and the creation recorder that
 * fills it: images and buffers live in two independent registries, and a
 * creation request that names a cached handle whose descriptor is
 * structurally equal to the new one keeps the cached resource.
 *
 * GPU objects are opaque. The device is reduced to a counter of the objects
 * it has created, and each cached resource records the serial number of the
 * object created for it, so "nothing was reallocated" is observable.
 */
module Cache {
  import opened Wrappers
  import opened Registry
  import opened Descriptors

  datatype ImageResource = ImageResource(desc: ImageResourceDescriptor, image: nat)
  datatype BufferResource = BufferResource(desc: BufferResourceDescriptor, buffer: nat)

  datatype RenderListCache = RenderListCache(
    images: ResourceRegistry<ImageResource>,
    buffers: ResourceRegistry<BufferResource>)

  /** The device: how many GPU objects (textures, buffers) it has created so far. */
  datatype Device = Device(created: nat)

  /** `RenderListCreationRecorder`: the device and the cache it writes into. */
  datatype CreationRecorder = CreationRecorder(device: Device, cache: RenderListCache)

  datatype Created = Created(handle: Handle, recorder: CreationRecorder)

  /** `RenderListCache::new`: two empty registries whose first allocations both yield handle 0. */
  function NewCache(): (c: RenderListCache)
    ensures Count(c.images) == 0 && Count(c.buffers) == 0
    ensures forall h :: TryGet(c.images, h).None? && TryGet(c.buffers, h).None?
    ensures Allocate(c.images).handle == 0 && Allocate(c.buffers).handle == 0
  {
    RenderListCache(New(), New())
  }

  /**
   * The reuse test of `create_image` (`Some(true)` in the Rust code): the
   * field-by-field comparison with the cached descriptor holds exactly when
   * an image is cached under `h` with that very descriptor.
   */
  predicate ImageReusable(c: RenderListCache, h: Handle, desc: ImageResourceDescriptor): (r: bool)
    ensures r <==> Contains(c.images, h) && Get(c.images, h).desc == desc
  {
    match TryGet(c.images, h)
    case Some(cached) => ImageDescEq(cached.desc, desc)
    case None => false
  }

  /** The reuse test of `create_buffer`: a buffer is cached under `h` with that very descriptor. */
  predicate BufferReusable(c: RenderListCache, h: Handle, desc: BufferResourceDescriptor): (r: bool)
    ensures r <==> Contains(c.buffers, h) && Get(c.buffers, h).desc == desc
  {
    match TryGet(c.buffers, h)
    case Some(cached) => BufferDescEq(cached.desc, desc)
    case None => false
  }

  /** Creates a texture on the device and stores it, with its descriptor, under `h`. */
  function StoreImage(rec: CreationRecorder, h: Handle, desc: ImageResourceDescriptor): CreationRecorder {
    var res := ImageResource(desc, rec.device.created);
    CreationRecorder(
      Device(rec.device.created + 1),
      rec.cache.(images := Insert(rec.cache.images, h, res).registry))
  }

  /** Creates a buffer on the device and stores it, with its descriptor, under `h`. */
  function StoreBuffer(rec: CreationRecorder, h: Handle, desc: BufferResourceDescriptor): CreationRecorder {
    var res := BufferResource(desc, rec.device.created);
    CreationRecorder(
      Device(rec.device.created + 1),
      rec.cache.(buffers := Insert(rec.cache.buffers, h, res).registry))
  }

  /**
   * `create_image`. A reuse handle whose cached descriptor equals `desc` is
   * returned with nothing changed. Any other reuse handle is returned with a
   * newly created image stored under it, the counter untouched. Without a
   * reuse handle a fresh handle is allocated and a new image stored under it.
   * The buffers are never touched.
   */
  function CreateImage(rec: CreationRecorder, desc: ImageResourceDescriptor, reuse: Option<Handle>): (r: Created)
    ensures r.recorder.cache.buffers == rec.cache.buffers
    ensures TryGet(r.recorder.cache.images, r.handle).Some?
    ensures TryGet(r.recorder.cache.images, r.handle).value.desc == desc
    ensures forall k :: k != r.handle ==> TryGet(r.recorder.cache.images, k) == TryGet(rec.cache.images, k)
    ensures reuse.Some? && ImageReusable(rec.cache, reuse.value, desc) ==> r == Created(reuse.value, rec)
    ensures reuse.Some? && !ImageReusable(rec.cache, reuse.value, desc) ==>
      && r.handle == reuse.value
      && r.recorder.device.created == rec.device.created + 1
      && TryGet(r.recorder.cache.images, r.handle) == Some(ImageResource(desc, rec.device.created))
      && r.recorder.cache.images.next == rec.cache.images.next
    ensures reuse.None? ==>
      && r.handle == rec.cache.images.next
      && r.recorder.device.created == rec.device.created + 1
      && TryGet(r.recorder.cache.images, r.handle) == Some(ImageResource(desc, rec.device.created))
      && r.recorder.cache.images.next == rec.cache.images.next + 1
  {
    match reuse
    case Some(h) =>
      if ImageReusable(rec.cache, h, desc) then
        ImageDescEqIsIdentity(TryGet(rec.cache.images, h).value.desc, desc);
        Created(h, rec)
      else
        Created(h, StoreImage(rec, h, desc))
    case None =>
      var a := Allocate(rec.cache.images);
      Created(a.handle, StoreImage(rec.(cache := rec.cache.(images := a.registry)), a.handle, desc))
  }

  /** `create_buffer`: the same reuse rules as `create_image`, on the buffers registry. */
  function CreateBuffer(rec: CreationRecorder, desc: BufferResourceDescriptor, reuse: Option<Handle>): (r: Created)
    ensures r.recorder.cache.images == rec.cache.images
    ensures TryGet(r.recorder.cache.buffers, r.handle).Some?
    ensures TryGet(r.recorder.cache.buffers, r.handle).value.desc == desc
    ensures forall k :: k != r.handle ==> TryGet(r.recorder.cache.buffers, k) == TryGet(rec.cache.buffers, k)
    ensures reuse.Some? && BufferReusable(rec.cache, reuse.value, desc) ==> r == Created(reuse.value, rec)
    ensures reuse.Some? && !BufferReusable(rec.cache, reuse.value, desc) ==>
      && r.handle == reuse.value
      && r.recorder.device.created == rec.device.created + 1
      && TryGet(r.recorder.cache.buffers, r.handle) == Some(BufferResource(desc, rec.device.created))
      && r.recorder.cache.buffers.next == rec.cache.buffers.next
    ensures reuse.None? ==>
      && r.handle == rec.cache.buffers.next
      && r.recorder.device.created == rec.device.created + 1
      && TryGet(r.recorder.cache.buffers, r.handle) == Some(BufferResource(desc, rec.device.created))
      && r.recorder.cache.buffers.next == rec.cache.buffers.next + 1
  {
    match reuse
    case Some(h) =>
      if BufferReusable(rec.cache, h, desc) then
        BufferDescEqIsIdentity(TryGet(rec.cache.buffers, h).value.desc, desc);
        Created(h, rec)
      else
        Created(h, StoreBuffer(rec, h, desc))
    case None =>
      var a := Allocate(rec.cache.buffers);
      Created(a.handle, StoreBuffer(rec.(cache := rec.cache.(buffers := a.registry)), a.handle, desc))
  }

  /**
   * `create_buffer_init`: always allocates a fresh handle, and stores a new
   * buffer whose descriptor has the contents' length as its size.
   */
  function CreateBufferInit(rec: CreationRecorder, init: BufferResourceInitDescriptor): (r: Created)
    ensures r.recorder.cache.images == rec.cache.images
    ensures r.handle == rec.cache.buffers.next
    ensures r.recorder.cache.buffers.next == rec.cache.buffers.next + 1
    ensures r.recorder.device.created == rec.device.created + 1
    ensures TryGet(r.recorder.cache.buffers, r.handle)
         == Some(BufferResource(BufferResourceDescriptor(init.name, |init.data|, init.usage), rec.device.created))
    ensures forall k :: k != r.handle ==> TryGet(r.recorder.cache.buffers, k) == TryGet(rec.cache.buffers, k)
  {
    var a := Allocate(rec.cache.buffers);
    var (desc, _) := IntoBaseDescriptorData(init);
    Created(a.handle, StoreBuffer(rec.(cache := rec.cache.(buffers := a.registry)), a.handle, desc))
  }

  /**
   * Image creation is idempotent: asking again for the same image descriptor under
   * the handle the first request returned changes nothing and creates no GPU
   * object.
   */
  lemma CreateImageIdempotent(rec: CreationRecorder, desc: ImageResourceDescriptor, reuse: Option<Handle>)
    ensures var first := CreateImage(rec, desc, reuse);
      CreateImage(first.recorder, desc, Some(first.handle)) == first
  {
    var first := CreateImage(rec, desc, reuse);
    ImageDescEqIsIdentity(desc, desc);
    assert ImageReusable(first.recorder.cache, first.handle, desc);
  }

  lemma CreateBufferIdempotent(rec: CreationRecorder, desc: BufferResourceDescriptor, reuse: Option<Handle>)
    ensures var first := CreateBuffer(rec, desc, reuse);
      CreateBuffer(first.recorder, desc, Some(first.handle)) == first
  {
    var first := CreateBuffer(rec, desc, reuse);
    BufferDescEqIsIdentity(desc, desc);
    assert BufferReusable(first.recorder.cache, first.handle, desc);
  }

  /** Every cached handle was issued by its registry's counter. */
  predicate Issued<T>(r: ResourceRegistry<T>) {
    forall i :: 0 <= i < |r.entries| ==> r.entries[i].0 < r.next
  }

  /**
   * While the cache only holds issued handles and reuse handles were issued
   * by it, a request without a reuse handle never lands on a cached image,
   * and the cache keeps holding issued handles only.
   */
  lemma CreateImageKeepsIssued(rec: CreationRecorder, desc: ImageResourceDescriptor, reuse: Option<Handle>)
    requires Issued(rec.cache.images)
    requires reuse.Some? ==> reuse.value < rec.cache.images.next
    ensures reuse.None? ==> TryGet(rec.cache.images, CreateImage(rec, desc, reuse).handle).None?
    ensures Issued(CreateImage(rec, desc, reuse).recorder.cache.images)
  {
    var r := CreateImage(rec, desc, reuse);
    var es := r.recorder.cache.images.entries;
    forall i | 0 <= i < |es| ensures es[i].0 < r.recorder.cache.images.next {
      var k := es[i].0;
      TryGetMeansMember(r.recorder.cache.images, k, es[i].1);
      if k != r.handle {
        TryGetMeansMember(rec.cache.images, k, es[i].1);
        var j :| 0 <= j < |rec.cache.images.entries| && rec.cache.images.entries[j] == (k, es[i].1);
      }
    }
  }

  /**
   * A reuse handle the cache never issued is used verbatim; a later fresh
   * allocation then hands out the same handle and replaces that image.
   */
  lemma UnissuedReuseHandleIsOverwritten(a: ImageResourceDescriptor, b: ImageResourceDescriptor)
    ensures
      var rec0 := CreationRecorder(Device(0), NewCache());
      var first := CreateImage(rec0, a, Some(0));
      var second := CreateImage(first.recorder, b, None);
      first.handle == 0 && second.handle == 0
      && TryGet(second.recorder.cache.images, 0) == Some(ImageResource(b, 1))
  {
  }

  /**
   * The registries do not interact: which handle an image request yields does
   * not depend on buffer requests made before it, and vice versa.
   */
  lemma RegistriesIndependent(rec: CreationRecorder, i: ImageResourceDescriptor, b: BufferResourceDescriptor,
                              ri: Option<Handle>, rb: Option<Handle>)
    ensures CreateImage(CreateBuffer(rec, b, rb).recorder, i, ri).handle == CreateImage(rec, i, ri).handle
    ensures CreateBuffer(CreateImage(rec, i, ri).recorder, b, rb).handle == CreateBuffer(rec, b, rb).handle
  {
  }
}
