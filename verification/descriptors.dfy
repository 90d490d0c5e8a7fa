/**
 * Structural descriptions of the render list's transient images and buffers,
 * and the conversion of an initialised-buffer description into a plain buffer
 * description plus its contents.
 */
module Descriptors {
  import opened Wrappers
  import Registry

  type u8 = x: int | 0 <= x < 0x100
  type u32 = x: int | 0 <= x < 0x1_0000_0000
  type u64 = x: int | 0 <= x < 0x1_0000_0000_0000_0000

  /** A `Vec<u8>`: its length never exceeds `isize::MAX`, so `len() as u64` is exact. */
  type ByteVec = s: seq<u8> | |s| <= 0x7fff_ffff_ffff_ffff

  /** wgpu's texture format enumeration, by discriminant. */
  datatype ImageFormat = ImageFormat(code: nat)

  /** wgpu's texture and buffer usage bit sets. */
  type ImageUsage = u32
  type BufferUsage = u32

  /** A debug label; the field is called `label` in the Rust code. */
  type Label = Option<string>

  datatype ImageResourceDescriptor = ImageResourceDescriptor(
    name: Label,
    resolution: (u32, u32),
    mips: u32,
    format: ImageFormat,
    samples: u32,
    usage: ImageUsage)

  datatype BufferResourceDescriptor = BufferResourceDescriptor(
    name: Label,
    size: u64,
    usage: BufferUsage)

  datatype BufferResourceInitDescriptor = BufferResourceInitDescriptor(
    name: Label,
    data: ByteVec,
    usage: BufferUsage)

  /** What a render routine draws into. */
  datatype RenderRoutineTarget = Shadow | Image(handle: Registry.Handle) | NoTarget

  /** The derived `PartialEq` of `ImageResourceDescriptor`: every field compared in turn. */
  predicate ImageDescEq(a: ImageResourceDescriptor, b: ImageResourceDescriptor) {
    && a.name == b.name
    && a.resolution.0 == b.resolution.0
    && a.resolution.1 == b.resolution.1
    && a.mips == b.mips
    && a.format == b.format
    && a.samples == b.samples
    && a.usage == b.usage
  }

  /** The derived `PartialEq` of `BufferResourceDescriptor`. */
  predicate BufferDescEq(a: BufferResourceDescriptor, b: BufferResourceDescriptor) {
    && a.name == b.name
    && a.size == b.size
    && a.usage == b.usage
  }

  /** Field-wise equality is exactly structural identity of image descriptors. */
  lemma ImageDescEqIsIdentity(a: ImageResourceDescriptor, b: ImageResourceDescriptor)
    ensures ImageDescEq(a, b) <==> a == b
  {
  }

  /** Field-wise equality is exactly structural identity of buffer descriptors. */
  lemma BufferDescEqIsIdentity(a: BufferResourceDescriptor, b: BufferResourceDescriptor)
    ensures BufferDescEq(a, b) <==> a == b
  {
  }

  /**
   * `into_base_descriptor_data`: the buffer's size is the length of its
   * contents, label and usage carry over, and the contents are handed back
   * unchanged.
   */
  function IntoBaseDescriptorData(init: BufferResourceInitDescriptor): (r: (BufferResourceDescriptor, ByteVec))
    ensures r.0.size == |init.data|
    ensures r.0.name == init.name && r.0.usage == init.usage
    ensures r.1 == init.data
  {
    (BufferResourceDescriptor(init.name, |init.data| as u64, init.usage), init.data)
  }

  /** Rebuilds an initialised-buffer description from a plain one and its contents. */
  function FromBaseDescriptorData(desc: BufferResourceDescriptor, data: ByteVec): BufferResourceInitDescriptor {
    BufferResourceInitDescriptor(desc.name, data, desc.usage)
  }

  /**
   * The conversion loses nothing: the initialised description can be rebuilt
   * from its result, and a plain description whose size matches its contents
   * is exactly what the conversion produces.
   */
  lemma IntoBaseRoundTrip(init: BufferResourceInitDescriptor, desc: BufferResourceDescriptor, data: ByteVec)
    ensures var (d, bytes) := IntoBaseDescriptorData(init); FromBaseDescriptorData(d, bytes) == init
    ensures desc.size == |data| ==> IntoBaseDescriptorData(FromBaseDescriptorData(desc, data)) == (desc, data)
  {
  }
}
