/**
 * The layout arithmetic of texture uploads: how many mip levels a texture
 * gets, how many bytes each mip occupies in the packed source data, and which
 * (layer, mip, source range) writes are issued, for 2D and cube textures.
 *
 * The GPU writes themselves are opaque; a plan is the list of writes in
 * issue order.
 */
module MipUpload {
  import opened Wrappers
  import opened Descriptors

  function Pow2(n: nat): (r: nat)
    ensures r >= 1
  {
    if n == 0 then 1 else 2 * Pow2(n - 1)
  }

  /**
   * a * b, written as repeated addition: the layout proofs then only ever see
   * linear facts about it (MulIsProduct connects it to `*`).
   */
  function Mul(a: nat, b: nat): nat {
    if a == 0 then 0 else Mul(a - 1, b) + b
  }

  lemma {:induction false} MulIsProduct(a: nat, b: nat)
    ensures Mul(a, b) == a * b
    decreases a
  {
    if a > 0 {
      MulIsProduct(a - 1, b);
    }
  }

  /** `x >> n`: n halvings, each rounding down. */
  function Shr(x: nat, n: nat): nat {
    if n == 0 then x else Shr(x / 2, n - 1)
  }

  /** Shifting right by n leaves at least y once `x` holds y copies of 2^n. */
  lemma {:induction false} ShrLowerBound(x: nat, n: nat, y: nat)
    requires x >= Mul(y, Pow2(n))
    ensures Shr(x, n) >= y
    decreases n
  {
    if n > 0 {
      MulDouble(y, Pow2(n - 1));
      ShrLowerBound(x / 2, n - 1, y);
    } else {
      MulIsProduct(y, 1);
    }
  }

  lemma {:induction false} MulDouble(a: nat, b: nat)
    ensures Mul(a, 2 * b) == 2 * Mul(a, b)
    decreases a
  {
    if a > 0 {
      MulDouble(a - 1, b);
    }
  }

  /** floor(log2(x)). */
  function Log2(x: nat): nat
    requires x >= 1
  {
    if x < 2 then 0 else 1 + Log2(x / 2)
  }

  lemma {:induction false} Pow2Add(a: nat, b: nat)
    ensures Pow2(a + b) == Pow2(a) * Pow2(b)
    decreases a
  {
    if a > 0 {
      Pow2Add(a - 1, b);
      assert Pow2(a + b) == 2 * Pow2(a - 1 + b);
    }
  }

  lemma {:induction false} Pow2Monotone(a: nat, b: nat)
    requires a <= b
    ensures Pow2(a) <= Pow2(b)
    decreases b
  {
    if a < b {
      Pow2Monotone(a, b - 1);
    }
  }

  /** The only k with 2^k <= x < 2^(k+1) is floor(log2(x)). */
  lemma {:induction false} Log2Unique(x: nat, k: nat)
    requires Pow2(k) <= x < Pow2(k + 1)
    ensures Log2(x) == k
    decreases k
  {
    if k > 0 {
      Log2Unique(x / 2, k - 1);
    }
  }

  lemma {:induction false} Log2Bounds(x: nat)
    requires x >= 1
    ensures Pow2(Log2(x)) <= x < Pow2(Log2(x) + 1)
    decreases x
  {
    if x >= 2 {
      Log2Bounds(x / 2);
    }
  }

  /** The number of zero bits above the highest set bit of a `width`-bit value. */
  function LeadingZeros(x: nat, width: nat): nat
    requires x < Pow2(width)
    decreases width
  {
    if width == 0 then 0
    else if x >= Pow2(width - 1) then 0
    else 1 + LeadingZeros(x, width - 1)
  }

  /** For a non-zero `width`-bit value, `width - leading_zeros - 1` is floor(log2). */
  lemma {:induction false} LeadingZerosIsLog2(x: nat, width: nat)
    requires 1 <= x < Pow2(width)
    ensures LeadingZeros(x, width) < width
    ensures width - LeadingZeros(x, width) - 1 == Log2(x)
    decreases width
  {
    if x >= Pow2(width - 1) {
      Log2Unique(x, width - 1);
    } else {
      LeadingZerosIsLog2(x, width - 1);
    }
  }

  /** Bits in a `u32`: `size_of_val(&x) * 8`. */
  const U32Bits: nat := 32

  lemma Pow2Of32()
    ensures Pow2(U32Bits) == 0x1_0000_0000
  {
    assert Pow2(2) == 4;
    assert Pow2(4) == 16 by { Pow2Add(2, 2); }
    assert Pow2(8) == 256 by { Pow2Add(4, 4); }
    assert Pow2(16) == 0x1_0000 by { Pow2Add(8, 8); }
    Pow2Add(16, 16);
  }

  /**
   * `32 - x.leading_zeros() - 1` on a `u32`, which is floor(log2(x)); the
   * subtraction underflows for `x == 0`, hence the precondition.
   */
  function FloorLog2(x: u32): (r: nat)
    requires x >= 1
    ensures r == Log2(x) && r < U32Bits
  {
    Pow2Of32();
    LeadingZerosIsLog2(x, U32Bits);
    U32Bits - LeadingZeros(x, U32Bits) - 1
  }

  /** A texture format's block: its width in pixels and its size in bytes. */
  datatype TextureFormat = TextureFormat(pixelsPerBlock: u32, bytesPerBlock: u32)

  /** A texture to upload: packed data for all its mips (and faces), its size and requested mip count. */
  datatype Texture = Texture(data: ByteVec, width: u32, height: u32, format: TextureFormat, mipLevels: u32)

  function SmallerDim(t: Texture): u32 {
    if t.width <= t.height then t.width else t.height
  }

  /**
   * The mip clamp does not panic: at least one mip is requested (the
   * `assert!`), the smaller dimension and block width are non-zero (else
   * `32 - leading_zeros() - 1` underflows), and the
   * texture's mip count is at least the block's (`tex_mips - block_mips` is a
   * `u32` subtraction, which panics with overflow checks and wraps without).
   */
  predicate Uploadable(t: Texture) {
    && t.mipLevels > 0
    && SmallerDim(t) >= 1
    && t.format.pixelsPerBlock >= 1
    && Log2(t.format.pixelsPerBlock) <= Log2(SmallerDim(t))
  }

  /** `max_mip_levels = tex_mips - block_mips + 1`. */
  function MaxMipLevels(t: Texture): (r: nat)
    requires Uploadable(t)
    ensures r == Log2(SmallerDim(t)) - Log2(t.format.pixelsPerBlock) + 1
    ensures 1 <= r <= U32Bits
  {
    FloorLog2(SmallerDim(t)) - FloorLog2(t.format.pixelsPerBlock) + 1
  }

  function Min(a: nat, b: nat): nat {
    if a <= b then a else b
  }

  /** `texture.mip_levels.min(max_mip_levels)`: the mip count the texture is created with. */
  function MipLevels(t: Texture): (r: nat)
    requires Uploadable(t)
    ensures 1 <= r <= t.mipLevels && r <= MaxMipLevels(t)
    ensures r == t.mipLevels || r == MaxMipLevels(t)
  {
    Min(t.mipLevels, MaxMipLevels(t))
  }

  /** x / m rounded up, by repeated subtraction: the layout proofs only see linear facts about it. */
  function CeilDiv(x: nat, m: nat): nat
    requires m >= 1
    decreases x
  {
    if x == 0 then 0 else if x <= m then 1 else 1 + CeilDiv(x - m, m)
  }

  /** CeilDiv(x, m) blocks of m cover x, with less than one block to spare. */
  lemma {:induction false} CeilDivBounds(x: nat, m: nat)
    requires m >= 1
    ensures x <= Mul(CeilDiv(x, m), m) < x + m
    decreases x
  {
    if x > m {
      CeilDivBounds(x - m, m);
    }
  }

  /** A whole number of blocks needs exactly that many blocks. */
  lemma {:induction false} CeilDivExact(q: nat, m: nat)
    requires m >= 1
    ensures CeilDiv(Mul(q, m), m) == q
    decreases q
  {
    if q > 1 {
      CeilDivExact(q - 1, m);
      assert Mul(q - 1, m) >= m by { MulMonotone(1, q - 1, m); }
    }
  }

  /**
   * `round_to_multiple` is not part of this model; it is assumed to round up
   * to the next multiple, which is what its call site relies on.
   */
  function RoundToMultiple(x: nat, m: nat): (r: nat)
    requires m >= 1
    ensures r % m == 0 && x <= r < x + m
  {
    CeilDivBounds(x, m);
    MulIsProduct(CeilDiv(x, m), m);
    DivUnique(CeilDiv(x, m) * m, m, CeilDiv(x, m), 0);
    Mul(CeilDiv(x, m), m)
  }

  /** The number of blocks along a dimension at a mip: the mip's extent (`dim >> mip`) in whole blocks, rounded up. */
  function MipBlocks(dim: nat, mip: nat, blockWidth: nat): nat
    requires blockWidth >= 1
  {
    CeilDiv(Shr(dim, mip), blockWidth)
  }

  /** The block count is what rend3 computes: `round_to_multiple(dim >> mip, block_width) / block_width`. */
  lemma MipBlocksIsRoundedQuotient(dim: nat, mip: nat, blockWidth: nat)
    requires blockWidth >= 1
    ensures MipBlocks(dim, mip, blockWidth) == RoundToMultiple(Shr(dim, mip), blockWidth) / blockWidth
  {
    var c := MipBlocks(dim, mip, blockWidth);
    MulIsProduct(c, blockWidth);
    DivUnique(c * blockWidth, blockWidth, c, 0);
  }

  /**
   * The blocks of a mip cover its extent (`dim >> mip`) with less than one
   * block to spare: the block count is the extent divided by the block width,
   * rounded up.
   */
  lemma MipBlocksCover(dim: nat, mip: nat, blockWidth: nat)
    requires blockWidth >= 1
    ensures MipBlocks(dim, mip, blockWidth) * blockWidth >= Shr(dim, mip)
    ensures MipBlocks(dim, mip, blockWidth) == 0
         || (MipBlocks(dim, mip, blockWidth) - 1) * blockWidth < Shr(dim, mip)
  {
    var b := MipBlocks(dim, mip, blockWidth);
    CeilDivBounds(Shr(dim, mip), blockWidth);
    MulIsProduct(b, blockWidth);
    assert (b - 1) * blockWidth == b * blockWidth - blockWidth;
  }

  function BytesPerRow(t: Texture, mip: nat): nat
    requires t.format.pixelsPerBlock >= 1
  {
    Mul(MipBlocks(t.width, mip, t.format.pixelsPerBlock), t.format.bytesPerBlock)
  }

  function MipBytes(t: Texture, mip: nat): nat
    requires t.format.pixelsPerBlock >= 1
  {
    Mul(BytesPerRow(t, mip), MipBlocks(t.height, mip, t.format.pixelsPerBlock))
  }

  /** The packed bytes of mips 0..n-1 of one face. */
  function PrefixBytes(t: Texture, n: nat): nat
    requires t.format.pixelsPerBlock >= 1
  {
    if n == 0 then 0 else PrefixBytes(t, n - 1) + MipBytes(t, n - 1)
  }

  lemma {:induction false} PrefixBytesMonotone(t: Texture, a: nat, b: nat)
    requires t.format.pixelsPerBlock >= 1 && a <= b
    ensures PrefixBytes(t, a) <= PrefixBytes(t, b)
    decreases b
  {
    if a < b {
      PrefixBytesMonotone(t, a, b - 1);
    }
  }

  /** One `write_texture`: the layer and mip written, the source range, and the row pitch. */
  datatype MipWrite = MipWrite(layer: nat, mip: nat, start: nat, end: nat, bytesPerRow: nat)

  /** The writes of mips 0..n-1 of one layer whose data starts at `base`. */
  function FaceWrites(t: Texture, layer: nat, base: nat, n: nat): (ws: seq<MipWrite>)
    requires t.format.pixelsPerBlock >= 1
    ensures |ws| == n
  {
    if n == 0 then [] else
      FaceWrites(t, layer, base, n - 1)
      + [MipWrite(layer, n - 1, base + PrefixBytes(t, n - 1), base + PrefixBytes(t, n), BytesPerRow(t, n - 1))]
  }

  /** Write m of a layer's plan reads mip m's bytes, m mips' worth past `base`. */
  lemma {:induction false} FaceWriteAt(t: Texture, layer: nat, base: nat, n: nat, m: nat)
    requires t.format.pixelsPerBlock >= 1 && m < n
    ensures FaceWrites(t, layer, base, n)[m]
         == MipWrite(layer, m, base + PrefixBytes(t, m), base + PrefixBytes(t, m + 1), BytesPerRow(t, m))
    decreases n
  {
    if m < n - 1 {
      FaceWriteAt(t, layer, base, n - 1, m);
    }
  }

  /** Each write covers the next mip's bytes: contiguous ranges from `base`. */
  predicate Contiguous(ws: seq<MipWrite>, base: nat) {
    && (|ws| > 0 ==> ws[0].start == base)
    && (forall i :: 0 < i < |ws| ==> ws[i].start == ws[i - 1].end)
  }

  /**
   * A layer's writes go to mips 0..n-1 in order; each range is exactly that
   * mip's block-rounded size; the ranges are contiguous from `base` and end
   * where the first n mips' bytes end.
   */
  lemma FaceWritesLayout(t: Texture, layer: nat, base: nat, n: nat)
    requires t.format.pixelsPerBlock >= 1
    ensures var ws := FaceWrites(t, layer, base, n);
      && Contiguous(ws, base)
      && (forall m :: 0 <= m < n ==> ws[m].layer == layer && ws[m].mip == m)
      && (forall m :: 0 <= m < n ==> ws[m].start == base + PrefixBytes(t, m))
      && (n > 0 ==> ws[n - 1].end == base + PrefixBytes(t, n))
  {
    var ws := FaceWrites(t, layer, base, n);
    forall m | 0 <= m < n ensures ws[m].layer == layer && ws[m].mip == m && ws[m].start == base + PrefixBytes(t, m) {
      FaceWriteAt(t, layer, base, n, m);
    }
    forall i | 0 < i < n ensures ws[i].start == ws[i - 1].end {
      FaceWriteAt(t, layer, base, n, i);
      FaceWriteAt(t, layer, base, n, i - 1);
    }
    if n > 0 {
      FaceWriteAt(t, layer, base, n, n - 1);
    }
  }

  /** Each write of a layer's plan covers exactly its mip's block-rounded bytes. */
  lemma FaceWritesSizes(t: Texture, layer: nat, base: nat, n: nat)
    requires t.format.pixelsPerBlock >= 1
    ensures var ws := FaceWrites(t, layer, base, n);
      forall m :: 0 <= m < n ==> ws[m].end == ws[m].start + MipBytes(t, m)
  {
    var ws := FaceWrites(t, layer, base, n);
    forall m | 0 <= m < n ensures ws[m].end == ws[m].start + MipBytes(t, m) {
      FaceWriteAt(t, layer, base, n, m);
      PrefixStep(t, m);
    }
  }

  /** The first m + 1 mips take the first m mips' bytes plus mip m's. */
  lemma PrefixStep(t: Texture, m: nat)
    requires t.format.pixelsPerBlock >= 1
    ensures PrefixBytes(t, m + 1) == PrefixBytes(t, m) + MipBytes(t, m)
  {
  }

  /**
   * The 2D upload loop: one write per mip below the clamped mip count, each
   * reading the next block-rounded range of the source data.
   */
  method PlanUpload2D(t: Texture) returns (writes: seq<MipWrite>, offset: nat)
    requires Uploadable(t)
    ensures writes == FaceWrites(t, 0, 0, MipLevels(t))
    ensures |writes| == MipLevels(t) && Contiguous(writes, 0)
    ensures forall m :: 0 <= m < |writes| ==> writes[m].mip == m && writes[m].end == writes[m].start + MipBytes(t, m)
    ensures offset == writes[|writes| - 1].end == PrefixBytes(t, MipLevels(t))
  {
    writes, offset := PlanMips2D(t, MipLevels(t));
    FaceWritesLayout(t, 0, 0, MipLevels(t));
    FaceWritesSizes(t, 0, 0, MipLevels(t));
  }

  /** The body of the 2D loop, run for mips 0..n-1. */
  method PlanMips2D(t: Texture, n: nat) returns (writes: seq<MipWrite>, offset: nat)
    requires t.format.pixelsPerBlock >= 1
    ensures writes == FaceWrites(t, 0, 0, n)
    ensures offset == PrefixBytes(t, n)
  {
    writes := [];
    offset := 0;
    for mip := 0 to n
      invariant writes == FaceWrites(t, 0, 0, mip)
      invariant offset == PrefixBytes(t, mip)
    {
      // width_blocks * block_bytes, with `1 << mip` as 2^mip (mip < 32 here)
      var bytesPerRow := BytesPerRow(t, mip);
      // bytes_per_row * height_blocks
      var bytes := MipBytes(t, mip);
      var offsetEnd := offset + bytes;
      writes := writes + [MipWrite(0, mip, offset, offsetEnd, bytesPerRow)];
      offset := offsetEnd;
    }
  }

  /** Every 2D write reads inside the source data exactly when the data holds all uploaded mips. */
  lemma Upload2DInBounds(t: Texture)
    requires Uploadable(t)
    ensures var ws := FaceWrites(t, 0, 0, MipLevels(t));
      (forall m :: 0 <= m < |ws| ==> ws[m].start <= ws[m].end <= |t.data|)
      <==> PrefixBytes(t, MipLevels(t)) <= |t.data|
  {
    var ml := MipLevels(t);
    var ws := FaceWrites(t, 0, 0, ml);
    FaceWritesLayout(t, 0, 0, ml);
    forall m | 0 <= m < ml ensures ws[m].start <= ws[m].end <= PrefixBytes(t, ml) {
      PrefixBytesMonotone(t, m + 1, ml);
    }
    assert ws[ml - 1].end == PrefixBytes(t, ml);
  }

  /** The packed bytes of one cube face: all requested mips, uploaded or not. */
  function FaceBytes(t: Texture): nat
    requires t.format.pixelsPerBlock >= 1
  {
    PrefixBytes(t, t.mipLevels)
  }

  /**
   * The writes of the first n cube faces when `ml` mips are uploaded per
   * face; face l's data starts l whole faces into the source.
   */
  function CubeWrites(t: Texture, ml: nat, n: nat): (ws: seq<MipWrite>)
    requires t.format.pixelsPerBlock >= 1
    ensures |ws| == Mul(n, ml)
  {
    if n == 0 then [] else CubeWrites(t, ml, n - 1) + FaceWrites(t, n - 1, Mul(n - 1, FaceBytes(t)), ml)
  }

  /**
   * The cube upload loop: six layers, each laid out by `PlanCubeFace`, the
   * next face's data starting where the previous face's requested mips end.
   * `1 << mip` overflows a `u32` from mip 32 on, hence the bound on the
   * requested mip count.
   */
  method PlanUploadCube(t: Texture) returns (writes: seq<MipWrite>, offset: nat)
    requires Uploadable(t) && t.mipLevels <= U32Bits
    ensures writes == CubeWrites(t, MipLevels(t), 6)
    ensures offset == 6 * FaceBytes(t)
  {
    var maxMipLevels := MaxMipLevels(t);
    ghost var face := FaceBytes(t);
    writes := [];
    offset := 0;
    for layer := 0 to 6
      invariant writes == CubeWrites(t, MipLevels(t), layer)
      invariant offset == Mul(layer, face)
    {
      var layerWrites;
      layerWrites, offset := PlanCubeFace(t, layer, offset, maxMipLevels);
      writes := writes + layerWrites;
    }
    MulIsProduct(6, face);
  }

  /**
   * One layer of the cube loop: every requested mip is visited and advances
   * the source offset, but only mips below the clamp are written.
   */
  method PlanCubeFace(t: Texture, layer: nat, base: nat, maxMipLevels: nat) returns (writes: seq<MipWrite>, offset: nat)
    requires t.format.pixelsPerBlock >= 1
    ensures writes == FaceWrites(t, layer, base, Min(t.mipLevels, maxMipLevels))
    ensures offset == base + FaceBytes(t)
  {
    ghost var ml := Min(t.mipLevels, maxMipLevels);
    writes := [];
    offset := base;
    // Not 0..mip_levels: the unused mips are skipped over.
    for mip := 0 to t.mipLevels
      invariant writes == FaceWrites(t, layer, base, if mip <= ml then mip else ml)
      invariant offset == base + PrefixBytes(t, mip)
    {
      var bytesPerRow := BytesPerRow(t, mip);
      var bytes := MipBytes(t, mip);
      var offsetEnd := offset + bytes;
      // Only write up to the max mip level.
      if mip < maxMipLevels {
        writes := writes + [MipWrite(layer, mip, offset, offsetEnd, bytesPerRow)];
        assert writes == FaceWrites(t, layer, base, mip + 1);
      } else {
        assert writes == FaceWrites(t, layer, base, ml);
      }
      offset := offsetEnd;
    }
  }

  /**
   * Layer l of the cube plan is the layer's own face plan, starting l whole
   * faces into the data.
   */
  lemma {:induction false} CubeLayer(t: Texture, ml: nat, n: nat, l: nat)
    requires t.format.pixelsPerBlock >= 1 && l < n
    ensures Mul(l + 1, ml) <= Mul(n, ml)
    ensures CubeWrites(t, ml, n)[Mul(l, ml) .. Mul(l + 1, ml)] == FaceWrites(t, l, Mul(l, FaceBytes(t)), ml)
    decreases n
  {
    MulMonotone(l + 1, n, ml);
    var prev := CubeWrites(t, ml, n - 1);
    var face := FaceWrites(t, n - 1, Mul(n - 1, FaceBytes(t)), ml);
    assert CubeWrites(t, ml, n) == prev + face;
    if l < n - 1 {
      CubeLayer(t, ml, n - 1, l);
      SliceOfLeft(prev, face, Mul(l, ml), Mul(l + 1, ml));
    } else {
      SliceOfRight(prev, face);
    }
  }

  lemma {:induction false} MulMonotone(a: nat, b: nat, c: nat)
    requires a <= b
    ensures Mul(a, c) <= Mul(b, c)
    decreases b
  {
    if a < b {
      MulMonotone(a, b - 1, c);
    }
  }

  /**
   * The cube plan holds 6 times the clamped mip count of writes. Mips skipped
   * by the clamp still consume source bytes: the next face's first write
   * starts exactly the skipped mips' bytes after the end of this face's last
   * write.
   */
  lemma CubeSkipsUnusedBytes(t: Texture, l: nat)
    requires Uploadable(t) && l + 1 < 6
    ensures var ml := MipLevels(t); var ws := CubeWrites(t, ml, 6);
      && |ws| == 6 * ml
      && 0 < Mul(l + 1, ml) < |ws|
      && ws[Mul(l + 1, ml)].start - ws[Mul(l + 1, ml) - 1].end == PrefixBytes(t, t.mipLevels) - PrefixBytes(t, ml)
  {
    var ml := MipLevels(t);
    PrefixBytesMonotone(t, ml, t.mipLevels);
    FaceSeam(t, ml, l);
  }

  /** The seam between faces l and l+1 when `ml` of the requested mips are uploaded. */
  lemma FaceSeam(t: Texture, ml: nat, l: nat)
    requires t.format.pixelsPerBlock >= 1 && 1 <= ml <= t.mipLevels && l + 1 < 6
    ensures var ws := CubeWrites(t, ml, 6);
      && |ws| == 6 * ml
      && 0 < Mul(l + 1, ml) < |ws|
      && ws[Mul(l + 1, ml)].start - ws[Mul(l + 1, ml) - 1].end == PrefixBytes(t, t.mipLevels) - PrefixBytes(t, ml)
  {
    FaceStart(t, ml, 6, l + 1);
    FaceEnd(t, ml, 6, l);
    MulIsProduct(6, ml);
    assert Mul(l + 1, FaceBytes(t)) == Mul(l, FaceBytes(t)) + FaceBytes(t);
  }

  /** Face l of the cube plan starts l whole faces into the data. */
  lemma FaceStart(t: Texture, ml: nat, n: nat, l: nat)
    requires t.format.pixelsPerBlock >= 1 && 1 <= ml && l < n
    ensures Mul(l, ml) < |CubeWrites(t, ml, n)|
    ensures CubeWrites(t, ml, n)[Mul(l, ml)].start == Mul(l, FaceBytes(t))
  {
    var face := FaceWrites(t, l, Mul(l, FaceBytes(t)), ml);
    CubeLayer(t, ml, n, l);
    FaceWriteAt(t, l, Mul(l, FaceBytes(t)), ml, 0);
    SliceIndex(CubeWrites(t, ml, n), face, Mul(l, ml), 0);
  }

  /** Face l of the cube plan ends after the uploaded mips' bytes of that face. */
  lemma FaceEnd(t: Texture, ml: nat, n: nat, l: nat)
    requires t.format.pixelsPerBlock >= 1 && 1 <= ml && l < n
    ensures 0 < Mul(l + 1, ml) <= |CubeWrites(t, ml, n)|
    ensures CubeWrites(t, ml, n)[Mul(l + 1, ml) - 1].end == Mul(l, FaceBytes(t)) + PrefixBytes(t, ml)
  {
    var face := FaceWrites(t, l, Mul(l, FaceBytes(t)), ml);
    CubeLayer(t, ml, n, l);
    FaceWriteAt(t, l, Mul(l, FaceBytes(t)), ml, ml - 1);
    SliceIndex(CubeWrites(t, ml, n), face, Mul(l, ml), ml - 1);
  }

  /**
   * Every cube write reads inside the source data exactly when the data
   * reaches the end of the last face's uploaded mips.
   */
  lemma UploadCubeInBounds(t: Texture)
    requires Uploadable(t)
    ensures var ws := CubeWrites(t, MipLevels(t), 6);
      (forall i :: 0 <= i < |ws| ==> ws[i].start <= ws[i].end <= |t.data|)
      <==> Mul(5, FaceBytes(t)) + PrefixBytes(t, MipLevels(t)) <= |t.data|
  {
    var ml := MipLevels(t);
    var ws := CubeWrites(t, ml, 6);
    FaceEnd(t, ml, 6, 5);
    forall i | 0 <= i < |ws| ensures ws[i].start <= ws[i].end <= Mul(5, FaceBytes(t)) + PrefixBytes(t, ml) {
      CubeWriteBound(t, ml, 6, i);
    }
  }

  /** Every write of the first n faces lies before the end of face n-1's uploaded mips. */
  lemma {:induction false} CubeWriteBound(t: Texture, ml: nat, n: nat, i: nat)
    requires t.format.pixelsPerBlock >= 1 && ml <= t.mipLevels && 1 <= n
    requires i < |CubeWrites(t, ml, n)|
    ensures CubeWrites(t, ml, n)[i].start <= CubeWrites(t, ml, n)[i].end <= Mul(n - 1, FaceBytes(t)) + PrefixBytes(t, ml)
    decreases n
  {
    var prev := CubeWrites(t, ml, n - 1);
    var base := Mul(n - 1, FaceBytes(t));
    var face := FaceWrites(t, n - 1, base, ml);
    assert CubeWrites(t, ml, n) == prev + face;
    if i < |prev| {
      CubeWriteBound(t, ml, n - 1, i);
      PrefixBytesMonotone(t, ml, t.mipLevels);
    } else {
      var k := i - |prev|;
      assert CubeWrites(t, ml, n)[i] == face[k];
      FaceWriteAt(t, n - 1, base, ml, k);
      PrefixBytesMonotone(t, k + 1, ml);
      PrefixStep(t, k);
    }
  }

  /**
   * The workaround's purpose: for a power-of-two block width, every mip
   * below the clamp is at least one block wide and high.
   */
  lemma MipsStayAboveBlock(t: Texture, k: nat, m: nat)
    requires Uploadable(t) && t.format.pixelsPerBlock == Pow2(k)
    requires m < MaxMipLevels(t)
    ensures Shr(t.width, m) >= t.format.pixelsPerBlock
    ensures Shr(t.height, m) >= t.format.pixelsPerBlock
  {
    var small := SmallerDim(t);
    var top := Log2(small);
    Log2Unique(Pow2(k), k);
    assert k + m <= top;
    Log2Bounds(small);
    BlockFitsMip(small, top, k, m);
    ShrLowerBound(t.width, m, Pow2(k));
    ShrLowerBound(t.height, m, Pow2(k));
  }

  /** m halvings of 2^top leave at least 2^k when k + m <= top. */
  lemma BlockFitsMip(small: nat, top: nat, k: nat, m: nat)
    requires Pow2(top) <= small && k + m <= top
    ensures Mul(Pow2(k), Pow2(m)) <= small
  {
    var j := top - m;
    assert j + m == top;
    Pow2AddMul(j, m);
    Pow2Monotone(k, j);
    MulMonotone(Pow2(k), Pow2(j), Pow2(m));
  }

  lemma Pow2AddMul(a: nat, b: nat)
    ensures Pow2(a + b) == Mul(Pow2(a), Pow2(b))
  {
    Pow2Add(a, b);
    MulIsProduct(Pow2(a), Pow2(b));
  }

  /** 256x256 with 4-pixel blocks allows 8 - 2 + 1 = 7 mips; with four requested, four are made. */
  lemma Example256Levels(t: Texture)
    requires t.width == 256 && t.height == 256 && t.format == TextureFormat(4, 8) && t.mipLevels == 4
    ensures Uploadable(t) && MaxMipLevels(t) == 7 && MipLevels(t) == 4
  {
    Log2Unique(256, 8);
    Log2Unique(4, 2);
  }

  /** None of the four uploaded mips of the 256x256 example is smaller than a block. */
  lemma Example256Mips(t: Texture)
    requires t.width == 256 && t.height == 256 && t.format == TextureFormat(4, 8) && t.mipLevels == 4
    ensures forall m :: 0 <= m < 4 ==> Shr(t.width, m) >= 4 && Shr(t.height, m) >= 4
  {
    Example256Levels(t);
    forall m | 0 <= m < 4 ensures Shr(t.width, m) >= 4 && Shr(t.height, m) >= 4 {
      MipsStayAboveBlock(t, 2, m);
    }
  }

  /** With 8-byte blocks the four mips of the 256x256 example take 32768, 8192, 2048 and 512 bytes. */
  lemma Example256Bytes(t: Texture)
    requires t.width == 256 && t.height == 256 && t.format == TextureFormat(4, 8)
    ensures MipBytes(t, 0) == 32768 && MipBytes(t, 1) == 8192
    ensures MipBytes(t, 2) == 2048 && MipBytes(t, 3) == 512
  {
    Example256Mip0(t);
    Example256Mip1(t);
    Example256Mip2(t);
    Example256Mip3(t);
  }

  // One lemma per mip keeps each proof's context small.
  lemma Example256Mip0(t: Texture)
    requires t.width == 256 && t.height == 256 && t.format == TextureFormat(4, 8)
    ensures MipBytes(t, 0) == 32768
  {
    SquareMip(t, 0, 64, 512, 32768);
  }

  lemma Example256Mip1(t: Texture)
    requires t.width == 256 && t.height == 256 && t.format == TextureFormat(4, 8)
    ensures MipBytes(t, 1) == 8192
  {
    SquareMip(t, 1, 32, 256, 8192);
  }

  lemma Example256Mip2(t: Texture)
    requires t.width == 256 && t.height == 256 && t.format == TextureFormat(4, 8)
    ensures MipBytes(t, 2) == 2048
  {
    SquareMip(t, 2, 16, 128, 2048);
  }

  lemma Example256Mip3(t: Texture)
    requires t.width == 256 && t.height == 256 && t.format == TextureFormat(4, 8)
    ensures MipBytes(t, 3) == 512
  {
    SquareMip(t, 3, 8, 64, 512);
  }

  /** The four mips of the 256x256 example are packed into 43520 bytes. */
  lemma Example256Prefix(t: Texture)
    requires t.width == 256 && t.height == 256 && t.format == TextureFormat(4, 8)
    ensures PrefixBytes(t, 4) == 43520
  {
    Example256Bytes(t);
    assert PrefixBytes(t, 1) == 32768;
    assert PrefixBytes(t, 2) == 40960;
    assert PrefixBytes(t, 3) == 43008;
  }

  /** The bytes of a square mip `blocks` blocks wide, with `row` bytes per row and `bytes` in all. */
  lemma SquareMip(t: Texture, mip: nat, blocks: nat, row: nat, bytes: nat)
    requires t.format.pixelsPerBlock >= 1 && t.width == t.height
    requires Shr(t.width, mip) == blocks * t.format.pixelsPerBlock
    requires row == blocks * t.format.bytesPerBlock && bytes == row * blocks
    ensures BytesPerRow(t, mip) == row && MipBytes(t, mip) == bytes
  {
    MulIsProduct(blocks, t.format.pixelsPerBlock);
    MipBlocksExact(t.width, mip, t.format.pixelsPerBlock, blocks);
    MulIsProduct(blocks, t.format.bytesPerBlock);
    MulIsProduct(row, blocks);
  }

  /** An extent of a whole number of blocks needs exactly that many blocks. */
  lemma MipBlocksExact(dim: nat, mip: nat, bw: nat, blocks: nat)
    requires bw >= 1 && Shr(dim, mip) == Mul(blocks, bw)
    ensures MipBlocks(dim, mip, bw) == blocks
  {
    CeilDivExact(blocks, bw);
  }

  /** Rounding a multiple of m up to a multiple of m leaves it unchanged. */
  lemma RoundExact(q: nat, m: nat)
    requires m >= 1
    ensures RoundToMultiple(Mul(q, m), m) == Mul(q, m)
  {
    CeilDivExact(q, m);
  }

  /** The quotient is the only q with n = q*m + r and 0 <= r < m. */
  lemma DivUnique(n: int, m: int, q: int, r: int)
    requires m >= 1 && n == q * m + r && 0 <= r < m
    ensures n / m == q
  {
    var k := n / m - q;
    assert n == n / m * m + n % m;
    assert m * k == r - n % m;
    MulAwayFromZero(m, k);
  }

  lemma MulAwayFromZero(m: int, k: int)
    requires m >= 1
    ensures k >= 1 ==> m * k >= m
    ensures k <= -1 ==> m * k <= -m
  {
    if k >= 1 {
      assert m * k == m * (k - 1) + m;
    } else if k <= -1 {
      assert m * k == m * (k + 1) - m;
    }
  }
}
