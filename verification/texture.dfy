/**
 * CD3DTexture (core/hw/d3dtexture.cpp): the mip-level check of Init, the
 * byte size registered with the resource manager, DetermineLevels, the
 * lazily created views, and the clipped copy of ReadIntoSysMemBuffer.
 *
 * UINT arithmetic is written out modulo 2^32.  D3D calls are parameters.
 */
module Textures {
  import opened HResults

  /** The level-0 description kept in m_sdLevel0. */
  datatype TextureDesc = TextureDesc(width: nat, height: nat, mipLevels: nat, format: nat)

  const MAX_MIP_LEVELS: nat := 32

  // ---- size accounting ----

  /** area >> 2l: each level has a quarter of the pixels of the one above. */
  function LevelArea(area: nat, l: nat): nat
  {
    if l == 0 then area else LevelArea(area, l - 1) / 4
  }

  /** The exact byte count of the first n levels. */
  function TextureBytes(area: nat, pixelSize: nat, n: nat): nat
  {
    if n == 0 then 0 else TextureBytes(area, pixelSize, n - 1) + LevelArea(area, n - 1) * pixelSize
  }

  lemma ModAdd(a: nat, b: nat)
    ensures (a % TWO32 + b % TWO32) % TWO32 == (a + b) % TWO32
  {
  }

  /** The pixels of the first n levels. */
  function AreaSum(area: nat, n: nat): nat
  {
    if n == 0 then 0 else AreaSum(area, n - 1) + LevelArea(area, n - 1)
  }

  lemma {:induction false} TextureBytesIsAreaSum(area: nat, pixelSize: nat, n: nat)
    ensures TextureBytes(area, pixelSize, n) == AreaSum(area, n) * pixelSize
  {
    if n > 0 {
      TextureBytesIsAreaSum(area, pixelSize, n - 1);
      Distrib(AreaSum(area, n - 1), LevelArea(area, n - 1), pixelSize);
    }
  }

  /** In pixels: 3 * (first n levels) + 4 * (level n) <= 4 * level 0. */
  lemma {:induction false} AreaSumBound(area: nat, n: nat)
    ensures 3 * AreaSum(area, n) + 4 * LevelArea(area, n) <= 4 * area
  {
    if n > 0 {
      AreaSumBound(area, n - 1);
    }
  }

  /**
   * The mip chain never costs more than a third on top of level 0: with
   * the remaining level's area, 3 * total + 4 * next <= 4 * level 0.
   */
  lemma TextureBytesBound(area: nat, pixelSize: nat, n: nat)
    ensures 3 * TextureBytes(area, pixelSize, n) + 4 * (LevelArea(area, n) * pixelSize) <= 4 * (area * pixelSize)
  {
    TextureBytesIsAreaSum(area, pixelSize, n);
    AreaSumBound(area, n);
    var a, l := AreaSum(area, n), LevelArea(area, n);
    MulLe(3 * a + 4 * l, 4 * area, pixelSize);
    ScaleSum(a, l, area, pixelSize);
  }

  lemma Distrib(a: nat, l: nat, s: nat)
    ensures (a + l) * s == a * s + l * s
  {
  }

  lemma ScaleSum(a: nat, l: nat, area: nat, s: nat)
    ensures (3 * a + 4 * l) * s == 3 * (a * s) + 4 * (l * s)
    ensures (4 * area) * s == 4 * (area * s)
  {
  }

  /** Adding levels never shrinks the exact size. */
  lemma {:induction false} TextureBytesMonotone(area: nat, pixelSize: nat, n: nat, m: nat)
    requires n <= m
    ensures TextureBytes(area, pixelSize, n) <= TextureBytes(area, pixelSize, m)
    decreases m - n
  {
    if n < m {
      TextureBytesMonotone(area, pixelSize, n, m - 1);
      var level: nat := LevelArea(area, m - 1) * pixelSize;
      assert TextureBytes(area, pixelSize, m) == TextureBytes(area, pixelSize, m - 1) + level;
    }
  }

  // ---- DetermineLevels ----

  /** Floor of the base-2 logarithm; 0 for 0 and 1. */
  function Log2(x: nat): nat
  {
    if x <= 1 then 0 else 1 + Log2(x / 2)
  }

  function Pow2(k: nat): (r: nat)
    ensures r >= 1
  {
    if k == 0 then 1 else 2 * Pow2(k - 1)
  }

  lemma {:induction false} Log2Bounds(x: nat)
    requires x >= 1
    ensures Pow2(Log2(x)) <= x < Pow2(Log2(x) + 1)
  {
    if x > 1 {
      Log2Bounds(x / 2);
    }
  }

  datatype MipMapLevel = TMML_One | TMML_All

  /** DetermineLevels: one level, or one per halving of the larger side down to 1. */
  function DetermineLevels(mip: MipMapLevel, width: nat, height: nat): nat
  {
    if mip == TMML_One then 1
    else Log2(if width > height then width else height) + 1
  }

  /**
   * A full chain has L levels where 2^(L-1) <= max(width, height) < 2^L:
   * level L-1 is the first whose larger side is 1.
   */
  lemma DetermineLevelsSpec(mip: MipMapLevel, width: nat, height: nat)
    ensures mip == TMML_One ==> DetermineLevels(mip, width, height) == 1
    ensures mip == TMML_All && (width >= 1 || height >= 1) ==>
      var m := if width > height then width else height;
      var l := DetermineLevels(mip, width, height);
      l >= 1 && Pow2(l - 1) <= m < Pow2(l)
  {
    if mip == TMML_All && (width >= 1 || height >= 1) {
      Log2Bounds(if width > height then width else height);
    }
  }

  // ---- rectangles and the clipped copy ----

  /** CMilRectU: unsigned edges, right and bottom exclusive. */
  datatype RectU = RectU(left: nat, top: nat, right: nat, bottom: nat)

  function Width(r: RectU): nat { if r.right >= r.left then r.right - r.left else 0 }
  function Height(r: RectU): nat { if r.bottom >= r.top then r.bottom - r.top else 0 }

  predicate InRect(r: RectU, x: nat, y: nat)
  {
    r.left <= x < r.right && r.top <= y < r.bottom
  }

  /** CMilRectU::Intersect: the overlap, or None when it is empty. */
  function IntersectU(a: RectU, b: RectU): (r: Option<RectU>)
    ensures r.Some? ==> r.value.left < r.value.right && r.value.top < r.value.bottom
  {
    var l := if a.left > b.left then a.left else b.left;
    var t := if a.top > b.top then a.top else b.top;
    var rt := if a.right < b.right then a.right else b.right;
    var bt := if a.bottom < b.bottom then a.bottom else b.bottom;
    if l < rt && t < bt then Some(RectU(l, t, rt, bt)) else None
  }

  /** The intersection holds exactly the points of both; it is None only when they share none. */
  lemma IntersectUContains(a: RectU, b: RectU, x: nat, y: nat)
    ensures IntersectU(a, b).Some? ==> (InRect(IntersectU(a, b).value, x, y) <==> InRect(a, x, y) && InRect(b, x, y))
    ensures IntersectU(a, b).None? ==> !(InRect(a, x, y) && InRect(b, x, y))
  {
  }

  predicate InSomeClip(clips: seq<RectU>, x: nat, y: nat)
  {
    exists k :: 0 <= k < |clips| && InRect(clips[k], x, y)
  }

  /** The clip list the copy loop walks: the source itself when none is given. */
  function EffectiveClips(src: RectU, clips: seq<RectU>): seq<RectU>
  {
    if |clips| == 0 then [src] else clips
  }

  /**
   * Byte x of output row r (both counted from the source's top-left corner)
   * belongs to pixel (src.left + x / bpp, src.top + r); it lies in clip c
   * when that pixel does, which in bytes reads
   * c.left * bpp <= src.left * bpp + x < c.right * bpp.
   */
  predicate ByteInClip(c: RectU, src: RectU, bpp: nat, r: nat, x: nat)
  {
    c.top <= src.top + r < c.bottom && c.left * bpp <= src.left * bpp + x < c.right * bpp
  }

  /** The bytes ReadIntoSysMemBuffer copies: inside the source and some clip. */
  predicate Copied(src: RectU, clips: seq<RectU>, bpp: nat, r: nat, x: nat)
  {
    r < Height(src) && x < bpp * Width(src)
    && exists k :: 0 <= k < |clips| && ByteInClip(clips[k], src, bpp, r, x)
  }

  /** Byte x of staging row r (zero past the end; CopiedInStaging shows copied bytes never are). */
  function StagingByte(staging: seq<seq<byte>>, r: nat, x: nat): byte
  {
    if r < |staging| && x < |staging[r]| then staging[r][x] else 0
  }

  lemma MulLe(a: nat, b: nat, s: nat)
    ensures a <= b ==> a * s <= b * s
  {
    if a <= b {
      assert b * s == a * s + (b - a) * s;
    }
  }

  lemma DivRange(x: nat, b: nat, lo: nat, hi: nat)
    requires b > 0
    ensures lo * b <= x < hi * b <==> lo <= x / b < hi
  {
    var q := x / b;
    assert x == q * b + x % b;
    MulLe(lo, q, b);
    MulLe(q + 1, lo, b);
    MulLe(q + 1, hi, b);
    MulLe(hi, q, b);
    assert (q + 1) * b == q * b + b;
  }

  /** Shifting by whole multiples of b shifts the quotient by as many. */
  lemma DivShift(a: nat, x: nat, b: nat)
    requires b > 0
    ensures (a * b + x) / b == a + x / b
  {
    var q := x / b;
    assert x == q * b + x % b;
    assert (a + q) * b == a * b + q * b;
    assert (a + q + 1) * b == (a + q) * b + b;
    DivRange(a * b + x, b, a + q, a + q + 1);
  }

  /** A byte is copied exactly when the pixel it belongs to is inside the source and a clip rectangle. */
  lemma ByteInClipIsPixelInClip(c: RectU, src: RectU, bpp: nat, r: nat, x: nat)
    requires bpp > 0
    ensures ByteInClip(c, src, bpp, r, x) <==> InRect(c, src.left + x / bpp, src.top + r)
    ensures x < bpp * Width(src) && src.left <= src.right <==> x / bpp < Width(src)
  {
    DivShift(src.left, x, bpp);
    DivRange(src.left * bpp + x, bpp, c.left, c.right);
    DivRange(x, bpp, 0, Width(src));
    assert bpp * Width(src) == Width(src) * bpp;
  }

  /** In pixels: a byte is copied iff its pixel is inside the source rectangle and some clip rectangle. */
  lemma CopiedIsPixelInClip(src: RectU, clips: seq<RectU>, bpp: nat, r: nat, x: nat)
    requires bpp > 0 && src.left <= src.right
    ensures Copied(src, clips, bpp, r, x)
            <==> (InRect(src, src.left + x / bpp, src.top + r) && InSomeClip(clips, src.left + x / bpp, src.top + r))
  {
    var px, py := src.left + x / bpp, src.top + r;
    ByteInClipIsPixelInClip(src, src, bpp, r, x);
    if Copied(src, clips, bpp, r, x) {
      var k :| 0 <= k < |clips| && ByteInClip(clips[k], src, bpp, r, x);
      ByteInClipIsPixelInClip(clips[k], src, bpp, r, x);
    }
    if InRect(src, px, py) && InSomeClip(clips, px, py) {
      var k :| 0 <= k < |clips| && InRect(clips[k], px, py);
      ByteInClipIsPixelInClip(clips[k], src, bpp, r, x);
    }
  }

  /** GpMemcpy of n bytes from row[lo..] into row r of out. */
  method CopyRow(out: array2<byte>, r: nat, row: seq<byte>, lo: nat, n: nat)
    requires r < out.Length0 && lo + n <= out.Length1 && lo + n <= |row|
    modifies out
    ensures forall i, j :: 0 <= i < out.Length0 && 0 <= j < out.Length1 ==>
      out[i, j] == (if i == r && lo <= j < lo + n then row[j] else old(out[i, j]))
  {
    var k := 0;
    while k < n
      invariant k <= n
      invariant forall i, j :: 0 <= i < out.Length0 && 0 <= j < out.Length1 ==>
        out[i, j] == (if i == r && lo <= j < lo + k then row[j] else old(out[i, j]))
    {
      out[r, lo + k] := row[lo + k];
      k := k + 1;
    }
  }

  /** Byte x of row r is in rows [rc.top, rowsEnd) of rc's span. */
  predicate InRows(src: RectU, rc: RectU, bpp: nat, rowsEnd: nat, r: nat, x: nat)
  {
    rc.top <= src.top + r < rowsEnd && rc.left * bpp <= src.left * bpp + x < rc.right * bpp
  }

  /** The byte span of rc's columns within a row of the source. */
  lemma RowSpan(src: RectU, rc: RectU, bpp: nat)
    requires src.left <= rc.left < rc.right <= src.right
    ensures (rc.left - src.left) * bpp == rc.left * bpp - src.left * bpp
    ensures (rc.left - src.left) * bpp + (rc.right - rc.left) * bpp == rc.right * bpp - src.left * bpp
    ensures rc.right * bpp - src.left * bpp <= bpp * Width(src)
  {
    MulLe(rc.right, src.right, bpp);
    Distrib(rc.left - src.left, src.left, bpp);
    Distrib(rc.right - rc.left, rc.left, bpp);
    assert bpp * Width(src) == (src.right - src.left) * bpp;
    Distrib(src.right - src.left, src.left, bpp);
  }

  /** The do-while body for one clip rectangle rc, already intersected with src. */
  method CopyClipRows(out: array2<byte>, src: RectU, rc: RectU, bpp: nat, staging: seq<seq<byte>>)
    requires src.left <= rc.left < rc.right <= src.right && src.top <= rc.top < rc.bottom <= src.bottom
    requires Height(src) <= out.Length0 && bpp * Width(src) <= out.Length1
    requires Height(src) <= |staging| && forall r :: 0 <= r < Height(src) ==> bpp * Width(src) <= |staging[r]|
    modifies out
    ensures forall r, x :: 0 <= r < out.Length0 && 0 <= x < out.Length1 ==>
      out[r, x] == (if InRows(src, rc, bpp, rc.bottom, r, x) then StagingByte(staging, r, x) else old(out[r, x]))
  {
    var lo := (rc.left - src.left) * bpp;
    var n := (rc.right - rc.left) * bpp;
    RowSpan(src, rc, bpp);
    var i := rc.top;
    while i < rc.bottom
      invariant rc.top <= i <= rc.bottom
      invariant forall r, x :: 0 <= r < out.Length0 && 0 <= x < out.Length1 ==>
        out[r, x] == (if InRows(src, rc, bpp, i, r, x) then StagingByte(staging, r, x) else old(out[r, x]))
    {
      var r := i - src.top;
      CopyRow(out, r, staging[r], lo, n);
      i := i + 1;
    }
  }

  /** A clip's rows written by CopyClipRows are exactly the bytes inside the source and that clip. */
  lemma ClipRowsAreCopied(src: RectU, clip: RectU, bpp: nat, r: nat, x: nat)
    requires src.left <= src.right && src.top <= src.bottom
    ensures var rc := IntersectU(clip, src);
      (rc.Some? && InRows(src, rc.value, bpp, rc.value.bottom, r, x))
      <==> (r < Height(src) && x < bpp * Width(src) && ByteInClip(clip, src, bpp, r, x))
  {
    var rc := IntersectU(clip, src);
    if bpp == 0 {
      assert !(x < bpp * Width(src));
      if rc.Some? {
        assert !InRows(src, rc.value, bpp, rc.value.bottom, r, x);
      }
    } else {
      var px, py := src.left + x / bpp, src.top + r;
      ByteInClipIsPixelInClip(clip, src, bpp, r, x);
      ByteInClipIsPixelInClip(src, src, bpp, r, x);
      IntersectUContains(clip, src, px, py);
      if rc.Some? {
        ByteInClipIsPixelInClip(rc.value, src, bpp, r, x);
        assert InRows(src, rc.value, bpp, rc.value.bottom, r, x) <==> InRect(rc.value, px, py);
      }
    }
  }

  /** One more clip rectangle adds exactly the bytes CopyClipRows writes for it. */
  lemma CopiedStep(src: RectU, rects: seq<RectU>, k: nat, bpp: nat, r: nat, x: nat)
    requires k < |rects| && src.left <= src.right && src.top <= src.bottom
    ensures var rc := IntersectU(rects[k], src);
      Copied(src, rects[..k + 1], bpp, r, x)
      <==> Copied(src, rects[..k], bpp, r, x) || (rc.Some? && InRows(src, rc.value, bpp, rc.value.bottom, r, x))
  {
    CopiedAppend(src, rects, k, bpp, r, x);
    ClipRowsAreCopied(src, rects[k], bpp, r, x);
  }

  /** The bytes of k + 1 clips are those of the first k and those of clip k. */
  lemma CopiedAppend(src: RectU, rects: seq<RectU>, k: nat, bpp: nat, r: nat, x: nat)
    requires k < |rects|
    ensures Copied(src, rects[..k + 1], bpp, r, x)
      <==> Copied(src, rects[..k], bpp, r, x) || (r < Height(src) && x < bpp * Width(src) && ByteInClip(rects[k], src, bpp, r, x))
  {
    if Copied(src, rects[..k + 1], bpp, r, x) && !Copied(src, rects[..k], bpp, r, x) {
      var j :| 0 <= j < k + 1 && ByteInClip(rects[..k + 1][j], src, bpp, r, x);
      assert j == k;
    }
    if Copied(src, rects[..k], bpp, r, x) {
      var j :| 0 <= j < k && ByteInClip(rects[..k][j], src, bpp, r, x);
      assert rects[..k + 1][j] == rects[..k][j];
    }
    if r < Height(src) && x < bpp * Width(src) && ByteInClip(rects[k], src, bpp, r, x) {
      assert rects[..k + 1][k] == rects[k];
    }
  }

  /** Every copied byte is inside the staging copy, so StagingByte never falls back to zero for it. */
  lemma CopiedInStaging(src: RectU, clips: seq<RectU>, bpp: nat, staging: seq<seq<byte>>, r: nat, x: nat)
    requires Height(src) <= |staging| && forall i :: 0 <= i < Height(src) ==> bpp * Width(src) <= |staging[i]|
    ensures Copied(src, clips, bpp, r, x) ==> r < |staging| && x < |staging[r]| && StagingByte(staging, r, x) == staging[r][x]
  {
  }

  /** The kinds of view created on demand. */
  datatype ViewKind = DepthStencil | RenderTarget | ShaderResource

  class Texture {
    var levels: nat                        // m_cLevels
    var level0: Option<TextureDesc>        // m_sdLevel0
    var resourceSize: Option<nat>          // size given to CD3DResource::Init
    var texture: Option<nat>               // m_pD3DTexture
    var depthStencilView: Option<nat>      // m_pDepthStencilView
    var renderTargetView: Option<nat>      // m_pRenderTargetView
    var shaderResourceView: Option<nat>    // m_pShaderResourceView
    var viewCreations: seq<ViewKind>       // Create*View calls made
    var mipGenerations: seq<Option<nat>>   // GenerateMips calls, with the view passed

    constructor ()
      ensures levels == 0 && level0.None? && resourceSize.None? && texture.None?
      ensures depthStencilView.None? && renderTargetView.None? && shaderResourceView.None?
      ensures viewCreations == [] && mipGenerations == []
    {
      levels := 0;
      level0 := None;
      resourceSize := None;
      texture := None;
      depthStencilView := None;
      renderTargetView := None;
      shaderResourceView := None;
      viewCreations := [];
      mipGenerations := [];
    }

    /**
     * InitResource: the size of every level of the wrapped texture, added up
     * in UINT; a format of unknown pixel size fails before anything is
     * registered.
     */
    method InitResource(desc: TextureDesc, handle: nat, pixelSize: nat) returns (hr: HRESULT)
      modifies this`resourceSize, this`texture
      ensures levels >= 1 && pixelSize == 0 ==>
        hr == D3DERR_WRONGTEXTUREFORMAT && resourceSize == old(resourceSize) && texture == old(texture)
      ensures levels == 0 || pixelSize > 0 ==>
        && hr == S_OK && texture == Some(handle)
        && resourceSize == Some(TextureBytes(MulU32(desc.width, desc.height), pixelSize, levels) % TWO32)
    {
      var area := MulU32(desc.width, desc.height);
      var size: nat := 0;
      var l: nat := 0;
      while l < levels
        invariant l <= levels && (l > 0 ==> pixelSize > 0)
        invariant resourceSize == old(resourceSize) && texture == old(texture)
        invariant size == TextureBytes(area, pixelSize, l) % TWO32
      {
        if pixelSize == 0 {
          return D3DERR_WRONGTEXTUREFORMAT;
        }
        ModAdd(TextureBytes(area, pixelSize, l), LevelArea(area, l) * pixelSize);
        size := AddU32(size, MulU32(LevelArea(area, l), pixelSize));
        l := l + 1;
      }
      resourceSize := Some(size);
      texture := Some(handle);
      hr := S_OK;
    }

    /**
     * Init(texture): a level count outside [1, 32] fails with E_FAIL;
     * otherwise level 0 is remembered and the resource initialised.
     */
    method Init(desc: TextureDesc, handle: nat, pixelSize: nat) returns (hr: HRESULT)
      requires texture.None?
      modifies this`levels, this`level0, this`resourceSize, this`texture
      ensures levels == desc.mipLevels
      ensures !(1 <= desc.mipLevels <= MAX_MIP_LEVELS) ==>
        hr == E_FAIL && level0 == old(level0) && resourceSize == old(resourceSize) && texture.None?
      ensures 1 <= desc.mipLevels <= MAX_MIP_LEVELS && pixelSize == 0 ==>
        hr == D3DERR_WRONGTEXTUREFORMAT && level0 == Some(desc) && resourceSize == old(resourceSize) && texture.None?
      ensures 1 <= desc.mipLevels <= MAX_MIP_LEVELS && pixelSize > 0 ==>
        && hr == S_OK && level0 == Some(desc) && texture == Some(handle)
        && resourceSize == Some(TextureBytes(MulU32(desc.width, desc.height), pixelSize, desc.mipLevels) % TWO32)
    {
      levels := desc.mipLevels;
      if levels < 1 || levels > MAX_MIP_LEVELS {
        return E_FAIL;
      }
      level0 := Some(desc);
      hr := InitResource(desc, handle, pixelSize);
    }

    /** GetTextureSize: the level-0 dimensions. */
    method GetTextureSize() returns (width: nat, height: nat)
      requires level0.Some?
      ensures width == level0.value.width && height == level0.value.height
    {
      width := level0.value.width;
      height := level0.value.height;
    }

    /** GetShaderResourceViewNoAddRef: created only while the field is empty; a failed creation leaves it empty. */
    method GetShaderResourceView(created: Option<nat>) returns (view: Option<nat>)
      modifies this`shaderResourceView, this`viewCreations
      ensures old(shaderResourceView).Some? ==>
        view == old(shaderResourceView) && shaderResourceView == view && viewCreations == old(viewCreations)
      ensures old(shaderResourceView).None? ==>
        view == created && shaderResourceView == created && viewCreations == old(viewCreations) + [ShaderResource]
    {
      if shaderResourceView.None? {
        viewCreations := viewCreations + [ShaderResource];
        shaderResourceView := created;
      }
      view := shaderResourceView;
    }

    /** GetRenderTargetViewNoAddRef. */
    method GetRenderTargetView(created: Option<nat>) returns (view: Option<nat>)
      modifies this`renderTargetView, this`viewCreations
      ensures old(renderTargetView).Some? ==>
        view == old(renderTargetView) && renderTargetView == view && viewCreations == old(viewCreations)
      ensures old(renderTargetView).None? ==>
        view == created && renderTargetView == created && viewCreations == old(viewCreations) + [RenderTarget]
    {
      if renderTargetView.None? {
        viewCreations := viewCreations + [RenderTarget];
        renderTargetView := created;
      }
      view := renderTargetView;
    }

    /** GetDepthStencilViewNoAddRef. */
    method GetDepthStencilView(created: Option<nat>) returns (view: Option<nat>)
      modifies this`depthStencilView, this`viewCreations
      ensures old(depthStencilView).Some? ==>
        view == old(depthStencilView) && depthStencilView == view && viewCreations == old(viewCreations)
      ensures old(depthStencilView).None? ==>
        view == created && depthStencilView == created && viewCreations == old(viewCreations) + [DepthStencil]
    {
      if depthStencilView.None? {
        viewCreations := viewCreations + [DepthStencil];
        depthStencilView := created;
      }
      view := depthStencilView;
    }

    /** UpdateMipmapLevels: GenerateMips on the shader-resource view only when there is more than one level. */
    method UpdateMipmapLevels(created: Option<nat>) returns (hr: HRESULT)
      modifies this`shaderResourceView, this`viewCreations, this`mipGenerations
      ensures hr == S_OK
      ensures levels <= 1 ==>
        && shaderResourceView == old(shaderResourceView)
        && viewCreations == old(viewCreations) && mipGenerations == old(mipGenerations)
      ensures levels > 1 ==>
        && shaderResourceView == (if old(shaderResourceView).Some? then old(shaderResourceView) else created)
        && mipGenerations == old(mipGenerations) + [shaderResourceView]
        && viewCreations == old(viewCreations) + (if old(shaderResourceView).None? then [ShaderResource] else [])
    {
      hr := S_OK;
      if levels > 1 {
        var view := GetShaderResourceView(created);
        mipGenerations := mipGenerations + [view];
      }
    }

    /**
     * ReadIntoSysMemBuffer(src, clips, bits, out): staging holds the rows of
     * the mapped copy of the source rectangle, out the rows of the caller's
     * buffer (row r at r * stride).  A pixel size that is not whole bytes
     * fails with WGXERR_INVALIDPARAMETER; the stride computation and the
     * staging texture can fail (strideHr, stagingHr).  On success exactly
     * the bytes of pixels inside the source and some clip rectangle (the
     * source itself when there are none) are copied, at the same row and
     * offset; every other byte of out keeps its value.
     */
    method ReadIntoSysMemBuffer(src: RectU, clips: seq<RectU>, bitsPerPixel: nat,
                                strideHr: HRESULT, stagingHr: HRESULT,
                                staging: seq<seq<byte>>, out: array2<byte>)
      returns (hr: HRESULT)
      requires src.left <= src.right && src.top <= src.bottom
      requires Height(src) <= out.Length0 && (bitsPerPixel / 8) * Width(src) <= out.Length1
      requires Height(src) <= |staging|
      requires forall r :: 0 <= r < Height(src) ==> (bitsPerPixel / 8) * Width(src) <= |staging[r]|
      modifies out
      ensures bitsPerPixel % 8 != 0 ==> hr == WGXERR_INVALIDPARAMETER
      ensures bitsPerPixel % 8 == 0 ==> hr == (if Failed(strideHr) then strideHr else if Failed(stagingHr) then stagingHr else S_OK)
      ensures forall r, x :: 0 <= r < out.Length0 && 0 <= x < out.Length1 ==>
        out[r, x] == (if Succeeded(hr) && Copied(src, EffectiveClips(src, clips), bitsPerPixel / 8, r, x)
                      then StagingByte(staging, r, x) else old(out[r, x]))
    {
      if bitsPerPixel % 8 != 0 {
        return WGXERR_INVALIDPARAMETER;
      }
      if Failed(strideHr) {
        return strideHr;
      }
      if Failed(stagingHr) {
        return stagingHr;
      }
      hr := S_OK;
      var bpp := bitsPerPixel / 8;
      var rects := EffectiveClips(src, clips);
      var k := 0;
      while k < |rects|
        invariant k <= |rects|
        invariant forall r, x :: 0 <= r < out.Length0 && 0 <= x < out.Length1 ==>
          out[r, x] == (if Copied(src, rects[..k], bpp, r, x) then StagingByte(staging, r, x) else old(out[r, x]))
      {
        var rc := IntersectU(rects[k], src);
        if rc.Some? {
          CopyClipRows(out, src, rc.value, bpp, staging);
        }
        forall r, x | 0 <= r < out.Length0 && 0 <= x < out.Length1
          ensures out[r, x] == (if Copied(src, rects[..k + 1], bpp, r, x) then StagingByte(staging, r, x) else old(out[r, x]))
        {
          CopiedStep(src, rects, k, bpp, r, x);
        }
        k := k + 1;
      }
      assert rects[..|rects|] == rects;
    }
  }
}
