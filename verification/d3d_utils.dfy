/**
 * Generic Direct3D helpers (core/common/d3dutils.cpp): filling in a
 * texture description, and the chain of ever richer surface formats.
 */
module D3DUtils {

  // dxgiformat.h
  const DXGI_FORMAT_B8G8R8A8_UNORM: nat := 87

  /**
   * D3D11_TEXTURE2D_DESC.  Usage, bind, CPU-access and misc flags and the
   * sample quality are kept so that zeroing them is visible.
   */
  datatype Texture2DDesc = Texture2DDesc(
    width: nat, height: nat, mipLevels: nat, arraySize: nat, format: nat,
    sampleCount: nat, sampleQuality: nat,
    usage: nat, bindFlags: nat, cpuAccessFlags: nat, miscFlags: nat)

  /** A description with every member zero, as ZeroMemory or "= { 0 }" leaves it. */
  const ZeroDesc: Texture2DDesc := Texture2DDesc(0, 0, 0, 0, 0, 0, 0, 0, 0, 0, 0)

  /**
   * PopulateSurfaceDesc: a zeroed description with one sample, one array
   * slice, one mip level, and the given format and size.
   */
  function PopulateSurfaceDesc(format: nat, width: nat, height: nat): (d: Texture2DDesc)
    ensures d.sampleCount == 1 && d.arraySize == 1 && d.mipLevels == 1
    ensures d.format == format && d.width == width && d.height == height
    ensures d.(width := 0, height := 0, format := 0, sampleCount := 0, arraySize := 0, mipLevels := 0) == ZeroDesc
  {
    ZeroDesc.(sampleCount := 1, arraySize := 1, format := format, width := width, height := height, mipLevels := 1)
  }

  // d3d9types.h D3DFORMAT values
  const D3DFMT_UNKNOWN: nat := 0
  const D3DFMT_R8G8B8: nat := 20
  const D3DFMT_A8R8G8B8: nat := 21
  const D3DFMT_X8R8G8B8: nat := 22
  const D3DFMT_R5G6B5: nat := 23
  const D3DFMT_X1R5G5B5: nat := 24
  const D3DFMT_A1R5G5B5: nat := 25
  const D3DFMT_A8P8: nat := 40
  const D3DFMT_P8: nat := 41

  /** GetSuperiorSurfaceFormat: the next richer format, or UNKNOWN when there is none. */
  function GetSuperiorSurfaceFormat(format: nat, palUsesAlpha: bool): nat
  {
    if format == D3DFMT_P8 then (if palUsesAlpha then D3DFMT_A8R8G8B8 else D3DFMT_R8G8B8)
    else if format == D3DFMT_X1R5G5B5 then D3DFMT_R5G6B5
    else if format == D3DFMT_R5G6B5 then D3DFMT_R8G8B8
    else if format == D3DFMT_R8G8B8 then D3DFMT_X8R8G8B8
    else if format == D3DFMT_X8R8G8B8 then D3DFMT_A8R8G8B8
    else if format == D3DFMT_A8P8 then D3DFMT_A8R8G8B8
    else if format == D3DFMT_A1R5G5B5 then D3DFMT_A8R8G8B8
    else D3DFMT_UNKNOWN
  }

  /** Bits of colour a pixel of the format can tell apart (a palette entry holds 8 per channel). */
  function ColorBits(format: nat): nat
  {
    if format == D3DFMT_P8 || format == D3DFMT_A8P8 then 24
    else if format == D3DFMT_X1R5G5B5 || format == D3DFMT_A1R5G5B5 then 15
    else if format == D3DFMT_R5G6B5 then 16
    else if format == D3DFMT_R8G8B8 || format == D3DFMT_X8R8G8B8 || format == D3DFMT_A8R8G8B8 then 24
    else 0
  }

  /** Bits of alpha; a P8 surface has the palette's alpha when the palette uses it. */
  function AlphaBits(format: nat, palUsesAlpha: bool): nat
  {
    if format == D3DFMT_A8R8G8B8 || format == D3DFMT_A8P8 then 8
    else if format == D3DFMT_A1R5G5B5 then 1
    else if format == D3DFMT_P8 && palUsesAlpha then 8
    else 0
  }

  /**
   * The superior format is superior: it loses neither colour nor alpha
   * (a palette with alpha is promoted to a format with alpha), and only
   * A8R8G8B8 among the known formats has none.
   */
  lemma SuperiorHoldsMore(format: nat, palUsesAlpha: bool)
    ensures var r := GetSuperiorSurfaceFormat(format, palUsesAlpha);
      && (r != D3DFMT_UNKNOWN ==> ColorBits(r) >= ColorBits(format) && AlphaBits(r, false) >= AlphaBits(format, palUsesAlpha))
      && (r != D3DFMT_UNKNOWN ==> r != format)
      && (r == D3DFMT_UNKNOWN <==> ColorBits(format) == 0 || format == D3DFMT_A8R8G8B8)
  {
  }

  /** n successive promotions. */
  function PromoteN(format: nat, palUsesAlpha: bool, n: nat): nat
    decreases n
  {
    if n == 0 then format else PromoteN(GetSuperiorSurfaceFormat(format, palUsesAlpha), palUsesAlpha, n - 1)
  }

  /** UNKNOWN stays UNKNOWN. */
  lemma {:induction false} UnknownIsFixed(palUsesAlpha: bool, n: nat)
    ensures PromoteN(D3DFMT_UNKNOWN, palUsesAlpha, n) == D3DFMT_UNKNOWN
  {
    if n > 0 {
      UnknownIsFixed(palUsesAlpha, n - 1);
    }
  }

  /** A bound on the promotions that lead from format to UNKNOWN. */
  function Steps(format: nat): (k: nat)
    ensures k <= 5
  {
    if format == D3DFMT_X1R5G5B5 then 5
    else if format == D3DFMT_R5G6B5 || format == D3DFMT_P8 then 4
    else if format == D3DFMT_R8G8B8 then 3
    else if format == D3DFMT_X8R8G8B8 || format == D3DFMT_A8P8 || format == D3DFMT_A1R5G5B5 then 2
    else if format == D3DFMT_A8R8G8B8 then 1
    else if format == D3DFMT_UNKNOWN then 0
    else 1
  }

  /** Every promotion of a format other than UNKNOWN lowers the bound. */
  lemma StepsDecrease(format: nat, palUsesAlpha: bool)
    requires format != D3DFMT_UNKNOWN
    ensures Steps(GetSuperiorSurfaceFormat(format, palUsesAlpha)) < Steps(format)
  {
  }

  lemma {:induction false} ReachesUnknownIn(format: nat, palUsesAlpha: bool, n: nat)
    requires n >= Steps(format)
    ensures PromoteN(format, palUsesAlpha, n) == D3DFMT_UNKNOWN
    decreases n
  {
    if format == D3DFMT_UNKNOWN {
      UnknownIsFixed(palUsesAlpha, n);
    } else {
      StepsDecrease(format, palUsesAlpha);
      ReachesUnknownIn(GetSuperiorSurfaceFormat(format, palUsesAlpha), palUsesAlpha, n - 1);
    }
  }

  /** Repeated promotion from any format reaches UNKNOWN in at most five steps and stays there. */
  lemma PromotionEnds(format: nat, palUsesAlpha: bool, n: nat)
    requires n >= 5
    ensures PromoteN(format, palUsesAlpha, n) == D3DFMT_UNKNOWN
  {
    ReachesUnknownIn(format, palUsesAlpha, n);
  }

  /** Five is the least bound: X1R5G5B5 is still a format after four promotions. */
  lemma FiveIsTight(palUsesAlpha: bool)
    ensures PromoteN(D3DFMT_X1R5G5B5, palUsesAlpha, 4) == D3DFMT_A8R8G8B8
  {
    assert PromoteN(D3DFMT_X8R8G8B8, palUsesAlpha, 1) == D3DFMT_A8R8G8B8;
    assert PromoteN(D3DFMT_R8G8B8, palUsesAlpha, 2) == D3DFMT_A8R8G8B8;
    assert PromoteN(D3DFMT_R5G6B5, palUsesAlpha, 3) == D3DFMT_A8R8G8B8;
  }
}
