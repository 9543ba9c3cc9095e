/**
 * CD3DSurface (core/hw/d3dsurface.cpp): the size registered for a surface,
 * GetDC's error reinterpretation and hand-back of the DC, the release
 * precondition, and GetSurfaceSize.
 */
module Surfaces {
  import opened HResults

  /** The fields of the surface description the wrapper reads. */
  datatype SurfaceDesc = SurfaceDesc(width: nat, height: nat, format: nat, sampleCount: nat)

  /** formatSize * width * height * samples, each product in UINT. */
  function SurfaceBytes(formatSize: nat, d: SurfaceDesc): nat
  {
    MulU32(MulU32(MulU32(formatSize, d.width), d.height), d.sampleCount)
  }

  lemma ModMulLeft(x: nat, c: nat)
    ensures ((x % TWO32) * c) % TWO32 == (x * c) % TWO32
  {
    var q := x / TWO32;
    assert x * c == TWO32 * (q * c) + (x % TWO32) * c;
  }

  /** The UINT products wrap to the true product modulo 2^32, and equal it when it fits. */
  lemma SurfaceBytesIsProduct(formatSize: nat, d: SurfaceDesc)
    ensures SurfaceBytes(formatSize, d) == (formatSize * d.width * d.height * d.sampleCount) % TWO32
    ensures formatSize * d.width * d.height * d.sampleCount < TWO32 ==>
      SurfaceBytes(formatSize, d) == formatSize * d.width * d.height * d.sampleCount
  {
    ModMulLeft(formatSize * d.width, d.height);
    ModMulLeft(formatSize * d.width * d.height, d.sampleCount);
  }

  /**
   * GetDC's result: E_FAIL from D3D is reinterpreted by the GDI-handle
   * quota check as E_OUTOFMEMORY (near the quota) or
   * D3DERR_DRIVERINTERNALERROR; everything else passes through.
   */
  function DCResult(getDcHr: HRESULT, nearQuota: bool): HRESULT
  {
    if getDcHr != E_FAIL then getDcHr
    else if nearQuota then E_OUTOFMEMORY
    else D3DERR_DRIVERINTERNALERROR
  }

  lemma DCResultFailsExactly(getDcHr: HRESULT, nearQuota: bool)
    ensures Failed(DCResult(getDcHr, nearQuota)) <==> Failed(getDcHr)
    ensures DCResult(getDcHr, nearQuota) != E_FAIL
    ensures getDcHr == E_FAIL ==>
      DCResult(getDcHr, nearQuota) == (if nearQuota then E_OUTOFMEMORY else D3DERR_DRIVERINTERNALERROR)
  {
  }

  class Surface {
    var surface: Option<nat>        // m_pD3DSurface
    var desc: Option<SurfaceDesc>   // m_d3dsd
    var resourceSize: Option<nat>   // size given to CD3DResource::Init
    var resourceValid: bool         // m_fResourceValid
    var refCount: nat               // m_cRef
    var releasedDCs: seq<nat>       // DCs handed back to D3D after a failure

    constructor (handle: nat)
      ensures surface == Some(handle) && desc.None? && resourceSize.None?
      ensures resourceValid && refCount == 0 && releasedDCs == []
    {
      surface := Some(handle);
      desc := None;
      resourceSize := None;
      resourceValid := true;
      refCount := 0;
      releasedDCs := [];
    }

    /** Init: read the description (descHr) and register formatSize * w * h * samples bytes. */
    method Init(descHr: HRESULT, d: SurfaceDesc, formatSize: nat) returns (hr: HRESULT)
      modifies this`desc, this`resourceSize
      ensures hr == descHr
      ensures Failed(descHr) ==> desc == old(desc) && resourceSize == old(resourceSize)
      ensures Succeeded(descHr) ==> desc == Some(d) && resourceSize == Some(SurfaceBytes(formatSize, d))
    {
      hr := descHr;
      if Failed(hr) {
        return;
      }
      desc := Some(d);
      resourceSize := Some(MulU32(MulU32(MulU32(formatSize, d.width), d.height), d.sampleCount));
    }

    /** ReleaseD3DResources: only for a resource already invalid or out of use. */
    method ReleaseD3DResources()
      requires !resourceValid || refCount == 0
      modifies this`surface
      ensures surface.None?
    {
      surface := None;
    }

    /** GetSurfaceSize: the stored description's width and height. */
    method GetSurfaceSize() returns (width: nat, height: nat)
      requires resourceValid && desc.Some?
      ensures width == desc.value.width && height == desc.value.height
    {
      width := desc.value.width;
      height := desc.value.height;
    }

    /**
     * GetDC: D3D answers getDcHr and possibly a DC.  The DC is handed out
     * only on success; on failure the output stays NULL and a DC that was
     * obtained is given back.
     */
    method GetDC(getDcHr: HRESULT, dc: Option<nat>, nearQuota: bool) returns (hr: HRESULT, hdc: Option<nat>)
      modifies this`releasedDCs
      ensures hr == DCResult(getDcHr, nearQuota)
      ensures Succeeded(hr) ==> hdc == dc && releasedDCs == old(releasedDCs)
      ensures Failed(hr) ==> hdc.None? && releasedDCs == old(releasedDCs) + (if dc.Some? then [dc.value] else [])
    {
      hdc := None;
      var backBuffer := dc;
      hr := getDcHr;
      if hr == E_FAIL {
        hr := if nearQuota then E_OUTOFMEMORY else D3DERR_DRIVERINTERNALERROR;
      } else if Succeeded(hr) {
        hdc := backBuffer;
        backBuffer := None;
      }
      if backBuffer.Some? {
        releasedDCs := releasedDCs + [backBuffer.value];
      }
    }
  }
}
