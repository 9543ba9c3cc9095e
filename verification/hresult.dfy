/**
 * Status codes and fixed-width arithmetic shared by every module.
 *
 * An HRESULT is kept as its 32-bit pattern (0 .. 2^32-1); the sign bit
 * (bit 31) is the severity bit, so FAILED(hr) is "bit 31 set".  Codes of
 * the Windows SDK (winerror.h, d3d9.h) carry their published values.  The
 * codes of the composition engine's own facility (0x898, the WGXERR_* and
 * WGXHR_* names) are declared in a header that is not part of this model;
 * they are given distinct values in that facility here, and nothing in the
 * model depends on those values beyond their severity and their being
 * distinct from each other and from the SDK codes.
 */
module HResults {

  newtype HRESULT = x: int | 0 <= x < 0x1_0000_0000

  predicate Failed(hr: HRESULT) { hr >= 0x8000_0000 }
  predicate Succeeded(hr: HRESULT) { hr < 0x8000_0000 }

  // winerror.h
  const S_OK: HRESULT := 0x0000_0000
  const S_FALSE: HRESULT := 0x0000_0001
  const E_NOTIMPL: HRESULT := 0x8000_4001
  const E_FAIL: HRESULT := 0x8000_4005
  const E_UNEXPECTED: HRESULT := 0x8000_FFFF
  const E_OUTOFMEMORY: HRESULT := 0x8007_000E
  const E_INVALIDARG: HRESULT := 0x8007_0057

  // d3d9.h (facility 0x876)
  const D3DERR_OUTOFVIDEOMEMORY: HRESULT := 0x8876_017C
  const D3DERR_WRONGTEXTUREFORMAT: HRESULT := 0x8876_0818
  const D3DERR_DRIVERINTERNALERROR: HRESULT := 0x8876_0827
  const D3DERR_DEVICELOST: HRESULT := 0x8876_0868
  const D3DERR_NOTAVAILABLE: HRESULT := 0x8876_086A
  const D3DERR_DEVICEREMOVED: HRESULT := 0x8876_0870
  const D3DERR_DEVICEHUNG: HRESULT := 0x8876_0874
  const S_PRESENT_MODE_CHANGED: HRESULT := 0x0876_0877
  const S_PRESENT_OCCLUDED: HRESULT := 0x0876_0878

  // composition engine facility (0x898); see the module comment
  const WGXERR_INVALIDPARAMETER: HRESULT := 0x8898_0003
  const WGXERR_NOTIMPLEMENTED: HRESULT := 0x8898_0004
  const WGXERR_INTERNALERROR: HRESULT := 0x8898_0005
  const WGXERR_DISPLAYSTATEINVALID: HRESULT := 0x8898_0006
  const WGXERR_NO_HARDWARE_DEVICE: HRESULT := 0x8898_0009
  const WGXERR_UNSUPPORTEDPIXELFORMAT: HRESULT := 0x8898_000A
  const WGXERR_UNSUPPORTED_OPERATION: HRESULT := 0x8898_000B
  const WGXERR_NEED_RECREATE_AND_PRESENT: HRESULT := 0x8898_000C
  const WGXERR_SHADER_COMPILE_FAILED: HRESULT := 0x8898_000D
  const WGXHR_EMPTYFILL: HRESULT := 0x0898_0001
  const WGXHR_CLIPPEDTOEMPTY: HRESULT := 0x0898_0002

  const FACILITY_WIN32: nat := 7
  const ERROR_INVALID_WINDOW_HANDLE: nat := 1400

  /** HRESULT_FACILITY: bits 16..28 of the code. */
  function Facility(hr: HRESULT): (f: nat)
    ensures f < 0x2000
  {
    (hr as int / 0x1_0000) % 0x2000
  }

  /**
   * HRESULT_FROM_WIN32 on a 32-bit Win32 error: zero and values that are
   * already negative when read as a signed HRESULT pass through; every other
   * value keeps its low 16 bits under severity 1 and facility WIN32.
   */
  function FromWin32(err: nat): (hr: HRESULT)
    requires err < 0x1_0000_0000
    ensures err == 0 ==> hr == S_OK
    ensures err != 0 ==> Failed(hr)
    ensures 0 < err < 0x8000_0000 ==> Facility(hr) == FACILITY_WIN32 && hr as int % 0x1_0000 == err % 0x1_0000
    ensures err >= 0x8000_0000 ==> hr as int == err
  {
    if err == 0 || err >= 0x8000_0000 then err as HRESULT
    else (0x8007_0000 + err % 0x1_0000) as HRESULT
  }

  // ---- fixed-width unsigned arithmetic ----

  const TWO32: nat := 0x1_0000_0000
  const TWO64: nat := 0x1_0000_0000_0000_0000

  predicate IsUInt32(x: int) { 0 <= x < TWO32 }

  newtype byte = x: int | 0 <= x < 0x100

  /** UINT multiplication as C++ performs it: the product modulo 2^32. */
  function MulU32(a: nat, b: nat): (r: nat)
    ensures r < TWO32
    ensures a * b < TWO32 ==> r == a * b
  {
    (a * b) % TWO32
  }

  /** UINT addition as C++ performs it: the sum modulo 2^32. */
  function AddU32(a: nat, b: nat): (r: nat)
    ensures r < TWO32
    ensures a + b < TWO32 ==> r == a + b
  {
    (a + b) % TWO32
  }

  /** UINT subtraction as C++ performs it: the difference modulo 2^32. */
  function SubU32(a: nat, b: nat): (r: nat)
    requires a < TWO32 && b < TWO32
    ensures r < TWO32
    ensures b <= a ==> r == a - b
    ensures a < b ==> r == a - b + TWO32
  {
    (a - b) % TWO32
  }

  datatype Option<T> = None | Some(value: T)
}
