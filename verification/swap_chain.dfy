/**
 * CD3DSwapChain (core/hw/d3dswapchain.cpp): the allocation arithmetic of
 * its operator new, Create, the back-buffer index check, and the DC stubs.
 * size_t is 64 bits wide and a pointer takes 8 bytes.
 */
module SwapChains {
  import opened HResults

  const POINTER_SIZE: nat := 8

  /**
   * operator new(cb, n) as written: the extra bytes n * 8 and the total are
   * size_t values; memory of the total size is requested only if the
   * extra exceeds n and the total does not fall below the extra.
   * None stands for the NULL result, Some(size) for the bytes requested.
   */
  function NewAsWritten(cb: nat, n: nat): Option<nat>
    requires cb < TWO64 && n < TWO64
  {
    var extra := (n * POINTER_SIZE) % TWO64;
    var total := (cb + extra) % TWO64;
    if extra > n && total >= extra then Some(total) else None
  }

  /** The check made as intended: n back buffers whose array and total both fit in size_t. */
  function NewChecked(cb: nat, n: nat): (r: Option<nat>)
    requires cb < TWO64 && n < TWO64
    ensures r.Some? <==> 0 < n && n * POINTER_SIZE < TWO64 && cb + n * POINTER_SIZE < TWO64
    ensures r.Some? ==> r.value == cb + n * POINTER_SIZE
  {
    if 0 < n && n * POINTER_SIZE < TWO64 && cb + n * POINTER_SIZE < TWO64 then Some(cb + n * POINTER_SIZE) else None
  }

  /** For every count that does not wrap the multiplication, the two agree: zero buffers and a wrapping total give NULL. */
  lemma NewAgreesWithoutWrap(cb: nat, n: nat)
    requires cb < TWO64 && n < TWO64 && n * POINTER_SIZE < TWO64
    ensures NewAsWritten(cb, n) == NewChecked(cb, n)
    ensures n == 0 ==> NewAsWritten(cb, n).None?
  {
    assert (n * POINTER_SIZE) % TWO64 == n * POINTER_SIZE;
    if cb + n * POINTER_SIZE >= TWO64 {
      assert (cb + n * POINTER_SIZE) % TWO64 == cb + n * POINTER_SIZE - TWO64;
    }
  }

  /** Every back-buffer count Create can pass (a UINT) is such a count. */
  lemma UIntCountsDoNotWrap(n: nat)
    requires n < TWO32
    ensures n * POINTER_SIZE < TWO64
  {
  }

  /**
   * The multiplication check misses some wraps: with n = 0x3000_0000_0000_0000
   * the product wraps to 0x8000_0000_0000_0000, which exceeds n, so memory is
   * requested for far fewer than n pointers.
   */
  lemma NewAsWrittenMissesWrap()
    ensures var n := 0x3000_0000_0000_0000;
      && n * POINTER_SIZE >= TWO64
      && NewAsWritten(0x100, n) == Some(0x8000_0000_0000_0100)
      && NewChecked(0x100, n).None?
  {
  }

  /** One wrapper, from construction on. */
  class SwapChain {
    var backBufferCount: nat       // m_cBackBuffers
    var swapChain: Option<nat>     // m_pDXGISwapChain
    var resourceValid: bool        // m_fResourceValid
    var refCount: nat              // m_cRef
    var fetchedBuffers: seq<nat>   // indices passed to IDXGISwapChain::GetBuffer

    /** The constructor sets the count; Create adds the first reference. */
    constructor (handle: nat, count: nat)
      ensures backBufferCount == count && swapChain == Some(handle)
      ensures resourceValid && refCount == 0 && fetchedBuffers == []
    {
      backBufferCount := count;
      swapChain := Some(handle);
      resourceValid := true;
      refCount := 0;
      fetchedBuffers := [];
    }

    /**
     * GetBackBuffer(i): an index at or past the count fails with
     * WGXERR_INVALIDPARAMETER; otherwise buffer 0 is fetched whatever i
     * is, and the wrapping texture's creation result (createHr) returned.
     */
    method GetBackBuffer(i: nat, createHr: HRESULT, created: Option<nat>) returns (hr: HRESULT, backBuffer: Option<nat>)
      requires resourceValid
      modifies this`fetchedBuffers
      ensures i >= backBufferCount ==> hr == WGXERR_INVALIDPARAMETER && backBuffer.None? && fetchedBuffers == old(fetchedBuffers)
      ensures i < backBufferCount ==> hr == createHr && backBuffer == created && fetchedBuffers == old(fetchedBuffers) + [0]
    {
      backBuffer := None;
      if i >= backBufferCount {
        return WGXERR_INVALIDPARAMETER, None;
      }
      fetchedBuffers := fetchedBuffers + [0];
      hr := createHr;
      backBuffer := created;
    }

    /** ReleaseD3DResources: only for a resource already invalid or out of use. */
    method ReleaseD3DResources()
      requires !resourceValid || refCount == 0
      modifies this`swapChain
      ensures swapChain.None?
    {
      swapChain := None;
    }
  }

  /**
   * Create(dxgiSwapChain): the back-buffer count comes from the DXGI
   * description (descHr, count); an allocation size the overflow check
   * refuses, or a NULL answer from the heap (allocOk false), fails with
   * E_OUTOFMEMORY; on any failure no wrapper is returned.  Init cannot
   * fail, and its S_OK is the result of a successful Create.
   */
  method Create(handle: nat, descHr: HRESULT, count: nat, cb: nat, allocOk: bool) returns (hr: HRESULT, chain: SwapChain?)
    requires count < TWO32 && cb < TWO64
    ensures Failed(descHr) ==> hr == descHr && chain == null
    ensures Succeeded(descHr) && (NewChecked(cb, count).None? || !allocOk) ==> hr == E_OUTOFMEMORY && chain == null
    ensures Succeeded(descHr) && NewChecked(cb, count).Some? && allocOk ==>
      && hr == S_OK && chain != null && fresh(chain)
      && chain.backBufferCount == count && chain.swapChain == Some(handle) && chain.refCount == 1
    ensures chain != null <==> Succeeded(hr)
  {
    chain := null;
    hr := descHr;
    if Failed(hr) {
      return;
    }
    UIntCountsDoNotWrap(count);
    NewAgreesWithoutWrap(cb, count);
    if NewAsWritten(cb, count).None? || !allocOk {
      return E_OUTOFMEMORY, null;
    }
    chain := new SwapChain(handle, count);
    chain.refCount := chain.refCount + 1;
    hr := S_OK;
  }

  /** GetDC is not implemented for this swap chain. */
  function GetDC(i: nat): (hr: HRESULT)
    ensures Failed(hr) && hr == E_NOTIMPL
  {
    E_NOTIMPL
  }

  /** ReleaseDC has nothing to give back. */
  function ReleaseDC(i: nat): (hr: HRESULT)
    ensures Succeeded(hr) && hr == S_OK
  {
    S_OK
  }
}
