/**
 * CHwHWNDRenderTarget (core/hw/hwhwndrt.cpp): the window's flipping chain,
 * replaced on every resize, and the rules that decide whether rendering is
 * enabled afterwards.
 *
 * Every native call (the DXGI factory, CreateSwapChainForHwnd, the
 * CD3DSwapChain wrapper, GetBackBuffer, ClearInvalidatedRects) is a
 * parameter: its result code and the handle it produces.
 */
module HwndRenderTargets {
  import opened HResults

  /** static_cast<LONG> of a UINT: values from 2^31 on read as negative. */
  function ToLong(u: nat): (l: int)
    requires u < TWO32
    ensures u < 0x8000_0000 ==> l == u
    ensures u >= 0x8000_0000 ==> l < 0 && l + TWO32 == u
  {
    if u < 0x8000_0000 then u else u - TWO32
  }

  datatype Rect = Rect(left: int, top: int, right: int, bottom: int)

  /** The intermediate multisample target, by the size of its first surface. */
  datatype Multisample = Multisample(width: nat, height: nat)

  /** What UpdateFlippingChain reads and writes. */
  datatype FlipState = FlipState(
    target: Option<nat>,               // m_pD3DTargetTexture
    multisample: Option<Multisample>,  // m_pD3DIntermediateMultisampleTargetTexture
    swapChain: Option<nat>,            // m_pD3DSwapChain
    bounds: Rect,                      // m_rcBounds
    width: nat,                        // m_uWidth
    height: nat,                       // m_uHeight
    enabled: bool,                     // m_fEnableRendering
    displayInvalid: HRESULT)           // m_hrDisplayInvalid

  /** The answers of the native calls one update makes, in call order. */
  datatype FlipCalls = FlipCalls(
    factoryHr: HRESULT,        // CreateDXGIFactory
    createHr: HRESULT,         // CreateSwapChainForHwnd
    wrapHr: HRESULT,           // CD3DSwapChain::Create
    chain: nat,                // the wrapper it creates
    backBufferHr: HRESULT,     // GetBackBuffer(0)
    backBuffer: nat,           // the target texture it gives
    clearHr: HRESULT)          // ClearInvalidatedRects

  /**
   * Whether the multisample target is dropped: both areas are UINT
   * products, and the new one must be below a quarter of the current one.
   */
  predicate DropsMultisample(m: Multisample, w: nat, h: nat)
  {
    MulU32(w, h) < MulU32(m.width, m.height) / 4
  }

  /** The SubCleanup1 block on a failure: rendering off, a display-state failure remembered. */
  function FailSub(s: FlipState, hr: HRESULT): FlipState
  {
    s.(enabled := false, displayInvalid := if hr == WGXERR_DISPLAYSTATEINVALID then hr else s.displayInvalid)
  }

  /**
   * UpdateFlippingChain(w, h).  Failures of the factory, of the wrapper's
   * creation and of ClearInvalidatedRects leave through Cleanup and keep
   * the rendering flag; failures of CreateSwapChainForHwnd and of
   * GetBackBuffer pass through SubCleanup1.  A success returns the last
   * call's code.
   */
  function FlipStep(s: FlipState, w: nat, h: nat, c: FlipCalls): (FlipState, HRESULT)
    requires w < TWO32 && h < TWO32
  {
    var ms := if s.multisample.Some? && DropsMultisample(s.multisample.value, w, h) then None else s.multisample;
    var s1 := s.(target := None, multisample := ms);
    if w == 0 || h == 0 then (s1.(enabled := false), S_OK)
    else
      var s2 := s1.(swapChain := None);
      if Failed(c.factoryHr) then (s2, c.factoryHr)
      else if Failed(c.createHr) then (FailSub(s2, c.createHr), c.createHr)
      else if Failed(c.wrapHr) then (s2, c.wrapHr)
      else
        var s3 := s2.(swapChain := Some(c.chain), bounds := Rect(0, 0, ToLong(w), ToLong(h)), width := w, height := h);
        if Failed(c.backBufferHr) then (FailSub(s3, c.backBufferHr), c.backBufferHr)
        else
          var s4 := s3.(target := Some(c.backBuffer));
          if Failed(c.clearHr) then (s4, c.clearHr)
          else (s4.(enabled := true), c.clearHr)
  }

  /** The old target texture is always released; the multisample target only when the area shrinks below a quarter. */
  lemma ReleaseRules(s: FlipState, w: nat, h: nat, c: FlipCalls)
    requires w < TWO32 && h < TWO32
    ensures var (s', hr) := FlipStep(s, w, h, c);
      && (s'.target.Some? ==> s'.target == Some(c.backBuffer) && Succeeded(c.backBufferHr))
      && (s'.multisample.None? <==> s.multisample.None? || DropsMultisample(s.multisample.value, w, h))
      && (s'.multisample.Some? ==> s'.multisample == s.multisample)
  {
  }

  /** Shrinking to nothing drops a multisample target of four pixels or more; keeping the size drops none. */
  lemma MultisampleExamples(m: Multisample)
    requires m.width < 0x1_0000 && m.height < 0x1_0000
    ensures m.width * m.height >= 4 ==> DropsMultisample(m, 0, 0)
    ensures !DropsMultisample(m, m.width, m.height)
  {
    assert m.width * m.height < TWO32 by {
      MulBelow(m.width, m.height, 0x1_0000);
    }
  }

  lemma MulBelow(a: nat, b: nat, n: nat)
    requires a < n && b < n
    ensures a * b < n * n
  {
    calc {
      a * b;
    <= n * b;
    < n * n;
    }
  }

  /** A zero width or height disables rendering and succeeds, keeping whatever swap chain there was. */
  lemma EmptyDisables(s: FlipState, w: nat, h: nat, c: FlipCalls)
    requires w < TWO32 && h < TWO32 && (w == 0 || h == 0)
    ensures var (s', hr) := FlipStep(s, w, h, c);
      && hr == S_OK && !s'.enabled && s'.swapChain == s.swapChain && s'.target.None?
      && s'.bounds == s.bounds && s'.width == s.width && s'.height == s.height
  {
  }

  /**
   * A non-empty size never keeps the old swap chain: it is destroyed
   * first, so the resize branch is never taken and the chain afterwards,
   * if any, is the one just created.
   */
  lemma ChainAlwaysRecreated(s: FlipState, w: nat, h: nat, c: FlipCalls)
    requires w < TWO32 && h < TWO32 && w > 0 && h > 0
    ensures var (s', hr) := FlipStep(s, w, h, c);
      s'.swapChain.None? || s'.swapChain == Some(c.chain)
  {
  }

  /** Every call succeeding, on a non-empty size. */
  predicate AllSucceed(c: FlipCalls)
  {
    Succeeded(c.factoryHr) && Succeeded(c.createHr) && Succeeded(c.wrapHr)
    && Succeeded(c.backBufferHr) && Succeeded(c.clearHr)
  }

  /**
   * A non-empty size succeeds exactly when every call does, and then the
   * bounds are (0, 0, w, h), the size is stored, the new chain and back
   * buffer are held and rendering is enabled.
   */
  lemma SuccessEnables(s: FlipState, w: nat, h: nat, c: FlipCalls)
    requires 0 < w < 0x8000_0000 && 0 < h < 0x8000_0000
    ensures var (s', hr) := FlipStep(s, w, h, c);
      && (Succeeded(hr) <==> AllSucceed(c))
      && (Succeeded(hr) ==>
            && s'.enabled
            && s'.bounds == Rect(0, 0, w, h) && s'.width == w && s'.height == h
            && s'.swapChain == Some(c.chain) && s'.target == Some(c.backBuffer)
            && s'.displayInvalid == s.displayInvalid)
  {
  }

  /**
   * A failure of CreateSwapChainForHwnd or GetBackBuffer is returned,
   * disables rendering and is remembered exactly when it is a display-state
   * failure; a failure of the factory, of the wrapper or of
   * ClearInvalidatedRects is returned and leaves the flag as it was.
   */
  lemma FailureOutcomes(s: FlipState, w: nat, h: nat, c: FlipCalls)
    requires w < TWO32 && h < TWO32 && w > 0 && h > 0
    ensures var (s', hr) := FlipStep(s, w, h, c);
      && (Failed(c.factoryHr) ==> hr == c.factoryHr && s'.enabled == s.enabled && s'.displayInvalid == s.displayInvalid)
      && (Succeeded(c.factoryHr) && Failed(c.createHr) ==>
            && hr == c.createHr && !s'.enabled
            && s'.displayInvalid == (if hr == WGXERR_DISPLAYSTATEINVALID then hr else s.displayInvalid))
      && (Succeeded(c.factoryHr) && Succeeded(c.createHr) && Failed(c.wrapHr) ==>
            hr == c.wrapHr && s'.enabled == s.enabled && s'.swapChain.None?)
      && (Succeeded(c.factoryHr) && Succeeded(c.createHr) && Succeeded(c.wrapHr) && Failed(c.backBufferHr) ==>
            && hr == c.backBufferHr && !s'.enabled && s'.target.None?
            && s'.displayInvalid == (if hr == WGXERR_DISPLAYSTATEINVALID then hr else s.displayInvalid))
      && (Failed(hr) && Succeeded(c.backBufferHr) && Succeeded(c.wrapHr) && Succeeded(c.createHr) && Succeeded(c.factoryHr) ==>
            hr == c.clearHr && s'.enabled == s.enabled && s'.target == Some(c.backBuffer))
  {
  }

  class HwndRenderTarget {
    var target: Option<nat>
    var multisample: Option<Multisample>
    var swapChain: Option<nat>
    var bounds: Rect
    var width: nat
    var height: nat
    var enabled: bool
    var displayInvalid: HRESULT

    function State(): FlipState
      reads this
    {
      FlipState(target, multisample, swapChain, bounds, width, height, enabled, displayInvalid)
    }

    /** Drops the target texture and, by the area rule, the multisample target. */
    method ReleaseOldResources(w: nat, h: nat)
      modifies this`target, this`multisample
      ensures target.None?
      ensures multisample == (if old(multisample).Some? && DropsMultisample(old(multisample).value, w, h) then None else old(multisample))
    {
      target := None;
      if multisample.Some? {
        var sizeCur := MulU32(multisample.value.width, multisample.value.height);
        var sizeNew := MulU32(w, h);
        if sizeNew < sizeCur / 4 {
          multisample := None;
        }
      }
    }

    /** SubCleanup1 and its rendering flag. */
    method SubCleanup(hr: HRESULT)
      modifies this`enabled, this`displayInvalid
      ensures Failed(hr) ==> State() == FailSub(old(State()), hr)
      ensures !Failed(hr) ==> enabled && displayInvalid == old(displayInvalid)
    {
      if Failed(hr) {
        if hr == WGXERR_DISPLAYSTATEINVALID {
          displayInvalid := hr;
        }
        enabled := false;
      } else {
        enabled := true;
      }
    }

    method UpdateFlippingChain(w: nat, h: nat, c: FlipCalls) returns (hr: HRESULT)
      requires w < TWO32 && h < TWO32
      modifies this
      ensures (State(), hr) == FlipStep(old(State()), w, h, c)
    {
      ReleaseOldResources(w, h);
      if w == 0 || h == 0 {
        enabled := false;
        return S_OK;
      }
      swapChain := None;
      hr := c.factoryHr;
      if Failed(hr) {
        return;
      }
      hr := c.createHr;
      if Failed(hr) {
        SubCleanup(hr);
        return;
      }
      hr := c.wrapHr;
      if Failed(hr) {
        return;
      }
      swapChain := Some(c.chain);
      bounds := Rect(0, 0, ToLong(w), ToLong(h));
      width := w;
      height := h;
      hr := c.backBufferHr;
      if Failed(hr) {
        SubCleanup(hr);
        return;
      }
      target := Some(c.backBuffer);
      hr := c.clearHr;
      if Failed(hr) {
        return;
      }
      SubCleanup(hr);
    }

    /**
     * Init: the display target's own initialization (baseHr), a 0x0
     * flipping chain, then the base render target's (rtHr).  A successful
     * Init leaves rendering disabled until the first Resize.
     */
    method Init(baseHr: HRESULT, c: FlipCalls, rtHr: HRESULT) returns (hr: HRESULT)
      modifies this
      ensures Failed(baseHr) ==> hr == baseHr && State() == old(State())
      ensures Succeeded(baseHr) ==> State() == FlipStep(old(State()), 0, 0, c).0 && hr == rtHr
      ensures Succeeded(hr) ==> !enabled && target.None?
    {
      hr := baseHr;
      if Failed(hr) {
        return;
      }
      hr := UpdateFlippingChain(0, 0, c);
      hr := rtHr;
    }

    /** Resize: every resize goes through UpdateFlippingChain. */
    method Resize(w: nat, h: nat, c: FlipCalls) returns (hr: HRESULT)
      requires w < TWO32 && h < TWO32
      modifies this
      ensures (State(), hr) == FlipStep(old(State()), w, h, c)
    {
      hr := UpdateFlippingChain(w, h, c);
    }
  }

  /** ScrollBlt is not implemented for a window target. */
  function ScrollBlt(): (hr: HRESULT)
    ensures Failed(hr) && hr == E_NOTIMPL
  {
    E_NOTIMPL
  }
}
