/**
 * The pure decisions of the hardware device (core/hw/d3ddevice.cpp and
 * core/hw/d3ddevice.h): the display-invalid memo, the present-failure
 * classification, the video-memory retry loop's stopping point, vertex
 * counts per primitive type, fan index generation, texture format choice,
 * clip-rect arithmetic, the entry counter and frame advance.  The class
 * D3DDevice.Device performs these transitions on its fields.
 */
module DeviceRules {
  import opened HResults

  // ---- HandleDIE ----

  /**
   * HandleDIE: a driver-internal error is remembered as the device's
   * display-invalid code and turned into DISPLAYSTATEINVALID; any other
   * code passes through and the memo is kept.  Result: (memo, code).
   */
  function HandleDIE(displayInvalid: HRESULT, hr: HRESULT): (HRESULT, HRESULT)
  {
    if hr == D3DERR_DRIVERINTERNALERROR then (D3DERR_DRIVERINTERNALERROR, WGXERR_DISPLAYSTATEINVALID)
    else (displayInvalid, hr)
  }

  /** The memo only ever becomes a failure, a failure stays one, and the
      code returned is never the driver-internal error itself. */
  lemma HandleDIESticky(displayInvalid: HRESULT, hr: HRESULT)
    ensures Failed(displayInvalid) ==> Failed(HandleDIE(displayInvalid, hr).0)
    ensures HandleDIE(displayInvalid, hr).0 == displayInvalid || HandleDIE(displayInvalid, hr).0 == D3DERR_DRIVERINTERNALERROR
    ensures HandleDIE(displayInvalid, hr).1 != D3DERR_DRIVERINTERNALERROR
    ensures Failed(HandleDIE(displayInvalid, hr).1) == Failed(hr)
    ensures HandleDIE(HandleDIE(displayInvalid, hr).0, HandleDIE(displayInvalid, hr).1) == HandleDIE(displayInvalid, hr)
  {
  }

  // ---- BEGIN/END_DEVICE_ALLOCATION ----

  /**
   * The attempt after which the allocation loop stops: the first at which
   * the resource manager's FreeSomeVideoMemory(hr) answers false.
   */
  function FirstStop(frees: seq<bool>): (k: nat)
    requires false in frees
    ensures k < |frees| && !frees[k]
    ensures forall j | 0 <= j < k :: frees[j]
  {
    if !frees[0] then 0 else 1 + FirstStop(frees[1..])
  }

  // ---- PresentWithD3D / HandlePresentFailure ----

  datatype PresentOutcome = PresentOutcome(hr: HRESULT, processed: bool, markUnusable: bool)

  /**
   * HandlePresentFailure(hr) for a failing hr.  isWindow: IsWindow's answer
   * for the target window.  The second component says whether MarkUnusable
   * is called.
   */
  function PresentFailure(hr: HRESULT, isWindow: bool): (HRESULT, bool)
  {
    var hr1 :=
      if !isWindow then FromWin32(ERROR_INVALID_WINDOW_HANDLE)
      else if hr == E_FAIL || hr == D3DERR_DRIVERINTERNALERROR then D3DERR_DEVICELOST
      else if hr == E_INVALIDARG then WGXERR_NEED_RECREATE_AND_PRESENT
      else hr;
    if hr1 == D3DERR_DEVICELOST || hr1 == D3DERR_DEVICEHUNG || hr1 == D3DERR_DEVICEREMOVED
    then (WGXERR_DISPLAYSTATEINVALID, true)
    else (hr1, false)
  }

  /**
   * What PresentWithD3D makes of the swap chain's final Present answer:
   * S_OK is a processed present, a mode change counts as device lost, an
   * occluded window counts as success, and a failure is classified.
   */
  function PresentAnswer(presentHr: HRESULT, isWindow: bool): PresentOutcome
  {
    var hr := if presentHr == S_PRESENT_MODE_CHANGED then D3DERR_DEVICELOST
              else if presentHr == S_PRESENT_OCCLUDED then S_OK
              else presentHr;
    if Failed(hr) then
      var f := PresentFailure(hr, isWindow);
      PresentOutcome(f.0, false, f.1)
    else PresentOutcome(hr, presentHr == S_OK, false)
  }

  /** The codes that mean the device can no longer present. */
  predicate LostLike(hr: HRESULT)
  {
    hr == E_FAIL || hr == D3DERR_DRIVERINTERNALERROR || hr == D3DERR_DEVICELOST
    || hr == D3DERR_DEVICEHUNG || hr == D3DERR_DEVICEREMOVED
  }

  /**
   * The failure table: a vanished window is reported as an invalid window
   * handle; E_FAIL, driver-internal error, device lost, hung and removed
   * all become DISPLAYSTATEINVALID and mark the device unusable; E_INVALIDARG
   * asks for recreate-and-present; anything else passes through.  A
   * failure is never turned into success.
   */
  lemma PresentFailureTable(hr: HRESULT, isWindow: bool)
    requires Failed(hr)
    ensures var (r, mark) := PresentFailure(hr, isWindow);
      && Failed(r)
      && (!isWindow ==> r == FromWin32(ERROR_INVALID_WINDOW_HANDLE) && !mark)
      && (isWindow && LostLike(hr) ==> r == WGXERR_DISPLAYSTATEINVALID && mark)
      && (isWindow && hr == E_INVALIDARG ==> r == WGXERR_NEED_RECREATE_AND_PRESENT && !mark)
      && (isWindow && !LostLike(hr) && hr != E_INVALIDARG ==> r == hr && !mark)
      && (mark <==> isWindow && LostLike(hr))
  {
    var w := FromWin32(ERROR_INVALID_WINDOW_HANDLE);
    assert w == 0x8007_0578;
  }

  /**
   * A present is reported processed exactly when the swap chain said S_OK;
   * the outcome is a success exactly when the answer was S_OK, occluded, or
   * another success code other than a mode change.
   */
  lemma PresentAnswerOutcome(presentHr: HRESULT, isWindow: bool)
    ensures var o := PresentAnswer(presentHr, isWindow);
      && (o.processed <==> presentHr == S_OK)
      && (Succeeded(o.hr) <==> Succeeded(presentHr) && presentHr != S_PRESENT_MODE_CHANGED)
      && (presentHr == S_PRESENT_OCCLUDED ==> o.hr == S_OK)
      && (presentHr == S_PRESENT_MODE_CHANGED ==>
            o.markUnusable == isWindow && o.hr == (if isWindow then WGXERR_DISPLAYSTATEINVALID else FromWin32(ERROR_INVALID_WINDOW_HANDLE)))
      && (o.markUnusable ==> o.hr == WGXERR_DISPLAYSTATEINVALID)
  {
    if Failed(presentHr) || presentHr == S_PRESENT_MODE_CHANGED {
      var hr := if presentHr == S_PRESENT_MODE_CHANGED then D3DERR_DEVICELOST else presentHr;
      PresentFailureTable(hr, isWindow);
    }
  }

  // ---- vertex counts ----

  datatype Topology = LineList | TriangleList | TriangleStrip | OtherTopology(code: nat)

  /**
   * DrawPrimitiveUP's vertex count for a primitive count, in UINT
   * arithmetic; None for an unsupported topology (E_INVALIDARG).
   */
  function VertexCount(t: Topology, primitives: nat): Option<nat>
  {
    match t
    case LineList => Some(MulU32(primitives, 2))
    case TriangleList => Some(MulU32(primitives, 3))
    case TriangleStrip => Some(AddU32(primitives, 2))
    case OtherTopology(_) => None
  }

  /** The number of primitives a vertex count describes (the inverse). */
  function PrimitiveCount(t: Topology, vertices: nat): Option<nat>
  {
    match t
    case LineList => if vertices % 2 == 0 then Some(vertices / 2) else None
    case TriangleList => if vertices % 3 == 0 then Some(vertices / 3) else None
    case TriangleStrip => if vertices >= 2 then Some(vertices - 2) else None
    case OtherTopology(_) => None
  }

  /**
   * Without wrap-around the vertex count determines the primitive count:
   * 2n for lines, 3n for triangles, n + 2 for a strip.
   */
  lemma VertexCountRoundTrip(t: Topology, n: nat)
    requires 3 * n + 2 < TWO32
    ensures VertexCount(t, n).Some? <==> !t.OtherTopology?
    ensures VertexCount(t, n).Some? ==> PrimitiveCount(t, VertexCount(t, n).value) == Some(n)
    ensures t == LineList ==> VertexCount(t, n) == Some(2 * n)
    ensures t == TriangleList ==> VertexCount(t, n) == Some(3 * n)
    ensures t == TriangleStrip ==> VertexCount(t, n) == Some(n + 2)
  {
  }

  // ---- FlushBufferFan ----

  const WORD_RANGE: nat := 0x1_0000

  /** Index k of the fan's index list: triangle k/3 is (0, t+1, t+2), each stored as a WORD. */
  function FanIndex(k: nat): (v: nat)
    ensures v < WORD_RANGE
  {
    if k % 3 == 0 then 0 else (k / 3 + k % 3) % WORD_RANGE
  }

  /** The three indices of triangle t. */
  lemma FanIndexAt(t: nat)
    ensures FanIndex(3 * t) == 0
    ensures FanIndex(3 * t + 1) == (t + 1) % WORD_RANGE
    ensures FanIndex(3 * t + 2) == (t + 2) % WORD_RANGE
  {
    assert (3 * t + 1) / 3 == t && (3 * t + 1) % 3 == 1;
    assert (3 * t + 2) / 3 == t && (3 * t + 2) % 3 == 2;
  }

  /**
   * With at most 65536 vertices every index names a vertex of the buffer,
   * and triangle t is exactly (0, t+1, t+2): consecutive triangles share an
   * edge and all share vertex 0.
   */
  lemma FanIndicesInRange(vertices: nat, t: nat)
    requires 2 < vertices <= WORD_RANGE && t < vertices - 2
    ensures FanIndex(3 * t) == 0 && FanIndex(3 * t + 1) == t + 1 && FanIndex(3 * t + 2) == t + 2
    ensures FanIndex(3 * t + 2) < vertices
  {
    FanIndexAt(t);
  }

  /** Beyond 65536 vertices the WORD index wraps: triangle 65534 of a 65537-vertex fan refers to vertex 0. */
  lemma FanIndexWraps()
    ensures FanIndex(3 * 65534 + 2) == 0
  {
    assert (3 * 65534 + 2) / 3 == 65534 && (3 * 65534 + 2) % 3 == 2;
  }

  // ---- GetSupportedTextureFormat ----

  datatype PixelFormat =
    | Undefined
    | BGR32bpp
    | PBGRA32bpp
    | BGR32bpp101010
    | RGB128bppFloat
    | PRGBA128bppFloat
    | OtherFormat(code: nat)

  /** The formats the function can choose, and whether each carries alpha. */
  predicate HasAlpha(f: PixelFormat) { f == PBGRA32bpp || f == PRGBA128bppFloat }

  /**
   * GetSupportedTextureFormat.  srcHasAlpha and srcBits are HasAlphaChannel
   * and GetPixelFormatSize of the source format.  Result: (code, format).
   */
  function TextureFormat(src: PixelFormat, dst: PixelFormat, forceAlpha: bool,
                         srcHasAlpha: bool, srcBits: nat): (HRESULT, PixelFormat)
  {
    var useAlpha := forceAlpha || srcHasAlpha;
    var fmt :=
      if dst == BGR32bpp101010 then
        if src == RGB128bppFloat then PRGBA128bppFloat
        else if srcBits <= 32 && !useAlpha then BGR32bpp101010
        else PRGBA128bppFloat
      else if !useAlpha then BGR32bpp
      else PBGRA32bpp;
    (if fmt == Undefined then WGXERR_UNSUPPORTEDPIXELFORMAT else S_OK, fmt)
  }

  /**
   * A format is always found; it keeps alpha exactly when the source has
   * alpha or alpha is forced (a float source on a 10-bit target always gets
   * the float format); a 10-bit target gets a 10-bit or float texture and
   * any other target an 8-bit BGR texture; the 10-bit texture is chosen only
   * for sources of at most 32 bits.
   */
  lemma TextureFormatChoice(src: PixelFormat, dst: PixelFormat, forceAlpha: bool,
                            srcHasAlpha: bool, srcBits: nat)
    ensures var (hr, f) := TextureFormat(src, dst, forceAlpha, srcHasAlpha, srcBits);
      && hr == S_OK && f != Undefined
      && (forceAlpha || srcHasAlpha ==> HasAlpha(f))
      && (HasAlpha(f) <==> forceAlpha || srcHasAlpha || (dst == BGR32bpp101010 && (src == RGB128bppFloat || srcBits > 32)))
      && (dst == BGR32bpp101010 ==> f == BGR32bpp101010 || f == PRGBA128bppFloat)
      && (dst != BGR32bpp101010 ==> f == BGR32bpp || f == PBGRA32bpp)
      && (f == BGR32bpp101010 ==> srcBits <= 32)
  {
  }

  // ---- SetClipRect / GetClipRect ----

  /** MilPointAndSizeL. */
  datatype Rect = Rect(x: int, y: int, w: int, h: int)

  /** CMILSurfaceRect, as edges. */
  datatype SurfaceRect = SurfaceRect(left: int, top: int, right: int, bottom: int)

  function ToPointAndSize(r: SurfaceRect): Rect
  {
    Rect(r.left, r.top, r.right - r.left, r.bottom - r.top)
  }

  predicate Contains(r: Rect, px: int, py: int)
  {
    r.x <= px < r.x + r.w && r.y <= py < r.y + r.h
  }

  function Max(a: int, b: int): int { if a < b then b else a }
  function Min(a: int, b: int): int { if a < b then a else b }

  /** IntersectRect on point-and-size rectangles: None when the overlap is empty. */
  function Intersect(a: Rect, b: Rect): Option<Rect>
  {
    var l := Max(a.x, b.x);
    var t := Max(a.y, b.y);
    var r := Min(a.x + a.w, b.x + b.w);
    var btm := Min(a.y + a.h, b.y + b.h);
    if l < r && t < btm then Some(Rect(l, t, r - l, btm - t)) else None
  }

  /** A point is in the intersection exactly when it is in both rectangles. */
  lemma IntersectContains(a: Rect, b: Rect, px: int, py: int)
    ensures (Intersect(a, b).Some? && Contains(Intersect(a, b).value, px, py))
            <==> Contains(a, px, py) && Contains(b, px, py)
    ensures Intersect(a, b).Some? ==> Intersect(a, b).value.w > 0 && Intersect(a, b).value.h > 0
  {
  }

  /** The clip memo: whether a clip is set, and the clip. */
  datatype ClipState = ClipState(clipSet: bool, clip: Rect)

  function Target(width: nat, height: nat): Rect { Rect(0, 0, width, height) }

  /** GetClipRect. */
  function ClipOf(s: ClipState, width: nat, height: nat): Rect
  {
    if s.clipSet then s.clip else Target(width, height)
  }

  /**
   * SetClipRect(arg) on a width x height target; scissorHr is the answer of
   * SetScissorRect (the device always supports scissor rectangles).
   * "Already set to this clip" is read as: a clip is set and equals it.
   */
  function SetClip(s: ClipState, width: nat, height: nat, arg: Option<SurfaceRect>,
                   scissorHr: HRESULT): (ClipState, HRESULT)
  {
    var newClip: Option<Rect> :=
      if arg.Some? then
        match Intersect(Target(width, height), ToPointAndSize(arg.value))
        case None => None
        case Some(rc) => if s.clipSet && s.clip == rc then None else Some(rc)
      else if s.clipSet then Some(Target(width, height))
      else None;
    if arg.Some? && Intersect(Target(width, height), ToPointAndSize(arg.value)).None? then
      (s, WGXHR_CLIPPEDTOEMPTY)
    else if newClip.None? then (s, S_OK)
    else if Failed(scissorHr) then (s, scissorHr)
    else (ClipState(arg.Some?, newClip.value), S_OK)
  }

  /**
   * GetClipRect after SetClipRect: a clip argument that misses the target
   * is refused with CLIPPEDTOEMPTY and changes nothing; otherwise, when the
   * scissor call succeeds, the clip read back is the argument cut to the
   * target, and with no argument it is the whole target.  A failing scissor
   * call is returned and leaves the clip as it was.
   */
  lemma SetThenGetClip(s: ClipState, width: nat, height: nat, arg: Option<SurfaceRect>, scissorHr: HRESULT)
    ensures var (s', hr) := SetClip(s, width, height, arg, scissorHr);
      && (arg.Some? && Intersect(Target(width, height), ToPointAndSize(arg.value)).None? ==>
            hr == WGXHR_CLIPPEDTOEMPTY && s' == s)
      && (Succeeded(scissorHr) && arg.Some? && Intersect(Target(width, height), ToPointAndSize(arg.value)).Some? ==>
            hr == S_OK && ClipOf(s', width, height) == Intersect(Target(width, height), ToPointAndSize(arg.value)).value)
      && (Succeeded(scissorHr) && arg.None? ==> hr == S_OK && ClipOf(s', width, height) == Target(width, height) && !s'.clipSet)
      && (Failed(hr) ==> s' == s && hr == scissorHr)
  {
  }

  // ---- Enter / Leave ----

  /** m_cEntry and m_dwThreadId. */
  datatype Entry = Entry(count: nat, threadId: nat)

  /** Between calls a thread id is recorded exactly while the device is entered. */
  predicate EntryValid(e: Entry) { (e.count == 0) == (e.threadId == 0) }

  function EnterState(e: Entry, thread: nat): Entry
  {
    Entry(e.count + 1, thread)
  }

  function LeaveState(e: Entry): Entry
    requires e.count > 0
  {
    if e.count - 1 == 0 then Entry(0, 0) else Entry(e.count - 1, e.threadId)
  }

  /** IsEntered. */
  predicate Entered(e: Entry) { e.count > 0 }

  /** IsProtected: an unforced check always passes; a forced one needs the entering thread. */
  predicate Protected(e: Entry, force: bool, thread: nat) { !force || e.threadId == thread }

  /**
   * A Leave on the thread that entered undoes an Enter: entries nest, the
   * validity of the pair is kept, and the thread is recorded while entered.
   */
  lemma LeaveUndoesEnter(e: Entry, thread: nat)
    requires EntryValid(e) && thread != 0 && (e.count == 0 || e.threadId == thread)
    ensures EntryValid(EnterState(e, thread)) && Entered(EnterState(e, thread))
    ensures Protected(EnterState(e, thread), true, thread)
    ensures LeaveState(EnterState(e, thread)) == e
  {
  }

  // ---- AdvanceFrame ----

  /** The calls the device makes into its resource manager. */
  datatype ResourceCall =
    | EndFrame
    | DestroyReleasedResourcesFromLastFrame
    | DestroyResourcesWithDelay
    | UseResource(resource: nat)
    | EnterUseContext
    | ExitUseContext(depth: nat)

  /** AdvanceFrame: (frame number, calls made) after the call. */
  function AdvanceFrame(frame: nat, calls: seq<ResourceCall>, n: nat): (nat, seq<ResourceCall>)
  {
    if frame != n then (n, calls + [EndFrame, DestroyReleasedResourcesFromLastFrame, DestroyResourcesWithDelay])
    else (frame, calls)
  }

  /**
   * The same frame number changes nothing, so advancing twice to one frame
   * is advancing once; a new number releases the frame's resources in order.
   */
  lemma AdvanceFrameIdempotent(frame: nat, calls: seq<ResourceCall>, n: nat)
    ensures AdvanceFrame(frame, calls, frame) == (frame, calls)
    ensures var (f1, c1) := AdvanceFrame(frame, calls, n); AdvanceFrame(f1, c1, n) == (f1, c1)
    ensures AdvanceFrame(frame, calls, n).0 == n
    ensures frame != n ==> AdvanceFrame(frame, calls, n).1[|calls|..]
                            == [EndFrame, DestroyReleasedResourcesFromLastFrame, DestroyResourcesWithDelay]
  {
  }

  // ---- UpdateMetrics ----

  /** UpdateMetrics on the DWORD counters (vertices, triangles): only with metrics on. */
  function UpdateMetrics(on: bool, vertices: nat, triangles: nat, dv: nat, dt: nat): (nat, nat)
  {
    if on then (AddU32(vertices, dv), AddU32(triangles, dt)) else (vertices, triangles)
  }
}
