/**
 * CD3DDeviceLevel1 (core/hw/d3ddevice.cpp, core/hw/d3ddevice.h): the fields
 * the device updates in place and the methods that update them.
 *
 * Markers are kept by value: the active and free lists hold MarkerState
 * values, and every marker method is proved to perform exactly the
 * transition of module DeviceMarkers.  The other methods are proved
 * against the functions of module DeviceRules.  Native calls (GetData,
 * CreateQuery, Present, IsWindow, the vertex buffer) are parameters: their
 * answers are passed in.
 */
module D3DDevice {
  import opened HResults
  import opened GpuMarkers
  import opened DeviceMarkers
  import opened DeviceRules

  /** The draw calls the device issues to the device context. */
  datatype DrawCall =
    | Draw(topology: Topology, vertices: nat, start: nat)
    | DrawIndexedFan(vertices: nat, triangles: nat, indices: seq<nat>)

  class Device {
    // GPU markers
    var active: seq<MarkerState>      // m_rgpMarkerActive, oldest first
    var free: seq<MarkerState>        // m_rgpMarkerFree
    var gpuMarkerFlags: bv32          // m_dwGPUMarkerFlags
    var lastMarkerId: nat             // m_ullLastMarkerId
    var lastConsumedMarkerId: nat     // m_ullLastConsumedMarkerId
    var presentsSinceFlush: nat       // m_uNumSuccessfulPresentsSinceMarkerFlush

    const hasNativeDevice: bool       // m_pD3DDevice != NULL
    const mediaControl: bool          // g_pMediaControl != NULL
    const targetWidth: nat            // m_desc.Width
    const targetHeight: nat           // m_desc.Height

    var cEntry: nat                   // m_cEntry
    var threadId: nat                 // m_dwThreadId
    var inScene: bool                 // m_fInScene
    var hrDisplayInvalid: HRESULT     // m_hrDisplayInvalid
    var hasCurrentRenderTarget: bool  // m_pCurrentRenderTargetNoRef != NULL
    var frameNumber: nat              // m_uFrameNumber
    var resourceCalls: seq<ResourceCall>  // calls made to m_resourceManager
    var metricsVertices: nat          // m_dwMetricsVerticesPerFrame
    var metricsTriangles: nat         // m_dwMetricsTrianglesPerFrame
    var draws: seq<DrawCall>          // draw calls issued
    var clipSet: bool
    var clip: Rect
    ghost var unusableRequests: nat   // calls of MarkUnusable (whose body is empty)

    ghost function MarkerView(): Markers
      reads this
    {
      Markers(active, free, gpuMarkerFlags, lastMarkerId, lastConsumedMarkerId, presentsSinceFlush)
    }

    ghost function EntryView(): Entry
      reads this
    {
      Entry(cEntry, threadId)
    }

    ghost function ClipView(): ClipState
      reads this
    {
      ClipState(clipSet, clip)
    }

    /** What holds between calls. */
    ghost predicate Invariant()
      reads this
    {
      DeviceMarkers.Valid(MarkerView()) && EntryValid(EntryView())
    }

    /** The constructor's initial values. */
    constructor (hasNativeDevice: bool, mediaControl: bool, width: nat, height: nat)
      ensures Invariant()
      ensures MarkerView() == Initial && EntryView() == Entry(0, 0)
      ensures !inScene && hrDisplayInvalid == S_OK && frameNumber == 0 && !clipSet
      ensures metricsVertices == 0 && metricsTriangles == 0 && resourceCalls == [] && draws == []
      ensures this.hasNativeDevice == hasNativeDevice && this.mediaControl == mediaControl
      ensures targetWidth == width && targetHeight == height
    {
      this.hasNativeDevice := hasNativeDevice;
      this.mediaControl := mediaControl;
      targetWidth := width;
      targetHeight := height;
      active := [];
      free := [];
      gpuMarkerFlags := 0;
      lastMarkerId := 0;
      lastConsumedMarkerId := 0;
      presentsSinceFlush := 0;
      cEntry := 0;
      threadId := 0;
      inScene := false;
      hrDisplayInvalid := S_OK;
      hasCurrentRenderTarget := false;
      frameNumber := 0;
      resourceCalls := [];
      metricsVertices := 0;
      metricsTriangles := 0;
      draws := [];
      clipSet := false;
      clip := Rect(0, 0, 0, 0);
      unusableRequests := 0;
    }

    // ---- HandleDIE and MarkUnusable ----

    method HandleDIE(hr: HRESULT) returns (r: HRESULT)
      modifies this`hrDisplayInvalid
      ensures (hrDisplayInvalid, r) == DeviceRules.HandleDIE(old(hrDisplayInvalid), hr)
    {
      r := hr;
      if hr == D3DERR_DRIVERINTERNALERROR {
        hrDisplayInvalid := D3DERR_DRIVERINTERNALERROR;
        r := WGXERR_DISPLAYSTATEINVALID;
      }
    }

    /** MarkUnusable: its body is empty; only the call is recorded. */
    method MarkUnusable()
      modifies this`unusableRequests
      ensures unusableRequests == old(unusableRequests) + 1
    {
      unusableRequests := unusableRequests + 1;
    }

    // ---- GPU markers ----

    method ResetMarkers()
      modifies this`active, this`free, this`lastConsumedMarkerId
      ensures MarkerView() == DeviceMarkers.ResetMarkers(old(MarkerView()))
    {
      lastConsumedMarkerId := lastMarkerId;
      free := [];
      active := [];
    }

    method DisableGPUMarkers()
      modifies this`gpuMarkerFlags, this`active, this`free, this`lastConsumedMarkerId
      ensures MarkerView() == DisableMarkers(old(MarkerView()))
    {
      gpuMarkerFlags := ClearEnabled(gpuMarkerFlags);
      ResetMarkers();
    }

    /**
     * The cleanup InsertGPUMarker ends with: too long a backlog disables
     * markers, device lost and not available are tolerated, and any other
     * failure disables markers and is swallowed.
     */
    method InsertCleanupStep(hr0: HRESULT) returns (hr: HRESULT)
      modifies this`gpuMarkerFlags, this`active, this`free, this`lastConsumedMarkerId
      ensures (MarkerView(), hr) == InsertCleanup(old(MarkerView()), hr0)
    {
      hr := hr0;
      if |active| > GPU_MARKERS_MAX_ARRAY_SIZE {
        DisableGPUMarkers();
      }
      if hr == D3DERR_DEVICELOST || hr == D3DERR_NOTAVAILABLE {
        hr := S_OK;
      }
      if Failed(hr) {
        hr := S_OK;
        DisableGPUMarkers();
      }
    }

    /** Issue the marker, append it to the active list, then clean up. */
    method IssueAndAppend(marker: MarkerState, addHr: HRESULT) returns (hr: HRESULT)
      modifies this`gpuMarkerFlags, this`active, this`free, this`lastConsumedMarkerId
      ensures (MarkerView(), hr) == IssueAndAdd(old(MarkerView()), marker, addHr)
    {
      var r := Insert(marker);
      hr := r.1;
      if Succeeded(hr) {
        hr := addHr;
        if Succeeded(hr) {
          active := active + [r.0];
        }
      }
      hr := InsertCleanupStep(hr);
    }

    /** The support probe InsertGPUMarker makes the first time. */
    method ProbeMarkers(probeHr: HRESULT) returns (hr: HRESULT)
      modifies this`gpuMarkerFlags
      ensures (MarkerView(), hr) == Probe(old(MarkerView()), probeHr)
    {
      hr := S_OK;
      if !HasFlag(gpuMarkerFlags, MARKERS_TESTED) {
        hr := probeHr;
        if Succeeded(hr) {
          gpuMarkerFlags := SetFlag(gpuMarkerFlags, MARKERS_ENABLED);
        }
        gpuMarkerFlags := SetFlag(gpuMarkerFlags, MARKERS_TESTED);
      }
    }

    /**
     * InsertGPUMarker(id).  probeHr: CreateQuery's answer to the one-time
     * support probe; createHr, allocOk: CreateQuery's answer and the
     * allocation's success when no free marker can be recycled; addHr: the
     * active list's Add.  An uncommitted marker is simply dropped.
     */
    method InsertGPUMarker(id: nat, probeHr: HRESULT, createHr: HRESULT, allocOk: bool, addHr: HRESULT)
      returns (hr: HRESULT)
      requires Invariant()
      modifies this`gpuMarkerFlags, this`active, this`free, this`lastMarkerId,
               this`lastConsumedMarkerId, this`hrDisplayInvalid
      ensures (MarkerView(), hr) == InsertMarker(old(MarkerView()), id, hasNativeDevice, probeHr, createHr, allocOk, addHr)
      ensures Invariant() && Succeeded(hr) && hrDisplayInvalid == old(hrDisplayInvalid)
    {
      ghost var m0 := MarkerView();
      InsertKeepsValid(m0, id, hasNativeDevice, probeHr, createHr, allocOk, addHr);
      if id < lastMarkerId || !hasNativeDevice {
        hr := InsertCleanupStep(S_OK);
      } else {
        hr := InsertAccepted(id, probeHr, createHr, allocOk, addHr);
      }
      hr := HandleDIE(hr);
    }

    /** InsertGPUMarker for an id not older than the last and a device that exists. */
    method InsertAccepted(id: nat, probeHr: HRESULT, createHr: HRESULT, allocOk: bool, addHr: HRESULT)
      returns (hr: HRESULT)
      requires id >= lastMarkerId && hasNativeDevice
      modifies this`gpuMarkerFlags, this`active, this`free, this`lastMarkerId, this`lastConsumedMarkerId
      ensures (MarkerView(), hr) == InsertMarker(old(MarkerView()), id, hasNativeDevice, probeHr, createHr, allocOk, addHr)
    {
      hr := ProbeMarkers(probeHr);
      if !HasFlag(gpuMarkerFlags, MARKERS_ENABLED) {
        lastMarkerId := id;
        hr := InsertCleanupStep(hr);
      } else if |free| > 0 {
        var n := |free|;
        var marker := ResetMarker(free[n - 1], id);
        free := free[..n - 1];
        hr := IssueAndAppend(marker, addHr);
      } else if Failed(createHr) {
        hr := InsertCleanupStep(createHr);
      } else if !allocOk {
        hr := InsertCleanupStep(E_OUTOFMEMORY);
      } else {
        hr := IssueAndAppend(ResetMarker(MarkerState(true, false, false, 0), id), addHr);
      }
    }

    /** IsConsumedGPUMarker(i, flush); getData is GetData's answer for marker i. */
    method IsConsumedGPUMarker(i: nat, flush: bool, getData: HRESULT) returns (hr: HRESULT, consumed: bool)
      requires Invariant() && i < |active|
      modifies this`gpuMarkerFlags, this`active, this`free, this`lastConsumedMarkerId
      ensures (MarkerView(), consumed) == IsConsumed(old(MarkerView()), i, flush, getData)
      ensures Succeeded(hr) && (!consumed ==> MarkerView() == old(MarkerView()))
    {
      if getData != S_OK && Succeeded(getData) {
        IsConsumedPending(MarkerView(), i, flush, getData);
      }
      var c := StatusCheck(active[i], flush, getData);
      active := active[i := c.marker];
      hr := c.hr;
      consumed := c.reportedConsumed;
      if hr == D3DERR_DEVICELOST {
        consumed := true;
        hr := S_OK;
      }
      if Succeeded(hr) && consumed {
        gpuMarkerFlags := SetFlag(gpuMarkerFlags, MARKER_CONSUMED);
      }
      if Failed(hr) {
        hr := S_OK;
        DisableGPUMarkers();
        consumed := true;
      }
    }

    /**
     * FreeMarkerAndItsPredecessors(i): markers 0..i are appended to the
     * free list in order, the rest shifted to the front in order, and the
     * last consumed id becomes marker i's.  Nothing is lost or duplicated.
     */
    method FreeMarkerAndItsPredecessors(i: nat) returns (hr: HRESULT)
      requires i < |active|
      modifies this`active, this`free, this`lastConsumedMarkerId
      ensures MarkerView() == FreeThrough(old(MarkerView()), i)
      ensures hr == S_OK
    {
      hr := S_OK;
      ghost var a := active;
      ghost var f := free;
      var cConsumed := i + 1;
      var cNew := |active| - cConsumed;
      lastConsumedMarkerId := active[i].id;
      var ui := 0;
      while ui < cConsumed
        modifies this`free
        invariant 0 <= ui <= cConsumed
        invariant active == a
        invariant free == f + a[..ui]
      {
        free := free + [active[ui]];
        ui := ui + 1;
        assert a[..ui] == a[..ui - 1] + [a[ui - 1]];
      }
      ui := 0;
      while ui < cNew
        modifies this`active
        invariant 0 <= ui <= cNew
        invariant |active| == |a|
        invariant forall q | 0 <= q < ui :: active[q] == a[cConsumed + q]
        invariant forall q | ui <= q < |a| :: active[q] == a[q]
      {
        active := active[ui := active[cConsumed + ui]];
        ui := ui + 1;
      }
      active := active[..cNew];
      assert active == a[cConsumed..];
    }

    /**
     * ConsumePresentMarkers(flush), as corrected: the active markers are
     * polled from the newest down (answers[j] is GetData's answer for marker
     * j), and the walk ends at the first marker reported consumed, which is
     * freed with its predecessors only if the poll left it in the list.
     */
    method ConsumePresentMarkers(flush: bool, answers: seq<HRESULT>) returns (hr: HRESULT)
      requires Invariant() && |answers| == |active|
      modifies this`gpuMarkerFlags, this`active, this`free, this`lastConsumedMarkerId,
               this`presentsSinceFlush
      ensures MarkerView() == Consume(old(MarkerView()), old(|active|), flush, answers)
      ensures ConsumeSpec(old(MarkerView()), MarkerView(), LastStop(answers, old(|active|)), answers)
      ensures Invariant() && Succeeded(hr)
    {
      ghost var m0 := MarkerView();
      hr := PollPresentMarkers(flush, answers);
      ConsumeOutcome(m0, |m0.active|, flush, answers);
    }

    /** ConsumePresentMarkers' loop: poll from the newest marker down until one stops the walk. */
    method PollPresentMarkers(flush: bool, answers: seq<HRESULT>) returns (hr: HRESULT)
      requires Invariant() && |answers| == |active|
      modifies this`gpuMarkerFlags, this`active, this`free, this`lastConsumedMarkerId,
               this`presentsSinceFlush
      ensures MarkerView() == Consume(old(MarkerView()), old(|active|), flush, answers)
      ensures Succeeded(hr) && EntryView() == old(EntryView())
    {
      ghost var target := Consume(MarkerView(), |active|, flush, answers);
      hr := S_OK;
      var fForceFlush := flush;
      var i: nat := |active|;  // markers i-1 down to 0 remain to be polled
      while i > 0
        invariant i <= |active| == |answers| && Invariant()
        invariant Succeeded(hr) && EntryView() == old(EntryView())
        invariant Consume(MarkerView(), i, fForceFlush, answers) == target
      {
        var stop;
        hr, stop := PollPresentMarker(i, fForceFlush, answers);
        if stop {
          return;
        }
        fForceFlush := false;
        i := i - 1;
      }
    }

    /**
     * One round of ConsumePresentMarkers' loop: poll marker i-1; when it is
     * reported consumed, free it with its predecessors and stop, otherwise
     * drop the flush request (resetting the present count if it was set).
     */
    method PollPresentMarker(i: nat, flush: bool, answers: seq<HRESULT>) returns (hr: HRESULT, stop: bool)
      requires Invariant() && 0 < i <= |active| == |answers|
      modifies this`gpuMarkerFlags, this`active, this`free, this`lastConsumedMarkerId,
               this`presentsSinceFlush
      ensures Succeeded(hr)
      ensures stop ==> MarkerView() == Consume(old(MarkerView()), i, flush, answers)
      ensures !stop ==> (Invariant() && |active| == old(|active|)
                         && Consume(MarkerView(), i - 1, false, answers)
                            == Consume(old(MarkerView()), i, flush, answers))
    {
      ghost var mb := MarkerView();
      ConsumeStep(mb, i, flush, answers);
      hr, stop := IsConsumedGPUMarker(i - 1, flush, answers[i - 1]);
      if stop {
        if i - 1 < |active| {
          hr := FreeMarkerAndItsPredecessors(i - 1);
        }
        return;
      }
      if flush {
        presentsSinceFlush := 0;
      }
    }

    /** GetNumQueuedPresents: always none. */
    method GetNumQueuedPresents() returns (hr: HRESULT, queued: nat)
      ensures hr == S_OK && queued == 0
    {
      hr := S_OK;
      queued := 0;
    }

    // ---- entry protection ----

    /** Enter on the calling thread (thread ids are never 0). */
    method Enter(thread: nat)
      requires thread != 0
      modifies this`cEntry, this`threadId
      ensures EntryView() == EnterState(old(EntryView()), thread)
    {
      cEntry := cEntry + 1;
      threadId := thread;
    }

    /** Leave, on the thread that entered. */
    method Leave(thread: nat)
      requires cEntry > 0 && threadId == thread
      modifies this`cEntry, this`threadId
      ensures EntryView() == LeaveState(old(EntryView()))
    {
      cEntry := cEntry - 1;
      if cEntry == 0 {
        threadId := 0;
      }
    }

    method IsEntered() returns (entered: bool)
      ensures entered == Entered(EntryView())
    {
      entered := cEntry > 0;
    }

    method IsProtected(force: bool, thread: nat) returns (isProtected: bool)
      ensures isProtected == Protected(EntryView(), force, thread)
    {
      isProtected := !force || threadId == thread;
    }

    // ---- frames and the resource manager ----

    method AdvanceFrame(n: nat)
      modifies this`frameNumber, this`resourceCalls
      ensures (frameNumber, resourceCalls) == DeviceRules.AdvanceFrame(old(frameNumber), old(resourceCalls), n)
    {
      if frameNumber != n {
        frameNumber := n;
        resourceCalls := resourceCalls + [EndFrame, DestroyReleasedResourcesFromLastFrame, DestroyResourcesWithDelay];
      }
    }

    method Use(resource: nat)
      modifies this`resourceCalls
      ensures resourceCalls == old(resourceCalls) + [UseResource(resource)]
    {
      resourceCalls := resourceCalls + [UseResource(resource)];
    }

    /** rmDepth: the resource manager's answer. */
    method EnterUseContext(rmDepth: nat) returns (depth: nat)
      modifies this`resourceCalls
      ensures resourceCalls == old(resourceCalls) + [ResourceCall.EnterUseContext] && depth == rmDepth
    {
      resourceCalls := resourceCalls + [ResourceCall.EnterUseContext];
      depth := rmDepth;
    }

    method ExitUseContext(depth: nat)
      modifies this`resourceCalls
      ensures resourceCalls == old(resourceCalls) + [ResourceCall.ExitUseContext(depth)]
    {
      resourceCalls := resourceCalls + [ResourceCall.ExitUseContext(depth)];
    }

    // ---- scenes and present ----

    method BeginScene() returns (hr: HRESULT)
      requires !inScene
      modifies this`inScene
      ensures inScene && hr == S_OK
    {
      inScene := true;
      hr := S_OK;
    }

    method EndScene() returns (hr: HRESULT)
      requires inScene
      modifies this`inScene
      ensures !inScene && hr == S_OK
    {
      inScene := false;
      hr := S_OK;
    }

    /**
     * BEGIN/END_DEVICE_ALLOCATION around the swap chain's Present:
     * answers[j] is Present's answer on attempt j and frees[j] the resource
     * manager's FreeSomeVideoMemory answer after it.  The loop runs until the
     * resource manager declines, and yields the last attempt's answer.
     */
    method PresentWithRetry(answers: seq<HRESULT>, frees: seq<bool>) returns (hr: HRESULT, attempts: nat)
      requires |answers| == |frees| && false in frees
      ensures attempts == FirstStop(frees) + 1 && hr == answers[attempts - 1]
    {
      hr := answers[0];
      var again := frees[0];
      attempts := 1;
      while again
        invariant 1 <= attempts <= FirstStop(frees) + 1
        invariant hr == answers[attempts - 1] && again == frees[attempts - 1]
        decreases FirstStop(frees) + 1 - attempts
      {
        hr := answers[attempts];
        again := frees[attempts];
        attempts := attempts + 1;
      }
    }

    /** HandlePresentFailure(hr); isWindow: IsWindow's answer. */
    method HandlePresentFailure(hr: HRESULT, isWindow: bool) returns (r: HRESULT)
      requires Failed(hr)
      modifies this`hasCurrentRenderTarget, this`unusableRequests
      ensures r == PresentFailure(hr, isWindow).0 && !hasCurrentRenderTarget
      ensures unusableRequests == old(unusableRequests) + (if PresentFailure(hr, isWindow).1 then 1 else 0)
    {
      r := hr;
      hasCurrentRenderTarget := false;
      if !isWindow {
        r := FromWin32(ERROR_INVALID_WINDOW_HANDLE);
      } else if r == E_FAIL || r == D3DERR_DRIVERINTERNALERROR {
        r := D3DERR_DEVICELOST;
      } else if r == E_INVALIDARG {
        r := WGXERR_NEED_RECREATE_AND_PRESENT;
      }
      if r == D3DERR_DEVICELOST || r == D3DERR_DEVICEHUNG || r == D3DERR_DEVICEREMOVED {
        r := WGXERR_DISPLAYSTATEINVALID;
        MarkUnusable();
      }
    }

    method PresentWithD3D(answers: seq<HRESULT>, frees: seq<bool>, isWindow: bool)
      returns (hr: HRESULT, processed: bool)
      requires |answers| == |frees| && false in frees
      modifies this`hasCurrentRenderTarget, this`unusableRequests
      ensures var o := PresentAnswer(answers[FirstStop(frees)], isWindow);
        hr == o.hr && processed == o.processed
        && unusableRequests == old(unusableRequests) + (if o.markUnusable then 1 else 0)
      ensures !hasCurrentRenderTarget
    {
      processed := false;
      var attempts;
      hr, attempts := PresentWithRetry(answers, frees);
      hasCurrentRenderTarget := false;
      if hr == S_OK {
        processed := true;
      } else if hr == S_PRESENT_MODE_CHANGED {
        hr := D3DERR_DEVICELOST;
      } else if hr == S_PRESENT_OCCLUDED {
        hr := S_OK;
      }
      if Failed(hr) {
        hr := HandlePresentFailure(hr, isWindow);
      }
    }

    /**
     * Present.  A remembered display-invalid failure is returned at once.
     * Otherwise the frame's metrics are reset (when collected), the scene
     * is ended around the present and begun again only if the present
     * succeeded.
     */
    method Present(answers: seq<HRESULT>, frees: seq<bool>, isWindow: bool) returns (hr: HRESULT)
      requires |answers| == |frees| && false in frees
      modifies this`inScene, this`hasCurrentRenderTarget, this`unusableRequests,
               this`metricsVertices, this`metricsTriangles
      ensures Failed(old(hrDisplayInvalid)) ==>
        && hr == old(hrDisplayInvalid) && inScene == old(inScene)
        && hasCurrentRenderTarget == old(hasCurrentRenderTarget)
        && metricsVertices == old(metricsVertices) && metricsTriangles == old(metricsTriangles)
        && unusableRequests == old(unusableRequests) + 1
      ensures Succeeded(old(hrDisplayInvalid)) ==>
        var o := PresentAnswer(answers[FirstStop(frees)], isWindow);
        && hr == o.hr
        && inScene == (old(inScene) && Succeeded(hr))
        && !hasCurrentRenderTarget
        && (mediaControl ==> metricsVertices == 0 && metricsTriangles == 0)
        && (!mediaControl ==> metricsVertices == old(metricsVertices) && metricsTriangles == old(metricsTriangles))
        && unusableRequests == old(unusableRequests) + (if o.markUnusable then 1 else 0)
    {
      if Failed(hrDisplayInvalid) {
        MarkUnusable();
        hr := hrDisplayInvalid;
        return;
      }
      if mediaControl {
        metricsVertices := 0;
        metricsTriangles := 0;
      }
      var fRestoreScene := inScene;
      if inScene {
        hr := EndScene();
      }
      var processed;
      hr, processed := PresentWithD3D(answers, frees, isWindow);
      if Failed(hr) {
        return;
      }
      if fRestoreScene {
        var hrScene := BeginScene();
      }
    }

    // ---- drawing ----

    method UpdateMetrics(vertices: nat, primitives: nat)
      modifies this`metricsVertices, this`metricsTriangles
      ensures (metricsVertices, metricsTriangles)
        == DeviceRules.UpdateMetrics(mediaControl, old(metricsVertices), old(metricsTriangles), vertices, primitives)
    {
      if mediaControl {
        metricsVertices := AddU32(metricsVertices, vertices);
        metricsTriangles := AddU32(metricsTriangles, primitives);
      }
    }

    method DrawTriangleList(startVertex: nat, primitives: nat) returns (hr: HRESULT)
      modifies this`draws, this`metricsVertices, this`metricsTriangles
      ensures draws == old(draws) + [Draw(TriangleList, VertexCount(TriangleList, primitives).value, startVertex)]
      ensures (metricsVertices, metricsTriangles)
        == DeviceRules.UpdateMetrics(mediaControl, old(metricsVertices), old(metricsTriangles),
                                     VertexCount(TriangleList, primitives).value, primitives)
      ensures hr == S_OK
    {
      var n := MulU32(primitives, 3);
      draws := draws + [Draw(TriangleList, n, startVertex)];
      UpdateMetrics(n, primitives);
      hr := S_OK;
    }

    method DrawTriangleStrip(startVertex: nat, primitives: nat) returns (hr: HRESULT)
      modifies this`draws, this`metricsVertices, this`metricsTriangles
      ensures draws == old(draws) + [Draw(TriangleStrip, VertexCount(TriangleStrip, primitives).value, startVertex)]
      ensures (metricsVertices, metricsTriangles)
        == DeviceRules.UpdateMetrics(mediaControl, old(metricsVertices), old(metricsTriangles),
                                     VertexCount(TriangleStrip, primitives).value, primitives)
      ensures hr == S_OK
    {
      var n := AddU32(primitives, 2);
      draws := draws + [Draw(TriangleStrip, n, startVertex)];
      UpdateMetrics(n, primitives);
      hr := S_OK;
    }

    /**
     * DrawPrimitiveUP(t, primitives).  lockHr, unlockHr, setVbHr: the vertex
     * buffer's Lock, Unlock and SetVertexBuffer answers; startVertex: the
     * position Lock hands out.  The Lock answer is not checked: it only
     * decides whether a failed Unlock is retried.  unlocks counts Unlock calls.
     */
    method DrawPrimitiveUP(t: Topology, primitives: nat, lockHr: HRESULT, unlockHr: HRESULT,
                           setVbHr: HRESULT, startVertex: nat) returns (hr: HRESULT, unlocks: nat)
      modifies this`draws, this`metricsVertices, this`metricsTriangles, this`hrDisplayInvalid
      ensures VertexCount(t, primitives).None? ==>
        && hr == E_INVALIDARG && unlocks == 0 && draws == old(draws)
        && hrDisplayInvalid == old(hrDisplayInvalid)
        && metricsVertices == old(metricsVertices) && metricsTriangles == old(metricsTriangles)
      ensures VertexCount(t, primitives).Some? ==>
        var n := VertexCount(t, primitives).value;
        var ok := Succeeded(unlockHr) && Succeeded(setVbHr);
        && unlocks == (if Failed(unlockHr) && Succeeded(lockHr) then 2 else 1)
        && (hrDisplayInvalid, hr) == DeviceRules.HandleDIE(old(hrDisplayInvalid),
             if Failed(unlockHr) then unlockHr else setVbHr)
        && draws == old(draws) + (if ok then [Draw(t, n, startVertex)] else [])
        && (metricsVertices, metricsTriangles)
           == (if ok then DeviceRules.UpdateMetrics(mediaControl, old(metricsVertices), old(metricsTriangles), n, primitives)
               else (old(metricsVertices), old(metricsTriangles)))
    {
      unlocks := 0;
      var vc := VertexCount(t, primitives);
      if vc.None? {
        hr := E_INVALIDARG;
        return;
      }
      var n := vc.value;
      hr := lockHr;
      var fLockAcquired := Succeeded(hr);
      hr := unlockHr;
      unlocks := unlocks + 1;
      if Succeeded(hr) {
        fLockAcquired := false;
        hr := setVbHr;
        if Succeeded(hr) {
          draws := draws + [Draw(t, n, startVertex)];
          UpdateMetrics(n, primitives);
        }
      }
      if fLockAcquired {
        unlocks := unlocks + 1;
      }
      hr := HandleDIE(hr);
    }

    /**
     * FlushBufferFan on a buffer of the given number of vertices: more than
     * two vertices are drawn as the fan (0, t+1, t+2) of WORD indices;
     * drawHr is DrawIndexedTriangleListUP's answer.
     */
    method FlushBufferFan(vertices: nat, drawHr: HRESULT) returns (hr: HRESULT)
      requires inScene
      requires vertices > 2 ==> 3 * (vertices - 2) < TWO32
      modifies this`draws, this`hrDisplayInvalid
      ensures vertices > 2 ==>
        && |draws| == |old(draws)| + 1 && draws[..|old(draws)|] == old(draws)
        && draws[|old(draws)|].DrawIndexedFan?
        && draws[|old(draws)|].vertices == vertices
        && draws[|old(draws)|].triangles == vertices - 2
        && |draws[|old(draws)|].indices| == 3 * (vertices - 2)
        && (forall k | 0 <= k < 3 * (vertices - 2) :: draws[|old(draws)|].indices[k] == FanIndex(k))
        && (hrDisplayInvalid, hr) == DeviceRules.HandleDIE(old(hrDisplayInvalid), drawHr)
      ensures vertices <= 2 ==> draws == old(draws) && hr == S_OK && hrDisplayInvalid == old(hrDisplayInvalid)
    {
      hr := S_OK;
      if vertices > 2 {
        var cTriangles := vertices - 2;
        var indexArray := new nat[cTriangles * 3];
        var indexCur := 0;
        var idx := 0;
        while idx < cTriangles
          modifies indexArray
          invariant 0 <= idx <= cTriangles && indexCur == 3 * idx
          invariant forall k | 0 <= k < indexCur :: indexArray[k] == FanIndex(k)
        {
          FanIndexAt(idx);
          indexArray[indexCur] := 0;
          indexArray[indexCur + 1] := (idx + 1) % WORD_RANGE;
          indexArray[indexCur + 2] := (idx + 2) % WORD_RANGE;
          indexCur := indexCur + 3;
          idx := idx + 1;
        }
        draws := draws + [DrawIndexedFan(vertices, cTriangles, indexArray[..])];
        hr := drawHr;
      }
      hr := HandleDIE(hr);
    }

    // ---- clipping ----

    /** SetClipRect(arg); scissorHr: SetScissorRect's answer. */
    method SetClipRect(arg: Option<SurfaceRect>, scissorHr: HRESULT) returns (hr: HRESULT)
      modifies this`clipSet, this`clip
      ensures (ClipView(), hr) == SetClip(old(ClipView()), targetWidth, targetHeight, arg, scissorHr)
    {
      hr := S_OK;
      var target := Target(targetWidth, targetHeight);
      var newClip: Option<Rect> := None;
      if arg.Some? {
        var rc := Intersect(target, ToPointAndSize(arg.value));
        if rc.None? {
          hr := WGXHR_CLIPPEDTOEMPTY;
          return;
        }
        if !(clipSet && clip == rc.value) {
          newClip := rc;
        }
      } else if clipSet {
        newClip := Some(target);
      }
      if newClip.Some? {
        hr := scissorHr;
        if Failed(hr) {
          return;
        }
        hr := S_OK;
        clipSet := arg.Some?;
        clip := newClip.value;
      }
    }

    method GetClipRect() returns (r: Rect)
      ensures r == ClipOf(ClipView(), targetWidth, targetHeight)
    {
      if clipSet {
        r := clip;
      } else {
        r := Target(targetWidth, targetHeight);
      }
    }
  }
}
