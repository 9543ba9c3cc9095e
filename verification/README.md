# WPF hardware rendering and DirectWrite interop, modelled in Dafny

This project models the core of WPF's hardware rendering layer (WpfGfx) and the managed DirectWrite interop of PresentationCore, with the logic behind them. The model proves properties of that core.

**WpfGfx, core/hw**
- The Direct3D device, `CD3DDeviceLevel1` (module `D3DDevice`, a class). The pure parts of the device are in separate modules:
  - its GPU-marker lists (`DeviceMarkers`): insertion, consumption of present markers, freeing a marker and its predecessors;
  - the error and state rules (`DeviceRules`): `HandleDIE`, present-failure mapping, vertex counts, the fan index buffer, texture format choice, clip rectangles, entry and leave, frame advance.
- A single GPU marker, `CGPUMarker` (`GpuMarkers`).
- The device manager's device list (`DevicePool`, `DeviceManagers`). Usable devices come before unusable ones. The manager handles lost and unused devices, display changes, the software device, callers and listeners.
- The render-state caches and the alpha-blend tables (`RenderStates`).
- The hardware pipeline (`HwPipelines`) and its builder (`HwPipelineBuilders`).
- Textures, surfaces and swap chains (`Textures`, `Surfaces`, `SwapChains`).
- The video-memory texture manager (`VidMemTextureManagers`) and the solid-colour texture source (`SolidColorTextureSources`).
- The flipping chain of a window render target (`HwndRenderTargets`).

**WpfGfx, other directories**
- The surface description helpers of core/common/d3dutils.cpp (`D3DUtils`).
- The error and string helpers of core/av/util.cpp (`AvUtil`).
- The shader resource generator of ShaderGen (`ResourceGens`). Its `printf` formats are modelled in `Formats`.

**PresentationCore, MS/internal/Text**
- The character classification and attribute masks (`CharAttributes`).
- The itemizer, which cuts a text into spans at the boundaries of DirectWrite's script and number-substitution lists and of the text's digit runs (`TextItemizers`).
- The blank glyphs for control characters (`TextAnalyzers`) and the TrueType subsetter's result handling (`TrueTypeSubsetters`).
- The font file and collection loaders' key and fragment checks (`FontLoaders`).
- The DWrite type converters and OpenType table tags (`DWriteConverters`).
- The `FontFace` reference count and the four-slot font-face cache (`FontFaces`).
- The font and localized-string enumerators (`Enumerators`).

**System.Xaml**
- The XAML permission classes and the value serializer attribute (`DotNetStrings`, `XamlPermissions`, `ValueSerializers`).

**Modelling choices**
- Objects whose fields the C++ or C# code updates in place are classes. Their methods are proved to perform a transition stated as a pure function, and the properties are proved about that function.
- Native Direct3D, DXGI, DirectWrite, GDI and file calls are not modelled. Where the code depends on one, its answer is a parameter: an `HRESULT`, a handle, a flag or the bytes it returns.
- `HRESULT` is the unsigned 32-bit pattern; a code fails when bit 31 is set. Windows and Direct3D codes have their published values. The `WGXERR_*` codes are not defined in any file modelled here. They are given distinct values in facility 0x898, and the model relies only on their being distinct codes with the right severity.
- UINT and size_t arithmetic wraps explicitly (modulo 2^32 or 2^64) wherever the code computes in those types.

## Model

| member | source | states |
|---|---|---|
| GpuMarkers.ResetThenInsert | src/Microsoft.DotNet.Wpf/src/WpfGfx/core/hw/gpumarker.cpp:67-101 | a reset marker is issued by InsertIntoCommandStream exactly when it owns a query (S_OK), and E_FAIL otherwise; it is unconsumed and carries the new id |
| GpuMarkers.CheckStatusReport | src/Microsoft.DotNet.Wpf/src/WpfGfx/core/hw/gpumarker.cpp:115-143 | CheckStatus reports consumed exactly when the marker is issued and consumed; a failure is GetData's own code after a GetData call; id, issued and query are kept and consumption is never undone |
| GpuMarkers.ConsumedExactlyWhenSeen | src/Microsoft.DotNet.Wpf/src/WpfGfx/core/hw/gpumarker.cpp:115-143 | over any series of polls a marker ends consumed exactly when it was consumed already or it is issued and the GPU answered S_OK once; issued and id never change |
| GpuMarkers.ConsumedIsNotPolled | src/Microsoft.DotNet.Wpf/src/WpfGfx/core/hw/gpumarker.cpp:115-143 | a marker already seen consumed is not polled again and reports consumed with S_OK |
| GpuMarkers.GPUMarker.constructor | src/Microsoft.DotNet.Wpf/src/WpfGfx/core/hw/gpumarker.cpp:33-39 | a new marker owns the given query, is not issued or consumed and has the given id |
| GpuMarkers.GPUMarker.Reset | src/Microsoft.DotNet.Wpf/src/WpfGfx/core/hw/gpumarker.cpp:67-72 | the marker's new state is the reset of the old one with the new id |
| GpuMarkers.GPUMarker.InsertIntoCommandStream | src/Microsoft.DotNet.Wpf/src/WpfGfx/core/hw/gpumarker.cpp:86-101 | the new state and result are the insert transition of the old state |
| GpuMarkers.GPUMarker.CheckStatus | src/Microsoft.DotNet.Wpf/src/WpfGfx/core/hw/gpumarker.cpp:115-143 | the new state, result, consumed report and GetData flags are the status-check transition of the old state |
| DeviceMarkers.SetFlagIndependent | src/Microsoft.DotNet.Wpf/src/WpfGfx/core/hw/d3ddevice.h:33-35 | the three marker flags are distinct bits: setting one turns it on and leaves the other two as they were |
| DeviceMarkers.ClearEnabledIndependent | src/Microsoft.DotNet.Wpf/src/WpfGfx/core/hw/d3ddevice.h:684-688 | DisableGPUMarkers' mask clears ENABLED and keeps TESTED and CONSUMED |
| DeviceMarkers.ResetMarkers | src/Microsoft.DotNet.Wpf/src/WpfGfx/core/hw/d3ddevice.cpp:3320-3337 | both lists are emptied and the last consumed id catches up with the last inserted id |
| DeviceMarkers.ProbeOutcome | src/Microsoft.DotNet.Wpf/src/WpfGfx/core/hw/d3ddevice.cpp:3476-3498 | after the one-time probe markers are tested, enabled exactly when already enabled or an untested probe succeeded, and nothing else changes |
| DeviceMarkers.IsConsumed | src/Microsoft.DotNet.Wpf/src/WpfGfx/core/hw/d3ddevice.cpp:3581-3625 | a marker not reported consumed leaves the active list's length as it was |
| DeviceMarkers.FreeThrough | src/Microsoft.DotNet.Wpf/src/WpfGfx/core/hw/d3ddevice.cpp:3641-3670 | freeing through marker i removes i + 1 markers from the active list |
| DeviceMarkers.FreeThroughConserves | src/Microsoft.DotNet.Wpf/src/WpfGfx/core/hw/d3ddevice.cpp:3641-3670 | freeing loses and duplicates no marker (the multiset of both lists is kept), the old free list is a prefix of the new one and the moved markers followed by the rest are the old active list |
| DeviceMarkers.ConsumeStep | src/Microsoft.DotNet.Wpf/src/WpfGfx/core/hw/d3ddevice.cpp:3350-3390 | one round of ConsumePresentMarkers: a marker reported consumed is freed with its predecessors (while still present) and ends the walk; otherwise the walk goes on with the flush request dropped |
| DeviceMarkers.DisableIsValid | src/Microsoft.DotNet.Wpf/src/WpfGfx/core/hw/d3ddevice.h:684-688 | disabling leaves a valid, disabled, empty state whose last consumed id is the last inserted id |
| DeviceMarkers.InsertCleanupValid | src/Microsoft.DotNet.Wpf/src/WpfGfx/core/hw/d3ddevice.cpp:3534-3564 | the cleanup block keeps the state valid (a backlog over 35 disables markers) and reports success: S_OK for swallowed failures, the lost and not-available codes and successes unchanged |
| DeviceMarkers.InsertKeepsValid | src/Microsoft.DotNet.Wpf/src/WpfGfx/core/hw/d3ddevice.cpp:3453-3566 | InsertGPUMarker always succeeds and keeps the marker state valid |
| DeviceMarkers.IssueAndAddValid | src/Microsoft.DotNet.Wpf/src/WpfGfx/core/hw/d3ddevice.cpp:3529-3564 | issuing and appending an unconsumed marker that owns a query keeps the state valid and succeeds |
| DeviceMarkers.InsertOutcome | src/Microsoft.DotNet.Wpf/src/WpfGfx/core/hw/d3ddevice.cpp:3453-3566 | for an accepted id the new issued marker becomes the newest active marker exactly when markers are (or the probe makes them) enabled, a marker was recycled or created, the append succeeded and the backlog was under 35 |
| DeviceMarkers.InsertNeedsProbe | src/Microsoft.DotNet.Wpf/src/WpfGfx/core/hw/d3ddevice.cpp:3476-3509 | markers never come on without a successful first probe |
| DeviceMarkers.InsertLists | src/Microsoft.DotNet.Wpf/src/WpfGfx/core/hw/d3ddevice.cpp:3505-3564 | with markers on afterwards the active list gained the new marker or is unchanged and the free list lost its newest marker (when it had one); with markers off both lists are empty |
| DeviceMarkers.InsertWatermark | src/Microsoft.DotNet.Wpf/src/WpfGfx/core/hw/d3ddevice.cpp:3465-3509 | an older id or a missing device changes nothing; the last id moves to the new id only on the disabled path |
| DeviceMarkers.IssueAndAddOutcome | src/Microsoft.DotNet.Wpf/src/WpfGfx/core/hw/d3ddevice.cpp:3529-3564 | appending succeeds or the state is disabled and emptied; the marker is appended exactly when Add succeeds and the backlog was under 35; the free list is kept while enabled |
| DeviceMarkers.IsConsumedOutcome | src/Microsoft.DotNet.Wpf/src/WpfGfx/core/hw/d3ddevice.cpp:3581-3625 | the marker is reported consumed exactly when GetData answered S_OK or failed; an unexpected failure disables markers; S_OK and device lost mark it and set CONSUMED; not-yet changes nothing |
| DeviceMarkers.IsConsumedSeen | src/Microsoft.DotNet.Wpf/src/WpfGfx/core/hw/d3ddevice.cpp:3581-3625 | S_OK or device lost reports consumed, sets CONSUMED and changes only that marker's consumed bit |
| DeviceMarkers.IsConsumedPending | src/Microsoft.DotNet.Wpf/src/WpfGfx/core/hw/d3ddevice.cpp:3581-3625 | a success other than S_OK (not reached yet) changes nothing and reports not consumed |
| DeviceMarkers.FreeAfterConsumed | src/Microsoft.DotNet.Wpf/src/WpfGfx/core/hw/d3ddevice.cpp:3370-3379 | after a consumed answer the marker and all older ones move, in order, to the end of the free list, the last consumed id becomes its id, and the state stays valid and enabled |
| DeviceMarkers.LastStop | src/Microsoft.DotNet.Wpf/src/WpfGfx/core/hw/d3ddevice.cpp:3358-3390 | the newest marker whose answer ends the walk (S_OK or a failure), with no such answer above it; -1 when there is none |
| DeviceMarkers.ConsumeOutcome | src/Microsoft.DotNet.Wpf/src/WpfGfx/core/hw/d3ddevice.cpp:3350-3390 | ConsumePresentMarkers (corrected) moves nothing when no answer ends the walk, frees the stopping marker and all older ones on S_OK or device lost, disables markers on any other failure, and keeps the state valid |
| DeviceMarkers.ConsumeStopsHere | src/Microsoft.DotNet.Wpf/src/WpfGfx/core/hw/d3ddevice.cpp:3358-3390 | the walk ends at the newest marker whose answer is S_OK or a failure, with the outcome ConsumeOutcome describes |
| DeviceMarkers.ConsumeAsWrittenFreesOutOfRange | src/Microsoft.DotNet.Wpf/src/WpfGfx/core/hw/d3ddevice.cpp:3358-3379 | as written, one active marker whose poll fails with E_FAIL is reported consumed after the list was emptied, and FreeMarkerAndItsPredecessors(0) then runs on an empty list (its count minus one wraps to 2^32 - 1) |
| DeviceRules.HandleDIESticky | src/Microsoft.DotNet.Wpf/src/WpfGfx/core/hw/d3ddevice.h:646-658 | a driver-internal error is never passed on, the memo only ever becomes that error and stays failed once failed, success or failure of the code is kept, and applying HandleDIE to its own result changes nothing |
| DeviceRules.FirstStop | src/Microsoft.DotNet.Wpf/src/WpfGfx/core/hw/d3ddevice.cpp:1611-1722 | the allocation loop stops at the first attempt after which FreeSomeVideoMemory declines, and every earlier attempt was retried |
| DeviceRules.PresentFailureTable | src/Microsoft.DotNet.Wpf/src/WpfGfx/core/hw/d3ddevice.cpp:1725-1802 | HandlePresentFailure's table: a vanished window gives the invalid-window-handle code; E_FAIL, driver error, lost, hung and removed give DISPLAYSTATEINVALID and mark the device unusable; E_INVALIDARG asks for recreate-and-present; other codes pass; it marks unusable exactly on the lost-like codes |
| DeviceRules.PresentAnswerOutcome | src/Microsoft.DotNet.Wpf/src/WpfGfx/core/hw/d3ddevice.cpp:1611-1722 | a present is processed exactly on S_OK; the result succeeds exactly for success answers other than a mode change; occluded becomes S_OK; a mode change is handled as device lost |
| DeviceRules.VertexCountRoundTrip | src/Microsoft.DotNet.Wpf/src/WpfGfx/core/hw/d3ddevice.cpp:3096-3235 | DrawPrimitiveUP's vertex counts are 2n, 3n and n + 2 for lines, triangles and strips, refused for other topologies, and give back the primitive count |
| DeviceRules.FanIndex | src/Microsoft.DotNet.Wpf/src/WpfGfx/core/hw/d3ddevice.cpp:1891-1938 | every fan index is a WORD |
| DeviceRules.FanIndexAt | src/Microsoft.DotNet.Wpf/src/WpfGfx/core/hw/d3ddevice.cpp:1914-1927 | triangle t of the fan is (0, t+1, t+2) stored as WORDs |
| DeviceRules.FanIndicesInRange | src/Microsoft.DotNet.Wpf/src/WpfGfx/core/hw/d3ddevice.cpp:1891-1938 | with at most 65536 vertices every fan index names a vertex of the buffer and triangle t is exactly (0, t+1, t+2) |
| DeviceRules.FanIndexWraps | src/Microsoft.DotNet.Wpf/src/WpfGfx/core/hw/d3ddevice.cpp:1914-1927 | past 65536 vertices the WORD index wraps: triangle 65534 names vertex 0 |
| DeviceRules.TextureFormatChoice | src/Microsoft.DotNet.Wpf/src/WpfGfx/core/hw/d3ddevice.cpp:2378-2485 | GetSupportedTextureFormat always finds a format; it has alpha exactly when the source has it, alpha is forced, or a float or wide source goes to a 10-bit target; 10-bit targets get 10-bit or float, others 8-bit |
| DeviceRules.IntersectContains | src/Microsoft.DotNet.Wpf/src/WpfGfx/core/hw/d3ddevice.cpp:2518-2600 | a point is in the intersection exactly when it is in both rectangles, and a non-empty intersection has positive size |
| DeviceRules.SetThenGetClip | src/Microsoft.DotNet.Wpf/src/WpfGfx/core/hw/d3ddevice.cpp:2518-2625 | a clip missing the target is refused with CLIPPEDTOEMPTY and changes nothing; otherwise GetClipRect reads back the clip cut to the target, or the whole target with no clip; a failed scissor call changes nothing |
| DeviceRules.LeaveUndoesEnter | src/Microsoft.DotNet.Wpf/src/WpfGfx/core/hw/d3ddevice.cpp:485-531 | Leave on the entering thread undoes Enter; the entered device records that thread and passes a forced protection check for it |
| DeviceRules.AdvanceFrameIdempotent | src/Microsoft.DotNet.Wpf/src/WpfGfx/core/hw/d3ddevice.cpp:3407-3417 | advancing to the current frame changes nothing, advancing twice to one frame is advancing once, and a new frame ends the frame and releases resources in that order |
| D3DDevice.Device.constructor | src/Microsoft.DotNet.Wpf/src/WpfGfx/core/hw/d3ddevice.cpp:233-278 | a new device has no markers (flags clear, ids 0), is not entered, not in a scene, has no display-invalid failure, frame 0, no clip and zero metrics |
| D3DDevice.Device.HandleDIE | src/Microsoft.DotNet.Wpf/src/WpfGfx/core/hw/d3ddevice.h:646-658 | the memo and result are those of DeviceRules.HandleDIE, whose properties HandleDIESticky states |
| D3DDevice.Device.MarkUnusable | src/Microsoft.DotNet.Wpf/src/WpfGfx/core/hw/d3ddevice.cpp:620-624 | the call is recorded and nothing else changes (the body is empty) |
| D3DDevice.Device.ResetMarkers | src/Microsoft.DotNet.Wpf/src/WpfGfx/core/hw/d3ddevice.cpp:3320-3337 | the marker state becomes DeviceMarkers.ResetMarkers of the old one |
| D3DDevice.Device.DisableGPUMarkers | src/Microsoft.DotNet.Wpf/src/WpfGfx/core/hw/d3ddevice.h:684-688 | the marker state becomes the disabled, reset state |
| D3DDevice.Device.InsertCleanupStep | src/Microsoft.DotNet.Wpf/src/WpfGfx/core/hw/d3ddevice.cpp:3534-3562 | the marker state and code after the Cleanup block are those of InsertCleanup |
| D3DDevice.Device.IssueAndAppend | src/Microsoft.DotNet.Wpf/src/WpfGfx/core/hw/d3ddevice.cpp:3529-3562 | issuing and appending the marker, then cleaning up, gives IssueAndAdd's state and code |
| D3DDevice.Device.ProbeMarkers | src/Microsoft.DotNet.Wpf/src/WpfGfx/core/hw/d3ddevice.cpp:3479-3498 | the flags after the probe are Probe's (see ProbeOutcome) |
| D3DDevice.Device.InsertGPUMarker | src/Microsoft.DotNet.Wpf/src/WpfGfx/core/hw/d3ddevice.cpp:3453-3565 | the marker state and result are InsertMarker's; the device invariant is kept, the result always succeeds and the display-invalid memo is untouched |
| D3DDevice.Device.InsertAccepted | src/Microsoft.DotNet.Wpf/src/WpfGfx/core/hw/d3ddevice.cpp:3476-3562 | for an accepted id on a device that exists, the state and result are InsertMarker's |
| D3DDevice.Device.IsConsumedGPUMarker | src/Microsoft.DotNet.Wpf/src/WpfGfx/core/hw/d3ddevice.cpp:3581-3625 | the state and consumed report are IsConsumed's; the call succeeds and a marker not consumed changes nothing |
| D3DDevice.Device.FreeMarkerAndItsPredecessors | src/Microsoft.DotNet.Wpf/src/WpfGfx/core/hw/d3ddevice.cpp:3641-3670 | the state becomes FreeThrough's (see FreeThroughConserves) and the call returns S_OK |
| D3DDevice.Device.ConsumePresentMarkers | src/Microsoft.DotNet.Wpf/src/WpfGfx/core/hw/d3ddevice.cpp:3350-3394 | the corrected walk (the as-written one is the d3ddevice.cpp:3358-3379 row under Findings): the state becomes Consume's and meets ConsumeOutcome's description for the newest stopping answer; the invariant is kept and the call succeeds |
| D3DDevice.Device.PollPresentMarkers | src/Microsoft.DotNet.Wpf/src/WpfGfx/core/hw/d3ddevice.cpp:3358-3390 | the corrected walk (see the d3ddevice.cpp:3358-3379 row under Findings): the loop leaves the state Consume computes, succeeds and does not touch the entry count |
| D3DDevice.Device.PollPresentMarker | src/Microsoft.DotNet.Wpf/src/WpfGfx/core/hw/d3ddevice.cpp:3360-3389 | one round of the corrected walk (see the d3ddevice.cpp:3358-3379 row under Findings), guarded so the index stays inside the active list: when it stops the state is Consume's; otherwise the rest of the walk from the new state equals the walk from the old one |
| D3DDevice.Device.GetNumQueuedPresents | src/Microsoft.DotNet.Wpf/src/WpfGfx/core/hw/d3ddevice.cpp:3430-3443 | always S_OK with no queued presents |
| D3DDevice.Device.Enter | src/Microsoft.DotNet.Wpf/src/WpfGfx/core/hw/d3ddevice.cpp:485-504 | the entry count rises by one and the thread is recorded (EnterState) |
| D3DDevice.Device.Leave | src/Microsoft.DotNet.Wpf/src/WpfGfx/core/hw/d3ddevice.cpp:507-531 | the entry count drops by one and the thread is forgotten at zero (LeaveState; see LeaveUndoesEnter) |
| D3DDevice.Device.IsEntered | src/Microsoft.DotNet.Wpf/src/WpfGfx/core/hw/d3ddevice.cpp:578-600 | entered exactly when the entry count is positive |
| D3DDevice.Device.IsProtected | src/Microsoft.DotNet.Wpf/src/WpfGfx/core/hw/d3ddevice.cpp:544-575 | protected when not forced, or when the calling thread is the entering one |
| D3DDevice.Device.AdvanceFrame | src/Microsoft.DotNet.Wpf/src/WpfGfx/core/hw/d3ddevice.cpp:3407-3417 | frame number and resource calls become DeviceRules.AdvanceFrame's (see AdvanceFrameIdempotent) |
| D3DDevice.Device.Use | src/Microsoft.DotNet.Wpf/src/WpfGfx/core/hw/d3ddevice.h:574-577 | the resource manager is told of exactly one use of the resource |
| D3DDevice.Device.EnterUseContext | src/Microsoft.DotNet.Wpf/src/WpfGfx/core/hw/d3ddevice.h:579-582 | the call is passed to the resource manager and its depth returned |
| D3DDevice.Device.ExitUseContext | src/Microsoft.DotNet.Wpf/src/WpfGfx/core/hw/d3ddevice.h:584-587 | the call with its depth is passed to the resource manager |
| D3DDevice.Device.BeginScene | src/Microsoft.DotNet.Wpf/src/WpfGfx/core/hw/d3ddevice.cpp:1853-1867 | outside a scene, begins one and succeeds |
| D3DDevice.Device.EndScene | src/Microsoft.DotNet.Wpf/src/WpfGfx/core/hw/d3ddevice.cpp:1870-1884 | inside a scene, ends it and succeeds |
| D3DDevice.Device.PresentWithRetry | src/Microsoft.DotNet.Wpf/src/WpfGfx/core/hw/d3ddevice.cpp:1629-1635 | the allocation loop presents until FreeSomeVideoMemory declines and yields that attempt's answer |
| D3DDevice.Device.HandlePresentFailure | src/Microsoft.DotNet.Wpf/src/WpfGfx/core/hw/d3ddevice.cpp:1725-1802 | the code is PresentFailure's (see PresentFailureTable), the current render target is dropped and MarkUnusable is called exactly when the table says so |
| D3DDevice.Device.PresentWithD3D | src/Microsoft.DotNet.Wpf/src/WpfGfx/core/hw/d3ddevice.cpp:1611-1709 | the code, processed flag and MarkUnusable call are PresentAnswer's for the last attempt's answer (see PresentAnswerOutcome); the render target is dropped |
| D3DDevice.Device.Present | src/Microsoft.DotNet.Wpf/src/WpfGfx/core/hw/d3ddevice.cpp:1465-1599 | a remembered display-invalid failure is returned at once after MarkUnusable; otherwise the result is PresentWithD3D's, metrics are reset when collected, the scene is reopened only after a successful present, and the current render target is cleared by every present that reaches D3D (kept when the remembered failure returns early) |
| D3DDevice.Device.UpdateMetrics | src/Microsoft.DotNet.Wpf/src/WpfGfx/core/hw/d3ddevice.h:870-878 | the DWORD counters grow (mod 2^32) only while metrics are collected |
| D3DDevice.Device.DrawTriangleList | src/Microsoft.DotNet.Wpf/src/WpfGfx/core/hw/d3ddevice.cpp:3009-3030 | one triangle-list draw of 3n vertices is recorded, metrics are updated, and S_OK |
| D3DDevice.Device.DrawTriangleStrip | src/Microsoft.DotNet.Wpf/src/WpfGfx/core/hw/d3ddevice.cpp:3039-3060 | one strip draw of n + 2 vertices is recorded, metrics are updated, and S_OK |
| D3DDevice.Device.DrawPrimitiveUP | src/Microsoft.DotNet.Wpf/src/WpfGfx/core/hw/d3ddevice.cpp:3096-3235 | an unsupported topology is E_INVALIDARG with nothing changed; otherwise a failed Unlock is retried once after a successful Lock, the draw and metrics happen only if Unlock and SetVertexBuffer succeed, and the code goes through HandleDIE |
| D3DDevice.Device.FlushBufferFan | src/Microsoft.DotNet.Wpf/src/WpfGfx/core/hw/d3ddevice.cpp:1891-1940 | more than two vertices draw one indexed fan of vertices - 2 triangles whose indices are FanIndex (see FanIndicesInRange); fewer draw nothing and succeed |
| D3DDevice.Device.SetClipRect | src/Microsoft.DotNet.Wpf/src/WpfGfx/core/hw/d3ddevice.cpp:2518-2600 | the clip state and code are SetClip's (see SetThenGetClip) |
| D3DDevice.Device.GetClipRect | src/Microsoft.DotNet.Wpf/src/WpfGfx/core/hw/d3ddevice.cpp:2604-2625 | the set clip, or the whole target when none is set |
| DevicePool.Broadcast | src/Microsoft.DotNet.Wpf/src/WpfGfx/core/hw/d3ddevicemanager.cpp:1160-1174 | one notice per listener, in list order, each naming the lost adapter |
| DevicePool.FirstIndex | src/Microsoft.DotNet.Wpf/src/WpfGfx/core/hw/d3ddevicemanager.cpp:896-917 | the first entry in the range holding the device, with no earlier one holding it; None when no entry does |
| DevicePool.Demote | src/Microsoft.DotNet.Wpf/src/WpfGfx/core/hw/d3ddevicemanager.cpp:878-949 | UnusableNotification keeps the usable-before-unusable partition and the list's length, and moves the boundary down by one exactly when the device is in the usable range |
| DevicePool.RemoveAt | src/Microsoft.DotNet.Wpf/src/WpfGfx/core/hw/d3ddevicemanager.cpp:827-842 | UnusedNotification's removal keeps the partition and shortens the list by one |
| DevicePool.Insert | src/Microsoft.DotNet.Wpf/src/WpfGfx/core/hw/d3ddevicemanager.cpp:1047-1069 | CreateNewDevice's insertion keeps the partition |
| DevicePool.DemoteAll | src/Microsoft.DotNet.Wpf/src/WpfGfx/core/hw/d3ddevicemanager.cpp:493-546 | HandleDisplayChange's loop (with MarkUnusable delivering UnusableNotification) keeps the partition |
| DevicePool.NotifyLostOnce | src/Microsoft.DotNet.Wpf/src/WpfGfx/core/hw/d3ddevicemanager.cpp:1160-1174 | NotifyDeviceLost sets the lost flag, broadcasts only if it was clear, appends to what listeners already heard, and a second call changes nothing |
| DevicePool.DemoteNotFound | src/Microsoft.DotNet.Wpf/src/WpfGfx/core/hw/d3ddevicemanager.cpp:878-949 | UnusableNotification for a device outside the usable range changes nothing |
| DevicePool.DemoteFound | src/Microsoft.DotNet.Wpf/src/WpfGfx/core/hw/d3ddevicemanager.cpp:878-949 | for a usable device exactly that entry leaves the usable range, reported lost, and becomes the first unusable entry ahead of the others; listeners hear of it once |
| DevicePool.RemoveUsableEntry | src/Microsoft.DotNet.Wpf/src/WpfGfx/core/hw/d3ddevicemanager.cpp:786-860 | removing a usable entry takes exactly that entry out of the usable range and keeps the unusable entries |
| DevicePool.RemoveUnusableEntry | src/Microsoft.DotNet.Wpf/src/WpfGfx/core/hw/d3ddevicemanager.cpp:786-860 | removing an unusable entry keeps the usable range and takes exactly that entry out of the unusable range |
| DevicePool.UnusedOutcome | src/Microsoft.DotNet.Wpf/src/WpfGfx/core/hw/d3ddevicemanager.cpp:765-864 | UnusedNotification removes an entry exactly when the device is tracked and unreferenced; otherwise nothing changes; a removal shortens the list by one |
| DevicePool.InsertPartition | src/Microsoft.DotNet.Wpf/src/WpfGfx/core/hw/d3ddevicemanager.cpp:1047-1069 | the new device is appended to the usable range with its lost flag clear, the unusable entries are only moved, and nobody is notified |
| DevicePool.AvailableIgnoresPartition | src/Microsoft.DotNet.Wpf/src/WpfGfx/core/hw/d3ddevicemanager.cpp:650-660 | GetAvailableDevice answers entry 0 whether or not it is usable, and fails exactly on an empty list |
| DevicePool.DemoteAllEmptiesUsable | src/Microsoft.DotNet.Wpf/src/WpfGfx/core/hw/d3ddevicemanager.cpp:493-546 | with MarkUnusable delivering UnusableNotification, the loop ends with no usable device, every formerly usable entry reported lost and the unusable entries untouched |
| DevicePool.DisplayChangeLoopAsWrittenSpins | src/Microsoft.DotNet.Wpf/src/WpfGfx/core/hw/d3ddevicemanager.cpp:493-546 | as written (MarkUnusable's body is empty) the loop's body never shrinks the usable range, so it never ends while a usable device exists |
| DeviceManagers.LostAsDisplayInvalid | src/Microsoft.DotNet.Wpf/src/WpfGfx/core/hw/d3ddevicemanager.cpp:340-346 | GetSWDevice never answers device lost: it becomes DISPLAYSTATEINVALID and every other code passes through |
| DeviceManagers.RemoveFirst | src/Microsoft.DotNet.Wpf/src/WpfGfx/core/hw/d3ddevicemanager.cpp:1136-1141 | removing a listener that is not there changes nothing; otherwise exactly one occurrence goes |
| DeviceManagers.DeviceManager.constructor | src/Microsoft.DotNet.Wpf/src/WpfGfx/core/hw/d3ddevicemanager.cpp:152-165 | a new manager has no callers, no D3D, no display sets, no software device and empty lists |
| DeviceManagers.DeviceManager.IncCallers | src/Microsoft.DotNet.Wpf/src/WpfGfx/core/hw/d3ddevicemanager.cpp:361-375 | one more caller |
| DeviceManagers.DeviceManager.DecCallers | src/Microsoft.DotNet.Wpf/src/WpfGfx/core/hw/d3ddevicemanager.cpp:377-410 | one caller fewer; the last one unloads D3D and drops both display sets, otherwise they are kept |
| DeviceManagers.DeviceManager.InitializeD3DReferences | src/Microsoft.DotNet.Wpf/src/WpfGfx/core/hw/d3ddevicemanager.cpp:423-468 | succeeds exactly when the display manager answers and the given set (if any) is the latest; then D3D is loaded and the latest set held; a failure changes nothing |
| DeviceManagers.DeviceManager.GetSWDevice | src/Microsoft.DotNet.Wpf/src/WpfGfx/core/hw/d3ddevicemanager.cpp:257-350 | the display set is settled as InitializeD3DReferences does (its failure changes nothing and is returned); then an existing software device gives the swrast registration's code, a missing one the registration's failure or the creation's code; the device is created once, counted as a caller, and handed out on every success; failure hands out nothing; device lost is never returned |
| DeviceManagers.DeviceManager.GetAvailableDevice | src/Microsoft.DotNet.Wpf/src/WpfGfx/core/hw/d3ddevicemanager.cpp:650-660 | the answer is Available's (see AvailableIgnoresPartition) |
| DeviceManagers.DeviceManager.CreateNewDevice | src/Microsoft.DotNet.Wpf/src/WpfGfx/core/hw/d3ddevicemanager.cpp:965-1104 | succeeds exactly when the display state is unchanged and every creation and the reservation succeed; then the device is inserted (see InsertPartition) and counted; failure changes nothing |
| DeviceManagers.DeviceManager.GetD3DDevice | src/Microsoft.DotNet.Wpf/src/WpfGfx/core/hw/d3ddevicemanager.cpp:676-750 | an unsettled display set fails and changes nothing; otherwise entry 0 is handed out with S_OK when the list is non-empty, and on an empty list CreateNewDevice's device is handed out and pooled exactly when every creation step succeeds; a display change by the end fails with DISPLAYSTATEINVALID and hands out nothing, while a device already created stays pooled |
| DeviceManagers.DeviceManager.NotifyDeviceLost | src/Microsoft.DotNet.Wpf/src/WpfGfx/core/hw/d3ddevicemanager.cpp:1160-1174 | the pool becomes NotifyLost's (see NotifyLostOnce) |
| DeviceManagers.DeviceManager.UnusableNotification | src/Microsoft.DotNet.Wpf/src/WpfGfx/core/hw/d3ddevicemanager.cpp:878-949 | the pool becomes Demote's (see DemoteFound, DemoteNotFound) and stays valid |
| DeviceManagers.DeviceManager.UnusedNotification | src/Microsoft.DotNet.Wpf/src/WpfGfx/core/hw/d3ddevicemanager.cpp:765-864 | with D3D unloaded nothing changes; an unreferenced software device is dropped; otherwise the pool becomes Unused's (see UnusedOutcome) and a removal releases one caller |
| DeviceManagers.DeviceManager.FindDevice | src/Microsoft.DotNet.Wpf/src/WpfGfx/core/hw/d3ddevicemanager.cpp:786-791 | the search answers the first entry holding the device, or the list's length when none does |
| DeviceManagers.DeviceManager.RemoveDevice | src/Microsoft.DotNet.Wpf/src/WpfGfx/core/hw/d3ddevicemanager.cpp:827-842 | the pool becomes RemoveAt's (see RemoveUsableEntry, RemoveUnusableEntry) |
| DeviceManagers.DeviceManager.HandleDisplayChange | src/Microsoft.DotNet.Wpf/src/WpfGfx/core/hw/d3ddevicemanager.cpp:482-547 | for another display set nothing changes; for the held one every usable device is demoted as DemoteAll does, the held set is dropped and the new one kept as next |
| DeviceManagers.DeviceManager.AddAdapterStatusListener | src/Microsoft.DotNet.Wpf/src/WpfGfx/core/hw/d3ddevicemanager.cpp:1118-1133 | the listener is appended exactly when the array could grow, and Add's code is returned |
| DeviceManagers.DeviceManager.RemoveAdapterStatusListener | src/Microsoft.DotNet.Wpf/src/WpfGfx/core/hw/d3ddevicemanager.cpp:1136-1141 | the first occurrence of the listener is removed |
| RenderStates.OnlySrcCopyDisablesBlending | src/Microsoft.DotNet.Wpf/src/WpfGfx/core/hw/d3drenderstate.cpp:227-344 | of the predefined blend modes only SrcCopy disables blending and only Unknown leaves it unknown; every other mode names real factors |
| RenderStates.BlendDescFactors | src/Microsoft.DotNet.Wpf/src/WpfGfx/core/hw/d3drenderstate.cpp:1037-1065 | SetAlphaBlendMode's descriptor copies the colour factors to alpha, except that an INV_SRC_COLOR destination becomes INV_SRC_ALPHA for alpha; both operations add and all channels are written |
| RenderStates.VectorAlphaModesRewritten | src/Microsoft.DotNet.Wpf/src/WpfGfx/core/hw/d3drenderstate.cpp:1037-1065 | of the predefined modes exactly the two vector-alpha text modes get a different alpha destination |
| RenderStates.FactorByte | src/Microsoft.DotNet.Wpf/src/WpfGfx/core/hw/d3drenderstate.cpp:1907-1912 | each channel of the blend factor is a byte |
| RenderStates.FactorBytesRoundTrip | src/Microsoft.DotNet.Wpf/src/WpfGfx/core/hw/d3drenderstate.cpp:1907-1912 | the four channel bytes, least significant first, give back the blend-factor DWORD |
| RenderStates.TextBlendFactorChannels | src/Microsoft.DotNet.Wpf/src/WpfGfx/core/hw/d3drenderstate.cpp:1591-1594 | ORing 0xFF000000 into the text colour keeps its three colour channels and makes the alpha channel 0xFF |
| RenderStates.CacheSetTwice | src/Microsoft.DotNet.Wpf/src/WpfGfx/core/hw/d3drenderstate.cpp:1836-1930 | a descriptor already cached creates nothing, binds the stored handle and succeeds; only the first call for a descriptor creates it and reports the create code |
| RenderStates.CacheRunCreatesOnce | src/Microsoft.DotNet.Wpf/src/WpfGfx/core/hw/d3drenderstate.cpp:1836-1930 | over any series of calls each descriptor is created at most once and only if it was not cached; the cache keeps its old entries and ends holding exactly those and the created ones |
| RenderStates.StateCache.constructor | src/Microsoft.DotNet.Wpf/src/WpfGfx/core/hw/d3drenderstate.cpp:606-618 | a new cache is empty |
| RenderStates.StateCache.Set | src/Microsoft.DotNet.Wpf/src/WpfGfx/core/hw/d3drenderstate.cpp:1836-1930 | the cache, result and bound handle are CacheSet's, and the created list grows exactly by a newly created descriptor |
| RenderStates.FactorChannels | src/Microsoft.DotNet.Wpf/src/WpfGfx/core/hw/d3drenderstate.cpp:1907-1912 | the four numerators handed to the context are the four bytes of the blend factor |
| RenderStates.SetAlphaBlendMode | src/Microsoft.DotNet.Wpf/src/WpfGfx/core/hw/d3drenderstate.cpp:1037-1065 | the blend cache takes the mode's descriptor (BlendDescFactors) with the factor's channels, and the call succeeds even when the state could not be created |
| RenderStates.VertexIndex | src/Microsoft.DotNet.Wpf/src/WpfGfx/core/hw/d3drenderstate.cpp:847-953 | each of the six vertex types has its own slot |
| RenderStates.InputLayouts.constructor | src/Microsoft.DotNet.Wpf/src/WpfGfx/core/hw/d3drenderstate.cpp:606-618 | the six input-layout slots start empty |
| RenderStates.InputLayouts.EnsureInputLayout | src/Microsoft.DotNet.Wpf/src/WpfGfx/core/hw/d3drenderstate.cpp:847-953 | a filled slot makes the call a successful no-op; an empty slot is filled with what the create call writes, the create code is returned and exactly one create call is made with the type's element count |
| HwPipelines.CompositionBlendProperties | src/Microsoft.DotNet.Wpf/src/WpfGfx/core/hw/hwpipeline.cpp:185-231 | SetupCompositionMode gives distinct compositing modes distinct blend modes, never the unknown or a text mode, and blending is off exactly for SourceCopy |
| HwPipelines.RealizeActionSpec | src/Microsoft.DotNet.Wpf/src/WpfGfx/core/hw/hwpipeline.cpp:242-279 | exactly texture sources (constant or not) are realized; the skipped types are the single non-texture ones |
| HwPipelines.StopIndex | src/Microsoft.DotNet.Wpf/src/WpfGfx/core/hw/hwpipeline.cpp:242-279 | the first item at which the realization loop stops (an unknown type or a failed Realize), with no stop before it; the item count when there is none |
| HwPipelines.RealizedBelow | src/Microsoft.DotNet.Wpf/src/WpfGfx/core/hw/hwpipeline.cpp:242-279 | every realizable item below the bound is in the list of realized items |
| HwPipelines.SourceIdsAreItems | src/Microsoft.DotNet.Wpf/src/WpfGfx/core/hw/hwpipeline.cpp:150-173 | an id is released exactly when some item's source has it |
| HwPipelines.RealizeFailsIff | src/Microsoft.DotNet.Wpf/src/WpfGfx/core/hw/hwpipeline.cpp:242-279 | the realization loop fails exactly when some item stops it |
| HwPipelines.LastRealizeHrIsLastRealized | src/Microsoft.DotNet.Wpf/src/WpfGfx/core/hw/hwpipeline.cpp:242-279 | the code a realization without a stop answers is that of the last item whose Realize was called, or S_OK when there is none |
| HwPipelines.ExecuteCases | src/Microsoft.DotNet.Wpf/src/WpfGfx/core/hw/hwpipeline.cpp:84-136 | Execute only adds calls; a cached vertex buffer is never rebuilt and is drawn exactly when the states were sent; without one a flush happens exactly when the geometry was sent and the fill was not empty without outside bounds, and an empty fill caches nothing and answers S_OK; the vertex buffer changes only to the flushed one, the builder goes only after a successful flush, and every result is one of the calls' answers or that S_OK |
| HwPipelines.Pipeline.constructor | src/Microsoft.DotNet.Wpf/src/WpfGfx/core/hw/hwpipeline.cpp:35-45 | a new pipeline has no items, no blend mode, no builder, generator, vertex buffer or shader, and first unused stage 0 |
| HwPipelines.Pipeline.SetupCompositionMode | src/Microsoft.DotNet.Wpf/src/WpfGfx/core/hw/hwpipeline.cpp:185-231 | the blend mode becomes the compositing mode's (see CompositionBlendProperties) |
| HwPipelines.Pipeline.RealizeColorSources | src/Microsoft.DotNet.Wpf/src/WpfGfx/core/hw/hwpipeline.cpp:242-279 | with no stop the result is the last Realize's success code (S_OK when none was called) and every realizable item was realized in order; otherwise the result is the first stopping item's failure and only the items up to it were realized |
| HwPipelines.Pipeline.Execute | src/Microsoft.DotNet.Wpf/src/WpfGfx/core/hw/hwpipeline.cpp:84-136 | the result, vertex buffer, builder and calls are those ExecuteOutcome gives for the old vertex buffer and builder (see ExecuteCases) |
| HwPipelines.Pipeline.ReleaseExpensiveResources | src/Microsoft.DotNet.Wpf/src/WpfGfx/core/hw/hwpipeline.cpp:150-173 | every item's colour source is released, in item order, and the items, builder, generator and vertex buffer are gone |
| HwPipelines.Pipeline.ShaderExecute | src/Microsoft.DotNet.Wpf/src/WpfGfx/core/hw/hwpipeline.cpp:546-562 | the 2D pipeline's outcome is exactly the base Execute's (ExecuteOutcome), with or without a cached vertex buffer; the 3D one realizes its sources and sends the states only if that succeeded, keeping the vertex buffer and builder |
| HwPipelines.Pipeline.ReInitialize | src/Microsoft.DotNet.Wpf/src/WpfGfx/core/hw/hwpipeline.cpp:468-519 | a failed setup changes nothing; a vertex builder is made only without a cached vertex buffer; then the shader is released and fetched again, and each failure is returned |
| HwPipelineBuilders.AllowsIffNotSelect | src/Microsoft.DotNet.Wpf/src/WpfGfx/core/hw/hwpipelinebuilder.cpp:35-73 | only the two select operations, which discard what came before, forbid an alpha multiply in an earlier stage |
| HwPipelineBuilders.AlphaOnlyForNonPremultipliedBlends | src/Microsoft.DotNet.Wpf/src/WpfGfx/core/hw/hwpipelinebuilder.cpp:133-160 | the alpha-only multiply is chosen exactly for the compositing modes whose blend weighs the source by its alpha; every other mode multiplies colour and alpha |
| HwPipelineBuilders.LastConstantFrom | src/Microsoft.DotNet.Wpf/src/WpfGfx/core/hw/hwpipelinebuilder.cpp:553-673 | the last item with a constant source in the range, with none after it; one below the range when there is none |
| HwPipelineBuilders.AAPiggybackOutcomes | src/Microsoft.DotNet.Wpf/src/WpfGfx/core/hw/hwpipelinebuilder.cpp:686-727 | a piggyback item below the earliest alpha-multiply item cannot be handled (NOTIMPLEMENTED); with no piggyback item a blending stage is needed; otherwise nothing is needed |
| HwPipelineBuilders.Set_BumpMap | src/Microsoft.DotNet.Wpf/src/WpfGfx/core/hw/hwpipelinebuilder.cpp:220-234 | always fails with E_NOTIMPL |
| HwPipelineBuilders.Mul_AlphaMask | src/Microsoft.DotNet.Wpf/src/WpfGfx/core/hw/hwpipelinebuilder.cpp:246-257 | always fails with E_NOTIMPL |
| HwPipelineBuilders.AlphaScaleAccepts | src/Microsoft.DotNet.Wpf/src/WpfGfx/core/hw/hwpipelinebuilder.cpp:356-406 | an alpha scale succeeds only with the right parameter size, no resources, readable parameters and a scale in [0, 1], and then answers the multiply's code |
| HwPipelineBuilders.OnlyAlphaScaleSucceeds | src/Microsoft.DotNet.Wpf/src/WpfGfx/core/hw/hwpipelinebuilder.cpp:303-501 | an alpha-mask effect always fails and any successful entry is an alpha scale |
| HwPipelineBuilders.FirstFailure | src/Microsoft.DotNet.Wpf/src/WpfGfx/core/hw/hwpipelinebuilder.cpp:303-344 | the first entry whose processing fails, with all before it succeeding; the entry count when none fails |
| HwPipelineBuilders.ProcessEffectList | src/Microsoft.DotNet.Wpf/src/WpfGfx/core/hw/hwpipelinebuilder.cpp:303-344 | a failed count is returned at once; otherwise the entries are processed in order until the first failure, whose code is returned; without a failure the result is the last entry's success code (the count's for an empty list), and success means every entry was an alpha scale |
| HwPipelineBuilders.PipelineBuilder.constructor | src/Microsoft.DotNet.Wpf/src/WpfGfx/core/hw/hwpipelinebuilder.cpp:98-121 | sampler, stage and the alpha-multiply item are invalid, no vertex attributes, no anti-aliasing, the alpha op is Nop and the last scalable and piggyback items are invalid |
| HwPipelineBuilders.PipelineBuilder.InitializePipelineMembers | src/Microsoft.DotNet.Wpf/src/WpfGfx/core/hw/hwpipelinebuilder.cpp:133-160 | the alpha multiply is the mode's (see AlphaOnlyForNonPremultipliedBlends), the input attributes are the generator's and the available ones are exactly the generatable attributes it lacks |
| HwPipelineBuilders.PipelineBuilder.TryToMultiplyConstantAlphaToExistingStage | src/Microsoft.DotNet.Wpf/src/WpfGfx/core/hw/hwpipelinebuilder.cpp:553-673 | a scale of one needs no stage; with no item available nothing is found; the last scalable item takes the scale when at or after the earliest available item; otherwise the last constant item there is replaced by a scaled copy when creation succeeds |
| HwPipelineBuilders.PipelineBuilder.Set_AAColorSource | src/Microsoft.DotNet.Wpf/src/WpfGfx/core/hw/hwpipelinebuilder.cpp:795-827 | a failed piggyback check is returned with nothing changed; a needed stage is added with the multiply's code; anti-aliasing is marked used on success |
| Textures.TextureBytesIsAreaSum | src/Microsoft.DotNet.Wpf/src/WpfGfx/core/hw/d3dtexture.cpp:129-147 | the byte count of the first n levels is their pixel count times the pixel size |
| Textures.AreaSumBound | src/Microsoft.DotNet.Wpf/src/WpfGfx/core/hw/d3dtexture.cpp:129-147 | in pixels, three times the first n levels plus four times level n is at most four times level 0 (each level is a quarter of the one above) |
| Textures.TextureBytesBound | src/Microsoft.DotNet.Wpf/src/WpfGfx/core/hw/d3dtexture.cpp:129-147 | the whole mip chain costs at most a third on top of level 0 |
| Textures.TextureBytesMonotone | src/Microsoft.DotNet.Wpf/src/WpfGfx/core/hw/d3dtexture.cpp:129-147 | adding levels never shrinks the exact size |
| Textures.Log2Bounds | src/Microsoft.DotNet.Wpf/src/WpfGfx/core/hw/d3dtexture.cpp:257-274 | 2^Log2(x) <= x < 2^(Log2(x)+1) |
| Textures.DetermineLevelsSpec | src/Microsoft.DotNet.Wpf/src/WpfGfx/core/hw/d3dtexture.cpp:257-274 | one level for TMML_One; a full chain has L levels with 2^(L-1) <= max(width, height) < 2^L, so level L-1 is the first whose larger side is 1 |
| Textures.IntersectU | src/Microsoft.DotNet.Wpf/src/WpfGfx/core/hw/d3dtexture.cpp:387-426 | a non-empty intersection has positive width and height |
| Textures.IntersectUContains | src/Microsoft.DotNet.Wpf/src/WpfGfx/core/hw/d3dtexture.cpp:387-426 | the intersection holds exactly the points of both rectangles, and is None only when they share none |
| Textures.ByteInClipIsPixelInClip | src/Microsoft.DotNet.Wpf/src/WpfGfx/core/hw/d3dtexture.cpp:387-426 | a byte of a row lies in a clip exactly when the pixel it belongs to does, and lies in the row's span exactly when its pixel is inside the source |
| Textures.CopiedIsPixelInClip | src/Microsoft.DotNet.Wpf/src/WpfGfx/core/hw/d3dtexture.cpp:387-426 | a byte is copied exactly when its pixel is inside the source rectangle and some clip rectangle |
| Textures.CopyRow | src/Microsoft.DotNet.Wpf/src/WpfGfx/core/hw/d3dtexture.cpp:415-420 | one row copy writes exactly n bytes of the row at the offset and nothing else |
| Textures.CopyClipRows | src/Microsoft.DotNet.Wpf/src/WpfGfx/core/hw/d3dtexture.cpp:398-424 | the rows of one clip write exactly that clip's bytes from the staging copy, and nothing else |
| Textures.ClipRowsAreCopied | src/Microsoft.DotNet.Wpf/src/WpfGfx/core/hw/d3dtexture.cpp:387-426 | the bytes written for a clip are exactly those inside the source and that clip |
| Textures.CopiedStep | src/Microsoft.DotNet.Wpf/src/WpfGfx/core/hw/d3dtexture.cpp:387-426 | one more clip adds exactly the bytes written for it |
| Textures.CopiedAppend | src/Microsoft.DotNet.Wpf/src/WpfGfx/core/hw/d3dtexture.cpp:387-426 | the bytes of k + 1 clips are those of the first k and those of clip k |
| Textures.CopiedInStaging | src/Microsoft.DotNet.Wpf/src/WpfGfx/core/hw/d3dtexture.cpp:387-426 | every copied byte is inside the staging copy |
| Textures.Texture.constructor | src/Microsoft.DotNet.Wpf/src/WpfGfx/core/hw/d3dtexture.cpp:28-41 | a new texture has no levels, no description, no resource and no views |
| Textures.Texture.InitResource | src/Microsoft.DotNet.Wpf/src/WpfGfx/core/hw/d3dtexture.cpp:113-158 | a pixel size of zero fails with WRONGTEXTUREFORMAT before anything is registered; otherwise the texture is kept and the registered size is the sum of every level's bytes, in UINT (see TextureBytesBound) |
| Textures.Texture.Init | src/Microsoft.DotNet.Wpf/src/WpfGfx/core/hw/d3dtexture.cpp:59-103 | a level count outside [1, 32] fails with E_FAIL and changes nothing; otherwise level 0 is remembered and InitResource's outcome follows |
| Textures.Texture.GetTextureSize | src/Microsoft.DotNet.Wpf/src/WpfGfx/core/hw/d3dtexture.cpp:187-196 | the level-0 width and height |
| Textures.Texture.GetShaderResourceView | src/Microsoft.DotNet.Wpf/src/WpfGfx/core/hw/d3dtexture.cpp:236-243 | the view is created only while none is held; a held one is returned unchanged |
| Textures.Texture.GetRenderTargetView | src/Microsoft.DotNet.Wpf/src/WpfGfx/core/hw/d3dtexture.cpp:227-234 | the view is created only while none is held; a held one is returned unchanged |
| Textures.Texture.GetDepthStencilView | src/Microsoft.DotNet.Wpf/src/WpfGfx/core/hw/d3dtexture.cpp:218-225 | the view is created only while none is held; a held one is returned unchanged |
| Textures.Texture.UpdateMipmapLevels | src/Microsoft.DotNet.Wpf/src/WpfGfx/core/hw/d3dtexture.cpp:206-216 | mips are generated on the shader-resource view only with more than one level, the view being created first when there is none; always S_OK |
| Textures.Texture.ReadIntoSysMemBuffer | src/Microsoft.DotNet.Wpf/src/WpfGfx/core/hw/d3dtexture.cpp:298-435 | a pixel size that is not whole bytes fails with INVALIDPARAMETER; otherwise the stride and staging failures are returned in order; on success exactly the bytes inside the source and some clip (the source itself when none is given) are copied from the staging rows, and every other byte is untouched |
| Surfaces.SurfaceBytesIsProduct | src/Microsoft.DotNet.Wpf/src/WpfGfx/core/hw/d3dsurface.cpp:99-127 | the registered size is format size times width times height times samples modulo 2^32, and exactly that product when it fits |
| Surfaces.DCResultFailsExactly | src/Microsoft.DotNet.Wpf/src/WpfGfx/core/hw/d3dsurface.cpp:181-218 | GetDC fails exactly when D3D's call fails; E_FAIL becomes E_OUTOFMEMORY near the GDI quota and DRIVERINTERNALERROR otherwise, and is never returned as such |
| Surfaces.Surface.constructor | src/Microsoft.DotNet.Wpf/src/WpfGfx/core/hw/d3dsurface.cpp:71-78 | a new wrapper holds the surface, with no description and no size yet |
| Surfaces.Surface.Init | src/Microsoft.DotNet.Wpf/src/WpfGfx/core/hw/d3dsurface.cpp:99-127 | the description's code is returned; on success the description and its size are registered, on failure nothing changes |
| Surfaces.Surface.ReleaseD3DResources | src/Microsoft.DotNet.Wpf/src/WpfGfx/core/hw/d3dsurface.cpp:141-152 | the surface is released |
| Surfaces.Surface.GetSurfaceSize | src/Microsoft.DotNet.Wpf/src/WpfGfx/core/hw/d3dsurface.cpp:162-171 | the stored width and height |
| Surfaces.Surface.GetDC | src/Microsoft.DotNet.Wpf/src/WpfGfx/core/hw/d3dsurface.cpp:181-244 | the code is DCResult's; a DC is handed out only on success, and on failure one that was obtained is given back |
| SwapChains.NewChecked | src/Microsoft.DotNet.Wpf/src/WpfGfx/core/hw/d3dswapchain.cpp:102-128 | memory is requested exactly for a non-zero count whose array and total both fit in size_t, and then for the header plus n pointers |
| SwapChains.NewAgreesWithoutWrap | src/Microsoft.DotNet.Wpf/src/WpfGfx/core/hw/d3dswapchain.cpp:102-128 | wherever n * 8 does not wrap, the code as written and the checked version agree; zero buffers give NULL |
| SwapChains.UIntCountsDoNotWrap | src/Microsoft.DotNet.Wpf/src/WpfGfx/core/hw/d3dswapchain.cpp:42-89 | no UINT back-buffer count makes n * 8 wrap |
| SwapChains.NewAsWrittenMissesWrap | src/Microsoft.DotNet.Wpf/src/WpfGfx/core/hw/d3dswapchain.cpp:102-128 | as written, n = 0x3000000000000000 wraps n * 8 to a value above n, so memory is requested for far fewer than n pointers |
| SwapChains.SwapChain.constructor | src/Microsoft.DotNet.Wpf/src/WpfGfx/core/hw/d3dswapchain.cpp:142-151 | a new wrapper stores the count and the swap chain, with no reference yet |
| SwapChains.SwapChain.GetBackBuffer | src/Microsoft.DotNet.Wpf/src/WpfGfx/core/hw/d3dswapchain.cpp:200-224 | an index at or past the count fails with INVALIDPARAMETER; otherwise buffer 0 is fetched whatever the index, and the wrapper's creation result returned |
| SwapChains.SwapChain.ReleaseD3DResources | src/Microsoft.DotNet.Wpf/src/WpfGfx/core/hw/d3dswapchain.cpp:240-251 | the swap chain is released |
| SwapChains.Create | src/Microsoft.DotNet.Wpf/src/WpfGfx/core/hw/d3dswapchain.cpp:42-89 | a failed description returns its code and no wrapper; a size the overflow check refuses (see NewChecked) or a NULL answer from the heap gives E_OUTOFMEMORY and no wrapper; on success the result is Init's S_OK and the wrapper holds the count and one reference |
| SwapChains.GetDC | src/Microsoft.DotNet.Wpf/src/WpfGfx/core/hw/d3dswapchain.cpp:263-273 | always fails with E_NOTIMPL |
| SwapChains.ReleaseDC | src/Microsoft.DotNet.Wpf/src/WpfGfx/core/hw/d3dswapchain.cpp:286-292 | always S_OK |
| VidMemTextureManagers.VidMemTextureManager.constructor | src/Microsoft.DotNet.Wpf/src/WpfGfx/core/hw/HwVidMemTextureManager.cpp:27-56 | a new manager has no device, no textures, no lock, a zero description and no levels |
| VidMemTextureManagers.VidMemTextureManager.PrepareForNewRealization | src/Microsoft.DotNet.Wpf/src/WpfGfx/core/hw/HwVidMemTextureManager.cpp:150-155 | the textures are dropped and the manager is back to its initial state, with no realization parameters |
| VidMemTextureManagers.VidMemTextureManager.SetRealizationParameters | src/Microsoft.DotNet.Wpf/src/WpfGfx/core/hw/HwVidMemTextureManager.cpp:117-138 | the device is recorded, the description takes the format and size, and the level count is DetermineLevels' (one for TMML_One) |
| VidMemTextureManagers.VidMemTextureManager.ReCreateAndLockSysMemTexture | src/Microsoft.DotNet.Wpf/src/WpfGfx/core/hw/HwVidMemTextureManager.cpp:166-222 | a valid held texture is locked as it is; otherwise the creation and lockable-wrapper failures are returned and leave no texture, success holds the new one; the manager is locked exactly on success |
| VidMemTextureManagers.VidMemTextureManager.UnlockSysMemTexture | src/Microsoft.DotNet.Wpf/src/WpfGfx/core/hw/HwVidMemTextureManager.cpp:235-253 | the lock is cleared with S_OK |
| VidMemTextureManagers.VidMemTextureManager.PushBitsToVidMemTexture | src/Microsoft.DotNet.Wpf/src/WpfGfx/core/hw/HwVidMemTextureManager.cpp:267-319 | a valid video-memory texture is kept, an invalid or absent one is (re)created; a creation failure is returned with nothing pushed, otherwise the system-memory bits are pushed to it once and the mipmap result returned |
| VidMemTextureManagers.VidMemTextureManager.GetVidMemTextureNoRef | src/Microsoft.DotNet.Wpf/src/WpfGfx/core/hw/HwVidMemTextureManager.h:57-62 | the video-memory texture exactly when one is held and valid |
| VidMemTextureManagers.UpdateCycle | src/Microsoft.DotNet.Wpf/src/WpfGfx/core/hw/HwVidMemTextureManager.cpp:166-319 | recreating, unlocking and pushing from fresh parameters leaves both new textures held, one push of that pair, and the manager unlocked |
| SolidColorTextureSources.SolidTextureDesc | src/Microsoft.DotNet.Wpf/src/WpfGfx/core/hw/hwsolidcolortexturesource.cpp:199-227 | the texture is one B8G8R8A8 texel, one sample, one array slice |
| SolidColorTextureSources.SolidDescIsPopulated | src/Microsoft.DotNet.Wpf/src/WpfGfx/core/hw/hwsolidcolortexturesource.cpp:199-227 | that description is PopulateSurfaceDesc's for 1x1 BGRA, with the mip levels left at zero |
| SolidColorTextureSources.SolidSourceIsRealized | src/Microsoft.DotNet.Wpf/src/WpfGfx/core/hw/hwsolidcolortexturesource.cpp:118-122 | the source is a constant texture, which the pipeline realizes |
| SolidColorTextureSources.RealizeStepSpec | src/Microsoft.DotNet.Wpf/src/WpfGfx/core/hw/hwsolidcolortexturesource.cpp:159-190 | Realize keeps the invariant, is valid afterwards exactly when it succeeds, keeps an existing texture, returns a creation failure unchanged, writes the texel exactly when the realization was out of date and the lock succeeded, answers the unlock's code after a fill and S_OK without one |
| SolidColorTextureSources.SecondRealizeDoesNotFill | src/Microsoft.DotNet.Wpf/src/WpfGfx/core/hw/hwsolidcolortexturesource.cpp:159-190 | after a successful Realize another Realize changes nothing and succeeds |
| SolidColorTextureSources.SolidColorTextureSource.constructor | src/Microsoft.DotNet.Wpf/src/WpfGfx/core/hw/hwsolidcolortexturesource.cpp:25-60 | no texture, opaque white, out of date, linear filtering, clamped in u and v |
| SolidColorTextureSources.SolidColorTextureSource.CreateLockableTexture | src/Microsoft.DotNet.Wpf/src/WpfGfx/core/hw/hwsolidcolortexturesource.cpp:199-227 | the description is SolidTextureDesc, and the device's texture is kept exactly when its creation succeeds |
| SolidColorTextureSources.SolidColorTextureSource.FillTexture | src/Microsoft.DotNet.Wpf/src/WpfGfx/core/hw/hwsolidcolortexturesource.cpp:236-263 | a lock failure is returned with nothing written; otherwise the texel is written once and the unlock result returned |
| SolidColorTextureSources.SolidColorTextureSource.Realize | src/Microsoft.DotNet.Wpf/src/WpfGfx/core/hw/hwsolidcolortexturesource.cpp:159-190 | the new state and result are RealizeStep's (see RealizeStepSpec) |
| SolidColorTextureSources.SolidColorTextureSource.SendDeviceStates | src/Microsoft.DotNet.Wpf/src/WpfGfx/core/hw/hwsolidcolortexturesource.cpp:131-150 | a failure of the base states is returned with nothing bound; otherwise the texture is bound and that result returned |
| SolidColorTextureSources.Create | src/Microsoft.DotNet.Wpf/src/WpfGfx/core/hw/hwsolidcolortexturesource.cpp:82-108 | a new source with one reference and no texture, or E_OUTOFMEMORY and none |
| HwndRenderTargets.ToLong | src/Microsoft.DotNet.Wpf/src/WpfGfx/core/hw/hwhwndrt.cpp:312-315 | the cast to LONG keeps a UINT below 2^31 and makes a larger one negative |
| HwndRenderTargets.ReleaseRules | src/Microsoft.DotNet.Wpf/src/WpfGfx/core/hw/hwhwndrt.cpp:225-248 | the target texture is always dropped (a new one only from a successful GetBackBuffer); the multisample target is dropped exactly when the new area is below a quarter of its own |
| HwndRenderTargets.MultisampleExamples | src/Microsoft.DotNet.Wpf/src/WpfGfx/core/hw/hwhwndrt.cpp:231-248 | shrinking to nothing drops a multisample target of four pixels or more; keeping the size drops none |
| HwndRenderTargets.EmptyDisables | src/Microsoft.DotNet.Wpf/src/WpfGfx/core/hw/hwhwndrt.cpp:254-258 | a zero width or height disables rendering and succeeds, keeping the swap chain, bounds and size |
| HwndRenderTargets.ChainAlwaysRecreated | src/Microsoft.DotNet.Wpf/src/WpfGfx/core/hw/hwhwndrt.cpp:264-305 | for a non-empty size the old chain is always destroyed first, so the chain afterwards is none or the new one, never resized |
| HwndRenderTargets.SuccessEnables | src/Microsoft.DotNet.Wpf/src/WpfGfx/core/hw/hwhwndrt.cpp:264-349 | a non-empty size succeeds exactly when every call does; then the bounds are (0, 0, w, h), the size is stored, the new chain and back buffer are held and rendering is enabled |
| HwndRenderTargets.FailureOutcomes | src/Microsoft.DotNet.Wpf/src/WpfGfx/core/hw/hwhwndrt.cpp:264-349 | each failing call's code is returned; CreateSwapChainForHwnd and GetBackBuffer failures disable rendering and remember a display-state failure, the other failures leave the rendering flag as it was |
| HwndRenderTargets.HwndRenderTarget.ReleaseOldResources | src/Microsoft.DotNet.Wpf/src/WpfGfx/core/hw/hwhwndrt.cpp:225-248 | the target texture is dropped, and the multisample target by the area rule |
| HwndRenderTargets.HwndRenderTarget.SubCleanup | src/Microsoft.DotNet.Wpf/src/WpfGfx/core/hw/hwhwndrt.cpp:330-349 | a failure disables rendering and remembers a display-state failure; success enables rendering |
| HwndRenderTargets.HwndRenderTarget.UpdateFlippingChain | src/Microsoft.DotNet.Wpf/src/WpfGfx/core/hw/hwhwndrt.cpp:211-353 | the new state and result are FlipStep's |
| HwndRenderTargets.HwndRenderTarget.Init | src/Microsoft.DotNet.Wpf/src/WpfGfx/core/hw/hwhwndrt.cpp:67-93 | a failing display-target Init changes nothing; otherwise a 0x0 flipping chain, then the base Init's result, and a successful Init leaves rendering off |
| HwndRenderTargets.HwndRenderTarget.Resize | src/Microsoft.DotNet.Wpf/src/WpfGfx/core/hw/hwhwndrt.cpp:175-195 | exactly UpdateFlippingChain's outcome |
| HwndRenderTargets.ScrollBlt | src/Microsoft.DotNet.Wpf/src/WpfGfx/core/hw/hwhwndrt.cpp:156-162 | always E_NOTIMPL |
| D3DUtils.PopulateSurfaceDesc | src/Microsoft.DotNet.Wpf/src/WpfGfx/core/common/d3dutils.cpp:27-42 | one sample, one array slice, one mip level, the given format and size, every other field zero |
| D3DUtils.SuperiorHoldsMore | src/Microsoft.DotNet.Wpf/src/WpfGfx/core/common/d3dutils.cpp:74-117 | a superior format differs from the format and loses neither colour nor alpha bits; there is none exactly for an unknown format and for A8R8G8B8 |
| D3DUtils.UnknownIsFixed | src/Microsoft.DotNet.Wpf/src/WpfGfx/core/common/d3dutils.cpp:74-117 | promoting UNKNOWN gives UNKNOWN |
| D3DUtils.StepsDecrease | src/Microsoft.DotNet.Wpf/src/WpfGfx/core/common/d3dutils.cpp:74-117 | each promotion lowers the bound on the promotions left |
| D3DUtils.PromotionEnds | src/Microsoft.DotNet.Wpf/src/WpfGfx/core/common/d3dutils.cpp:74-117 | five promotions from any format reach UNKNOWN |
| D3DUtils.FiveIsTight | src/Microsoft.DotNet.Wpf/src/WpfGfx/core/common/d3dutils.cpp:74-117 | X1R5G5B5 is still a format after four promotions |
| AvUtil.GetLastErrorAsFailHR | src/Microsoft.DotNet.Wpf/src/WpfGfx/core/av/util.cpp:37-51 | always a failure: E_FAIL when no error was set, HRESULT_FROM_WIN32 of the error otherwise |
| AvUtil.Win32StatusFromHR | src/Microsoft.DotNet.Wpf/src/WpfGfx/core/av/util.cpp:63-83 | as written, a 32-bit status whichever branch is taken (Win32StatusIsTheBits says which) |
| AvUtil.Win32StatusIsTheBits | src/Microsoft.DotNet.Wpf/src/WpfGfx/core/av/util.cpp:63-83 | as written the status is the HRESULT's own 32 bits in both branches |
| AvUtil.Win32StatusAsWrittenDoesNotInvert | src/Microsoft.DotNet.Wpf/src/WpfGfx/core/av/util.cpp:63-83 | error 5 converted to an HRESULT comes back as 0x80070005, not 5 |
| AvUtil.Win32StatusFromHRIntended | src/Microsoft.DotNet.Wpf/src/WpfGfx/core/av/util.cpp:63-83 | a code outside the Win32 facility is itself; a Win32 one gives a 16-bit error |
| AvUtil.IntendedStatusInvertsFromWin32 | src/Microsoft.DotNet.Wpf/src/WpfGfx/core/av/util.cpp:63-83 | the intended status recovers every non-zero 16-bit Win32 error from its HRESULT |
| AvUtil.StringSlot.constructor | src/Microsoft.DotNet.Wpf/src/WpfGfx/core/av/util.cpp:96-135 | the slot holds the given string and nothing has been deleted |
| AvUtil.StringSlot.CopyHeapString | src/Microsoft.DotNet.Wpf/src/WpfGfx/core/av/util.cpp:96-135 | the old string is always deleted; NULL gives NULL and S_OK; an overflowing length or failed allocation fails and leaves NULL; a buffer longer than STRSAFE_MAX_CCH is refused by StringCchCopy with STRSAFE_E_INVALID_PARAMETER, deleted, and NULL left; otherwise a new buffer holds the string and a NUL |
| AvUtil.CopyTerminated | src/Microsoft.DotNet.Wpf/src/WpfGfx/core/av/util.cpp:96-135 | the buffer holds every code unit of the string, then NUL |
| ResourceGens.Dwords | src/Microsoft.DotNet.Wpf/src/WpfGfx/core/hw/shaders/ShaderGen/ResourceGen.cpp:187-201 | the words read are the first cbSize / 4 little-endian DWORDs of the buffer, trailing bytes dropped |
| ResourceGens.EmptyArray | src/Microsoft.DotNet.Wpf/src/WpfGfx/core/hw/shaders/ShaderGen/ResourceGen.cpp:187-230 | fewer than four bytes give only the braces and a blank line |
| ResourceGens.RowEmitted | src/Microsoft.DotNet.Wpf/src/WpfGfx/core/hw/shaders/ShaderGen/ResourceGen.cpp:199-223 | within a row, the loop has written the indent, the row's words joined by ", ", then the separator of the last one |
| ResourceGens.RowsEmitted | src/Microsoft.DotNet.Wpf/src/WpfGfx/core/hw/shaders/ShaderGen/ResourceGen.cpp:199-223 | from any row start the loop writes exactly the remaining rows |
| ResourceGens.LoopWritesRows | src/Microsoft.DotNet.Wpf/src/WpfGfx/core/hw/shaders/ShaderGen/ResourceGen.cpp:199-223 | the loop writes rows of six words, each indented and joined by ", ", each ended by ",\n" and the last by "\n" |
| ResourceGens.ResourceGen.constructor | src/Microsoft.DotNet.Wpf/src/WpfGfx/core/hw/shaders/ShaderGen/ResourceGen.cpp:24-29 | no file open, nothing written, a total of zero |
| ResourceGens.ResourceGen.Initialize | src/Microsoft.DotNet.Wpf/src/WpfGfx/core/hw/shaders/ShaderGen/ResourceGen.cpp:59-89 | a .rc file that cannot be opened fails with E_FAIL and changes nothing; a .h file that cannot be opened fails with E_FAIL after the .rc file was opened; otherwise both hold the title and resource numbers start at enumStart |
| ResourceGens.ResourceGen.WriteDwordArray | src/Microsoft.DotNet.Wpf/src/WpfGfx/core/hw/shaders/ShaderGen/ResourceGen.cpp:187-230 | the .rc file gains the words in the row layout inside braces, and the UINT total grows by cbSize |
| ResourceGens.ResourceGen.WriteWords | src/Microsoft.DotNet.Wpf/src/WpfGfx/core/hw/shaders/ShaderGen/ResourceGen.cpp:199-223 | the .rc file gains exactly the rows of the words |
| ResourceGens.ResourceGen.WriteTexts | src/Microsoft.DotNet.Wpf/src/WpfGfx/core/hw/shaders/ShaderGen/ResourceGen.cpp:199-223 | the .rc file gains what the loop writes for all the words |
| ResourceGens.ResourceGen.WriteWord | src/Microsoft.DotNet.Wpf/src/WpfGfx/core/hw/shaders/ShaderGen/ResourceGen.cpp:201-222 | one iteration writes the indent at a row start, the word, then its separator |
| ResourceGens.ResourceGen.WritePixelShader | src/Microsoft.DotNet.Wpf/src/WpfGfx/core/hw/shaders/ShaderGen/ResourceGen.cpp:146-176 | the RCDATA line and the words go to the .rc file, the #define with the next resource number to the .h file, and the number and the total advance in UINT |
| ResourceGens.ResourceGen.CompileEffect | src/Microsoft.DotNet.Wpf/src/WpfGfx/core/hw/shaders/ShaderGen/ResourceGen.cpp:98-136 | the names are recorded; a compilation failure is returned with nothing written; otherwise the shader is written as WritePixelShader does |
| ResourceGens.ResourceGen.Close | src/Microsoft.DotNet.Wpf/src/WpfGfx/core/hw/shaders/ShaderGen/ResourceGen.cpp:38-49 | the .rc file, if open, gets the total-size footer; both files are closed |
| ResourceGens.TwoShaders | src/Microsoft.DotNet.Wpf/src/WpfGfx/core/hw/shaders/ShaderGen/ResourceGen.cpp:146-176 | two shaders in a row get consecutive resource numbers and the total counts both buffers |
| Formats.ParseDigits | src/Microsoft.DotNet.Wpf/src/WpfGfx/core/hw/shaders/ShaderGen/ResourceGen.cpp:163-170 | the digits of a number read back as that number, in base 10 and 16 |
| Formats.Hex8RoundTrip | src/Microsoft.DotNet.Wpf/src/WpfGfx/core/hw/shaders/ShaderGen/ResourceGen.cpp:206 | "%08x" of a UINT is eight hexadecimal digits that read back as the value |
| Formats.SignedDecimalRoundTrip | src/Microsoft.DotNet.Wpf/src/WpfGfx/core/hw/shaders/ShaderGen/ResourceGen.cpp:163-170 | "%d" of a UINT reads back as the value of its bits as a signed 32-bit int, with no minus sign below 2^31 |
| DWriteConverters.ToManaged | src/Microsoft.DotNet.Wpf/src/PresentationCore/MS/internal/Text/TextNotStubs.cs:1083-1198 | a case exists for the DirectWrite value exactly when a value comes back, and then it is that case's managed value |
| DWriteConverters.ToDWrite | src/Microsoft.DotNet.Wpf/src/PresentationCore/MS/internal/Text/TextNotStubs.cs:1021-1198 | a case exists for the managed value exactly when a value comes back, and then it is that case's DirectWrite value |
| DWriteConverters.TableRoundTrip | src/Microsoft.DotNet.Wpf/src/PresentationCore/MS/internal/Text/TextNotStubs.cs:1021-1198 | for a switch that names no value twice, converting one way and back gives the starting value |
| DWriteConverters.StyleFromDWrite | src/Microsoft.DotNet.Wpf/src/PresentationCore/MS/internal/Text/TextNotStubs.cs:1170-1183 | Normal, Oblique and Italic (0..2) convert to the same number; anything else throws |
| DWriteConverters.StyleToDWrite | src/Microsoft.DotNet.Wpf/src/PresentationCore/MS/internal/Text/TextNotStubs.cs:1185-1198 | Normal, Oblique and Italic (0..2) convert to the same number; anything else throws |
| DWriteConverters.StretchFromDWrite | src/Microsoft.DotNet.Wpf/src/PresentationCore/MS/internal/Text/TextNotStubs.cs:1104-1135 | the stretches 0..9 convert to the same number; anything else throws |
| DWriteConverters.StretchToDWrite | src/Microsoft.DotNet.Wpf/src/PresentationCore/MS/internal/Text/TextNotStubs.cs:1137-1168 | the stretches 0..9 convert to the same number; anything else throws |
| DWriteConverters.SimulationsFromDWrite | src/Microsoft.DotNet.Wpf/src/PresentationCore/MS/internal/Text/TextNotStubs.cs:1083-1102 | None, Bold, Oblique and Bold|Oblique (0..3) convert to the same number; anything else throws |
| DWriteConverters.SimulationsToDWrite | src/Microsoft.DotNet.Wpf/src/PresentationCore/MS/internal/Text/TextNotStubs.cs:1021-1036 | None, Bold, Oblique and Bold|Oblique (0..3) convert to the same number; anything else throws |
| DWriteConverters.WeightFromDWrite | src/Microsoft.DotNet.Wpf/src/PresentationCore/MS/internal/Text/TextNotStubs.cs:1248-1294 | every weight in 1..999 converts to the same number, named or not; anything else throws |
| DWriteConverters.WeightToDWrite | src/Microsoft.DotNet.Wpf/src/PresentationCore/MS/internal/Text/TextNotStubs.cs:1296-1340 | every weight in 1..999 converts to the same number, named or not; anything else throws |
| DWriteConverters.WeightTablesKeepValue | src/Microsoft.DotNet.Wpf/src/PresentationCore/MS/internal/Text/TextNotStubs.cs:1248-1340 | every named weight lies in 1..999 and keeps its number |
| DWriteConverters.AscendingOneToOne | src/Microsoft.DotNet.Wpf/src/PresentationCore/MS/internal/Text/TextNotStubs.cs:1021-1340 | a switch whose cases ascend and keep their number names no value twice |
| DWriteConverters.TablesOneToOne | src/Microsoft.DotNet.Wpf/src/PresentationCore/MS/internal/Text/TextNotStubs.cs:1021-1340 | the style, stretch, simulations and weight switches name no value twice |
| DWriteConverters.ConvertersRoundTrip | src/Microsoft.DotNet.Wpf/src/PresentationCore/MS/internal/Text/TextNotStubs.cs:1021-1340 | each pair of converters is mutually inverse on every value either accepts |
| DWriteConverters.PackTag | src/Microsoft.DotNet.Wpf/src/PresentationCore/MS/internal/Text/TextNotStubs.cs:891-893 | the tag is a 32-bit value whose low byte is the first character |
| DWriteConverters.PackTagRoundTrip | src/Microsoft.DotNet.Wpf/src/PresentationCore/MS/internal/Text/TextNotStubs.cs:891-893 | unpacking a tag gives back its four characters in memory order |
| DWriteConverters.UnpackTagRoundTrip | src/Microsoft.DotNet.Wpf/src/PresentationCore/MS/internal/Text/TextNotStubs.cs:891-893 | every 32-bit tag is the packing of its own four bytes |
| DWriteConverters.TableTags | src/Microsoft.DotNet.Wpf/src/PresentationCore/MS/internal/Text/TextNotStubs.cs:889-894 | GSUB, GPOS and GDEF are 0x42555347, 0x534F5047 and 0x46454447, spelled in memory order |
| FontLoaders.UntilNul | src/Microsoft.DotNet.Wpf/src/PresentationCore/MS/internal/Text/TextNotStubs.cs:67 | the string read from a key is its prefix up to, not including, the first NUL |
| FontLoaders.KeyText | src/Microsoft.DotNet.Wpf/src/PresentationCore/MS/internal/Text/TextNotStubs.cs:57-67 | a key is rejected exactly when the output pointer is null, its size is odd, it has at most one code unit, or its last code unit is not NUL; an accepted key names a NUL-free prefix shorter than the key |
| FontLoaders.CreateFromKey | src/Microsoft.DotNet.Wpf/src/PresentationCore/MS/internal/Text/TextNotStubs.cs:52-89 | a rejected key gives E_FAIL; an accepted one gives S_OK and the URI it names, or the code of what was thrown and nothing |
| FontLoaders.KeyRoundTrip | src/Microsoft.DotNet.Wpf/src/PresentationCore/MS/internal/Text/TextNotStubs.cs:57-67 | the key of a non-empty URI without NUL is accepted and names that URI; the key of the empty URI is rejected |
| FontLoaders.ReadFileFragment | src/Microsoft.DotNet.Wpf/src/PresentationCore/MS/internal/Text/TextNotStubs.cs:114-165 | rejected arguments give E_FAIL, a throw gives its code, and otherwise exactly size bytes of the stream from offset |
| FontLoaders.FragmentSucceedsIffInRange | src/Microsoft.DotNet.Wpf/src/PresentationCore/MS/internal/Text/TextNotStubs.cs:119-132 | with both pointers given and nothing thrown, a read succeeds exactly when the range lies in the stream and the size fits an int |
| FontLoaders.AdjacentFragments | src/Microsoft.DotNet.Wpf/src/PresentationCore/MS/internal/Text/TextNotStubs.cs:114-165 | two adjacent reads give the bytes of one read over both ranges |
| FontFaces.NewFace | src/Microsoft.DotNet.Wpf/src/PresentationCore/MS/internal/Text/TextNotStubs.cs:2295 | a new face holds its native face with a count of zero and nothing released |
| FontFaces.DisposeStep | src/Microsoft.DotNet.Wpf/src/PresentationCore/MS/internal/Text/TextNotStubs.cs:2297-2304 | Dispose releases a held native face once and forgets it, leaving the count |
| FontFaces.ReleaseStep | src/Microsoft.DotNet.Wpf/src/PresentationCore/MS/internal/Text/TextNotStubs.cs:2311-2322 | Release lowers the count by one and disposes exactly when it reaches -1 |
| FontFaces.NativeReleasedAtMostOnce | src/Microsoft.DotNet.Wpf/src/PresentationCore/MS/internal/Text/TextNotStubs.cs:2290-2322 | whatever the calls, a face releases its own native face at most once and nothing else |
| FontFaces.AddRefsCount | src/Microsoft.DotNet.Wpf/src/PresentationCore/MS/internal/Text/TextNotStubs.cs:2306-2309 | n AddRefs raise the count by n and change nothing else |
| FontFaces.ReleasesCount | src/Microsoft.DotNet.Wpf/src/PresentationCore/MS/internal/Text/TextNotStubs.cs:2311-2322 | n Releases from a count of at least n lower it by n and dispose nothing |
| FontFaces.DisposedOnlyAfterLastRelease | src/Microsoft.DotNet.Wpf/src/PresentationCore/MS/internal/Text/TextNotStubs.cs:2290-2322 | a new face taken and given back n times still holds its native face; one Release more releases it |
| FontFaces.FontFace.constructor | src/Microsoft.DotNet.Wpf/src/PresentationCore/MS/internal/Text/TextNotStubs.cs:2295 | the state is NewFace's |
| FontFaces.FontFace.Dispose | src/Microsoft.DotNet.Wpf/src/PresentationCore/MS/internal/Text/TextNotStubs.cs:2297-2304 | the new state is DisposeStep's |
| FontFaces.FontFace.AddRef | src/Microsoft.DotNet.Wpf/src/PresentationCore/MS/internal/Text/TextNotStubs.cs:2306-2309 | the count rises by one |
| FontFaces.FontFace.Release | src/Microsoft.DotNet.Wpf/src/PresentationCore/MS/internal/Text/TextNotStubs.cs:2311-2322 | the new state is ReleaseStep's |
| FontFaces.FirstEmpty | src/Microsoft.DotNet.Wpf/src/PresentationCore/MS/internal/Text/TextNotStubs.cs:1971-1978 | the lowest empty slot, or none when every slot is taken |
| FontFaces.FindFont | src/Microsoft.DotNet.Wpf/src/PresentationCore/MS/internal/Text/TextNotStubs.cs:2004-2013 | the lowest slot holding the font, or none when no slot holds it |
| FontFaces.InsertSlot | src/Microsoft.DotNet.Wpf/src/PresentationCore/MS/internal/Text/TextNotStubs.cs:1967-1978 | a slot index below four |
| FontFaces.GetStepKeepsCache | src/Microsoft.DotNet.Wpf/src/PresentationCore/MS/internal/Text/TextNotStubs.cs:1882-1998 | afterwards the font sits in the MRU slot with the face returned, and the cache keeps four slots, no font or face twice, the occupied slots first |
| FontFaces.GetStepHits | src/Microsoft.DotNet.Wpf/src/PresentationCore/MS/internal/Text/TextNotStubs.cs:1882-2016 | a lookup hits exactly when the array exists and holds the font, and then hands out that face and changes only the MRU index |
| FontFaces.GetStepInserts | src/Microsoft.DotNet.Wpf/src/PresentationCore/MS/internal/Text/TextNotStubs.cs:1953-1998 | a miss puts the new face in the lowest empty slot, or with every slot taken in the one after the MRU slot, evicting its face; no other slot changes |
| FontFaces.EvictOnlyWhenFull | src/Microsoft.DotNet.Wpf/src/PresentationCore/MS/internal/Text/TextNotStubs.cs:1953-1998 | while a slot is free no face is evicted |
| FontFaces.FontFaceCache.constructor | src/Microsoft.DotNet.Wpf/src/PresentationCore/MS/internal/Text/TextNotStubs.cs:1809-1814 | no array and an MRU index of 0 |
| FontFaces.FontFaceCache.GetFontFace | src/Microsoft.DotNet.Wpf/src/PresentationCore/MS/internal/Text/TextNotStubs.cs:1882-1913 | the cache becomes GetStep's; a hit adds a reference to the cached face, a miss returns a new face with one reference and releases the evicted face; no other face changes |
| FontFaces.FontFaceCache.LookupFontFaceSlow | src/Microsoft.DotNet.Wpf/src/PresentationCore/MS/internal/Text/TextNotStubs.cs:2000-2016 | the lowest slot holding the font becomes MRU and its face gains a reference; without one nothing changes |
| FontFaces.FontFaceCache.AddFontFaceToCache | src/Microsoft.DotNet.Wpf/src/PresentationCore/MS/internal/Text/TextNotStubs.cs:1953-1998 | a new face with one reference takes InsertSlot's slot (the array made if need be) and becomes MRU; the evicted face is released; no other face changes |
| FontFaces.FontFaceCache.ResetFontFaceCache | src/Microsoft.DotNet.Wpf/src/PresentationCore/MS/internal/Text/TextNotStubs.cs:2018-2040 | the array is dropped and every face it held is released once |
| Enumerators.MoveNextStep | src/Microsoft.DotNet.Wpf/src/PresentationCore/MS/internal/Text/TextNotStubs.cs:2244-2252 | at or past the count the index stays and the answer is false; otherwise the index moves one on and the answer is whether it is still below the count |
| Enumerators.CurrentAt | src/Microsoft.DotNet.Wpf/src/PresentationCore/MS/internal/Text/TextNotStubs.cs:2254-2269 | a throw exactly before the start or at or after the end; otherwise the element at the index |
| Enumerators.MovesVisitInOrder | src/Microsoft.DotNet.Wpf/src/PresentationCore/MS/internal/Text/TextNotStubs.cs:2244-2252 | from the start the k-th MoveNext lands on element k - 1 and answers true while it exists; the index then stops at the count and every further call answers false |
| Enumerators.MoveNextThenCurrent | src/Microsoft.DotNet.Wpf/src/PresentationCore/MS/internal/Text/TextNotStubs.cs:2244-2269 | the index never leaves -1 .. count, and MoveNext answers true exactly when Current then has an element |
| Enumerators.Enumerator.constructor | src/Microsoft.DotNet.Wpf/src/PresentationCore/MS/internal/Text/TextNotStubs.cs:3071-3075 | a new enumerator stands before the first element |
| Enumerators.Enumerator.MoveNext | src/Microsoft.DotNet.Wpf/src/PresentationCore/MS/internal/Text/TextNotStubs.cs:3077-3085 | the new index and answer are MoveNextStep's |
| Enumerators.Enumerator.Current | src/Microsoft.DotNet.Wpf/src/PresentationCore/MS/internal/Text/TextNotStubs.cs:3087-3105 | CurrentAt of the index |
| Enumerators.Enumerator.Reset | src/Microsoft.DotNet.Wpf/src/PresentationCore/MS/internal/Text/TextNotStubs.cs:3115-3118 | back before the first element |
| Enumerators.IncInt32 | src/Microsoft.DotNet.Wpf/src/PresentationCore/MS/internal/Text/TextNotStubs.cs:2250 | the unchecked int increment stays in range and adds one below int.MaxValue |
| Enumerators.FontsMoveNextAsWritten | src/Microsoft.DotNet.Wpf/src/PresentationCore/MS/internal/Text/TextNotStubs.cs:2244-2252 | the index stays an int, and for counts up to int.MaxValue it agrees with MoveNextStep |
| Enumerators.FontsEnumeratorWraps | src/Microsoft.DotNet.Wpf/src/PresentationCore/MS/internal/Text/TextNotStubs.cs:2236-2252 | with 2^31 fonts the call after the last font wraps the index to int.MinValue and answers true, and the next call answers true again, where MoveNextStep stops at the count with false |
| CharAttributes.ExtendedIsSurrogate | src/Microsoft.DotNet.Wpf/src/PresentationCore/MS/internal/Text/TextStubs.cs:496-501 | the mask test holds exactly for the surrogate code units U+D800 to U+DFFF |
| CharAttributes.AttrOfReadsBack | src/Microsoft.DotNet.Wpf/src/PresentationCore/MS/internal/Text/TextStubs.cs:864-870 | each flag of a character's mask reads back the classifier's answer (IsExtended whether it is a surrogate), and no other bit is set |
| CharAttributes.CountsDecideFlags | src/Microsoft.DotNet.Wpf/src/PresentationCore/MS/internal/Text/TextStubs.cs:601-643 | the Indic count is positive exactly when some strong character is Indic and not Latin; the Latin count reaches the strong count exactly when every strong character is Latin; the strong count is positive exactly when some character is strong |
| CharAttributes.ScanCombining | src/Microsoft.DotNet.Wpf/src/PresentationCore/MS/internal/Text/TextStubs.cs:570-579 | true exactly when some character of the range is a combining mark |
| CharAttributes.ScanNeedsCaretInfo | src/Microsoft.DotNet.Wpf/src/PresentationCore/MS/internal/Text/TextStubs.cs:590-599 | true exactly when no strong character of the range lacks NeedsCaretInfo |
| CharAttributes.ScanScripts | src/Microsoft.DotNet.Wpf/src/PresentationCore/MS/internal/Text/TextStubs.cs:601-627 | the counts of strong, strong Latin and strong Indic-not-Latin characters, and whether any is extended |
| CharAttributes.RunsPartition | src/Microsoft.DotNet.Wpf/src/PresentationCore/MS/internal/Text/TextStubs.cs:858-910 | the digit runs cut the text into non-empty adjacent pieces from 0 to its length, neighbours of different digit value |
| CharAttributes.ExtendLastRun | src/Microsoft.DotNet.Wpf/src/PresentationCore/MS/internal/Text/TextStubs.cs:897-906 | a character with the last run's value lengthens that run |
| CharAttributes.AppendRun | src/Microsoft.DotNet.Wpf/src/PresentationCore/MS/internal/Text/TextStubs.cs:897-906 | a character with the other value starts a run of its own |
| CharAttributes.NoCultureOneRun | src/Microsoft.DotNet.Wpf/src/PresentationCore/MS/internal/Text/TextStubs.cs:860-897 | with no number culture the whole text is one non-digit run |
| TextItemizers.Pos | src/Microsoft.DotNet.Wpf/src/PresentationCore/MS/internal/Text/TextStubs.cs:664-666 | the position under a cursor, uint.MaxValue once its list is done |
| TextItemizers.AdvanceStep | src/Microsoft.DotNet.Wpf/src/PresentationCore/MS/internal/Text/TextStubs.cs:670-690 | a step uses up one position of the lists |
| TextItemizers.AdvanceMonotone | src/Microsoft.DotNet.Wpf/src/PresentationCore/MS/internal/Text/TextStubs.cs:670-690 | moving on a list in order never lowers the position |
| TextItemizers.NextSmallestPosChoice | src/Microsoft.DotNet.Wpf/src/PresentationCore/MS/internal/Text/TextStubs.cs:662-692 | the least of the three positions, moving exactly one cursor (on a tie the script list's, then the number-substitution list's); it fails only when every list is done and the script cursor has already stepped past its end |
| TextItemizers.NextSmallestPosProgress | src/Microsoft.DotNet.Wpf/src/PresentationCore/MS/internal/Text/TextStubs.cs:662-692 | each call uses up one position, and answers a position no cursor stands before, before and (lists in order) after the call |
| TextItemizers.SpanFlags | src/Microsoft.DotNet.Wpf/src/PresentationCore/MS/internal/Text/TextStubs.cs:570-654 | the span covers the range and carries the combining, caret, extended, Indic and Latin flags of its characters |
| TextItemizers.NextBoundary | src/Microsoft.DotNet.Wpf/src/PresentationCore/MS/internal/Text/TextStubs.cs:551-560 | the inner loop's answer is Boundary's: GetNextSmallestPos until the position leaves the range's start |
| TextItemizers.BoundaryProgress | src/Microsoft.DotNet.Wpf/src/PresentationCore/MS/internal/Text/TextStubs.cs:551-560 | the inner loop ends past the range's start at a position no cursor stands before, with fewer positions left, and that position is what GetNextSmallestPos answered from the cursors kept as previous |
| TextItemizers.RangeSpan | src/Microsoft.DotNet.Wpf/src/PresentationCore/MS/internal/Text/TextStubs.cs:562-656 | a span of the range's length with its characters' flags, the script of the node the script cursor stood on (none past the list), the number substitution of its node exactly when the range ends inside it, and the number culture exactly when its digit run is a digit run; a failure exactly where the C# indexes past the attributes or the digit list |
| TextItemizers.WalkShape | src/Microsoft.DotNet.Wpf/src/PresentationCore/MS/internal/Text/TextStubs.cs:543-657 | the ranges the outer loop cuts follow one another from its start without gap, each non-empty, inside the attributes and ending at a GetNextSmallestPos answer, and after the last the loop's condition is false |
| TextItemizers.CutsShape | src/Microsoft.DotNet.Wpf/src/PresentationCore/MS/internal/Text/TextStubs.cs:538-657 | the text's ranges start at the first position GetNextSmallestPos answers, follow one another without gap, and end at the text's length or where every list is done |
| TextItemizers.TextItemizer.constructor | src/Microsoft.DotNet.Wpf/src/PresentationCore/MS/internal/Text/TextStubs.cs:512-519 | the two DirectWrite lists, and no digit runs |
| TextItemizers.TextItemizer.SetIsDigit | src/Microsoft.DotNet.Wpf/src/PresentationCore/MS/internal/Text/TextStubs.cs:694-701 | one more digit value and the range [position, position + length), its end a uint |
| TextItemizers.TextItemizer.Itemize | src/Microsoft.DotNet.Wpf/src/PresentationCore/MS/internal/Text/TextStubs.cs:521-660 | fails exactly when Cuts does; otherwise one span per range Cuts gives, in order, each of the range's length with the flags, script, number substitution and culture choice SpanOf states (ranges shaped as CutsShape states) |
| TextItemizers.DigitValues | src/Microsoft.DotNet.Wpf/src/PresentationCore/MS/internal/Text/TextStubs.cs:860-897 | each character's digit value is the classifier's answer, and false throughout without a number culture |
| TextItemizers.Attributes | src/Microsoft.DotNet.Wpf/src/PresentationCore/MS/internal/Text/TextStubs.cs:864-894 | each character's mask is AttrOf of its classification |
| TextItemizers.RunRangesWellFormed | src/Microsoft.DotNet.Wpf/src/PresentationCore/MS/internal/Text/TextStubs.cs:858-910 | the digit runs of a text of fewer than 2^32 characters form a list Itemize accepts |
| TextItemizers.RunsStep | src/Microsoft.DotNet.Wpf/src/PresentationCore/MS/internal/Text/TextStubs.cs:897-906 | the runs of one more character are the old runs with the last lengthened or a new one added |
| TextItemizers.RecordedFinish | src/Microsoft.DotNet.Wpf/src/PresentationCore/MS/internal/Text/TextStubs.cs:909-910 | recording the last run at the end of the text records all the runs |
| TextItemizers.RecordedSame | src/Microsoft.DotNet.Wpf/src/PresentationCore/MS/internal/Text/TextStubs.cs:897-906 | a character with the current run's value records nothing |
| TextItemizers.RecordedChange | src/Microsoft.DotNet.Wpf/src/PresentationCore/MS/internal/Text/TextStubs.cs:898-906 | a character with the other value records the current run and starts a new one |
| TextItemizers.AnalyzeExtendedCharactersAndDigits | src/Microsoft.DotNet.Wpf/src/PresentationCore/MS/internal/Text/TextStubs.cs:835-911 | every character's mask is written, and the text's maximal digit runs are recorded in order, one SetIsDigit each |
| TextItemizers.AnalyzeExtendedAndItemize | src/Microsoft.DotNet.Wpf/src/PresentationCore/MS/internal/Text/TextStubs.cs:823-832 | the digit runs of the text are recorded, then the spans are Itemize's over the masks up to the text's length: one per range Cuts gives, or a failure exactly when Cuts fails |
| TextAnalyzers.Lookups | src/Microsoft.DotNet.Wpf/src/PresentationCore/MS/internal/Text/TextStubs.cs:1159-1200 | no lookup of the hyphen glyph in a text without hyphens |
| TextAnalyzers.GetBlankGlyphsForControlCharacters | src/Microsoft.DotNet.Wpf/src/PresentationCore/MS/internal/Text/TextStubs.cs:1159-1200 | the glyph count is the text length; a small buffer is left alone, a text over 65535 throws; otherwise glyph i is the hyphen glyph for a hyphen and the blank glyph else, in cluster i, able to stand alone, nothing past the text written |
| TrueTypeSubsetters.ComputeSubset | src/Microsoft.DotNet.Wpf/src/PresentationCore/MS/internal/Text/TextStubs.cs:27-82 | the native subset on success, the whole font when a subset would be larger, a throw on any other code |
| DotNetStrings.IndexOf | src/Microsoft.DotNet.Wpf/src/System.Xaml/otherassemblyattrs.cs:74 | the first index of the character, or -1 exactly when it does not occur |
| DotNetStrings.IndexOfFirst | src/Microsoft.DotNet.Wpf/src/System.Xaml/otherassemblyattrs.cs:74 | a character that does not occur before index b is found at b |
| DotNetStrings.TrimStart | src/Microsoft.DotNet.Wpf/src/System.Xaml/otherassemblyattrs.cs:75-76 | a suffix of the string that starts with no white space, all it drops being white space |
| DotNetStrings.TrimEnd | src/Microsoft.DotNet.Wpf/src/System.Xaml/otherassemblyattrs.cs:75-76 | a prefix of the string that ends with no white space, all it drops being white space |
| DotNetStrings.TrimKeepsOut | src/Microsoft.DotNet.Wpf/src/System.Xaml/otherassemblyattrs.cs:75-76 | a trimmed string has no white space at either end and no character the string did not have |
| DotNetStrings.TrimPadded | src/Microsoft.DotNet.Wpf/src/System.Xaml/otherassemblyattrs.cs:75-76 | trimming leading white space off a trimmed string gives that string |
| XamlPermissions.AssemblyAccessTo | src/Microsoft.DotNet.Wpf/src/System.Xaml/otherassemblyattrs.cs:57-65 | the assembly's full name and no type |
| XamlPermissions.PrivateAccessToType | src/Microsoft.DotNet.Wpf/src/System.Xaml/otherassemblyattrs.cs:67-70 | the type's assembly and the type's full name |
| XamlPermissions.PrivateAccessTo | src/Microsoft.DotNet.Wpf/src/System.Xaml/otherassemblyattrs.cs:72-79 | with no comma the call throws; otherwise the type name is trimmed and holds no comma |
| XamlPermissions.PrivateAccessToAgreesWithType | src/Microsoft.DotNet.Wpf/src/System.Xaml/otherassemblyattrs.cs:67-79 | a type's "FullName, AssemblyFullName" gives the access level PrivateAccessTo(Type) gives, when the type name has no comma and the assembly name parses to itself |
| XamlPermissions.QualifiedNameParts | src/Microsoft.DotNet.Wpf/src/System.Xaml/otherassemblyattrs.cs:74-76 | "FullName, AssemblyFullName" splits at its first comma back into its two trimmed names |
| XamlPermissions.PrivateAccessToCutsAtFirstComma | src/Microsoft.DotNet.Wpf/src/System.Xaml/otherassemblyattrs.cs:74-75 | a type name holding a comma is cut at its first comma |
| XamlPermissions.XamlLoadPermission.constructor | src/Microsoft.DotNet.Wpf/src/System.Xaml/otherassemblyattrs.cs:28-35 | whatever the argument, the allowed access list is empty |
| XamlPermissions.XamlLoadPermission.Equals | src/Microsoft.DotNet.Wpf/src/System.Xaml/otherassemblyattrs.cs:32 | equal exactly to itself |
| XamlPermissions.XamlLoadPermission.Includes | src/Microsoft.DotNet.Wpf/src/System.Xaml/otherassemblyattrs.cs:38 | includes every access level |
| XamlPermissions.XamlLoadPermission.IsSubsetOf | src/Microsoft.DotNet.Wpf/src/System.Xaml/otherassemblyattrs.cs:40 | a subset of every permission |
| XamlPermissions.XamlLoadPermission.IsUnrestricted | src/Microsoft.DotNet.Wpf/src/System.Xaml/otherassemblyattrs.cs:43 | always unrestricted |
| XamlPermissions.XamlLoadPermission.Copy | src/Microsoft.DotNet.Wpf/src/System.Xaml/otherassemblyattrs.cs:36-42 | a new unrestricted permission with no allowed access, not Equal to this one |
| XamlPermissions.PermissionsInterchangeable | src/Microsoft.DotNet.Wpf/src/System.Xaml/otherassemblyattrs.cs:32-40 | any two permissions are subsets of each other, yet Equal only when they are the same object |
| ValueSerializers.Resolved | src/Microsoft.DotNet.Wpf/src/System.Xaml/otherassemblyattrs.cs:127-138 | a held type stays; without one, the stored name is resolved, and no name gives none |
| ValueSerializers.ResolvedSettles | src/Microsoft.DotNet.Wpf/src/System.Xaml/otherassemblyattrs.cs:127-138 | asking again after a resolution changes nothing |
| ValueSerializers.TypeNameOf | src/Microsoft.DotNet.Wpf/src/System.Xaml/otherassemblyattrs.cs:143-156 | a held type's qualified name, else the stored name |
| ValueSerializers.TypeNameAfterResolve | src/Microsoft.DotNet.Wpf/src/System.Xaml/otherassemblyattrs.cs:119-156 | built from a name, the attribute answers that name until it resolves, then the resolved type's qualified name |
| ValueSerializers.ValueSerializerAttribute.FromType | src/Microsoft.DotNet.Wpf/src/System.Xaml/otherassemblyattrs.cs:110-113 | holds the type and no name |
| ValueSerializers.ValueSerializerAttribute.FromName | src/Microsoft.DotNet.Wpf/src/System.Xaml/otherassemblyattrs.cs:119-122 | holds the name and no type |
| ValueSerializers.ValueSerializerAttribute.ValueSerializerType | src/Microsoft.DotNet.Wpf/src/System.Xaml/otherassemblyattrs.cs:127-138 | the held type becomes Resolved's and is returned |
| ValueSerializers.ValueSerializerAttribute.ValueSerializerTypeName | src/Microsoft.DotNet.Wpf/src/System.Xaml/otherassemblyattrs.cs:143-156 | TypeNameOf the held type and name |

## Behaviour of the code that the model keeps

- **MarkUnusable.** `MarkUnusable` is an empty method (d3ddevice.cpp:619-624), so `D3DDevice.Device.MarkUnusable` changes nothing. The consequence for `HandleDisplayChange` is listed under Findings.
- **Marker consumption.** On an unexpected failure of `GetData`, `IsConsumedGPUMarker` disables the markers and still answers consumed. It moves markers to the free list only on `S_OK` or device lost. `DeviceMarkers.ConsumeOutcome` states this.
- **AdvanceFrame.** `AdvanceFrame` stores the frame number it is given; it does not count frames itself (d3ddevice.cpp:3406-3417). `DeviceRules.AdvanceFrame` does the same.
- **UpdateFlippingChain failures.** Not every failure of `UpdateFlippingChain` disables rendering. A failure of `CreateDXGIFactory`, of `CD3DSwapChain::Create` or of `ClearInvalidatedRects` goes to `Cleanup` and skips `SubCleanup1`, so it leaves the rendering flag as it was. `HwndRenderTargets.FailureOutcomes` states this.
- **Success codes.** An `IFC` leaves the code of the call it checks in `hr`, so a success code other than `S_OK` reaches the caller. `RealizeColorSources`, `ProcessEffectList`, `Execute` and the solid-colour texture's `Realize` answer the last call's code, as the code does.

## Left out

- Native calls are not modelled. This covers Direct3D, DXGI, DirectWrite, GDI, D3DCompile, the TrueType subsetter, `IsWindow` and file I/O. Their results are parameters, so the model says nothing about what they do.
- The resource manager's internals (`FreeSomeVideoMemory`, `EndFrame`, the delayed release, use-context eviction) are not modelled. `CD3DResourceManager` is not part of this model: only the calls the device makes to it are recorded, and `FreeSomeVideoMemory`'s answers are parameters.
- Concurrency is not modelled. This covers the critical sections, the thread-id checks beyond equality, and the font-face cache's `Interlocked` mutex. Everything runs sequentially, and the cache lock is always free, so the busy path of `GetFontFace`, `AddFontFaceToCache` and `ResetFontFaceCache` is not modelled.
- Floating point is not modelled. This covers colour and blend-factor scaling, the transforms, the glyph metrics and `FontMetrics`.
- Debug and metrics-only code is not modelled, and neither is COM reference counting beyond the explicit counters.
- GPU markers are held by value in the device's lists. The source holds pointers, each owned by exactly one list, so the model loses only pointer identity.
- DeviceMarkers.FreeThrough: a failure of `DynArray::Add` inside `FreeMarkerAndItsPredecessors` is not modelled. Such a failure would leave NULL entries in the active list. Insertion does model its `Add` failure.
- DeviceManagers.DeviceManager.HandleDisplayChange: modelled under the assumption that each step of its loop delivers `UnusableNotification` for the device it marks. The code as written does not terminate (see Findings).
- HwndRenderTargets.FlipStep: the swap-chain wrapper's own state is not modelled. The chain is a handle, and `ResizeBuffers` is never reached.
- FontFaces.FontFace.AddRef: the reference count is an unbounded integer. `Interlocked` arithmetic on an `int` would wrap after 2^31 references.
- FontLoaders.ReadFileFragment: a stream read that returns fewer bytes than asked is not modelled, and every read fills the fragment. `ReleaseFileFragment` is not modelled either.
- DWriteConverters: these converters are not modelled: `FactoryType`, `FontMetrics`, `FontFaceType`, `InformationalStringID` and the measuring mode. They are plain field copies or one-to-one switches with no property beyond their tables.
- Fonts are numbers, and a font-face handle is a number. Only identity is compared.
- TextItemizers.TextItemizer.Itemize: requires the three range lists to be in order and in `uint`, as DirectWrite supplies them and as `AnalyzeExtendedCharactersAndDigits` records them (`RunRangesWellFormed`). A throw is None, without the exception's type.
- TextItemizers.RangeSpan: the script and number substitution a span takes are the index of the list node the cursor stood on. The values DirectWrite stores in those nodes are not modelled.
- TextItemizers.ItemProps: the script analysis and the number substitution are opaque values. `ItemProps.Create` is not modelled beyond the flags.
- D3DDevice.Device.FlushBufferFan: requires that `3 * (vertices - 2)` fits in a UINT, so it leaves out buffers of 1431655768 vertices or more. For those, the code sizes the index vector with the wrapped product and then writes past its end; its `int` loop index also overflows beyond 2^31 triangles.
- The static `TextAnalyzer.Itemize` entry point is not modelled. It builds the lists through native calls and then calls `AnalyzeExtendedAndItemize`, which is modelled.
- TextItemizers.AnalyzeExtendedCharactersAndDigits: the character classifier is a total function parameter.
- DotNetStrings.IsWhiteSpace is the explicit .NET set of white space characters, without Unicode category tables beyond that set.
- XamlPermissions.PrivateAccessTo: `new AssemblyName` and its `FullName` are a parameter (None when the name does not parse). A generic type name holding a comma is cut at its first comma, as `PrivateAccessToCutsAtFirstComma` states.
- XamlPermissions.XamlLoadPermission: `FromXml`, `ToXml` and `GetHashCode` are not modelled. `Intersect` and `Union` return what `Copy` returns, so `Copy` stands for all three.
- ValueSerializers: `Type.GetType` is a parameter.
- TextAnalyzers.GetBlankGlyphsForControlCharacters: the font's hyphen glyph is a parameter, the answer of the native lookup.
- TrueTypeSubsetters.ComputeSubset: the native subsetter and the freeing of its buffer are parameters.
- ResourceGens: the files are strings. Opening a file is a flag, and the title text is a parameter.
- Textures.LevelArea: a level's area is the level-0 area divided by 4 per level, so it is 0 from level 16 on for any UINT area; the source shifts a UINT by 2 * level bits, which is undefined in C++ for levels 16 to 31 that Init accepts. Direct3D 11 textures have at most 15 levels, so those shifts do not arise.

## Findings

| source | as written | input that shows it | evidently intended | confidence | as-written member | corrected member |
|---|---|---|---|---|---|---|
| src/Microsoft.DotNet.Wpf/src/WpfGfx/core/hw/d3ddevice.cpp:3358-3379 | `ConsumePresentMarkers` calls `FreeMarkerAndItsPredecessors(i)` after `IsConsumedGPUMarker` answered consumed. That answer also comes after an unexpected `GetData` failure, which has already disabled the markers and emptied the active list. | One active marker whose `GetData` fails with E_FAIL: the active list is empty, and its count minus one wraps to 2^32 - 1 in UINT. | Stop when the markers were disabled by the check. | medium, not executed | DeviceMarkers.ConsumeAsWrittenFreesOutOfRange | DeviceMarkers.ConsumeOutcome |
| src/Microsoft.DotNet.Wpf/src/WpfGfx/core/hw/d3ddevicemanager.cpp:493-546 | `HandleDisplayChange` loops `while (m_iFirstUnusable > 0)` and calls `MarkUnusable` on the last usable device. `MarkUnusable` is empty. | Any pool with one usable device: no step moves it, so the loop never ends. | Each step makes the device unusable, so the usable range shrinks to nothing. | medium, not executed | DevicePool.DisplayChangeLoopAsWrittenSpins | DevicePool.DemoteAllEmptiesUsable |
| src/Microsoft.DotNet.Wpf/src/WpfGfx/core/hw/d3dswapchain.cpp:102-128 | `operator new` checks the pointer array's size by comparing `n * sizeof(pointer)` with `n`. That comparison misses a wrap that lands above `n`. | n = 0x3000000000000000: the product wraps to 0x8000000000000000, which is above n, so far too little memory is requested. | Refuse any count whose array does not fit in size_t. | low (back-buffer counts are UINT, see UIntCountsDoNotWrap), not executed | SwapChains.NewAsWrittenMissesWrap | SwapChains.NewAgreesWithoutWrap |
| src/Microsoft.DotNet.Wpf/src/WpfGfx/core/av/util.cpp:63-83 | `Win32StatusFromHR` returns the HRESULT's own bits in both branches. | The HRESULT of ERROR_ACCESS_DENIED (5) gives 0x80070005, not 5. | For a Win32-facility code, the error it carries. | medium, not executed | AvUtil.Win32StatusAsWrittenDoesNotInvert | AvUtil.IntendedStatusInvertsFromWin32 |
| src/Microsoft.DotNet.Wpf/src/PresentationCore/MS/internal/Text/TextNotStubs.cs:2236-2252 | `FontsEnumerator` keeps its index in an `int` but compares it with a `uint` count. The guard lets the increment wrap. | A list of 2^31 fonts: after the last one `MoveNext` wraps the index to int.MinValue and answers true. | Stop at the count, as LocalizedStringsEnumerator's long index does. | low, not executed | Enumerators.FontsEnumeratorWraps | Enumerators.MovesVisitInOrder |
