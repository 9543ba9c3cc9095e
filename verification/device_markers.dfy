/**
 * The device's bookkeeping of GPU markers (core/hw/d3ddevice.cpp, the marker
 * members of CD3DDeviceLevel1, and the flag helpers of core/hw/d3ddevice.h).
 *
 * After every present the device appends a marker to its list of active
 * markers; ConsumePresentMarkers polls them, newest first, and moves the
 * newest consumed marker and everything older to the free list, from which
 * later markers are recycled.  Any unexpected failure switches the markers
 * off and drops both lists.
 *
 * The state is the value Markers; the functions below are the transitions
 * the class D3DDevice.D3DDevice performs in place.
 */
module DeviceMarkers {
  import opened HResults
  import opened GpuMarkers

  /** GPU_MARKERS_MAX_ARRAY_SIZE: a longer backlog switches markers off. */
  const GPU_MARKERS_MAX_ARRAY_SIZE: nat := 35

  datatype Markers = Markers(
    active: seq<MarkerState>,   // m_rgpMarkerActive, oldest first
    free: seq<MarkerState>,     // m_rgpMarkerFree
    flags: bv32,                // m_dwGPUMarkerFlags
    lastId: nat,                // m_ullLastMarkerId
    lastConsumedId: nat,        // m_ullLastConsumedMarkerId
    presentsSinceFlush: nat)    // m_uNumSuccessfulPresentsSinceMarkerFlush

  const MARKERS_ENABLED: bv32 := 0x1
  const MARKERS_TESTED: bv32 := 0x10
  const MARKER_CONSUMED: bv32 := 0x100

  predicate HasFlag(w: bv32, f: bv32) { w & f != 0 }

  /** Set*: OR in one flag. */
  function SetFlag(w: bv32, f: bv32): bv32 { w | f }

  /** DisableGPUMarkers' flag update: clear ENABLED. */
  function ClearEnabled(w: bv32): bv32 { w & !MARKERS_ENABLED }

  /**
   * The three flags are independent bits: each setter turns its own flag on
   * and leaves the other two as they were, and clearing ENABLED touches
   * neither TESTED nor CONSUMED.
   */
  lemma SetFlagIndependent(w: bv32, f: bv32, g: bv32)
    requires f == MARKERS_ENABLED || f == MARKERS_TESTED || f == MARKER_CONSUMED
    requires g == MARKERS_ENABLED || g == MARKERS_TESTED || g == MARKER_CONSUMED
    ensures HasFlag(SetFlag(w, f), g) == (f == g || HasFlag(w, g))
  {
    if f == MARKERS_ENABLED {
      if g == MARKERS_ENABLED {} else if g == MARKERS_TESTED {} else {}
    } else if f == MARKERS_TESTED {
      if g == MARKERS_ENABLED {} else if g == MARKERS_TESTED {} else {}
    } else {
      if g == MARKERS_ENABLED {} else if g == MARKERS_TESTED {} else {}
    }
  }

  lemma ClearEnabledIndependent(w: bv32)
    ensures !HasFlag(ClearEnabled(w), MARKERS_ENABLED)
    ensures HasFlag(ClearEnabled(w), MARKERS_TESTED) == HasFlag(w, MARKERS_TESTED)
    ensures HasFlag(ClearEnabled(w), MARKER_CONSUMED) == HasFlag(w, MARKER_CONSUMED)
  {
  }

  predicate Enabled(m: Markers) { HasFlag(m.flags, MARKERS_ENABLED) }
  predicate Tested(m: Markers) { HasFlag(m.flags, MARKERS_TESTED) }
  predicate ConsumedSeen(m: Markers) { HasFlag(m.flags, MARKER_CONSUMED) }

  /** The state a freshly constructed device starts in. */
  const Initial: Markers := Markers([], [], 0, 0, 0, 0)

  /**
   * What holds between calls: the backlog is bounded, every active marker
   * owns a query, has been issued and has not yet been seen consumed, every
   * free marker owns a query, markers are only enabled once tested, and a
   * disabled device holds no markers.
   */
  ghost predicate Valid(m: Markers)
  {
    && |m.active| <= GPU_MARKERS_MAX_ARRAY_SIZE
    && (forall k | 0 <= k < |m.active| ::
          m.active[k].hasQuery && m.active[k].issued && !m.active[k].consumed)
    && (forall k | 0 <= k < |m.free| :: m.free[k].hasQuery)
    && (Enabled(m) ==> Tested(m))
    && (!Enabled(m) ==> m.active == [] && m.free == [])
  }

  /** ResetMarkers: every marker is dropped and everything issued counts as consumed. */
  function ResetMarkers(m: Markers): (r: Markers)
    ensures r.active == [] && r.free == [] && r.lastConsumedId == r.lastId == m.lastId
  {
    m.(active := [], free := [], lastConsumedId := m.lastId)
  }

  /** DisableGPUMarkers: clear the enabled flag, then ResetMarkers. */
  function DisableMarkers(m: Markers): Markers
  {
    ResetMarkers(m.(flags := ClearEnabled(m.flags)))
  }

  /**
   * The one-time support probe of InsertGPUMarker: once done, markers are
   * tested, and enabled when the probe succeeded; the probe's answer is
   * returned.
   */
  function Probe(m: Markers, probeHr: HRESULT): (Markers, HRESULT)
  {
    if Tested(m) then (m, S_OK)
    else (m.(flags := SetFlag(if Succeeded(probeHr) then SetFlag(m.flags, MARKERS_ENABLED) else m.flags, MARKERS_TESTED)), probeHr)
  }

  /**
   * After the probe markers are tested; they are enabled exactly when they
   * were already or an untested probe succeeds; the lists and ids are
   * untouched.
   */
  lemma ProbeOutcome(m: Markers, probeHr: HRESULT)
    ensures var m1 := Probe(m, probeHr).0;
      && Tested(m1)
      && (Enabled(m1) <==> Enabled(m) || (!Tested(m) && Succeeded(probeHr)))
      && (ConsumedSeen(m1) <==> ConsumedSeen(m))
      && m1 == m.(flags := m1.flags)
  {
    if !Tested(m) {
      var w := if Succeeded(probeHr) then SetFlag(m.flags, MARKERS_ENABLED) else m.flags;
      SetFlagIndependent(w, MARKERS_TESTED, MARKERS_ENABLED);
      SetFlagIndependent(w, MARKERS_TESTED, MARKER_CONSUMED);
      if Succeeded(probeHr) {
        SetFlagIndependent(m.flags, MARKERS_ENABLED, MARKERS_ENABLED);
        SetFlagIndependent(m.flags, MARKERS_ENABLED, MARKER_CONSUMED);
      }
    }
  }

  /** The Cleanup block of InsertGPUMarker. */
  function InsertCleanup(m: Markers, hr: HRESULT): (Markers, HRESULT)
  {
    var m1 := if |m.active| > GPU_MARKERS_MAX_ARRAY_SIZE then DisableMarkers(m) else m;
    var hr1 := if hr == D3DERR_DEVICELOST || hr == D3DERR_NOTAVAILABLE then S_OK else hr;
    if Failed(hr1) then (DisableMarkers(m1), S_OK) else (m1, hr1)
  }

  /**
   * Issue the marker and append it to the active list (DynArray::Add
   * answers addHr, whose success code is what the call returns).
   */
  function IssueAndAdd(m: Markers, marker: MarkerState, addHr: HRESULT): (Markers, HRESULT)
  {
    var (issued, hr) := Insert(marker);
    if Failed(hr) then InsertCleanup(m, hr)
    else if Failed(addHr) then InsertCleanup(m, addHr)
    else InsertCleanup(m.(active := m.active + [issued]), addHr)
  }

  /**
   * InsertGPUMarker(id).  hasDevice: a native device exists; probeHr: the
   * answer of the one-time CreateQuery probe; createHr and allocOk: the
   * answers of CreateQuery and of the allocation when no free marker can be
   * recycled; addHr: the answer of appending to the active list.
   */
  function InsertMarker(m: Markers, id: nat, hasDevice: bool, probeHr: HRESULT,
                        createHr: HRESULT, allocOk: bool, addHr: HRESULT): (Markers, HRESULT)
  {
    if id < m.lastId || !hasDevice then InsertCleanup(m, S_OK)
    else
      var (m1, hr1) := Probe(m, probeHr);
      if !Enabled(m1) then InsertCleanup(m1.(lastId := id), hr1)
      else if |m1.free| > 0 then
        var n := |m1.free|;
        IssueAndAdd(m1.(free := m1.free[..n - 1]), ResetMarker(m1.free[n - 1], id), addHr)
      else if Failed(createHr) then InsertCleanup(m1, createHr)
      else if !allocOk then InsertCleanup(m1, E_OUTOFMEMORY)
      else IssueAndAdd(m1, ResetMarker(MarkerState(true, false, false, 0), id), addHr)
  }

  /**
   * IsConsumedGPUMarker(i): poll marker i.  Device lost counts as consumed;
   * any other failure disables markers and also reports consumed.
   */
  function IsConsumed(m: Markers, i: nat, flush: bool, getData: HRESULT): (r: (Markers, bool))
    requires i < |m.active|
    ensures !r.1 ==> |r.0.active| == |m.active|
  {
    var c := StatusCheck(m.active[i], flush, getData);
    var m1 := m.(active := m.active[i := c.marker]);
    var consumed := if c.hr == D3DERR_DEVICELOST then true else c.reportedConsumed;
    var hr := if c.hr == D3DERR_DEVICELOST then S_OK else c.hr;
    var m2 := if Succeeded(hr) && consumed then m1.(flags := SetFlag(m1.flags, MARKER_CONSUMED)) else m1;
    if Failed(hr) then (DisableMarkers(m2), true) else (m2, consumed)
  }

  /** FreeMarkerAndItsPredecessors(i): markers 0..i move to the free list in order. */
  function FreeThrough(m: Markers, i: nat): (r: Markers)
    requires i < |m.active|
    ensures |r.active| + i + 1 == |m.active|
  {
    m.(lastConsumedId := m.active[i].id,
       free := m.free + m.active[..i + 1],
       active := m.active[i + 1..])
  }

  /**
   * Freeing moves markers between the lists without losing or duplicating
   * any, keeps the order of both, and keeps the state valid.
   */
  lemma {:induction false} FreeThroughConserves(m: Markers, i: nat)
    requires i < |m.active|
    ensures multiset(FreeThrough(m, i).active) + multiset(FreeThrough(m, i).free)
            == multiset(m.active) + multiset(m.free)
    ensures FreeThrough(m, i).free[..|m.free|] == m.free
    ensures FreeThrough(m, i).free[|m.free|..] + FreeThrough(m, i).active == m.active
  {
    var r := FreeThrough(m, i);
    assert m.active == m.active[..i + 1] + m.active[i + 1..];
    assert r.free[|m.free|..] == m.active[..i + 1];
  }

  /**
   * ConsumePresentMarkers as written: after IsConsumedGPUMarker has disabled
   * the markers, FreeMarkerAndItsPredecessors(i) runs on the emptied list.
   * None marks that out-of-range call.
   */
  function ConsumeAsWritten(m: Markers, k: nat, flush: bool, answers: seq<HRESULT>): Option<Markers>
    requires k <= |m.active| <= |answers|
    decreases k
  {
    if k == 0 then Some(m)
    else
      var r := IsConsumed(m, k - 1, flush, answers[k - 1]);
      var m1 := r.0;
      if r.1 then (if k - 1 < |m1.active| then Some(FreeThrough(m1, k - 1)) else None)
      else ConsumeAsWritten(if flush then m1.(presentsSinceFlush := 0) else m1, k - 1, false, answers)
  }

  /**
   * ConsumePresentMarkers, corrected: markers k-1 down to 0 are polled,
   * answers[j] being GetData's answer for marker j; the walk stops at the
   * first marker reported consumed, and frees it and its predecessors only
   * while the markers are still there.  After the first poll the flush flag
   * is dropped and the present counter reset.
   */
  function Consume(m: Markers, k: nat, flush: bool, answers: seq<HRESULT>): Markers
    requires k <= |m.active| <= |answers|
    decreases k
  {
    if k == 0 then m
    else
      var r := IsConsumed(m, k - 1, flush, answers[k - 1]);
      var m1 := r.0;
      if r.1 then (if k - 1 < |m1.active| then FreeThrough(m1, k - 1) else m1)
      else Consume(if flush then m1.(presentsSinceFlush := 0) else m1, k - 1, false, answers)
  }

  /** One step of Consume: poll marker k-1, then stop or go on with the flush dropped. */
  lemma ConsumeStep(m: Markers, k: nat, flush: bool, answers: seq<HRESULT>)
    requires 0 < k <= |m.active| <= |answers|
    ensures var r := IsConsumed(m, k - 1, flush, answers[k - 1]);
      r.1 ==> Consume(m, k, flush, answers) == (if k - 1 < |r.0.active| then FreeThrough(r.0, k - 1) else r.0)
    ensures var r := IsConsumed(m, k - 1, flush, answers[k - 1]);
      !r.1 ==> Consume(m, k, flush, answers)
               == Consume(if flush then r.0.(presentsSinceFlush := 0) else r.0, k - 1, false, answers)
  {
  }

  // ---- properties ----

  /** Reset and disable both leave a valid, empty state. */
  lemma DisableIsValid(m: Markers)
    requires Tested(m)
    ensures Valid(DisableMarkers(m)) && !Enabled(DisableMarkers(m))
    ensures DisableMarkers(m).lastConsumedId == m.lastId
  {
  }

  lemma InsertCleanupValid(m: Markers, hr: HRESULT)
    requires Valid(m.(active := if |m.active| > GPU_MARKERS_MAX_ARRAY_SIZE then [] else m.active))
    requires Tested(m) && (|m.active| > GPU_MARKERS_MAX_ARRAY_SIZE ==> Enabled(m))
    ensures Valid(InsertCleanup(m, hr).0) && InsertCleanup(m, hr).1 == (if Failed(hr) && hr != D3DERR_DEVICELOST && hr != D3DERR_NOTAVAILABLE then S_OK else if hr == D3DERR_DEVICELOST || hr == D3DERR_NOTAVAILABLE then S_OK else hr)
  {
  }

  /**
   * InsertGPUMarker always reports success and keeps the state valid.
   */
  lemma InsertKeepsValid(m: Markers, id: nat, hasDevice: bool, probeHr: HRESULT,
                         createHr: HRESULT, allocOk: bool, addHr: HRESULT)
    requires Valid(m)
    ensures var (m', hr) := InsertMarker(m, id, hasDevice, probeHr, createHr, allocOk, addHr);
      Valid(m') && Succeeded(hr)
  {
    if id >= m.lastId && hasDevice {
      var (m1, hr1) := Probe(m, probeHr);
      ProbeOutcome(m, probeHr);
      if !Enabled(m1) {
        InsertCleanupValid(m1.(lastId := id), hr1);
      } else if |m1.free| > 0 {
        var n := |m1.free|;
        assert m1.free[n - 1].hasQuery;
        IssueAndAddValid(m1.(free := m1.free[..n - 1]), ResetMarker(m1.free[n - 1], id), addHr);
      } else if Failed(createHr) {
        InsertCleanupValid(m1, createHr);
      } else if !allocOk {
        InsertCleanupValid(m1, E_OUTOFMEMORY);
      } else {
        IssueAndAddValid(m1, ResetMarker(MarkerState(true, false, false, 0), id), addHr);
      }
    }
  }

  /** Issuing and appending an unconsumed marker that owns a query keeps the state valid. */
  lemma IssueAndAddValid(m: Markers, marker: MarkerState, addHr: HRESULT)
    requires Valid(m) && Enabled(m) && marker.hasQuery && !marker.consumed
    ensures Valid(IssueAndAdd(m, marker, addHr).0) && Succeeded(IssueAndAdd(m, marker, addHr).1)
  {
    var issued := marker.(issued := true);
    if Succeeded(addHr) {
      var m2 := m.(active := m.active + [issued]);
      if |m2.active| <= GPU_MARKERS_MAX_ARRAY_SIZE {
        assert forall k | 0 <= k < |m2.active| :: m2.active[k] == if k < |m.active| then m.active[k] else issued;
      }
      InsertCleanupValid(m2, addHr);
    } else {
      InsertCleanupValid(m, addHr);
    }
  }

  /**
   * When the marker is accepted (its id is not older than the last one and a
   * device exists), the new marker, issued and unconsumed, ends up as the
   * newest active marker exactly when markers were enabled (or the probe
   * succeeds), a marker could be had (recycled from the newest free marker,
   * or created and allocated), appending succeeded and the backlog stays
   * within bounds.
   */
  lemma InsertOutcome(m: Markers, id: nat, hasDevice: bool, probeHr: HRESULT,
                      createHr: HRESULT, allocOk: bool, addHr: HRESULT)
    requires Valid(m) && id >= m.lastId && hasDevice
    ensures var (m', _) := InsertMarker(m, id, hasDevice, probeHr, createHr, allocOk, addHr);
      var appended := m.active + [MarkerState(true, true, false, id)];
      && ((Enabled(m') && m'.active == appended) <==>
            (Enabled(m) || (!Tested(m) && Succeeded(probeHr)))
            && (|m.free| > 0 || (Succeeded(createHr) && allocOk))
            && Succeeded(addHr)
            && |m.active| < GPU_MARKERS_MAX_ARRAY_SIZE)
  {
    var m1 := Probe(m, probeHr).0;
    ProbeOutcome(m, probeHr);
    if Enabled(m1) {
      if |m1.free| > 0 {
        var n := |m1.free|;
        assert m.free[n - 1].hasQuery;
        IssueAndAddOutcome(m1.(free := m1.free[..n - 1]), ResetMarker(m1.free[n - 1], id), addHr);
      } else if Succeeded(createHr) && allocOk {
        var mk := ResetMarker(MarkerState(true, false, false, 0), id);
        assert InsertMarker(m, id, hasDevice, probeHr, createHr, allocOk, addHr) == IssueAndAdd(m1, mk, addHr);
        IssueAndAddOutcome(m1, mk, addHr);
      }
    }
  }

  /** Markers never come on in InsertGPUMarker without a successful probe. */
  lemma InsertNeedsProbe(m: Markers, id: nat, hasDevice: bool, probeHr: HRESULT,
                         createHr: HRESULT, allocOk: bool, addHr: HRESULT)
    requires Valid(m) && !Enabled(m) && !(!Tested(m) && Succeeded(probeHr))
    ensures !Enabled(InsertMarker(m, id, hasDevice, probeHr, createHr, allocOk, addHr).0)
  {
    ProbeOutcome(m, probeHr);
  }

  /**
   * For an accepted marker, the active list otherwise stays as it was (a
   * device-lost or not-available answer is tolerated) or markers are off
   * and both lists empty.  A recycled marker that could not be appended is
   * deleted: it is in neither list.
   */
  lemma InsertLists(m: Markers, id: nat, hasDevice: bool, probeHr: HRESULT,
                    createHr: HRESULT, allocOk: bool, addHr: HRESULT)
    requires Valid(m) && id >= m.lastId && hasDevice
    ensures var (m', _) := InsertMarker(m, id, hasDevice, probeHr, createHr, allocOk, addHr);
      var appended := m.active + [MarkerState(true, true, false, id)];
      && (Enabled(m') ==> m'.active == appended || m'.active == m.active)
      && (Enabled(m') ==> m'.free == (if |m.free| > 0 then m.free[..|m.free| - 1] else []))
      && (!Enabled(m') ==> m'.active == [] && m'.free == [])
  {
    var m1 := Probe(m, probeHr).0;
    ProbeOutcome(m, probeHr);
    if Enabled(m1) {
      if |m1.free| > 0 {
        var n := |m1.free|;
        assert m.free[n - 1].hasQuery;
        IssueAndAddOutcome(m1.(free := m1.free[..n - 1]), ResetMarker(m1.free[n - 1], id), addHr);
      } else if Succeeded(createHr) && allocOk {
        var mk := ResetMarker(MarkerState(true, false, false, 0), id);
        assert InsertMarker(m, id, hasDevice, probeHr, createHr, allocOk, addHr) == IssueAndAdd(m1, mk, addHr);
        IssueAndAddOutcome(m1, mk, addHr);
      }
    }
  }

  /**
   * An id older than the watermark, or a missing device, leaves everything
   * as it was; an equal id is accepted.  The watermark moves to the new id
   * only on the path where markers are (or turn out to be) disabled.
   */
  lemma InsertWatermark(m: Markers, id: nat, hasDevice: bool, probeHr: HRESULT,
                        createHr: HRESULT, allocOk: bool, addHr: HRESULT)
    requires Valid(m)
    ensures id < m.lastId || !hasDevice ==>
      InsertMarker(m, id, hasDevice, probeHr, createHr, allocOk, addHr) == (m, S_OK)
    ensures InsertMarker(m, id, hasDevice, probeHr, createHr, allocOk, addHr).0.lastId ==
      if id >= m.lastId && hasDevice && !(Enabled(m) || (!Tested(m) && Succeeded(probeHr)))
      then id else m.lastId
  {
  }

  lemma IssueAndAddOutcome(m: Markers, marker: MarkerState, addHr: HRESULT)
    requires marker.hasQuery && Enabled(m) && Tested(m) && |m.active| <= GPU_MARKERS_MAX_ARRAY_SIZE
    ensures var (m', hr) := IssueAndAdd(m, marker, addHr);
      && Succeeded(hr)
      && ((Enabled(m') && m'.active == m.active + [marker.(issued := true)]) <==>
            Succeeded(addHr) && |m.active| < GPU_MARKERS_MAX_ARRAY_SIZE)
      && (Enabled(m') ==>
            m'.free == m.free
            && (m'.active == m.active + [marker.(issued := true)] || m'.active == m.active))
      && (!Enabled(m') ==> m'.active == [] && m'.free == [])
  {
  }

  lemma IsConsumedOutcome(m: Markers, i: nat, flush: bool, getData: HRESULT)
    requires Valid(m) && i < |m.active|
    ensures var (m', consumed) := IsConsumed(m, i, flush, getData);
      && (consumed <==> getData == S_OK || Failed(getData))
      && (Failed(getData) && getData != D3DERR_DEVICELOST ==> m' == DisableMarkers(m))
      && (getData == S_OK || getData == D3DERR_DEVICELOST ==>
            && Enabled(m') == Enabled(m) && ConsumedSeen(m') && m'.free == m.free
            && m'.lastConsumedId == m.lastConsumedId && m'.lastId == m.lastId
            && m'.active == m.active[i := m.active[i].(consumed := getData == S_OK)])
      && (!consumed ==> m' == m)
  {
    if getData == S_OK || getData == D3DERR_DEVICELOST {
      IsConsumedSeen(m, i, flush, getData);
    } else if Failed(getData) {
      assert IsConsumed(m, i, flush, getData) == (DisableMarkers(m), true);
    } else {
      IsConsumedPending(m, i, flush, getData);
    }
  }

  /** A marker reported consumed (or lost with its device) is marked as such. */
  lemma IsConsumedSeen(m: Markers, i: nat, flush: bool, getData: HRESULT)
    requires Valid(m) && i < |m.active| && (getData == S_OK || getData == D3DERR_DEVICELOST)
    ensures var (m', consumed) := IsConsumed(m, i, flush, getData);
      && consumed && Enabled(m') == Enabled(m) && ConsumedSeen(m') && m'.free == m.free
      && m'.lastConsumedId == m.lastConsumedId && m'.lastId == m.lastId
      && m'.active == m.active[i := m.active[i].(consumed := getData == S_OK)]
  {
    assert m.active[i].issued && !m.active[i].consumed;
    SetFlagIndependent(m.flags, MARKER_CONSUMED, MARKERS_ENABLED);
    SetFlagIndependent(m.flags, MARKER_CONSUMED, MARKER_CONSUMED);
  }

  /** A marker the GPU has not reached yet leaves everything as it was. */
  lemma IsConsumedPending(m: Markers, i: nat, flush: bool, getData: HRESULT)
    requires Valid(m) && i < |m.active| && getData != S_OK && Succeeded(getData)
    ensures IsConsumed(m, i, flush, getData) == (m, false)
  {
    assert m.active[i].issued && !m.active[i].consumed;
    var m' := IsConsumed(m, i, flush, getData).0;
    assert m'.active[i] == m.active[i];
    assert m'.active == m.active;
  }

  /** The marker reported consumed and all older ones move to the free list. */
  lemma FreeAfterConsumed(m: Markers, i: nat, flush: bool, getData: HRESULT)
    requires Valid(m) && i < |m.active| && (getData == S_OK || getData == D3DERR_DEVICELOST)
    ensures var m' := FreeThrough(IsConsumed(m, i, flush, getData).0, i);
      && Valid(m')
      && m'.active == m.active[i + 1..]
      && m'.free == m.free + m.active[..i] + [m.active[i].(consumed := getData == S_OK)]
      && m'.lastConsumedId == m.active[i].id
      && Enabled(m') && ConsumedSeen(m')
  {
    IsConsumedOutcome(m, i, flush, getData);
    var m1 := IsConsumed(m, i, flush, getData).0;
    var m' := FreeThrough(m1, i);
    assert Enabled(m);
    assert m1.active[i + 1..] == m.active[i + 1..];
    assert m1.active[..i + 1] == m.active[..i] + [m.active[i].(consumed := getData == S_OK)];
  }

  /** The largest index below k whose answer ends the walk, or -1. */
  function LastStop(answers: seq<HRESULT>, k: nat): (j: int)
    requires k <= |answers|
    ensures -1 <= j < k
    ensures j >= 0 ==> answers[j] == S_OK || Failed(answers[j])
    ensures forall q | j < q < k :: !(answers[q] == S_OK || Failed(answers[q]))
  {
    if k == 0 then -1
    else if answers[k - 1] == S_OK || Failed(answers[k - 1]) then k - 1
    else LastStop(answers, k - 1)
  }

  /**
   * ConsumePresentMarkers (corrected) walks down from the newest marker to
   * the newest one whose answer is S_OK or a failure.  If there is none,
   * nothing moves.  If it is S_OK or device lost, that marker and all older
   * ones move, in order, to the free list and the last consumed id becomes
   * its id.  Any other failure disables the markers.  The state stays valid.
   */
  lemma {:induction false} ConsumeOutcome(m: Markers, k: nat, flush: bool, answers: seq<HRESULT>)
    requires Valid(m) && k <= |m.active| == |answers|
    ensures ConsumeSpec(m, Consume(m, k, flush, answers), LastStop(answers, k), answers)
    decreases k
  {
    if k > 0 {
      var a := answers[k - 1];
      if a == S_OK || Failed(a) {
        ConsumeStopsHere(m, k, flush, answers);
      } else {
        IsConsumedPending(m, k - 1, flush, a);
        var m2 := if flush then m.(presentsSinceFlush := 0) else m;
        assert Consume(m, k, flush, answers) == Consume(m2, k - 1, false, answers);
        ConsumeOutcome(m2, k - 1, false, answers);
        SameLists(m2, m, Consume(m2, k - 1, false, answers), LastStop(answers, k - 1), answers);
      }
    }
  }

  /** The walk ends at marker k-1 when its answer is S_OK or a failure. */
  lemma ConsumeStopsHere(m: Markers, k: nat, flush: bool, answers: seq<HRESULT>)
    requires Valid(m) && 0 < k <= |m.active| == |answers|
    requires answers[k - 1] == S_OK || Failed(answers[k - 1])
    ensures ConsumeSpec(m, Consume(m, k, flush, answers), k - 1, answers)
  {
    var a := answers[k - 1];
    var m1 := IsConsumed(m, k - 1, flush, a).0;
    IsConsumedOutcome(m, k - 1, flush, a);
    if a == S_OK || a == D3DERR_DEVICELOST {
      assert Consume(m, k, flush, answers) == FreeThrough(m1, k - 1);
      FreeAfterConsumed(m, k - 1, flush, a);
    } else {
      assert Consume(m, k, flush, answers) == DisableMarkers(m);
    }
  }

  /**
   * What ConsumePresentMarkers achieves, j being the newest marker whose
   * answer ends the walk (see ConsumeOutcome).
   */
  ghost predicate ConsumeSpec(m: Markers, m': Markers, j: int, answers: seq<HRESULT>)
    requires -1 <= j < |m.active| <= |answers|
  {
    && Valid(m')
    && (j == -1 ==> m'.active == m.active && m'.free == m.free && Enabled(m') == Enabled(m)
                     && m'.lastConsumedId == m.lastConsumedId)
    && (j >= 0 && (answers[j] == S_OK || answers[j] == D3DERR_DEVICELOST) ==>
          && m'.active == m.active[j + 1..]
          && m'.free == m.free + m.active[..j] + [m.active[j].(consumed := answers[j] == S_OK)]
          && m'.lastConsumedId == m.active[j].id
          && Enabled(m') && ConsumedSeen(m'))
    && (j >= 0 && Failed(answers[j]) && answers[j] != D3DERR_DEVICELOST ==>
          !Enabled(m') && m'.active == [] && m'.free == [] && m'.lastConsumedId == m.lastId)
  }

  lemma SameLists(m2: Markers, m: Markers, m': Markers, j: int, answers: seq<HRESULT>)
    requires m2.active == m.active && m2.free == m.free && Enabled(m2) == Enabled(m)
    requires m2.lastId == m.lastId && m2.lastConsumedId == m.lastConsumedId
    requires -1 <= j < |m.active| <= |answers|
    requires ConsumeSpec(m2, m', j, answers)
    ensures ConsumeSpec(m, m', j, answers)
  {
  }

  /**
   * The defect of the code as written: with one active marker whose poll
   * fails unexpectedly, IsConsumedGPUMarker drops every marker and reports
   * the marker consumed, and FreeMarkerAndItsPredecessors(0) is then called
   * on an empty list; its count of remaining markers, 0 - 1 in UINT
   * arithmetic, wraps to 2^32 - 1.
   */
  lemma ConsumeAsWrittenFreesOutOfRange(id: nat)
    ensures var m := Markers([MarkerState(true, true, false, id)], [], MARKERS_ENABLED | MARKERS_TESTED, id, 0, 0);
      Valid(m)
      && IsConsumed(m, 0, false, E_FAIL).1
      && |IsConsumed(m, 0, false, E_FAIL).0.active| == 0
      && SubU32(|IsConsumed(m, 0, false, E_FAIL).0.active|, 1) == TWO32 - 1
      && ConsumeAsWritten(m, 1, false, [E_FAIL]).None?
  {
  }
}
