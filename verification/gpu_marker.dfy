/**
 * A GPU marker: an event query placed in the device's command stream after a
 * present, later polled to learn whether the GPU has reached it
 * (core/hw/gpumarker.cpp).
 *
 * The marker's state is described by the value type MarkerState and the pure
 * transition functions below; the class GPUMarker updates its fields in place
 * and each of its methods is proved to perform exactly one of those
 * transitions.  The device (module D3DDevice) keeps its markers by value and
 * uses the same transition functions.
 */
module GpuMarkers {
  import opened HResults

  /** D3D11_ASYNC_GETDATA_DONOTFLUSH */
  const GETDATA_DONOTFLUSH: nat := 1

  datatype MarkerState = MarkerState(
    hasQuery: bool,  // the marker owns an event query
    issued: bool,    // the query has been put in the command stream
    consumed: bool,  // the GPU has been seen to pass the query
    id: nat)         // the present's timestamp the marker stands for

  /** What one status check observes. */
  datatype CheckResult = CheckResult(
    marker: MarkerState,
    hr: HRESULT,
    reportedConsumed: bool,
    getDataFlags: Option<nat>)  // None: the query was not polled

  /** Reset for reuse: not issued, not consumed, new id; the query is kept. */
  function ResetMarker(m: MarkerState, id: nat): MarkerState
  {
    MarkerState(m.hasQuery, false, false, id)
  }

  /** Begin/End the query in the command stream; fails without a query. */
  function Insert(m: MarkerState): (MarkerState, HRESULT)
  {
    if !m.hasQuery then (m, E_FAIL) else (m.(issued := true), S_OK)
  }

  /**
   * Poll the marker.  Only an issued marker that has not yet been seen
   * consumed asks the GPU (GetData, flushing when asked to); the answer
   * S_OK means consumed, S_FALSE means "not yet" and is reported as success,
   * anything else is passed back.
   */
  function StatusCheck(m: MarkerState, flush: bool, getData: HRESULT): CheckResult
  {
    if !m.issued then CheckResult(m, S_OK, false, None)
    else if m.consumed then CheckResult(m, S_OK, true, None)
    else
      var m' := m.(consumed := getData == S_OK);
      CheckResult(m', if getData == S_FALSE then S_OK else getData, m'.consumed,
                  Some(if flush then 0 else GETDATA_DONOTFLUSH))
  }

  // ---- properties of the transitions ----

  /** A reset marker can be issued exactly when it owns a query. */
  lemma ResetThenInsert(m: MarkerState, id: nat)
    ensures Insert(ResetMarker(m, id)).1 == (if m.hasQuery then S_OK else E_FAIL)
    ensures Insert(ResetMarker(m, id)).0 == ResetMarker(m, id).(issued := m.hasQuery)
    ensures !Insert(ResetMarker(m, id)).0.consumed && Insert(ResetMarker(m, id)).0.id == id
  {
  }

  /** One check never fails except by passing on a failure of GetData, and
      reports consumed exactly when the new state is consumed and issued. */
  lemma CheckStatusReport(m: MarkerState, flush: bool, getData: HRESULT)
    requires !m.consumed || m.issued
    ensures var r := StatusCheck(m, flush, getData);
      r.reportedConsumed == (r.marker.issued && r.marker.consumed)
      && (Failed(r.hr) ==> r.hr == getData && r.getDataFlags.Some?)
      && r.marker.id == m.id && r.marker.issued == m.issued && r.marker.hasQuery == m.hasQuery
      && (m.consumed ==> r.marker.consumed)
  {
  }

  /** Applies CheckStatus once per GetData answer, oldest first. */
  function CheckMany(m: MarkerState, flush: bool, answers: seq<HRESULT>): MarkerState
    decreases |answers|
  {
    if answers == [] then m
    else CheckMany(StatusCheck(m, flush, answers[0]).marker, flush, answers[1..])
  }

  /**
   * Over any series of checks, a marker ends consumed exactly when it was
   * consumed before or it is issued and one of the GPU's answers was S_OK;
   * so consumption is sticky, and an unissued marker never becomes consumed.
   */
  lemma {:induction false} ConsumedExactlyWhenSeen(m: MarkerState, flush: bool, answers: seq<HRESULT>)
    ensures CheckMany(m, flush, answers).consumed
      <==> m.consumed || (m.issued && S_OK in answers)
    ensures CheckMany(m, flush, answers).issued == m.issued
    ensures CheckMany(m, flush, answers).id == m.id
    decreases |answers|
  {
    if answers != [] {
      var m1 := StatusCheck(m, flush, answers[0]).marker;
      ConsumedExactlyWhenSeen(m1, flush, answers[1..]);
      assert answers == [answers[0]] + answers[1..];
      assert S_OK in answers <==> answers[0] == S_OK || S_OK in answers[1..];
    }
  }

  /** A consumed marker is not polled again, whatever the flush flag. */
  lemma ConsumedIsNotPolled(m: MarkerState, flush: bool, getData: HRESULT)
    requires m.issued && m.consumed
    ensures StatusCheck(m, flush, getData) == CheckResult(m, S_OK, true, None)
  {
  }

  /** CGPUMarker: the fields the source updates in place. */
  class GPUMarker {
    var hasQuery: bool
    var issued: bool
    var consumed: bool
    var id: nat

    ghost function State(): MarkerState
      reads this
    {
      MarkerState(hasQuery, issued, consumed, id)
    }

    /** CGPUMarker(pQuery, id): takes the query and resets. */
    constructor (hasQuery: bool, id: nat)
      ensures State() == ResetMarker(MarkerState(hasQuery, false, false, 0), id)
    {
      this.hasQuery := hasQuery;
      issued := false;
      consumed := false;
      this.id := id;
    }

    method Reset(newId: nat)
      modifies this
      ensures State() == ResetMarker(old(State()), newId)
    {
      issued := false;
      consumed := false;
      id := newId;
    }

    method InsertIntoCommandStream() returns (hr: HRESULT)
      modifies this
      ensures (State(), hr) == Insert(old(State()))
    {
      if !hasQuery {
        hr := E_FAIL;
        return;
      }
      issued := true;
      hr := S_OK;
    }

    /** getData: what the device context's GetData answers for the query. */
    method CheckStatus(flush: bool, getData: HRESULT)
      returns (hr: HRESULT, reportedConsumed: bool, getDataFlags: Option<nat>)
      modifies this
      ensures CheckResult(State(), hr, reportedConsumed, getDataFlags)
        == StatusCheck(old(State()), flush, getData)
    {
      hr := S_OK;
      reportedConsumed := false;
      getDataFlags := None;
      if issued {
        if !consumed {
          var flags := if flush then 0 else GETDATA_DONOTFLUSH;
          getDataFlags := Some(flags);
          hr := getData;
          consumed := hr == S_OK;
          if hr == S_FALSE {
            hr := S_OK;
          }
        }
        reportedConsumed := consumed;
      }
    }
  }
}
