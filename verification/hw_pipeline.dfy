/**
 * CHwPipeline and CHwShaderPipeline (core/hw/hwpipeline.cpp): the blend
 * mode chosen for a compositing mode, realization of the pipeline's colour
 * sources, the cached-vertex-buffer control flow of Execute, and the
 * release and re-initialisation of the pipeline's resources.
 *
 * Colour sources, the vertex-buffer builder, the geometry generator and the
 * vertex buffer are handles; the results of their calls are parameters.
 */
module HwPipelines {
  import opened HResults
  import opened RenderStates

  /** MilCompositingMode::Enum */
  datatype CompositingMode =
    | SourceCopy | SourceOver | SourceAdd | SourceUnder | SourceAlphaMultiply
    | SourceInverseAlphaMultiply | SourceOverNonPremultiplied
    | SourceInverseAlphaOverNonPremultiplied | DestInvert

  /** SetupCompositionMode's table: the predefined blend mode of each compositing mode. */
  function CompositionBlend(m: CompositingMode): ModeName
  {
    match m
    case SourceCopy => SrcCopy
    case SourceOver => SrcOverPremultiplied
    case SourceAdd => AddSourceColor
    case SourceUnder => SrcUnderPremultiplied
    case SourceAlphaMultiply => SrcAlphaMultiply
    case SourceInverseAlphaMultiply => SrcInverseAlphaMultiply
    case SourceOverNonPremultiplied => SrcOverSrcNonPremultiplied
    case SourceInverseAlphaOverNonPremultiplied => SrcOverInverseAlphaSrcNonPremultiplied
    case DestInvert => SrcAlphaWithInvDestColor
  }

  /**
   * Distinct compositing modes get distinct blend modes, never the unknown
   * one nor a text mode, and only SourceCopy turns blending off.
   */
  lemma CompositionBlendProperties(m: CompositingMode, m': CompositingMode)
    ensures m != m' ==> CompositionBlend(m) != CompositionBlend(m')
    ensures CompositionBlend(m) !in {Unknown, SrcVectorAlphaWithBlendFactor, SrcVectorAlpha}
    ensures Mode(CompositionBlend(m)).enable == Disabled <==> m == SourceCopy
    ensures Mode(CompositionBlend(m)).enable == Enabled <==> m != SourceCopy
  {
    OnlySrcCopyDisablesBlending(CompositionBlend(m));
  }

  /** The bits of CHwColorSource::TypeFlags. */
  datatype SourceKind = PrecomputedComponent | Constant | Texture | Programmatic

  datatype ColorSource = ColorSource(id: nat, kinds: set<SourceKind>)

  /** HwPipelineItem: the colour source of a stage (possibly NULL). */
  datatype PipelineItem = PipelineItem(source: Option<ColorSource>)

  datatype RealizeAction = Skip | DoRealize | Unrecognized

  /** RealizeColorSources' switch on the exact type value. */
  function RealizeActionFor(kinds: set<SourceKind>): RealizeAction
  {
    if kinds == {PrecomputedComponent} || kinds == {Constant} || kinds == {Programmatic} then Skip
    else if kinds == {Texture} || kinds == {Texture, Constant} then DoRealize
    else Unrecognized
  }

  /** Exactly texture sources, constant or not, are realized. */
  lemma RealizeActionSpec(kinds: set<SourceKind>)
    ensures RealizeActionFor(kinds) == DoRealize <==> Texture in kinds && kinds <= {Texture, Constant}
    ensures RealizeActionFor(kinds) == Skip ==> |kinds| == 1 && Texture !in kinds
  {
    if Texture in kinds && kinds <= {Texture, Constant} {
      assert kinds == {Texture} || kinds == {Texture, Constant} by {
        if Constant in kinds {
          assert kinds == {Texture, Constant};
        } else {
          assert kinds == {Texture};
        }
      }
    }
  }

  /** Item i ends the realization loop: an unrecognised type, or a failed Realize. */
  predicate Stops(it: PipelineItem, realizeHr: HRESULT)
  {
    it.source.Some? &&
    (RealizeActionFor(it.source.value.kinds) == Unrecognized ||
     (RealizeActionFor(it.source.value.kinds) == DoRealize && Failed(realizeHr)))
  }

  /** The first index at or after i at which the loop stops, or the item count. */
  function StopIndex(items: seq<PipelineItem>, hrs: seq<HRESULT>, i: nat): (k: nat)
    requires i <= |items| == |hrs|
    ensures i <= k <= |items|
    ensures k < |items| ==> Stops(items[k], hrs[k])
    ensures forall j :: i <= j < k ==> !Stops(items[j], hrs[j])
    decreases |items| - i
  {
    if i == |items| then i
    else if Stops(items[i], hrs[i]) then i
    else StopIndex(items, hrs, i + 1)
  }

  /** Indices below n whose source is realized, in order. */
  function RealizedBelow(items: seq<PipelineItem>, n: nat): (r: seq<nat>)
    requires n <= |items|
    ensures forall j :: 0 <= j < |r| ==> r[j] < n
    ensures forall j :: 0 <= j < n && items[j].source.Some? && RealizeActionFor(items[j].source.value.kinds) == DoRealize ==> j in r
  {
    if n == 0 then []
    else
      var it := items[n - 1];
      RealizedBelow(items, n - 1) +
        (if it.source.Some? && RealizeActionFor(it.source.value.kinds) == DoRealize then [n - 1] else [])
  }

  /** The result of a stopping item: WGXERR_INTERNALERROR for an unknown type, else Realize's failure. */
  function StopResult(it: PipelineItem, realizeHr: HRESULT): HRESULT
    requires it.source.Some?
  {
    if RealizeActionFor(it.source.value.kinds) == Unrecognized then WGXERR_INTERNALERROR else realizeHr
  }

  /**
   * The answer of the last Realize called among the items below n, S_OK
   * when there is none: each IFC leaves its code in hr.
   */
  function LastRealizeHr(items: seq<PipelineItem>, hrs: seq<HRESULT>, n: nat): HRESULT
    requires n <= |items| == |hrs|
  {
    if n == 0 then S_OK
    else if items[n - 1].source.Some? && RealizeActionFor(items[n - 1].source.value.kinds) == DoRealize then hrs[n - 1]
    else LastRealizeHr(items, hrs, n - 1)
  }

  /** That answer is the one for the last item RealizedBelow lists, or S_OK when it lists none. */
  lemma {:induction false} LastRealizeHrIsLastRealized(items: seq<PipelineItem>, hrs: seq<HRESULT>, n: nat)
    requires n <= |items| == |hrs|
    ensures var r := RealizedBelow(items, n);
      LastRealizeHr(items, hrs, n) == if r == [] then S_OK else hrs[r[|r| - 1]]
  {
    if n > 0 {
      LastRealizeHrIsLastRealized(items, hrs, n - 1);
    }
  }

  /** The ids of the items' sources, in item order. */
  function SourceIds(items: seq<PipelineItem>): (ids: seq<nat>)
    ensures |ids| <= |items|
  {
    if |items| == 0 then []
    else
      var last := items[|items| - 1];
      SourceIds(items[..|items| - 1]) + (if last.source.Some? then [last.source.value.id] else [])
  }

  lemma {:induction false} SourceIdsAreItems(items: seq<PipelineItem>, x: nat)
    ensures x in SourceIds(items) <==> exists i :: 0 <= i < |items| && items[i].source.Some? && items[i].source.value.id == x
  {
    if |items| > 0 {
      var n := |items| - 1;
      var front := items[..n];
      SourceIdsAreItems(front, x);
      assert SourceIds(items) == SourceIds(front) + (if items[n].source.Some? then [items[n].source.value.id] else []);
      if x in SourceIds(items) {
        if x in SourceIds(front) {
          var i :| 0 <= i < |front| && front[i].source.Some? && front[i].source.value.id == x;
          assert items[i] == front[i];
        } else {
          assert items[n].source.Some? && items[n].source.value.id == x;
        }
      } else {
        forall i | 0 <= i < |items| && items[i].source.Some?
          ensures items[i].source.value.id != x
        {
          if i < n {
            assert front[i] == items[i];
          }
        }
      }
    }
  }

  /** What Execute asks of the device, the vertex builder and the generator. */
  datatype Step = SendStates | Draw | BeginBuilding | SendGeometry | Flush | RealizeSources

  /** What Execute leaves: its result, the vertex buffer, the builder and the calls made. */
  datatype ExecOutcome = ExecOutcome(hr: HRESULT, vb: Option<nat>, vbb: Option<nat>, steps: seq<Step>)

  /**
   * CHwPipeline::Execute from the vertex buffer vb, the builder vbb and the
   * calls made so far; the other parameters are what the device, the
   * builder and the generator answer.
   */
  function ExecuteOutcome(vb: Option<nat>, vbb: Option<nat>, steps: seq<Step>, sendHr: HRESULT, drawHr: HRESULT,
                          beginHr: HRESULT, geometryHr: HRESULT, hasOutsideBounds: bool, flushHr: HRESULT,
                          flushed: Option<nat>): ExecOutcome
  {
    if vb.Some? then
      if Failed(sendHr) then ExecOutcome(sendHr, vb, vbb, steps + [SendStates])
      else ExecOutcome(drawHr, vb, vbb, steps + [SendStates, Draw])
    else if Failed(beginHr) then ExecOutcome(beginHr, vb, vbb, steps + [BeginBuilding])
    else if Failed(geometryHr) then ExecOutcome(geometryHr, vb, vbb, steps + [BeginBuilding, SendGeometry])
    else if geometryHr == WGXHR_EMPTYFILL && !hasOutsideBounds then
      ExecOutcome(S_OK, vb, vbb, steps + [BeginBuilding, SendGeometry])
    else
      var built := steps + [BeginBuilding, SendGeometry, Flush];
      if Failed(flushHr) then ExecOutcome(flushHr, flushed, vbb, built)
      else ExecOutcome(flushHr, flushed, None, built)
  }

  /**
   * Execute only adds calls.  A cached vertex buffer is never rebuilt: it
   * is kept with the builder, and a draw happens exactly when the states
   * were sent.  Without one, a flush happens exactly when beginning and
   * sending the geometry succeeded and the fill was not empty with no
   * outside bounds; an empty fill caches nothing and answers S_OK.  The
   * vertex buffer changes only to the flushed one, the builder goes only
   * after a successful flush, and every result is one of the calls'
   * answers or that S_OK.
   */
  lemma ExecuteCases(vb: Option<nat>, vbb: Option<nat>, steps: seq<Step>, sendHr: HRESULT, drawHr: HRESULT,
                     beginHr: HRESULT, geometryHr: HRESULT, hasOutsideBounds: bool, flushHr: HRESULT,
                     flushed: Option<nat>)
    ensures var o := ExecuteOutcome(vb, vbb, steps, sendHr, drawHr, beginHr, geometryHr, hasOutsideBounds, flushHr, flushed);
      var emptyFill := geometryHr == WGXHR_EMPTYFILL && !hasOutsideBounds;
      && |steps| < |o.steps| && o.steps[..|steps|] == steps
      && (vb.Some? ==> o.vb == vb && o.vbb == vbb && BeginBuilding !in o.steps[|steps|..])
      && (Draw in o.steps[|steps|..] <==> vb.Some? && Succeeded(sendHr))
      && (Flush in o.steps[|steps|..] <==> vb.None? && Succeeded(beginHr) && Succeeded(geometryHr) && !emptyFill)
      && (vb.None? && Succeeded(beginHr) && emptyFill ==> o.hr == S_OK && o.vb.None? && o.vbb == vbb)
      && (o.vb != vb ==> o.vb == flushed && Flush in o.steps[|steps|..])
      && (o.hr == sendHr || o.hr == drawHr || o.hr == beginHr || o.hr == geometryHr || o.hr == flushHr || o.hr == S_OK)
      && (o.vbb != vbb ==> o.vbb.None? && Succeeded(flushHr))
  {
  }

  class Pipeline {
    var items: seq<PipelineItem>   // m_rgItem
    var abm: Option<ModeName>      // m_pABM
    var firstUnusedStage: nat      // m_dwFirstUnusedStage
    var vbb: Option<nat>           // m_pVBB
    var gg: Option<nat>            // m_pGG
    var vb: Option<nat>            // m_pVB
    var shader: Option<nat>        // m_pPipelineShader
    var steps: seq<Step>           // calls made by Execute
    var released: seq<nat>         // colour sources released
    const is2D: bool               // m_f2D

    constructor (is2D: bool)
      ensures this.is2D == is2D && items == [] && abm.None? && firstUnusedStage == 0
      ensures vbb.None? && gg.None? && vb.None? && shader.None? && steps == [] && released == []
    {
      this.is2D := is2D;
      items := [];
      abm := None;
      firstUnusedStage := 0;
      vbb := None;
      gg := None;
      vb := None;
      shader := None;
      steps := [];
      released := [];
    }

    /** SetupCompositionMode: point at the compositing mode's blend table. */
    method SetupCompositionMode(m: CompositingMode)
      modifies this`abm
      ensures abm == Some(CompositionBlend(m))
    {
      abm := Some(CompositionBlend(m));
    }

    /**
     * RealizeColorSources: walk the items in order, realizing texture
     * sources; the walk stops at the first unknown type or failed Realize,
     * and otherwise answers the last Realize's success code.
     * realizeHrs[i] is what Realize answers for item i; realized lists the
     * items whose Realize was called.
     */
    method RealizeColorSources(realizeHrs: seq<HRESULT>) returns (hr: HRESULT, realized: seq<nat>)
      requires |realizeHrs| == |items|
      ensures var k := StopIndex(items, realizeHrs, 0);
        && (k == |items| ==> hr == LastRealizeHr(items, realizeHrs, |items|) && Succeeded(hr)
                             && realized == RealizedBelow(items, |items|))
        && (k < |items| ==> hr == StopResult(items[k], realizeHrs[k]) && Failed(hr)
                            && realized == RealizedBelow(items, k + 1))
    {
      hr := S_OK;
      realized := [];
      ghost var k := StopIndex(items, realizeHrs, 0);
      var i := 0;
      while i < |items|
        invariant i <= k
        invariant realized == RealizedBelow(items, i)
        invariant hr == LastRealizeHr(items, realizeHrs, i) && Succeeded(hr)
      {
        var it := items[i];
        assert i < k ==> !Stops(it, realizeHrs[i]);
        if it.source.Some? {
          var action := RealizeActionFor(it.source.value.kinds);
          if action == DoRealize {
            realized := realized + [i];
            if Failed(realizeHrs[i]) {
              return realizeHrs[i], realized;
            }
            hr := realizeHrs[i];
          } else if action == Unrecognized {
            return WGXERR_INTERNALERROR, realized;
          }
        }
        i := i + 1;
      }
    }

    /** Execute, whose outcome ExecuteOutcome states. */
    method Execute(sendHr: HRESULT, drawHr: HRESULT, beginHr: HRESULT, geometryHr: HRESULT,
                   hasOutsideBounds: bool, flushHr: HRESULT, flushed: Option<nat>) returns (hr: HRESULT)
      requires (vbb.Some? || vb.Some?) && gg.Some?
      modifies this`steps, this`vb, this`vbb
      ensures ExecOutcome(hr, vb, vbb, steps)
           == ExecuteOutcome(old(vb), old(vbb), old(steps), sendHr, drawHr, beginHr, geometryHr, hasOutsideBounds, flushHr, flushed)
    {
      if vb.Some? {
        steps := steps + [SendStates];
        hr := sendHr;
        if Failed(hr) {
          return;
        }
        steps := steps + [Draw];
        hr := drawHr;
        return;
      }
      steps := steps + [BeginBuilding];
      hr := beginHr;
      if Failed(hr) {
        return;
      }
      steps := steps + [SendGeometry];
      hr := geometryHr;
      if Failed(hr) {
        return;
      }
      if hr == WGXHR_EMPTYFILL {
        hr := S_OK;
        if !hasOutsideBounds {
          return;
        }
      }
      steps := steps + [Flush];
      vb := flushed;
      hr := flushHr;
      if Failed(hr) {
        return;
      }
      vbb := None;
    }

    /**
     * ReleaseExpensiveResources: release every item's colour source, empty
     * the item list, delete the builder and forget the generator and the
     * vertex buffer.
     */
    method ReleaseExpensiveResources()
      modifies this`items, this`released, this`vbb, this`gg, this`vb
      ensures released == old(released) + SourceIds(old(items))
      ensures items == [] && vbb.None? && gg.None? && vb.None?
    {
      var i := 0;
      while i < |items|
        invariant i <= |items|
        invariant items == old(items)
        invariant released == old(released) + SourceIds(items[..i])
      {
        assert items[..i + 1][..i] == items[..i];
        if items[i].source.Some? {
          released := released + [items[i].source.value.id];
        }
        i := i + 1;
      }
      assert items[..|items|] == items;
      items := [];
      vbb := None;
      gg := None;
      vb := None;
    }

    /**
     * CHwShaderPipeline::Execute: the 2D pipeline takes the base path;
     * the 3D one only realizes its colour sources and sends the states.
     */
    method ShaderExecute(sendHr: HRESULT, drawHr: HRESULT, beginHr: HRESULT, geometryHr: HRESULT,
                         hasOutsideBounds: bool, flushHr: HRESULT, flushed: Option<nat>,
                         realizeHrs: seq<HRESULT>) returns (hr: HRESULT)
      requires is2D ==> (vbb.Some? || vb.Some?) && gg.Some?
      requires |realizeHrs| == |items|
      modifies this`steps, this`vb, this`vbb
      ensures !is2D ==> vb == old(vb) && vbb == old(vbb)
      ensures !is2D && Failed(StopOutcome(realizeHrs)) ==>
        hr == StopOutcome(realizeHrs) && steps == old(steps) + [RealizeSources]
      ensures !is2D && Succeeded(StopOutcome(realizeHrs)) ==>
        hr == sendHr && steps == old(steps) + [RealizeSources, SendStates]
      ensures var o := ExecuteOutcome(old(vb), old(vbb), old(steps), sendHr, drawHr, beginHr, geometryHr,
                                      hasOutsideBounds, flushHr, flushed);
        is2D ==> ExecOutcome(hr, vb, vbb, steps) == o
    {
      if is2D {
        hr := Execute(sendHr, drawHr, beginHr, geometryHr, hasOutsideBounds, flushHr, flushed);
        return;
      }
      var realized;
      hr, realized := RealizeColorSources(realizeHrs);
      steps := steps + [RealizeSources];
      if Failed(hr) {
        return;
      }
      steps := steps + [SendStates];
      hr := sendHr;
    }

    /** The result of RealizeColorSources on the current items. */
    function StopOutcome(realizeHrs: seq<HRESULT>): HRESULT
      requires |realizeHrs| == |items|
      reads this
    {
      var k := StopIndex(items, realizeHrs, 0);
      if k < |items| then StopResult(items[k], realizeHrs[k]) else LastRealizeHr(items, realizeHrs, |items|)
    }

    /**
     * CHwShaderPipeline::ReInitialize: after the builder's setup (setupHr),
     * a new vertex builder is made only when no vertex buffer is cached;
     * the shader is then released and fetched again (shaderHr).
     */
    method ReInitialize(setupHr: HRESULT, vbbHr: HRESULT, newVbb: nat, shaderHr: HRESULT, newShader: nat)
      returns (hr: HRESULT)
      modifies this`vbb, this`shader
      ensures Failed(setupHr) ==> hr == setupHr && vbb == old(vbb) && shader == old(shader)
      ensures Succeeded(setupHr) && old(vb).Some? ==> vbb == old(vbb)
      ensures Succeeded(setupHr) && old(vb).None? ==> vbb == (if Succeeded(vbbHr) then Some(newVbb) else None)
      ensures Succeeded(setupHr) && old(vb).None? && Failed(vbbHr) ==> hr == vbbHr && shader == old(shader)
      ensures Succeeded(setupHr) && (old(vb).Some? || Succeeded(vbbHr)) ==>
        hr == shaderHr && shader == (if Succeeded(shaderHr) then Some(newShader) else None)
    {
      hr := setupHr;
      if Failed(hr) {
        return;
      }
      if vb.None? {
        hr := vbbHr;
        if Failed(hr) {
          vbb := None;
          return;
        }
        vbb := Some(newVbb);
      }
      shader := None;
      hr := shaderHr;
      if Succeeded(hr) {
        shader := Some(newShader);
      }
    }
  }

  /** The realization loop fails exactly when some item stops it, and then at the first such item. */
  lemma RealizeFailsIff(items: seq<PipelineItem>, hrs: seq<HRESULT>)
    requires |items| == |hrs|
    ensures StopIndex(items, hrs, 0) < |items| <==> exists j :: 0 <= j < |items| && Stops(items[j], hrs[j])
  {
  }
}
