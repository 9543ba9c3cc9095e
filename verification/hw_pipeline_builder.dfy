/**
 * CHwPipelineBuilder (core/hw/hwpipelinebuilder.cpp): its initial state,
 * the alpha-multiply operation and vertex attributes chosen for a
 * compositing mode, the effect-list decoder, the search for an existing
 * stage that can absorb a constant alpha scale, and the anti-aliasing
 * piggyback check.
 *
 * The accessors GetEarliestItemAvailableForAlphaMultiply,
 * GetLastAlphaScalableItem and GetAAPiggybackItem read the fields
 * alphaMultiplyOkayAtItem, lastAlphaScalableItem and aaPiggybackItem, and
 * the INVALID_PIPELINE_* markers are -1.
 */
module HwPipelineBuilders {
  import opened HResults
  import opened RenderStates
  import opened HwPipelines

  const INVALID_PIPELINE_SAMPLER: int := -1
  const INVALID_PIPELINE_STAGE: int := -1
  const INVALID_PIPELINE_ITEM: int := -1

  /** HwBlendOp: the seven operations of sc_BlendOpProperties, and HBO_Nop. */
  datatype HwBlendOp =
    | SelectSource | Multiply | SelectSourceColorIgnoreAlpha | MultiplyColorIgnoreAlpha
    | BumpMap | MultiplyByAlpha | MultiplyAlphaOnly | Nop

  /** sc_BlendOpProperties: whether an alpha multiply may happen in an earlier stage. */
  function AllowsAlphaMultiplyInEarlierStage(op: HwBlendOp): bool
    requires op != Nop
  {
    match op
    case SelectSource => false
    case Multiply => true
    case SelectSourceColorIgnoreAlpha => false
    case MultiplyColorIgnoreAlpha => true
    case BumpMap => true
    case MultiplyByAlpha => true
    case MultiplyAlphaOnly => true
  }

  /** Only the two select operations, which discard what came before, forbid an earlier alpha multiply. */
  lemma AllowsIffNotSelect(op: HwBlendOp)
    requires op != Nop
    ensures !AllowsAlphaMultiplyInEarlierStage(op) <==> op == SelectSource || op == SelectSourceColorIgnoreAlpha
  {
  }

  /** MilVertexFormatAttribute bits. */
  datatype VertexAttr = XYZ | Diffuse | Specular | UV4 | OtherAttr(bit: nat)

  /** The attributes the pipeline may generate: XYZ, diffuse, specular and four UV sets. */
  function GeneratableAttrs(): set<VertexAttr>
  {
    {XYZ, Diffuse, Specular, UV4}
  }

  /** The alpha multiply of InitializePipelineMembers. */
  function AlphaMultiplyOpFor(m: CompositingMode): HwBlendOp
  {
    if m == SourceOverNonPremultiplied || m == SourceInverseAlphaOverNonPremultiplied
    then MultiplyAlphaOnly else Multiply
  }

  /**
   * Colour channels are left alone exactly for the modes whose blend
   * stage itself weighs the source by its alpha, so that the colour
   * reaching it must stay non-premultiplied.
   */
  lemma AlphaOnlyForNonPremultipliedBlends(m: CompositingMode)
    ensures AlphaMultiplyOpFor(m) == MultiplyAlphaOnly
            <==> Mode(CompositionBlend(m)).src in {SrcAlpha, InvSrcAlpha}
    ensures AlphaMultiplyOpFor(m) in {Multiply, MultiplyAlphaOnly}
  {
  }

  /** An item whose source has the Constant bit. */
  predicate IsConstantItem(it: PipelineItem)
  {
    it.source.Some? && Constant in it.source.value.kinds
  }

  /** The last constant item at or after lo, or lo - 1 when there is none. */
  function LastConstantFrom(items: seq<PipelineItem>, lo: nat, hi: nat): (k: int)
    requires lo <= hi <= |items|
    ensures lo - 1 <= k < hi
    ensures k >= lo ==> IsConstantItem(items[k])
    ensures forall j :: k < j < hi && lo <= j ==> !IsConstantItem(items[j])
    decreases hi - lo
  {
    if hi == lo then lo - 1
    else if IsConstantItem(items[hi - 1]) then hi - 1
    else LastConstantFrom(items, lo, hi - 1)
  }

  /** CheckForBlendAlreadyPresentAtAALocation: (result, need another stage). */
  function CheckForBlendAlreadyPresentAtAALocation(piggyback: int, earliest: int): (HRESULT, bool)
  {
    if piggyback < earliest then
      if piggyback != INVALID_PIPELINE_ITEM then (WGXERR_NOTIMPLEMENTED, false) else (S_OK, true)
    else (S_OK, false)
  }

  /**
   * The three outcomes: no piggyback below the earliest alpha-multiply
   * item needs no stage; a piggyback item that lies below it cannot be
   * handled; no piggyback at all below it needs a blending stage.
   */
  lemma AAPiggybackOutcomes(piggyback: int, earliest: int)
    ensures var (hr, need) := CheckForBlendAlreadyPresentAtAALocation(piggyback, earliest);
      && (need ==> hr == S_OK)
      && (Failed(hr) <==> INVALID_PIPELINE_ITEM != piggyback < earliest)
      && (need <==> piggyback == INVALID_PIPELINE_ITEM < earliest)
      && (Failed(hr) ==> hr == WGXERR_NOTIMPLEMENTED)
  {
  }

  /** Set_BumpMap is not implemented. */
  function Set_BumpMap(bumpMap: nat): (hr: HRESULT)
    ensures Failed(hr) && hr == E_NOTIMPL
  {
    E_NOTIMPL
  }

  /** Mul_AlphaMask is not implemented. */
  function Mul_AlphaMask(mask: nat): (hr: HRESULT)
    ensures Failed(hr) && hr == E_NOTIMPL
  {
    E_NOTIMPL
  }

  // ---- the effect list ----

  datatype EffectKind = AlphaScaleEffect | AlphaMaskEffect | OtherEffect

  /**
   * One entry of an IMILEffectList as the decoder sees it:
   * queryHr is the first failure of GetCLSID, GetParameterSize and
   * GetResourceCount (or S_OK); sizeOk says the parameter size is the
   * size of the effect's parameter block; paramsHr is GetParameters';
   * applyHr is the first failure of the calls that build and add the new
   * colour source (for a mask: fetching the bitmap and deriving its source),
   * or the last one's success code when none fails.
   */
  datatype EffectEntry = EffectEntry(
    kind: EffectKind, queryHr: HRESULT, sizeOk: bool, resources: nat,
    paramsHr: HRESULT, scale: real, applyHr: HRESULT)

  /** ProcessAlphaScaleEffect */
  function AlphaScaleResult(e: EffectEntry): HRESULT
  {
    if !e.sizeOk || e.resources != 0 then WGXERR_UNSUPPORTED_OPERATION
    else if Failed(e.paramsHr) then e.paramsHr
    else if e.scale < 0.0 || e.scale > 1.0 then WGXERR_UNSUPPORTED_OPERATION
    else e.applyHr
  }

  /** ProcessAlphaMaskEffect: whatever succeeds ends in Mul_AlphaMask. */
  function AlphaMaskResult(e: EffectEntry): HRESULT
  {
    if !e.sizeOk || e.resources != 1 then WGXERR_UNSUPPORTED_OPERATION
    else if Failed(e.paramsHr) then e.paramsHr
    else if Failed(e.applyHr) then e.applyHr
    else Mul_AlphaMask(0)
  }

  /** One iteration of ProcessEffectList's loop. */
  function EffectResult(e: EffectEntry): HRESULT
  {
    if Failed(e.queryHr) then e.queryHr
    else match e.kind
      case AlphaScaleEffect => AlphaScaleResult(e)
      case AlphaMaskEffect => AlphaMaskResult(e)
      case OtherEffect => WGXERR_UNSUPPORTED_OPERATION
  }

  /** An alpha scale succeeds only with the right parameters, no resources and a scale in [0, 1]. */
  lemma AlphaScaleAccepts(e: EffectEntry)
    ensures Succeeded(AlphaScaleResult(e)) ==>
      e.sizeOk && e.resources == 0 && 0.0 <= e.scale <= 1.0 && Succeeded(e.paramsHr) && Succeeded(e.applyHr)
    ensures e.sizeOk && e.resources == 0 && Succeeded(e.paramsHr) && 0.0 <= e.scale <= 1.0 ==>
      AlphaScaleResult(e) == e.applyHr
  {
  }

  /** No alpha-mask effect and no other effect can be processed. */
  lemma OnlyAlphaScaleSucceeds(e: EffectEntry)
    ensures Failed(AlphaMaskResult(e))
    ensures Succeeded(EffectResult(e)) ==> e.kind == AlphaScaleEffect && Succeeded(AlphaScaleResult(e))
  {
  }

  /** The first entry at or after i whose processing fails, or the entry count. */
  function FirstFailure(es: seq<EffectEntry>, i: nat): (k: nat)
    requires i <= |es|
    ensures i <= k <= |es|
    ensures k < |es| ==> Failed(EffectResult(es[k]))
    ensures forall j :: i <= j < k ==> Succeeded(EffectResult(es[j]))
    decreases |es| - i
  {
    if i == |es| then i
    else if Failed(EffectResult(es[i])) then i
    else FirstFailure(es, i + 1)
  }

  /**
   * ProcessEffectList: after the count (countHr) each entry is decoded in
   * order and the first failure ends the walk with its result; without a
   * failure the result is the last entry's success code, or the count's
   * when the list is empty.  processed is the number of entries looked at.
   */
  method ProcessEffectList(countHr: HRESULT, es: seq<EffectEntry>) returns (hr: HRESULT, processed: nat)
    ensures Failed(countHr) ==> hr == countHr && processed == 0
    ensures Succeeded(countHr) ==>
      var k := FirstFailure(es, 0);
      && (k == |es| ==> hr == (if es == [] then countHr else EffectResult(es[|es| - 1])) && processed == |es|)
      && (k < |es| ==> hr == EffectResult(es[k]) && processed == k + 1)
    ensures Succeeded(hr) ==> forall j :: 0 <= j < |es| ==> es[j].kind == AlphaScaleEffect
  {
    hr := countHr;
    processed := 0;
    if Failed(hr) {
      return;
    }
    var i := 0;
    while i < |es|
      invariant i <= FirstFailure(es, 0)
      invariant processed == i
      invariant Succeeded(hr) && hr == (if i == 0 then countHr else EffectResult(es[i - 1]))
      invariant forall j :: 0 <= j < i ==> es[j].kind == AlphaScaleEffect
    {
      var r := EffectResult(es[i]);
      processed := processed + 1;
      if Failed(r) {
        return r, processed;
      }
      OnlyAlphaScaleSucceeds(es[i]);
      hr := r;
      i := i + 1;
    }
  }

  class PipelineBuilder {
    const hp: Pipeline                  // m_pHP
    var currentSampler: int             // m_iCurrentSampler
    var currentStage: int               // m_iCurrentStage
    var mvfIn: set<VertexAttr>          // m_mvfIn
    var mvfGenerated: set<VertexAttr>   // m_mvfGenerated
    var mvfAvailable: set<VertexAttr>   // m_mvfAvailable
    var antiAliasUsed: bool             // m_fAntiAliasUsed
    var alphaMultiplyOp: HwBlendOp      // m_eAlphaMultiplyOp
    var alphaMultiplyOkayAtItem: int    // m_iAlphaMultiplyOkayAtItem
    var lastAlphaScalableItem: int      // m_iLastAlphaScalableItem
    var aaPiggybackItem: int            // m_iAntiAliasingPiggybackedByItem
    var blendStagesAdded: nat           // Mul_BlendColorsInternal calls

    constructor (hp: Pipeline)
      ensures this.hp == hp
      ensures currentSampler == INVALID_PIPELINE_SAMPLER && currentStage == INVALID_PIPELINE_STAGE
      ensures mvfIn == {} && mvfGenerated == {} && mvfAvailable == {}
      ensures !antiAliasUsed && alphaMultiplyOp == Nop
      ensures alphaMultiplyOkayAtItem == INVALID_PIPELINE_STAGE
      ensures lastAlphaScalableItem == INVALID_PIPELINE_ITEM && aaPiggybackItem == INVALID_PIPELINE_ITEM
      ensures blendStagesAdded == 0
    {
      this.hp := hp;
      currentSampler := INVALID_PIPELINE_SAMPLER;
      currentStage := INVALID_PIPELINE_STAGE;
      mvfIn := {};
      mvfGenerated := {};
      mvfAvailable := {};
      antiAliasUsed := false;
      alphaMultiplyOp := Nop;
      alphaMultiplyOkayAtItem := INVALID_PIPELINE_STAGE;
      lastAlphaScalableItem := INVALID_PIPELINE_ITEM;
      aaPiggybackItem := INVALID_PIPELINE_ITEM;
      blendStagesAdded := 0;
    }

    /**
     * InitializePipelineMembers: pick the alpha multiply for the mode and
     * record the generator's per-vertex attributes; the pipeline may
     * generate whatever of XYZ, diffuse, specular and UV4 they lack.
     */
    method InitializePipelineMembers(m: CompositingMode, generatorAttrs: set<VertexAttr>)
      requires currentSampler == INVALID_PIPELINE_SAMPLER && currentStage == INVALID_PIPELINE_STAGE
      requires alphaMultiplyOkayAtItem == INVALID_PIPELINE_STAGE && lastAlphaScalableItem == INVALID_PIPELINE_STAGE
      modifies this`alphaMultiplyOp, this`mvfIn, this`mvfAvailable
      ensures alphaMultiplyOp == AlphaMultiplyOpFor(m)
      ensures mvfIn == generatorAttrs
      ensures mvfAvailable !! mvfIn && mvfAvailable <= GeneratableAttrs()
      ensures forall a :: a in GeneratableAttrs() ==> (a in mvfAvailable <==> a !in mvfIn)
    {
      alphaMultiplyOp := AlphaMultiplyOpFor(m);
      mvfIn := generatorAttrs;
      mvfAvailable := GeneratableAttrs() - mvfIn;
    }

    /**
     * TryToMultiplyConstantAlphaToExistingStage: a scale of 1 needs no
     * stage.  Otherwise, if the earliest item available for an alpha
     * multiply exists, the last alpha-scalable item takes the scale when
     * it lies at or after it; failing that, the last constant source at or
     * after it is replaced by a new alpha-scalable source (createHr,
     * created), which becomes the last alpha-scalable item.  The answer
     * is true only for an S_OK result with a stage found; scaledAt is the
     * item whose source was told to scale.
     */
    method TryToMultiplyConstantAlphaToExistingStage(alphaIsOne: bool, createHr: HRESULT, created: ColorSource)
      returns (found: bool, scaledAt: int)
      requires |hp.items| > 0
      requires !alphaIsOne && alphaMultiplyOkayAtItem < |hp.items| ==> 0 <= alphaMultiplyOkayAtItem
      requires !alphaIsOne && alphaMultiplyOkayAtItem < |hp.items| && lastAlphaScalableItem >= alphaMultiplyOkayAtItem ==>
        lastAlphaScalableItem < |hp.items| && hp.items[lastAlphaScalableItem].source.Some?
      modifies hp`items, this`lastAlphaScalableItem
      ensures alphaIsOne ==> found && scaledAt == -1 && hp.items == old(hp.items) && lastAlphaScalableItem == old(lastAlphaScalableItem)
      ensures !alphaIsOne && alphaMultiplyOkayAtItem >= |old(hp.items)| ==>
        !found && scaledAt == -1 && hp.items == old(hp.items) && lastAlphaScalableItem == old(lastAlphaScalableItem)
      ensures !alphaIsOne && alphaMultiplyOkayAtItem < |old(hp.items)| && old(lastAlphaScalableItem) >= alphaMultiplyOkayAtItem ==>
        found && scaledAt == old(lastAlphaScalableItem) && hp.items == old(hp.items) && lastAlphaScalableItem == old(lastAlphaScalableItem)
      ensures !alphaIsOne && 0 <= alphaMultiplyOkayAtItem < |old(hp.items)| && old(lastAlphaScalableItem) < alphaMultiplyOkayAtItem ==>
        var c := LastConstantFrom(old(hp.items), alphaMultiplyOkayAtItem, |old(hp.items)|);
        && scaledAt == -1
        && (c < alphaMultiplyOkayAtItem || Failed(createHr) ==>
              !found && hp.items == old(hp.items) && lastAlphaScalableItem == old(lastAlphaScalableItem))
        && (c >= alphaMultiplyOkayAtItem && Succeeded(createHr) ==>
              && found == (createHr == S_OK)
              && hp.items == old(hp.items)[c := PipelineItem(Some(created))]
              && lastAlphaScalableItem == c)
    {
      scaledAt := -1;
      if alphaIsOne {
        return true, -1;
      }
      var count := |hp.items|;
      var earliest := alphaMultiplyOkayAtItem;
      if earliest >= count {
        return false, -1;
      }
      if lastAlphaScalableItem >= earliest {
        return true, lastAlphaScalableItem;
      }
      var k := count - 1;
      while k >= earliest
        invariant earliest - 1 <= k < count
        invariant hp.items == old(hp.items)
        invariant forall j :: k < j < count ==> !IsConstantItem(hp.items[j])
        invariant LastConstantFrom(hp.items, earliest, count) == LastConstantFrom(hp.items, earliest, k + 1)
        decreases k - earliest
      {
        if IsConstantItem(hp.items[k]) {
          if Failed(createHr) {
            return false, -1;
          }
          hp.items := hp.items[k := PipelineItem(Some(created))];
          lastAlphaScalableItem := k;
          return createHr == S_OK, -1;
        }
        k := k - 1;
      }
      found := false;
    }

    /**
     * Set_AAColorSource: after the piggyback check, a blending stage is
     * added when needed (mulHr); anti-aliasing is then marked used.
     */
    method Set_AAColorSource(mulHr: HRESULT) returns (hr: HRESULT)
      modifies this`antiAliasUsed, this`blendStagesAdded
      ensures var (checkHr, need) := CheckForBlendAlreadyPresentAtAALocation(aaPiggybackItem, alphaMultiplyOkayAtItem);
        && (Failed(checkHr) ==> hr == checkHr && antiAliasUsed == old(antiAliasUsed) && blendStagesAdded == old(blendStagesAdded))
        && (Succeeded(checkHr) && need ==> hr == mulHr && blendStagesAdded == old(blendStagesAdded) + 1
                                           && antiAliasUsed == (Succeeded(mulHr) || old(antiAliasUsed)))
        && (Succeeded(checkHr) && !need ==> hr == S_OK && antiAliasUsed && blendStagesAdded == old(blendStagesAdded))
    {
      var check := CheckForBlendAlreadyPresentAtAALocation(aaPiggybackItem, alphaMultiplyOkayAtItem);
      hr := check.0;
      var need := check.1;
      if Failed(hr) {
        return;
      }
      if need {
        blendStagesAdded := blendStagesAdded + 1;
        hr := mulHr;
        if Failed(hr) {
          return;
        }
      }
      antiAliasUsed := true;
    }
  }
}
