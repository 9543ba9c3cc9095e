/**
 * CHwSolidColorTextureSource (core/hw/hwsolidcolortexturesource.cpp): a
 * 1x1 lockable texture holding one colour, created lazily and refilled only
 * when the realization is out of date.
 *
 * The device's texture creation, the lock and unlock calls, and the colour
 * conversion to a premultiplied sRGB texel are parameters.
 */
module SolidColorTextureSources {
  import opened HResults
  import opened HwPipelines
  import opened D3DUtils

  /** MilColorF, scRGB components. */
  datatype ColorF = ColorF(a: real, r: real, g: real, b: real)

  datatype InterpolationMode = Linear | NearestNeighbor | OtherInterpolation
  datatype WrapMode = Extend | Tile | OtherWrap

  /** CreateLockableTexture's description: one BGRA texel, one sample, one array slice. */
  function SolidTextureDesc(): (d: Texture2DDesc)
    ensures d.width == 1 && d.height == 1 && d.format == DXGI_FORMAT_B8G8R8A8_UNORM
    ensures d.sampleCount == 1 && d.arraySize == 1 && d.mipLevels == 0
  {
    ZeroDesc.(format := DXGI_FORMAT_B8G8R8A8_UNORM, width := 1, height := 1, sampleCount := 1, arraySize := 1)
  }

  /**
   * It is what PopulateSurfaceDesc gives for a 1x1 BGRA texture except for
   * the mip levels, left at zero (a full chain, which for 1x1 is one level).
   */
  lemma SolidDescIsPopulated()
    ensures SolidTextureDesc() == PopulateSurfaceDesc(DXGI_FORMAT_B8G8R8A8_UNORM, 1, 1).(mipLevels := 0)
  {
  }

  /** GetSourceType: Texture | Constant. */
  function GetSourceType(): set<SourceKind>
  {
    {Texture, Constant}
  }

  /** The pipeline realizes such a source, and treats it as constant. */
  lemma SolidSourceIsRealized()
    ensures RealizeActionFor(GetSourceType()) == DoRealize
    ensures Constant in GetSourceType() && Texture in GetSourceType()
  {
  }

  /** What Realize reads and writes: the texture, the validity mark, and the texels written. */
  datatype SolidState = SolidState(texture: Option<nat>, valid: bool, fills: seq<nat>)

  predicate SolidInv(s: SolidState)
  {
    s.valid ==> s.texture.Some?
  }

  /**
   * Realize: create the texture if there is none (createHr, created),
   * which makes the realization out of date; if it is out of date, fill it
   * (lockHr, the texel, unlockHr); on reaching the end it is valid.  The
   * result is the last call's: the fill's when there was one, else S_OK.
   */
  function RealizeStep(s: SolidState, createHr: HRESULT, created: nat, lockHr: HRESULT, texel: nat, unlockHr: HRESULT)
    : (SolidState, HRESULT)
  {
    if s.texture.None? && Failed(createHr) then (s, createHr)
    else
      var texture := if s.texture.None? then Some(created) else s.texture;
      var valid := if s.texture.None? then false else s.valid;
      if valid then (SolidState(texture, true, s.fills), S_OK)
      else if Failed(lockHr) then (SolidState(texture, false, s.fills), lockHr)
      else if Failed(unlockHr) then (SolidState(texture, false, s.fills + [texel]), unlockHr)
      else (SolidState(texture, true, s.fills + [texel]), unlockHr)
  }

  /**
   * Realize keeps the invariant, succeeds exactly when it leaves the
   * realization valid, writes the texel exactly when the realization was
   * out of date (or the texture new) and the lock succeeded, and keeps an
   * existing texture.
   */
  lemma RealizeStepSpec(s: SolidState, createHr: HRESULT, created: nat, lockHr: HRESULT, texel: nat, unlockHr: HRESULT)
    requires SolidInv(s)
    ensures var (s', hr) := RealizeStep(s, createHr, created, lockHr, texel, unlockHr);
      && SolidInv(s')
      && (s'.valid <==> Succeeded(hr))
      && (s.texture.Some? ==> s'.texture == s.texture)
      && (s.texture.None? && Succeeded(createHr) ==> s'.texture == Some(created))
      && (s.texture.None? && Failed(createHr) ==> hr == createHr && s' == s)
      && (s'.fills == s.fills + [texel] <==>
            (s.texture.Some? || Succeeded(createHr)) && !(s.texture.Some? && s.valid) && Succeeded(lockHr))
      && (s'.fills != s.fills + [texel] ==> s'.fills == s.fills)
      && (s'.fills == s.fills + [texel] ==> hr == unlockHr)
      && (Succeeded(hr) && s'.fills == s.fills ==> hr == S_OK)
  {
    var (s', hr) := RealizeStep(s, createHr, created, lockHr, texel, unlockHr);
    assert s.fills + [texel] != s.fills by {
      assert |s.fills + [texel]| == |s.fills| + 1;
    }
  }

  /** After a successful Realize, another Realize fills nothing and succeeds, whatever the device answers. */
  lemma {:induction false} SecondRealizeDoesNotFill(s: SolidState, createHr: HRESULT, created: nat, lockHr: HRESULT, texel: nat, unlockHr: HRESULT,
                                  createHr2: HRESULT, created2: nat, lockHr2: HRESULT, texel2: nat, unlockHr2: HRESULT)
    requires SolidInv(s)
    requires Succeeded(RealizeStep(s, createHr, created, lockHr, texel, unlockHr).1)
    ensures var s1 := RealizeStep(s, createHr, created, lockHr, texel, unlockHr).0;
      RealizeStep(s1, createHr2, created2, lockHr2, texel2, unlockHr2) == (s1, S_OK)
  {
    RealizeStepSpec(s, createHr, created, lockHr, texel, unlockHr);
  }

  class SolidColorTextureSource {
    var texture: Option<nat>          // m_pLockableTexture
    var color: ColorF                 // m_color
    var validRealization: bool        // m_fValidRealization
    var fills: seq<nat>               // texels written by FillTexture
    var bound: seq<nat>               // textures given to SetTexture
    var filter: InterpolationMode
    var wrapU: WrapMode
    var wrapV: WrapMode
    var refCount: nat

    function State(): SolidState
      reads this
    {
      SolidState(texture, validRealization, fills)
    }

    predicate Valid()
      reads this
    {
      SolidInv(State())
    }

    /** The constructor: no texture, opaque white, out of date; linear filtering, clamped in u and v. */
    constructor ()
      ensures Valid() && texture.None? && !validRealization
      ensures color == ColorF(1.0, 1.0, 1.0, 1.0)
      ensures filter == Linear && wrapU == Extend && wrapV == Extend
      ensures fills == [] && bound == [] && refCount == 0
    {
      texture := None;
      color := ColorF(1.0, 1.0, 1.0, 1.0);
      validRealization := false;
      fills := [];
      bound := [];
      filter := Linear;
      wrapU := Extend;
      wrapV := Extend;
      refCount := 0;
    }

    /** CreateLockableTexture: only while there is none; keeps what the device created. */
    method CreateLockableTexture(createHr: HRESULT, created: nat) returns (hr: HRESULT, desc: Texture2DDesc)
      requires texture.None?
      modifies this`texture
      ensures desc == SolidTextureDesc()
      ensures hr == createHr
      ensures texture == (if Succeeded(createHr) then Some(created) else None)
    {
      desc := ZeroDesc.(format := DXGI_FORMAT_B8G8R8A8_UNORM, width := 1, height := 1);
      desc := desc.(sampleCount := 1, arraySize := 1);
      hr := createHr;
      if Failed(hr) {
        return;
      }
      texture := Some(created);
    }

    /** FillTexture: lock, write the texel, unlock. */
    method FillTexture(lockHr: HRESULT, texel: nat, unlockHr: HRESULT) returns (hr: HRESULT)
      requires texture.Some?
      modifies this`fills
      ensures Failed(lockHr) ==> hr == lockHr && fills == old(fills)
      ensures Succeeded(lockHr) ==> hr == unlockHr && fills == old(fills) + [texel]
    {
      hr := lockHr;
      if Failed(hr) {
        return;
      }
      fills := fills + [texel];
      hr := unlockHr;
    }

    method Realize(createHr: HRESULT, created: nat, lockHr: HRESULT, texel: nat, unlockHr: HRESULT) returns (hr: HRESULT)
      requires Valid()
      modifies this`texture, this`validRealization, this`fills
      ensures Valid()
      ensures (State(), hr) == RealizeStep(old(State()), createHr, created, lockHr, texel, unlockHr)
    {
      hr := S_OK;
      if texture.None? {
        var desc;
        hr, desc := CreateLockableTexture(createHr, created);
        if Failed(hr) {
          return;
        }
        validRealization := false;
      }
      if !validRealization {
        hr := FillTexture(lockHr, texel, unlockHr);
        if Failed(hr) {
          return;
        }
      }
      validRealization := true;
    }

    /** SendDeviceStates: only on a valid realization; the base states (baseHr), then the texture. */
    method SendDeviceStates(baseHr: HRESULT, setTextureHr: HRESULT) returns (hr: HRESULT)
      requires Valid() && validRealization
      modifies this`bound
      ensures Failed(baseHr) ==> hr == baseHr && bound == old(bound)
      ensures Succeeded(baseHr) ==> hr == setTextureHr && bound == old(bound) + [texture.value]
    {
      hr := baseHr;
      if Failed(hr) {
        return;
      }
      bound := bound + [texture.value];
      hr := setTextureHr;
    }
  }

  /** Create: a new source with one reference, or E_OUTOFMEMORY and none. */
  method Create(allocOk: bool) returns (hr: HRESULT, source: SolidColorTextureSource?)
    ensures allocOk ==>
      && hr == S_OK && source != null && fresh(source) && source.refCount == 1
      && source.Valid() && source.texture.None? && !source.validRealization
    ensures !allocOk ==> hr == E_OUTOFMEMORY && source == null
  {
    if !allocOk {
      return E_OUTOFMEMORY, null;
    }
    source := new SolidColorTextureSource();
    source.refCount := source.refCount + 1;
    hr := S_OK;
  }
}
