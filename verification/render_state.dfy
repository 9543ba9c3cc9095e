/**
 * CD3DRenderState's state objects (core/hw/d3drenderstate.cpp): the
 * predefined alpha-blend modes, the blend descriptor built from a mode, the
 * blend factor passed with it, the four caches that map a descriptor to the
 * native state object created for it, and the per-vertex-type input layouts.
 *
 * The native create calls are parameters: their result and the handle they
 * write (None for NULL) are passed in.
 */
module RenderStates {
  import opened HResults

  /** The D3D11_BLEND factors the tables use, and MILBLEND_UNKNOWN. */
  datatype Blend =
    | Zero | One | SrcAlpha | InvSrcAlpha | InvSrcColor | InvDestAlpha | InvDestColor
    | BlendFactor | UnknownBlend

  /** ALPHABLENDENABLE: FALSE, TRUE, or MILRS_UNKNOWN. */
  datatype EnableState = Disabled | Enabled | UnknownState

  datatype AlphaBlendMode = AlphaBlendMode(enable: EnableState, src: Blend, dest: Blend)

  /** The predefined modes sc_abm*. */
  datatype ModeName =
    | Unknown | SrcCopy | SrcOverPremultiplied | SrcUnderPremultiplied | SrcAlphaMultiply
    | SrcInverseAlphaMultiply | SrcOverSrcNonPremultiplied | SrcOverInverseAlphaSrcNonPremultiplied
    | SrcVectorAlphaWithBlendFactor | SrcVectorAlpha | AddSourceColor | SrcAlphaWithInvDestColor

  function Mode(n: ModeName): AlphaBlendMode
  {
    match n
    case Unknown => AlphaBlendMode(UnknownState, UnknownBlend, UnknownBlend)
    case SrcCopy => AlphaBlendMode(Disabled, One, Zero)
    case SrcOverPremultiplied => AlphaBlendMode(Enabled, One, InvSrcAlpha)
    case SrcUnderPremultiplied => AlphaBlendMode(Enabled, InvDestAlpha, One)
    case SrcAlphaMultiply => AlphaBlendMode(Enabled, Zero, SrcAlpha)
    case SrcInverseAlphaMultiply => AlphaBlendMode(Enabled, Zero, InvSrcAlpha)
    case SrcOverSrcNonPremultiplied => AlphaBlendMode(Enabled, SrcAlpha, InvSrcAlpha)
    case SrcOverInverseAlphaSrcNonPremultiplied => AlphaBlendMode(Enabled, InvSrcAlpha, SrcAlpha)
    case SrcVectorAlphaWithBlendFactor => AlphaBlendMode(Enabled, BlendFactor, InvSrcColor)
    case SrcVectorAlpha => AlphaBlendMode(Enabled, Zero, InvSrcColor)
    case AddSourceColor => AlphaBlendMode(Enabled, One, One)
    case SrcAlphaWithInvDestColor => AlphaBlendMode(Enabled, InvDestColor, SrcAlpha)
  }

  /** D3D11_BLEND_OP_ADD is the only operation the descriptors use. */
  datatype BlendOp = OpAdd

  /** D3D11_COLOR_WRITE_ENABLE_ALL */
  const COLOR_WRITE_ENABLE_ALL: nat := 0xF

  /** Render target 0 of a D3D11_BLEND_DESC (the rest stays zero). */
  datatype BlendDesc = BlendDesc(
    enable: EnableState, src: Blend, dest: Blend, op: BlendOp,
    srcAlpha: Blend, destAlpha: Blend, opAlpha: BlendOp, writeMask: nat)

  /** SetAlphaBlendMode's descriptor. */
  function BlendDescFor(abm: AlphaBlendMode): BlendDesc
  {
    var destAlpha := if abm.dest == InvSrcColor then InvSrcAlpha else abm.dest;
    BlendDesc(abm.enable, abm.src, abm.dest, OpAdd, abm.src, destAlpha, OpAdd, COLOR_WRITE_ENABLE_ALL)
  }

  /** The weight of byte k of a DWORD. */
  function ByteWeight(k: nat): nat
    requires k < 4
  {
    if k == 0 then 1 else if k == 1 then 0x100 else if k == 2 then 0x1_0000 else 0x100_0000
  }

  /** Byte k of the blend-factor DWORD, the numerator of channel k. */
  function FactorByte(dw: nat, k: nat): (b: nat)
    requires k < 4
    ensures b < 0x100
  {
    (dw / ByteWeight(k)) % 0x100
  }

  /**
   * The blend factor of the solid-brush text modes: the brush colour ORed
   * with 0xFF000000, written as the low three bytes plus a full top byte.
   */
  function TextBlendFactor(foreground: nat): nat
    requires foreground < TWO32
  {
    foreground % 0x100_0000 + 0xFF00_0000
  }

  // ---- properties of the tables ----

  /** SrcCopy is the only predefined mode that disables blending; only Unknown leaves it unknown. */
  lemma OnlySrcCopyDisablesBlending(n: ModeName)
    ensures Mode(n).enable == Disabled <==> n == SrcCopy
    ensures Mode(n).enable == UnknownState <==> n == Unknown
    ensures n != Unknown ==> Mode(n).src != UnknownBlend && Mode(n).dest != UnknownBlend
  {
  }

  /**
   * The descriptor copies the mode's colour factors to the alpha factors,
   * except that an INV_SRC_COLOR destination becomes INV_SRC_ALPHA for
   * alpha; both operations are ADD and every channel is written.
   */
  lemma BlendDescFactors(abm: AlphaBlendMode)
    ensures var d := BlendDescFor(abm);
      && d.enable == abm.enable && d.src == abm.src && d.dest == abm.dest
      && d.srcAlpha == abm.src
      && (abm.dest == InvSrcColor ==> d.destAlpha == InvSrcAlpha)
      && (abm.dest != InvSrcColor ==> d.destAlpha == abm.dest)
      && d.destAlpha != InvSrcColor
      && d.op == OpAdd && d.opAlpha == OpAdd && d.writeMask == COLOR_WRITE_ENABLE_ALL
  {
  }

  /** Of the predefined modes, exactly the two vector-alpha text modes have their alpha destination rewritten. */
  lemma VectorAlphaModesRewritten(n: ModeName)
    ensures BlendDescFor(Mode(n)).destAlpha != Mode(n).dest
            <==> n == SrcVectorAlphaWithBlendFactor || n == SrcVectorAlpha
  {
  }

  /** The four bytes give back the DWORD: channel k is byte k, least significant first. */
  lemma FactorBytesRoundTrip(dw: nat)
    requires dw < TWO32
    ensures dw == FactorByte(dw, 0) + 0x100 * FactorByte(dw, 1)
                  + 0x1_0000 * FactorByte(dw, 2) + 0x100_0000 * FactorByte(dw, 3)
  {
    assert dw / 0x100_0000 < 0x100;
    assert dw / 0x1_0000 == (dw / 0x100) / 0x100;
    assert dw / 0x100_0000 == (dw / 0x1_0000) / 0x100;
  }

  /** Forcing the alpha byte leaves the colour channels alone and makes channel 3 full. */
  lemma TextBlendFactorChannels(foreground: nat)
    requires foreground < TWO32
    ensures TextBlendFactor(foreground) < TWO32
    ensures FactorByte(TextBlendFactor(foreground), 3) == 0xFF
    ensures forall k :: 0 <= k < 3 ==> FactorByte(TextBlendFactor(foreground), k) == FactorByte(foreground, k)
  {
    var low := foreground % 0x100_0000;
    var t := TextBlendFactor(foreground);
    assert foreground == 0x100_0000 * (foreground / 0x100_0000) + low;
    forall k | 0 <= k < 3
      ensures FactorByte(t, k) == FactorByte(foreground, k)
    {
      var w := ByteWeight(k);
      assert 0x100_0000 == w * 0x100 * (0x1_0000 / w);
      DigitAbove(low, foreground / 0x100_0000, w);
      DigitAbove(low, 0xFF, w);
    }
  }

  /** Adding a multiple of 2^24 does not change a byte below byte 3. */
  lemma DigitAbove(low: nat, high: nat, w: nat)
    requires low < 0x100_0000 && (w == 1 || w == 0x100 || w == 0x1_0000)
    ensures ((0x100_0000 * high + low) / w) % 0x100 == (low / w) % 0x100
  {
    if w == 1 {
      assert (0x100_0000 * high + low) / 1 == 0x100 * (0x1_0000 * high) + low;
    } else if w == 0x100 {
      assert (0x100_0000 * high + low) / 0x100 == 0x100 * (0x100 * high) + low / 0x100;
    } else {
      assert (0x100_0000 * high + low) / 0x1_0000 == 0x100 * high + low / 0x1_0000;
    }
  }

  // ---- the state-object caches ----

  /** One Set*State call on a cache: the map afterwards, the result, and the handle bound. */
  datatype CacheStep<D> = CacheStep(compiled: map<D, Option<nat>>, hr: HRESULT, bound: Option<nat>, created: bool)

  /**
   * SetRasterizerState, SetDepthStencilState, SetSamplerState and
   * SetBlendState share this shape: a descriptor already in the map binds
   * the stored handle and succeeds; a new one is created (createHr, handle),
   * stored whatever the outcome, bound, and the creation's result returned.
   */
  function CacheSet<D(==)>(m: map<D, Option<nat>>, desc: D, createHr: HRESULT, handle: Option<nat>): CacheStep<D>
  {
    if desc in m then CacheStep(m, S_OK, m[desc], false)
    else CacheStep(m[desc := handle], createHr, handle, true)
  }

  /** A sequence of Set*State calls: the descriptor, the create result and handle each would get. */
  datatype CacheCall<D> = CacheCall(desc: D, createHr: HRESULT, handle: Option<nat>)

  /** The final map and the descriptors created, in order. */
  function CacheRun<D(==)>(m: map<D, Option<nat>>, calls: seq<CacheCall<D>>): (map<D, Option<nat>>, seq<D>)
    decreases |calls|
  {
    if calls == [] then (m, [])
    else
      var s := CacheSet(m, calls[0].desc, calls[0].createHr, calls[0].handle);
      var rest := CacheRun(s.compiled, calls[1..]);
      (rest.0, (if s.created then [calls[0].desc] else []) + rest.1)
  }

  predicate NoDuplicates<T(==)>(s: seq<T>)
  {
    forall i, j :: 0 <= i < j < |s| ==> s[i] != s[j]
  }

  /**
   * A second call with a descriptor already seen creates nothing, binds the
   * stored handle (NULL if the first creation failed) and succeeds: a
   * failure is reported only by the first call for its descriptor.
   */
  lemma CacheSetTwice<D>(m: map<D, Option<nat>>, desc: D, hr1: HRESULT, h1: Option<nat>, hr2: HRESULT, h2: Option<nat>)
    ensures var s1 := CacheSet(m, desc, hr1, h1);
      var s2 := CacheSet(s1.compiled, desc, hr2, h2);
      && !s2.created && s2.hr == S_OK && s2.bound == s1.bound && s2.compiled == s1.compiled
    ensures CacheSet(m, desc, hr1, h1).created <==> desc !in m
    ensures desc !in m ==> CacheSet(m, desc, hr1, h1).hr == hr1
  {
  }

  /**
   * Over any sequence of calls each descriptor is created at most once, only
   * if it was not cached before, and the cache only grows: it ends holding
   * exactly the old entries (unchanged) and the descriptors created.
   */
  lemma {:induction false} CacheRunCreatesOnce<D>(m: map<D, Option<nat>>, calls: seq<CacheCall<D>>)
    ensures var (m', created) := CacheRun(m, calls);
      && NoDuplicates(created)
      && (forall d :: d in created ==> d !in m)
      && (forall d :: d in m ==> d in m' && m'[d] == m[d])
      && (forall d :: d in m' <==> d in m || d in created)
    decreases |calls|
  {
    if calls != [] {
      var s := CacheSet(m, calls[0].desc, calls[0].createHr, calls[0].handle);
      CacheRunCreatesOnce(s.compiled, calls[1..]);
      var rest := CacheRun(s.compiled, calls[1..]);
      var created := (if s.created then [calls[0].desc] else []) + rest.1;
      assert CacheRun(m, calls) == (rest.0, created);
      if s.created {
        assert forall i :: 1 <= i < |created| ==> created[i] == rest.1[i - 1];
        assert calls[0].desc in s.compiled;
      }
    }
  }

  /** One of the four caches: the map filled in place, and the calls it makes. */
  class StateCache<D(==,!new)> {
    var compiled: map<D, Option<nat>>   // m_compiled*States
    var created: seq<D>                 // descriptors the device was asked to create
    var bound: seq<Option<nat>>         // handles bound to the device context, in order

    /** Every cached descriptor was created exactly once, by this cache. */
    ghost predicate Valid()
      reads this
    {
      NoDuplicates(created) && forall d :: d in compiled <==> d in created
    }

    constructor ()
      ensures Valid() && compiled == map[] && created == [] && bound == []
    {
      compiled := map[];
      created := [];
      bound := [];
    }

    method Set(desc: D, createHr: HRESULT, handle: Option<nat>) returns (hr: HRESULT)
      requires Valid()
      modifies this
      ensures Valid()
      ensures var s := CacheSet(old(compiled), desc, createHr, handle);
        && compiled == s.compiled && hr == s.hr && bound == old(bound) + [s.bound]
        && created == old(created) + (if s.created then [desc] else [])
    {
      hr := S_OK;
      if desc !in compiled {
        hr := createHr;
        compiled := compiled[desc := handle];
        created := created + [desc];
      }
      bound := bound + [compiled[desc]];
    }
  }

  /** The four numerators of the blend factor handed to the context: byte k for channel k. */
  function FactorChannels(dw: nat): (c: seq<nat>)
    requires dw < TWO32
    ensures |c| == 4 && forall k :: 0 <= k < 4 ==> c[k] == FactorByte(dw, k)
  {
    [FactorByte(dw, 0), FactorByte(dw, 1), FactorByte(dw, 2), FactorByte(dw, 3)]
  }

  /**
   * SetAlphaBlendMode(mode, blendFactor): builds the descriptor and sets it
   * on the blend cache with the blend factor's channels.  The result of
   * SetBlendState is dropped, so the call reports success even when the
   * blend state could not be created.
   */
  method SetAlphaBlendMode(blends: StateCache<BlendDesc>, n: ModeName, blendFactor: nat, createHr: HRESULT, handle: Option<nat>)
    returns (hr: HRESULT, channels: seq<nat>)
    requires blends.Valid() && n != Unknown && blendFactor < TWO32
    modifies blends
    ensures blends.Valid()
    ensures var s := CacheSet(old(blends.compiled), BlendDescFor(Mode(n)), createHr, handle);
      blends.compiled == s.compiled && blends.bound == old(blends.bound) + [s.bound]
    ensures hr == S_OK && channels == FactorChannels(blendFactor)
  {
    var ignored := blends.Set(BlendDescFor(Mode(n)), createHr, handle);
    channels := FactorChannels(blendFactor);
    hr := S_OK;
  }

  // ---- input layouts ----

  /** The vertex types EnsureInputLayout knows, in the order of its switch. */
  datatype VertexType = XYZDUV2 | XYZDUV6 | XYZDUV8 | XYZNDSUV4 | HW3DGeometryNormal | HW3DGeometryDiffuse

  const VERTEX_TYPES: nat := 6

  function VertexIndex(vt: VertexType): (i: nat)
    ensures i < VERTEX_TYPES
  {
    match vt
    case XYZDUV2 => 0
    case XYZDUV6 => 1
    case XYZDUV8 => 2
    case XYZNDSUV4 => 3
    case HW3DGeometryNormal => 4
    case HW3DGeometryDiffuse => 5
  }

  /** The number of elements of the layout created for each vertex type. */
  function LayoutElements(vt: VertexType): nat
  {
    match vt
    case XYZDUV2 => 4
    case XYZDUV6 => 8
    case XYZDUV8 => 10
    case XYZNDSUV4 => 8
    case HW3DGeometryNormal => 3
    case HW3DGeometryDiffuse => 3
  }

  /** The input-layout slots, one per vertex type, filled on demand. */
  class InputLayouts {
    const layouts: array<Option<nat>>        // m_pInputLayouts
    var createCalls: seq<(VertexType, nat)>  // CreateInputLayout calls: vertex type, element count

    constructor ()
      ensures layouts.Length == VERTEX_TYPES && fresh(layouts)
      ensures forall i :: 0 <= i < layouts.Length ==> layouts[i].None?
      ensures createCalls == []
    {
      layouts := new Option<nat>[VERTEX_TYPES](_ => None);
      createCalls := [];
    }

    /**
     * EnsureInputLayout(vt): only an empty slot is filled, with what the
     * create call writes; a filled slot makes the call a successful no-op.
     */
    method EnsureInputLayout(vt: VertexType, createHr: HRESULT, handle: Option<nat>) returns (hr: HRESULT)
      requires layouts.Length == VERTEX_TYPES
      modifies this, layouts
      ensures old(layouts[VertexIndex(vt)]).Some? ==>
                hr == S_OK && layouts[..] == old(layouts[..]) && createCalls == old(createCalls)
      ensures old(layouts[VertexIndex(vt)]).None? ==>
                && hr == createHr && layouts[..] == old(layouts[..])[VertexIndex(vt) := handle]
                && createCalls == old(createCalls) + [(vt, LayoutElements(vt))]
    {
      hr := S_OK;
      var i := VertexIndex(vt);
      if layouts[i].None? {
        createCalls := createCalls + [(vt, LayoutElements(vt))];
        hr := createHr;
        layouts[i] := handle;
      }
    }
  }
}
