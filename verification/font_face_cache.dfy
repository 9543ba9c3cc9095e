/**
 * Font faces and the small most-recently-used cache of them that Font
 * keeps (MS/internal/Text/TextNotStubs.cs).
 *
 * A FontFace wraps a native DirectWrite font face, counts the references
 * the cache and its callers take, and releases the native face eagerly
 * when the count drops to -1.  The cache has four slots, each holding a
 * font and the face made for it, and remembers the slot used last.
 *
 * The cache is static and guarded by an interlocked counter; this model
 * is of one thread, which always finds the cache free.  Fonts are given by
 * identity (a number); creating a native face is a parameter (the handle
 * it yields).
 */
module FontFaces {
  import opened HResults

  /** The state of a FontFace: its native handle (0 when none), its count and the handles it released. */
  datatype FaceState = FaceState(handle: nat, refCount: int, released: seq<nat>)

  /** A face made for a native handle, as the constructor leaves it. */
  function NewFace(handle: nat): (s: FaceState)
    ensures s.refCount == 0 && s.released == [] && s.handle == handle
  {
    FaceState(handle, 0, [])
  }

  /** Dispose: a held native face is released once and forgotten. */
  function DisposeStep(s: FaceState): (t: FaceState)
    ensures t.handle == 0 && t.refCount == s.refCount
    ensures t.released == s.released + (if s.handle != 0 then [s.handle] else [])
  {
    if s.handle != 0 then s.(released := s.released + [s.handle], handle := 0) else s
  }

  function AddRefStep(s: FaceState): (t: FaceState)
    ensures t == s.(refCount := s.refCount + 1)
  {
    s.(refCount := s.refCount + 1)
  }

  /** Release: one reference fewer, and Dispose when the count reaches -1. */
  function ReleaseStep(s: FaceState): (t: FaceState)
    ensures t.refCount == s.refCount - 1
    ensures s.refCount - 1 == -1 ==> t == DisposeStep(s.(refCount := -1))
    ensures s.refCount - 1 != -1 ==> t == s.(refCount := s.refCount - 1)
  {
    var d := s.(refCount := s.refCount - 1);
    if d.refCount == -1 then DisposeStep(d) else d
  }

  datatype FaceOp = AddRef | Release | Dispose

  /** The state after a series of calls. */
  function Run(s: FaceState, ops: seq<FaceOp>): FaceState
    decreases |ops|
  {
    if ops == [] then s
    else
      var t := match ops[0]
        case AddRef => AddRefStep(s)
        case Release => ReleaseStep(s)
        case Dispose => DisposeStep(s);
      Run(t, ops[1..])
  }

  /**
   * The handle a face was made with, released at most once: either the
   * face still holds it and has released nothing, or it holds nothing and
   * has released exactly that handle (or there was none to release).
   */
  predicate ReleasedAtMostOnce(made: nat, s: FaceState)
  {
    || (s.released == [] && (s.handle == made || s.handle == 0))
    || (made != 0 && s.released == [made] && s.handle == 0)
  }

  /** Whatever the calls, a face releases its native handle at most once, and nothing else. */
  lemma {:induction false} NativeReleasedAtMostOnce(made: nat, s: FaceState, ops: seq<FaceOp>)
    requires ReleasedAtMostOnce(made, s)
    requires s.released == [] ==> s.handle == made
    ensures ReleasedAtMostOnce(made, Run(s, ops))
    ensures Run(s, ops).released == [] ==> Run(s, ops).handle == made
    decreases |ops|
  {
    if ops != [] {
      var t := match ops[0]
        case AddRef => AddRefStep(s)
        case Release => ReleaseStep(s)
        case Dispose => DisposeStep(s);
      NativeReleasedAtMostOnce(made, t, ops[1..]);
    }
  }

  /** n AddRefs then n Releases leave a fresh face's count at 0 and its handle held. */
  function Balanced(n: nat): (ops: seq<FaceOp>)
    ensures |ops| == 2 * n
  {
    seq(n, i => AddRef) + seq(n, i => Release)
  }

  lemma {:induction false} AddRefsCount(s: FaceState, n: nat)
    ensures Run(s, seq(n, i => AddRef)) == s.(refCount := s.refCount + n)
    decreases n
  {
    if n > 0 {
      assert seq(n, i => AddRef)[1..] == seq(n - 1, i => AddRef);
      AddRefsCount(AddRefStep(s), n - 1);
    }
  }

  lemma {:induction false} ReleasesCount(s: FaceState, n: nat)
    requires s.refCount >= n
    ensures Run(s, seq(n, i => Release)) == s.(refCount := s.refCount - n)
    decreases n
  {
    if n > 0 {
      assert seq(n, i => Release)[1..] == seq(n - 1, i => Release);
      ReleasesCount(ReleaseStep(s), n - 1);
    }
  }

  lemma {:induction false} RunAppend(s: FaceState, a: seq<FaceOp>, b: seq<FaceOp>)
    ensures Run(s, a + b) == Run(Run(s, a), b)
    decreases |a|
  {
    if a != [] {
      assert (a + b)[0] == a[0];
      assert (a + b)[1..] == a[1..] + b;
      var t := match a[0]
        case AddRef => AddRefStep(s)
        case Release => ReleaseStep(s)
        case Dispose => DisposeStep(s);
      RunAppend(t, a[1..], b);
    } else {
      assert a + b == b;
    }
  }

  /**
   * A fresh face that is taken n times and given back n times still holds
   * its native face; one Release more releases it.
   */
  lemma DisposedOnlyAfterLastRelease(handle: nat, n: nat)
    requires handle != 0
    ensures Run(NewFace(handle), Balanced(n)) == NewFace(handle)
    ensures Run(NewFace(handle), Balanced(n) + [Release]) == FaceState(0, -1, [handle])
  {
    var s := NewFace(handle);
    RunAppend(s, seq(n, i => AddRef), seq(n, i => Release));
    AddRefsCount(s, n);
    ReleasesCount(s.(refCount := n), n);
    RunAppend(s, Balanced(n), [Release]);
  }

  /** FontFace. */
  class FontFace {
    var handle: nat
    var refCount: int
    var released: seq<nat>

    function State(): FaceState
      reads this
    {
      FaceState(handle, refCount, released)
    }

    constructor (h: nat)
      ensures State() == NewFace(h)
    {
      handle := h;
      refCount := 0;
      released := [];
    }

    method Dispose()
      modifies this`handle, this`released
      ensures State() == DisposeStep(old(State()))
    {
      if handle != 0 {
        released := released + [handle];
        handle := 0;
      }
    }

    method AddRef()
      modifies this`refCount
      ensures State() == AddRefStep(old(State()))
    {
      refCount := refCount + 1;
    }

    method Release()
      modifies this
      ensures State() == ReleaseStep(old(State()))
    {
      refCount := refCount - 1;
      if refCount == -1 {
        Dispose();
      }
    }
  }

  // ---- the cache ----

  const CACHE_SIZE: nat := 4

  datatype Slot = Empty | Cached(font: nat, face: FontFace)

  /** The static cache: whether its array exists, the slots, and the most recently used slot. */
  datatype Cache = Cache(present: bool, slots: seq<Slot>, mru: nat)

  /** The lowest empty slot. */
  function FirstEmpty(slots: seq<Slot>): (r: Option<nat>)
    ensures r.Some? ==> r.value < |slots| && slots[r.value].Empty? && forall k :: 0 <= k < r.value ==> slots[k].Cached?
    ensures r.None? ==> forall k :: 0 <= k < |slots| ==> slots[k].Cached?
  {
    if slots == [] then None
    else if slots[0].Empty? then Some(0)
    else match FirstEmpty(slots[1..])
      case None => None
      case Some(i) => Some(i + 1)
  }

  /** The lowest slot holding font. */
  function FindFont(slots: seq<Slot>, font: nat): (r: Option<nat>)
    ensures r.Some? ==> r.value < |slots| && slots[r.value].Cached? && slots[r.value].font == font
    ensures r.Some? ==> forall k :: 0 <= k < r.value ==> !(slots[k].Cached? && slots[k].font == font)
    ensures r.None? ==> forall k :: 0 <= k < |slots| ==> !(slots[k].Cached? && slots[k].font == font)
  {
    if slots == [] then None
    else if slots[0].Cached? && slots[0].font == font then Some(0)
    else match FindFont(slots[1..], font)
      case None => None
      case Some(i) => Some(i + 1)
  }

  /**
   * What the cache keeps: four slots while the array exists and none once
   * it is dropped, an MRU index within them, each font in one slot at
   * most, each face in one slot at most, and the occupied slots first.
   */
  predicate WellFormed(c: Cache)
  {
    && c.mru < CACHE_SIZE
    && (c.present ==> |c.slots| == CACHE_SIZE)
    && (!c.present ==> c.slots == [])
    && (forall i, j :: 0 <= i < j < |c.slots| && c.slots[i].Cached? && c.slots[j].Cached? ==>
          c.slots[i].font != c.slots[j].font && c.slots[i].face != c.slots[j].face)
    && (forall i, j :: 0 <= i < j < |c.slots| && c.slots[i].Empty? ==> c.slots[j].Empty?)
  }

  /** The faces a cache holds. */
  function Faces(c: Cache): set<FontFace>
  {
    set i | 0 <= i < |c.slots| && c.slots[i].Cached? :: c.slots[i].face
  }

  /** The outcome of GetFontFace on the cache. */
  datatype Lookup = Lookup(cache: Cache, face: FontFace, hit: bool, bumped: Option<FontFace>)

  /**
   * The slot a new entry takes: the lowest empty one, and when every slot
   * is taken the one after the MRU slot.
   */
  function InsertSlot(slots: seq<Slot>, mru: nat): (i: nat)
    requires |slots| == CACHE_SIZE
    ensures i < CACHE_SIZE
  {
    match FirstEmpty(slots)
    case Some(i) => i
    case None => (mru + 1) % CACHE_SIZE
  }

  /**
   * GetFontFace: the MRU slot when it holds the font; otherwise the
   * lowest slot holding it, which becomes MRU; otherwise (or when there
   * is no array) a new face made for the font goes into InsertSlot,
   * evicting its occupant, and becomes MRU.
   */
  function GetStep(c: Cache, font: nat, newFace: FontFace): Lookup
    requires WellFormed(c)
  {
    if c.present && c.slots[c.mru].Cached? && c.slots[c.mru].font == font then
      Lookup(c, c.slots[c.mru].face, true, None)
    else if c.present && FindFont(c.slots, font).Some? then
      var i := FindFont(c.slots, font).value;
      Lookup(c.(mru := i), c.slots[i].face, true, None)
    else
      var slots := if c.present then c.slots else seq(CACHE_SIZE, i => Empty);
      var i := InsertSlot(slots, c.mru);
      var bumped := if slots[i].Cached? then Some(slots[i].face) else None;
      Lookup(Cache(true, slots[i := Cached(font, newFace)], i), newFace, false, bumped)
  }

  /**
   * Afterwards the font sits in the MRU slot with the face returned, and
   * the cache stays well formed as long as the new face was not cached.
   */
  lemma GetStepKeepsCache(c: Cache, font: nat, newFace: FontFace)
    requires WellFormed(c) && newFace !in Faces(c)
    ensures var r := GetStep(c, font, newFace);
      && WellFormed(r.cache)
      && r.cache.slots[r.cache.mru] == Cached(font, r.face)
  {
    var r := GetStep(c, font, newFace);
    if !r.hit {
      var slots := if c.present then c.slots else seq(CACHE_SIZE, i => Empty);
      var i := InsertSlot(slots, c.mru);
      var s := r.cache.slots;
      assert s == slots[i := Cached(font, newFace)];
      forall a, b | 0 <= a < b < |s| && s[a].Cached? && s[b].Cached?
        ensures s[a].font != s[b].font && s[a].face != s[b].face
      {
        if a != i && b != i {
          assert s[a] == slots[a] && s[b] == slots[b];
        } else if a == i {
          assert s[b] == slots[b];
          assert c.present && slots[b] == c.slots[b] && slots[b].face in Faces(c);
        } else {
          assert s[a] == slots[a];
          assert c.present && slots[a] == c.slots[a] && slots[a].face in Faces(c);
        }
      }
      forall a, b | 0 <= a < b < |s| && s[a].Empty?
        ensures s[b].Empty?
      {
        assert a != i;
        if FirstEmpty(slots).None? {
          assert false;
        }
        assert i < a;
      }
    }
  }

  /**
   * A lookup hits exactly when the array exists and holds the font, and
   * a hit hands out the face cached for it and changes nothing but the
   * MRU index.
   */
  lemma GetStepHits(c: Cache, font: nat, newFace: FontFace)
    requires WellFormed(c)
    ensures var r := GetStep(c, font, newFace);
      && (r.hit <==> c.present && exists i :: 0 <= i < |c.slots| && c.slots[i] == Cached(font, r.face))
      && (r.hit ==> r.cache == c.(mru := r.cache.mru) && r.bumped.None?)
  {
    var r := GetStep(c, font, newFace);
    if c.present && !r.hit {
      assert FindFont(c.slots, font).None?;
    }
  }

  /**
   * A miss puts the new face in the lowest empty slot, or, with every
   * slot taken, in the slot after the MRU one, evicting its face; no other
   * slot changes.
   */
  lemma GetStepInserts(c: Cache, font: nat, newFace: FontFace)
    requires WellFormed(c) && c.present
    ensures var r := GetStep(c, font, newFace);
      !r.hit ==>
        && r.face == newFace
        && (FirstEmpty(c.slots).Some? ==> r.cache.mru == FirstEmpty(c.slots).value && r.bumped.None?)
        && (FirstEmpty(c.slots).None? ==>
              && r.cache.mru == (c.mru + 1) % CACHE_SIZE
              && r.bumped == Some(c.slots[r.cache.mru].face))
        && r.cache.slots == c.slots[r.cache.mru := Cached(font, newFace)]
  {
  }

  /** A face is evicted only from a full cache: while a slot is free, lookups never bump. */
  lemma EvictOnlyWhenFull(c: Cache, font: nat, newFace: FontFace)
    requires WellFormed(c)
    requires !c.present || exists k :: 0 <= k < |c.slots| && c.slots[k].Empty?
    ensures GetStep(c, font, newFace).bumped.None?
  {
    if c.present {
      var k :| 0 <= k < |c.slots| && c.slots[k].Empty?;
      assert FirstEmpty(c.slots).Some?;
    }
  }

  /** The cache object: Font's static fields. */
  class FontFaceCache {
    var present: bool
    var slots: seq<Slot>
    var mru: nat

    function State(): Cache
      reads this
    {
      Cache(present, slots, mru)
    }

    /** The static fields before any Font is used: no array and MRU 0. */
    constructor ()
      ensures State() == Cache(false, [], 0)
    {
      present := false;
      slots := [];
      mru := 0;
    }

    /**
     * Font.GetFontFace for font: the cached face with one more reference,
     * or a face made from newHandle, cached with one reference, with the
     * face it evicted released.
     */
    method GetFontFace(font: nat, newHandle: nat) returns (face: FontFace)
      requires WellFormed(State())
      modifies this, Faces(State())
      ensures var r := GetStep(old(State()), font, face);
        && State() == r.cache && face == r.face
        && (r.hit ==> face.State() == AddRefStep(old(face.State())))
        && (!r.hit ==> fresh(face) && face.State() == AddRefStep(NewFace(newHandle)))
        && (r.bumped.Some? ==> r.bumped.value in old(Faces(State())))
        && (forall f :: f in old(Faces(State())) && Some(f) == r.bumped ==> f.State() == ReleaseStep(old(f.State())))
        && (forall f :: f in old(Faces(State())) && f != face && Some(f) != r.bumped ==> f.State() == old(f.State()))
    {
      var found: Option<FontFace> := None;
      if present {
        var e := slots[mru];
        if e.Cached? && e.font == font {
          assert e.face in Faces(State());
          e.face.AddRef();
          found := Some(e.face);
        } else {
          found := LookupFontFaceSlow(font);
        }
      }
      if found.Some? {
        face := found.value;
      } else {
        face := AddFontFaceToCache(font, newHandle);
      }
    }

    /** The search of every slot for font; a hit takes a reference and becomes MRU. */
    method LookupFontFaceSlow(font: nat) returns (found: Option<FontFace>)
      requires WellFormed(State()) && present
      requires !(slots[mru].Cached? && slots[mru].font == font)
      modifies this`mru, Faces(State())
      ensures FindFont(slots, font).None? ==> found.None? && mru == old(mru)
      ensures FindFont(slots, font).Some? ==>
        && mru == FindFont(slots, font).value
        && found == Some(slots[mru].face)
        && found.value.State() == AddRefStep(old(found.value.State()))
      ensures forall f :: f in old(Faces(State())) && Some(f) != found ==> f.State() == old(f.State())
    {
      found := None;
      var i := 0;
      while i < CACHE_SIZE
        invariant 0 <= i <= CACHE_SIZE
        invariant forall k :: 0 <= k < i ==> !(slots[k].Cached? && slots[k].font == font)
        invariant mru == old(mru)
      {
        if slots[i].Cached? && slots[i].font == font {
          assert slots[i].face in Faces(State());
          slots[i].face.AddRef();
          found := Some(slots[i].face);
          mru := i;
          return;
        }
        i := i + 1;
      }
    }

    /**
     * AddFontFaceToCache: a face made for the font takes the lowest empty
     * slot (the array made if need be), or the slot after the MRU one.
     */
    method AddFontFaceToCache(font: nat, newHandle: nat) returns (face: FontFace)
      requires WellFormed(State())
      requires !present || FindFont(slots, font).None?
      modifies this, Faces(State())
      ensures var r := GetStep(old(State()), font, face);
        && State() == r.cache && face == r.face && !r.hit
        && fresh(face) && face.State() == AddRefStep(NewFace(newHandle))
        && (r.bumped.Some? ==> r.bumped.value in old(Faces(State())))
        && (forall f :: f in old(Faces(State())) && Some(f) == r.bumped ==> f.State() == ReleaseStep(old(f.State())))
        && (forall f :: f in old(Faces(State())) && Some(f) != r.bumped ==> f.State() == old(f.State()))
    {
      face := new FontFace(newHandle);
      if !present {
        slots := seq(CACHE_SIZE, i => Empty);
        present := true;
      }
      var start := slots;
      mru := (mru + 1) % CACHE_SIZE;
      var i := 0;
      while i < CACHE_SIZE
        invariant 0 <= i <= CACHE_SIZE
        invariant forall k :: 0 <= k < i ==> slots[k].Cached?
        invariant mru == (old(mru) + 1) % CACHE_SIZE
      {
        if slots[i].Empty? {
          mru := i;
          break;
        }
        i := i + 1;
      }
      assert mru == InsertSlot(start, old(mru));
      var bumped := slots[mru];
      slots := slots[mru := Cached(font, face)];
      face.AddRef();
      if bumped.Cached? {
        assert bumped.face in old(Faces(State()));
        bumped.face.Release();
      }
    }

    /**
     * ResetFontFaceCache: the array is dropped and the cache's reference
     * to each face it held is given back.
     */
    method ResetFontFaceCache()
      requires WellFormed(State())
      modifies this, Faces(State())
      ensures State() == Cache(false, [], old(mru))
      ensures forall f :: f in old(Faces(State())) ==> f.State() == ReleaseStep(old(f.State()))
    {
      var held := slots;
      present := false;
      slots := [];
      var i := 0;
      while i < |held|
        invariant 0 <= i <= |held|
        invariant forall k :: 0 <= k < i && held[k].Cached? ==> held[k].face.State() == ReleaseStep(old(held[k].face.State()))
        invariant forall k :: i <= k < |held| && held[k].Cached? ==> held[k].face.State() == old(held[k].face.State())
        invariant State() == Cache(false, [], old(mru))
      {
        if held[i].Cached? {
          held[i].face.Release();
        }
        i := i + 1;
      }
    }
  }
}
