/**
 * DWriteTypeConverter (MS/internal/Text/TextNotStubs.cs): the switches
 * between the managed font enumerations and DirectWrite's.  Both sides
 * are C# enums, so either may hold any int; a value no case names makes
 * the converter throw InvalidOperationException, which is None here.
 *
 * Also the OpenType table tags, which pack four characters into an int.
 */
module DWriteConverters {
  import opened HResults

  /**
   * A switch between the two enumerations, as the pairs of values its
   * cases name: (DirectWrite value, managed value).
   */
  type CaseTable = seq<(int, int)>

  /** The managed value of the first case naming DirectWrite value d. */
  function ToManaged(t: CaseTable, d: int): (r: Option<int>)
    ensures r.Some? <==> exists i :: 0 <= i < |t| && t[i].0 == d
    ensures r.Some? ==> exists i :: 0 <= i < |t| && t[i] == (d, r.value)
  {
    if t == [] then None
    else if t[0].0 == d then Some(t[0].1)
    else var r := ToManaged(t[1..], d);
      assert r.Some? ==> exists i :: 0 <= i < |t[1..]| && t[1..][i] == (d, r.value);
      r
  }

  /** The DirectWrite value of the first case naming managed value m. */
  function ToDWrite(t: CaseTable, m: int): (r: Option<int>)
    ensures r.Some? <==> exists i :: 0 <= i < |t| && t[i].1 == m
    ensures r.Some? ==> exists i :: 0 <= i < |t| && t[i] == (r.value, m)
  {
    if t == [] then None
    else if t[0].1 == m then Some(t[0].0)
    else var r := ToDWrite(t[1..], m);
      assert r.Some? ==> exists i :: 0 <= i < |t[1..]| && t[1..][i] == (r.value, m);
      r
  }

  /** No two cases name the same value on either side. */
  predicate OneToOne(t: CaseTable)
  {
    forall i, j :: 0 <= i < |t| && 0 <= j < |t| && i != j ==> t[i].0 != t[j].0 && t[i].1 != t[j].1
  }

  /** A one-to-one switch and its reverse undo each other. */
  lemma {:induction false} TableRoundTrip(t: CaseTable, x: int)
    requires OneToOne(t)
    ensures ToManaged(t, x).Some? ==> ToDWrite(t, ToManaged(t, x).value) == Some(x)
    ensures ToDWrite(t, x).Some? ==> ToManaged(t, ToDWrite(t, x).value) == Some(x)
  {
    if t != [] {
      var u := t[1..];
      assert OneToOne(u) by {
        forall i, j | 0 <= i < |u| && 0 <= j < |u| && i != j
          ensures u[i].0 != u[j].0 && u[i].1 != u[j].1
        {
          assert u[i] == t[i + 1] && u[j] == t[j + 1];
        }
      }
      TableRoundTrip(u, x);
      if t[0].0 != x && ToManaged(t, x).Some? {
        var m := ToManaged(u, x).value;
        var i :| 0 <= i < |u| && u[i] == (x, m);
        assert t[i + 1] == (x, m);
        assert t[0].1 != m;
      }
      if t[0].1 != x && ToDWrite(t, x).Some? {
        var d := ToDWrite(u, x).value;
        var i :| 0 <= i < |u| && u[i] == (d, x);
        assert t[i + 1] == (d, x);
        assert t[0].0 != d;
      }
    }
  }

  /** The cases of the style switches: normal, italic, oblique. */
  const STYLES: CaseTable := [(0, 0), (2, 2), (1, 1)]

  /**
   * The cases of the stretch switches, Undefined (0) through
   * UltraExpanded (9); Medium shares Normal's value 5 and needs no case.
   */
  const STRETCHES: CaseTable := [(0, 0), (1, 1), (2, 2), (3, 3), (4, 4), (5, 5), (6, 6), (7, 7), (8, 8), (9, 9)]

  /** The cases of the simulation switches: bold, oblique, none and bold|oblique. */
  const SIMULATIONS: CaseTable := [(1, 1), (2, 2), (0, 0), (3, 3)]

  /**
   * The named cases of the weight switches, Thin (100) to ExtraBlack
   * (950); SemiLight (350) has no managed name and is left to the default.
   */
  const WEIGHTS: CaseTable := [(100, 100), (200, 200), (300, 300), (400, 400), (500, 500),
                               (600, 600), (700, 700), (800, 800), (900, 900), (950, 950)]

  /** Convert(DWRITE_FONT_STYLE). */
  function StyleFromDWrite(s: int): (r: Option<int>)
    ensures r.Some? <==> 0 <= s <= 2
    ensures r.Some? ==> r.value == s
  {
    assert STYLES[0] == (0, 0) && STYLES[1] == (2, 2) && STYLES[2] == (1, 1);
    ToManaged(STYLES, s)
  }

  /** Convert(FontStyle). */
  function StyleToDWrite(s: int): (r: Option<int>)
    ensures r.Some? <==> 0 <= s <= 2
    ensures r.Some? ==> r.value == s
  {
    assert STYLES[0] == (0, 0) && STYLES[1] == (2, 2) && STYLES[2] == (1, 1);
    ToDWrite(STYLES, s)
  }

  /** Every case of a table names the same number on both sides. */
  predicate SameNumbers(t: CaseTable)
  {
    forall i :: 0 <= i < |t| ==> t[i].0 == t[i].1
  }

  /** Convert(DWRITE_FONT_STRETCH). */
  function StretchFromDWrite(s: int): (r: Option<int>)
    ensures r.Some? <==> 0 <= s <= 9
    ensures r.Some? ==> r.value == s
  {
    assert forall i :: 0 <= i < |STRETCHES| ==> STRETCHES[i] == (i, i);
    if 0 <= s <= 9 then assert STRETCHES[s] == (s, s); ToManaged(STRETCHES, s)
    else ToManaged(STRETCHES, s)
  }

  /** Convert(FontStretch). */
  function StretchToDWrite(s: int): (r: Option<int>)
    ensures r.Some? <==> 0 <= s <= 9
    ensures r.Some? ==> r.value == s
  {
    assert forall i :: 0 <= i < |STRETCHES| ==> STRETCHES[i] == (i, i);
    if 0 <= s <= 9 then assert STRETCHES[s] == (s, s); ToDWrite(STRETCHES, s)
    else ToDWrite(STRETCHES, s)
  }

  /** Convert(DWRITE_FONT_SIMULATIONS); bold|oblique sits in the default branch of the source's switch. */
  function SimulationsFromDWrite(s: int): (r: Option<int>)
    ensures r.Some? <==> 0 <= s <= 3
    ensures r.Some? ==> r.value == s
  {
    assert SIMULATIONS[0] == (1, 1) && SIMULATIONS[1] == (2, 2) && SIMULATIONS[2] == (0, 0) && SIMULATIONS[3] == (3, 3);
    ToManaged(SIMULATIONS, s)
  }

  /** Convert(FontSimulations). */
  function SimulationsToDWrite(s: int): (r: Option<int>)
    ensures r.Some? <==> 0 <= s <= 3
    ensures r.Some? ==> r.value == s
  {
    assert SIMULATIONS[0] == (1, 1) && SIMULATIONS[1] == (2, 2) && SIMULATIONS[2] == (0, 0) && SIMULATIONS[3] == (3, 3);
    ToDWrite(SIMULATIONS, s)
  }

  /** Convert(DWRITE_FONT_WEIGHT): a named weight by its case, any other weight in 1..999 by value. */
  function WeightFromDWrite(w: int): (r: Option<int>)
    ensures r.Some? <==> 1 <= w <= 999
    ensures r.Some? ==> r.value == w
  {
    WeightTablesKeepValue();
    match ToManaged(WEIGHTS, w)
    case Some(m) => Some(m)
    case None => if 1 <= w <= 999 then Some(w) else None
  }

  /** Convert(FontWeight): a named weight by its case, any other weight in 1..999 by value. */
  function WeightToDWrite(w: int): (r: Option<int>)
    ensures r.Some? <==> 1 <= w <= 999
    ensures r.Some? ==> r.value == w
  {
    WeightTablesKeepValue();
    match ToDWrite(WEIGHTS, w)
    case Some(d) => Some(d)
    case None => if 1 <= w <= 999 then Some(w) else None
  }

  /** The named weights lie in 1..999 and keep their number. */
  lemma WeightTablesKeepValue()
    ensures SameNumbers(WEIGHTS)
    ensures forall i :: 0 <= i < |WEIGHTS| ==> 1 <= WEIGHTS[i].0 <= 999
  {
  }

  /** Cases in ascending order of value. */
  predicate Ascending(t: CaseTable)
  {
    forall i :: 0 < i < |t| ==> t[i - 1].0 < t[i].0
  }

  lemma {:induction false} AscendingApart(t: CaseTable, i: nat, j: nat)
    requires Ascending(t) && i < j < |t|
    ensures t[i].0 < t[j].0
    decreases j - i
  {
    if i + 1 < j {
      AscendingApart(t, i + 1, j);
    }
  }

  /** Ascending cases that name the same number on both sides name no value twice. */
  lemma AscendingOneToOne(t: CaseTable)
    requires Ascending(t) && SameNumbers(t)
    ensures OneToOne(t)
  {
    forall i, j | 0 <= i < |t| && 0 <= j < |t| && i < j
      ensures t[i].0 != t[j].0 && t[i].1 != t[j].1
    {
      AscendingApart(t, i, j);
    }
  }

  /** The switch tables name no value twice. */
  lemma TablesOneToOne()
    ensures OneToOne(STYLES) && OneToOne(STRETCHES) && OneToOne(SIMULATIONS) && OneToOne(WEIGHTS)
  {
    assert OneToOne(STYLES) by {
      forall i, j | 0 <= i < |STYLES| && 0 <= j < |STYLES| && i != j
        ensures STYLES[i].0 != STYLES[j].0 && STYLES[i].1 != STYLES[j].1
      {
      }
    }
    assert OneToOne(SIMULATIONS) by {
      forall i, j | 0 <= i < |SIMULATIONS| && 0 <= j < |SIMULATIONS| && i != j
        ensures SIMULATIONS[i].0 != SIMULATIONS[j].0 && SIMULATIONS[i].1 != SIMULATIONS[j].1
      {
      }
    }
    AscendingOneToOne(STRETCHES);
    AscendingOneToOne(WEIGHTS);
  }

  /**
   * Each pair of converters is mutually inverse: a value converted one way
   * and back is the value it started from, and the values either converter
   * accepts are exactly those the other can return.
   */
  lemma ConvertersRoundTrip(x: int)
    ensures StyleFromDWrite(x).Some? ==> StyleToDWrite(StyleFromDWrite(x).value) == Some(x)
    ensures StyleToDWrite(x).Some? ==> StyleFromDWrite(StyleToDWrite(x).value) == Some(x)
    ensures StretchFromDWrite(x).Some? ==> StretchToDWrite(StretchFromDWrite(x).value) == Some(x)
    ensures StretchToDWrite(x).Some? ==> StretchFromDWrite(StretchToDWrite(x).value) == Some(x)
    ensures SimulationsFromDWrite(x).Some? ==> SimulationsToDWrite(SimulationsFromDWrite(x).value) == Some(x)
    ensures SimulationsToDWrite(x).Some? ==> SimulationsFromDWrite(SimulationsToDWrite(x).value) == Some(x)
    ensures WeightFromDWrite(x).Some? ==> WeightToDWrite(WeightFromDWrite(x).value) == Some(x)
    ensures WeightToDWrite(x).Some? ==> WeightFromDWrite(WeightToDWrite(x).value) == Some(x)
  {
    TablesOneToOne();
    TableRoundTrip(STYLES, x);
    TableRoundTrip(STRETCHES, x);
    TableRoundTrip(SIMULATIONS, x);
  }

  /**
   * An OpenTypeTableTag: characters c0..c3, each one byte wide, packed
   * little-endian as c0 | c1 << 8 | c2 << 16 | c3 << 24.  The fields do
   * not overlap, so the OR is a sum.
   */
  function PackTag(c0: byte, c1: byte, c2: byte, c3: byte): (t: nat)
    ensures t < TWO32
    ensures t % 0x100 == c0 as nat
  {
    c0 as nat + 0x100 * c1 as nat + 0x1_0000 * c2 as nat + 0x100_0000 * c3 as nat
  }

  /** Byte k of a 32-bit tag, the character at offset k in memory. */
  function TagByte(t: nat, k: nat): (b: byte)
    requires k < 4
  {
    (if k == 0 then t % 0x100
     else if k == 1 then (t / 0x100) % 0x100
     else if k == 2 then (t / 0x1_0000) % 0x100
     else (t / 0x100_0000) % 0x100) as byte
  }

  /** Unpacking gives back the four characters, in memory order. */
  lemma PackTagRoundTrip(c0: byte, c1: byte, c2: byte, c3: byte)
    ensures var t := PackTag(c0, c1, c2, c3);
      TagByte(t, 0) == c0 && TagByte(t, 1) == c1 && TagByte(t, 2) == c2 && TagByte(t, 3) == c3
  {
    var t := PackTag(c0, c1, c2, c3);
    var hi := c1 as nat + 0x100 * c2 as nat + 0x1_0000 * c3 as nat;
    assert t == c0 as nat + 0x100 * hi;
    assert t / 0x100 == hi;
    var hi2 := c2 as nat + 0x100 * c3 as nat;
    assert hi == c1 as nat + 0x100 * hi2;
    assert t / 0x1_0000 == hi2;
    assert t / 0x100_0000 == c3 as nat;
  }

  /** Every 32-bit tag is the packing of its own bytes. */
  lemma UnpackTagRoundTrip(t: nat)
    requires t < TWO32
    ensures PackTag(TagByte(t, 0), TagByte(t, 1), TagByte(t, 2), TagByte(t, 3)) == t
  {
    var q1 := t / 0x100;
    var q2 := q1 / 0x100;
    var q3 := q2 / 0x100;
    assert t == t % 0x100 + 0x100 * q1;
    assert q1 == q1 % 0x100 + 0x100 * q2;
    assert q2 == q2 % 0x100 + 0x100 * q3;
    assert q3 < 0x100;
    assert t / 0x1_0000 == q2;
    assert t / 0x100_0000 == q3;
  }

  // The three tags the text stack names
  const TTO_GSUB: nat := PackTag('G' as int as byte, 'S' as int as byte, 'U' as int as byte, 'B' as int as byte)
  const TTO_GPOS: nat := PackTag('G' as int as byte, 'P' as int as byte, 'O' as int as byte, 'S' as int as byte)
  const TTO_GDEF: nat := PackTag('G' as int as byte, 'D' as int as byte, 'E' as int as byte, 'F' as int as byte)

  /** The tags read as their table names in memory order, and are distinct. */
  lemma TableTags()
    ensures TTO_GSUB == 0x4255_5347 && TTO_GPOS == 0x534F_5047 && TTO_GDEF == 0x4645_4447
    ensures TagByte(TTO_GPOS, 1) == 'P' as int as byte && TagByte(TTO_GDEF, 3) == 'F' as int as byte
  {
    PackTagRoundTrip('G' as int as byte, 'P' as int as byte, 'O' as int as byte, 'S' as int as byte);
    PackTagRoundTrip('G' as int as byte, 'D' as int as byte, 'E' as int as byte, 'F' as int as byte);
  }
}
