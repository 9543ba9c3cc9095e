/**
 * TextAnalyzer.GetBlankGlyphsForControlCharacters
 * (MS/internal/Text/TextStubs.cs): the glyphs WPF shapes a run of control
 * characters into, every one a blank glyph except a hyphen, each its own
 * cluster.  The native lookup of the font's hyphen glyph is a parameter,
 * the glyph index it answers; the buffers are arrays.
 */
module TextAnalyzers {
  import opened CharAttributes

  const CHAR_HYPHEN: WChar := 0x2D
  const USHORT_MAX: nat := 0xFFFF

  /** The glyph of one character of a control-character run. */
  function ControlGlyph(ch: WChar, blankGlyph: nat, hyphenGlyph: nat): nat
  {
    if ch == CHAR_HYPHEN then hyphenGlyph else blankGlyph
  }

  /** The hyphens among the characters. */
  function Hyphens(text: seq<WChar>): nat
  {
    if text == [] then 0
    else Hyphens(text[..|text| - 1]) + (if text[|text| - 1] == CHAR_HYPHEN then 1 else 0)
  }

  /**
   * How many times the font's hyphen glyph is looked up: once at the
   * first hyphen, and again at every later hyphen while the answer is
   * glyph 0.
   */
  function Lookups(text: seq<WChar>, hyphenGlyph: nat): (n: nat)
    ensures Hyphens(text) == 0 ==> n == 0
  {
    if Hyphens(text) == 0 then 0 else if hyphenGlyph == 0 then Hyphens(text) else 1
  }

  /**
   * The count of glyphs is always the text's length; a buffer smaller
   * than that is left alone, a text longer than 65535 characters throws,
   * and otherwise glyph i is the hyphen glyph for a hyphen and the blank
   * glyph for anything else, in cluster i, able to stand alone.
   */
  method GetBlankGlyphsForControlCharacters(text: seq<WChar>, blankGlyphIndex: nat, fontHyphenGlyph: nat,
                                            maxGlyphCount: nat, clusterMap: array<nat>, glyphIndices: array<nat>,
                                            canGlyphAlone: array<int>)
    returns (actualGlyphCount: nat, thrown: bool, lookups: nat)
    requires |text| < 0x1_0000_0000 && maxGlyphCount < 0x1_0000_0000
    requires clusterMap.Length >= maxGlyphCount && glyphIndices.Length >= maxGlyphCount && canGlyphAlone.Length >= maxGlyphCount
    requires clusterMap != glyphIndices
    modifies clusterMap, glyphIndices, canGlyphAlone
    ensures actualGlyphCount == |text|
    ensures thrown <==> maxGlyphCount >= |text| && |text| > USHORT_MAX
    ensures maxGlyphCount < |text| || thrown ==>
      unchanged(clusterMap) && unchanged(glyphIndices) && unchanged(canGlyphAlone) && lookups == 0
    ensures maxGlyphCount >= |text| && !thrown ==>
      && (forall i :: 0 <= i < |text| ==> glyphIndices[i] == ControlGlyph(text[i], blankGlyphIndex, fontHyphenGlyph))
      && (forall i :: 0 <= i < |text| ==> clusterMap[i] == i && canGlyphAlone[i] == 1)
      && (forall j :: |text| <= j < glyphIndices.Length ==> glyphIndices[j] == old(glyphIndices[j]))
      && (forall j :: |text| <= j < clusterMap.Length ==> clusterMap[j] == old(clusterMap[j]))
      && (forall j :: |text| <= j < canGlyphAlone.Length ==> canGlyphAlone[j] == old(canGlyphAlone[j]))
      && lookups == Lookups(text, fontHyphenGlyph)
  {
    actualGlyphCount, thrown, lookups := |text|, false, 0;
    if maxGlyphCount < |text| {
      return;
    }
    if |text| > USHORT_MAX {
      return actualGlyphCount, true, 0;
    }
    var hyphenGlyphIndex := 0;
    var i := 0;
    while i < |text|
      invariant 0 <= i <= |text|
      invariant forall j :: 0 <= j < i ==> glyphIndices[j] == ControlGlyph(text[j], blankGlyphIndex, fontHyphenGlyph)
      invariant forall j :: 0 <= j < i ==> clusterMap[j] == j && canGlyphAlone[j] == 1
      invariant forall j :: i <= j < glyphIndices.Length ==> glyphIndices[j] == old(glyphIndices[j])
      invariant forall j :: i <= j < clusterMap.Length ==> clusterMap[j] == old(clusterMap[j])
      invariant forall j :: i <= j < canGlyphAlone.Length ==> canGlyphAlone[j] == old(canGlyphAlone[j])
      invariant hyphenGlyphIndex == if Hyphens(text[..i]) == 0 then 0 else fontHyphenGlyph
      invariant lookups == Lookups(text[..i], fontHyphenGlyph)
    {
      assert text[..i + 1][..i] == text[..i];
      if text[i] == CHAR_HYPHEN {
        if hyphenGlyphIndex == 0 {
          hyphenGlyphIndex := fontHyphenGlyph;
          lookups := lookups + 1;
        }
        glyphIndices[i] := hyphenGlyphIndex;
      } else {
        glyphIndices[i] := blankGlyphIndex;
      }
      clusterMap[i] := i;
      canGlyphAlone[i] := 1;
      i := i + 1;
    }
    assert text[..i] == text;
  }
}

/**
 * TrueTypeSubsetter.ComputeSubset (MS/internal/Text/TextStubs.cs): what
 * it returns for the code the native subsetter answers.  The subsetter
 * itself is a call outside this model; its error code and the bytes it
 * wrote are parameters.  A throw of FileFormatException is None.
 */
module TrueTypeSubsetters {
  import opened HResults

  const NO_ERROR: int := 0
  const ERR_WOULD_GROW: int := 1007

  /**
   * The subset the native code wrote on success, the whole original font
   * when a subset would be larger, and a throw on any other code.
   */
  function ComputeSubset(fontData: seq<byte>, glyphArray: seq<nat>, errCode: int, written: seq<byte>): (r: Option<seq<byte>>)
    requires 1 <= |glyphArray| <= 0xFFFF
    ensures r.None? <==> errCode != NO_ERROR && errCode != ERR_WOULD_GROW
    ensures errCode == NO_ERROR ==> r == Some(written)
    ensures errCode == ERR_WOULD_GROW ==> r.Some? && |r.value| == |fontData| && forall i :: 0 <= i < |fontData| ==> r.value[i] == fontData[i]
  {
    if errCode == NO_ERROR then Some(written)
    else if errCode == ERR_WOULD_GROW then Some(fontData)
    else None
  }
}
