/**
 * CResourceGen (core/hw/shaders/ShaderGen/ResourceGen.cpp): the build tool
 * that writes compiled pixel shaders into a resource script (.rc) as
 * DWORD arrays, with a header (.h) of resource numbers.
 *
 * Each output file is the text written to it.  Opening a file, the title
 * text and the shader compiler are parameters.
 */
module ResourceGens {
  import opened HResults
  import opened Formats

  /** Words per line of a DWORD array. */
  const ROW_SIZE: nat := 6

  predicate Words32(ws: seq<nat>)
  {
    forall i :: 0 <= i < |ws| ==> ws[i] < TWO32
  }

  /** The little-endian DWORD at index i of a byte buffer. */
  function LeWord(bytes: seq<byte>, i: nat): (w: nat)
    requires 4 * i + 4 <= |bytes|
    ensures w < TWO32
  {
    bytes[4 * i] as nat + bytes[4 * i + 1] as nat * 0x100
    + bytes[4 * i + 2] as nat * 0x1_0000 + bytes[4 * i + 3] as nat * 0x100_0000
  }

  /** The DWORDs WriteDwordArray reads: cbSize / 4 of them, trailing bytes dropped. */
  function Dwords(bytes: seq<byte>, cbSize: nat): (ws: seq<nat>)
    requires cbSize <= |bytes|
    ensures |ws| == cbSize / 4 && Words32(ws)
    ensures forall i :: 0 <= i < |ws| ==> ws[i] == LeWord(bytes, i)
  {
    seq(cbSize / 4, i requires 0 <= i < cbSize / 4 => LeWord(bytes, i))
  }

  /** "0x%08xL". */
  function WordText(w: nat): seq<char>
    requires w < TWO32
  {
    "0x" + Hex8(w) + "L"
  }

  /** The texts of the words, in order. */
  function WordTexts(ws: seq<nat>): (ts: seq<seq<char>>)
    requires Words32(ws)
    ensures |ts| == |ws|
  {
    seq(|ws|, i requires 0 <= i < |ws| => WordText(ws[i]))
  }

  /** Four spaces before the first word of a row. */
  function Indent(i: nat): seq<char>
  {
    if i % ROW_SIZE == 0 then "    " else ""
  }

  /** After word i of n: a newline after the last, ",\n" after the sixth of a row, ", " otherwise. */
  function Sep(i: nat, n: nat): seq<char>
  {
    if i + 1 == n then "\n" else if i % ROW_SIZE + 1 == ROW_SIZE then ",\n" else ", "
  }

  /** The text the loop writes for word i of n, whose own text is t. */
  function Elem(i: nat, n: nat, t: seq<char>): seq<char>
  {
    Indent(i) + t + Sep(i, n)
  }

  /** What the loop has written after k words. */
  function Emitted(ts: seq<seq<char>>, k: nat): seq<char>
    requires k <= |ts|
  {
    if k == 0 then [] else Emitted(ts, k - 1) + Elem(k - 1, |ts|, ts[k - 1])
  }

  // The intended layout, row by row.

  /** The word texts lo .. hi-1 joined by ", ". */
  function Join(ts: seq<seq<char>>, lo: nat, hi: nat): seq<char>
    requires lo < hi <= |ts|
    decreases hi
  {
    if hi == lo + 1 then ts[lo] else Join(ts, lo, hi - 1) + ", " + ts[hi - 1]
  }

  /** End of the row starting at b: six words on, or the end of the array. */
  function RowEnd(b: nat, n: nat): nat
  {
    if b + ROW_SIZE <= n then b + ROW_SIZE else n
  }

  /**
   * The rows from index b: each indented by four spaces, its words joined
   * by ", ", and ended by ",\n", except the last row, ended by "\n".
   */
  function RowsFrom(ts: seq<seq<char>>, b: nat): seq<char>
    requires b <= |ts|
    decreases |ts| - b
  {
    if b == |ts| then []
    else
      var e := RowEnd(b, |ts|);
      "    " + Join(ts, b, e) + (if e == |ts| then "\n" else ",\n") + RowsFrom(ts, e)
  }

  /** The array as it should appear: braces around the rows, then a blank line. */
  function DwordArrayText(ws: seq<nat>): seq<char>
    requires Words32(ws)
  {
    "{\n" + RowsFrom(WordTexts(ws), 0) + "};\n\n"
  }

  /** Fewer than four bytes give an empty array. */
  lemma EmptyArray(bytes: seq<byte>, cbSize: nat)
    requires cbSize <= |bytes| && cbSize < 4
    ensures DwordArrayText(Dwords(bytes, cbSize)) == "{\n};\n\n"
  {
  }

  /** Index 6m + r is at place r of its row. */
  lemma RowPosition(m: nat, r: nat)
    requires r < ROW_SIZE
    ensures (6 * m + r) % ROW_SIZE == r
  {
  }

  /** Within the row starting at b = 6m, the first j words as the loop writes them. */
  lemma {:induction false} RowEmitted(ts: seq<seq<char>>, m: nat, j: nat)
    requires 6 * m < |ts|
    requires 1 <= j <= RowEnd(6 * m, |ts|) - 6 * m
    ensures Emitted(ts, 6 * m + j) == Emitted(ts, 6 * m) + "    " + Join(ts, 6 * m, 6 * m + j) + Sep(6 * m + j - 1, |ts|)
  {
    var b := 6 * m;
    var k := b + j - 1;
    var S := Sep(k, |ts|);
    RowPosition(m, j - 1);
    if j == 1 {
      assert Indent(b) == "    ";
    } else {
      RowEmitted(ts, m, j - 1);
      var E, J, t := Emitted(ts, b), Join(ts, b, k), ts[k];
      assert Indent(k) == [];
      RowPosition(m, j - 2);
      assert Sep(k - 1, |ts|) == ", ";
      assert Emitted(ts, b + j) == Emitted(ts, k) + Elem(k, |ts|, t);
      assert Emitted(ts, k) == E + "    " + J + ", ";
      assert Elem(k, |ts|, t) == [] + t + S;
      Regroup(E, "    ", J, ", ", t, S);
    }
  }

  lemma Regroup(e: seq<char>, a: seq<char>, j: seq<char>, c: seq<char>, t: seq<char>, s: seq<char>)
    ensures (e + a + j + c) + ([] + t + s) == e + a + (j + c + t) + s
  {
  }

  lemma Regroup2(e: seq<char>, a: seq<char>, j: seq<char>, x: seq<char>, r: seq<char>)
    ensures (e + a + j + x) + r == e + (a + j + x + r)
  {
  }

  lemma Assoc(a: seq<char>, b: seq<char>, c: seq<char>)
    ensures (a + b) + c == a + (b + c)
  {
  }

  lemma Regroup3(a: seq<char>, b: seq<char>, c: seq<char>, d: seq<char>)
    ensures (a + b + c) + d == a + (b + c + d)
    ensures (a + b + c) + d == a + b + (c + d)
  {
  }

  /** From a row start b = 6m on, the loop writes exactly the remaining rows. */
  lemma {:induction false} RowsEmitted(ts: seq<seq<char>>, m: nat)
    requires 6 * m <= |ts|
    ensures Emitted(ts, |ts|) == Emitted(ts, 6 * m) + RowsFrom(ts, 6 * m)
    decreases |ts| - 6 * m
  {
    var b := 6 * m;
    if b == |ts| {
      assert RowsFrom(ts, b) == [];
    } else {
      var e := RowEnd(b, |ts|);
      var X := if e == |ts| then "\n" else ",\n";
      RowEmitted(ts, m, e - b);
      RowPosition(m, e - b - 1);
      assert Sep(e - 1, |ts|) == X;
      var R := RowsFrom(ts, e);
      assert RowsFrom(ts, b) == "    " + Join(ts, b, e) + X + R;
      if e < |ts| {
        assert e == 6 * (m + 1);
        RowsEmitted(ts, m + 1);
      } else {
        assert R == [];
      }
      assert Emitted(ts, |ts|) == Emitted(ts, e) + R;
      Regroup2(Emitted(ts, b), "    ", Join(ts, b, e), X, R);
    }
  }

  /** The loop's output is the intended row layout. */
  lemma LoopWritesRows(ts: seq<seq<char>>)
    ensures Emitted(ts, |ts|) == RowsFrom(ts, 0)
  {
    RowsEmitted(ts, 0);
  }

  /** "g_PixelShader_<effect>_<technique>_P0", the name of one shader's data. */
  function ShaderName(effect: seq<char>, technique: seq<char>): seq<char>
  {
    "g_PixelShader_" + effect + "_" + technique + "_P0"
  }

  /** The footer the destructor writes: the total in decimal and in hex. */
  function TotalFooter(cbTotal: nat): seq<char>
    requires cbTotal < TWO32
  {
    "// Total data size = " + SignedDecimal(cbTotal) + " (0x" + Hex8(cbTotal) + ") bytes.\n"
  }

  class ResourceGen {
    var rc: seq<char>                // text of m_pFileRc
    var hpp: seq<char>               // text of m_pFileHpp
    var rcOpen: bool
    var hppOpen: bool
    var cbTotal: nat                 // m_cbTotal
    var enumCurrent: nat             // m_uEnumCurrent
    var effectName: seq<char>        // m_pszEffectName
    var techniqueName: seq<char>     // m_pszTechniqueName

    /** Both are UINTs. */
    predicate Valid()
      reads this
    {
      cbTotal < TWO32 && enumCurrent < TWO32
    }

    /** No file open, nothing written yet. */
    constructor ()
      ensures Valid() && !rcOpen && !hppOpen && cbTotal == 0
      ensures rc == [] && hpp == []
    {
      rc := [];
      hpp := [];
      rcOpen := false;
      hppOpen := false;
      cbTotal := 0;
      enumCurrent := 0;
      effectName := [];
      techniqueName := [];
    }

    /**
     * Initialize: open (and truncate) the .rc file, then the .h file; a
     * file that cannot be opened fails with E_FAIL.  Both get the title,
     * and resource numbers start at enumStart.
     */
    method Initialize(rcOk: bool, hppOk: bool, title: seq<char>, enumStart: nat) returns (hr: HRESULT)
      requires Valid() && enumStart < TWO32
      modifies this`rc, this`hpp, this`rcOpen, this`hppOpen, this`enumCurrent
      ensures Valid()
      ensures !rcOk ==> hr == E_FAIL && !rcOpen && rc == old(rc) && hpp == old(hpp) && enumCurrent == old(enumCurrent)
      ensures rcOk && !hppOk ==> hr == E_FAIL && rcOpen && rc == [] && !hppOpen && hpp == old(hpp)
      ensures rcOk && hppOk ==> hr == S_OK && rcOpen && hppOpen && rc == title && hpp == title && enumCurrent == enumStart
    {
      rcOpen := rcOk;
      if !rcOpen {
        return E_FAIL;
      }
      rc := [];
      hppOpen := hppOk;
      if !hppOpen {
        return E_FAIL;
      }
      hpp := [];
      rc := rc + title;
      hpp := hpp + title;
      enumCurrent := enumStart;
      hr := S_OK;
    }

    /**
     * WriteDwordArray: the first cbSize / 4 words of the buffer as the
     * intended rows inside braces, and cbSize added to the UINT total.
     */
    method WriteDwordArray(bytes: seq<byte>, cbSize: nat)
      requires Valid() && rcOpen && cbSize <= |bytes| && cbSize < TWO32
      modifies this`rc, this`cbTotal
      ensures Valid()
      ensures rc == old(rc) + DwordArrayText(Dwords(bytes, cbSize))
      ensures cbTotal == AddU32(old(cbTotal), cbSize)
    {
      var ws := Dwords(bytes, cbSize);
      var start := rc;
      rc := rc + "{\n";
      WriteWords(ws);
      ghost var body := RowsFrom(WordTexts(ws), 0);
      assert rc == start + "{\n" + body;
      rc := rc + "};\n\n";
      Regroup3(start, "{\n", body, "};\n\n");
      cbTotal := AddU32(cbTotal, cbSize);
    }

    /** The loop of WriteDwordArray: every word, in the intended rows. */
    method WriteWords(ws: seq<nat>)
      requires Words32(ws)
      modifies this`rc
      ensures rc == old(rc) + RowsFrom(WordTexts(ws), 0)
    {
      var ts := WordTexts(ws);
      WriteTexts(ts);
      LoopWritesRows(ts);
    }

    /** The loop itself, over the words' texts. */
    method WriteTexts(ts: seq<seq<char>>)
      modifies this`rc
      ensures rc == old(rc) + Emitted(ts, |ts|)
    {
      var start := rc;
      var n := |ts|;
      var i := 0;
      while i < n
        invariant 0 <= i <= n
        invariant rc == start + Emitted(ts, i)
      {
        ghost var prev := Emitted(ts, i);
        WriteWord(i, n, ts[i]);
        assert Emitted(ts, i + 1) == prev + Elem(i, n, ts[i]);
        Assoc(start, prev, Elem(i, n, ts[i]));
        i := i + 1;
      }
    }

    /** One iteration of the loop, for word i of n whose "0x%08xL" text is t: the pieces it writes make up Elem(i, n, t). */
    method WriteWord(i: nat, n: nat, t: seq<char>)
      modifies this`rc
      ensures rc == old(rc) + Elem(i, n, t)
    {
      var j := i % ROW_SIZE;
      var indent := if j == 0 then "    " else "";
      var sep: seq<char>;
      if i + 1 == n {
        sep := "\n";
      } else {
        sep := "," + (if j + 1 == ROW_SIZE then "\n" else " ");
      }
      rc := rc + indent + t + sep;
    }

    /**
     * WritePixelShader: the shader's RCDATA line, its #define with the
     * next resource number (printed with %d), then its words.  The
     * buffer's size is a SIZE_T passed as a DWORD.
     */
    method WritePixelShader(shader: seq<byte>)
      requires Valid() && rcOpen && hppOpen
      modifies this`rc, this`hpp, this`enumCurrent, this`cbTotal
      ensures Valid()
      ensures rc == old(rc) + ShaderName(effectName, techniqueName) + " RCDATA\n"
        + DwordArrayText(Dwords(shader, |shader| % TWO32))
      ensures hpp == old(hpp) + "#define " + ShaderName(effectName, techniqueName) + " "
        + SignedDecimal(old(enumCurrent)) + "\n"
      ensures enumCurrent == AddU32(old(enumCurrent), 1)
      ensures cbTotal == AddU32(old(cbTotal), |shader| % TWO32)
    {
      rc := rc + ShaderName(effectName, techniqueName) + " RCDATA\n";
      hpp := hpp + "#define " + ShaderName(effectName, techniqueName) + " " + SignedDecimal(enumCurrent) + "\n";
      enumCurrent := AddU32(enumCurrent, 1);
      WriteDwordArray(shader, |shader| % TWO32);
    }

    /**
     * CompileEffect: records the names, compiles (compileHr, the shader
     * bytes) and on success writes the shader; a compilation failure is
     * returned and nothing is written.
     */
    method CompileEffect(compileHr: HRESULT, shader: seq<byte>, technique: seq<char>, effect: seq<char>)
      returns (hr: HRESULT)
      requires Valid() && rcOpen && hppOpen
      modifies this`rc, this`hpp, this`enumCurrent, this`cbTotal, this`effectName, this`techniqueName
      ensures Valid() && effectName == effect && techniqueName == technique
      ensures Failed(compileHr) ==>
        && hr == compileHr && rc == old(rc) && hpp == old(hpp)
        && enumCurrent == old(enumCurrent) && cbTotal == old(cbTotal)
      ensures Succeeded(compileHr) ==>
        && hr == S_OK
        && rc == old(rc) + ShaderName(effect, technique) + " RCDATA\n" + DwordArrayText(Dwords(shader, |shader| % TWO32))
        && hpp == old(hpp) + "#define " + ShaderName(effect, technique) + " " + SignedDecimal(old(enumCurrent)) + "\n"
        && enumCurrent == AddU32(old(enumCurrent), 1)
        && cbTotal == AddU32(old(cbTotal), |shader| % TWO32)
    {
      effectName := effect;
      techniqueName := technique;
      hr := compileHr;
      if Failed(hr) {
        return;
      }
      WritePixelShader(shader);
      hr := S_OK;
    }

    /** The destructor: the .rc file gets the total-size footer; both files are closed. */
    method Close()
      requires Valid()
      modifies this`rc, this`rcOpen, this`hppOpen
      ensures !rcOpen && !hppOpen
      ensures old(rcOpen) ==> rc == old(rc) + TotalFooter(cbTotal)
      ensures !old(rcOpen) ==> rc == old(rc)
    {
      if rcOpen {
        rc := rc + TotalFooter(cbTotal);
        rcOpen := false;
      }
      hppOpen := false;
    }
  }

  /**
   * Two shaders in a row get consecutive resource numbers, and the total
   * counts both buffers.
   */
  method TwoShaders(g: ResourceGen, first: seq<byte>, second: seq<byte>) returns (n1: nat, n2: nat)
    requires g.Valid() && g.rcOpen && g.hppOpen
    modifies g`rc, g`hpp, g`enumCurrent, g`cbTotal, g`effectName, g`techniqueName
    ensures n2 == AddU32(n1, 1)
    ensures g.cbTotal == AddU32(AddU32(old(g.cbTotal), |first| % TWO32), |second| % TWO32)
  {
    n1 := g.enumCurrent;
    var hr := g.CompileEffect(S_OK, first, "T", "A");
    n2 := g.enumCurrent;
    hr := g.CompileEffect(S_OK, second, "T", "B");
  }
}
