/**
 * Per-character attributes of the text itemizer
 * (MS/internal/Text/TextStubs.cs): the CharAttribute flags each UTF-16
 * code unit gets from the classifier, the flags a span of text gets from
 * the attributes of its characters, and the runs of digit and non-digit
 * characters.
 */
module CharAttributes {

  /** A UTF-16 code unit (C#'s char). */
  type WChar = bv16

  /** ItemizerHelper.IsExtendedCharacter: the top five bits are 11011. */
  function IsExtendedCharacter(ch: WChar): (r: bool)
  {
    (ch & 0xF800) == 0xD800
  }

  /** The mask test picks out exactly the surrogate code units, U+D800 to U+DFFF. */
  lemma ExtendedIsSurrogate(ch: WChar)
    ensures IsExtendedCharacter(ch) <==> 0xD800 <= ch <= 0xDFFF
  {
  }

  /** What IClassification.GetCharAttribute answers for a character. */
  datatype CharClass = CharClass(
    isCombining: bool, needsCaretInfo: bool, isIndic: bool,
    isDigit: bool, isLatin: bool, isStrong: bool)

  // CharAttribute flags
  const IS_COMBINING: bv8 := 0x01
  const NEEDS_CARET_INFO: bv8 := 0x02
  const IS_INDIC: bv8 := 0x04
  const IS_LATIN: bv8 := 0x08
  const IS_STRONG: bv8 := 0x10
  const IS_EXTENDED: bv8 := 0x20

  function Flag(b: bool, f: bv8): bv8
  {
    if b then f else 0
  }

  /** charAttribute[i]: the classifier's answers, and IsExtended for a surrogate, as one mask. */
  function AttrOf(c: CharClass, ch: WChar): bv8
  {
    Flag(c.isCombining, IS_COMBINING) | Flag(c.needsCaretInfo, NEEDS_CARET_INFO)
    | Flag(c.isLatin, IS_LATIN) | Flag(c.isIndic, IS_INDIC)
    | Flag(c.isStrong, IS_STRONG) | Flag(IsExtendedCharacter(ch), IS_EXTENDED)
  }

  predicate Has(a: bv8, f: bv8)
  {
    a & f != 0
  }

  /**
   * Each flag of the mask reads back the classifier's answer (IsExtended
   * whether the character is a surrogate), and no other bit is set; the
   * digit answer is not kept in the mask.
   */
  lemma AttrOfReadsBack(c: CharClass, ch: WChar)
    ensures var a := AttrOf(c, ch);
      && (Has(a, IS_COMBINING) <==> c.isCombining)
      && (Has(a, NEEDS_CARET_INFO) <==> c.needsCaretInfo)
      && (Has(a, IS_INDIC) <==> c.isIndic)
      && (Has(a, IS_LATIN) <==> c.isLatin)
      && (Has(a, IS_STRONG) <==> c.isStrong)
      && (Has(a, IS_EXTENDED) <==> 0xD800 <= ch <= 0xDFFF)
      && a & 0xC0 == 0
  {
    ExtendedIsSurrogate(ch);
  }

  // ---- the flags of a span, characters lo .. hi-1 ----

  /** Some character of the span has flag f. */
  predicate AnyHas(a: seq<bv8>, lo: nat, hi: nat, f: bv8)
    requires lo <= hi <= |a|
  {
    exists i :: lo <= i < hi && Has(a[i], f)
  }

  /** Some strong character of the span lacks flag f. */
  predicate StrongWithout(a: seq<bv8>, lo: nat, hi: nat, f: bv8)
    requires lo <= hi <= |a|
  {
    exists i :: lo <= i < hi && Has(a[i], IS_STRONG) && !Has(a[i], f)
  }

  /** Some strong character of the span is Indic and not Latin. */
  predicate StrongIndic(a: seq<bv8>, lo: nat, hi: nat)
    requires lo <= hi <= |a|
  {
    exists i :: lo <= i < hi && StrongIndicChar(a[i])
  }

  /** The strong characters of the span. */
  function CountStrong(a: seq<bv8>, lo: nat, hi: nat): nat
    requires lo <= hi <= |a|
    decreases hi - lo
  {
    if lo == hi then 0 else CountStrong(a, lo, hi - 1) + (if Has(a[hi - 1], IS_STRONG) then 1 else 0)
  }

  /** The strong Latin characters of the span. */
  function CountLatin(a: seq<bv8>, lo: nat, hi: nat): nat
    requires lo <= hi <= |a|
    decreases hi - lo
  {
    if lo == hi then 0
    else CountLatin(a, lo, hi - 1) + (if Has(a[hi - 1], IS_STRONG) && Has(a[hi - 1], IS_LATIN) then 1 else 0)
  }

  predicate StrongIndicChar(x: bv8)
  {
    Has(x, IS_STRONG) && !Has(x, IS_LATIN) && Has(x, IS_INDIC)
  }

  /** The strong characters of the span that are Indic and not Latin. */
  function CountIndic(a: seq<bv8>, lo: nat, hi: nat): nat
    requires lo <= hi <= |a|
    decreases hi - lo
  {
    if lo == hi then 0
    else CountIndic(a, lo, hi - 1) + (if StrongIndicChar(a[hi - 1]) then 1 else 0)
  }

  /**
   * The counts decide the script flags: some strong Indic character
   * exactly when the Indic count is positive, and every strong character
   * Latin exactly when the Latin count reaches the strong count; there is
   * a strong character exactly when the strong count is positive.
   */
  lemma {:induction false} CountsDecideFlags(a: seq<bv8>, lo: nat, hi: nat)
    requires lo <= hi <= |a|
    ensures CountIndic(a, lo, hi) > 0 <==> StrongIndic(a, lo, hi)
    ensures CountLatin(a, lo, hi) <= CountStrong(a, lo, hi)
    ensures CountLatin(a, lo, hi) == CountStrong(a, lo, hi) <==> !StrongWithout(a, lo, hi, IS_LATIN)
    ensures CountStrong(a, lo, hi) > 0 <==> AnyHas(a, lo, hi, IS_STRONG)
    decreases hi - lo
  {
    if lo < hi {
      CountsDecideFlags(a, lo, hi - 1);
      var x := a[hi - 1];
      if StrongIndic(a, lo, hi) && !StrongIndic(a, lo, hi - 1) {
        assert StrongIndicChar(x);
      }
      if StrongWithout(a, lo, hi, IS_LATIN) && !StrongWithout(a, lo, hi - 1, IS_LATIN) {
        assert Has(x, IS_STRONG) && !Has(x, IS_LATIN);
      }
      if AnyHas(a, lo, hi, IS_STRONG) && !AnyHas(a, lo, hi - 1, IS_STRONG) {
        assert Has(x, IS_STRONG);
      }
    }
  }

  /** The hasCombiningMark scan: stops at the first combining mark. */
  method ScanCombining(a: seq<bv8>, lo: nat, hi: nat) returns (found: bool)
    requires lo <= hi <= |a|
    ensures found <==> AnyHas(a, lo, hi, IS_COMBINING)
  {
    found := false;
    var i := lo;
    while i < hi
      invariant lo <= i <= hi
      invariant !AnyHas(a, lo, i, IS_COMBINING)
    {
      if Has(a[i], IS_COMBINING) {
        found := true;
        return;
      }
      i := i + 1;
    }
  }

  /** The needsCaretInfo scan: false at the first strong character without NeedsCaretInfo. */
  method ScanNeedsCaretInfo(a: seq<bv8>, lo: nat, hi: nat) returns (needs: bool)
    requires lo <= hi <= |a|
    ensures needs <==> !StrongWithout(a, lo, hi, NEEDS_CARET_INFO)
  {
    needs := true;
    var i := lo;
    while i < hi
      invariant lo <= i <= hi
      invariant !StrongWithout(a, lo, i, NEEDS_CARET_INFO)
    {
      if Has(a[i], IS_STRONG) && !Has(a[i], NEEDS_CARET_INFO) {
        needs := false;
        return;
      }
      i := i + 1;
    }
  }

  /** The scan that counts strong, Latin and Indic characters and looks for extended ones. */
  method ScanScripts(a: seq<bv8>, lo: nat, hi: nat) returns (strong: nat, latin: nat, indic: nat, hasExtended: bool)
    requires lo <= hi <= |a|
    ensures strong == CountStrong(a, lo, hi) && latin == CountLatin(a, lo, hi) && indic == CountIndic(a, lo, hi)
    ensures hasExtended <==> AnyHas(a, lo, hi, IS_EXTENDED)
  {
    strong, latin, indic, hasExtended := 0, 0, 0, false;
    var i := lo;
    while i < hi
      invariant lo <= i <= hi
      invariant strong == CountStrong(a, lo, i) && latin == CountLatin(a, lo, i) && indic == CountIndic(a, lo, i)
      invariant hasExtended <==> AnyHas(a, lo, i, IS_EXTENDED)
    {
      if Has(a[i], IS_EXTENDED) {
        hasExtended := true;
      }
      if Has(a[i], IS_STRONG) {
        strong := strong + 1;
        if Has(a[i], IS_LATIN) {
          latin := latin + 1;
        } else if Has(a[i], IS_INDIC) {
          indic := indic + 1;
        }
      }
      i := i + 1;
    }
  }

  // ---- digit runs ----

  /** A maximal run of characters with the same digit value: [start, end). */
  datatype Run = Run(start: nat, end: nat, isDigit: bool)

  /**
   * The runs cut a text of |d| characters into non-empty, adjacent pieces
   * from 0 to |d|, each holding one digit value, neighbours holding
   * different ones.
   */
  predicate Partitions(rs: seq<Run>, d: seq<bool>)
  {
    && |rs| >= 1
    && rs[0].start == 0 && rs[|rs| - 1].end == |d|
    && (forall k :: 0 <= k < |rs| ==> rs[k].start < rs[k].end <= |d|)
    && (forall k :: 0 <= k < |rs| - 1 ==> rs[k].end == rs[k + 1].start && rs[k].isDigit != rs[k + 1].isDigit)
    && (forall k, j :: 0 <= k < |rs| && rs[k].start <= j < rs[k].end ==> d[j] == rs[k].isDigit)
  }

  /** The digit runs of a non-empty text, built from its end. */
  function Runs(d: seq<bool>): (rs: seq<Run>)
    requires |d| >= 1
    ensures |rs| >= 1
    decreases |d|
  {
    if |d| == 1 then [Run(0, 1, d[0])]
    else
      var n := |d|;
      var prefix := Runs(d[..n - 1]);
      var last := prefix[|prefix| - 1];
      if d[n - 1] == last.isDigit then prefix[..|prefix| - 1] + [Run(last.start, n, last.isDigit)]
      else prefix + [Run(n - 1, n, d[n - 1])]
  }

  /** The runs of a text partition it into maximal runs of one digit value. */
  lemma {:induction false} RunsPartition(d: seq<bool>)
    requires |d| >= 1
    ensures Partitions(Runs(d), d)
    decreases |d|
  {
    var n := |d|;
    if n > 1 {
      var p := Runs(d[..n - 1]);
      RunsPartition(d[..n - 1]);
      if d[n - 1] == p[|p| - 1].isDigit {
        ExtendLastRun(p, d);
      } else {
        AppendRun(p, d);
      }
    }
  }

  /** A character with the last run's value lengthens that run. */
  lemma ExtendLastRun(p: seq<Run>, d: seq<bool>)
    requires |d| >= 2 && Partitions(p, d[..|d| - 1]) && d[|d| - 1] == p[|p| - 1].isDigit
    ensures Partitions(p[..|p| - 1] + [Run(p[|p| - 1].start, |d|, p[|p| - 1].isDigit)], d)
  {
    var n := |d|;
    var last := p[|p| - 1];
    var rs := p[..|p| - 1] + [Run(last.start, n, last.isDigit)];
    assert forall k :: 0 <= k < |p| - 1 ==> rs[k] == p[k];
    forall k, j | 0 <= k < |rs| && rs[k].start <= j < rs[k].end
      ensures d[j] == rs[k].isDigit
    {
      if j < n - 1 {
        assert d[j] == d[..n - 1][j];
      }
    }
  }

  /** A character with the other value starts a run of its own. */
  lemma AppendRun(p: seq<Run>, d: seq<bool>)
    requires |d| >= 2 && Partitions(p, d[..|d| - 1]) && d[|d| - 1] != p[|p| - 1].isDigit
    ensures Partitions(p + [Run(|d| - 1, |d|, d[|d| - 1])], d)
  {
    var n := |d|;
    var rs := p + [Run(n - 1, n, d[n - 1])];
    forall k | 0 <= k < |rs|
      ensures rs[k].start < rs[k].end <= n
    {
      if k < |p| {
        assert rs[k] == p[k];
      }
    }
    forall k | 0 <= k < |rs| - 1
      ensures rs[k].end == rs[k + 1].start && rs[k].isDigit != rs[k + 1].isDigit
    {
      assert rs[k] == p[k];
      if k + 1 < |p| {
        assert rs[k + 1] == p[k + 1];
      }
    }
    forall k, j | 0 <= k < |rs| && rs[k].start <= j < rs[k].end
      ensures d[j] == rs[k].isDigit
    {
      if k < |p| {
        assert rs[k] == p[k];
        assert d[j] == d[..n - 1][j];
      }
    }
  }

  /** With no number culture every digit value is false, and there is one run: the whole text. */
  lemma {:induction false} NoCultureOneRun(n: nat)
    requires n >= 1
    ensures Runs(seq(n, i => false)) == [Run(0, n, false)]
  {
    if n > 1 {
      assert seq(n, i => false)[..n - 1] == seq(n - 1, i => false);
      NoCultureOneRun(n - 1);
    }
  }
}
