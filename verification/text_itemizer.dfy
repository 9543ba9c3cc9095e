/**
 * The text itemizer (MS/internal/Text/TextStubs.cs): it walks three lists
 * of text ranges at once (DirectWrite's script analysis, its number
 * substitution, and the digit runs found by the classifier) and cuts the
 * text at every range boundary into spans, each carrying the flags its
 * characters' attributes give it.
 *
 * DirectWrite's two native lists are read-only linked lists of [start, end]
 * pairs; here each is a sequence of pairs, and a pointer into one is the
 * index of its node, the index equal to the list's length standing for
 * null.  A native crash or a managed exception is None.
 */
module TextItemizers {
  import opened HResults
  import opened CharAttributes

  const UINT_MAX: nat := TWO32 - 1

  /** A list of [start, end] text positions. */
  type Ranges = seq<(nat, nat)>

  /** Every position of the list is a uint. */
  predicate Fits(rs: Ranges)
  {
    forall i :: 0 <= i < |rs| ==> rs[i].0 < TWO32 && rs[i].1 < TWO32
  }

  /** Read start, end, start, end, ..., the positions of the list never go down. */
  predicate Sorted(rs: Ranges)
  {
    && (forall i :: 0 <= i < |rs| ==> rs[i].0 <= rs[i].1)
    && (forall i :: 0 <= i < |rs| - 1 ==> rs[i].1 <= rs[i + 1].0)
  }

  predicate WellFormed(rs: Ranges)
  {
    Fits(rs) && Sorted(rs)
  }

  /** A place in a list: a node, and which of its two positions is next. */
  datatype Cursor = Cursor(node: nat, half: nat)

  predicate CursorOk(rs: Ranges, c: Cursor)
  {
    c.node <= |rs| && c.half <= 1
  }

  /** The position under the cursor, or uint.MaxValue once the list is done. */
  function Pos(rs: Ranges, c: Cursor): (p: nat)
    requires Fits(rs) && CursorOk(rs, c)
    ensures p <= UINT_MAX
    ensures p == UINT_MAX || c.node < |rs|
  {
    if c.node < |rs| then (if c.half == 0 then rs[c.node].0 else rs[c.node].1)
    else UINT_MAX
  }

  /** The cursor past one position: the other half, then the next node. */
  function Advance(c: Cursor): Cursor
  {
    if c.half == 1 then Cursor(c.node + 1, 0) else Cursor(c.node, 1)
  }

  /** The positions a cursor can still move over (one more for the script list's step past its end). */
  function Rem(rs: Ranges, c: Cursor): nat
    requires CursorOk(rs, c)
  {
    2 * |rs| + 1 - (2 * c.node + c.half)
  }

  /** A step that stays within the list, or the one step past its end, uses up one position. */
  lemma AdvanceStep(rs: Ranges, c: Cursor)
    requires CursorOk(rs, c) && (c.node < |rs| || c.half == 0)
    ensures CursorOk(rs, Advance(c)) && Rem(rs, Advance(c)) + 1 == Rem(rs, c)
  {
  }

  /** Moving on a list in order never lowers the position. */
  lemma AdvanceMonotone(rs: Ranges, c: Cursor)
    requires WellFormed(rs) && CursorOk(rs, c) && (c.node < |rs| || c.half == 0)
    ensures CursorOk(rs, Advance(c)) && Pos(rs, Advance(c)) >= Pos(rs, c)
  {
  }

  /** The three cursors of Itemize: script analysis, number substitution, digit runs. */
  datatype Cursors = Cursors(script: Cursor, numSub: Cursor, digit: Cursor)

  predicate Lists(sr: Ranges, nr: Ranges, dr: Ranges)
  {
    Fits(sr) && Fits(nr) && Fits(dr)
  }

  predicate CursorsOk(sr: Ranges, nr: Ranges, dr: Ranges, c: Cursors)
  {
    CursorOk(sr, c.script) && CursorOk(nr, c.numSub) && CursorOk(dr, c.digit)
  }

  /** No cursor stands before position p. */
  predicate Below(sr: Ranges, nr: Ranges, dr: Ranges, p: nat, c: Cursors)
    requires Lists(sr, nr, dr) && CursorsOk(sr, nr, dr, c)
  {
    p <= Pos(sr, c.script) && p <= Pos(nr, c.numSub) && p <= Pos(dr, c.digit)
  }

  function Total(sr: Ranges, nr: Ranges, dr: Ranges, c: Cursors): nat
    requires CursorsOk(sr, nr, dr, c)
  {
    Rem(sr, c.script) + Rem(nr, c.numSub) + Rem(dr, c.digit)
  }

  function Min(a: nat, b: nat): nat
  {
    if a <= b then a else b
  }

  /**
   * GetNextSmallestPos: the smallest of the three positions, with the
   * cursor it came from moved on.  Once every list is done the script
   * branch is taken; its second step past the end follows a null node.
   */
  function NextSmallestPos(sr: Ranges, nr: Ranges, dr: Ranges, c: Cursors): (r: Option<(nat, Cursors)>)
    requires Lists(sr, nr, dr) && CursorsOk(sr, nr, dr, c)
  {
    var s := Pos(sr, c.script);
    var n := Pos(nr, c.numSub);
    var d := Pos(dr, c.digit);
    var smallest := Min(Min(s, n), d);
    if smallest == s then
      if c.script.node == |sr| && c.script.half == 1 then None
      else Some((smallest, c.(script := Advance(c.script))))
    else if smallest == n then Some((smallest, c.(numSub := Advance(c.numSub))))
    else Some((smallest, c.(digit := Advance(c.digit))))
  }

  /**
   * GetNextSmallestPos answers the least of the three positions and moves
   * exactly one cursor: on a tie the script list's, then the number
   * substitution list's; it fails only when every list is done and the
   * script cursor has already stepped past its end.
   */
  lemma NextSmallestPosChoice(sr: Ranges, nr: Ranges, dr: Ranges, c: Cursors)
    requires Lists(sr, nr, dr) && CursorsOk(sr, nr, dr, c)
    ensures var s, n, d := Pos(sr, c.script), Pos(nr, c.numSub), Pos(dr, c.digit);
      var r := NextSmallestPos(sr, nr, dr, c);
      && (r.None? <==> s <= n && s <= d && c.script == Cursor(|sr|, 1))
      && (r.Some? ==> r.value.0 <= s && r.value.0 <= n && r.value.0 <= d)
      && (r.Some? ==> r.value.0 == s || r.value.0 == n || r.value.0 == d)
      && (r.Some? && s <= n && s <= d ==> r.value.1 == c.(script := Advance(c.script)))
      && (r.Some? && n < s && n <= d ==> r.value.1 == c.(numSub := Advance(c.numSub)))
      && (r.Some? && d < s && d < n ==> r.value.1 == c.(digit := Advance(c.digit)))
  {
  }

  /**
   * Each call that does not fail uses up one position of the lists, and
   * answers a position no cursor stands before, before or (the lists in
   * order) after the call.
   */
  lemma NextSmallestPosProgress(sr: Ranges, nr: Ranges, dr: Ranges, c: Cursors)
    requires Lists(sr, nr, dr) && CursorsOk(sr, nr, dr, c)
    ensures var r := NextSmallestPos(sr, nr, dr, c);
      && (r.None? ==> c.script == Cursor(|sr|, 1))
      && (r.Some? ==> CursorsOk(sr, nr, dr, r.value.1) && Total(sr, nr, dr, r.value.1) + 1 == Total(sr, nr, dr, c))
      && (r.Some? ==> Below(sr, nr, dr, r.value.0, c))
      && (r.Some? && WellFormed(sr) && WellFormed(nr) && WellFormed(dr) ==> Below(sr, nr, dr, r.value.0, r.value.1))
  {
    var s, n, d := Pos(sr, c.script), Pos(nr, c.numSub), Pos(dr, c.digit);
    var smallest := Min(Min(s, n), d);
    var wf := WellFormed(sr) && WellFormed(nr) && WellFormed(dr);
    if smallest == s {
      if !(c.script.node == |sr| && c.script.half == 1) {
        AdvanceStep(sr, c.script);
        if wf {
          AdvanceMonotone(sr, c.script);
        }
      }
    } else if smallest == n {
      AdvanceStep(nr, c.numSub);
      if wf {
        AdvanceMonotone(nr, c.numSub);
      }
    } else {
      AdvanceStep(dr, c.digit);
      if wf {
        AdvanceMonotone(dr, c.digit);
      }
    }
  }

  /** The properties ItemProps.Create is given for a span. */
  datatype ItemProps = ItemProps(
    script: Option<nat>, numberSubstitution: Option<nat>, digitCulture: bool,
    hasCombiningMark: bool, needsCaretInfo: bool, hasExtended: bool,
    isIndic: bool, isLatin: bool)

  datatype Span = Span(props: ItemProps, length: nat)

  /** The span starting at `start` is non-empty, lies in the text, and its flags are those of its characters. */
  predicate SpanMatches(attrs: seq<bv8>, start: nat, s: Span)
  {
    var end := start + s.length;
    && s.length > 0 && end <= |attrs|
    && (s.props.hasCombiningMark <==> AnyHas(attrs, start, end, IS_COMBINING))
    && (s.props.needsCaretInfo <==> !StrongWithout(attrs, start, end, NEEDS_CARET_INFO))
    && (s.props.hasExtended <==> AnyHas(attrs, start, end, IS_EXTENDED))
    && (s.props.isIndic <==> StrongIndic(attrs, start, end))
    && (s.props.isLatin <==> AnyHas(attrs, start, end, IS_STRONG) && !StrongWithout(attrs, start, end, IS_LATIN))
  }

  /** The flags of one span, from the three scans over its characters. */
  method SpanFlags(attrs: seq<bv8>, rangeStart: nat, rangeEnd: nat, props: ItemProps)
    returns (s: Span)
    requires rangeStart < rangeEnd <= |attrs|
    ensures SpanMatches(attrs, rangeStart, s) && s.length == rangeEnd - rangeStart
    ensures s.props.script == props.script && s.props.numberSubstitution == props.numberSubstitution
    ensures s.props.digitCulture == props.digitCulture
  {
    var hasCombiningMark := ScanCombining(attrs, rangeStart, rangeEnd);
    var needsCaretInfo := ScanNeedsCaretInfo(attrs, rangeStart, rangeEnd);
    var strong, latin, indic, hasExtended := ScanScripts(attrs, rangeStart, rangeEnd);
    CountsDecideFlags(attrs, rangeStart, rangeEnd);
    s := Span(props.(hasCombiningMark := hasCombiningMark, needsCaretInfo := needsCaretInfo,
                     hasExtended := hasExtended, isIndic := indic > 0,
                     isLatin := strong > 0 && latin == strong),
              rangeEnd - rangeStart);
  }

  /**
   * The inner loop of Itemize: from position p, the cursors at c and, before
   * the call that answered p, at `previous`, GetNextSmallestPos while the
   * position is still rangeStart.  Answers the new position, the cursors
   * after the last call and the cursors before it; None where the lists
   * run out first.
   */
  function Boundary(sr: Ranges, nr: Ranges, dr: Ranges, rangeStart: nat, p: nat, c: Cursors, previous: Cursors)
    : Option<(nat, Cursors, Cursors)>
    requires Lists(sr, nr, dr) && CursorsOk(sr, nr, dr, c)
    decreases Total(sr, nr, dr, c)
  {
    if p != rangeStart then Some((p, c, previous))
    else
      NextSmallestPosProgress(sr, nr, dr, c);
      match NextSmallestPos(sr, nr, dr, c)
      case None => None
      case Some((q, next)) => Boundary(sr, nr, dr, rangeStart, q, next, c)
  }

  /**
   * The inner loop ends past the range's start, at a position no cursor
   * stands before, with fewer positions left; the position is the answer
   * of the last GetNextSmallestPos, made from the cursors it reports as
   * previous.
   */
  lemma {:induction false} BoundaryProgress(sr: Ranges, nr: Ranges, dr: Ranges, rangeStart: nat, p: nat,
                                            c: Cursors, previous: Cursors)
    requires WellFormed(sr) && WellFormed(nr) && WellFormed(dr)
    requires CursorsOk(sr, nr, dr, c) && CursorsOk(sr, nr, dr, previous)
    requires Below(sr, nr, dr, p, c) && rangeStart <= p
    requires p != rangeStart ==> NextSmallestPos(sr, nr, dr, previous) == Some((p, c))
    ensures var r := Boundary(sr, nr, dr, rangeStart, p, c, previous);
      r.Some? ==> var (e, after, prev) := r.value;
      && rangeStart < e
      && CursorsOk(sr, nr, dr, after) && Below(sr, nr, dr, e, after)
      && Total(sr, nr, dr, after) <= Total(sr, nr, dr, c)
      && (p == rangeStart ==> Total(sr, nr, dr, after) < Total(sr, nr, dr, c))
      && CursorsOk(sr, nr, dr, prev) && NextSmallestPos(sr, nr, dr, prev) == Some((e, after))
    decreases Total(sr, nr, dr, c)
  {
    if p == rangeStart {
      NextSmallestPosProgress(sr, nr, dr, c);
      NextSmallestPosChoice(sr, nr, dr, c);
      var next := NextSmallestPos(sr, nr, dr, c);
      if next.Some? {
        BoundaryProgress(sr, nr, dr, rangeStart, next.value.0, next.value.1, c);
      }
    }
  }

  /** The inner loop of Itemize, which Boundary states. */
  method NextBoundary(sr: Ranges, nr: Ranges, dr: Ranges, rangeStart: nat, c0: Cursors)
    returns (r: Option<(nat, Cursors, Cursors)>)
    requires Lists(sr, nr, dr) && CursorsOk(sr, nr, dr, c0)
    ensures r == Boundary(sr, nr, dr, rangeStart, rangeStart, c0, c0)
  {
    var rangeEnd := rangeStart;
    var c := c0;
    var previous := c0;
    while rangeEnd == rangeStart
      invariant CursorsOk(sr, nr, dr, c)
      invariant Boundary(sr, nr, dr, rangeStart, rangeEnd, c, previous) == Boundary(sr, nr, dr, rangeStart, rangeStart, c0, c0)
      decreases Total(sr, nr, dr, c)
    {
      previous := c;
      NextSmallestPosProgress(sr, nr, dr, c);
      var next := NextSmallestPos(sr, nr, dr, c);
      if next.None? {
        return None;
      }
      rangeEnd, c := next.value.0, next.value.1;
    }
    return Some((rangeEnd, c, previous));
  }

  /**
   * The span Itemize makes of the range [start, end): the flags of its
   * characters; the script of the node the script cursor stood on before
   * the range's end (none past the list); the number substitution of the
   * node its cursor stood on when the range ends inside that node; and the
   * number culture exactly when the digit run its cursor stood on is one of
   * digits.
   */
  predicate SpanOf(attrs: seq<bv8>, nr: Ranges, digits: seq<bool>, scriptCount: nat,
                   start: nat, end: nat, previous: Cursors, s: Span)
  {
    var ns := previous.numSub.node;
    && start < end
    && SpanMatches(attrs, start, s) && s.length == end - start
    && s.props.script == (if previous.script.node < scriptCount then Some(previous.script.node) else None)
    && s.props.numberSubstitution == (if ns < |nr| && nr[ns].0 < end <= nr[ns].1 then Some(ns) else None)
    && previous.digit.node < |digits| && s.props.digitCulture == digits[previous.digit.node]
  }

  /**
   * The span of one range [rangeStart, rangeEnd) of Itemize; None where the
   * C# indexes past the attributes or the digit list.
   */
  method RangeSpan(attrs: seq<bv8>, nr: Ranges, digits: seq<bool>, rangeStart: nat, rangeEnd: nat,
                   previous: Cursors, scriptCount: nat) returns (r: Option<Span>)
    requires rangeStart < rangeEnd
    ensures r.None? <==> rangeEnd > |attrs| || previous.digit.node >= |digits|
    ensures r.Some? ==> SpanOf(attrs, nr, digits, scriptCount, rangeStart, rangeEnd, previous, r.value)
  {
    var numberSubstitution: Option<nat> := None;
    if previous.numSub.node < |nr| && rangeEnd > nr[previous.numSub.node].0 && rangeEnd <= nr[previous.numSub.node].1 {
      numberSubstitution := Some(previous.numSub.node);
    }
    if rangeEnd > |attrs| {
      // charAttribute[i] past the end of the array
      return None;
    }
    if previous.digit.node >= |digits| {
      // _isDigitList[isDigitIndexOld] past the end of the list
      return None;
    }
    var script := if previous.script.node < scriptCount then Some(previous.script.node) else None;
    var span := SpanFlags(attrs, rangeStart, rangeEnd,
      ItemProps(script, numberSubstitution, digits[previous.digit.node], false, false, false, false, false));
    return Some(span);
  }

  /** One range Itemize cuts: [start, end), the cursors before the last call of its inner loop, and after it. */
  datatype Cut = Cut(start: nat, end: nat, previous: Cursors, after: Cursors)

  /** Itemize's outer loop has ended: the text's length is reached, or every list is done. */
  predicate Stops(sr: Ranges, nr: Ranges, dr: Ranges, textLength: nat, p: nat, c: Cursors)
  {
    p == textLength || (c.script.node >= |sr| && c.numSub.node >= |nr| && c.digit.node >= |dr|)
  }

  /**
   * The ranges Itemize cuts from position p on, the cursors at c; None
   * where the C# fails: the lists run out inside the inner loop, or a
   * range reaches past the attributes or the digit list.
   */
  function Walk(sr: Ranges, nr: Ranges, dr: Ranges, attrsLen: nat, textLength: nat, p: nat, c: Cursors)
    : Option<seq<Cut>>
    requires WellFormed(sr) && WellFormed(nr) && WellFormed(dr)
    requires CursorsOk(sr, nr, dr, c) && Below(sr, nr, dr, p, c)
    decreases Total(sr, nr, dr, c)
  {
    if Stops(sr, nr, dr, textLength, p, c) then Some([])
    else
      BoundaryProgress(sr, nr, dr, p, p, c, c);
      match Boundary(sr, nr, dr, p, p, c, c)
      case None => None
      case Some((e, after, previous)) =>
        if e > attrsLen || previous.digit.node >= |dr| then None
        else
          match Walk(sr, nr, dr, attrsLen, textLength, e, after)
          case None => None
          case Some(rest) => Some([Cut(p, e, previous, after)] + rest)
  }

  /** The cursors before the first GetNextSmallestPos. */
  const Start: Cursors := Cursors(Cursor(0, 0), Cursor(0, 0), Cursor(0, 0))

  /** The ranges Itemize cuts the text into, from the first GetNextSmallestPos on. */
  function Cuts(sr: Ranges, nr: Ranges, dr: Ranges, attrsLen: nat, textLength: nat): Option<seq<Cut>>
    requires WellFormed(sr) && WellFormed(nr) && WellFormed(dr)
  {
    NextSmallestPosProgress(sr, nr, dr, Start);
    var first := NextSmallestPos(sr, nr, dr, Start).value;
    Walk(sr, nr, dr, attrsLen, textLength, first.0, first.1)
  }

  /** The end of the last cut, or p without one. */
  function LastEnd(p: nat, cuts: seq<Cut>): nat
  {
    if cuts == [] then p else cuts[|cuts| - 1].end
  }

  /** The cursors after the last cut, or c without one. */
  function LastAfter(c: Cursors, cuts: seq<Cut>): Cursors
  {
    if cuts == [] then c else cuts[|cuts| - 1].after
  }

  /**
   * Cuts that follow one another from p without gap, each non-empty,
   * inside the attributes and on a digit run, each ending at the answer of
   * GetNextSmallestPos from its previous cursors, and after the last of
   * which (or at p, the cursors at c, without one) the outer loop stops.
   */
  predicate CutsFrom(sr: Ranges, nr: Ranges, dr: Ranges, attrsLen: nat, textLength: nat, p: nat, c: Cursors,
                     cuts: seq<Cut>)
    requires Lists(sr, nr, dr)
  {
    && (forall k :: 0 <= k < |cuts| ==> cuts[k].start < cuts[k].end <= attrsLen && cuts[k].previous.digit.node < |dr|)
    && (forall k :: 0 <= k < |cuts| ==>
          CursorsOk(sr, nr, dr, cuts[k].previous) && NextSmallestPos(sr, nr, dr, cuts[k].previous) == Some((cuts[k].end, cuts[k].after)))
    && (|cuts| > 0 ==> cuts[0].start == p)
    && (forall k :: 0 <= k < |cuts| - 1 ==> cuts[k + 1].start == cuts[k].end)
    && CursorsOk(sr, nr, dr, LastAfter(c, cuts)) && Stops(sr, nr, dr, textLength, LastEnd(p, cuts), LastAfter(c, cuts))
  }

  /** A cut from p to where the following cuts start puts them after it. */
  lemma ConsCut(sr: Ranges, nr: Ranges, dr: Ranges, attrsLen: nat, textLength: nat, p: nat, c: Cursors, cut: Cut, rest: seq<Cut>)
    requires Lists(sr, nr, dr)
    requires CutsFrom(sr, nr, dr, attrsLen, textLength, cut.end, cut.after, rest)
    requires cut.start == p < cut.end <= attrsLen && cut.previous.digit.node < |dr|
    requires CursorsOk(sr, nr, dr, cut.previous) && NextSmallestPos(sr, nr, dr, cut.previous) == Some((cut.end, cut.after))
    ensures CutsFrom(sr, nr, dr, attrsLen, textLength, p, c, [cut] + rest)
  {
    var cuts := [cut] + rest;
    assert forall k :: 1 <= k < |cuts| ==> cuts[k] == rest[k - 1];
    assert LastEnd(p, cuts) == LastEnd(cut.end, rest) && LastAfter(c, cuts) == LastAfter(cut.after, rest);
  }

  /** The cuts Walk answers have the shape CutsFrom states. */
  lemma {:induction false} WalkShape(sr: Ranges, nr: Ranges, dr: Ranges, attrsLen: nat, textLength: nat, p: nat, c: Cursors)
    requires WellFormed(sr) && WellFormed(nr) && WellFormed(dr)
    requires CursorsOk(sr, nr, dr, c) && Below(sr, nr, dr, p, c)
    ensures var w := Walk(sr, nr, dr, attrsLen, textLength, p, c);
      w.Some? ==> CutsFrom(sr, nr, dr, attrsLen, textLength, p, c, w.value)
    decreases Total(sr, nr, dr, c)
  {
    if !Stops(sr, nr, dr, textLength, p, c) {
      BoundaryProgress(sr, nr, dr, p, p, c, c);
      var b := Boundary(sr, nr, dr, p, p, c, c);
      if b.Some? {
        var (e, after, previous) := b.value;
        if e <= attrsLen && previous.digit.node < |dr| {
          WalkShape(sr, nr, dr, attrsLen, textLength, e, after);
          var w := Walk(sr, nr, dr, attrsLen, textLength, e, after);
          if w.Some? {
            ConsCut(sr, nr, dr, attrsLen, textLength, p, c, Cut(p, e, previous, after), w.value);
          }
        }
      }
    }
  }

  /**
   * The text's cuts start at the first position GetNextSmallestPos answers,
   * follow one another without gap, each non-empty and inside the
   * attributes, and end where the text's length is reached or every list
   * is done.
   */
  lemma CutsShape(sr: Ranges, nr: Ranges, dr: Ranges, attrsLen: nat, textLength: nat)
    requires WellFormed(sr) && WellFormed(nr) && WellFormed(dr)
    ensures var w := Cuts(sr, nr, dr, attrsLen, textLength);
      var first := NextSmallestPos(sr, nr, dr, Start);
      && first.Some?
      && (w.Some? ==> var cuts := w.value;
        && (forall k :: 0 <= k < |cuts| ==> cuts[k].start < cuts[k].end <= attrsLen)
        && (|cuts| > 0 ==> cuts[0].start == first.value.0)
        && (forall k :: 0 <= k < |cuts| - 1 ==> cuts[k + 1].start == cuts[k].end)
        && CursorsOk(sr, nr, dr, LastAfter(first.value.1, cuts))
        && Stops(sr, nr, dr, textLength, LastEnd(first.value.0, cuts), LastAfter(first.value.1, cuts)))
  {
    NextSmallestPosProgress(sr, nr, dr, Start);
    var first := NextSmallestPos(sr, nr, dr, Start).value;
    WalkShape(sr, nr, dr, attrsLen, textLength, first.0, first.1);
  }

  /** The cuts made so far followed by those still to come, or None when those fail. */
  function Then(done: seq<Cut>, rest: Option<seq<Cut>>): Option<seq<Cut>>
  {
    match rest
    case None => None
    case Some(more) => Some(done + more)
  }

  class TextItemizer {
    const scriptRanges: Ranges
    const numSubRanges: Ranges
    var isDigitList: seq<bool>
    var isDigitListRanges: Ranges

    /** A new itemizer over DirectWrite's two lists, with no digit runs yet. */
    constructor (script: Ranges, numSub: Ranges)
      ensures scriptRanges == script && numSubRanges == numSub
      ensures isDigitList == [] && isDigitListRanges == []
    {
      scriptRanges := script;
      numSubRanges := numSub;
      isDigitList := [];
      isDigitListRanges := [];
    }

    /** SetIsDigit: one more digit run, [position, position + length) with a uint end. */
    method SetIsDigit(textPosition: nat, textLength: nat, isDigit: bool)
      modifies this`isDigitList, this`isDigitListRanges
      ensures isDigitList == old(isDigitList) + [isDigit]
      ensures isDigitListRanges == old(isDigitListRanges) + [(textPosition, AddU32(textPosition, textLength))]
    {
      isDigitList := isDigitList + [isDigit];
      isDigitListRanges := isDigitListRanges + [(textPosition, AddU32(textPosition, textLength))];
    }

    /**
     * Itemize: cut the text at the positions of the three lists, in order,
     * until the text's length is reached or every list is done.  It fails
     * exactly where Cuts does, and otherwise answers one span per cut, of
     * the cut's length, with its characters' flags, its script, its number
     * substitution and its digit run's culture choice.
     */
    method Itemize(attrs: seq<bv8>, textLength: nat) returns (r: Option<seq<Span>>)
      requires |isDigitList| == |isDigitListRanges|
      requires WellFormed(scriptRanges) && WellFormed(numSubRanges) && WellFormed(isDigitListRanges)
      ensures var cuts := Cuts(scriptRanges, numSubRanges, isDigitListRanges, |attrs|, textLength);
        && (r.None? <==> cuts.None?)
        && (r.Some? ==>
              && |r.value| == |cuts.value|
              && (forall k :: 0 <= k < |r.value| ==>
                    SpanOf(attrs, numSubRanges, isDigitList, |scriptRanges|,
                           cuts.value[k].start, cuts.value[k].end, cuts.value[k].previous, r.value[k])))
    {
      var sr, nr, dr, digits := scriptRanges, numSubRanges, isDigitListRanges, isDigitList;
      var c := Start;
      NextSmallestPosProgress(sr, nr, dr, c);
      var first := NextSmallestPos(sr, nr, dr, c);
      var rangeEnd: nat;
      rangeEnd, c := first.value.0, first.value.1;
      var spans: seq<Span> := [];
      ghost var done: seq<Cut> := [];
      ghost var w := Walk(sr, nr, dr, |attrs|, textLength, rangeEnd, c);
      assert w.Some? ==> [] + w.value == w.value;
      while rangeEnd != textLength && (c.script.node < |sr| || c.numSub.node < |nr| || c.digit.node < |digits|)
        invariant CursorsOk(sr, nr, dr, c) && Below(sr, nr, dr, rangeEnd, c)
        invariant Cuts(sr, nr, dr, |attrs|, textLength) == Then(done, Walk(sr, nr, dr, |attrs|, textLength, rangeEnd, c))
        invariant |spans| == |done|
        invariant forall k :: 0 <= k < |spans| ==>
          SpanOf(attrs, nr, digits, |sr|, done[k].start, done[k].end, done[k].previous, spans[k])
        decreases Total(sr, nr, dr, c)
      {
        var rangeStart := rangeEnd;
        BoundaryProgress(sr, nr, dr, rangeStart, rangeStart, c, c);
        var next := NextBoundary(sr, nr, dr, rangeStart, c);
        if next.None? {
          return None;
        }
        var previous, after: Cursors;
        rangeEnd, after, previous := next.value.0, next.value.1, next.value.2;
        var made := RangeSpan(attrs, nr, digits, rangeStart, rangeEnd, previous, |sr|);
        if made.None? {
          return None;
        }
        ghost var rest := Walk(sr, nr, dr, |attrs|, textLength, rangeEnd, after);
        assert Walk(sr, nr, dr, |attrs|, textLength, rangeStart, c) == Then([Cut(rangeStart, rangeEnd, previous, after)], rest);
        if rest.Some? {
          assert done + ([Cut(rangeStart, rangeEnd, previous, after)] + rest.value)
              == (done + [Cut(rangeStart, rangeEnd, previous, after)]) + rest.value;
        }
        spans := spans + [made.value];
        done := done + [Cut(rangeStart, rangeEnd, previous, after)];
        c := after;
      }
      assert done + [] == done;
      return Some(spans);
    }
  }

  // ---- the digit runs of a text ----

  /** The digit value of each character: false throughout without a number culture. */
  function DigitValues(text: seq<WChar>, classify: WChar -> CharClass, hasCulture: bool): (d: seq<bool>)
    ensures |d| == |text|
    ensures forall i :: 0 <= i < |text| ==> d[i] == (hasCulture && classify(text[i]).isDigit)
  {
    seq(|text|, i requires 0 <= i < |text| => hasCulture && classify(text[i]).isDigit)
  }

  /** The attribute mask of each character. */
  function Attributes(text: seq<WChar>, classify: WChar -> CharClass): (a: seq<bv8>)
    ensures |a| == |text|
    ensures forall i :: 0 <= i < |text| ==> a[i] == AttrOf(classify(text[i]), text[i])
  {
    seq(|text|, i requires 0 <= i < |text| => AttrOf(classify(text[i]), text[i]))
  }

  /** The digit value of each run, in order. */
  function RunValues(rs: seq<Run>): (v: seq<bool>)
    ensures |v| == |rs|
  {
    if rs == [] then [] else RunValues(rs[..|rs| - 1]) + [rs[|rs| - 1].isDigit]
  }

  /** The [start, end) of each run, in order. */
  function RunRanges(rs: seq<Run>): (v: Ranges)
    ensures |v| == |rs|
  {
    if rs == [] then [] else RunRanges(rs[..|rs| - 1]) + [(rs[|rs| - 1].start, rs[|rs| - 1].end)]
  }

  /** Element k of the run ranges is the k-th run's start and end. */
  lemma {:induction false} RunRangesAt(rs: seq<Run>)
    ensures forall k :: 0 <= k < |rs| ==> RunRanges(rs)[k] == (rs[k].start, rs[k].end)
  {
    if rs != [] {
      var front := rs[..|rs| - 1];
      RunRangesAt(front);
      assert forall k :: 0 <= k < |front| ==> front[k] == rs[k];
    }
  }

  /** The digit runs of a text of fewer than 2^32 characters are a well-formed range list for Itemize. */
  lemma RunRangesWellFormed(d: seq<bool>)
    requires 1 <= |d| < TWO32
    ensures WellFormed(RunRanges(Runs(d)))
  {
    RunsPartition(d);
    RunRangesAt(Runs(d));
  }

  /** The runs of d[..i+1] are those of d[..i] with the last one lengthened or a new one added. */
  lemma RunsStep(d: seq<bool>, i: nat)
    requires 1 <= i < |d|
    ensures var p := Runs(d[..i]); var last := p[|p| - 1];
      Runs(d[..i + 1]) == if d[i] == last.isDigit then p[..|p| - 1] + [Run(last.start, i + 1, last.isDigit)]
                          else p + [Run(i, i + 1, d[i])]
  {
    assert d[..i + 1][..i] == d[..i];
  }

  /**
   * AnalyzeExtendedCharactersAndDigits: the attribute mask of every
   * character, and the digit runs of the text recorded on the itemizer in
   * order, one SetIsDigit each.
   */
  method AnalyzeExtendedCharactersAndDigits(text: seq<WChar>, itemizer: TextItemizer, charAttribute: array<bv8>,
                                            hasCulture: bool, classify: WChar -> CharClass)
    requires 1 <= |text| < TWO32 && charAttribute.Length == |text|
    modifies charAttribute, itemizer`isDigitList, itemizer`isDigitListRanges
    ensures charAttribute[..] == Attributes(text, classify)
    ensures itemizer.isDigitList == old(itemizer.isDigitList) + RunValues(Runs(DigitValues(text, classify, hasCulture)))
    ensures itemizer.isDigitListRanges == old(itemizer.isDigitListRanges) + RunRanges(Runs(DigitValues(text, classify, hasCulture)))
  {
    ghost var d := DigitValues(text, classify, hasCulture);
    ghost var attrs := Attributes(text, classify);
    ghost var values0, ranges0 := itemizer.isDigitList, itemizer.isDigitListRanges;
    var first := classify(text[0]);
    charAttribute[0] := AttrOf(first, text[0]);
    var isDigitRangeStart: nat := 0;
    var previousIsDigitValue := hasCulture && first.isDigit;
    var i: nat := 1;
    assert charAttribute[..1] == attrs[..1];
    RecordedStart(d, values0, ranges0);
    while i < |text|
      invariant 1 <= i <= |text| && isDigitRangeStart < i
      invariant charAttribute[..i] == attrs[..i]
      invariant Recorded(d, i, isDigitRangeStart, previousIsDigitValue,
                         itemizer.isDigitList, itemizer.isDigitListRanges, values0, ranges0)
    {
      var cls := classify(text[i]);
      charAttribute[i] := AttrOf(cls, text[i]);
      assert charAttribute[..i + 1] == attrs[..i + 1];
      var currentIsDigitValue := hasCulture && cls.isDigit;
      if previousIsDigitValue != currentIsDigitValue {
        RecordedChange(d, i, isDigitRangeStart, previousIsDigitValue,
                       itemizer.isDigitList, itemizer.isDigitListRanges, values0, ranges0);
        itemizer.SetIsDigit(isDigitRangeStart, i - isDigitRangeStart, previousIsDigitValue);
        isDigitRangeStart := i;
        previousIsDigitValue := currentIsDigitValue;
      } else {
        RecordedSame(d, i, isDigitRangeStart, previousIsDigitValue,
                     itemizer.isDigitList, itemizer.isDigitListRanges, values0, ranges0);
      }
      i := i + 1;
    }
    RecordedFinish(d, isDigitRangeStart, previousIsDigitValue,
                   itemizer.isDigitList, itemizer.isDigitListRanges, values0, ranges0);
    itemizer.SetIsDigit(isDigitRangeStart, i - isDigitRangeStart, previousIsDigitValue);
    assert charAttribute[..] == charAttribute[..i];
  }

  /**
   * After the first i characters: the runs before the last one have been
   * recorded, and the last run so far is [start, i) with value `previous`.
   */
  ghost predicate Recorded(d: seq<bool>, i: nat, start: nat, previous: bool,
                           values: seq<bool>, ranges: Ranges, values0: seq<bool>, ranges0: Ranges)
    requires 1 <= i <= |d|
  {
    var rs := Runs(d[..i]);
    && rs[|rs| - 1] == Run(start, i, previous)
    && values == values0 + RunValues(rs[..|rs| - 1])
    && ranges == ranges0 + RunRanges(rs[..|rs| - 1])
  }

  lemma Regroup<T>(a: seq<T>, b: seq<T>, c: seq<T>)
    ensures a + b + c == a + (b + c)
  {
  }

  /** After the first character nothing is recorded, and the run so far is that character's. */
  lemma RecordedStart(d: seq<bool>, values0: seq<bool>, ranges0: Ranges)
    requires 1 <= |d|
    ensures Recorded(d, 1, 0, d[0], values0, ranges0, values0, ranges0)
  {
    assert d[..1] == [d[0]];
    assert values0 + RunValues([]) == values0;
    assert ranges0 + RunRanges([]) == ranges0;
  }

  /** At the end of the text, recording the last run records all the runs. */
  lemma RecordedFinish(d: seq<bool>, start: nat, previous: bool,
                       values: seq<bool>, ranges: Ranges, values0: seq<bool>, ranges0: Ranges)
    requires start < |d| < TWO32
    requires Recorded(d, |d|, start, previous, values, ranges, values0, ranges0)
    ensures AddU32(start, |d| - start) == |d|
    ensures values + [previous] == values0 + RunValues(Runs(d))
    ensures ranges + [(start, AddU32(start, |d| - start))] == ranges0 + RunRanges(Runs(d))
  {
    assert d[..|d|] == d;
    var rs := Runs(d);
    var front := rs[..|rs| - 1];
    assert values == values0 + RunValues(front) && ranges == ranges0 + RunRanges(front);
    RunsAppendLast(rs);
    Regroup(values0, RunValues(front), [previous]);
    Regroup(ranges0, RunRanges(front), [(start, |d|)]);
  }

  /** A character with the current run's value lengthens it and records nothing. */
  lemma RecordedSame(d: seq<bool>, i: nat, start: nat, previous: bool,
                     values: seq<bool>, ranges: Ranges, values0: seq<bool>, ranges0: Ranges)
    requires 1 <= i < |d| && d[i] == previous
    requires Recorded(d, i, start, previous, values, ranges, values0, ranges0)
    ensures Recorded(d, i + 1, start, previous, values, ranges, values0, ranges0)
  {
    var p := Runs(d[..i]);
    RunsStep(d, i);
    var q := Runs(d[..i + 1]);
    assert q[..|q| - 1] == p[..|p| - 1];
  }

  /** A character with the other value records the current run and starts a new one at i. */
  lemma RecordedChange(d: seq<bool>, i: nat, start: nat, previous: bool,
                       values: seq<bool>, ranges: Ranges, values0: seq<bool>, ranges0: Ranges)
    requires 1 <= i < |d| < TWO32 && start < i && d[i] != previous
    requires Recorded(d, i, start, previous, values, ranges, values0, ranges0)
    ensures AddU32(start, i - start) == i
    ensures Recorded(d, i + 1, i, d[i], values + [previous], ranges + [(start, AddU32(start, i - start))], values0, ranges0)
  {
    var p := Runs(d[..i]);
    RunsStep(d, i);
    var q := Runs(d[..i + 1]);
    assert q == p + [Run(i, i + 1, d[i])];
    assert q[..|q| - 1] == p;
    var front := p[..|p| - 1];
    RunsAppendLast(p);
    assert AddU32(start, i - start) == i;
    Regroup(values0, RunValues(front), [previous]);
    Regroup(ranges0, RunRanges(front), [(start, i)]);
  }

  /** The values and ranges of a list of runs are those of its front and its last run. */
  lemma RunsAppendLast(p: seq<Run>)
    requires |p| >= 1
    ensures RunValues(p) == RunValues(p[..|p| - 1]) + [p[|p| - 1].isDigit]
    ensures RunRanges(p) == RunRanges(p[..|p| - 1]) + [(p[|p| - 1].start, p[|p| - 1].end)]
  {
  }

  /**
   * AnalyzeExtendedAndItemize with a new itemizer: the attribute masks and
   * the digit runs of the text, then Itemize over them, up to the text's
   * length.
   */
  method AnalyzeExtendedAndItemize(itemizer: TextItemizer, text: seq<WChar>, hasCulture: bool, classify: WChar -> CharClass)
    returns (r: Option<seq<Span>>)
    requires 1 <= |text| < TWO32
    requires itemizer.isDigitList == [] && itemizer.isDigitListRanges == []
    requires WellFormed(itemizer.scriptRanges) && WellFormed(itemizer.numSubRanges)
    modifies itemizer`isDigitList, itemizer`isDigitListRanges
    ensures itemizer.isDigitList == RunValues(Runs(DigitValues(text, classify, hasCulture)))
    ensures itemizer.isDigitListRanges == RunRanges(Runs(DigitValues(text, classify, hasCulture)))
    ensures WellFormed(itemizer.isDigitListRanges)
    ensures var cuts := Cuts(itemizer.scriptRanges, itemizer.numSubRanges, itemizer.isDigitListRanges, |text|, |text|);
      && (r.None? <==> cuts.None?)
      && (r.Some? ==>
            && |r.value| == |cuts.value|
            && (forall k :: 0 <= k < |r.value| ==>
                  SpanOf(Attributes(text, classify), itemizer.numSubRanges, itemizer.isDigitList, |itemizer.scriptRanges|,
                         cuts.value[k].start, cuts.value[k].end, cuts.value[k].previous, r.value[k])))
  {
    var charAttribute := new bv8[|text|];
    AnalyzeExtendedCharactersAndDigits(text, itemizer, charAttribute, hasCulture, classify);
    RunRangesWellFormed(DigitValues(text, classify, hasCulture));
    r := itemizer.Itemize(charAttribute[..], |text|);
  }
}
