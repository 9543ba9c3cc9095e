/**
 * The enumerators over DirectWrite lists (MS/internal/Text/TextNotStubs.cs):
 * FontList.FontsEnumerator over the fonts of a list and
 * LocalizedStringsEnumerator over the culture/string pairs of a set of
 * localized strings.  Both keep an index that starts at -1 (before the
 * first element), move it forward in MoveNext, and refuse Current before
 * the start and at or after the end.
 *
 * The list's count and elements come from native calls; here they are a
 * sequence that does not change while it is enumerated.  A throw of
 * InvalidOperationException is None.
 */
module Enumerators {
  import opened HResults

  /** MoveNext: no move once the index has reached the count, otherwise one step on. */
  function MoveNextStep(index: int, count: nat): (r: (int, bool))
    ensures index >= count ==> r == (index, false)
    ensures index < count ==> r.0 == index + 1
    ensures r.1 <==> r.0 < count && index < count
  {
    if index >= count then (index, false)
    else (index + 1, index + 1 < count)
  }

  /** Current: the element at the index, or a throw before the start or past the end. */
  function CurrentAt<T>(index: int, items: seq<T>): (r: Option<T>)
    requires -1 <= index
    ensures r.None? <==> index == -1 || index >= |items|
    ensures r.Some? ==> 0 <= index < |items| && r.value == items[index]
  {
    if index >= |items| then None
    else if index == -1 then None
    else Some(items[index])
  }

  /** k calls of MoveNext from a state. */
  function Moves(index: int, count: nat, k: nat): (r: (int, bool))
    decreases k
  {
    if k == 0 then (index, false)
    else if k == 1 then MoveNextStep(index, count)
    else Moves(MoveNextStep(index, count).0, count, k - 1)
  }

  /**
   * From the start, the k-th MoveNext (k >= 1) lands on element k - 1 and
   * answers true while that element exists; once the index reaches the
   * count it stays there and every further call answers false.
   */
  lemma {:induction false} MovesVisitInOrder(index: int, count: nat, k: nat)
    requires -1 <= index <= count && k >= 1
    ensures Moves(index, count, k).0 == if index + k <= count then index + k else count
    ensures Moves(index, count, k).1 <==> index + k < count
    decreases k
  {
    if k > 1 {
      MovesVisitInOrder(MoveNextStep(index, count).0, count, k - 1);
    }
  }

  /** The index never leaves -1 .. count, and MoveNext answers true exactly when Current then has an element. */
  lemma MoveNextThenCurrent<T>(index: int, items: seq<T>)
    requires -1 <= index <= |items|
    ensures var r := MoveNextStep(index, |items|);
      && -1 <= r.0 <= |items|
      && (r.1 <==> CurrentAt(r.0, items).Some?)
  {
  }

  /** An enumerator over a list. */
  class Enumerator<T> {
    const items: seq<T>
    var index: int

    predicate Valid()
      reads this
    {
      -1 <= index <= |items|
    }

    /** A new enumerator stands before the first element. */
    constructor (list: seq<T>)
      ensures items == list && index == -1 && Valid()
    {
      items := list;
      index := -1;
    }

    method MoveNext() returns (more: bool)
      requires Valid()
      modifies this`index
      ensures Valid()
      ensures (index, more) == MoveNextStep(old(index), |items|)
    {
      if index >= |items| {
        return false;
      }
      index := index + 1;
      more := index < |items|;
    }

    function Current(): (r: Option<T>)
      requires Valid()
      reads this
      ensures r == CurrentAt(index, items)
    {
      if index >= |items| then None
      else if index == -1 then None
      else Some(items[index])
    }

    method Reset()
      modifies this`index
      ensures index == -1 && Valid()
    {
      index := -1;
    }
  }

  // ---- FontsEnumerator's 32-bit index ----

  const INT_MIN: int := -0x8000_0000
  const INT_MAX: int := 0x7FFF_FFFF

  /** C#'s unchecked int increment. */
  function IncInt32(i: int): (r: int)
    requires INT_MIN <= i <= INT_MAX
    ensures INT_MIN <= r <= INT_MAX
    ensures i < INT_MAX ==> r == i + 1
  {
    if i == INT_MAX then INT_MIN else i + 1
  }

  /**
   * FontsEnumerator.MoveNext as written: the index is an int compared with
   * the list's uint count, and its increment wraps.
   */
  function FontsMoveNextAsWritten(index: int, count: nat): (r: (int, bool))
    requires INT_MIN <= index <= INT_MAX && count < TWO32
    ensures INT_MIN <= r.0 <= INT_MAX
    ensures count <= INT_MAX && -1 <= index ==> r == MoveNextStep(index, count)
  {
    if index >= count then (index, false)
    else var next := IncInt32(index); (next, next < count)
  }

  /**
   * With 2^31 fonts the guard does not stop the index: the call after the
   * last font (index int.MaxValue) wraps the index to int.MinValue and
   * answers true, and the calls after it keep answering true, where a
   * 64-bit index (as LocalizedStringsEnumerator keeps) stops at the count
   * with false.
   */
  lemma FontsEnumeratorWraps()
    ensures var count := INT_MAX + 1;
      var a := FontsMoveNextAsWritten(INT_MAX, count);
      var b := FontsMoveNextAsWritten(a.0, count);
      && a == (INT_MIN, true) && b == (INT_MIN + 1, true)
      && MoveNextStep(INT_MAX, count) == (count, false)
  {
  }
}
