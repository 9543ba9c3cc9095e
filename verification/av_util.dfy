/**
 * Media utilities (core/av/util.cpp): turning the thread's last Win32
 * error into a failure code, reading a Win32 status back out of an
 * HRESULT, and copying a wide string onto the heap.
 *
 * GetLastError is a parameter.  A heap string is an array of UTF-16 code
 * units ending in NUL; deleting one is recorded in a log.
 */
module AvUtil {
  import opened HResults

  const ERROR_INVALID_FUNCTION: nat := 1
  /** INTSAFE_E_ARITHMETIC_OVERFLOW, HRESULT_FROM_WIN32(ERROR_ARITHMETIC_OVERFLOW). */
  const INTSAFE_E_ARITHMETIC_OVERFLOW: HRESULT := 0x8007_0216
  const NUL: char := 0 as char
  /** The longest buffer, in code units, that the strsafe functions accept. */
  const STRSAFE_MAX_CCH: nat := 0x7FFF_FFFF
  const STRSAFE_E_INVALID_PARAMETER: HRESULT := E_INVALIDARG

  /**
   * GetLastErrorAsFailHR: the last error as an HRESULT, and E_FAIL when
   * that would be a success (the caller did not set a last error).
   */
  function GetLastErrorAsFailHR(lastError: nat): (hr: HRESULT)
    requires lastError < TWO32
    ensures Failed(hr)
    ensures lastError == 0 ==> hr == E_FAIL
    ensures lastError != 0 ==> hr == FromWin32(lastError)
  {
    var hr := FromWin32(lastError);
    if Succeeded(hr) then E_FAIL else hr
  }

  /**
   * Win32StatusFromHR as written: both branches give the HRESULT's own
   * 32 bits, SCODE being only a cast.
   */
  function Win32StatusFromHR(hr: HRESULT): (status: nat)
    ensures status < TWO32
  {
    if Facility(hr) == FACILITY_WIN32 then hr as nat else hr as nat
  }

  /** The status is the HRESULT itself whatever its facility, so it never strips HRESULT_FROM_WIN32. */
  lemma Win32StatusIsTheBits(hr: HRESULT)
    ensures Win32StatusFromHR(hr) == hr as nat
  {
  }

  /** The access-denied error (5) comes back as 0x80070005, not as 5. */
  lemma Win32StatusAsWrittenDoesNotInvert()
    ensures FromWin32(5) == 0x8007_0005
    ensures Win32StatusFromHR(FromWin32(5)) == 0x8007_0005 != 5
  {
  }

  /**
   * The status as the synopsis describes it: for a Win32-facility code the
   * error it carries (HRESULT_CODE, the low 16 bits), otherwise the
   * HRESULT itself.
   */
  function Win32StatusFromHRIntended(hr: HRESULT): (status: nat)
    ensures status < TWO32
    ensures Facility(hr) != FACILITY_WIN32 ==> status == hr as nat
    ensures Facility(hr) == FACILITY_WIN32 ==> status < 0x1_0000
  {
    if Facility(hr) == FACILITY_WIN32 then hr as nat % 0x1_0000 else hr as nat
  }

  /** The intended status inverts HRESULT_FROM_WIN32 on every 16-bit Win32 error. */
  lemma IntendedStatusInvertsFromWin32(err: nat)
    requires 0 < err < 0x1_0000
    ensures Win32StatusFromHRIntended(FromWin32(err)) == err
  {
    var hr := FromWin32(err);
    assert hr as int == 0x8007_0000 + err;
    assert (hr as int / 0x1_0000) % 0x2000 == FACILITY_WIN32;
  }

  /** The output pointer of CopyHeapString and the strings deleted through it. */
  class StringSlot {
    var value: Option<array<char>>
    var deleted: seq<array<char>>

    constructor (initial: Option<array<char>>)
      ensures value == initial && deleted == []
    {
      value := initial;
      deleted := [];
    }

    /**
     * CopyHeapString: the string held is deleted first and the slot
     * cleared.  A NULL input leaves NULL with S_OK.  Otherwise a buffer
     * of length + 1 code units (the size_t addition checked, the new
     * allocation possibly failing) receives a NUL-terminated copy.
     * StringCchCopy refuses a buffer longer than STRSAFE_MAX_CCH, and the
     * buffer just allocated is then deleted.  On a failure the slot stays
     * NULL.
     */
    method CopyHeapString(stringIn: Option<seq<char>>, allocOk: bool) returns (hr: HRESULT)
      requires stringIn.Some? ==> NUL !in stringIn.value
      modifies this
      ensures var freed := old(deleted) + (if old(value).Some? then [old(value).value] else []);
        var copyRefused := stringIn.Some? && |stringIn.value| + 1 < TWO64 && allocOk
                           && |stringIn.value| + 1 > STRSAFE_MAX_CCH;
        && (!copyRefused ==> deleted == freed)
        && (copyRefused ==>
              && |deleted| == |freed| + 1 && deleted[..|freed|] == freed && fresh(deleted[|freed|])
              && hr == STRSAFE_E_INVALID_PARAMETER && value.None?)
      ensures stringIn.None? ==> hr == S_OK && value.None?
      ensures stringIn.Some? && |stringIn.value| + 1 >= TWO64 ==> hr == INTSAFE_E_ARITHMETIC_OVERFLOW && value.None?
      ensures stringIn.Some? && |stringIn.value| + 1 < TWO64 && !allocOk ==> hr == E_OUTOFMEMORY && value.None?
      ensures stringIn.Some? && |stringIn.value| + 1 <= STRSAFE_MAX_CCH && allocOk ==>
        && hr == S_OK && value.Some? && fresh(value.value)
        && value.value[..] == stringIn.value + [NUL]
      ensures Failed(hr) ==> value.None?
    {
      if value.Some? {
        deleted := deleted + [value.value];
        value := None;
      }
      hr := S_OK;
      var newString: Option<array<char>> := None;
      if stringIn.Some? {
        var s := stringIn.value;
        if |s| + 1 >= TWO64 {
          return INTSAFE_E_ARITHMETIC_OVERFLOW;
        }
        if !allocOk {
          return E_OUTOFMEMORY;
        }
        var buffer := new char[|s| + 1];
        if |s| + 1 > STRSAFE_MAX_CCH {
          deleted := deleted + [buffer];
          return STRSAFE_E_INVALID_PARAMETER;
        }
        CopyTerminated(s, buffer);
        newString := Some(buffer);
      }
      value := newString;
    }
  }

  /** StringCchCopy into a buffer exactly one longer than the string: every code unit, then NUL. */
  method CopyTerminated(s: seq<char>, buffer: array<char>)
    requires buffer.Length == |s| + 1
    modifies buffer
    ensures buffer[..] == s + [NUL]
  {
    var i := 0;
    while i < |s|
      invariant 0 <= i <= |s|
      invariant buffer[..i] == s[..i]
    {
      buffer[i] := s[i];
      i := i + 1;
    }
    buffer[|s|] := NUL;
    assert buffer[..] == buffer[..|s|] + [buffer[|s|]];
  }
}
