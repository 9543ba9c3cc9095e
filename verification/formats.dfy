/**
 * The two printf conversions the shader resource generator uses on a
 * 32-bit value: "%08x" (eight lower-case hexadecimal digits, zero-padded)
 * and "%d" (the value read as a signed 32-bit int, in decimal).  Each is
 * given with the parse that undoes it.
 */
module Formats {
  import opened HResults

  /** The digit for d, lower case past 9. */
  function DigitChar(d: nat): (c: char)
    requires d < 16
  {
    if d < 10 then ('0' as int + d) as char else ('a' as int + d - 10) as char
  }

  /** The value of a digit character (what strtoul reads). */
  function DigitValue(c: char): nat
  {
    if '0' <= c <= '9' then c as int - '0' as int
    else if 'a' <= c <= 'f' then c as int - 'a' as int + 10
    else 0
  }

  lemma DigitRoundTrip(d: nat)
    requires d < 16
    ensures DigitValue(DigitChar(d)) == d
  {
  }

  /** The digits of n in base 10 or 16, most significant first, without leading zeros. */
  function Digits(n: nat, base: nat): (s: seq<char>)
    requires base == 10 || base == 16
    ensures |s| >= 1
    decreases n
  {
    if n < base then [DigitChar(n)] else Digits(n / base, base) + [DigitChar(n % base)]
  }

  /** Reading digits back. */
  function Parse(s: seq<char>, base: nat): nat
  {
    if s == [] then 0 else Parse(s[..|s| - 1], base) * base + DigitValue(s[|s| - 1])
  }

  lemma {:induction false} ParseDigits(n: nat, base: nat)
    requires base == 10 || base == 16
    ensures Parse(Digits(n, base), base) == n
    decreases n
  {
    if n >= base {
      var s := Digits(n, base);
      assert s[..|s| - 1] == Digits(n / base, base);
      ParseDigits(n / base, base);
      DigitRoundTrip(n % base);
    } else {
      DigitRoundTrip(n);
    }
  }

  function Zeros(k: nat): (s: seq<char>)
    ensures |s| == k && forall i :: 0 <= i < k ==> s[i] == '0'
  {
    seq(k, i => '0')
  }

  /** Leading zeros read as nothing. */
  lemma {:induction false} ParseZeroPadded(k: nat, s: seq<char>, base: nat)
    ensures Parse(Zeros(k) + s, base) == Parse(s, base)
    decreases |s|
  {
    if s == [] {
      ParseZeros(k, base);
      assert Zeros(k) + s == Zeros(k);
    } else {
      var t := Zeros(k) + s;
      assert t[..|t| - 1] == Zeros(k) + s[..|s| - 1];
      ParseZeroPadded(k, s[..|s| - 1], base);
    }
  }

  lemma {:induction false} ParseZeros(k: nat, base: nat)
    ensures Parse(Zeros(k), base) == 0
  {
    if k > 0 {
      assert Zeros(k)[..k - 1] == Zeros(k - 1);
      ParseZeros(k - 1, base);
    }
  }

  /** A value below 16^k has at most k hexadecimal digits. */
  lemma {:induction false} HexDigitsFit(n: nat, k: nat, p: nat)
    requires k >= 1 && p == Pow16(k) && n < p
    ensures |Digits(n, 16)| <= k
    decreases k
  {
    if n >= 16 {
      if k == 1 {
        assert false;
      }
      assert n / 16 < Pow16(k - 1);
      HexDigitsFit(n / 16, k - 1, Pow16(k - 1));
    }
  }

  function Pow16(k: nat): (p: nat)
    ensures p >= 1
  {
    if k == 0 then 1 else 16 * Pow16(k - 1)
  }

  /** "%08x" of a UINT. */
  function Hex8(w: nat): (s: seq<char>)
    requires w < TWO32
  {
    var d := Digits(w, 16);
    if |d| < 8 then Zeros(8 - |d|) + d else d
  }

  /** Exactly eight digits, which read back as the value. */
  lemma Hex8RoundTrip(w: nat)
    requires w < TWO32
    ensures |Hex8(w)| == 8
    ensures Parse(Hex8(w), 16) == w
  {
    assert Pow16(8) == TWO32;
    HexDigitsFit(w, 8, Pow16(8));
    var d := Digits(w, 16);
    ParseDigits(w, 16);
    if |d| < 8 {
      ParseZeroPadded(8 - |d|, d, 16);
    }
  }

  /** "%d" of a UINT: the bits read as a signed 32-bit int. */
  function SignedDecimal(v: nat): (s: seq<char>)
    requires v < TWO32
  {
    if v < 0x8000_0000 then Digits(v, 10) else ['-'] + Digits(TWO32 - v, 10)
  }

  /** Reading a decimal with an optional minus sign. */
  function ParseSigned(s: seq<char>): int
  {
    if |s| > 0 && s[0] == '-' then -(Parse(s[1..], 10) as int) else Parse(s, 10)
  }

  /** The decimal text reads back as the signed value of the bits. */
  lemma SignedDecimalRoundTrip(v: nat)
    requires v < TWO32
    ensures ParseSigned(SignedDecimal(v)) == (if v < 0x8000_0000 then v else v - TWO32)
    ensures v < 0x8000_0000 ==> SignedDecimal(v)[0] != '-'
  {
    if v < 0x8000_0000 {
      ParseDigits(v, 10);
      DigitsStartWithDigit(v, 10);
    } else {
      ParseDigits(TWO32 - v, 10);
      assert SignedDecimal(v)[1..] == Digits(TWO32 - v, 10);
    }
  }

  lemma {:induction false} DigitsStartWithDigit(n: nat, base: nat)
    requires base == 10 || base == 16
    ensures '0' <= Digits(n, base)[0] <= '9' || 'a' <= Digits(n, base)[0] <= 'f'
    decreases n
  {
    if n >= base {
      DigitsStartWithDigit(n / base, base);
    }
  }
}
