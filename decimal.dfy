/**
 * Decimal text of non-negative integers, as an `std::ostream` writes them, and the
 * zero-filled width-3 form (`std::setfill('0') << std::setw(3)`) used for
 * screenshot file names.
 */
module Decimal {

  predicate IsDigit(c: char)
  {
    '0' <= c <= '9'
  }

  function DigitChar(d: int): (c: char)
    requires 0 <= d < 10
    ensures IsDigit(c)
  {
    ('0' as int + d) as char
  }

  function DigitValue(c: char): (d: int)
    requires IsDigit(c)
    ensures 0 <= d < 10 && DigitChar(d) == c
  {
    c as int - '0' as int
  }

  /** `os << n` for `n >= 0`: no leading zeros, "0" for zero. */
  function DecimalString(n: nat): (s: string)
    ensures |s| >= 1
    ensures forall i :: 0 <= i < |s| ==> IsDigit(s[i])
    ensures n < 10 <==> |s| == 1
    ensures |s| > 1 ==> s[0] != '0'
    ensures n < 100 ==> |s| <= 2
    ensures n < 1000 ==> |s| <= 3
  {
    if n < 10 then [DigitChar(n)] else DecimalString(n / 10) + [DigitChar(n % 10)]
  }

  /** The value of a string of digits; leading zeros count for nothing. */
  function ParseDecimal(s: string): nat
    requires forall i :: 0 <= i < |s| ==> IsDigit(s[i])
  {
    if s == [] then 0 else ParseDecimal(s[..|s| - 1]) * 10 + DigitValue(s[|s| - 1])
  }

  lemma {:induction false} ParseDecimalString(n: nat)
    ensures ParseDecimal(DecimalString(n)) == n
  {
    if n >= 10 {
      var s := DecimalString(n);
      assert s[..|s| - 1] == DecimalString(n / 10);
      ParseDecimalString(n / 10);
    }
  }

  lemma {:induction false} ParseLeadingZero(s: string)
    requires forall i :: 0 <= i < |s| ==> IsDigit(s[i])
    ensures ParseDecimal("0" + s) == ParseDecimal(s)
    decreases |s|
  {
    if s != [] {
      var t := "0" + s;
      assert t[..|t| - 1] == "0" + s[..|s| - 1];
      ParseLeadingZero(s[..|s| - 1]);
    }
  }

  /** `setw(3)` with fill '0': padded on the left to at least three characters. */
  function Pad3(n: nat): (s: string)
    ensures |s| >= 3
    ensures forall i :: 0 <= i < |s| ==> IsDigit(s[i])
    ensures n < 1000 ==> |s| == 3
  {
    var d := DecimalString(n);
    if |d| >= 3 then d else if |d| == 2 then "0" + d else "00" + d
  }

  /** The padded form reads back as the number, so distinct numbers give distinct texts. */
  lemma ParsePad3(n: nat)
    ensures ParseDecimal(Pad3(n)) == n
  {
    var d := DecimalString(n);
    ParseDecimalString(n);
    if |d| < 3 {
      ParseLeadingZero(d);
      if |d| == 1 {
        ParseLeadingZero("0" + d);
        assert "00" + d == "0" + ("0" + d);
      }
    }
  }

  lemma Pad3Injective(a: nat, b: nat)
    requires Pad3(a) == Pad3(b)
    ensures a == b
  {
    ParsePad3(a);
    ParsePad3(b);
  }
}
