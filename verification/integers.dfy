/**
 * Fixed-width integers of the Rust source, written out over Dafny's unbounded
 * `int`, together with decimal formatting (`to_string`) and Rust's
 * `i32::from_str`.
 */
module Integers {
  import opened Base

  const I32_MIN: int := -0x8000_0000
  const I32_MAX: int := 0x7fff_ffff
  const U32_LIMIT: int := 0x1_0000_0000

  type i16 = x: int | -0x8000 <= x < 0x8000
  type i32 = x: int | I32_MIN <= x <= I32_MAX
  type u16 = x: int | 0 <= x < 0x1_0000
  type u32 = x: int | 0 <= x < U32_LIMIT

  /** Rust's `x as u32` on an `i32`: two's-complement reinterpretation. */
  function AsU32(x: i32): (r: u32)
    ensures x >= 0 ==> r == x
    ensures x < 0 ==> r == x + U32_LIMIT
  {
    x % U32_LIMIT
  }

  predicate IsDigit(c: char)
  {
    '0' <= c <= '9'
  }

  predicate AllDigits(s: string)
  {
    forall i :: 0 <= i < |s| ==> IsDigit(s[i])
  }

  function DigitChar(d: nat): (c: char)
    requires d < 10
    ensures IsDigit(c)
  {
    ('0' as int + d) as char
  }

  function DigitValue(c: char): (d: nat)
    requires IsDigit(c)
    ensures d < 10
  {
    c as int - '0' as int
  }

  /** The number a string of decimal digits denotes, most significant first. */
  function DigitsValue(s: string): nat
    requires AllDigits(s)
  {
    if |s| == 0 then 0 else DigitsValue(s[..|s| - 1]) * 10 + DigitValue(s[|s| - 1])
  }

  /** Leading zeros do not change the number a digit string denotes. */
  lemma {:induction false} LeadingZeroAddsNothing(s: string)
    requires AllDigits(s)
    ensures AllDigits("0" + s) && DigitsValue("0" + s) == DigitsValue(s)
    decreases |s|
  {
    if |s| > 0 {
      var t := "0" + s;
      assert t[..|t| - 1] == "0" + s[..|s| - 1];
      LeadingZeroAddsNothing(s[..|s| - 1]);
    }
  }

  /** Decimal rendering of a natural number, as `to_string` writes it. */
  function NatToString(n: nat): (r: string)
    ensures |r| > 0 && AllDigits(r)
    ensures DigitsValue(r) == n
    ensures |r| > 1 ==> r[0] != '0'
  {
    if n < 10 then [DigitChar(n)]
    else
      var front := NatToString(n / 10);
      var r := front + [DigitChar(n % 10)];
      assert r[..|r| - 1] == front;
      r
  }

  /** `i32::to_string`: a minus sign for negative values, then the magnitude in decimal. */
  function I32ToString(i: i32): (r: string)
    ensures |r| > 0
    ensures i < 0 <==> r[0] == '-'
  {
    if i < 0 then "-" + NatToString(-(i as int)) else NatToString(i)
  }

  /**
   * Rust's `i32::from_str`: an optional `+` or `-`, then one or more ASCII
   * digits, with no surrounding whitespace; out-of-range values are errors.
   */
  function ParseI32(s: string): (r: Option<i32>)
    ensures r.Some? ==> |s| > 0
  {
    if |s| == 0 then None
    else if (s[0] == '+' || s[0] == '-') && |s| == 1 then None
    else
      var negative := s[0] == '-';
      var digits := if s[0] == '+' || s[0] == '-' then s[1..] else s;
      if !AllDigits(digits) then None
      else
        var magnitude := DigitsValue(digits);
        if negative then (if magnitude <= -I32_MIN then Some(0 - magnitude as int) else None)
        else (if magnitude <= I32_MAX then Some(magnitude) else None)
  }

  /** Decimal text written by `to_string` reads back to the same `i32`. */
  lemma ParseI32OfToString(i: i32)
    ensures ParseI32(I32ToString(i)) == Some(i)
  {
    var s := I32ToString(i);
    if i < 0 {
      assert s[1..] == NatToString(-(i as int));
    } else {
      var d := NatToString(i);
      assert IsDigit(d[0]);
    }
  }

  /** What `ParseI32` accepts: exactly the optionally signed in-range decimal numerals. */
  lemma ParseI32Accepts(s: string, i: i32)
    requires ParseI32(s) == Some(i)
    ensures s[0] == '-' ==> |s| > 1 && AllDigits(s[1..]) && DigitsValue(s[1..]) == -(i as int)
    ensures s[0] == '+' ==> |s| > 1 && AllDigits(s[1..]) && DigitsValue(s[1..]) == i
    ensures s[0] != '-' && s[0] != '+' ==> AllDigits(s) && DigitsValue(s) == i
  {
  }
}
