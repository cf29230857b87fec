/**
  Decimal rendering and parsing of natural numbers: the parts of Go's
  `strconv.Itoa`, `fmt.Sprint` and `strconv.ParseUint(s, 10, bits)` that the
  modelled code relies on.
 */
module Decimal {
  import opened Wrappers

  predicate IsDigit(c: char) {
    '0' <= c <= '9'
  }

  function DigitValue(c: char): nat
    requires IsDigit(c)
  {
    c as int - '0' as int
  }

  function DigitChar(d: nat): (c: char)
    requires d < 10
    ensures IsDigit(c) && DigitValue(c) == d
  {
    ('0' as int + d) as char
  }

  /** A non-empty string of ASCII decimal digits (no sign, no underscores). */
  predicate IsDecimal(s: string) {
    |s| > 0 && forall i :: 0 <= i < |s| ==> IsDigit(s[i])
  }

  /** The number a string of digits denotes, most significant digit first. */
  function ValueOf(s: string): nat
    requires forall i :: 0 <= i < |s| ==> IsDigit(s[i])
  {
    if |s| == 0 then 0 else ValueOf(s[..|s| - 1]) * 10 + DigitValue(s[|s| - 1])
  }

  /** Decimal rendering of `n`, without leading zeros. */
  function Itoa(n: nat): (s: string)
    ensures IsDecimal(s)
    ensures s[0] == '0' ==> n == 0
    ensures n == 0 ==> s == "0"
  {
    if n < 10 then [DigitChar(n)] else Itoa(n / 10) + [DigitChar(n % 10)]
  }

  /** Rendering then reading a number gives the number back. */
  lemma {:induction false} ItoaRoundTrip(n: nat)
    ensures ValueOf(Itoa(n)) == n
  {
    if n >= 10 {
      ItoaRoundTrip(n / 10);
      var s := Itoa(n);
      assert s[..|s| - 1] == Itoa(n / 10);
    }
  }

  /** Distinct numbers have distinct renderings. */
  lemma ItoaInjective(a: nat, b: nat)
    requires Itoa(a) == Itoa(b)
    ensures a == b
  {
    ItoaRoundTrip(a);
    ItoaRoundTrip(b);
  }

  /**
    `strconv.ParseUint(s, 10, bits)` with `maxVal` = 2^bits - 1: a syntax
    error for anything but a non-empty string of digits and a range error
    above `maxVal`, both reported as None. Leading zeros are accepted.
   */
  function ParseUint(s: string, maxVal: nat): (r: Option<nat>)
  {
    if IsDecimal(s) && ValueOf(s) <= maxVal then Some(ValueOf(s)) else None
  }

  /** ParseUint reads back every rendering within range. */
  lemma ParseItoa(n: nat, maxVal: nat)
    requires n <= maxVal
    ensures ParseUint(Itoa(n), maxVal) == Some(n)
  {
    ItoaRoundTrip(n);
  }
}
