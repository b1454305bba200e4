/** Decimal numerals as the Python code writes and reads them: `str(n)`,
    the `%09d` / `{i:09d}` key format, and `int(...)` on a string of ASCII digits. */
module Numerals {

  predicate IsDigit(c: char) {
    '0' <= c <= '9'
  }

  predicate AllDigits(s: string) {
    forall i :: 0 <= i < |s| ==> IsDigit(s[i])
  }

  function DigitValue(c: char): (d: nat)
    requires IsDigit(c)
    ensures d < 10
  {
    (c as int) - ('0' as int)
  }

  function DigitChar(d: nat): (c: char)
    requires d < 10
    ensures IsDigit(c) && DigitValue(c) == d
  {
    (('0' as int) + d) as char
  }

  function Pow10(k: nat): (p: nat)
    ensures p >= 1
  {
    if k == 0 then 1 else 10 * Pow10(k - 1)
  }

  /** Python's `str(n)` for a natural number: its decimal digits, with a
      leading zero only for zero itself. */
  function Decimal(n: nat): (s: string)
    ensures |s| > 0 && AllDigits(s)
    ensures (s[0] == '0') == (n == 0)
  {
    if n < 10 then [DigitChar(n)] else Decimal(n / 10) + [DigitChar(n % 10)]
  }

  /** The value of a string of ASCII digits, read left to right
      (Python's `int(...)` on such a string; leading zeros are allowed). */
  function ParseDigits(s: string): nat
    requires AllDigits(s)
  {
    if s == [] then 0 else ParseDigits(s[..|s| - 1]) * 10 + DigitValue(s[|s| - 1])
  }

  /** `int(str(n)) == n`. */
  lemma {:induction false} DecimalRoundTrip(n: nat)
    ensures ParseDigits(Decimal(n)) == n
  {
    if n >= 10 {
      var s := Decimal(n);
      assert s[..|s| - 1] == Decimal(n / 10);
      DecimalRoundTrip(n / 10);
    }
  }

  lemma DecimalInjective(m: nat, n: nat)
    ensures Decimal(m) == Decimal(n) ==> m == n
  {
    DecimalRoundTrip(m);
    DecimalRoundTrip(n);
  }

  /** A number below 10^k has at most k digits. */
  lemma {:induction false} DecimalLength(n: nat, k: nat)
    requires k >= 1 && n < Pow10(k)
    ensures |Decimal(n)| <= k
  {
    if n >= 10 {
      DecimalLength(n / 10, k - 1);
    }
  }

  /** Python's `%09d` (and `{i:09d}`) for a natural number: the decimal digits,
      left-padded with zeros to a width of at least nine. */
  function Pad9(n: nat): (s: string)
    ensures AllDigits(s) && |s| >= 9
  {
    PadLeft(Decimal(n), 9)
  }

  /** Zeros are prepended to `d` until it is `w` characters wide. */
  function PadLeft(d: string, w: nat): (s: string)
    requires AllDigits(d)
    ensures AllDigits(s)
    ensures |s| == if |d| < w then w else |d|
    decreases if |d| < w then w - |d| else 0
  {
    if |d| >= w then d else PadLeft("0" + d, w)
  }

  /** A leading zero does not change the value of a digit string. */
  lemma {:induction false} LeadingZero(s: string)
    requires AllDigits(s)
    ensures ParseDigits("0" + s) == ParseDigits(s)
  {
    if s != [] {
      var t := "0" + s;
      assert t[..|t| - 1] == "0" + s[..|s| - 1];
      LeadingZero(s[..|s| - 1]);
    }
  }

  /** Padding with zeros does not change the value. */
  lemma {:induction false} PadLeftValue(d: string, w: nat)
    requires AllDigits(d)
    ensures ParseDigits(PadLeft(d, w)) == ParseDigits(d)
    decreases if |d| < w then w - |d| else 0
  {
    if |d| < w {
      PadLeftValue("0" + d, w);
      LeadingZero(d);
    }
  }

  /** Reading a padded index back gives the index: the key format loses nothing. */
  lemma Pad9RoundTrip(n: nat)
    ensures ParseDigits(Pad9(n)) == n
  {
    DecimalRoundTrip(n);
    PadLeftValue(Decimal(n), 9);
  }

  /** Distinct indices give distinct padded strings, for every index (not only below 10^9). */
  lemma Pad9Injective(m: nat, n: nat)
    ensures Pad9(m) == Pad9(n) ==> m == n
  {
    Pad9RoundTrip(m);
    Pad9RoundTrip(n);
  }

  /** Below 10^9 the padded string is exactly nine characters wide. */
  lemma Pad9Width(n: nat)
    requires n < 1_000_000_000
    ensures |Pad9(n)| == 9
  {
    assert Pow10(9) == 1_000_000_000;
    DecimalLength(n, 9);
  }
}
