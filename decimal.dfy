/** Decimal digit strings: `str.isdigit` over ASCII digits, `int()` of a digit
    string, and the zero-padded fixed-width rendering that `strftime` uses for
    `%Y`, `%m`, `%d`, `%H`, `%M` and `%S`. */
module Decimal {

  predicate IsDigit(c: char) {
    '0' <= c <= '9'
  }

  predicate AllDigits(s: string) {
    forall i :: 0 <= i < |s| ==> IsDigit(s[i])
  }

  /** `s.isdigit()`: true of a non-empty string made of digits only. */
  predicate IsDigits(s: string) {
    |s| > 0 && AllDigits(s)
  }

  function Pow10(w: nat): (p: nat)
    ensures p >= 1
  {
    if w == 0 then 1 else 10 * Pow10(w - 1)
  }

  function DigitValue(c: char): (d: nat)
    requires IsDigit(c)
    ensures d < 10
  {
    c as int - '0' as int
  }

  function DigitChar(d: nat): (c: char)
    requires d < 10
    ensures IsDigit(c) && DigitValue(c) == d
  {
    ('0' as int + d) as char
  }

  /** `int(s)` for a string of decimal digits, most significant digit first;
      the value always fits in as many digits as the string has. */
  function Value(s: string): (n: nat)
    requires AllDigits(s)
    ensures n < Pow10(|s|)
  {
    if s == [] then 0 else Value(s[..|s| - 1]) * 10 + DigitValue(s[|s| - 1])
  }

  /** The `w` decimal digits of `n`, zero-padded on the left; reading them
      back with `Value` gives `n`. */
  function Digits(n: nat, w: nat): (s: string)
    requires n < Pow10(w)
    ensures |s| == w && AllDigits(s) && Value(s) == n
  {
    if w == 0 then []
    else
      var high := Digits(n / 10, w - 1);
      var s := high + [DigitChar(n % 10)];
      assert s[..w - 1] == high;
      s
  }

  /** Rendering the value of a digit string at its own width gives the string
      back: the padded rendering loses nothing, leading zeros included. */
  lemma {:induction false} DigitsOfValue(s: string)
    requires AllDigits(s)
    ensures Digits(Value(s), |s|) == s
  {
    if s != [] {
      var high := s[..|s| - 1];
      var last := s[|s| - 1];
      DigitsOfValue(high);
      var n := Value(s);
      assert n == Value(high) * 10 + DigitValue(last);
      assert n / 10 == Value(high) && n % 10 == DigitValue(last);
      assert DigitChar(DigitValue(last)) == last;
      assert s == high + [last];
    }
  }
}
