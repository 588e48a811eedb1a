/** Decimal digits: reading and writing fixed-width, zero-padded numbers, as the
    `HH:mm` time format and the ISO-8601 date text use them. */
module Digits {

  predicate IsDigit(c: char) {
    '0' <= c <= '9'
  }

  predicate AllDigits(s: string) {
    forall i :: 0 <= i < |s| ==> IsDigit(s[i])
  }

  function DigitValue(c: char): (d: nat)
    requires IsDigit(c)
    ensures d < 10
  {
    c as int - '0' as int
  }

  function DigitChar(d: nat): (c: char)
    requires d < 10
    ensures IsDigit(c) && DigitValue(c) == d
  {
    ('0' as int + d) as char
  }

  lemma DigitCharOfValue(c: char)
    requires IsDigit(c)
    ensures DigitChar(DigitValue(c)) == c
  {
  }

  function Pow10(w: nat): (p: nat)
    ensures p >= 1
  {
    if w == 0 then 1 else 10 * Pow10(w - 1)
  }

  /** The `w` least significant decimal digits of `n`, zero-padded on the left
      (what a `padStart(w, "0")` of a number below 10^w yields). */
  function Decimal(n: nat, w: nat): (r: string)
    requires n < Pow10(w)
    ensures |r| == w && AllDigits(r)
    decreases w
  {
    if w == 0 then "" else Decimal(n / 10, w - 1) + [DigitChar(n % 10)]
  }

  /** The number a string of decimal digits denotes. */
  function DecimalValue(s: string): (n: nat)
    requires AllDigits(s)
    ensures n < Pow10(|s|)
  {
    if s == [] then 0 else DecimalValue(s[..|s| - 1]) * 10 + DigitValue(s[|s| - 1])
  }

  /** Writing a number and reading it back gives the number. */
  lemma {:induction false} DecimalValueOfDecimal(n: nat, w: nat)
    requires n < Pow10(w)
    ensures DecimalValue(Decimal(n, w)) == n
    decreases w
  {
    if w > 0 {
      var s := Decimal(n, w);
      assert s[..w - 1] == Decimal(n / 10, w - 1);
      DecimalValueOfDecimal(n / 10, w - 1);
    }
  }

  /** Reading a digit string and writing it back at the same width gives the string. */
  lemma {:induction false} DecimalOfDecimalValue(s: string)
    requires AllDigits(s)
    ensures Decimal(DecimalValue(s), |s|) == s
  {
    if s != [] {
      var p := s[..|s| - 1];
      var n := DecimalValue(s);
      assert n / 10 == DecimalValue(p) && n % 10 == DigitValue(s[|s| - 1]);
      DecimalOfDecimalValue(p);
      DigitCharOfValue(s[|s| - 1]);
      assert s == p + [s[|s| - 1]];
    }
  }

  /** A two-digit decimal is the tens digit followed by the units digit. */
  lemma TwoDigits(n: nat)
    requires n < 100
    ensures Pow10(2) == 100 && Decimal(n, 2) == [DigitChar(n / 10), DigitChar(n % 10)]
  {
    assert Pow10(1) == 10 && Pow10(2) == 100;
    var t, u := n / 10, n % 10;
    assert t < 10 && t / 10 == 0 && t % 10 == t;
    assert Decimal(t, 1) == Decimal(0, 0) + [DigitChar(t)];
    assert Decimal(n, 2) == Decimal(t, 1) + [DigitChar(u)];
  }

  lemma TwoDigitValue(s: string)
    requires |s| == 2 && AllDigits(s)
    ensures DecimalValue(s) == 10 * DigitValue(s[0]) + DigitValue(s[1])
  {
    assert s[..1][..0] == [];
  }
}
