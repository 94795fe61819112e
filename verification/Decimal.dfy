/** Decimal numerals. */
module Decimal {

  predicate IsDigit(c: char) {
    '0' <= c <= '9'
  }

  predicate AllDigits(s: string) {
    forall i | 0 <= i < |s| :: IsDigit(s[i])
  }

  function DigitValue(c: char): nat
    requires IsDigit(c)
  {
    (c - '0') as nat
  }

  /** The number a string of digits denotes; leading zeros are allowed. */
  function Value(s: string): nat
    requires AllDigits(s)
  {
    if s == "" then 0 else 10 * Value(s[..|s| - 1]) + DigitValue(s[|s| - 1])
  }

  function DigitChar(d: nat): char
    requires d < 10
  {
    "0123456789"[d]
  }

  lemma {:induction false} DigitRoundTrip(d: nat)
    requires d < 10
    ensures IsDigit(DigitChar(d)) && DigitValue(DigitChar(d)) == d
  {
  }

  /** The canonical numeral. */
  function Numeral(n: nat): string {
    if n < 10 then [DigitChar(n)] else Numeral(n / 10) + [DigitChar(n % 10)]
  }

  lemma {:induction false} NumeralRoundTrip(n: nat)
    ensures Numeral(n) != "" && AllDigits(Numeral(n)) && Value(Numeral(n)) == n
  {
    hide DigitChar, DigitValue;
    DigitRoundTrip(n % 10);
    if n < 10 {
      assert Numeral(n)[..0] == "";
    } else {
      NumeralRoundTrip(n / 10);
      assert Numeral(n)[..|Numeral(n)| - 1] == Numeral(n / 10);
    }
  }

  /** It has no leading zero. */
  lemma {:induction false} NumeralIsCanonical(n: nat)
    ensures n > 0 ==> Numeral(n)[0] != '0'
    ensures n == 0 ==> Numeral(n) == "0"
  {
    if n >= 10 {
      NumeralIsCanonical(n / 10);
      assert Numeral(n)[0] == Numeral(n / 10)[0];
    }
  }

  lemma {:induction false} ValueStep(s: string, n: nat)
    requires n < |s| && AllDigits(s[..n + 1])
    ensures IsDigit(s[n]) && AllDigits(s[..n]) && Value(s[..n + 1]) == 10 * Value(s[..n]) + DigitValue(s[n])
  {
    assert s[..n + 1][n] == s[n] && s[..n + 1][..n] == s[..n];
  }
}
