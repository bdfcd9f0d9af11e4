/** Decimal text of unsigned integers, as Rust's `{}` formatting writes them. */
module Decimal {
  predicate IsDigit(c: char) {
    '0' <= c <= '9'
  }

  predicate AllDigits(s: string) {
    forall i :: 0 <= i < |s| ==> IsDigit(s[i])
  }

  /** A numeral in the form `{}` writes: at least one digit and no leading zero. */
  predicate Canonical(s: string) {
    |s| >= 1 && AllDigits(s) && (|s| > 1 ==> s[0] != '0')
  }

  function DigitChar(d: nat): (c: char)
    requires d < 10
    ensures IsDigit(c)
  {
    ('0' as int + d) as char
  }

  function DigitValue(c: char): (d: nat)
    requires IsDigit(c)
    ensures d < 10
  {
    c as int - '0' as int
  }

  /** The decimal text of `n`. */
  function NatToDecimal(n: nat): (s: string)
    ensures Canonical(s)
    ensures s[0] == '0' <==> n == 0
    decreases n
  {
    if n < 10 then [DigitChar(n)] else NatToDecimal(n / 10) + [DigitChar(n % 10)]
  }

  /** The number a string of digits denotes. */
  function DecimalValue(s: string): nat
    requires AllDigits(s)
    decreases |s|
  {
    if s == [] then 0 else DecimalValue(s[..|s| - 1]) * 10 + DigitValue(s[|s| - 1])
  }

  /** Reading back the text of `n` gives `n`. */
  lemma {:induction false} DecimalRoundTrip(n: nat)
    ensures DecimalValue(NatToDecimal(n)) == n
    decreases n
  {
    if n >= 10 {
      var s := NatToDecimal(n / 10);
      DecimalRoundTrip(n / 10);
      assert (s + [DigitChar(n % 10)])[..|s|] == s;
    }
  }

  /** A canonical numeral with a non-zero first digit denotes a positive number. */
  lemma {:induction false} LeadingDigitPositive(s: string)
    requires |s| >= 1 && AllDigits(s) && s[0] != '0'
    ensures DecimalValue(s) >= 1
    decreases |s|
  {
    if |s| > 1 {
      LeadingDigitPositive(s[..|s| - 1]);
    }
  }

  /** Every canonical numeral is the text of the number it denotes. */
  lemma {:induction false} CanonicalRoundTrip(s: string)
    requires Canonical(s)
    ensures NatToDecimal(DecimalValue(s)) == s
    decreases |s|
  {
    if |s| > 1 {
      var t := s[..|s| - 1];
      LeadingDigitPositive(t);
      CanonicalRoundTrip(t);
      var n := DecimalValue(s);
      assert n / 10 == DecimalValue(t) && n % 10 == DigitValue(s[|s| - 1]);
      assert s == t + [s[|s| - 1]];
    }
  }

  /** Different numbers have different texts. */
  lemma NatToDecimalInjective(m: nat, n: nat)
    requires NatToDecimal(m) == NatToDecimal(n)
    ensures m == n
  {
    DecimalRoundTrip(m);
    DecimalRoundTrip(n);
  }
}
