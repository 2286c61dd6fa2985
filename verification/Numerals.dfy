/** Decimal numerals as Rust prints and reads them. */
module Numerals {

  predicate IsDigit(c: char) { '0' <= c <= '9' }

  function DigitChar(d: nat): char
    requires d < 10
  {
    '0' + (d as char)
  }

  function DigitValue(c: char): nat
    requires IsDigit(c)
  {
    (c - '0') as nat
  }

  /** The ten digits, in order. */
  lemma DigitsInOrder(d: nat)
    requires d < 10
    ensures DigitChar(d) == "0123456789"[d] && IsDigit(DigitChar(d)) && DigitValue(DigitChar(d)) == d
  {
  }

  lemma DigitsOnly(c: char)
    ensures IsDigit(c) <==> c in "0123456789"
  {
    if IsDigit(c) { assert c == "0123456789"[DigitValue(c)]; }
  }

  function Decimal(n: nat): string {
    if n < 10 then [DigitChar(n)] else Decimal(n / 10) + [DigitChar(n % 10)]
  }

  predicate AllDigits(s: string) { forall i :: 0 <= i < |s| ==> IsDigit(s[i]) }

  function DecimalValue(s: string): nat
    requires AllDigits(s)
  {
    if s == "" then 0 else 10 * DecimalValue(s[..|s| - 1]) + DigitValue(s[|s| - 1])
  }

  /** No sign and no superfluous leading zero: the shape `to_string` produces. */
  predicate PlainNumeral(s: string) {
    s != "" && AllDigits(s) && (s[0] == '0' ==> |s| == 1)
  }

  lemma {:induction false} DecimalIsPlain(n: nat)
    ensures PlainNumeral(Decimal(n)) && DecimalValue(Decimal(n)) == n
    ensures n > 0 ==> Decimal(n)[0] != '0'
  {
    if n >= 10 {
      DecimalIsPlain(n / 10);
      var s := Decimal(n);
      assert s[..|s| - 1] == Decimal(n / 10);
    }
  }

  lemma {:induction false} PositiveWhenLeading(s: string)
    requires s != "" && AllDigits(s) && s[0] != '0'
    ensures DecimalValue(s) > 0
  {
    if |s| > 1 { PositiveWhenLeading(s[..|s| - 1]); }
  }

  lemma {:induction false} PlainIsDecimal(s: string)
    requires PlainNumeral(s)
    ensures Decimal(DecimalValue(s)) == s
  {
    if |s| == 1 {
      assert s[..0] == "";
      assert s == [s[0]];
    } else {
      var front := s[..|s| - 1];
      PlainIsDecimal(front);
      PositiveWhenLeading(front);
      assert s == front + [s[|s| - 1]];
    }
  }
}
