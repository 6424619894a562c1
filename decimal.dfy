/**
 * The two integer verbs of Go's `fmt` that the disassembler and the error
 * messages use: `%d` (decimal, with a leading '-' when negative) and `%04d`
 * (decimal, left-padded with '0' to at least four characters).
 */
module Decimal {

  predicate IsDigit(c: char) {
    '0' <= c <= '9'
  }

  predicate AllDigits(s: string) {
    forall i :: 0 <= i < |s| ==> IsDigit(s[i])
  }

  function DigitChar(d: nat): (c: char)
    requires d < 10
    ensures IsDigit(c) && c as int - '0' as int == d
  {
    (('0' as int) + d) as char
  }

  /** The value a string of decimal digits denotes (reference reading of `%d`'s output). */
  function DigitsValue(s: string): nat
    requires AllDigits(s)
  {
    if s == [] then 0
    else DigitsValue(s[..|s| - 1]) * 10 + (s[|s| - 1] as int - '0' as int)
  }

  /** `%d` of a non-negative number: its shortest decimal spelling. */
  function NatToString(n: nat): string
    decreases n
  {
    if n < 10 then [DigitChar(n)]
    else NatToString(n / 10) + [DigitChar(n % 10)]
  }

  /** `NatToString` writes at least one digit, only digits, and no leading zero; one digit exactly below 10. */
  lemma {:induction false} NatToStringShape(n: nat)
    ensures var s := NatToString(n);
      1 <= |s| && AllDigits(s) && (|s| > 1 ==> s[0] != '0') && (n < 10 <==> |s| == 1)
    decreases n
  {
    if n >= 10 {
      NatToStringShape(n / 10);
    }
  }

  /** Reading back what `NatToString` wrote gives the number again. */
  lemma {:induction false} NatToStringRoundTrip(n: nat)
    ensures AllDigits(NatToString(n)) && DigitsValue(NatToString(n)) == n
    decreases n
  {
    NatToStringShape(n);
    if n >= 10 {
      NatToStringRoundTrip(n / 10);
      var s := NatToString(n);
      assert s[..|s| - 1] == NatToString(n / 10);
    }
  }

  /** `%d` of any integer. */
  function IntToString(i: int): string
  {
    if i < 0 then "-" + NatToString(-i) else NatToString(i)
  }

  /** `%04d` of a non-negative number. */
  function ZeroPad4(n: nat): string
  {
    PadZeros(NatToString(n))
  }

  /** `s` with '0's in front until it is four characters long. */
  function PadZeros(s: string): string
    decreases 4 - |s|
  {
    if |s| >= 4 then s else PadZeros(['0'] + s)
  }

  /** `%04d` of a single digit: three '0's, then the digit. */
  lemma ZeroPad4Small(n: nat)
    requires n < 10
    ensures ZeroPad4(n) == ['0', '0', '0', DigitChar(n)]
  {
    var c := DigitChar(n);
    assert NatToString(n) == [c];
    assert ['0'] + [c] == ['0', c] && ['0'] + ['0', c] == ['0', '0', c] && ['0'] + ['0', '0', c] == ['0', '0', '0', c];
    assert PadZeros([c]) == PadZeros(['0', c]) == PadZeros(['0', '0', c]) == PadZeros(['0', '0', '0', c]);
  }

  /** `%04d` writes at least four digits, and as many as `%d` when there are more, denoting the same number. */
  lemma ZeroPad4Value(n: nat)
    ensures |ZeroPad4(n)| == if |NatToString(n)| < 4 then 4 else |NatToString(n)|
    ensures AllDigits(ZeroPad4(n)) && DigitsValue(ZeroPad4(n)) == n
  {
    NatToStringRoundTrip(n);
    PadZerosValue(NatToString(n));
  }

  lemma {:induction false} PadZerosValue(s: string)
    requires AllDigits(s)
    ensures |PadZeros(s)| == if |s| < 4 then 4 else |s|
    ensures AllDigits(PadZeros(s)) && DigitsValue(PadZeros(s)) == DigitsValue(s)
    decreases 4 - |s|
  {
    if |s| < 4 {
      LeadingZero(s);
      PadZerosValue(['0'] + s);
    }
  }

  /** A leading zero does not change the value of a digit string. */
  lemma {:induction false} LeadingZero(s: string)
    requires AllDigits(s)
    ensures AllDigits(['0'] + s) && DigitsValue(['0'] + s) == DigitsValue(s)
    decreases |s|
  {
    if s != [] {
      var t := s[..|s| - 1];
      LeadingZero(t);
      assert (['0'] + s)[..|s|] == ['0'] + t;
    }
  }
}
