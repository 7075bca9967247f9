/** Decimal digit strings as the answer buffer holds them, and the value
    that parsing such a string in base 10 gives. */
module Decimal {

  type DigitChar = c: char | '0' <= c <= '9' witness '0'

  function DigitValue(c: DigitChar): (n: nat)
    ensures n < 10
  {
    (c as int) - ('0' as int)
  }

  function DigitOf(n: nat): (c: DigitChar)
    requires n < 10
    ensures DigitValue(c) == n
  {
    ('0' as int + n) as char
  }

  function Pow10(n: nat): (p: nat)
    ensures p >= 1
  {
    if n == 0 then 1 else 10 * Pow10(n - 1)
  }

  /** The number a non-empty string of decimal digits denotes; leading
      zeros are allowed and add nothing, so "007" denotes 7. */
  function Value(s: seq<DigitChar>): (v: nat)
    requires s != []
    ensures v < Pow10(|s|)
  {
    if |s| == 1 then DigitValue(s[0])
    else
      var prefix := Value(s[..|s| - 1]);
      assert prefix + 1 <= Pow10(|s| - 1);
      assert (prefix + 1) * 10 <= Pow10(|s| - 1) * 10;
      prefix * 10 + DigitValue(s[|s| - 1])
  }

  /** The last `width` decimal digits of n, padded on the left with zeros. */
  function Digits(n: nat, width: nat): (s: seq<DigitChar>)
    requires width >= 1
    ensures |s| == width
  {
    if width == 1 then [DigitOf(n % 10)]
    else Digits(n / 10, width - 1) + [DigitOf(n % 10)]
  }

  /** Padding then parsing gives the number back when it fits the width. */
  lemma {:induction false} ValueOfDigits(n: nat, width: nat)
    requires width >= 1 && n < Pow10(width)
    ensures Value(Digits(n, width)) == n
  {
    var s := Digits(n, width);
    if width > 1 {
      assert s[..|s| - 1] == Digits(n / 10, width - 1);
      ValueOfDigits(n / 10, width - 1);
    }
  }

  /** Parsing then padding to the same width gives the string back. */
  lemma {:induction false} DigitsOfValue(s: seq<DigitChar>)
    requires s != []
    ensures Digits(Value(s), |s|) == s
  {
    if |s| > 1 {
      var prefix := s[..|s| - 1];
      DigitsOfValue(prefix);
      var v := Value(s);
      assert v / 10 == Value(prefix);
      assert v % 10 == DigitValue(s[|s| - 1]);
      assert s == prefix + [s[|s| - 1]];
    }
  }

  /** A string parses to v exactly when it is v written with leading zeros
      to the string's length: the answers accepted for v are v, 0v, 00v, ... */
  lemma {:induction false} ParsesTo(s: seq<DigitChar>, v: nat)
    requires s != [] && v < Pow10(|s|)
    ensures Value(s) == v <==> s == Digits(v, |s|)
  {
    DigitsOfValue(s);
    ValueOfDigits(v, |s|);
  }

  /** A leading zero does not change the value. */
  lemma {:induction false} LeadingZero(s: seq<DigitChar>)
    requires s != []
    ensures Value(['0'] + s) == Value(s)
  {
    var z := ['0'] + s;
    if |s| > 1 {
      assert z[..|z| - 1] == ['0'] + s[..|s| - 1];
      LeadingZero(s[..|s| - 1]);
    } else {
      assert z[..|z| - 1] == ['0'];
    }
  }
}
