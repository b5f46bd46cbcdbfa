/** Rendering of a count in base ten, as the "%d" verb and template
    interpolation print a non-negative integer in the error messages. */
module Decimal {

  predicate IsDigit(c: char) {
    '0' <= c <= '9'
  }

  function DigitChar(d: nat): (c: char)
    requires d < 10
    ensures IsDigit(c)
  {
    "0123456789"[d]
  }

  function DigitValue(c: char): (d: nat)
    requires IsDigit(c)
    ensures d < 10
  {
    (c as int) - ('0' as int)
  }

  /** Base-ten digits of n, most significant first, without leading zeros. */
  function Digits(n: nat): (s: string)
    ensures |s| >= 1
    ensures forall k | 0 <= k < |s| :: IsDigit(s[k])
    ensures |s| > 1 ==> s[0] != '0'
    decreases n
  {
    if n < 10 then [DigitChar(n)] else Digits(n / 10) + [DigitChar(n % 10)]
  }

  /** The value of a string of digits. */
  function Value(s: string): (n: nat)
    requires forall k | 0 <= k < |s| :: IsDigit(s[k])
    decreases |s|
  {
    if |s| == 0 then 0 else 10 * Value(s[..|s| - 1]) + DigitValue(s[|s| - 1])
  }

  /** Reading the digits back gives the number. */
  lemma {:induction false} ValueDigits(n: nat)
    ensures Value(Digits(n)) == n
    decreases n
  {
    var s := Digits(n);
    if n < 10 {
      assert s[..0] == [];
    } else {
      ValueDigits(n / 10);
      assert s[..|s| - 1] == Digits(n / 10);
    }
  }

  /** Different counts print differently. */
  lemma DigitsInjective(m: nat, n: nat)
    requires Digits(m) == Digits(n)
    ensures m == n
  {
    ValueDigits(m);
    ValueDigits(n);
  }

  /** A message followed by a count in base ten: the message is kept as it is,
      the rest of the text reads back as the count, and it has no leading zero
      (a zero count is the single digit "0"). Only one text meets all three. */
  function WithCount(prefix: string, n: nat): (text: string)
    ensures |text| > |prefix| && text[..|prefix|] == prefix
    ensures forall k | 0 <= k < |text[|prefix|..]| :: IsDigit(text[|prefix|..][k])
    ensures Value(text[|prefix|..]) == n
    ensures |text| == |prefix| + 1 || text[|prefix|] != '0'
  {
    var digits := Digits(n);
    ValueDigits(n);
    assert (prefix + digits)[|prefix|..] == digits;
    assert (prefix + digits)[|prefix|] == digits[0];
    prefix + digits
  }
}
