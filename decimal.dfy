/** Decimal digit strings: the arcs of an OBJECT IDENTIFIER in its dotted text form. */
module Decimal {
  import opened Numeric

  predicate IsDigit(c: char)
  {
    '0' <= c <= '9'
  }

  predicate IsDigits(s: string)
  {
    forall i :: 0 <= i < |s| ==> IsDigit(s[i])
  }

  /** A non-empty digit run without a redundant leading zero: the canonical text of a number. */
  predicate IsCanonicalDigits(s: string)
  {
    |s| > 0 && IsDigits(s) && (s[0] == '0' ==> |s| == 1)
  }

  function DigitChar(d: nat): (c: char)
    requires d < 10
    ensures IsDigit(c)
  {
    ('0' as int + d) as char
  }

  /** The number a digit string denotes (Int64.Parse / new BigInteger(string) on digits). */
  function ParseDigits(s: string): nat
    requires IsDigits(s)
  {
    if |s| == 0 then 0 else ParseDigits(s[..|s| - 1]) * 10 + (s[|s| - 1] as int - '0' as int)
  }

  /** The shortest decimal text of a number (StringBuilder.Append of a long or BigInteger). */
  function DecimalString(n: nat): (s: string)
    ensures IsCanonicalDigits(s)
  {
    if n < 10 then [DigitChar(n)] else DecimalString(n / 10) + [DigitChar(n % 10)]
  }

  lemma {:induction false} ParseDecimalString(n: nat)
    ensures ParseDigits(DecimalString(n)) == n
  {
    var s := DecimalString(n);
    if n < 10 {
      assert s[..0] == [];
    } else {
      ParseDecimalString(n / 10);
      assert s[..|s| - 1] == DecimalString(n / 10);
    }
  }

  lemma {:induction false} ParseDigitsBound(s: string)
    requires IsDigits(s)
    ensures ParseDigits(s) < Pow(10, |s|)
  {
    if |s| > 0 {
      ParseDigitsBound(s[..|s| - 1]);
      assert Pow(10, |s|) == 10 * Pow(10, |s| - 1);
    }
  }

  lemma {:induction false} ParseDigitsLowerBound(s: string)
    requires IsDigits(s) && |s| > 0
    ensures ParseDigits(s) >= (s[0] as int - '0' as int) * Pow(10, |s| - 1)
  {
    if |s| > 1 {
      var init := s[..|s| - 1];
      ParseDigitsLowerBound(init);
      assert init[0] == s[0];
      assert Pow(10, |s| - 1) == 10 * Pow(10, |s| - 2);
      ShiftLowerBound(ParseDigits(init), s[0] as int - '0' as int, Pow(10, |s| - 2), s[|s| - 1] as int - '0' as int);
    }
  }

  /** One more digit on the right multiplies a lower bound by ten. */
  lemma ShiftLowerBound(x: int, d: int, q: int, last: int)
    requires x >= d * q && last >= 0
    ensures x * 10 + last >= d * (10 * q)
  {
    assert d * (10 * q) == (d * q) * 10;
  }

  /** Canonical digit strings are exactly the texts DecimalString produces. */
  lemma {:induction false} DecimalStringOfParse(s: string)
    requires IsCanonicalDigits(s)
    ensures DecimalString(ParseDigits(s)) == s
  {
    var n := ParseDigits(s);
    if |s| == 1 {
      assert s[..0] == [];
    } else {
      var init := s[..|s| - 1];
      assert init[0] == s[0] && s[0] != '0';
      ParseDigitsLowerBound(init);
      assert ParseDigits(init) >= 1;
      assert n / 10 == ParseDigits(init) && n % 10 == s[|s| - 1] as int - '0' as int;
      DecimalStringOfParse(init);
      assert s == init + [s[|s| - 1]];
    }
  }
}
