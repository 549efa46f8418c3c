/** Decimal text of integers, as `sprintf('%d', n)` and PHP's int-to-string
    conversion write it, together with the reading that undoes it. */
module Decimal {
  import opened Wrappers

  predicate IsDigit(c: char)
  {
    '0' <= c <= '9'
  }

  predicate AllDigits(s: string)
  {
    forall i :: 0 <= i < |s| ==> IsDigit(s[i])
  }

  function DigitChar(d: nat): (c: char)
    requires d < 10
    ensures IsDigit(c)
    ensures DigitValue(c) == d
  {
    ('0' as int + d) as char
  }

  function DigitValue(c: char): (d: nat)
    requires IsDigit(c)
    ensures d < 10
  {
    c as int - '0' as int
  }

  /** Digits of `n`, most significant first, without leading zeros. */
  function NatToDecimal(n: nat): (s: string)
    ensures 1 <= |s|
    ensures AllDigits(s)
    ensures |s| > 1 ==> s[0] != '0'
    ensures n > 0 ==> s[0] != '0'
    decreases n
  {
    if n < 10 then [DigitChar(n)] else NatToDecimal(n / 10) + [DigitChar(n % 10)]
  }

  /** The number a string of digits denotes. */
  function DecimalValue(s: string): nat
    requires AllDigits(s)
    decreases |s|
  {
    if s == [] then 0 else DecimalValue(s[..|s| - 1]) * 10 + DigitValue(s[|s| - 1])
  }

  /** Reading the digits back gives the number. */
  lemma {:induction false} NatDecimalRoundTrip(n: nat)
    ensures DecimalValue(NatToDecimal(n)) == n
    decreases n
  {
    var s := NatToDecimal(n);
    if n >= 10 {
      NatDecimalRoundTrip(n / 10);
      assert s[..|s| - 1] == NatToDecimal(n / 10);
    }
  }

  /** A digit string that does not start with `0` denotes a positive number. */
  lemma {:induction false} LeadingDigitPositive(s: string)
    requires |s| >= 1 && AllDigits(s) && s[0] != '0'
    ensures DecimalValue(s) > 0
    decreases |s|
  {
    if |s| > 1 {
      LeadingDigitPositive(s[..|s| - 1]);
    }
  }

  /** A digit string without leading zeros is the decimal text of the number
      it denotes: reading back and the absence of leading zeros fix the text. */
  lemma {:induction false} NatDecimalUnique(s: string)
    requires |s| >= 1 && AllDigits(s) && (|s| > 1 ==> s[0] != '0')
    ensures s == NatToDecimal(DecimalValue(s))
    decreases |s|
  {
    var n := DecimalValue(s);
    if |s| == 1 {
      assert DigitChar(DigitValue(s[0])) == s[0];
    } else {
      var p := s[..|s| - 1];
      LeadingDigitPositive(p);
      NatDecimalUnique(p);
      assert n / 10 == DecimalValue(p) && n % 10 == DigitValue(s[|s| - 1]);
      assert DigitChar(DigitValue(s[|s| - 1])) == s[|s| - 1];
      assert s == p + [s[|s| - 1]];
    }
  }

  /** `%d`: a minus sign for negative numbers, then the digits of the magnitude. */
  function IntToDecimal(n: int): (s: string)
    ensures 1 <= |s|
    ensures n >= 0 ==> AllDigits(s)
    ensures n < 0 ==> s[0] == '-' && AllDigits(s[1..]) && |s| >= 2
    ensures n >= 0 && |s| > 1 ==> s[0] != '0'
    ensures n < 0 ==> s[1] != '0'
  {
    if n < 0 then "-" + NatToDecimal(-n) else NatToDecimal(n)
  }

  /** Reads an optionally signed decimal integer; `None` for any other text. */
  function ParseInt(s: string): (r: Option<int>)
  {
    if |s| >= 2 && s[0] == '-' && AllDigits(s[1..]) then Some(-(DecimalValue(s[1..]) as int))
    else if |s| >= 1 && AllDigits(s) then Some(DecimalValue(s))
    else None
  }

  /** The decimal text of an integer reads back as that integer. */
  lemma IntDecimalRoundTrip(n: int)
    ensures ParseInt(IntToDecimal(n)) == Some(n)
  {
    if n < 0 {
      NatDecimalRoundTrip(-n);
      assert IntToDecimal(n)[1..] == NatToDecimal(-n);
    } else {
      NatDecimalRoundTrip(n);
    }
  }

  /** The way `%d` writes an integer: digits without leading zeros, after a
      minus sign for negative numbers, and never `-0`. */
  predicate DecimalForm(s: string)
  {
    if |s| >= 1 && s[0] == '-' then |s| >= 2 && AllDigits(s[1..]) && s[1] != '0'
    else |s| >= 1 && AllDigits(s) && (|s| > 1 ==> s[0] != '0')
  }

  /** The decimal text of an integer is in the form `%d` writes. */
  lemma IntToDecimalForm(n: int)
    ensures DecimalForm(IntToDecimal(n))
  {
  }

  /** A text in `%d` form that reads back as `n` is the decimal text of `n`. */
  lemma IntDecimalUnique(s: string, n: int)
    requires DecimalForm(s)
    requires ParseInt(s) == Some(n)
    ensures s == IntToDecimal(n)
  {
    if s[0] == '-' {
      NatDecimalUnique(s[1..]);
      LeadingDigitPositive(s[1..]);
      assert s == "-" + s[1..];
    } else {
      NatDecimalUnique(s);
    }
  }

  /** Distinct integers have distinct decimal texts. */
  lemma IntToDecimalInjective(m: int, n: int)
    requires IntToDecimal(m) == IntToDecimal(n)
    ensures m == n
  {
    IntDecimalRoundTrip(m);
    IntDecimalRoundTrip(n);
  }
}
