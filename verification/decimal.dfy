/** Decimal rendering of integers, as `std::to_string` writes them: optional
    minus sign, then the digits without leading zeros. */
module Decimal {

  predicate IsDigit(c: char) {
    '0' <= c <= '9'
  }

  function DigitChar(d: nat): (c: char)
    requires d < 10
    ensures IsDigit(c)
  {
    ['0', '1', '2', '3', '4', '5', '6', '7', '8', '9'][d]
  }

  /** The decimal digits of `n`, most significant first. */
  function NatToString(n: nat): (s: string)
    ensures |s| > 0
    ensures forall k :: 0 <= k < |s| ==> IsDigit(s[k])
    decreases n
  {
    if n < 10 then [DigitChar(n)] else NatToString(n / 10) + [DigitChar(n % 10)]
  }

  /** The number a digit character stands for. */
  function DigitValue(c: char): (d: nat)
    requires IsDigit(c)
    ensures d < 10 && DigitChar(d) == c
  {
    c as int - '0' as int
  }

  /** The number a string of decimal digits denotes, read most significant
      digit first. */
  function DigitsValue(s: string): (n: nat)
    requires forall k :: 0 <= k < |s| ==> IsDigit(s[k])
    ensures |s| == 0 ==> n == 0
    decreases |s|
  {
    if |s| == 0 then 0 else DigitsValue(s[..|s| - 1]) * 10 + DigitValue(s[|s| - 1])
  }

  /** Reading the rendering back gives the number, and only zero itself starts
      with a zero digit. */
  lemma {:induction false} NatToStringValue(n: nat)
    ensures DigitsValue(NatToString(n)) == n
    ensures NatToString(n)[0] == '0' <==> n == 0
    decreases n
  {
    var s := NatToString(n);
    if n < 10 {
      assert s[..0] == [];
    } else {
      assert s[..|s| - 1] == NatToString(n / 10);
      assert s[|s| - 1] == DigitChar(n % 10);
      NatToStringValue(n / 10);
      assert s[0] == NatToString(n / 10)[0];
    }
  }

  /** `std::to_string` of a signed integer: a minus sign for negative numbers,
      then the digits of the magnitude. */
  function IntToString(i: int): (s: string)
    ensures |s| > 0
    ensures i >= 0 <==> IsDigit(s[0])
    ensures i >= 0 ==> forall k :: 0 <= k < |s| ==> IsDigit(s[k])
    ensures i < 0 ==> s[0] == '-' && |s| > 1 && forall k :: 1 <= k < |s| ==> IsDigit(s[k])
  {
    if i < 0 then "-" + NatToString(-i) else NatToString(i)
  }

  /** The digits of a rendering read back as the integer's magnitude, and
      start with `0` only for zero itself. */
  lemma IntToStringValue(i: int)
    ensures i >= 0 ==> DigitsValue(IntToString(i)) == i
    ensures i < 0 ==> DigitsValue(IntToString(i)[1..]) == -i
    ensures IntToString(i)[0] == '0' <==> i == 0
    ensures i < 0 ==> IntToString(i)[1] != '0'
  {
    NatToStringValue(if i < 0 then -i else i);
    if i < 0 {
      assert IntToString(i)[1..] == NatToString(-i);
    }
  }

  lemma DigitCharInjective(a: nat, b: nat)
    requires a < 10 && b < 10
    requires DigitChar(a) == DigitChar(b)
    ensures a == b
  {
  }

  /** A number has a single digit exactly when it is below ten. */
  lemma {:induction false} NatToStringLength(n: nat)
    ensures n < 10 <==> |NatToString(n)| == 1
  {
    if n >= 10 {
      assert |NatToString(n)| == |NatToString(n / 10)| + 1;
    }
  }

  /** Distinct numbers are rendered as distinct strings. */
  lemma {:induction false} NatToStringInjective(a: nat, b: nat)
    requires NatToString(a) == NatToString(b)
    ensures a == b
    decreases a
  {
    NatToStringLength(a);
    NatToStringLength(b);
    if a < 10 {
      DigitCharInjective(a, b);
    } else {
      var sa := NatToString(a);
      var sb := NatToString(b);
      assert sa == NatToString(a / 10) + [DigitChar(a % 10)];
      assert sb == NatToString(b / 10) + [DigitChar(b % 10)];
      assert sa[..|sa| - 1] == NatToString(a / 10);
      assert sb[..|sb| - 1] == NatToString(b / 10);
      DigitCharInjective(a % 10, b % 10);
      NatToStringInjective(a / 10, b / 10);
    }
  }

  /** Distinct integers are rendered as distinct strings. */
  lemma IntToStringInjective(a: int, b: int)
    requires IntToString(a) == IntToString(b)
    ensures a == b
  {
    if a < 0 && b < 0 {
      assert NatToString(-a) == IntToString(a)[1..];
      assert NatToString(-b) == IntToString(b)[1..];
      NatToStringInjective(-a, -b);
    } else if a >= 0 && b >= 0 {
      NatToStringInjective(a, b);
    }
  }
}
