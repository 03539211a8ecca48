/** Decimal text of integers, as Python's `str(int)` writes it inside an
    f-string: an optional `-`, then the digits with no leading zeros. The
    reader `ParseInt` is the inverse used to show that the written metadata
    can be read back. */
module Decimal {

  datatype Option<T> = None | Some(value: T)

  predicate IsDigit(c: char)
  {
    '0' <= c <= '9'
  }

  predicate AllDigits(s: string)
  {
    forall i :: 0 <= i < |s| ==> IsDigit(s[i])
  }

  function DigitChar(d: nat): (c: char)
    requires d < 10
    ensures IsDigit(c)
  {
    (48 + d) as char
  }

  function DigitValue(c: char): (d: nat)
    requires IsDigit(c)
    ensures d < 10 && DigitChar(d) == c
  {
    c as int - 48
  }

  /** The decimal digits of `n`, most significant first. */
  function NatToString(n: nat): (s: string)
    ensures |s| > 0 && AllDigits(s)
    ensures s[0] == '0' ==> n == 0
    decreases n
  {
    if n < 10 then [DigitChar(n)] else NatToString(n / 10) + [DigitChar(n % 10)]
  }

  /** The sign that `str` writes: `-` for a negative integer, nothing
      otherwise. */
  function Sign(i: int): string
  {
    if i < 0 then "-" else ""
  }

  function Magnitude(i: int): nat
  {
    if i < 0 then -i else i
  }

  /** `str(i)` for a Python int: the sign, then the digits of the magnitude. */
  function IntToString(i: int): (s: string)
  {
    Sign(i) + NatToString(Magnitude(i))
  }

  /** The decimal text of an integer is a non-empty run of digits with no
      leading zero (except for zero itself), led by a `-` exactly when the
      integer is negative. */
  lemma IntToStringShape(i: int)
    ensures var s := IntToString(i);
      && |s| > 0
      && (s[0] == '-') == (i < 0)
      && |if i < 0 then s[1..] else s| > 0
      && AllDigits(if i < 0 then s[1..] else s)
      && (Magnitude(i) != 0 ==> (if i < 0 then s[1..] else s)[0] != '0')
  {
    var digits := NatToString(Magnitude(i));
    if i < 0 {
      assert IntToString(i) == "-" + digits && IntToString(i)[1..] == digits;
    } else {
      assert IntToString(i) == digits;
    }
  }

  /** The value of a non-empty string of decimal digits. */
  function DigitsValue(s: string): nat
    requires |s| > 0 && AllDigits(s)
    decreases |s|
  {
    if |s| == 1 then DigitValue(s[0])
    else 10 * DigitsValue(s[..|s| - 1]) + DigitValue(s[|s| - 1])
  }

  /** Reads an integer written as `IntToString` writes it; anything that is
      not an optional `-` followed by at least one digit is rejected. */
  function ParseInt(s: string): (r: Option<int>)
    ensures r.Some? ==> |s| > 0
  {
    if |s| > 0 && s[0] == '-' then
      (if |s| > 1 && AllDigits(s[1..]) then Some(-(DigitsValue(s[1..]) as int)) else None)
    else if |s| > 0 && AllDigits(s) then Some(DigitsValue(s))
    else None
  }

  lemma {:induction false} NatRoundTrip(n: nat)
    ensures DigitsValue(NatToString(n)) == n
    decreases n
  {
    if n >= 10 {
      var s := NatToString(n);
      var prefix := NatToString(n / 10);
      assert s == prefix + [DigitChar(n % 10)];
      assert s[..|s| - 1] == prefix;
      NatRoundTrip(n / 10);
    }
  }

  /** Reading back what `IntToString` writes gives the same integer, so the
      decimal text of an integer determines it. */
  lemma IntRoundTrip(i: int)
    ensures ParseInt(IntToString(i)) == Some(i)
  {
    var digits := NatToString(Magnitude(i));
    NatRoundTrip(Magnitude(i));
    if i < 0 {
      assert IntToString(i) == "-" + digits && IntToString(i)[1..] == digits;
    } else {
      assert IntToString(i) == digits;
    }
  }
}
