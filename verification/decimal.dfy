/** Decimal digit strings: `parseInt(s, 10)` on strings made only of the
    digits 0-9, and the decimal rendering a JavaScript template literal
    gives a non-negative integer.
 */
module Decimal {

  predicate IsDigit(c: char) {
    '0' <= c <= '9'
  }

  /** A non-empty string of decimal digits and nothing else. */
  predicate IsDecimal(s: string) {
    |s| > 0 && forall i :: 0 <= i < |s| ==> IsDigit(s[i])
  }

  function DigitValue(c: char): (v: nat)
    requires IsDigit(c)
    ensures v < 10
  {
    c as int - '0' as int
  }

  function DigitChar(v: nat): (c: char)
    requires v < 10
    ensures IsDigit(c) && DigitValue(c) == v
  {
    ('0' as int + v) as char
  }

  lemma DigitCharOfValue(c: char)
    requires IsDigit(c)
    ensures DigitChar(DigitValue(c)) == c
  {
  }

  /** `parseInt(s, 10)` for a string of decimal digits: most significant
      digit first. */
  function Value(s: string): (v: nat)
    requires IsDecimal(s)
    ensures v % 10 == DigitValue(s[|s| - 1])
  {
    if |s| == 1 then DigitValue(s[0])
    else Value(s[..|s| - 1]) * 10 + DigitValue(s[|s| - 1])
  }

  /** The string `${n}` for a non-negative integer n: no sign, no leading
      zero. */
  function Show(n: nat): (s: string)
    ensures IsDecimal(s)
    ensures |s| > 1 ==> s[0] != '0'
  {
    if n < 10 then [DigitChar(n)] else Show(n / 10) + [DigitChar(n % 10)]
  }

  /** Reading back what was written gives the number again. */
  lemma {:induction false} ValueOfShow(n: nat)
    ensures Value(Show(n)) == n
  {
    if n >= 10 {
      var s := Show(n);
      assert s[..|s| - 1] == Show(n / 10);
      ValueOfShow(n / 10);
    }
  }

  /** Writing back what was read gives the string again, when it has no
      leading zero. */
  lemma {:induction false} ShowOfValue(s: string)
    requires IsDecimal(s)
    requires |s| > 1 ==> s[0] != '0'
    ensures Show(Value(s)) == s
  {
    if |s| > 1 {
      var p := s[..|s| - 1];
      assert IsDecimal(p) && p[0] == s[0];
      if |p| > 1 {
        ShowOfValue(p);
      } else {
        assert Value(p) == DigitValue(p[0]) > 0;
      }
      var n := Value(s);
      assert n >= 10;
      assert n / 10 == Value(p) && n % 10 == DigitValue(s[|s| - 1]);
      assert s == p + [s[|s| - 1]];
    }
  }

  /** A four-digit number is shown as exactly its four digits. */
  lemma ShowFourDigits(n: nat)
    requires 1000 <= n <= 9999
    ensures Show(n) == [DigitChar(n / 1000), DigitChar(n / 100 % 10), DigitChar(n / 10 % 10), DigitChar(n % 10)]
  {
    assert n / 10 / 10 == n / 100;
    assert n / 100 / 10 == n / 1000;
    assert Show(n / 1000) == [DigitChar(n / 1000)];
    assert Show(n / 100) == Show(n / 1000) + [DigitChar(n / 100 % 10)];
    assert Show(n / 10) == Show(n / 100) + [DigitChar(n / 10 % 10)];
  }
}
