/**
 * Decimal text of non-negative integers, the way JavaScript's `Number.prototype.toString`
 * writes an integral value, together with `String.prototype.padStart` for a one-character
 * fill, and the reading of decimal text back into a number.
 */
module Decimal {

  predicate IsDigit(c: char) {
    '0' <= c <= '9'
  }

  predicate IsDigitString(s: string) {
    forall i :: 0 <= i < |s| ==> IsDigit(s[i])
  }

  /** The shape `toString` produces: at least one digit, and no leading zero except for 0 itself. */
  predicate IsCanonical(s: string) {
    && |s| >= 1
    && IsDigitString(s)
    && (s[0] == '0' ==> |s| == 1)
  }

  function DigitValue(c: char): (d: nat)
    requires IsDigit(c)
    ensures d < 10
  {
    c as int - '0' as int
  }

  function DigitChar(d: nat): (c: char)
    requires d < 10
    ensures IsDigit(c) && DigitValue(c) == d
  {
    ('0' as int + d) as char
  }

  lemma DigitCharOfValue(c: char)
    requires IsDigit(c)
    ensures DigitChar(DigitValue(c)) == c
  {
  }

  /** The decimal text of `n`, most significant digit first. */
  function Digits(n: nat): (s: string)
    ensures |s| >= 1
    ensures s[0] == '0' <==> n == 0
    decreases n
  {
    if n < 10 then [DigitChar(n)] else Digits(n / 10) + [DigitChar(n % 10)]
  }

  /** `Digits` writes only digits, with no leading zero. */
  lemma {:induction false} DigitsCanonical(n: nat)
    ensures IsCanonical(Digits(n))
    decreases n
  {
    if n >= 10 {
      DigitsCanonical(n / 10);
      var p := Digits(n / 10);
      var s := Digits(n);
      assert s == p + [DigitChar(n % 10)];
      assert forall i :: 0 <= i < |p| ==> s[i] == p[i];
    }
  }

  /** 10 to the power `k`. */
  function Pow10(k: nat): nat
    decreases k
  {
    if k == 0 then 1 else 10 * Pow10(k - 1)
  }

  /**
   * The number a string of decimal digits denotes (leading zeros allowed); `k` digits
   * denote less than 10^k.
   */
  function ValueOf(s: string): (n: nat)
    requires IsDigitString(s)
    ensures n < Pow10(|s|)
    decreases |s|
  {
    if |s| == 0 then 0 else ValueOf(s[..|s| - 1]) * 10 + DigitValue(s[|s| - 1])
  }

  /** Reading back the text `Digits` writes gives the number that was written. */
  lemma {:induction false} ValueOfDigits(n: nat)
    ensures IsDigitString(Digits(n)) && ValueOf(Digits(n)) == n
    decreases n
  {
    DigitsCanonical(n);
    if n >= 10 {
      var p := Digits(n / 10);
      var s := Digits(n);
      assert s == p + [DigitChar(n % 10)];
      assert s[..|s| - 1] == p;
      ValueOfDigits(n / 10);
    }
  }

  /** The value of a two-digit string. */
  lemma ValueOfTwo(s: string)
    requires |s| == 2 && IsDigitString(s)
    ensures ValueOf(s) == DigitValue(s[0]) * 10 + DigitValue(s[1])
  {
    var p := s[..1];
    assert p[..0] == [];
    assert ValueOf(p) == ValueOf(p[..0]) * 10 + DigitValue(p[0]);
  }

  /** A string of digits whose first digit is not 0 denotes a positive number. */
  lemma {:induction false} ValueOfPositive(s: string)
    requires |s| >= 1 && IsDigitString(s) && s[0] != '0'
    ensures ValueOf(s) >= 1
    decreases |s|
  {
    if |s| > 1 {
      ValueOfPositive(s[..|s| - 1]);
    }
  }

  /** Writing out the number a canonical string denotes gives that very string back. */
  lemma {:induction false} DigitsOfValue(s: string)
    requires IsCanonical(s)
    ensures Digits(ValueOf(s)) == s
    decreases |s|
  {
    var last := s[|s| - 1];
    assert IsDigit(last);
    DigitCharOfValue(last);
    if |s| == 1 {
      assert s == [last];
    } else {
      var p := s[..|s| - 1];
      assert p[0] == s[0];
      ValueOfPositive(p);
      DigitsOfValue(p);
      var n := ValueOf(s);
      assert n == ValueOf(p) * 10 + DigitValue(last);
      assert n / 10 == ValueOf(p) && n % 10 == DigitValue(last);
      assert s == p + [last];
    }
  }

  /**
   * `s.padStart(width, fill)` for a one-character fill: `s` itself when it is already
   * `width` long or longer, otherwise `s` preceded by as many copies of `fill` as it lacks.
   */
  function PadStart(s: string, width: nat, fill: char): (r: string)
    ensures |r| == if |s| >= width then |s| else width
    ensures |s| >= width ==> r == s
    decreases width - |s|
  {
    if |s| >= width then s else PadStart([fill] + s, width, fill)
  }

  /** The padded string ends with `s` and everything before it is `fill`. */
  lemma {:induction false} PadStartKeepsSuffix(s: string, width: nat, fill: char)
    ensures var r := PadStart(s, width, fill);
            && r[|r| - |s|..] == s
            && forall i :: 0 <= i < |r| - |s| ==> r[i] == fill
    decreases width - |s|
  {
    if |s| < width {
      var s' := [fill] + s;
      PadStartKeepsSuffix(s', width, fill);
      var r := PadStart(s, width, fill);
      assert r == PadStart(s', width, fill);
      assert r[|r| - |s'|..] == s';
      assert r[|r| - |s|..] == s'[1..];
      assert r[|r| - |s'|] == fill;
    }
  }

  /** A number below 100, padded to two places with '0', is its tens digit then its units digit. */
  lemma TwoPlaces(n: nat)
    requires n < 100
    ensures PadStart(Digits(n), 2, '0') == [DigitChar(n / 10), DigitChar(n % 10)]
  {
  }
}
