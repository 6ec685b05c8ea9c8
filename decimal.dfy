/**
 * Decimal numbers written as text: powers of ten, the number of decimal
 * digits of a number, `str::parse` of an unsigned integer and its inverse,
 * `to_string`.
 */
module Decimal {

  predicate IsDigit(c: char) {
    '0' <= c <= '9'
  }

  function DigitValue(c: char): (d: nat)
    requires IsDigit(c)
    ensures d < 10
  {
    c as int - '0' as int
  }

  function DigitChar(d: nat): (c: char)
    requires d < 10
    ensures IsDigit(c) && DigitValue(c) == d
  {
    ('0' as int + d) as char
  }

  /** Every character is a decimal digit (the empty string included). */
  predicate AllDigits(s: string) {
    forall i :: 0 <= i < |s| ==> IsDigit(s[i])
  }

  /** What `str::parse::<u64>` accepts without a sign: one or more decimal digits. */
  predicate IsNumeral(s: string) {
    |s| > 0 && AllDigits(s)
  }

  function Pow10(n: nat): (p: nat)
    ensures p >= 1
  {
    if n == 0 then 1 else 10 * Pow10(n - 1)
  }

  lemma {:induction false} Pow10Add(a: nat, b: nat)
    ensures Pow10(a + b) == Pow10(a) * Pow10(b)
  {
    if b > 0 {
      Pow10Add(a, b - 1);
      assert Pow10(a + b) == 10 * Pow10(a + b - 1);
    }
  }

  lemma {:induction false} Pow10Monotone(a: nat, b: nat)
    requires a <= b
    ensures Pow10(a) <= Pow10(b)
    ensures a < b ==> 10 * Pow10(a) <= Pow10(b)
  {
    if a < b {
      Pow10Monotone(a, b - 1);
    }
  }

  /** A smaller power of ten has a smaller exponent. */
  lemma Pow10Below(x: nat, y: nat)
    ensures Pow10(x) < Pow10(y) ==> x < y
  {
    if y <= x {
      Pow10Monotone(y, x);
    }
  }

  /** The number of decimal digits of n; the number 0 is written with one digit. */
  function DigitCount(n: nat): (d: nat)
    ensures d >= 1
    ensures n < Pow10(d)
    ensures n >= 1 ==> Pow10(d - 1) <= n
  {
    if n < 10 then 1 else 1 + DigitCount(n / 10)
  }

  /** The digit count is the only d with 10^(d-1) <= n < 10^d. */
  lemma DigitCountUnique(n: nat, d: nat)
    requires d >= 1 && Pow10(d - 1) <= n < Pow10(d)
    ensures DigitCount(n) == d
  {
    var k := DigitCount(n);
    Pow10Below(k - 1, d);
    Pow10Below(d - 1, k);
  }

  lemma DigitCountMonotone(m: nat, n: nat)
    requires m <= n
    ensures DigitCount(m) <= DigitCount(n)
  {
    var a, b := DigitCount(m), DigitCount(n);
    if m >= 1 {
      Pow10Below(a - 1, b);
    }
  }

  /** The value of a string of decimal digits, most significant first. */
  function ParseNat(s: string): (n: nat)
    requires AllDigits(s)
    ensures n < Pow10(|s|)
  {
    if s == [] then 0 else ParseNat(s[..|s| - 1]) * 10 + DigitValue(s[|s| - 1])
  }

  /** Parsing a concatenation shifts the left part by the length of the right part. */
  lemma {:induction false} ParseNatAppend(a: string, b: string)
    requires AllDigits(a) && AllDigits(b)
    ensures AllDigits(a + b)
    ensures ParseNat(a + b) == ParseNat(a) * Pow10(|b|) + ParseNat(b)
  {
    if b == [] {
      assert a + b == a;
    } else {
      var b', c := b[..|b| - 1], b[|b| - 1];
      ParseNatAppend(a, b');
      assert b == b' + [c];
      assert a + b == (a + b') + [c];
      ParseNatSnoc(a + b', c);
      ParseNatSnoc(b', c);
      ShiftLeft(ParseNat(a), Pow10(|b'|), ParseNat(b'), DigitValue(c));
    }
  }

  /** Appending a digit multiplies by ten and adds the digit. */
  lemma ParseNatSnoc(s: string, c: char)
    requires AllDigits(s) && IsDigit(c)
    ensures AllDigits(s + [c])
    ensures ParseNat(s + [c]) == ParseNat(s) * 10 + DigitValue(c)
  {
    assert (s + [c])[..|s|] == s;
  }

  lemma ShiftLeft(x: nat, p: nat, y: nat, d: nat)
    ensures (x * p + y) * 10 + d == x * (p * 10) + (y * 10 + d)
  {
  }

  /** `to_string` of an unsigned integer: its decimal digits without leading zeros. */
  function Show(n: nat): (s: string)
    ensures IsNumeral(s)
    ensures |s| == DigitCount(n)
    ensures n >= 1 ==> s[0] != '0'
  {
    if n < 10 then [DigitChar(n)] else Show(n / 10) + [DigitChar(n % 10)]
  }

  /** Parsing undoes `to_string`. */
  lemma {:induction false} ParseShow(n: nat)
    ensures ParseNat(Show(n)) == n
  {
    if n >= 10 {
      var s := Show(n);
      assert s[..|s| - 1] == Show(n / 10);
      ParseShow(n / 10);
    }
  }

  /** A numeral without a leading zero is the `to_string` of its value. */
  lemma {:induction false} ShowParse(s: string)
    requires IsNumeral(s) && (|s| > 1 ==> s[0] != '0')
    ensures Show(ParseNat(s)) == s
  {
    var n := ParseNat(s);
    if |s| == 1 {
      assert n == DigitValue(s[0]);
      assert Show(n) == [DigitChar(n)];
    } else {
      var s' := s[..|s| - 1];
      assert s'[0] == s[0];
      ShowParse(s');
      var m := ParseNat(s');
      assert n == m * 10 + DigitValue(s[|s| - 1]);
      assert Show(m)[0] != '0' && Show(0)[0] == '0';
      assert n / 10 == m && n % 10 == DigitValue(s[|s| - 1]);
      assert Show(n) == Show(m) + [DigitChar(n % 10)];
    }
  }
}
