/**
 * Decimal digit strings: the integer a run of digits spells, the value of the
 * digits after a decimal point, and `str(n)` for a natural number.
 */
module Digits {
  import opened Text


  predicate AllDigits(s: string) {
    forall k :: 0 <= k < |s| ==> IsDigit(s[k])
  }

  function DigitValue(ch: char): (d: nat)
    requires IsDigit(ch)
    ensures d <= 9
  {
    ch as int - '0' as int
  }

  function DigitChar(d: nat): (ch: char)
    requires d <= 9
    ensures IsDigit(ch) && DigitValue(ch) == d
  {
    ('0' as int + d) as char
  }

  /** The integer a string of decimal digits denotes (most significant first). */
  function DigitsValue(ds: string): nat
    requires AllDigits(ds)
    decreases |ds|
  {
    if |ds| == 0 then 0 else DigitsValue(ds[..|ds| - 1]) * 10 + DigitValue(ds[|ds| - 1])
  }

  /** The value of the digits after a decimal point: `0.d1d2…`. It is always below 1. */
  function FracValue(ds: string): (r: real)
    requires AllDigits(ds)
    ensures 0.0 <= r < 1.0
    decreases |ds|
  {
    if |ds| == 0 then 0.0
    else
      var rest := FracValue(ds[1..]);
      (DigitValue(ds[0]) as real + rest) / 10.0
  }

  /** `x * 10^n`: `x` moved `n` decimal places to the left, one place at a time. */
  function ShiftLeft(x: real, n: nat): real
    decreases n
  {
    if n == 0 then x else ShiftLeft(10.0 * x, n - 1)
  }

  /** Shifting a sum shifts each summand. */
  lemma {:induction false} ShiftLeftAdds(x: real, y: real, n: nat)
    ensures ShiftLeft(x + y, n) == ShiftLeft(x, n) + ShiftLeft(y, n)
    decreases n
  {
    if n > 0 {
      assert 10.0 * (x + y) == 10.0 * x + 10.0 * y;
      ShiftLeftAdds(10.0 * x, 10.0 * y, n - 1);
    }
  }

  /** Shifting ten times a value is ten times the shifted value. */
  lemma {:induction false} ShiftLeftTen(x: real, n: nat)
    ensures ShiftLeft(10.0 * x, n) == 10.0 * ShiftLeft(x, n)
    decreases n
  {
    if n > 0 {
      ShiftLeftTen(10.0 * x, n - 1);
    }
  }

  /** The digits of `a + b` spell the digits of `a` shifted left by `|b|` places, plus those of `b`. */
  lemma {:induction false} DigitsValueConcat(a: string, b: string)
    requires AllDigits(a) && AllDigits(b)
    ensures AllDigits(a + b)
    ensures DigitsValue(a + b) as real == ShiftLeft(DigitsValue(a) as real, |b|) + DigitsValue(b) as real
    decreases |b|
  {
    var ab := a + b;
    assert AllDigits(ab) by {
      forall k | 0 <= k < |ab| ensures IsDigit(ab[k]) {
        if k >= |a| {
          assert ab[k] == b[k - |a|];
        }
      }
    }
    if |b| == 0 {
      assert ab == a;
    } else {
      var b' := b[..|b| - 1];
      assert ab[..|ab| - 1] == a + b';
      DigitsValueConcat(a, b');
      ShiftLeftTen(DigitsValue(a) as real, |b'|);
    }
  }

  /** The digits after a point, shifted left once per digit, are the integer those digits spell. */
  lemma {:induction false} FracValueScaled(ds: string)
    requires AllDigits(ds)
    ensures ShiftLeft(FracValue(ds), |ds|) == DigitsValue(ds) as real
    decreases |ds|
  {
    if |ds| > 0 {
      var rest := ds[1..];
      var d, f := DigitValue(ds[0]) as real, FracValue(rest);
      assert 10.0 * FracValue(ds) == d + f;
      FracValueScaled(rest);
      ShiftLeftAdds(d, f, |rest|);
      assert [ds[0]] + rest == ds;
      assert [ds[0]][..0] == [];
      DigitsValueConcat([ds[0]], rest);
    }
  }

  /** `str(n)`: the decimal rendering of a natural number, without leading zeros. */
  function NatDigits(n: nat): (s: string)
    ensures |s| > 0 && AllDigits(s) && DigitsValue(s) == n
    ensures |s| > 1 ==> s[0] != '0'
  {
    if n < 10 then [DigitChar(n)]
    else
      var pre := NatDigits(n / 10);
      var s := pre + [DigitChar(n % 10)];
      assert s[..|s| - 1] == pre;
      s
  }
}
