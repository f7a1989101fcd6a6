/**
 * Decimal strings of natural numbers: the text JavaScript produces for
 * `n + ''` when `n` is a non-negative integer below 10^21, and the numeric
 * value of a string of digits. The workout id and the day in a workout's
 * description are both written this way.
 */
module Decimal {

  predicate IsDigit(c: char) {
    '0' <= c <= '9'
  }

  predicate AllDigits(s: string) {
    forall i :: 0 <= i < |s| ==> IsDigit(s[i])
  }

  function DigitChar(d: nat): char
    requires d < 10
  {
    (48 + d) as char
  }

  function DigitValue(c: char): nat
    requires IsDigit(c)
  {
    c as int - 48
  }

  /** 10^k. */
  function Pow10(k: nat): (p: nat)
    ensures p >= 1
  {
    if k == 0 then 1 else 10 * Pow10(k - 1)
  }

  /** The decimal representation of `n`: digits only, never empty, no leading zero. */
  function ToDecimal(n: nat): (s: string)
    ensures 1 <= |s|
    ensures AllDigits(s)
    ensures s[0] == '0' ==> n == 0 && s == "0"
    decreases n
  {
    if n < 10 then [DigitChar(n)] else ToDecimal(n / 10) + [DigitChar(n % 10)]
  }

  /** The number a string of digits denotes, most significant digit first. */
  function Value(s: string): (v: nat)
    requires AllDigits(s)
    ensures v < Pow10(|s|)
    decreases |s|
  {
    if s == [] then 0 else 10 * Value(s[..|s| - 1]) + DigitValue(s[|s| - 1])
  }

  /** Reading back the decimal representation gives the number: `ToDecimal` is injective. */
  lemma {:induction false} ValueOfDecimal(n: nat)
    ensures Value(ToDecimal(n)) == n
    decreases n
  {
    var s := ToDecimal(n);
    if n < 10 {
      assert s[..|s| - 1] == [];
    } else {
      assert s[..|s| - 1] == ToDecimal(n / 10);
      ValueOfDecimal(n / 10);
    }
  }

  /** A number of at least `k + 1` digits has a decimal string longer than `k`. */
  lemma DecimalLongerThan(n: nat, k: nat)
    requires n >= Pow10(k)
    ensures |ToDecimal(n)| > k
  {
  }

  lemma {:induction false} Pow10Monotone(i: nat, j: nat)
    ensures i <= j ==> Pow10(i) <= Pow10(j)
    decreases j
  {
    if i < j {
      Pow10Monotone(i, j - 1);
    }
  }

  /** A non-zero multiple of `m` is at least `m` away from zero. */
  lemma MulAwayFromZero(d: int, m: int)
    requires m >= 0
    ensures d == 0 || d * m >= m || d * m <= -m
  {
  }

  /** Quotient and remainder are unique. */
  lemma ModUnique(x: int, m: int, q: int, r: int)
    requires m > 0 && 0 <= r < m && x == q * m + r
    ensures x % m == r && x / m == q
  {
    var q', r' := x / m, x % m;
    assert x == q' * m + r';
    assert (q - q') * m == r' - r;
    MulAwayFromZero(q - q', m);
  }

  /** Appending one digit `d` to a number `a` and keeping the last `k + 1` digits. */
  lemma ShiftMod(a: nat, d: nat, p: nat)
    requires d < 10 && p >= 1
    ensures (10 * a + d) % (10 * p) == 10 * (a % p) + d
  {
    var q := a / p;
    var r := a % p;
    assert a == q * p + r;
    assert 10 * a + d == q * (10 * p) + (10 * r + d);
    ModUnique(10 * a + d, 10 * p, q, 10 * r + d);
  }

  /** The last `k` digits of a digit string denote its value modulo 10^k. */
  lemma {:induction false} ValueOfSuffix(s: string, k: nat)
    requires AllDigits(s) && k <= |s|
    ensures AllDigits(s[|s| - k..])
    ensures Value(s[|s| - k..]) == Value(s) % Pow10(k)
    decreases |s|
  {
    var t := s[|s| - k..];
    if k == 0 {
      assert t == [];
    } else {
      var p := s[..|s| - 1];
      var u := p[|p| - (k - 1)..];
      assert t[..|t| - 1] == u;
      assert t[|t| - 1] == s[|s| - 1];
      ValueOfSuffix(p, k - 1);
      ShiftMod(Value(p), DigitValue(s[|s| - 1]), Pow10(k - 1));
    }
  }

  /** Two digit strings of the same length with the same value are the same string. */
  lemma {:induction false} ValueInjective(s: string, t: string)
    requires AllDigits(s) && AllDigits(t) && |s| == |t|
    requires Value(s) == Value(t)
    ensures s == t
    decreases |s|
  {
    if s != [] {
      var ds, dt := DigitValue(s[|s| - 1]), DigitValue(t[|t| - 1]);
      ModUnique(Value(s), 10, Value(s[..|s| - 1]), ds);
      ModUnique(Value(t), 10, Value(t[..|t| - 1]), dt);
      ValueInjective(s[..|s| - 1], t[..|t| - 1]);
      assert s == s[..|s| - 1] + [s[|s| - 1]];
      assert t == t[..|t| - 1] + [t[|t| - 1]];
    }
  }
}
