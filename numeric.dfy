/**
 * Exact real arithmetic for the projection engine: exponentiation by a
 * natural number (every exponent in the engine is `12 * t` or `t`) and
 * JavaScript's `Math.round`.
 */
module Numeric {

  /** `b` raised to the natural power `k`; `Pow(b, 0) == 1` for every `b`, as `Math.pow` does. */
  function Pow(b: real, k: nat): real
  {
    if k == 0 then 1.0 else b * Pow(b, k - 1)
  }

  /**
   * `Math.round`: the nearest integer, with halves rounded up (towards +infinity),
   * which is `floor(x + 1/2)`.
   */
  function Round(x: real): (r: int)
    ensures x - 0.5 < r as real <= x + 0.5
  {
    (x + 0.5).Floor
  }

  lemma RoundMonotone(x: real, y: real)
    requires x <= y
    ensures Round(x) <= Round(y)
  {
  }

  lemma RoundOfInteger(n: int)
    ensures Round(n as real) == n
  {
  }

  lemma {:induction false} PowOne(k: nat)
    ensures Pow(1.0, k) == 1.0
  {
    if k > 0 {
      PowOne(k - 1);
    }
  }

  lemma {:induction false} PowNonzero(b: real, k: nat)
    requires b != 0.0
    ensures Pow(b, k) != 0.0
  {
    if k > 0 {
      PowNonzero(b, k - 1);
    }
  }

  lemma {:induction false} PowAtLeastOne(b: real, k: nat)
    requires b >= 1.0
    ensures Pow(b, k) >= 1.0
  {
    if k > 0 {
      PowAtLeastOne(b, k - 1);
      var q := Pow(b, k - 1);
      assert b * q >= 1.0 * q by { MulLeftMonotone(q, 1.0, b); }
    }
  }

  /** With a base of at least one, a power never decreases as the exponent grows. */
  lemma {:induction false} PowMonotoneInExponent(b: real, j: nat, k: nat)
    requires b >= 1.0
    requires j <= k
    ensures Pow(b, j) <= Pow(b, k)
  {
    if j < k {
      PowMonotoneInExponent(b, j, k - 1);
      PowAtLeastOne(b, k - 1);
      var q := Pow(b, k - 1);
      assert b * q >= 1.0 * q by { MulLeftMonotone(q, 1.0, b); }
    }
  }

  /** Bernoulli's inequality: `(1 + x)^k >= 1 + k x` whenever `x >= -1`. */
  lemma {:induction false} Bernoulli(x: real, k: nat)
    requires x >= -1.0
    ensures Pow(1.0 + x, k) >= 1.0 + (k as real) * x
  {
    if k > 0 {
      Bernoulli(x, k - 1);
      var q := Pow(1.0 + x, k - 1);
      var m := (k - 1) as real;
      assert (1.0 + x) * q >= (1.0 + x) * (1.0 + m * x) by {
        MulRightMonotone(1.0 + x, 1.0 + m * x, q);
      }
      assert (1.0 + x) * (1.0 + m * x) == 1.0 + (m + 1.0) * x + m * (x * x);
      assert m * (x * x) >= 0.0 by { MulNonnegative(m, x * x); }
    }
  }

  /** `a <= b` and `c >= 0` give `a * c <= b * c`. */
  lemma MulLeftMonotone(c: real, a: real, b: real)
    requires a <= b && c >= 0.0
    ensures a * c <= b * c
  {
    assert b * c - a * c == (b - a) * c;
    MulNonnegative(b - a, c);
  }

  /** `a <= b` and `c >= 0` give `c * a <= c * b`. */
  lemma MulRightMonotone(c: real, a: real, b: real)
    requires a <= b && c >= 0.0
    ensures c * a <= c * b
  {
    MulLeftMonotone(c, a, b);
  }

  lemma MulNonnegative(a: real, b: real)
    requires a >= 0.0 && b >= 0.0
    ensures a * b >= 0.0
  {
  }

  /** A non-negative amount divided by a positive number stays non-negative. */
  lemma DivNonnegative(a: real, d: real)
    requires a >= 0.0 && d > 0.0
    ensures a / d >= 0.0
  {
  }

  /** A lower bound survives division by a positive number: `a >= b * d` gives `a / d >= b`. */
  lemma DivLowerBound(a: real, b: real, d: real)
    requires d > 0.0 && a >= b * d
    ensures a / d >= b
  {
    assert a / d - b == (a - b * d) / d;
    DivNonnegative(a - b * d, d);
  }

  /** Division by a positive number is monotone: `a <= b` gives `a / d <= b / d`. */
  lemma DivMonotone(a: real, b: real, d: real)
    requires d > 0.0 && a <= b
    ensures a / d <= b / d
  {
    assert b / d - a / d == (b - a) / d;
    DivNonnegative(b - a, d);
  }

  /** Dividing a non-negative amount by a factor of at least one never increases it. */
  lemma DivByAtLeastOne(a: real, d: real)
    requires a >= 0.0 && d >= 1.0
    ensures a / d <= a
  {
    assert a - a / d == (a * (d - 1.0)) / d;
    MulNonnegative(a, d - 1.0);
    DivNonnegative(a * (d - 1.0), d);
  }
}
