/** Natural-number powers and facts about Euclidean division, shared by the
    limb split of a Uint256 and the fixed-width big-endian byte encoding of a
    felt. */
module Arith {

  /** `base` raised to `e`, by repeated multiplication. */
  function Pow(base: nat, e: nat): nat
    decreases e
  {
    if e == 0 then 1 else base * Pow(base, e - 1)
  }

  lemma {:induction false} PowPositive(base: nat, e: nat)
    requires base > 0
    ensures Pow(base, e) > 0
    decreases e
  {
    if e > 0 {
      PowPositive(base, e - 1);
    }
  }

  /** Exponents add when powers of the same base multiply. */
  lemma {:induction false} PowAdd(base: nat, m: nat, n: nat)
    ensures Pow(base, m + n) == Pow(base, m) * Pow(base, n)
    decreases n
  {
    if n > 0 {
      PowAdd(base, m, n - 1);
      calc {
        Pow(base, m + n);
        base * Pow(base, m + n - 1);
        base * (Pow(base, m) * Pow(base, n - 1));
        Pow(base, m) * (base * Pow(base, n - 1));
        Pow(base, m) * Pow(base, n);
      }
    }
  }

  /** A power grows strictly with its exponent when the base exceeds one. */
  lemma {:induction false} PowStrictlyIncreasing(base: nat, m: nat, n: nat)
    requires base > 1
    requires m < n
    ensures Pow(base, m) < Pow(base, n)
    decreases n - m
  {
    PowPositive(base, n - 1);
    if m < n - 1 {
      PowStrictlyIncreasing(base, m, n - 1);
    }
  }

  /** One byte is eight bits: 256^k == 2^(8k). */
  lemma {:induction false} BytePowIsBitPow(k: nat)
    ensures Pow(256, k) == Pow(2, 8 * k)
    decreases k
  {
    if k > 0 {
      BytePowIsBitPow(k - 1);
      PowAdd(2, 8 * (k - 1), 8);
      assert Pow(2, 8) == 256;
    }
  }

  /** A positive multiple of a positive `d` is at least `d`. */
  lemma {:induction false} MultipleAtLeast(d: int, k: int)
    requires d > 0
    requires k >= 1
    ensures d * k >= d
    decreases k
  {
    if k > 1 {
      MultipleAtLeast(d, k - 1);
      assert d * k == d * (k - 1) + d;
    }
  }

  /** A non-zero multiple of a positive `d` is at least `d` away from zero. */
  lemma MultipleAwayFromZero(d: int, k: int)
    requires d > 0
    requires k != 0
    ensures d * k >= d || d * k <= -d
  {
    if k > 0 {
      MultipleAtLeast(d, k);
    } else {
      MultipleAtLeast(d, -k);
      assert d * k == -(d * (-k));
    }
  }

  /** Uniqueness of Euclidean division: any decomposition `n == d*q + r` with
      `0 <= r < d` is the one `/` and `%` compute. */
  lemma DivModUnique(n: int, d: int, q: int, r: int)
    requires d > 0
    requires 0 <= r < d
    requires n == d * q + r
    ensures n / d == q
    ensures n % d == r
  {
    var q0, r0 := n / d, n % d;
    assert d * (q - q0) == r0 - r;
    if q != q0 {
      MultipleAwayFromZero(d, q - q0);
    }
  }

  /** Quotient and remainder recombine into the dividend. */
  lemma EuclidSplit(n: int, p: int)
    requires p > 0
    ensures n % p + (n / p) * p == n
  {
  }

  /** A value below `b*b` has a quotient by `b` below `b`. */
  lemma QuotientBelow(n: int, b: int)
    requires b > 0
    requires 0 <= n < b * b
    ensures 0 <= n / b < b
  {
    var q := n / b;
    assert n == b * q + n % b;
    if q >= b {
      if q > b {
        MultipleAtLeast(b, q - b);
      }
      assert false;
    }
  }

  /** A leading digit below `base`, followed by a remainder below `p`, stays
      below `base * p`. */
  lemma DigitBound(d: nat, base: nat, p: nat, rest: nat)
    requires d < base
    requires rest < p
    ensures d * p + rest < base * p
  {
    MultipleAtLeast(p, base - d);
    assert base * p == d * p + p * (base - d);
  }
}
