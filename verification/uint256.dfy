/** The Uint256 layout the contract tests use: an integer split into a
    `(low, high)` pair of 128-bit limbs, and joined back.

    Python's `&`, `>>` and `<<` act on unbounded integers in infinite two's
    complement; they are written out here: `&` bit by bit, `>>` as floor
    division by a power of two (Dafny's `/` floors when the divisor is
    positive), `<<` as multiplication by a power of two. */
module Uint256 {
  import opened Arith

  /** Width of one limb, in bits. */
  const LimbBits: nat := 128

  /** 2^128, one more than the largest value a limb holds. */
  function LimbBase(): (r: nat)
    ensures r > 1
  {
    PowStrictlyIncreasing(2, 0, LimbBits);
    Pow(2, LimbBits)
  }

  /** A `(low, high)` limb pair; `low` is the first tuple component. */
  datatype Uint = Uint(low: int, high: int)

  /** Bitwise AND of an arbitrary integer `a` with a non-negative `m`, in
      two's complement: the lowest bit of each is `x % 2`, set in the result
      when set in both, and the remaining bits are `x / 2` (both floor-based,
      so negative `a` works too). */
  function And(a: int, m: nat): (r: nat)
    ensures r <= m
    ensures a >= 0 ==> r <= a
    decreases m
  {
    if m == 0 then 0
    else
      var bit := if a % 2 == 1 && m % 2 == 1 then 1 else 0;
      bit + 2 * And(a / 2, m / 2)
  }

  /** `x >> k`: the floor of `x / 2^k`, rounding toward negative infinity
      for negative `x` as Python does. */
  function ShiftRight(x: int, k: nat): (r: int)
    ensures r * Pow(2, k) <= x < (r + 1) * Pow(2, k)
  {
    PowPositive(2, k);
    var p := Pow(2, k);
    assert x == p * (x / p) + x % p;
    x / p
  }

  /** `x << k`: the low `k` bits are zero and shifting back right by `k`
      recovers `x`; together these fix the result as `x * 2^k`. */
  function ShiftLeft(x: int, k: nat): (r: int)
    ensures ShiftRight(r, k) == x
    ensures r % Pow(2, k) == 0
  {
    PowPositive(2, k);
    DivModUnique(x * Pow(2, k), Pow(2, k), x, 0);
    x * Pow(2, k)
  }

  /** The residue modulo `2p` is the low bit followed by the residue of the
      halved value modulo `p`. */
  lemma ModDoubling(n: int, p: int)
    requires p > 0
    ensures n % (2 * p) == n % 2 + 2 * ((n / 2) % p)
  {
    var q, b := n / 2, n % 2;
    var t := q % p;
    assert q == p * (q / p) + t;
    assert n == (2 * p) * (q / p) + (b + 2 * t);
    DivModUnique(n, 2 * p, q / p, b + 2 * t);
  }

  /** ANDing with the mask `(1 << k) - 1` keeps the low `k` bits, that is the
      residue modulo `2^k` (non-negative even for negative `n`). */
  lemma {:induction false} AndLowMaskIsMod(n: int, k: nat)
    ensures Pow(2, k) - 1 >= 0
    ensures And(n, Pow(2, k) - 1) == n % Pow(2, k)
    decreases k
  {
    PowPositive(2, k);
    if k > 0 {
      var p := Pow(2, k - 1);
      PowPositive(2, k - 1);
      var m := Pow(2, k) - 1;
      assert m == 2 * (p - 1) + 1;
      DivModUnique(m, 2, p - 1, 1);
      AndLowMaskIsMod(n / 2, k - 1);
      // the low bit of n, then the low k-1 bits of n / 2
      assert And(n, m) == n % 2 + 2 * ((n / 2) % p);
      ModDoubling(n, p);
    }
  }

  /** `to_uint`: the low limb is `num & ((1 << 128) - 1)` and the high limb
      is `num >> 128`. Together they are the floor division of `num` by
      2^128: the low limb is always in range and the limbs recombine. */
  function ToUint(num: int): (r: Uint)
    ensures 0 <= r.low < LimbBase()
    ensures r.low + r.high * LimbBase() == num
  {
    var p := LimbBase();
    var mask := ShiftLeft(1, LimbBits) - 1;
    assert mask == p - 1;
    AndLowMaskIsMod(num, LimbBits);
    var low, high := And(num, mask), ShiftRight(num, LimbBits);
    assert high == num / p && low == num % p;
    EuclidSplit(num, p);
    Uint(low, high)
  }

  /** `from_uint`: `low + (high << 128)`. A pair whose low limb is in range
      is exactly what `to_uint` splits the result into. */
  function FromUint(u: Uint): (r: int)
    ensures 0 <= u.low < LimbBase() ==> ToUint(r) == u
  {
    var r := u.low + ShiftLeft(u.high, LimbBits);
    assert 0 <= u.low < LimbBase() ==> ToUint(r) == u by {
      if 0 <= u.low < LimbBase() {
        DivModUnique(r, LimbBase(), u.high, u.low);
        DivModUnique(r, LimbBase(), ToUint(r).high, ToUint(r).low);
      }
    }
    r
  }

  /** Joining the split gives back every integer, negative ones included. */
  lemma FromToUint(num: int)
    ensures FromUint(ToUint(num)) == num
  {
  }

  /** A limb pair whose low limb is in range is exactly what splitting its
      join produces; the high limb may be any integer. */
  lemma ToFromUint(u: Uint)
    requires 0 <= u.low < LimbBase()
    ensures ToUint(FromUint(u)) == u
  {
  }

  /** A value that fits 256 bits splits into two limbs that each fit 128
      bits; a non-negative value never has a negative high limb. */
  lemma HighLimbFits(num: int)
    requires 0 <= num < Pow(2, 2 * LimbBits)
    ensures 0 <= ToUint(num).high < LimbBase()
  {
    var b := LimbBase();
    PowAdd(2, LimbBits, LimbBits);
    QuotientBelow(num, b);
    DivModUnique(num, b, ToUint(num).high, ToUint(num).low);
  }
}
