/**
 * C++ `int` (32-bit two's complement) and the bitwise AND the ring buffer
 * uses on it. Dafny's `&` exists only on bit-vector types, so AND is defined
 * here bit by bit on the two's-complement encoding; the lemmas then give its
 * arithmetic meaning for the two mask shapes the ring buffer uses:
 * `x & (2^k - 1)` is `x mod 2^k`, and `x & 2^k` isolates bit k.
 */
module Int32Bits {

  /** 2 to the power k. */
  function Pow2(k: nat): (p: nat)
    ensures p >= 1
  {
    if k == 0 then 1 else 2 * Pow2(k - 1)
  }

  const Int32Min: int := -0x8000_0000
  const Int32Max: int := 0x7fff_ffff
  const Modulus32: int := 0x1_0000_0000

  /** The values of a C++ `int`. */
  type Int32 = x: int | Int32Min <= x <= Int32Max

  /** The 32 bits of x, read as an unsigned number (two's-complement encoding). */
  function Unsigned(x: Int32): (u: nat)
    ensures u < Modulus32
    ensures 0 <= x ==> u == x
    ensures x < 0 ==> u == x + Modulus32
  {
    x % Modulus32
  }

  /** The `int` whose two's-complement encoding is the 32-bit pattern u. */
  function Signed(u: nat): (x: Int32)
    requires u < Modulus32
    ensures Unsigned(x) == u
  {
    if u <= Int32Max then u else u - Modulus32
  }

  /** Bitwise AND of the low w bits of a and b. */
  function AndBits(a: nat, b: nat, w: nat): (r: nat)
    ensures r < Pow2(w)
    ensures r <= b
    decreases w
  {
    if w == 0 then 0
    else (if a % 2 == 1 && b % 2 == 1 then 1 else 0) + 2 * AndBits(a / 2, b / 2, w - 1)
  }

  /**
   * C++ `x & y` on two `int`s: the AND of their 32-bit patterns, read back as
   * an `int`. ANDing with a non-negative mask gives a value between 0 and the mask.
   */
  function And32(x: Int32, y: Int32): (r: Int32)
    ensures 0 <= y ==> 0 <= r <= y
  {
    Signed(AndBits(Unsigned(x), Unsigned(y), 32))
  }

  /** Division and remainder are determined by the defining equation. */
  lemma DivModUnique(x: int, d: int, q: int, r: int)
    requires 0 < d && 0 <= r < d && x == d * q + r
    ensures x / d == q && x % d == r
  {
    var z := q - x / d;
    assert d * z == x % d - r;
    assert z >= 1 ==> d * z == d + d * (z - 1);
    assert z <= -1 ==> d * z == -d + d * (z + 1);
  }

  /** Splitting off the lowest bit of a before dividing by 2 * m. */
  lemma HalveDivMod(a: nat, m: int)
    requires 0 < m
    ensures a % (2 * m) == a % 2 + 2 * ((a / 2) % m)
    ensures a / (2 * m) == (a / 2) / m
  {
    var q, s, t := a / 2, (a / 2) / m, (a / 2) % m;
    assert a == (2 * m) * s + (2 * t + a % 2) by {
      assert a == 2 * q + a % 2;
      assert q == m * s + t;
    }
    DivModUnique(a, 2 * m, s, 2 * t + a % 2);
  }

  /** AND with zero is zero. */
  lemma {:induction false} AndZero(a: nat, w: nat)
    ensures AndBits(a, 0, w) == 0
  {
  }

  /** AND with the mask 2^k - 1 keeps the low k bits: it is a mod 2^k. */
  lemma {:induction false} AndLowMask(a: nat, k: nat, w: nat)
    requires k <= w
    ensures AndBits(a, Pow2(k) - 1, w) == a % Pow2(k)
    decreases w
  {
    if k == 0 {
      AndZero(a, w);
    } else {
      var m, b := Pow2(k - 1), Pow2(k) - 1;
      assert b / 2 == m - 1 && b % 2 == 1;
      AndLowMask(a / 2, k - 1, w - 1);
      assert AndBits(a, b, w) == a % 2 + 2 * ((a / 2) % m);
      HalveDivMod(a, m);
    }
  }

  /** AND with 2^k, for k below the width, is 2^k when bit k of a is set and 0 otherwise. */
  lemma {:induction false} AndSingleBit(a: nat, k: nat, w: nat)
    requires k < w
    ensures AndBits(a, Pow2(k), w) == if (a / Pow2(k)) % 2 == 1 then Pow2(k) else 0
    decreases w
  {
    if k == 0 {
      AndZero(a / 2, w - 1);
    } else {
      var m := Pow2(k - 1);
      assert Pow2(k) / 2 == m && Pow2(k) % 2 == 0;
      AndSingleBit(a / 2, k - 1, w - 1);
      HalveDivMod(a, m);
    }
  }
}
