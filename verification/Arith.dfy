/** Powers of two, shifts, bits of a natural number, and Go's 64-bit integer conversions. */
module Arith {

  function Pow2(k: nat): (p: nat)
    ensures p > 0
  {
    if k == 0 then 1 else 2 * Pow2(k - 1)
  }

  lemma {:induction false} Pow2Add(a: nat, b: nat)
    ensures Pow2(a + b) == Pow2(a) * Pow2(b)
  {
    if a != 0 {
      Pow2Add(a - 1, b);
      assert a + b - 1 == (a - 1) + b;
    }
  }

  lemma {:induction false} Pow2Monotone(a: nat, b: nat)
    requires a <= b
    ensures Pow2(a) <= Pow2(b)
  {
    if a < b {
      Pow2Monotone(a, b - 1);
    }
  }

  const TWO_63: int := 0x8000_0000_0000_0000
  const TWO_64: int := 0x1_0000_0000_0000_0000

  lemma Pow2At63And64()
    ensures Pow2(63) == TWO_63 && Pow2(64) == TWO_64
  {
    assert Pow2(8) == 256;
    Pow2Add(8, 8);
    Pow2Add(16, 16);
    Pow2Add(32, 32);
  }

  lemma Pow2At256()
    ensures Pow2(256) == TWO_64 * TWO_64 * TWO_64 * TWO_64
  {
    Pow2At63And64();
    Pow2Add(64, 64);
    Pow2Add(128, 64);
    Pow2Add(192, 64);
  }

  /** A Go uint64. */
  type UInt64 = n: nat | n < TWO_64

  /** A Go int64. */
  type Int64 = i: int | -TWO_63 <= i && i < TWO_63

  /** Go's int64(x) of a uint64: the upper half wraps to the negatives. */
  function ToInt64(n: UInt64): Int64 {
    if n < TWO_63 then n else n - TWO_64
  }

  /** Go's uint64(x) of an int64. */
  function ToUInt64(i: Int64): UInt64 {
    if 0 <= i then i else i + TWO_64
  }

  // ----- shifts, by repeated halving and doubling -----

  /** n >> k */
  function Shr(n: nat, k: nat): nat {
    if k == 0 then n else Shr(n, k - 1) / 2
  }

  /** n << k */
  function Shl(n: nat, k: nat): nat {
    if k == 0 then n else 2 * Shl(n, k - 1)
  }

  /** n & (1 << k) != 0 */
  predicate Bit(n: nat, k: nat) {
    Shr(n, k) % 2 == 1
  }

  /** The low k bits of n. */
  function Low(n: nat, k: nat): nat {
    if k == 0 then 0 else Low(n, k - 1) + if Bit(n, k - 1) then Pow2(k - 1) else 0
  }

  lemma {:induction false} ShrHalf(n: nat, k: nat)
    ensures Shr(n, k + 1) == Shr(n / 2, k)
  {
    if k > 0 {
      ShrHalf(n, k - 1);
    }
  }

  lemma {:induction false} ShlDouble(n: nat, k: nat)
    ensures Shl(n, k + 1) == Shl(2 * n, k)
  {
    if k > 0 {
      ShlDouble(n, k - 1);
    }
  }

  lemma {:induction false} ShlAdd(m: nat, n: nat, k: nat)
    ensures Shl(m + n, k) == Shl(m, k) + Shl(n, k)
    ensures Shl(1, k) == Pow2(k)
  {
    if k > 0 {
      ShlAdd(m, n, k - 1);
    }
  }

  lemma {:induction false} LowHalf(n: nat, k: nat)
    ensures Low(n, k + 1) == 2 * Low(n / 2, k) + n % 2
    ensures Bit(n, k + 1) <==> Bit(n / 2, k)
  {
    ShrHalf(n, k);
    if k > 0 {
      LowHalf(n, k - 1);
    } else {
      assert Low(n, 1) == Low(n, 0) + n % 2;
    }
  }

  /** A number is its high bits shifted back, plus its low bits. */
  lemma {:induction false} SplitBits(n: nat, k: nat)
    ensures n == Shl(Shr(n, k), k) + Low(n, k)
    ensures Low(n, k) < Pow2(k)
  {
    if k > 0 {
      SplitBits(n, k - 1);
      var h := Shr(n, k - 1);
      ShlDouble(h / 2, k - 1);
      ShlAdd(2 * (h / 2), h % 2, k - 1);
      assert Shl(0, k - 1) == 0 by { ShlAdd(0, 0, k - 1); }
    }
  }

  lemma {:induction false} SmallBits(n: nat, k: nat)
    requires n < Pow2(k)
    ensures Shr(n, k) == 0 && Low(n, k) == n
  {
    if k > 0 {
      SmallBits(n / 2, k - 1);
      ShrHalf(n, k - 1);
      LowHalf(n, k - 1);
    }
  }

  /** A non-negative int64 has no bits from position 63 up. */
  lemma NoHighBits(n: nat, k: nat)
    requires n < TWO_63 && 63 <= k
    ensures Shr(n, k) == 0 && Low(n, k) == n
  {
    Pow2At63And64();
    Pow2Monotone(63, k);
    SmallBits(n, k);
  }

  /** Shifting a sum right when the first summand has enough trailing zeros. */
  lemma {:induction false} ShrOfSum(t: nat, b: nat, x: nat, j: nat)
    requires j <= b
    ensures Shr(Shl(t, b) + x, j) == Shl(t, b - j) + Shr(x, j)
    decreases j
  {
    if j > 0 {
      ShrOfSum(t, b, x, j - 1);
    }
  }

  lemma {:induction false} ShlShl(t: nat, a: nat, b: nat)
    ensures Shl(Shl(t, a), b) == Shl(t, a + b)
  {
    if b > 0 {
      ShlShl(t, a, b - 1);
    }
  }

  lemma {:induction false} ShlMonotone(m: nat, n: nat, k: nat)
    requires m <= n
    ensures Shl(m, k) <= Shl(n, k)
  {
    ShlAdd(m, n - m, k);
  }

  lemma {:induction false} ShrMonotone(m: nat, n: nat, k: nat)
    requires m <= n
    ensures Shr(m, k) <= Shr(n, k)
  {
    if k > 0 {
      ShrMonotone(m, n, k - 1);
    }
  }

  /** The q-th block of 2^k numbers lies below n when q is below n >> k. */
  lemma BlockFits(n: nat, q: nat, k: nat)
    requires q < Shr(n, k)
    ensures Shl(q, k) + Pow2(k) <= n
  {
    SplitBits(n, k);
    ShlAdd(q, 1, k);
    ShlMonotone(q + 1, Shr(n, k), k);
  }

  /** A block of 2^k numbers is two blocks of 2^(k-1). */
  lemma HalfBlocks(q: nat, k: nat)
    requires k > 0
    ensures Shl(q, k) == Shl(2 * q, k - 1)
    ensures Shl(q, k) + Pow2(k - 1) == Shl(2 * q + 1, k - 1)
  {
    ShlDouble(q, k - 1);
    ShlAdd(2 * q, 1, k - 1);
  }

  /** Shl multiplies by a power of two. */
  lemma {:induction false} ShlIsProduct(n: nat, k: nat)
    ensures Shl(n, k) == n * Pow2(k)
  {
    if k > 0 {
      ShlIsProduct(n, k - 1);
      assert n * (2 * Pow2(k - 1)) == 2 * (n * Pow2(k - 1));
    }
  }
}
