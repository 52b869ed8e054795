/** Integer and bit-level facts behind the radix-2 FFT of src/utils/FFT-IFFT/fft.ts:
    powers of two, the 32-bit `&` behind isPowerOfTwo, bit reversal and the
    "next power of two" size that padToPowerOfTwo computes. */
module Bits {

  /** 2 to the power k. */
  function Pow2(k: nat): (r: nat)
    ensures r >= 1
  {
    if k == 0 then 1 else 2 * Pow2(k - 1)
  }

  /** n is 2^k for some k. */
  ghost predicate IsPow2(n: int) {
    exists k: nat :: n == Pow2(k)
  }

  lemma {:induction false} Pow2Monotone(a: nat, b: nat)
    requires a <= b
    ensures Pow2(a) <= Pow2(b)
    ensures a < b ==> 2 * Pow2(a) <= Pow2(b)
    decreases b - a
  {
    if a < b {
      Pow2Monotone(a, b - 1);
    }
  }

  lemma {:induction false} Pow2Add(a: nat, b: nat)
    ensures Pow2(a + b) == Pow2(a) * Pow2(b)
  {
    if b > 0 {
      Pow2Add(a, b - 1);
      assert Pow2(a + b) == 2 * Pow2(a + b - 1);
    }
  }

  const Two32: nat := 4294967296

  lemma Pow2Of32()
    ensures Pow2(32) == Two32
  {
    assert Pow2(1) == 2;
    assert Pow2(2) == 4;
    Pow2Add(2, 2);
    Pow2Add(4, 4);
    Pow2Add(8, 8);
    Pow2Add(16, 16);
  }

  // ---------------------------------------------------------------------------
  // isPowerOfTwo: (n & (n - 1)) === 0 on JavaScript's 32-bit integers
  // ---------------------------------------------------------------------------

  /** Bitwise AND of two non-negative integers, lowest bit first. */
  function BitAnd(a: nat, b: nat): nat
    decreases a
  {
    if a == 0 || b == 0 then 0
    else 2 * BitAnd(a / 2, b / 2) + (if a % 2 == 1 && b % 2 == 1 then 1 else 0)
  }

  /** The 32-bit pattern (ToUint32) that JavaScript's `&` operates on. */
  function Uint32(x: int): nat {
    x % Two32
  }

  /** fft.ts isPowerOfTwo: `(n & (n - 1)) === 0`. */
  function IsPowerOfTwo(n: int): bool {
    BitAnd(Uint32(n), Uint32(n - 1)) == 0
  }

  lemma {:induction false} BitAndSelf(a: nat)
    ensures BitAnd(a, a) == a
  {
    if a > 0 {
      BitAndSelf(a / 2);
    }
  }

  /** For m >= 1, m & (m - 1) clears the lowest set bit, so it is 0 exactly for powers of two. */
  lemma {:induction false} BitTestIsPowerOfTwo(m: nat)
    requires m >= 1
    ensures BitAnd(m, m - 1) == 0 <==> IsPow2(m)
  {
    if m == 1 {
      assert m == Pow2(0);
    } else if m % 2 == 1 {
      var q := m / 2;
      BitAndSelf(q);
      assert BitAnd(m, m - 1) == 2 * q;
    } else {
      var q := m / 2;
      BitTestIsPowerOfTwo(q);
      assert BitAnd(m, m - 1) == 2 * BitAnd(q, q - 1);
      if IsPow2(q) {
        var k: nat :| q == Pow2(k);
        assert m == Pow2(k + 1);
      }
      if IsPow2(m) {
        var k: nat :| m == Pow2(k);
        assert k > 0;
        assert q == Pow2(k - 1);
      }
    }
  }

  /** Below 2^32 the JavaScript test is exact for n >= 1, and it also accepts 0. */
  lemma IsPowerOfTwoMeaning(n: nat)
    requires n < Two32
    ensures IsPowerOfTwo(n) <==> (n == 0 || IsPow2(n))
  {
    assert Uint32(n) == n;
    if n == 0 {
      assert BitAnd(0, Uint32(-1)) == 0;
    } else {
      assert Uint32(n - 1) == n - 1;
      BitTestIsPowerOfTwo(n);
    }
  }

  lemma {:induction false} Pow2WrapsToZero(k: nat)
    requires k >= 32
    ensures Pow2(k) % Two32 == 0
  {
    if k == 32 {
      Pow2Of32();
    } else {
      Pow2WrapsToZero(k - 1);
      var p := Pow2(k - 1);
      assert Pow2(k) == p + p;
      assert p == Two32 * (p / Two32);
      assert p + p == Two32 * (2 * (p / Two32));
    }
  }

  /** Every power of two passes the test, including those at or above 2^32 whose
      32-bit pattern is 0. */
  lemma PowerOfTwoPassesTest(k: nat)
    ensures IsPowerOfTwo(Pow2(k))
  {
    if k < 32 {
      Pow2Monotone(k, 32);
      Pow2Of32();
      IsPowerOfTwoMeaning(Pow2(k));
    } else {
      Pow2WrapsToZero(k);
    }
  }

  // ---------------------------------------------------------------------------
  // bitReverse
  // ---------------------------------------------------------------------------

  /** The low `bits` bits of n in the opposite order: bit 0 of n becomes bit bits-1. */
  function ReverseBits(n: nat, bits: nat): (r: nat)
    ensures r < Pow2(bits)
  {
    if bits == 0 then 0
    else (if n % 2 == 1 then Pow2(bits - 1) else 0) + ReverseBits(n / 2, bits - 1)
  }

  /** Bit b of n. */
  function Bit(n: nat, b: nat): nat {
    if b == 0 then n % 2 else Bit(n / 2, b - 1)
  }

  lemma {:induction false} BitOfHighPlusLow(high: bool, m: nat, r: nat, b: nat)
    requires r < Pow2(m) && b <= m
    ensures Bit((if high then Pow2(m) else 0) + r, b) == if b == m then (if high then 1 else 0) else Bit(r, b)
  {
    var x := (if high then Pow2(m) else 0) + r;
    if b == 0 {
      if m > 0 {
        assert Pow2(m) == 2 * Pow2(m - 1);
      }
    } else {
      assert Pow2(m) == 2 * Pow2(m - 1);
      assert x / 2 == (if high then Pow2(m - 1) else 0) + r / 2;
      BitOfHighPlusLow(high, m - 1, r / 2, b - 1);
    }
  }

  /** Bit b of the reversal is bit bits-1-b of the input. */
  lemma {:induction false} ReverseBitsBit(n: nat, bits: nat, b: nat)
    requires b < bits
    ensures Bit(ReverseBits(n, bits), b) == Bit(n, bits - 1 - b)
  {
    var rest := ReverseBits(n / 2, bits - 1);
    BitOfHighPlusLow(n % 2 == 1, bits - 1, rest, b);
    if b < bits - 1 {
      ReverseBitsBit(n / 2, bits - 1, b);
    }
  }

  lemma {:induction false} BitsDetermine(x: nat, y: nat, k: nat)
    requires x < Pow2(k) && y < Pow2(k)
    requires forall b :: 0 <= b < k ==> Bit(x, b) == Bit(y, b)
    ensures x == y
  {
    if k > 0 {
      assert Bit(x, 0) == Bit(y, 0);
      forall b | 0 <= b < k - 1
        ensures Bit(x / 2, b) == Bit(y / 2, b)
      {
        assert Bit(x, b + 1) == Bit(y, b + 1);
      }
      BitsDetermine(x / 2, y / 2, k - 1);
    }
  }

  /** Reversing twice gives the index back: reversal is a bijection of [0, 2^bits). */
  lemma ReverseBitsInvolution(n: nat, bits: nat)
    requires n < Pow2(bits)
    ensures ReverseBits(ReverseBits(n, bits), bits) == n
  {
    var r := ReverseBits(n, bits);
    forall b | 0 <= b < bits
      ensures Bit(ReverseBits(r, bits), b) == Bit(n, b)
    {
      ReverseBitsBit(r, bits, b);
      ReverseBitsBit(n, bits, bits - 1 - b);
    }
    BitsDetermine(ReverseBits(r, bits), n, bits);
  }

  lemma ReverseBitsInjective(a: nat, b: nat, bits: nat)
    requires a < Pow2(bits) && b < Pow2(bits) && a != b
    ensures ReverseBits(a, bits) != ReverseBits(b, bits)
  {
    ReverseBitsInvolution(a, bits);
    ReverseBitsInvolution(b, bits);
  }

  /** fft.ts bitReverse: shift the reversed bits in one at a time. */
  method BitReverse(n: nat, bits: nat) returns (reversed: nat)
    ensures reversed == ReverseBits(n, bits)
  {
    reversed := 0;
    var m := n;
    for i := 0 to bits
      invariant reversed * Pow2(bits - i) + ReverseBits(m, bits - i) == ReverseBits(n, bits)
    {
      ghost var k := bits - i;
      assert Pow2(k) == 2 * Pow2(k - 1);
      assert reversed * Pow2(k) == (2 * reversed) * Pow2(k - 1);
      assert (2 * reversed + m % 2) * Pow2(k - 1)
          == (2 * reversed) * Pow2(k - 1) + (if m % 2 == 1 then Pow2(k - 1) else 0);
      reversed := 2 * reversed + m % 2;
      m := m / 2;
    }
  }

  // ---------------------------------------------------------------------------
  // The padded size: Math.pow(2, Math.ceil(Math.log2(n)))
  // ---------------------------------------------------------------------------

  /** ceil(log2(n)) for n >= 1. */
  function CeilLog2(n: nat): nat
    requires n >= 1
    decreases n
  {
    if n == 1 then 0 else 1 + CeilLog2((n + 1) / 2)
  }

  lemma {:induction false} CeilLog2Covers(n: nat)
    requires n >= 1
    ensures n <= Pow2(CeilLog2(n))
    decreases n
  {
    if n > 1 {
      CeilLog2Covers((n + 1) / 2);
    }
  }

  lemma {:induction false} CeilLog2Least(n: nat, k: nat)
    requires n >= 1 && n <= Pow2(k)
    ensures CeilLog2(n) <= k
    decreases n
  {
    if n > 1 {
      assert k > 0;
      assert Pow2(k) == 2 * Pow2(k - 1);
      CeilLog2Least((n + 1) / 2, k - 1);
    }
  }

  lemma CeilLog2OfPow2(k: nat)
    ensures CeilLog2(Pow2(k)) == k
  {
    var c := CeilLog2(Pow2(k));
    CeilLog2Least(Pow2(k), k);
    CeilLog2Covers(Pow2(k));
    if c < k {
      Pow2Monotone(c, k);
    }
  }

  /** The padded length: 0 for the empty signal (Math.log2(0) is -Infinity and
      2^-Infinity is 0), else the smallest power of two that is at least n. */
  function NextPowerOfTwo(n: nat): (r: nat)
    ensures n <= r
    ensures n >= 1 ==> r == Pow2(CeilLog2(n))
  {
    if n == 0 then 0
    else CeilLog2Covers(n); Pow2(CeilLog2(n))
  }

  /** NextPowerOfTwo(n) is a power of two, no power of two at least n is smaller,
      and a length that is already a power of two is kept. */
  lemma NextPowerOfTwoIsLeast(n: nat, k: nat)
    requires n >= 1
    ensures IsPow2(NextPowerOfTwo(n))
    ensures n <= Pow2(k) ==> NextPowerOfTwo(n) <= Pow2(k)
    ensures n == Pow2(k) ==> NextPowerOfTwo(n) == n
  {
    if n <= Pow2(k) {
      CeilLog2Least(n, k);
      Pow2Monotone(CeilLog2(n), k);
    }
    if n == Pow2(k) {
      CeilLog2OfPow2(k);
    }
  }
}
