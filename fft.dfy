/** The index machinery of src/utils/FFT-IFFT/fft.ts: zero padding to a power of
    two, the bit-reversal copy, and the in-place butterfly stages of the iterative
    Cooley-Tukey transform. The complex arithmetic of complexMath.ts is left
    uninterpreted: the element type is a parameter and its operations are
    supplied by the caller, so what is proved is how elements move, not their
    floating-point values. */
module Fft {
  import opened Bits

  /** The angle 2*pi*num/den, as handed to complexExp. */
  datatype Turn = Turn(num: int, den: nat)

  /** The complex arithmetic of complexMath.ts, as uninterpreted operations. */
  datatype Arith<!T> = Arith(
    zero: T,                 // { re: 0, im: 0 }
    add: (T, T) -> T,        // complexAdd
    sub: (T, T) -> T,        // complexSubtract
    mul: (T, T) -> T,        // complexMultiply
    exp: Turn -> T,          // complexExp
    scale: (T, real) -> T,   // complexScale
    round: T -> T)           // the per-element rounding of computeIFFT's roundOutput

  // ---------------------------------------------------------------------------
  // padToPowerOfTwo
  // ---------------------------------------------------------------------------

  /** The signal followed by zeros up to the padded length. */
  function Padded<T>(signal: seq<T>, zero: T): seq<T> {
    signal + seq(NextPowerOfTwo(|signal|) - |signal|, _ => zero)
  }

  /** fft.ts padToPowerOfTwo: push zeros while the copy is shorter than the target. */
  method PadToPowerOfTwo<T>(signal: seq<T>, zero: T) returns (padded: seq<T>)
    ensures padded == Padded(signal, zero)
  {
    var target := NextPowerOfTwo(|signal|);
    padded := signal;
    while |padded| < target
      invariant |signal| <= |padded| <= target
      invariant padded == signal + seq(|padded| - |signal|, _ => zero)
    {
      padded := padded + [zero];
    }
  }

  /** The padded signal is as long as the least power of two covering the input,
      starts with the input and is zero after it; a power-of-two length is kept. */
  lemma PaddedShape<T>(signal: seq<T>, zero: T)
    ensures |Padded(signal, zero)| == NextPowerOfTwo(|signal|)
    ensures Padded(signal, zero)[..|signal|] == signal
    ensures forall k :: |signal| <= k < |Padded(signal, zero)| ==> Padded(signal, zero)[k] == zero
    ensures IsPow2(|signal|) ==> Padded(signal, zero) == signal
  {
    if IsPow2(|signal|) {
      var k: nat :| |signal| == Pow2(k);
      NextPowerOfTwoIsLeast(|signal|, k);
      assert Padded(signal, zero) == signal + [];
    }
  }

  /** After padding, the length is a power of two, so the "must be a power of 2"
      error of computeFFT and computeIFFT is never thrown. */
  lemma PaddedLengthPassesTest<T>(signal: seq<T>, zero: T)
    ensures IsPowerOfTwo(|Padded(signal, zero)|)
  {
    if |signal| == 0 {
      assert IsPowerOfTwo(0);
    } else {
      PowerOfTwoPassesTest(CeilLog2(|signal|));
    }
  }

  // ---------------------------------------------------------------------------
  // Blocks: the positions i, i + size, i + 2*size, ... where the butterflies start
  // ---------------------------------------------------------------------------

  /** k mod size, by repeated subtraction: k's position within its block. */
  function BlockOffset(k: nat, size: nat): (r: nat)
    requires size > 0
    ensures r < size && r <= k
    decreases k
  {
    if k < size then k else BlockOffset(k - size, size)
  }

  lemma {:induction false} OffsetInBlock(i: nat, size: nat, r: nat)
    requires size > 0 && BlockOffset(i, size) == 0 && r < size
    ensures BlockOffset(i + r, size) == r
    decreases i
  {
    if i >= size {
      OffsetInBlock(i - size, size, r);
    }
  }

  lemma NextBlockAligned(i: nat, size: nat)
    requires size > 0 && BlockOffset(i, size) == 0
    ensures BlockOffset(i + size, size) == 0
  {
  }

  /** A block that starts inside an aligned length ends inside it. */
  lemma {:induction false} BlockInside(n: nat, size: nat, k: nat)
    requires size > 0 && BlockOffset(n, size) == 0 && k < n
    ensures k - BlockOffset(k, size) + size <= n
    decreases k
  {
    if k >= size {
      BlockInside(n - size, size, k - size);
    }
  }

  lemma {:induction false} AlignedSum(a: nat, b: nat, size: nat)
    requires size > 0 && BlockOffset(a, size) == 0 && BlockOffset(b, size) == 0
    ensures BlockOffset(a + b, size) == 0
    decreases a
  {
    if a >= size {
      AlignedSum(a - size, b, size);
    } else {
      assert a == 0;
    }
  }

  /** Every stage size 2^t, t <= bits, divides the transform length 2^bits. */
  lemma {:induction false} StageSizeDividesLength(bits: nat, t: nat)
    requires t <= bits
    ensures BlockOffset(Pow2(bits), Pow2(t)) == 0
    decreases bits
  {
    if t == bits {
      assert BlockOffset(Pow2(bits), Pow2(t)) == BlockOffset(0, Pow2(t));
    } else {
      StageSizeDividesLength(bits - 1, t);
      AlignedSum(Pow2(bits - 1), Pow2(bits - 1), Pow2(t));
    }
  }

  /** In a stage of the given size over n elements (n a multiple of size), the
      butterfly at block start i and offset j < size/2 touches i+j and
      i+j+size/2, both inside [0, n); and no other (i', j') of the same stage
      touches either of them, so each element is written exactly once per stage. */
  lemma ButterflyIndices(n: nat, size: nat, i: nat, j: nat, i': nat, j': nat)
    requires size >= 2 && size % 2 == 0 && BlockOffset(n, size) == 0
    requires BlockOffset(i, size) == 0 && i < n && j < size / 2
    requires BlockOffset(i', size) == 0 && i' < n && j' < size / 2
    requires (i, j) != (i', j')
    ensures i + j < n && i + j + size / 2 < n
    ensures i + j != i' + j' && i + j + size / 2 != i' + j' + size / 2
    ensures i + j != i' + j' + size / 2
  {
    var half := size / 2;
    OffsetInBlock(i, size, j);
    OffsetInBlock(i, size, j + half);
    OffsetInBlock(i', size, j');
    OffsetInBlock(i', size, j' + half);
    BlockInside(n, size, i);
  }

  // ---------------------------------------------------------------------------
  // The butterfly network, as a function of the previous stage
  // ---------------------------------------------------------------------------

  /** complexExp(angle * j) with angle = -2*pi/size (FFT) or +2*pi/size (IFFT). */
  function Twiddle<T>(ops: Arith<T>, inverse: bool, size: nat, j: nat): T {
    ops.exp(Turn(if inverse then j as int else -(j as int), size))
  }

  /** Element k after the stage of the given size: the top of a butterfly pair is
      even + w*odd, the bottom even - w*odd, where even and odd are the pair's
      values in the previous stage. */
  function ButterflyAt<T>(ops: Arith<T>, inverse: bool, prev: seq<T>, size: nat, k: nat): T
    requires size >= 2 && size % 2 == 0 && BlockOffset(|prev|, size) == 0 && k < |prev|
  {
    var half := size / 2;
    var j := BlockOffset(k, size);
    BlockInside(|prev|, size, k);
    if j < half then ops.add(prev[k], ops.mul(prev[k + half], Twiddle(ops, inverse, size, j)))
    else ops.sub(prev[k - half], ops.mul(prev[k], Twiddle(ops, inverse, size, j - half)))
  }

  function Stage<T>(ops: Arith<T>, inverse: bool, prev: seq<T>, size: nat): (r: seq<T>)
    requires size >= 2 && size % 2 == 0 && BlockOffset(|prev|, size) == 0
  {
    seq(|prev|, k requires 0 <= k < |prev| => ButterflyAt(ops, inverse, prev, size, k))
  }

  /** The stages of sizes 2, 4, ..., 2^t applied in turn to x, |x| = 2^bits. */
  function StagesUpTo<T>(ops: Arith<T>, inverse: bool, x: seq<T>, bits: nat, t: nat): (r: seq<T>)
    requires |x| == Pow2(bits) && t <= bits
    ensures |r| == |x|
  {
    if t == 0 then x
    else
      var prev := StagesUpTo(ops, inverse, x, bits, t - 1);
      StageSizeDividesLength(bits, t);
      Stage(ops, inverse, prev, Pow2(t))
  }

  /** Element k of x moved to position ReverseBits(k). */
  function BitReversed<T>(x: seq<T>, bits: nat): seq<T>
    requires |x| == Pow2(bits)
  {
    seq(|x|, k requires 0 <= k < |x| => x[ReverseBits(k, bits)])
  }

  /** What the bit-reversal copy and all butterfly stages make of a padded signal. */
  function Transformed<T>(ops: Arith<T>, inverse: bool, padded: seq<T>): (r: seq<T>)
    requires |padded| == NextPowerOfTwo(|padded|)
    ensures |r| == |padded|
  {
    if |padded| == 0 then []
    else
      var bits := CeilLog2(|padded|);
      StagesUpTo(ops, inverse, BitReversed(padded, bits), bits, bits)
  }

  lemma PaddedIsFixed<T>(signal: seq<T>, zero: T)
    ensures |Padded(signal, zero)| == NextPowerOfTwo(|Padded(signal, zero)|)
  {
    PaddedShape(signal, zero);
    if |signal| > 0 {
      NextPowerOfTwoIsLeast(NextPowerOfTwo(|signal|), CeilLog2(|signal|));
    }
  }

  /** computeFFT's result. */
  function FftOf<T>(ops: Arith<T>, signal: seq<T>): seq<T> {
    PaddedIsFixed(signal, ops.zero);
    Transformed(ops, false, Padded(signal, ops.zero))
  }

  /** computeIFFT's result: the inverse butterflies, then x * (1/N) and the final rounding. */
  function IfftOf<T>(ops: Arith<T>, signal: seq<T>): seq<T> {
    PaddedIsFixed(signal, ops.zero);
    var y := Transformed(ops, true, Padded(signal, ops.zero));
    seq(|y|, k requires 0 <= k < |y| => ops.round(ops.scale(y[k], 1.0 / |y| as real)))
  }

  /** Both transforms return exactly N = NextPowerOfTwo(|signal|) elements. */
  lemma TransformLengths<T>(ops: Arith<T>, signal: seq<T>)
    ensures |FftOf(ops, signal)| == NextPowerOfTwo(|signal|)
    ensures |IfftOf(ops, signal)| == NextPowerOfTwo(|signal|)
  {
    PaddedShape(signal, ops.zero);
  }

  /** The bit-reversal copy is a permutation: slot ReverseBits(k) receives element
      k, and every slot is filled from exactly one element. */
  lemma BitReversedIsPermutation<T>(x: seq<T>, bits: nat)
    requires |x| == Pow2(bits)
    ensures forall k :: 0 <= k < |x| ==> ReverseBits(k, bits) < |x| && BitReversed(x, bits)[ReverseBits(k, bits)] == x[k]
    ensures forall k, k' :: 0 <= k < k' < |x| ==> ReverseBits(k, bits) != ReverseBits(k', bits)
  {
    forall k | 0 <= k < |x|
      ensures ReverseBits(k, bits) < |x| && BitReversed(x, bits)[ReverseBits(k, bits)] == x[k]
    {
      ReverseBitsInvolution(k, bits);
    }
    forall k, k' | 0 <= k < k' < |x|
      ensures ReverseBits(k, bits) != ReverseBits(k', bits)
    {
      ReverseBitsInjective(k, k', bits);
    }
  }

  // ---------------------------------------------------------------------------
  // The in-place loops of computeFFT / computeIFFT
  // ---------------------------------------------------------------------------

  /** The bit-reversal copy: output[bitReverse(i, bits)] = paddedSignal[i]. */
  method CopyBitReversed<T>(paddedSignal: seq<T>, bits: nat, zero: T) returns (output: array<T>)
    requires |paddedSignal| == Pow2(bits)
    ensures fresh(output) && output[..] == BitReversed(paddedSignal, bits)
  {
    var n := |paddedSignal|;
    output := new T[n](_ => zero);
    for i := 0 to n
      invariant forall i' :: 0 <= i' < i ==> output[ReverseBits(i', bits)] == paddedSignal[i']
    {
      var r := BitReverse(i, bits);
      forall i' | 0 <= i' < i
        ensures ReverseBits(i', bits) != r
      {
        ReverseBitsInjective(i', i, bits);
      }
      output[r] := paddedSignal[i];
    }
    forall k | 0 <= k < n
      ensures output[k] == BitReversed(paddedSignal, bits)[k]
    {
      ReverseBitsInvolution(k, bits);
    }
  }

  /** The state of the array inside a stage once every block before i and the
      first j butterflies of block i are done. */
  function Partial<T>(ops: Arith<T>, inverse: bool, prev: seq<T>, size: nat, i: nat, j: nat): (r: seq<T>)
    requires size >= 2 && size % 2 == 0 && BlockOffset(|prev|, size) == 0
    ensures |r| == |prev|
  {
    Mix(prev, Stage(ops, inverse, prev, size), i, j, size / 2)
  }

  /** The slots before i, and the first j of each half of the block at i, taken
      from next; the others from prev. */
  function Mix<T>(prev: seq<T>, next: seq<T>, i: nat, j: nat, half: nat): (r: seq<T>)
    requires |next| == |prev|
    ensures |r| == |prev|
  {
    seq(|prev|, k requires 0 <= k < |prev| =>
      if k < i || (i <= k < i + j) || (i + half <= k < i + half + j)
      then next[k]
      else prev[k])
  }

  /** Taking the pair (i+j, i+j+half) from next as well is the mix one step further. */
  lemma MixAdvance<T>(prev: seq<T>, next: seq<T>, i: nat, j: nat, half: nat)
    requires |next| == |prev| && i + j + half < |prev|
    ensures Mix(prev, next, i, j, half)[i + j := next[i + j]][i + j + half := next[i + j + half]]
      == Mix(prev, next, i, j + 1, half)
  {
    var upd := Mix(prev, next, i, j, half)[i + j := next[i + j]][i + j + half := next[i + j + half]];
    var after := Mix(prev, next, i, j + 1, half);
    assert forall k :: 0 <= k < |prev| ==> upd[k] == after[k];
  }

  /** The two values a butterfly computes are those the stage function assigns. */
  lemma ButterflyPair<T>(ops: Arith<T>, inverse: bool, prev: seq<T>, size: nat, i: nat, j: nat)
    requires size >= 2 && size % 2 == 0 && BlockOffset(|prev|, size) == 0
    requires BlockOffset(i, size) == 0 && i < |prev| && j < size / 2
    ensures i + j + size / 2 < |prev|
    ensures ButterflyAt(ops, inverse, prev, size, i + j)
      == ops.add(prev[i + j], ops.mul(prev[i + j + size / 2], Twiddle(ops, inverse, size, j)))
    ensures ButterflyAt(ops, inverse, prev, size, i + j + size / 2)
      == ops.sub(prev[i + j], ops.mul(prev[i + j + size / 2], Twiddle(ops, inverse, size, j)))
  {
    BlockInside(|prev|, size, i);
    OffsetInBlock(i, size, j);
    OffsetInBlock(i, size, j + size / 2);
  }

  /** One butterfly, on the slots i+j and i+j+size/2 that are still untouched,
      advances the stage by one step. */
  lemma ButterflyStep<T>(ops: Arith<T>, inverse: bool, prev: seq<T>, size: nat, i: nat, j: nat)
    requires size >= 2 && size % 2 == 0 && BlockOffset(|prev|, size) == 0
    requires BlockOffset(i, size) == 0 && i < |prev| && j < size / 2
    ensures i + j + size / 2 < |prev|
    ensures
      var cur := Partial(ops, inverse, prev, size, i, j);
      var half := size / 2;
      var even := cur[i + j];
      var odd := ops.mul(cur[i + j + half], Twiddle(ops, inverse, size, j));
      cur[i + j := ops.add(even, odd)][i + j + half := ops.sub(even, odd)]
        == Partial(ops, inverse, prev, size, i, j + 1)
  {
    var half := size / 2;
    ButterflyPair(ops, inverse, prev, size, i, j);
    PartialUntouched(ops, inverse, prev, size, i, j, i + j);
    PartialUntouched(ops, inverse, prev, size, i, j, i + j + half);
    var st := Stage(ops, inverse, prev, size);
    StageAt(ops, inverse, prev, size, i + j);
    StageAt(ops, inverse, prev, size, i + j + half);
    MixAdvance(prev, st, i, j, half);
  }

  lemma StageAt<T>(ops: Arith<T>, inverse: bool, prev: seq<T>, size: nat, k: nat)
    requires size >= 2 && size % 2 == 0 && BlockOffset(|prev|, size) == 0 && k < |prev|
    ensures Stage(ops, inverse, prev, size)[k] == ButterflyAt(ops, inverse, prev, size, k)
  {
  }

  lemma PartialUntouched<T>(ops: Arith<T>, inverse: bool, prev: seq<T>, size: nat, i: nat, j: nat, k: nat)
    requires size >= 2 && size % 2 == 0 && BlockOffset(|prev|, size) == 0 && k < |prev|
    requires !(k < i || (i <= k < i + j) || (i + size / 2 <= k < i + size / 2 + j))
    ensures Partial(ops, inverse, prev, size, i, j)[k] == prev[k]
  {
  }

  /** A finished block is the start of the next one. */
  lemma BlockDone<T>(ops: Arith<T>, inverse: bool, prev: seq<T>, size: nat, i: nat)
    requires size >= 2 && size % 2 == 0 && BlockOffset(|prev|, size) == 0
    ensures Partial(ops, inverse, prev, size, i, size / 2) == Partial(ops, inverse, prev, size, i + size, 0)
  {
  }

  lemma StageDone<T>(ops: Arith<T>, inverse: bool, prev: seq<T>, size: nat, i: nat)
    requires size >= 2 && size % 2 == 0 && BlockOffset(|prev|, size) == 0 && |prev| <= i
    ensures Partial(ops, inverse, prev, size, i, 0) == Stage(ops, inverse, prev, size)
  {
  }

  lemma StageStart<T>(ops: Arith<T>, inverse: bool, prev: seq<T>, size: nat)
    requires size >= 2 && size % 2 == 0 && BlockOffset(|prev|, size) == 0
    ensures Partial(ops, inverse, prev, size, 0, 0) == prev
  {
  }

  /** One stage of butterflies, in place: for each block start i (a multiple of
      size) and each j < size/2, overwrite the pair (i+j, i+j+size/2). */
  method ButterflyStage<T>(output: array<T>, ops: Arith<T>, inverse: bool, size: nat)
    requires size >= 2 && size % 2 == 0 && BlockOffset(output.Length, size) == 0
    modifies output
    ensures output[..] == Stage(ops, inverse, old(output[..]), size)
  {
    ghost var prev := output[..];
    var n := output.Length;
    var halfSize := size / 2;
    StageStart(ops, inverse, prev, size);
    var i := 0;
    while i < n
      invariant BlockOffset(i, size) == 0
      invariant output[..] == Partial(ops, inverse, prev, size, i, 0)
      decreases n - i
    {
      var j := 0;
      while j < halfSize
        invariant j <= halfSize
        invariant output[..] == Partial(ops, inverse, prev, size, i, j)
      {
        ButterflyStep(ops, inverse, prev, size, i, j);
        var twiddle := ops.mul(output[i + j + halfSize], Twiddle(ops, inverse, size, j));
        var even := output[i + j];
        var odd := twiddle;
        output[i + j] := ops.add(even, odd);
        output[i + j + halfSize] := ops.sub(even, odd);
        j := j + 1;
      }
      BlockDone(ops, inverse, prev, size, i);
      NextBlockAligned(i, size);
      i := i + size;
    }
    StageDone(ops, inverse, prev, size, i);
  }

  /** The stage of size 2^s is the one after the stages up to 2^(s-1). */
  lemma StagesStep<T>(ops: Arith<T>, inverse: bool, x: seq<T>, bits: nat, s: nat)
    requires |x| == Pow2(bits) && 1 <= s <= bits
    ensures Pow2(s) >= 2 && Pow2(s) % 2 == 0
    ensures BlockOffset(|x|, Pow2(s)) == 0
    ensures StagesUpTo(ops, inverse, x, bits, s)
      == Stage(ops, inverse, StagesUpTo(ops, inverse, x, bits, s - 1), Pow2(s))
  {
    StageSizeDividesLength(bits, s);
  }

  /** The loop `for (size = 2; size <= N; size *= 2)` runs for size = 2^s exactly
      while s <= log2(N). */
  lemma StageLoopBound(bits: nat, s: nat)
    ensures Pow2(s) <= Pow2(bits) <==> s <= bits
  {
    if s <= bits {
      Pow2Monotone(s, bits);
    } else {
      Pow2Monotone(bits, s);
    }
  }

  /** The bit-reversal copy followed by the stages size = 2, 4, ..., N, on the
      array `output` of computeFFT / computeIFFT. */
  method Butterflies<T>(paddedSignal: seq<T>, ops: Arith<T>, inverse: bool) returns (output: array<T>)
    requires |paddedSignal| == NextPowerOfTwo(|paddedSignal|)
    ensures fresh(output) && output[..] == Transformed(ops, inverse, paddedSignal)
  {
    var n := |paddedSignal|;
    if n == 0 {
      // Math.log2(0) is -Infinity and 2 <= 0 fails: both loops are empty.
      output := new T[0];
      return;
    }
    var bits := CeilLog2(n);   // Math.log2(N), exact for a power of two
    assert n == Pow2(bits);
    output := CopyBitReversed(paddedSignal, bits, ops.zero);
    AllStages(output, ops, inverse, bits);
  }

  /** The loop `for (size = 2; size <= N; size *= 2)` of computeFFT / computeIFFT,
      running one butterfly stage per size on an array of length N = 2^bits. */
  method AllStages<T>(output: array<T>, ops: Arith<T>, inverse: bool, bits: nat)
    requires output.Length == Pow2(bits)
    modifies output
    ensures output[..] == StagesUpTo(ops, inverse, old(output[..]), bits, bits)
  {
    ghost var x := output[..];
    var n := output.Length;
    var size := 2;
    ghost var s := 1;
    while size <= n
      invariant 1 <= s && size == Pow2(s)
      invariant s <= bits + 1
      invariant output[..] == StagesUpTo(ops, inverse, x, bits, s - 1)
      decreases bits + 1 - s
    {
      StageLoopBound(bits, s);
      StagesStep(ops, inverse, x, bits, s);
      ghost var before := StagesUpTo(ops, inverse, x, bits, s - 1);
      ButterflyStage(output, ops, inverse, size);
      assert output[..] == Stage(ops, inverse, before, size);
      size := size * 2;
      s := s + 1;
    }
    StageLoopBound(bits, s);
    assert s - 1 == bits;
  }

  /** fft.ts computeFFT. */
  method ComputeFFT<T>(signal: seq<T>, ops: Arith<T>) returns (output: seq<T>)
    ensures output == FftOf(ops, signal)
    ensures |output| == NextPowerOfTwo(|signal|)
  {
    var paddedSignal := PadToPowerOfTwo(signal, ops.zero);
    var n := |paddedSignal|;
    PaddedLengthPassesTest(signal, ops.zero);
    assert IsPowerOfTwo(n);   // the 'Signal length must be a power of 2' error cannot occur
    PaddedIsFixed(signal, ops.zero);
    var result := Butterflies(paddedSignal, ops, false);
    output := result[..];
    TransformLengths(ops, signal);
  }

  /** fft.ts computeIFFT (the console.log tracing is left out). */
  method ComputeIFFT<T>(signal: seq<T>, ops: Arith<T>) returns (output: seq<T>)
    ensures output == IfftOf(ops, signal)
    ensures |output| == NextPowerOfTwo(|signal|)
  {
    var paddedSignal := PadToPowerOfTwo(signal, ops.zero);
    var n := |paddedSignal|;
    PaddedLengthPassesTest(signal, ops.zero);
    assert IsPowerOfTwo(n);   // the 'Signal length must be a power of 2' error cannot occur
    PaddedIsFixed(signal, ops.zero);
    var out := Butterflies(paddedSignal, ops, true);
    ghost var y := out[..];
    for i := 0 to n
      invariant forall k :: 0 <= k < i ==> out[k] == ops.scale(y[k], 1.0 / n as real)
      invariant forall k :: i <= k < n ==> out[k] == y[k]
    {
      out[i] := ops.scale(out[i], 1.0 / n as real);
    }
    // roundOutput
    output := seq(n, k requires 0 <= k < n reads out => ops.round(out[k]));
    TransformLengths(ops, signal);
  }
}
