/** src/utils/Convolucion/convolution.ts: the full discrete convolution
    y[n] = sum over k of f[k] * g[n - k], its placement on global indices, the
    index generators, and the two ways of cutting the result to a range. */
module Convolution {
  import opened Signals

  /** s extended by zeros on both sides. */
  function At(s: seq<real>, i: int): real {
    if 0 <= i < |s| then s[i] else 0.0
  }

  /** The sum over k in [lo, hi), in increasing k, of f[k] * g[n - k], where
      out-of-range samples are 0. */
  function PartialSum(f: seq<real>, g: seq<real>, n: int, lo: int, hi: int): real
    decreases hi - lo
  {
    if hi <= lo then 0.0
    else PartialSum(f, g, n, lo, hi - 1) + At(f, hi - 1) * At(g, n - (hi - 1))
  }

  /** y[n] = sum over k in [0, N) with 0 <= n - k < M of f[k] * g[n - k]. */
  function ConvAt(f: seq<real>, g: seq<real>, n: int): real {
    PartialSum(f, g, n, 0, |f|)
  }

  /** The full convolution: one sample for each n in [0, N + M - 1). */
  function Convolve(f: seq<real>, g: seq<real>): (y: seq<real>)
    requires |f| + |g| >= 1
    ensures |y| == |f| + |g| - 1
  {
    seq(|f| + |g| - 1, n => ConvAt(f, g, n))
  }

  // ---------------------------------------------------------------------------
  // Facts about the sum
  // ---------------------------------------------------------------------------

  lemma {:induction false} PartialSumFront(f: seq<real>, g: seq<real>, n: int, lo: int, hi: int)
    requires lo < hi
    ensures PartialSum(f, g, n, lo, hi) == At(f, lo) * At(g, n - lo) + PartialSum(f, g, n, lo + 1, hi)
    decreases hi - lo
  {
    if lo + 1 < hi {
      PartialSumFront(f, g, n, lo, hi - 1);
    }
  }

  /** Terms that vanish on [a, b) do not change the sum. */
  lemma {:induction false} PartialSumExtend(f: seq<real>, g: seq<real>, n: int, lo: int, a: int, b: int)
    requires lo <= a <= b
    requires forall k :: a <= k < b ==> At(f, k) * At(g, n - k) == 0.0
    ensures PartialSum(f, g, n, lo, b) == PartialSum(f, g, n, lo, a)
    decreases b - a
  {
    if a < b {
      PartialSumExtend(f, g, n, lo, a, b - 1);
    }
  }

  /** Reindexing k to n - k turns the sum of f[k] g[n-k] over [lo, hi) into the
      sum of g[k] f[n-k] over [n-hi+1, n-lo+1). */
  lemma {:induction false} PartialSumSwap(f: seq<real>, g: seq<real>, n: int, lo: int, hi: int)
    requires lo <= hi
    ensures PartialSum(f, g, n, lo, hi) == PartialSum(g, f, n, n - hi + 1, n - lo + 1)
    decreases hi - lo
  {
    if lo < hi {
      PartialSumSwap(f, g, n, lo, hi - 1);
      PartialSumFront(g, f, n, n - hi + 1, n - lo + 1);
      assert n - (n - hi + 1) == hi - 1;
    }
  }

  /** For n >= 0 the sum may as well run over k in [0, n]. */
  lemma ConvAtUpToN(f: seq<real>, g: seq<real>, n: int)
    requires n >= 0
    ensures ConvAt(f, g, n) == PartialSum(f, g, n, 0, n + 1)
  {
    if |f| <= n + 1 {
      PartialSumExtend(f, g, n, 0, |f|, n + 1);
    } else {
      PartialSumExtend(f, g, n, 0, n + 1, |f|);
    }
  }

  /** Convolution is commutative at every index. */
  lemma ConvAtCommutes(f: seq<real>, g: seq<real>, n: int)
    ensures ConvAt(f, g, n) == ConvAt(g, f, n)
  {
    if n >= 0 {
      ConvAtUpToN(f, g, n);
      ConvAtUpToN(g, f, n);
      PartialSumSwap(f, g, n, 0, n + 1);
    } else {
      PartialSumExtend(f, g, n, 0, 0, |f|);
      PartialSumExtend(g, f, n, 0, 0, |g|);
    }
  }

  /** Swapping f and g yields the same sequence. */
  lemma ConvolveCommutes(f: seq<real>, g: seq<real>)
    requires |f| + |g| >= 1
    ensures Convolve(f, g) == Convolve(g, f)
  {
    forall n | 0 <= n < |f| + |g| - 1
      ensures Convolve(f, g)[n] == Convolve(g, f)[n]
    {
      ConvAtCommutes(f, g, n);
    }
  }

  /** Outside [0, N + M - 1) the convolution is 0, so the N + M - 1 samples hold all of it. */
  lemma ConvAtOutsideSupport(f: seq<real>, g: seq<real>, n: int)
    requires n < 0 || n >= |f| + |g| - 1
    ensures ConvAt(f, g, n) == 0.0
  {
    PartialSumExtend(f, g, n, 0, 0, |f|);
  }

  // ---------------------------------------------------------------------------
  // discreteConvolution and discreteConvolutionWithIndices
  // ---------------------------------------------------------------------------

  /** convolution.ts discreteConvolution: for each n, accumulate f[k] * g[n - k]
      over the k for which n - k is an index of g. Both inputs empty make the
      length -1, and `new Array(-1)` throws. */
  method DiscreteConvolution(f: seq<real>, g: seq<real>) returns (r: Result<seq<real>>)
    ensures r.Err? <==> |f| + |g| == 0
    ensures r.Ok? ==> r.value == Convolve(f, g)
  {
    var N := |f|;
    var M := |g|;
    var resultLength := N + M - 1;
    if resultLength < 0 {
      return Err(InvalidArrayLength);
    }
    var result := new real[resultLength](_ => 0.0);
    for n := 0 to resultLength
      invariant forall n' :: 0 <= n' < n ==> result[n'] == ConvAt(f, g, n')
      invariant forall n' :: n <= n' < resultLength ==> result[n'] == 0.0
    {
      ghost var before := result[..];
      for k := 0 to N
        invariant result[n] == PartialSum(f, g, n, 0, k)
        invariant forall n' :: 0 <= n' < resultLength && n' != n ==> result[n'] == before[n']
      {
        var gIndex := n - k;
        if gIndex >= 0 && gIndex < M {
          result[n] := result[n] + f[k] * g[gIndex];
        }
      }
    }
    assert result[..] == Convolve(f, g);
    return Ok(result[..]);
  }

  /** The convolution placed on global indices: it starts at fStart + gStart. */
  function ConvolutionSignal(fSignal: DiscreteSignal, gSignal: DiscreteSignal): Result<DiscreteSignal> {
    if |fSignal.values| + |gSignal.values| == 0 then Err(InvalidArrayLength)
    else Ok(DiscreteSignal(Convolve(fSignal.values, gSignal.values), fSignal.startIndex + gSignal.startIndex))
  }

  /** convolution.ts discreteConvolutionWithIndices: the same values as
      discreteConvolution, with start index fStart + gStart. */
  method DiscreteConvolutionWithIndices(fSignal: DiscreteSignal, gSignal: DiscreteSignal) returns (r: Result<DiscreteSignal>)
    ensures r == ConvolutionSignal(fSignal, gSignal)
    ensures r.Ok? ==> |r.value.values| == |fSignal.values| + |gSignal.values| - 1
                      && r.value.startIndex == fSignal.startIndex + gSignal.startIndex
  {
    var result := DiscreteConvolution(fSignal.values, gSignal.values);
    if result.Err? {
      return Err(result.error);
    }
    var resultStartIndex := fSignal.startIndex + gSignal.startIndex;
    return Ok(DiscreteSignal(result.value, resultStartIndex));
  }

  /** On global indices, the sample of the result at n is the sum over m of
      f(m) * g(n - m), f and g read at their own global indices. */
  lemma ConvolutionSignalAt(fSignal: DiscreteSignal, gSignal: DiscreteSignal, n: int)
    requires |fSignal.values| + |gSignal.values| >= 1
    ensures var c := ConvolutionSignal(fSignal, gSignal).value;
            SampleAt(c, n) == ConvAt(fSignal.values, gSignal.values, n - fSignal.startIndex - gSignal.startIndex)
  {
    var c := ConvolutionSignal(fSignal, gSignal).value;
    var m := n - fSignal.startIndex - gSignal.startIndex;
    if !(0 <= m < |c.values|) {
      ConvAtOutsideSupport(fSignal.values, gSignal.values, m);
    }
  }

  // ---------------------------------------------------------------------------
  // Index generators
  // ---------------------------------------------------------------------------

  /** convolution.ts generateConvolutionIndices: 0, 1, ..., fLength + gLength - 2
      (Array.from with a negative length gives []). */
  function GenerateConvolutionIndices(fLength: int, gLength: int): (r: seq<int>)
    ensures |r| == Max(0, fLength + gLength - 1)
    ensures forall i :: 0 <= i < |r| ==> r[i] == i
  {
    seq(Max(0, fLength + gLength - 1), i => i)
  }

  /** convolution.ts generateConvolutionIndicesWithStart: N + M - 1 consecutive
      integers from fStart + gStart. */
  function GenerateConvolutionIndicesWithStart(fSignal: DiscreteSignal, gSignal: DiscreteSignal): (r: seq<int>)
    ensures |r| == Max(0, |fSignal.values| + |gSignal.values| - 1)
    ensures forall i :: 0 <= i < |r| ==> r[i] == fSignal.startIndex + gSignal.startIndex + i
  {
    seq(Max(0, |fSignal.values| + |gSignal.values| - 1), i => fSignal.startIndex + gSignal.startIndex + i)
  }

  /** The generated indices are exactly the global indices of the convolution's
      samples; the simple version is the same with both starts at 0. */
  lemma IndicesMatchConvolution(fSignal: DiscreteSignal, gSignal: DiscreteSignal)
    requires |fSignal.values| + |gSignal.values| >= 1
    ensures GenerateConvolutionIndicesWithStart(fSignal, gSignal) == Indices(ConvolutionSignal(fSignal, gSignal).value)
    ensures GenerateConvolutionIndices(|fSignal.values|, |gSignal.values|)
         == Indices(ConvolutionSignal(DiscreteSignal(fSignal.values, 0), DiscreteSignal(gSignal.values, 0)).value)
  {
  }

  // ---------------------------------------------------------------------------
  // discreteConvolutionAutoRange and discreteConvolutionWithCustomRange
  // ---------------------------------------------------------------------------

  /** `{ result, indices }`. */
  datatype RangedResult = RangedResult(result: DiscreteSignal, indices: seq<int>)

  /** convolution.ts discreteConvolutionAutoRange: the convolution trimmed to its
      relevant samples with 3 samples of padding, and their global indices. */
  method DiscreteConvolutionAutoRange(fSignal: DiscreteSignal, gSignal: DiscreteSignal) returns (r: Result<RangedResult>)
    ensures r.Err? <==> |fSignal.values| + |gSignal.values| == 0
    ensures r.Ok? ==> r.value.result == Trimmed(ConvolutionSignal(fSignal, gSignal).value, 3)
                      && r.value.indices == Indices(r.value.result)
  {
    var convolutionResult := DiscreteConvolutionWithIndices(fSignal, gSignal);
    if convolutionResult.Err? {
      return Err(convolutionResult.error);
    }
    var trimmedResult := TrimSignalToRelevantRange(convolutionResult.value, 3);
    var indices := seq(|trimmedResult.values|, i => trimmedResult.startIndex + i);
    return Ok(RangedResult(trimmedResult, indices));
  }

  /** The range [start, end] and the support [lo, lo + len) share no index. */
  predicate Misses(range: IndexRange, lo: int, len: int) {
    Max(range.start, lo) > Min(range.end, lo + len - 1)
  }

  /** convolution.ts discreteConvolutionWithCustomRange: the samples of the
      convolution whose global index lies in outputRange, zero where the range
      leaves the support; a single 0 at outputRange.start when the range and the
      support share no index (which includes start > end). */
  method DiscreteConvolutionWithCustomRange(fSignal: DiscreteSignal, gSignal: DiscreteSignal, outputRange: IndexRange)
    returns (r: Result<RangedResult>)
    ensures r.Err? <==> |fSignal.values| + |gSignal.values| == 0
    ensures r.Ok? ==>
      var conv := ConvolutionSignal(fSignal, gSignal).value;
      var res := r.value.result;
      r.value.indices == Indices(res)
      && |res.values| >= 1
      && res.startIndex == outputRange.start
      && (Misses(outputRange, conv.startIndex, |conv.values|) ==> res.values == [0.0])
      && (!Misses(outputRange, conv.startIndex, |conv.values|) ==>
            |res.values| == outputRange.end - outputRange.start + 1
            && forall j :: 0 <= j < |res.values| ==> res.values[j] == SampleAt(conv, outputRange.start + j))
  {
    var convolutionResult := DiscreteConvolutionWithIndices(fSignal, gSignal);
    if convolutionResult.Err? {
      return Err(convolutionResult.error);
    }
    var conv := convolutionResult.value;
    var startOffset := outputRange.start - conv.startIndex;
    var endOffset := outputRange.end - conv.startIndex;
    var clampedStart := Max(0, startOffset);
    var clampedEnd := Min(|conv.values| - 1, endOffset);
    if clampedStart > clampedEnd {
      return Ok(RangedResult(DiscreteSignal([0.0], outputRange.start), [outputRange.start]));
    }
    var rangeLength := outputRange.end - outputRange.start + 1;
    var rangeValues := new real[rangeLength](_ => 0.0);
    for i := clampedStart to clampedEnd + 1
      invariant forall j :: 0 <= j < rangeLength ==>
        rangeValues[j] == if clampedStart <= j + startOffset < i then conv.values[j + startOffset] else 0.0
    {
      var outputIndex := i - startOffset;
      assert 0 <= outputIndex < rangeLength;   // the guard of the copy loop always holds
      if outputIndex >= 0 && outputIndex < rangeLength {
        rangeValues[outputIndex] := conv.values[i];
      }
    }
    var result := DiscreteSignal(rangeValues[..], outputRange.start);
    var indices := seq(|result.values|, i => result.startIndex + i);
    return Ok(RangedResult(result, indices));
  }

  /** Where the range meets the support, the custom-range result is the
      convolution itself sampled over the range: inside the support the value is
      y[n], and outside it both are 0. */
  lemma CustomRangeIsConvolution(fSignal: DiscreteSignal, gSignal: DiscreteSignal, outputRange: IndexRange, res: DiscreteSignal)
    requires |fSignal.values| + |gSignal.values| >= 1
    requires var conv := ConvolutionSignal(fSignal, gSignal).value;
             res.startIndex == outputRange.start
             && |res.values| == outputRange.end - outputRange.start + 1
             && forall j :: 0 <= j < |res.values| ==> res.values[j] == SampleAt(conv, outputRange.start + j)
    ensures forall j :: 0 <= j < |res.values| ==>
      res.values[j] == ConvAt(fSignal.values, gSignal.values,
                              outputRange.start + j - fSignal.startIndex - gSignal.startIndex)
  {
    forall j | 0 <= j < |res.values|
      ensures res.values[j] == ConvAt(fSignal.values, gSignal.values,
                                      outputRange.start + j - fSignal.startIndex - gSignal.startIndex)
    {
      ConvolutionSignalAt(fSignal, gSignal, outputRange.start + j);
    }
  }
}
