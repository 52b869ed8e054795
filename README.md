# Discrete signals, convolution and the radix-2 FFT, in Dafny

This is a model of the computational core of the FFT-and-IFFT web site. It covers
three areas.

- **The signal editor** (`src/utils/Convolucion/signalFunctions.ts`). A discrete
  signal is a run of samples anchored at an integer start index. The user writes a
  signal in one of two ways:
  - a comma-separated list of numbers such as `1, 2, -0.5`, whose samples start at
    index 0;
  - a sum of terms such as `-2*δ[n-3] + u[n+1] + delta[n]`, sampled over an index
    range. The range is either supplied or determined from the text.

  The model covers the impulse and unit-step generators, the summing of signals
  over the union of their ranges, and the trimming of a signal to its relevant
  samples. It also covers the two term splitters, the term reader (sign, `k*`
  factor, the `δ`/`delta`/`u` patterns and the `[n±k]` shift), the automatic range,
  and the sample indices.
- **Convolution** (`src/utils/Convolucion/convolution.ts`). The model covers the
  convolution sum on plain arrays and on indexed signals, the index helpers, and
  the automatically trimmed and custom-range variants.
- **The FFT/IFFT** (`src/utils/FFT-IFFT/fft.ts`). The model covers the index
  machinery of the iterative Cooley-Tukey transform:
  - zero padding to a power of two;
  - the `n & (n - 1)` power-of-two test, modelled on JavaScript's 32-bit view;
  - bit reversal;
  - the in-place butterfly stages;
  - the final 1/N scaling of the inverse.

  Complex arithmetic is a parameter (`Fft.Arith`). What is proved is where every
  element goes and which operations combine which elements.

Modules and files:

| file | module | models |
|---|---|---|
| `bits.dfy` | `Bits` | powers of two, the JavaScript `&` test, bit reversal, ceil(log2) |
| `fft.dfy` | `Fft` | `padToPowerOfTwo`, `computeFFT`, `computeIFFT` |
| `text.dfy` | `Text` | the string built-ins the editor uses: `\s`, `trim`, `split(',')`, `parseFloat`, `parseInt` over `\d+` |
| `signals.dfy` | `Signals` | `generateImpulse`, `generateUnitStep`, `combineSignals`, `trimSignalToRelevantRange`, `getSignalIndices` |
| `expressions.dfy` | `Expressions` | `splitExpression`, the splitter of `determineExpressionRange`, `parseTerm`, `determineExpressionRange`, `parseSignalExpression` |
| `convolution.dfy` | `Convolution` | every function of `convolution.ts` |

Imperative code stays imperative. The loops of the source are methods with loop
invariants:
- the array-filling loops of the generators;
- `combineSignals`' accumulation into an array;
- the trimming scan;
- the two splitters;
- the double loop of the convolution sum;
- the bit-reversal copy;
- the butterfly stages, which work in place on an `array`.

Each method is proved equal to a specification function. The properties the
source relies on are then proved about those functions.

Two parts of the code are shaped by JavaScript semantics, and the model follows
the code.

- `new Array(n)` with a negative `n` throws a `RangeError`. The model returns
  `Err(InvalidArrayLength)` in these cases:
  - a range with `end < start - 1`;
  - a convolution of two empty signals;
  - a list of signals none of which has a sample (`Math.min()` is `Infinity`).
- `determineExpressionRange` splits before every sign once it has seen a non-sign
  character, including signs inside brackets. Its terms therefore never carry a
  `[n±k]` shift that its patterns could read. The automatic range of every sum of
  terms is `[-2, 12]`, whatever shifts the terms carry. `DetermineExpressionRange`
  proves exactly this.

## Model

| member | source | states |
|---|---|---|
| `Bits.BitTestIsPowerOfTwo` | src/utils/FFT-IFFT/fft.ts:10-12 | for m >= 1, `m & (m - 1)` is 0 if and only if m is a power of two |
| `Bits.IsPowerOfTwoMeaning` | src/utils/FFT-IFFT/fft.ts:10-12 | below 2^32, `isPowerOfTwo` accepts exactly 0 and the powers of two (both directions) |
| `Bits.Pow2WrapsToZero` | src/utils/FFT-IFFT/fft.ts:11 | 2^k for k >= 32 is 0 in the 32-bit view that `&` takes of its operands |
| `Bits.PowerOfTwoPassesTest` | src/utils/FFT-IFFT/fft.ts:10-12 | every power of two passes `isPowerOfTwo`, including those the 32-bit view wraps to 0 |
| `Bits.ReverseBits` | src/utils/FFT-IFFT/fft.ts:14-21 | reversing `bits` bits yields an index below 2^bits |
| `Bits.ReverseBitsBit` | src/utils/FFT-IFFT/fft.ts:14-21 | bit b of the reversed index is bit bits-1-b of the input |
| `Bits.BitsDetermine` | src/utils/FFT-IFFT/fft.ts:14-21 | two indices below 2^k with the same k low bits are equal |
| `Bits.ReverseBitsInvolution` | src/utils/FFT-IFFT/fft.ts:14-21 | reversing twice gives every index below 2^bits back |
| `Bits.ReverseBitsInjective` | src/utils/FFT-IFFT/fft.ts:45-47 | distinct indices below 2^bits are sent to distinct slots |
| `Bits.BitReverse` | src/utils/FFT-IFFT/fft.ts:14-21 | the shift-and-or loop computes the reversal of the low `bits` bits |
| `Bits.CeilLog2Covers` | src/utils/FFT-IFFT/fft.ts:24 | n <= 2^ceil(log2 n) |
| `Bits.CeilLog2Least` | src/utils/FFT-IFFT/fft.ts:24 | ceil(log2 n) is the least exponent whose power covers n |
| `Bits.CeilLog2OfPow2` | src/utils/FFT-IFFT/fft.ts:41 | log2 of a power of two 2^k is exactly k, the `bits` of the transforms |
| `Bits.NextPowerOfTwo` | src/utils/FFT-IFFT/fft.ts:24 | the padded length is at least n and, for n >= 1, is 2^ceil(log2 n) |
| `Bits.NextPowerOfTwoIsLeast` | src/utils/FFT-IFFT/fft.ts:24 | the padded length is a power of two, no power of two covering n is smaller, and it is n itself when n is already a power of two |
| `Fft.PadToPowerOfTwo` | src/utils/FFT-IFFT/fft.ts:23-30 | the push loop returns the signal followed by zeros up to the padded length |
| `Fft.PaddedShape` | src/utils/FFT-IFFT/fft.ts:23-30 | the padded signal has the next power-of-two length, starts with the signal and holds only zeros after it; a signal of power-of-two length is unchanged |
| `Fft.PaddedLengthPassesTest` | src/utils/FFT-IFFT/fft.ts:34-39 | the padded length always passes `isPowerOfTwo`, so the "must be a power of 2" error never occurs |
| `Fft.BlockOffset` | src/utils/FFT-IFFT/fft.ts:54 | an index's position within its block of `size` is below the size |
| `Fft.StageSizeDividesLength` | src/utils/FFT-IFFT/fft.ts:50-54 | every stage size 2, 4, ..., N divides N, so the blocks `i += size` tile the array |
| `Fft.ButterflyIndices` | src/utils/FFT-IFFT/fft.ts:54-66 | in one stage both slots of each butterfly are in bounds and no slot is written by two butterflies |
| `Fft.StagesUpTo` | src/utils/FFT-IFFT/fft.ts:50-69 | the stages keep the array's length |
| `Fft.Transformed` | src/utils/FFT-IFFT/fft.ts:41-69 | the bit-reversal copy and the stages keep the padded length |
| `Fft.PaddedIsFixed` | src/utils/FFT-IFFT/fft.ts:23-30 | padding an already padded signal adds nothing |
| `Fft.TransformLengths` | src/utils/FFT-IFFT/fft.ts:33-135 | both transforms return exactly NextPowerOfTwo(\|signal\|) elements |
| `Fft.BitReversedIsPermutation` | src/utils/FFT-IFFT/fft.ts:45-47 | the bit-reversal copy is a permutation: slot ReverseBits(k) receives element k, and no two elements share a slot |
| `Fft.CopyBitReversed` | src/utils/FFT-IFFT/fft.ts:42-47 | the copy loop produces a fresh array holding the bit-reversed arrangement |
| `Fft.Partial` | src/utils/FFT-IFFT/fft.ts:54-67 | a stage's intermediate state has the array's length |
| `Fft.Mix` | src/utils/FFT-IFFT/fft.ts:54-67 | the mix of old and new values has the array's length |
| `Fft.MixAdvance` | src/utils/FFT-IFFT/fft.ts:65-66 | writing one more pair of new values advances the mix by one butterfly |
| `Fft.ButterflyPair` | src/utils/FFT-IFFT/fft.ts:56-66 | the sum and difference a butterfly writes are the values the stage assigns to slots i+j and i+j+size/2 |
| `Fft.StageAt` | src/utils/FFT-IFFT/fft.ts:54-67 | element k after a stage is the butterfly output for k |
| `Fft.PartialUntouched` | src/utils/FFT-IFFT/fft.ts:54-67 | slots no butterfly has reached yet still hold the previous stage's values |
| `Fft.ButterflyStep` | src/utils/FFT-IFFT/fft.ts:55-66 | one butterfly, reading slots no earlier butterfly wrote, takes the state after j butterflies of a block to the state after j+1 |
| `Fft.BlockDone` | src/utils/FFT-IFFT/fft.ts:54-55 | a finished block is the state before the next block |
| `Fft.StageDone` | src/utils/FFT-IFFT/fft.ts:54 | once the block start passes N the array holds the whole stage |
| `Fft.StageStart` | src/utils/FFT-IFFT/fft.ts:54 | before the first butterfly the array holds the previous stage |
| `Fft.ButterflyStage` | src/utils/FFT-IFFT/fft.ts:54-68 | the in-place double loop turns the array into the next stage of the butterfly network |
| `Fft.StagesStep` | src/utils/FFT-IFFT/fft.ts:50-51 | the stage of size 2^s follows the stages up to 2^(s-1), and 2^s is even and divides N |
| `Fft.StageLoopBound` | src/utils/FFT-IFFT/fft.ts:50 | `size <= N` holds for size = 2^s exactly when s <= log2 N, so the loop runs log2 N stages |
| `Fft.AllStages` | src/utils/FFT-IFFT/fft.ts:50-69 | the `size *= 2` loop applies the stages 2, 4, ..., N in turn |
| `Fft.Butterflies` | src/utils/FFT-IFFT/fft.ts:41-69 | bit-reversal copy then all stages, for the forward or the inverse twiddles |
| `Fft.ComputeFFT` | src/utils/FFT-IFFT/fft.ts:33-72 | `computeFFT` returns the forward butterfly network applied to the bit-reversed padded signal, NextPowerOfTwo(\|signal\|) elements |
| `Fft.ComputeIFFT` | src/utils/FFT-IFFT/fft.ts:76-135 | `computeIFFT` returns the inverse butterfly network of the padded signal, each element scaled by 1/N and then rounded |
| `Text.StripWhitespace` | src/utils/Convolucion/signalFunctions.ts:77 | `replace(/\s+/g, '')` leaves no whitespace, never lengthens, leaves whitespace-free text unchanged, and on one character drops it exactly when it is whitespace |
| `Text.StripWhitespaceAppend` | src/utils/Convolucion/signalFunctions.ts:77 | the replace works character by character: on a concatenation it is the concatenation of the two results, so with the one-character case it keeps every non-whitespace character in order and drops the rest |
| `Text.StripWhitespaceOnly` | src/utils/Convolucion/signalFunctions.ts:77 | text made only of whitespace is replaced by the empty string |
| `Text.Trim` | src/utils/Convolucion/signalFunctions.ts:77 | `trim` never lengthens, leaves whitespace-free text unchanged, and neither starts nor ends its result with whitespace |
| `Text.TrimStart` | src/utils/Convolucion/signalFunctions.ts:160 | removing leading whitespace keeps a suffix that does not start with whitespace |
| `Text.TrimStartCut` | src/utils/Convolucion/signalFunctions.ts:160 | everything the leading trim cuts away is whitespace |
| `Text.TrimEnd` | src/utils/Convolucion/signalFunctions.ts:160 | removing trailing whitespace keeps a prefix that does not end with whitespace |
| `Text.TrimEndCut` | src/utils/Convolucion/signalFunctions.ts:160 | everything the trailing trim cuts away is whitespace |
| `Text.TrimStartKeepsContent` | src/utils/Convolucion/signalFunctions.ts:160 | the leading trim loses no non-whitespace character: after the replace the text is the same |
| `Text.TrimEndKeepsContent` | src/utils/Convolucion/signalFunctions.ts:160 | the trailing trim loses no non-whitespace character: after the replace the text is the same |
| `Text.TrimKeepsContent` | src/utils/Convolucion/signalFunctions.ts:77 | `trim` loses no non-whitespace character: after the replace, trimmed and untrimmed text agree |
| `Text.DigitRun` | src/utils/Convolucion/signalFunctions.ts:187 | `\d+` at a position matches the maximal run of digits there |
| `Text.DigitRunOfDigits` | src/utils/Convolucion/signalFunctions.ts:187 | a digit string followed by a non-digit is exactly the run `\d+` matches |
| `Text.ParseFloat` | src/utils/Convolucion/signalFunctions.ts:81 | `parseFloat` of "" or "." is NaN, and a leading '-' never gives a positive number |
| `Text.ParseUnsigned` | src/utils/Convolucion/signalFunctions.ts:81 | the digits-point-digits part is never negative, and is NaN exactly when it holds no digit on either side of the point |
| `Text.DecimalTextChars` | src/utils/Convolucion/signalFunctions.ts:81 | a written decimal is non-empty and holds only digits and the point |
| `Text.ParseFloatOfDecimal` | src/utils/Convolucion/signalFunctions.ts:81 | `parseFloat` of any decimal such as `2.5`, `-0.5`, `3.` or `.25`, with or without a sign, is its signed value |
| `Text.ParseFloatOfWhole` | src/utils/Convolucion/signalFunctions.ts:81 | a signed digit string reads as its value, negated after '-' |
| `Text.ParseFloatOfPoint` | src/utils/Convolucion/signalFunctions.ts:81 | signed digits, a point and digits read as the integer part plus the fraction over a power of ten, negated after '-' |
| `Text.ParseUnsignedOfWhole` | src/utils/Convolucion/signalFunctions.ts:81 | digits running to the end of the text read as their value |
| `Text.ParseUnsignedOfPoint` | src/utils/Convolucion/signalFunctions.ts:81 | the digit runs around a point read as the integer part plus the fraction digits over 10 to their count, and the runs hold only digits |
| `Text.SignBefore` | src/utils/Convolucion/signalFunctions.ts:81 | before a digit or a point, an optional '+' or '-' is exactly the sign `parseFloat` reads, and it is '-' exactly when the text starts with '-' |
| `Text.IndexOf` | src/utils/Convolucion/signalFunctions.ts:81 | the first occurrence of a character, or none at all |
| `Text.SplitOn` | src/utils/Convolucion/signalFunctions.ts:81 | `split(',')` yields at least one piece, no piece contains the separator, and the pieces joined by it give the text back |
| `Text.SplitOnJoin` | src/utils/Convolucion/signalFunctions.ts:81 | splitting a join of separator-free pieces gives the pieces back |
| `Signals.GenerateImpulse` | src/utils/Convolucion/signalFunctions.ts:9-24 | the samples of amplitude*δ[n-delay] over the range, starting at range.start; a RangeError exactly when end < start - 1 |
| `Signals.GenerateUnitStep` | src/utils/Convolucion/signalFunctions.ts:27-43 | the samples of amplitude*u[n-delay] over the range, starting at range.start; a RangeError exactly when end < start - 1 |
| `Signals.ImpulseIsStepDifference` | src/utils/Convolucion/signalFunctions.ts:9-43 | over the same range, A*δ[n-d] = A*u[n-d] - A*u[n-d-1] sample by sample |
| `Signals.ImpulseOutsideRange` | src/utils/Convolucion/signalFunctions.ts:14-18 | an impulse whose delay falls outside the range is all zeros |
| `Signals.MinStart` | src/utils/Convolucion/signalFunctions.ts:52-55 | `Math.min` over all sample indices is the least start of a signal that has samples |
| `Signals.MaxEnd` | src/utils/Convolucion/signalFunctions.ts:52-56 | `Math.max` over all sample indices is the greatest last index of a signal that has samples |
| `Signals.SumAtSnoc` | src/utils/Convolucion/signalFunctions.ts:62-67 | adding one more signal adds its sample to each sum |
| `Signals.WithinCombinedRange` | src/utils/Convolucion/signalFunctions.ts:52-59 | every signal with samples lies inside [minIndex, maxIndex] |
| `Signals.MinStartBelowMaxEnd` | src/utils/Convolucion/signalFunctions.ts:58 | the combined length is positive |
| `Signals.AddSignal` | src/utils/Convolucion/signalFunctions.ts:63-66 | the inner forEach adds each sample of one signal at its global offset, leaving the rest of the array unchanged |
| `Signals.SumsStep` | src/utils/Convolucion/signalFunctions.ts:62-67 | after the k-th signal is added, each slot holds the sum over the first k+1 signals |
| `Signals.AddAllSignals` | src/utils/Convolucion/signalFunctions.ts:62-67 | after the outer forEach each slot holds the sum of all signals at its index |
| `Signals.CombinedOfSums` | src/utils/Convolucion/signalFunctions.ts:58-72 | the array of sums, anchored at minIndex, is the combined signal |
| `Signals.CombineSignals` | src/utils/Convolucion/signalFunctions.ts:46-73 | `combineSignals` returns the sample-wise sum over the union of the ranges, the empty signal for no input, and a RangeError when no input has a sample |
| `Signals.CombinedCovers` | src/utils/Convolucion/signalFunctions.ts:46-73 | every sample index of every input lies in the combined signal |
| `Signals.CombinedOnCommonRange` | src/utils/Convolucion/signalFunctions.ts:46-73 | signals that share one non-empty range combine into a signal over exactly that range |
| `Signals.CombineSingle` | src/utils/Convolucion/signalFunctions.ts:46-73 | combining a single non-empty signal gives it back |
| `Signals.FirstRelevantBefore` | src/utils/Convolucion/signalFunctions.ts:279-284 | the first position with \|x\| > 1e-10, or -1, and that sample is relevant |
| `Signals.LastRelevantBefore` | src/utils/Convolucion/signalFunctions.ts:279-284 | the last position with \|x\| > 1e-10, or -1, and that sample is relevant |
| `Signals.NoRelevantBeforeFirst` | src/utils/Convolucion/signalFunctions.ts:279-284 | no sample before firstNonZero is relevant, and none at all when it is -1 |
| `Signals.NoRelevantAfterLast` | src/utils/Convolucion/signalFunctions.ts:279-284 | no sample after lastNonZero is relevant |
| `Signals.FirstBeforeLast` | src/utils/Convolucion/signalFunctions.ts:279-293 | when some sample is relevant, 0 <= firstNonZero <= lastNonZero |
| `Signals.FindRelevant` | src/utils/Convolucion/signalFunctions.ts:276-284 | the scan finds the first and the last relevant positions |
| `Signals.TrimSignalToRelevantRange` | src/utils/Convolucion/signalFunctions.ts:271-302 | `trimSignalToRelevantRange` returns the trimmed window of the signal |
| `Signals.TrimmedIsRelevantWindow` | src/utils/Convolucion/signalFunctions.ts:271-302 | the result is never empty; with no relevant sample it is the single 0 at index 0; otherwise every sample keeps its global index and every relevant sample is kept |
| `Signals.TrimmedWindow` | src/utils/Convolucion/signalFunctions.ts:292-300 | the window runs from `padding` before the first relevant sample to `padding` after the last, clipped to the signal |
| `Signals.WindowSamples` | src/utils/Convolucion/signalFunctions.ts:292-300 | a padded window starts at max(0, first - padding), ends at min(len - 1, last + padding), and keeps global indices |
| `Signals.SliceSamples` | src/utils/Convolucion/signalFunctions.ts:295-296 | `slice` keeps every sample at its global index once the start moves by the slice offset |
| `Signals.TrimmedCovers` | src/utils/Convolucion/signalFunctions.ts:271-302 | every relevant sample survives trimming at its index and with its value |
| `Signals.WindowCovers` | src/utils/Convolucion/signalFunctions.ts:292-300 | every sample between first and last survives in the window |
| `Signals.Indices` | src/utils/Convolucion/signalFunctions.ts:310-312 | one global index per sample: the i-th is startIndex + i |
| `Convolution.Convolve` | src/utils/Convolucion/convolution.ts:4-22 | the convolution of N and M samples has N + M - 1 samples |
| `Convolution.PartialSumFront` | src/utils/Convolucion/convolution.ts:13-18 | the partial convolution sum peels off its first term |
| `Convolution.PartialSumExtend` | src/utils/Convolucion/convolution.ts:13-18 | terms that vanish do not change the partial sum |
| `Convolution.PartialSumSwap` | src/utils/Convolucion/convolution.ts:13-18 | substituting k := n - k turns the sum over f[k]g[n-k] into the sum over g[k]f[n-k] |
| `Convolution.ConvAtUpToN` | src/utils/Convolucion/convolution.ts:13-18 | y[n] needs only k = 0..n, since g has no sample at a negative index |
| `Convolution.ConvAtCommutes` | src/utils/Convolucion/convolution.ts:11-18 | (f * g)[n] = (g * f)[n] for every n |
| `Convolution.ConvolveCommutes` | src/utils/Convolucion/convolution.ts:4-22 | `discreteConvolution(f, g)` and `discreteConvolution(g, f)` agree |
| `Convolution.ConvAtOutsideSupport` | src/utils/Convolucion/convolution.ts:7-18 | the convolution sum is 0 outside [0, N + M - 2], so the result array loses nothing |
| `Convolution.DiscreteConvolution` | src/utils/Convolucion/convolution.ts:4-22 | the double loop computes y[n] = sum over k of f[k]g[n-k]; a RangeError exactly when both inputs are empty |
| `Convolution.DiscreteConvolutionWithIndices` | src/utils/Convolucion/convolution.ts:25-53 | the same sum on the values, N + M - 1 samples, starting at fStart + gStart |
| `Convolution.ConvolutionSignalAt` | src/utils/Convolucion/convolution.ts:25-53 | the sample at global index n is the convolution sum at n - fStart - gStart, everywhere |
| `Convolution.GenerateConvolutionIndices` | src/utils/Convolucion/convolution.ts:56-59 | the indices 0 .. N + M - 2 |
| `Convolution.GenerateConvolutionIndicesWithStart` | src/utils/Convolucion/convolution.ts:62-66 | the indices fStart + gStart onward, one per output sample |
| `Convolution.IndicesMatchConvolution` | src/utils/Convolucion/convolution.ts:56-66 | both index helpers list exactly the global indices of the indexed convolution's samples (from 0 for the simple one) |
| `Convolution.DiscreteConvolutionAutoRange` | src/utils/Convolucion/convolution.ts:69-83 | the convolution trimmed with padding 3, and its global indices |
| `Convolution.DiscreteConvolutionWithCustomRange` | src/utils/Convolucion/convolution.ts:86-133 | the result starts at outputRange.start, holds the convolution's samples over the range (zeros beyond its support), is [0] when range and support do not meet, and comes with its indices |
| `Convolution.CustomRangeIsConvolution` | src/utils/Convolucion/convolution.ts:86-133 | each sample of the custom-range result is the convolution sum at its index |
| `Expressions.Clean` | src/utils/Convolucion/signalFunctions.ts:77 | the cleaned expression holds no whitespace |
| `Expressions.CleanIsStripWhitespace` | src/utils/Convolucion/signalFunctions.ts:77 | `trim()` followed by `replace(/\s+/g, '')` is the expression with exactly its whitespace characters removed |
| `Expressions.SplitBy` | src/utils/Convolucion/signalFunctions.ts:210-237 | the splitters give no terms exactly for the empty text |
| `Expressions.SplitByIsSplit` | src/utils/Convolucion/signalFunctions.ts:88-111 | the terms concatenate to the text, and cuts happen exactly before the signs the splitter cuts at |
| `Expressions.SplitTermsStartWithSign` | src/utils/Convolucion/signalFunctions.ts:224-226 | every term after the first starts with a sign; for splitExpression that sign is outside brackets |
| `Expressions.SplitExpression` | src/utils/Convolucion/signalFunctions.ts:210-237 | `splitExpression` cuts before each sign outside brackets that follows a non-empty term |
| `Expressions.SplitAtSigns` | src/utils/Convolucion/signalFunctions.ts:88-111 | the splitter of `determineExpressionRange` cuts before every sign once a non-sign character was seen |
| `Expressions.SignsOnlyTerms` | src/utils/Convolucion/signalFunctions.ts:94-105 | every term of that splitter has its signs only at its front |
| `Expressions.TrimSignsFirst` | src/utils/Convolucion/signalFunctions.ts:114 | trimming keeps signs at the front only |
| `Expressions.ParseNumbers` | src/utils/Convolucion/signalFunctions.ts:81 | `map(parseFloat).filter(!isNaN)` yields at most one number per piece |
| `Expressions.ParseNumberText` | src/utils/Convolucion/signalFunctions.ts:81 | a number such as `-0.5` or `2.5`, trimmed and read by `parseFloat`, gives back its signed value |
| `Expressions.NumberTextTrimmed` | src/utils/Convolucion/signalFunctions.ts:81 | a written number has no surrounding whitespace for `trim` to remove |
| `Expressions.NumberChars` | src/utils/Convolucion/signalFunctions.ts:247 | a written number holds only digits, '-' and '.' |
| `Expressions.ParseNumeralsBack` | src/utils/Convolucion/signalFunctions.ts:248 | a list of written numbers parses back to their values, none dropped |
| `Expressions.ListTextSamples` | src/utils/Convolucion/signalFunctions.ts:247-248 | a comma-joined list of numbers gives their values as samples |
| `Expressions.ListTextIsNumeric` | src/utils/Convolucion/signalFunctions.ts:247 | a list of numbers is read in the numeric format |
| `Expressions.NumericListRoundTrip` | src/utils/Convolucion/signalFunctions.ts:240-253 | writing decimal numbers as `1,2,-0.5` and parsing gives their values as samples from index 0, whatever range was supplied |
| `Expressions.BracketDelay` | src/utils/Convolucion/signalFunctions.ts:181-189 | `\[n([+-]\d+)?\]` matches `[n]` or `[n`, a sign, digits and `]` |
| `Expressions.FindFrom` | src/utils/Convolucion/signalFunctions.ts:181 | `match` finds the leftmost match, and none means there is none anywhere |
| `Expressions.FindUnshifted` | src/utils/Convolucion/signalFunctions.ts:121-143 | in a term with its signs only in front, every match has delay 0 |
| `Expressions.FactorRun` | src/utils/Convolucion/signalFunctions.ts:174 | the maximal run of digits and points |
| `Expressions.FactorPrefix` | src/utils/Convolucion/signalFunctions.ts:174 | `^(\d*\.?\d*)\*` matches only a run of digits with at most one point, followed by '*' |
| `Expressions.FactorPrefixComplete` | src/utils/Convolucion/signalFunctions.ts:174 | every such factor is found |
| `Expressions.ParseTerm` | src/utils/Convolucion/signalFunctions.ts:159-207 | `parseTerm` returns the term's impulse or step over the range, null for an unrecognised term, and a RangeError only for a recognised term over a range of negative length |
| `Expressions.BracketDelayOf` | src/utils/Convolucion/signalFunctions.ts:184-189 | `[n]` reads as delay 0, `[n-k]` as k and `[n+k]` as -k |
| `Expressions.BracketDelaySigned` | src/utils/Convolucion/signalFunctions.ts:184-189 | a shift `[n-k]` gives k and `[n+k]` gives -k |
| `Expressions.BracketLayout` | src/utils/Convolucion/signalFunctions.ts:181 | where the pieces of a written shift sit in the text |
| `Expressions.BracketDelayOfDigits` | src/utils/Convolucion/signalFunctions.ts:184-189 | a bracket with a sign and digits gives the digits' signed value |
| `Expressions.BracketDelayShifted` | src/utils/Convolucion/signalFunctions.ts:184-189 | `[n`, a sign, the maximal run of digits and `]` read as the digits' value, negated after '+' |
| `Expressions.TokenOfRendered` | src/utils/Convolucion/signalFunctions.ts:181-204 | a written impulse or step is read as that primitive with its delay |
| `Expressions.BracketChars` | src/utils/Convolucion/signalFunctions.ts:181 | a written shift uses only brackets, `n`, signs and digits |
| `Expressions.NoImpulseInStepBody` | src/utils/Convolucion/signalFunctions.ts:181-194 | a written step never matches the impulse pattern |
| `Expressions.NoImpulseWithout` | src/utils/Convolucion/signalFunctions.ts:181 | without `δ` or `d` there is no impulse match |
| `Expressions.ReadTermOfRendered` | src/utils/Convolucion/signalFunctions.ts:159-207 | every well-written term (sign, decimal factor such as `2.5`, `δ`/`delta`/`u`, shift) reads back to the signed, scaled, shifted primitive it denotes |
| `Expressions.RestShape` | src/utils/Convolucion/signalFunctions.ts:160-171 | a written term without its sign is non-empty, starts with neither sign nor space and ends in ']' |
| `Expressions.ReadTermSigned` | src/utils/Convolucion/signalFunctions.ts:160-171 | a leading '-' negates the amplitude and a leading '+' or no sign leaves it |
| `Expressions.ReadAfterSignRendered` | src/utils/Convolucion/signalFunctions.ts:173-204 | after the sign, a written term reads as its amplitude and primitive |
| `Expressions.AmplitudeOfRendered` | src/utils/Convolucion/signalFunctions.ts:173-178 | a written factor multiplies the signed amplitude and is consumed with its '*' |
| `Expressions.ReadUnfactored` | src/utils/Convolucion/signalFunctions.ts:173-178 | without a factor the amplitude is 1 or -1 and nothing is consumed |
| `Expressions.FactorPrefixOfDecimal` | src/utils/Convolucion/signalFunctions.ts:174 | a decimal before '*' is exactly the matched factor |
| `Expressions.ReadFactored` | src/utils/Convolucion/signalFunctions.ts:174-178 | a decimal factor scales the signed amplitude by its value and is consumed with its '*' |
| `Expressions.DotCountOfDecimal` | src/utils/Convolucion/signalFunctions.ts:174 | a decimal holds at most one point, as the factor pattern demands |
| `Expressions.DotCountConcat` | src/utils/Convolucion/signalFunctions.ts:174 | the points of a concatenation are those of its parts |
| `Expressions.DotCountOfDigits` | src/utils/Convolucion/signalFunctions.ts:174 | a digit string holds no point |
| `Expressions.StripSignAndFactor` | src/utils/Convolucion/signalFunctions.ts:118 | the clean-up keeps a suffix of the term |
| `Expressions.RangeTermUnshifted` | src/utils/Convolucion/signalFunctions.ts:113-148 | every cleaned-up term of the range splitter matches only with delay 0 |
| `Expressions.DetermineExpressionRange` | src/utils/Convolucion/signalFunctions.ts:76-156 | `determineExpressionRange` is [0, count - 1] (at least [0, 0]) for a list of numbers and always [-2, 12] for a sum of terms |
| `Expressions.TermSignalsFail` | src/utils/Convolucion/signalFunctions.ts:260-265 | once a term fails, the whole expression fails |
| `Expressions.ParseTerms` | src/utils/Convolucion/signalFunctions.ts:260-265 | the term loop keeps the signals of the recognised terms in order, and fails as soon as a term fails |
| `Expressions.ParseSignalExpression` | src/utils/Convolucion/signalFunctions.ts:240-268 | `parseSignalExpression` returns the numbers at index 0 in numeric mode, otherwise the sum of the recognised terms over the supplied or automatic range |
| `Expressions.TermSignalShape` | src/utils/Convolucion/signalFunctions.ts:159-207 | over a non-empty range a term never fails; it yields a signal exactly when it is recognised, and that signal covers the range |
| `Expressions.TermSignalsShape` | src/utils/Convolucion/signalFunctions.ts:255-265 | over a non-empty range all term signals exist and cover the range |
| `Expressions.TermSignalsRecognised` | src/utils/Convolucion/signalFunctions.ts:260-265 | a recognised term contributes a signal |
| `Expressions.TermSumCoversRange` | src/utils/Convolucion/signalFunctions.ts:240-268 | a sum of terms with at least one recognised term, over a non-empty range, is a signal covering exactly that range |

## Left out

- Complex arithmetic (`src/utils/FFT-IFFT/complexMath.ts`) is not part of this model. Its operations are uninterpreted parameters of `Fft.Arith`. Floating-point values are not modelled either, so nothing is proved about what the transform computes numerically, such as that the IFFT inverts the FFT.
- Numbers are exact reals and integers, not IEEE doubles. Rounding in the convolution sums and in the combined sums is not modelled.
- `roundOutput` of `computeIFFT` is the uninterpreted `round` operation. Its `toFixed(6)` and its 1e-5 cut-off are not modelled.
- The `console.log` tracing in `computeIFFT` is left out because it has no effect on the result.
- `Math.log2` and `Math.pow` are taken as exact. For the empty signal they give 0, as JavaScript's `-Infinity` chain does.
- `Bits.BitReverse` works on unbounded integers. JavaScript's `<<` and `>>=` wrap at 32 bits, which could only matter for arrays of 2^31 elements or more.
- `Text.ParseFloat` reads decimal literals only: sign, digits, one point. It differs from JavaScript's `parseFloat` on exponents and on `Infinity`. In a number list (`signalFunctions.ts:79-81`, `:247`), the text `1,1e3` gives the samples [1, 1000] in the source but [1, 1] in the model. The text `Infinity,2` keeps `Infinity` as a sample in the source, while the model drops that piece as NaN. Leading whitespace is not modelled either; every piece is trimmed before `parseFloat` sees it.
- `Expressions.BracketDelay`: `parseInt` of the shift digits is the exact value of the digits, with no loss of precision for very long digit strings.
- `Expressions.ReadAmplitude`: a factor that `parseFloat` reads as NaN, such as `.*δ[n]`, drops the term. In the source it produces a signal of NaN samples.
- `Signals.MinStart` and `Signals.MaxEnd` take the minimum and maximum directly. The argument-count limit of `Math.min(...spread)` for huge signals is not modelled.
- `Signals.Trimmed` takes a natural-number padding. The only caller passes 3 (`convolution.ts:74`); the default of 2 (`signalFunctions.ts:271`) is covered because any natural padding is, but negative padding, where `slice` gets different arguments, is not modelled.
- `signalToArray` (`signalFunctions.ts:305-307`) returns the signal's `values` unchanged and is not modelled separately.
- The React components, the irrational-value selector and the complex-number input are not part of this model.
- Each method returns a fresh value instead of sharing arrays. Aliasing between the source's returned arrays (for example `values` shared with the input) is not modelled.
