/** The discrete-signal algebra of src/utils/Convolucion/signalFunctions.ts: a
    signal is a run of samples anchored at an integer start index. Samples are
    exact reals. */
module Signals {

  /** `{ values, startIndex }`: values[i] is the sample at index startIndex + i. */
  datatype DiscreteSignal = DiscreteSignal(values: seq<real>, startIndex: int)

  /** An inclusive index range `{ start, end }`. */
  datatype IndexRange = IndexRange(start: int, end: int)

  /** `new Array(length)` with a negative length throws a RangeError. */
  datatype Error = InvalidArrayLength

  datatype Result<T> = Ok(value: T) | Err(error: Error)

  /** The sample of s at global index n, 0 outside its samples. */
  function SampleAt(s: DiscreteSignal, n: int): real {
    if s.startIndex <= n < s.startIndex + |s.values| then s.values[n - s.startIndex] else 0.0
  }

  /** The number of samples of the inclusive range, negative when end < start - 1. */
  function RangeLength(range: IndexRange): int {
    range.end - range.start + 1
  }

  // ---------------------------------------------------------------------------
  // generateImpulse and generateUnitStep
  // ---------------------------------------------------------------------------

  /** amplitude * delta[n - delay] sampled over the range. */
  function ImpulseSignal(amplitude: real, delay: int, range: IndexRange): Result<DiscreteSignal> {
    if RangeLength(range) < 0 then Err(InvalidArrayLength)
    else Ok(DiscreteSignal(
      seq(RangeLength(range), i => if range.start + i == delay then amplitude else 0.0),
      range.start))
  }

  /** amplitude * u[n - delay] sampled over the range. */
  function StepSignal(amplitude: real, delay: int, range: IndexRange): Result<DiscreteSignal> {
    if RangeLength(range) < 0 then Err(InvalidArrayLength)
    else Ok(DiscreteSignal(
      seq(RangeLength(range), i => if range.start + i >= delay then amplitude else 0.0),
      range.start))
  }

  /** signalFunctions.ts generateImpulse: a zeroed array with the amplitude written
      at position delay - range.start when that lies inside it. */
  method GenerateImpulse(amplitude: real, delay: int, range: IndexRange) returns (r: Result<DiscreteSignal>)
    ensures r == ImpulseSignal(amplitude, delay, range)
    ensures r.Err? <==> range.end < range.start - 1
    ensures r.Ok? ==> |r.value.values| == range.end - range.start + 1 && r.value.startIndex == range.start
  {
    var length := range.end - range.start + 1;
    if length < 0 {
      return Err(InvalidArrayLength);
    }
    var values := new real[length](_ => 0.0);
    var impulsePosition := delay - range.start;
    if 0 <= impulsePosition < length {
      values[impulsePosition] := amplitude;
    }
    assert values[..] == seq(length, i => if range.start + i == delay then amplitude else 0.0);
    return Ok(DiscreteSignal(values[..], range.start));
  }

  /** signalFunctions.ts generateUnitStep: sample i is the amplitude when
      range.start + i >= delay. */
  method GenerateUnitStep(amplitude: real, delay: int, range: IndexRange) returns (r: Result<DiscreteSignal>)
    ensures r == StepSignal(amplitude, delay, range)
    ensures r.Err? <==> range.end < range.start - 1
    ensures r.Ok? ==> |r.value.values| == range.end - range.start + 1 && r.value.startIndex == range.start
  {
    var length := range.end - range.start + 1;
    if length < 0 {
      return Err(InvalidArrayLength);
    }
    var values := new real[length](_ => 0.0);
    for i := 0 to length
      invariant forall j :: 0 <= j < i ==> values[j] == if range.start + j >= delay then amplitude else 0.0
      invariant forall j :: i <= j < length ==> values[j] == 0.0
    {
      var currentIndex := range.start + i;
      if currentIndex >= delay {
        values[i] := amplitude;
      }
    }
    assert values[..] == seq(length, i => if range.start + i >= delay then amplitude else 0.0);
    return Ok(DiscreteSignal(values[..], range.start));
  }

  /** Sampled over the same range, delta[n - d] = u[n - d] - u[n - d - 1]: at
      every global index n the impulse is the amplitude exactly at n == delay and 0
      elsewhere, and both signals cover the range. */
  lemma ImpulseIsStepDifference(amplitude: real, delay: int, range: IndexRange)
    requires RangeLength(range) >= 0
    ensures var d := ImpulseSignal(amplitude, delay, range).value;
            var u := StepSignal(amplitude, delay, range).value;
            var u1 := StepSignal(amplitude, delay + 1, range).value;
            |d.values| == |u.values| == |u1.values| == RangeLength(range)
            && forall n :: range.start <= n <= range.end ==>
                 SampleAt(d, n) == SampleAt(u, n) - SampleAt(u1, n)
                 && SampleAt(d, n) == (if n == delay then amplitude else 0.0)
  {
  }

  /** An impulse whose delay lies outside the range is all zeros. */
  lemma ImpulseOutsideRange(amplitude: real, delay: int, range: IndexRange)
    requires RangeLength(range) >= 0 && (delay < range.start || delay > range.end)
    ensures forall n :: SampleAt(ImpulseSignal(amplitude, delay, range).value, n) == 0.0
  {
  }

  // ---------------------------------------------------------------------------
  // combineSignals
  // ---------------------------------------------------------------------------

  /** Some signal of the list has at least one sample, so the list of all indices is not empty. */
  predicate HasSamples(signals: seq<DiscreteSignal>) {
    exists k | 0 <= k < |signals| :: |signals[k].values| > 0
  }

  /** Math.min over the indices of all samples: the least start of a signal with samples. */
  function MinStart(signals: seq<DiscreteSignal>): (m: int)
    requires HasSamples(signals)
    ensures forall k :: 0 <= k < |signals| && |signals[k].values| > 0 ==> m <= signals[k].startIndex
    ensures exists k :: 0 <= k < |signals| && |signals[k].values| > 0 && m == signals[k].startIndex
  {
    var last := signals[|signals| - 1];
    var init := signals[..|signals| - 1];
    if !HasSamples(init) then
      assert |last.values| > 0;
      last.startIndex
    else if |last.values| == 0 then MinStart(init)
    else
      var m := MinStart(init);
      if last.startIndex < m then last.startIndex else m
  }

  /** Math.max over the indices of all samples: the greatest last index of a signal with samples. */
  function MaxEnd(signals: seq<DiscreteSignal>): (m: int)
    requires HasSamples(signals)
    ensures forall k :: 0 <= k < |signals| && |signals[k].values| > 0 ==>
      signals[k].startIndex + |signals[k].values| - 1 <= m
    ensures exists k :: (0 <= k < |signals| && |signals[k].values| > 0 &&
      m == signals[k].startIndex + |signals[k].values| - 1)
  {
    var last := signals[|signals| - 1];
    var init := signals[..|signals| - 1];
    if !HasSamples(init) then
      assert |last.values| > 0;
      last.startIndex + |last.values| - 1
    else if |last.values| == 0 then MaxEnd(init)
    else
      var m := MaxEnd(init);
      var e := last.startIndex + |last.values| - 1;
      if e > m then e else m
  }

  /** The sum, in list order, of the samples the signals have at global index n. */
  function SumAt(signals: seq<DiscreteSignal>, n: int): real {
    if signals == [] then 0.0
    else SumAt(signals[..|signals| - 1], n) + SampleAt(signals[|signals| - 1], n)
  }

  /** What combineSignals returns: the empty signal for no input; a RangeError when
      no input has a sample (Math.min() is Infinity); otherwise the sums over the
      union of the inputs' index ranges. */
  function Combined(signals: seq<DiscreteSignal>): Result<DiscreteSignal> {
    if signals == [] then Ok(DiscreteSignal([], 0))
    else if !HasSamples(signals) then Err(InvalidArrayLength)
    else
      var lo := MinStart(signals);
      var hi := MaxEnd(signals);
      Ok(DiscreteSignal(seq(hi - lo + 1, j => SumAt(signals, lo + j)), lo))
  }

  lemma SumAtSnoc(signals: seq<DiscreteSignal>, k: nat, n: int)
    requires k < |signals|
    ensures SumAt(signals[..k + 1], n) == SumAt(signals[..k], n) + SampleAt(signals[k], n)
  {
    assert signals[..k + 1][..k] == signals[..k];
  }

  lemma WithinCombinedRange(signals: seq<DiscreteSignal>, k: nat)
    requires k < |signals| && |signals[k].values| > 0
    ensures HasSamples(signals)
    ensures MinStart(signals) <= signals[k].startIndex
    ensures signals[k].startIndex + |signals[k].values| - 1 <= MaxEnd(signals)
  {
  }

  lemma MinStartBelowMaxEnd(signals: seq<DiscreteSignal>)
    requires HasSamples(signals)
    ensures MinStart(signals) <= MaxEnd(signals)
  {
    var k :| 0 <= k < |signals| && |signals[k].values| > 0 && MinStart(signals) == signals[k].startIndex;
  }

  /** The body of combineSignals' forEach for one signal: its samples are added
      at their global index minus `minIndex`. */
  method AddSignal(combinedValues: array<real>, signal: DiscreteSignal, minIndex: int)
    requires minIndex <= signal.startIndex
    requires signal.startIndex + |signal.values| - minIndex <= combinedValues.Length
    modifies combinedValues
    ensures forall j :: 0 <= j < combinedValues.Length ==>
      combinedValues[j] == old(combinedValues[j]) + SampleAt(signal, minIndex + j)
  {
    for i := 0 to |signal.values|
      invariant forall j :: 0 <= j < combinedValues.Length ==>
        combinedValues[j] == old(combinedValues[j])
          + (if signal.startIndex <= minIndex + j < signal.startIndex + i
             then signal.values[minIndex + j - signal.startIndex] else 0.0)
    {
      var globalIndex := signal.startIndex + i - minIndex;
      combinedValues[globalIndex] := combinedValues[globalIndex] + signal.values[i];
    }
  }

  lemma CombinedOfSums(signals: seq<DiscreteSignal>, sums: seq<real>)
    requires signals != [] && HasSamples(signals)
    requires |sums| == MaxEnd(signals) - MinStart(signals) + 1
    requires forall j :: 0 <= j < |sums| ==> sums[j] == SumAt(signals, MinStart(signals) + j)
    ensures Combined(signals) == Ok(DiscreteSignal(sums, MinStart(signals)))
  {
    var lo := MinStart(signals);
    var expected := seq(MaxEnd(signals) - lo + 1, j => SumAt(signals, lo + j));
    assert Combined(signals) == Ok(DiscreteSignal(expected, lo));
    assert expected == sums;
  }

  /** Adding the k-th signal to the sums of the first k gives the sums of the first k + 1. */
  lemma SumsStep(signals: seq<DiscreteSignal>, k: nat, minIndex: int, before: seq<real>, after: seq<real>)
    requires k < |signals| && |before| == |after|
    requires forall j :: 0 <= j < |before| ==> before[j] == SumAt(signals[..k], minIndex + j)
    requires forall j :: 0 <= j < |after| ==> after[j] == before[j] + SampleAt(signals[k], minIndex + j)
    ensures forall j :: 0 <= j < |after| ==> after[j] == SumAt(signals[..k + 1], minIndex + j)
  {
    forall j | 0 <= j < |after|
      ensures after[j] == SumAt(signals[..k + 1], minIndex + j)
    {
      SumAtSnoc(signals, k, minIndex + j);
    }
  }

  /** combineSignals' `signals.forEach`: every signal added in turn into the zeroed array. */
  method AddAllSignals(combinedValues: array<real>, signals: seq<DiscreteSignal>)
    requires HasSamples(signals)
    requires combinedValues.Length == MaxEnd(signals) - MinStart(signals) + 1
    requires forall j :: 0 <= j < combinedValues.Length ==> combinedValues[j] == 0.0
    modifies combinedValues
    ensures forall j :: 0 <= j < combinedValues.Length ==>
      combinedValues[j] == SumAt(signals, MinStart(signals) + j)
  {
    var minIndex := MinStart(signals);
    assert signals[..0] == [];
    for k := 0 to |signals|
      invariant forall j :: 0 <= j < combinedValues.Length ==>
        combinedValues[j] == SumAt(signals[..k], minIndex + j)
    {
      var signal := signals[k];
      ghost var before := combinedValues[..];
      if |signal.values| > 0 {
        WithinCombinedRange(signals, k);
        AddSignal(combinedValues, signal, minIndex);
      }
      SumsStep(signals, k, minIndex, before, combinedValues[..]);
    }
    assert signals[..|signals|] == signals;
  }

  /** signalFunctions.ts combineSignals: each sample is added into a zeroed array
      at its global index minus the least index. */
  method CombineSignals(signals: seq<DiscreteSignal>) returns (r: Result<DiscreteSignal>)
    ensures r == Combined(signals)
  {
    if |signals| == 0 {
      return Ok(DiscreteSignal([], 0));
    }
    if !HasSamples(signals) {
      return Err(InvalidArrayLength);
    }
    var minIndex := MinStart(signals);
    var maxIndex := MaxEnd(signals);
    MinStartBelowMaxEnd(signals);
    var totalLength := maxIndex - minIndex + 1;
    var combinedValues := new real[totalLength](_ => 0.0);
    AddAllSignals(combinedValues, signals);
    CombinedOfSums(signals, combinedValues[..]);
    r := Ok(DiscreteSignal(combinedValues[..], minIndex));
  }

  /** The combined signal covers every sample of every input, and starts and ends
      at an input's first and last sample. */
  lemma CombinedCovers(signals: seq<DiscreteSignal>, k: nat, i: nat)
    requires k < |signals| && i < |signals[k].values|
    ensures Combined(signals).Ok?
    ensures var c := Combined(signals).value;
            c.startIndex <= signals[k].startIndex + i < c.startIndex + |c.values|
  {
  }

  /** Signals that all cover the same non-empty range combine into one signal over
      exactly that range. */
  lemma CombinedOnCommonRange(signals: seq<DiscreteSignal>, start: int, length: nat)
    requires |signals| >= 1 && length >= 1
    requires forall k :: 0 <= k < |signals| ==>
      signals[k].startIndex == start && |signals[k].values| == length
    ensures Combined(signals).Ok?
    ensures Combined(signals).value.startIndex == start
    ensures |Combined(signals).value.values| == length
  {
    assert |signals[0].values| > 0;
    var lo := MinStart(signals);
    var hi := MaxEnd(signals);
    assert lo == start;
    assert hi == start + length - 1;
  }

  /** Combining a single signal that has samples gives it back unchanged. */
  lemma CombineSingle(s: DiscreteSignal)
    requires |s.values| > 0
    ensures Combined([s]) == Ok(s)
  {
    assert HasSamples([s]) by {
      assert |[s][0].values| > 0;
    }
    var c := Combined([s]).value;
    assert [s][..0] == [];
    assert |c.values| == |s.values|;
    forall j | 0 <= j < |s.values|
      ensures c.values[j] == s.values[j]
    {
      assert SumAt([s], s.startIndex + j) == SampleAt(s, s.startIndex + j);
    }
    assert c.values == s.values;
  }

  // ---------------------------------------------------------------------------
  // trimSignalToRelevantRange
  // ---------------------------------------------------------------------------

  /** The 1e-10 threshold below which a sample counts as zero. */
  const Epsilon: real := 0.0000000001

  /** Math.abs(x) > 1e-10. */
  predicate Relevant(x: real) {
    x > Epsilon || x < -Epsilon
  }

  /** The first relevant position below i, -1 when there is none. */
  function FirstRelevantBefore(v: seq<real>, i: nat): (r: int)
    requires i <= |v|
    ensures -1 <= r < i
    ensures r >= 0 ==> Relevant(v[r])
  {
    if i == 0 then -1
    else
      var f := FirstRelevantBefore(v, i - 1);
      if f == -1 && Relevant(v[i - 1]) then i - 1 else f
  }

  /** The last relevant position below i, -1 when there is none. */
  function LastRelevantBefore(v: seq<real>, i: nat): (r: int)
    requires i <= |v|
    ensures -1 <= r < i
    ensures r >= 0 ==> Relevant(v[r])
  {
    if i == 0 then -1
    else if Relevant(v[i - 1]) then i - 1
    else LastRelevantBefore(v, i - 1)
  }

  /** No sample before the first relevant one (or before i, when there is none) is relevant. */
  lemma {:induction false} NoRelevantBeforeFirst(v: seq<real>, i: nat)
    requires i <= |v|
    ensures var r := FirstRelevantBefore(v, i);
            forall j :: 0 <= j < i && (r == -1 || j < r) ==> !Relevant(v[j])
  {
    if i > 0 {
      NoRelevantBeforeFirst(v, i - 1);
    }
  }

  /** No sample after the last relevant one, and below i, is relevant. */
  lemma {:induction false} NoRelevantAfterLast(v: seq<real>, i: nat)
    requires i <= |v|
    ensures forall j :: LastRelevantBefore(v, i) < j < i ==> !Relevant(v[j])
  {
    if i > 0 && !Relevant(v[i - 1]) {
      NoRelevantAfterLast(v, i - 1);
    }
  }

  function Max(a: int, b: int): int { if a >= b then a else b }
  function Min(a: int, b: int): int { if a <= b then a else b }

  /** What trimSignalToRelevantRange returns. */
  function Trimmed(signal: DiscreteSignal, padding: nat): DiscreteSignal {
    var v := signal.values;
    var first := FirstRelevantBefore(v, |v|);
    var last := LastRelevantBefore(v, |v|);
    if first == -1 then DiscreteSignal([0.0], 0)
    else
      FirstBeforeLast(v);
      Window(signal, first, last, padding)
  }

  /** The samples from padding before `first` to padding after `last`, clipped to
      the signal, each at its global index. */
  function Window(signal: DiscreteSignal, first: nat, last: nat, padding: nat): DiscreteSignal
    requires first <= last < |signal.values|
  {
    var trimStart := Max(0, first - padding);
    var trimEnd := Min(|signal.values| - 1, last + padding);
    DiscreteSignal(signal.values[trimStart..trimEnd + 1], signal.startIndex + trimStart)
  }

  /** The scan of trimSignalToRelevantRange: the first and the last position whose
      sample is relevant, -1 for both when there is none. */
  method FindRelevant(values: seq<real>) returns (firstNonZero: int, lastNonZero: int)
    ensures firstNonZero == FirstRelevantBefore(values, |values|)
    ensures lastNonZero == LastRelevantBefore(values, |values|)
  {
    firstNonZero := -1;
    lastNonZero := -1;
    for i := 0 to |values|
      invariant firstNonZero == FirstRelevantBefore(values, i)
      invariant lastNonZero == LastRelevantBefore(values, i)
    {
      if values[i] > Epsilon || values[i] < -Epsilon {
        if firstNonZero == -1 {
          firstNonZero := i;
        }
        lastNonZero := i;
      }
    }
  }

  /** signalFunctions.ts trimSignalToRelevantRange: one pass records the first and
      the last relevant position, then the slice between them, widened by the
      padding and clipped to the signal, is returned. */
  method TrimSignalToRelevantRange(signal: DiscreteSignal, padding: nat) returns (r: DiscreteSignal)
    ensures r == Trimmed(signal, padding)
  {
    var values := signal.values;
    var startIndex := signal.startIndex;
    var firstNonZero, lastNonZero := FindRelevant(values);
    if firstNonZero == -1 {
      return DiscreteSignal([0.0], 0);
    }
    FirstBeforeLast(values);
    var trimStart := Max(0, firstNonZero - padding);
    var trimEnd := Min(|values| - 1, lastNonZero + padding);
    var trimmedValues := values[trimStart..trimEnd + 1];
    var newStartIndex := startIndex + trimStart;
    return DiscreteSignal(trimmedValues, newStartIndex);
  }

  /** Trimming never empties a signal; a signal without relevant samples becomes
      the single zero at index 0; otherwise the result is a window of the input
      (each sample keeps its global index), every relevant sample is inside it,
      and it reaches at most `padding` samples beyond the first and the last
      relevant sample. */
  lemma TrimmedIsRelevantWindow(signal: DiscreteSignal, padding: nat)
    ensures var r := Trimmed(signal, padding);
            |r.values| >= 1
            && ((forall i :: 0 <= i < |signal.values| ==> !Relevant(signal.values[i]))
                ==> r == DiscreteSignal([0.0], 0))
    ensures (exists i :: 0 <= i < |signal.values| && Relevant(signal.values[i])) ==>
            var r := Trimmed(signal, padding);
            (forall j :: 0 <= j < |r.values| ==> r.values[j] == SampleAt(signal, r.startIndex + j))
            && (forall i :: 0 <= i < |signal.values| && Relevant(signal.values[i]) ==>
                  r.startIndex <= signal.startIndex + i < r.startIndex + |r.values|
                  && SampleAt(r, signal.startIndex + i) == signal.values[i])
            && signal.startIndex + FirstRelevantBefore(signal.values, |signal.values|) - padding <= r.startIndex
            && r.startIndex + |r.values| - 1 <= signal.startIndex + LastRelevantBefore(signal.values, |signal.values|) + padding
  {
    var v := signal.values;
    var first := FirstRelevantBefore(v, |v|);
    NoRelevantBeforeFirst(v, |v|);
    if first != -1 {
      assert Relevant(v[first]);
      TrimmedWindow(signal, padding);
      TrimmedCovers(signal, padding);
    }
  }

  /** With a relevant sample, the trimmed signal is the slice from padding before
      the first to padding after the last, clipped to the signal. */
  lemma TrimmedWindow(signal: DiscreteSignal, padding: nat)
    requires FirstRelevantBefore(signal.values, |signal.values|) != -1
    ensures var r := Trimmed(signal, padding);
            var first := FirstRelevantBefore(signal.values, |signal.values|);
            var last := LastRelevantBefore(signal.values, |signal.values|);
            first <= last
            && r.startIndex == signal.startIndex + Max(0, first - padding)
            && r.startIndex + |r.values| - 1 == signal.startIndex + Min(|signal.values| - 1, last + padding)
            && (forall j :: 0 <= j < |r.values| ==> r.values[j] == SampleAt(signal, r.startIndex + j))
  {
    var v := signal.values;
    FirstBeforeLast(v);
    WindowSamples(signal, FirstRelevantBefore(v, |v|), LastRelevantBefore(v, |v|), padding);
  }

  /** The window starts and ends `padding` beyond first and last, clipped to the
      signal, and agrees with the signal at every global index it covers. */
  lemma WindowSamples(signal: DiscreteSignal, first: nat, last: nat, padding: nat)
    requires first <= last < |signal.values|
    ensures var r := Window(signal, first, last, padding);
            r.startIndex == signal.startIndex + Max(0, first - padding)
            && r.startIndex + |r.values| - 1 == signal.startIndex + Min(|signal.values| - 1, last + padding)
            && (forall j :: 0 <= j < |r.values| ==> r.values[j] == SampleAt(signal, r.startIndex + j))
  {
    SliceSamples(signal, Max(0, first - padding), Min(|signal.values| - 1, last + padding) + 1);
  }

  /** The first relevant sample is not after the last. */
  lemma FirstBeforeLast(v: seq<real>)
    requires FirstRelevantBefore(v, |v|) != -1
    ensures 0 <= FirstRelevantBefore(v, |v|) <= LastRelevantBefore(v, |v|)
  {
    var first := FirstRelevantBefore(v, |v|);
    assert Relevant(v[first]);
    NoRelevantAfterLast(v, |v|);
  }

  /** A slice of a signal, placed at its global index, agrees with the signal. */
  lemma SliceSamples(signal: DiscreteSignal, lo: nat, hi: nat)
    requires lo <= hi <= |signal.values|
    ensures var w := signal.values[lo..hi];
            forall j :: 0 <= j < |w| ==> w[j] == SampleAt(signal, signal.startIndex + lo + j)
  {
  }

  /** Every relevant sample lies inside the trimmed signal, with its value. */
  lemma TrimmedCovers(signal: DiscreteSignal, padding: nat)
    requires FirstRelevantBefore(signal.values, |signal.values|) != -1
    ensures var r := Trimmed(signal, padding);
            forall i :: 0 <= i < |signal.values| && Relevant(signal.values[i]) ==>
              r.startIndex <= signal.startIndex + i < r.startIndex + |r.values|
              && SampleAt(r, signal.startIndex + i) == signal.values[i]
  {
    var v := signal.values;
    var first := FirstRelevantBefore(v, |v|);
    var last := LastRelevantBefore(v, |v|);
    FirstBeforeLast(v);
    NoRelevantBeforeFirst(v, |v|);
    NoRelevantAfterLast(v, |v|);
    assert Trimmed(signal, padding) == Window(signal, first, last, padding);
    WindowCovers(signal, first, last, padding);
  }

  /** Every sample from first to last lies inside the window, with its value. */
  lemma WindowCovers(signal: DiscreteSignal, first: nat, last: nat, padding: nat)
    requires first <= last < |signal.values|
    ensures var r := Window(signal, first, last, padding);
            forall i :: first <= i <= last ==>
              r.startIndex <= signal.startIndex + i < r.startIndex + |r.values|
              && SampleAt(r, signal.startIndex + i) == signal.values[i]
  {
    var r := Window(signal, first, last, padding);
    WindowSamples(signal, first, last, padding);
    forall i | first <= i <= last
      ensures r.startIndex <= signal.startIndex + i < r.startIndex + |r.values|
      ensures SampleAt(r, signal.startIndex + i) == signal.values[i]
    {
      assert r.values[signal.startIndex + i - r.startIndex] == SampleAt(signal, signal.startIndex + i);
    }
  }

  // ---------------------------------------------------------------------------
  // getSignalIndices
  // ---------------------------------------------------------------------------

  /** signalFunctions.ts getSignalIndices: the global index of every sample. */
  function Indices(s: DiscreteSignal): (r: seq<int>)
    ensures |r| == |s.values|
    ensures forall i :: 0 <= i < |r| ==> r[i] == s.startIndex + i
  {
    seq(|s.values|, i => s.startIndex + i)
  }
}
