/** Streaming audio buffers: `SampleRingBuffer` and `StreamingLinearResampler` in
    ron/voice/audio.py. Samples and positions are exact reals.
 */
module AudioStream {
  import opened Common

  type Samples = seq<real>

  // ---- ring buffer

  /** The last n samples, or all of them when there are fewer. */
  function Last(s: Samples, n: nat): Samples {
    if |s| <= n then s else s[|s| - n..]
  }

  lemma LastIsTheEnd(s: Samples, n: nat, k: nat)
    ensures |Last(s, n)| == if |s| <= n then |s| else n
    ensures k < |Last(s, n)| ==> Last(s, n)[|Last(s, n)| - 1 - k] == s[|s| - 1 - k]
  {
  }

  /** What a bounded suffix loses stays lost: trimming early changes nothing later. */
  lemma LastOfLast(s: Samples, t: Samples, n: nat)
    ensures Last(Last(s, n) + t, n) == Last(s + t, n)
  {
  }

  lemma LastDropsFront(front: Samples, rest: Samples, n: nat)
    requires |rest| >= n
    ensures Last(front + rest, n) == Last(rest, n)
  {
  }

  class SampleRingBuffer {
    const maximumSamples: nat
    var chunks: seq<Samples>
    var sampleCount: nat
    ghost var history: Samples        // everything appended since the last clear

    constructor (maximum: nat)
      requires maximum >= 1
      ensures Valid() && history == [] && maximumSamples == maximum
    {
      maximumSamples, chunks, sampleCount, history := maximum, [], 0, [];
    }

    ghost predicate Valid()
      reads this
    {
      && maximumSamples >= 1
      && Flatten(chunks) == Last(history, maximumSamples)
      && sampleCount == |Flatten(chunks)|
      && forall k | 0 <= k < |chunks| :: chunks[k] != []
    }

    method Append(samples: Samples)
      requires Valid()
      modifies this
      ensures Valid() && history == old(history) + samples
      ensures sampleCount == if |history| <= maximumSamples then |history| else maximumSamples
    {
      history := history + samples;
      if samples == [] {
        return;
      }
      LastOfLast(old(history), samples, maximumSamples);
      if |samples| >= maximumSamples {
        chunks := [samples[|samples| - maximumSamples..]];
        sampleCount := maximumSamples;
        assert Flatten(chunks) == chunks[0] + Flatten([]);
        return;
      }
      FlattenAppend(chunks, samples);
      chunks := chunks + [samples];
      sampleCount := sampleCount + |samples|;
      DropExcess();
    }

    /** The trimming loop of `append`: whole chunks go first, then the front of one. */
    method DropExcess()
      requires sampleCount == |Flatten(chunks)| && forall k | 0 <= k < |chunks| :: chunks[k] != []
      modifies this`chunks, this`sampleCount
      ensures Flatten(chunks) == Last(old(Flatten(chunks)), maximumSamples)
      ensures sampleCount == |Flatten(chunks)| && forall k | 0 <= k < |chunks| :: chunks[k] != []
    {
      while sampleCount > maximumSamples && chunks != []
        invariant sampleCount == |Flatten(chunks)| && forall k | 0 <= k < |chunks| :: chunks[k] != []
        invariant Last(Flatten(chunks), maximumSamples) == Last(old(Flatten(chunks)), maximumSamples)
        decreases sampleCount
      {
        var excess := sampleCount - maximumSamples;
        var first := chunks[0];
        if |first| <= excess {
          LastDropsFront(first, Flatten(chunks[1..]), maximumSamples);
          chunks := chunks[1..];
          sampleCount := sampleCount - |first|;
        } else {
          LastDropsFront(first[..excess], first[excess..] + Flatten(chunks[1..]), maximumSamples);
          assert first[..excess] + (first[excess..] + Flatten(chunks[1..])) == Flatten(chunks);
          chunks := [first[excess..]] + chunks[1..];
          sampleCount := sampleCount - excess;
        }
      }
    }

    /** `snapshot`, with a positive limit when there is one. */
    method Snapshot(maximum: Option<nat>) returns (result: Samples)
      requires Valid()
      requires maximum.Some? ==> maximum.value > 0
      ensures maximum.None? ==> result == Last(history, maximumSamples)
      ensures maximum.Some? ==> result == Last(Last(history, maximumSamples), maximum.value)
    {
      result := [];
      assert chunks[..0] == [];
      for k := 0 to |chunks|
        invariant result == Flatten(chunks[..k])
      {
        FlattenAppend(chunks[..k], chunks[k]);
        assert chunks[..k] + [chunks[k]] == chunks[..k + 1];
        result := result + chunks[k];
      }
      assert chunks[..|chunks|] == chunks;
      if maximum.Some? && |result| > maximum.value {
        result := result[|result| - maximum.value..];
      }
    }

    method Clear()
      modifies this
      requires Valid()
      ensures Valid() && history == [] && sampleCount == 0
    {
      chunks, sampleCount, history := [], 0, [];
    }
  }

  // ---- resampler

  /** Position of output k on the input timeline: one step further than the output before it. */
  function Position(k: nat, step: real): real {
    if k == 0 then 0.0 else Position(k - 1, step) + step
  }

  function Step(source: nat, target: nat): real
    requires target > 0
  {
    source as real / target as real
  }

  lemma {:induction false} PositionIsMultiple(k: nat, step: real)
    ensures Position(k, step) == k as real * step
  {
    if k > 0 {
      PositionIsMultiple(k - 1, step);
    }
  }

  function Ceiling(x: real): int {
    -((-x).Floor)
  }

  /** Linear interpolation of the whole input at a position inside it. */
  function Interpolate(input: Samples, position: real): real
    requires 0.0 <= position && position <= (|input| - 1) as real
  {
    var left := position.Floor;
    var right := Ceiling(position);
    Blend(input[left], input[right], position - left as real)
  }

  function Blend(left: real, right: real, fraction: real): real {
    left + (right - left) * fraction
  }

  /** How many outputs an input of n samples yields. */
  function OutputCount(n: nat, source: nat, target: nat): nat
    requires source > 0
  {
    if n == 0 then 0 else (n - 1) * target / source + 1
  }

  /** The one-shot resampling of a whole input. */
  function Resampled(input: Samples, source: nat, target: nat): Samples
    requires source > 0 && target > 0
  {
    seq(OutputCount(|input|, source, target), k requires 0 <= k < OutputCount(|input|, source, target) =>
      InputReaches(k, |input|, source, target);
      Interpolate(input, Position(k, Step(source, target))))
  }

  lemma ScaledPosition(k: nat, source: nat, target: nat)
    requires target > 0
    ensures Position(k, Step(source, target)) * target as real == (k * source) as real
  {
    var s, t := source as real, target as real;
    PositionIsMultiple(k, Step(source, target));
    assert (s / t) * t == s;
    calc {
      (k as real * (s / t)) * t;
      k as real * ((s / t) * t);
      k as real * s;
      (k * source) as real;
    }
  }

  lemma ScalingKeepsOrder(x: real, m: int, t: nat)
    requires t > 0
    ensures x <= m as real <==> x * t as real <= (m * t) as real
    ensures x >= 0.0 <==> x * t as real >= 0.0
  {
    var y := t as real;
    assert (m * t) as real == m as real * y;
    if x <= m as real {
      assert x * y <= m as real * y;
    } else {
      assert x * y > m as real * y;
    }
  }

  /** Exactly the outputs before OutputCount lie inside the input. */
  lemma InputReaches(k: nat, n: nat, source: nat, target: nat)
    requires source > 0 && target > 0 && n > 0
    ensures Position(k, Step(source, target)) >= 0.0
    ensures k < OutputCount(n, source, target) <==> Position(k, Step(source, target)) <= (n - 1) as real
  {
    hide Position, Step;
    ScaledPosition(k, source, target);
    ScalingKeepsOrder(Position(k, Step(source, target)), n - 1, target);
    CountIsFloor(k, n, source, target);
  }

  lemma CountIsFloor(k: nat, n: nat, source: nat, target: nat)
    requires source > 0 && target > 0 && n > 0
    ensures k < OutputCount(n, source, target) <==> (k * source) as real <= ((n - 1) * target) as real
    ensures (k * source) as real >= 0.0
  {
    FloorDivision((n - 1) * target, source, k);
  }

  lemma FloorDivision(a: nat, b: nat, k: nat)
    requires b > 0
    ensures k <= a / b <==> k * b <= a
  {
    if k <= a / b {
      assert k * b <= (a / b) * b;
    } else {
      assert k * b >= (a / b + 1) * b;
    }
  }

  lemma CeilingBounds(x: real, n: int)
    ensures Ceiling(x) <= n <==> x <= n as real
    ensures x.Floor <= Ceiling(x) <= x.Floor + 1
  {
  }

  /** Every output in numbers: output k stands k * source / target samples into the input, and is the sample
      there, or lies between its two neighbours as far from the left one as the remainder says. */
  lemma OutputsInNumbers(input: Samples, source: nat, target: nat, k: nat)
    requires source > 0 && target > 0 && input != []
    ensures |Resampled(input, source, target)| == (|input| - 1) * target / source + 1
    ensures k < |Resampled(input, source, target)| ==>
      var left, rest := k * source / target, k * source % target;
      && left < |input| && (rest > 0 ==> left + 1 < |input|)
      && Resampled(input, source, target)[k] ==
           if rest == 0 then input[left]
           else input[left] + (input[left + 1] - input[left]) * (rest as real / target as real)
  {
    hide Position, Step, Interpolate, OutputCount;
    CountInNumbers(|input|, source, target);
    var left, rest := k * source / target, k * source % target;
    if k < |Resampled(input, source, target)| {
      InputReaches(k, |input|, source, target);
      PositionInNumbers(k, source, target);
      FractionBelowOne(rest, target);
      InterpolatedBetween(input, Position(k, Step(source, target)), left, rest as real / target as real);
    }
  }

  lemma CountInNumbers(n: nat, source: nat, target: nat)
    requires source > 0 && n > 0
    ensures OutputCount(n, source, target) == (n - 1) * target / source + 1
  {
  }

  lemma PositionInNumbers(k: nat, source: nat, target: nat)
    requires target > 0
    ensures Position(k, Step(source, target)) ==
      (k * source / target) as real + (k * source % target) as real / target as real
  {
    hide Position, Step;
    var left, rest := k * source / target, k * source % target;
    var t := target as real;
    ScaledPosition(k, source, target);
    assert k * source == left * target + rest;
    assert (left * target) as real == left as real * t;
    assert (rest as real / t) * t == rest as real;
    assert (left as real + rest as real / t) * t == left as real * t + (rest as real / t) * t;
    SameMultiple(Position(k, Step(source, target)), left as real + rest as real / t, t);
  }

  lemma SameMultiple(a: real, b: real, t: real)
    requires t > 0.0 && a * t == b * t
    ensures a == b
  {
    assert (a - b) * t == 0.0;
  }

  lemma FractionBelowOne(rest: nat, target: nat)
    requires rest < target
    ensures 0.0 <= rest as real / target as real < 1.0
    ensures rest as real / target as real == 0.0 <==> rest == 0
  {
    var f, t := rest as real / target as real, target as real;
    assert f * t == rest as real;
    ProductBounds(f, t);
  }

  lemma ProductBounds(f: real, t: real)
    requires t > 0.0
    ensures f >= 1.0 ==> f * t >= t
    ensures f < 0.0 ==> f * t < 0.0
    ensures f == 0.0 <==> f * t == 0.0
  {
  }

  lemma InterpolatedBetween(input: Samples, position: real, left: nat, fraction: real)
    requires 0.0 <= position <= (|input| - 1) as real && position == left as real + fraction
    requires 0.0 <= fraction < 1.0
    ensures left < |input| && (fraction > 0.0 ==> left + 1 < |input|)
    ensures Interpolate(input, position) ==
      if fraction == 0.0 then input[left] else input[left] + (input[left + 1] - input[left]) * fraction
  {
    assert position.Floor == left;
    assert Ceiling(position) == if fraction == 0.0 then left else left + 1;
  }

  /** Equal rates give the input back. */
  lemma EqualRatesAreIdentity(input: Samples, rate: nat)
    requires rate > 0
    ensures Resampled(input, rate, rate) == input
  {
    var output := Resampled(input, rate, rate);
    if input != [] {
      FloorDivision((|input| - 1) * rate, rate, |input| - 1);
      FloorDivision((|input| - 1) * rate, rate, |input|);
      assert |output| == |input|;
      forall k: nat | k < |input| ensures output[k] == input[k] {
        InputReaches(k, |input|, rate, rate);
        UnitPosition(k, rate);
      }
    }
  }

  lemma DividedByItself(r: real)
    requires r > 0.0
    ensures r / r == 1.0
  {
    assert (r / r) * r == 1.0 * r;
  }

  lemma UnitPosition(k: nat, rate: nat)
    requires rate > 0
    ensures Position(k, Step(rate, rate)) == k as real
  {
    DividedByItself(rate as real);
    PositionIsMultiple(k, 1.0);
  }

  /** What an input has yielded so far stays as it is when the input grows. */
  lemma ResampledGrows(input: Samples, more: Samples, source: nat, target: nat)
    requires source > 0 && target > 0
    ensures |Resampled(input, source, target)| == OutputCount(|input|, source, target)
    ensures |Resampled(input + more, source, target)| == OutputCount(|input + more|, source, target)
    ensures OutputCount(|input|, source, target) <= OutputCount(|input + more|, source, target)
    ensures Resampled(input, source, target)
         == Resampled(input + more, source, target)[..OutputCount(|input|, source, target)]
  {
    if input != [] {
      var count := OutputCount(|input|, source, target);
      InputReaches(count - 1, |input|, source, target);
      InputReaches(count - 1, |input + more|, source, target);
      forall k: nat | k < count
        ensures Resampled(input, source, target)[k] == Resampled(input + more, source, target)[k]
      {
        InputReaches(k, |input|, source, target);
        InputReaches(k, |input + more|, source, target);
        SameInside(input, more, Position(k, Step(source, target)));
      }
    }
  }

  lemma SameInside(input: Samples, more: Samples, position: real)
    requires 0.0 <= position <= (|input| - 1) as real
    ensures Interpolate(input, position) == Interpolate(input + more, position)
  {
    CeilingBounds(position, |input| - 1);
  }

  /** The next output is the interpolation at its position if that lies inside the input;
      otherwise the input is exhausted. */
  lemma NextOutput(input: Samples, k: nat, source: nat, target: nat)
    requires source > 0 && target > 0 && input != [] && k <= OutputCount(|input|, source, target)
    ensures var p := Position(k, Step(source, target));
            && 0.0 <= p
            && (Ceiling(p) <= |input| - 1 <==> p <= (|input| - 1) as real)
            && (Ceiling(p) <= |input| - 1 <==> k < |Resampled(input, source, target)|)
            && (k < |Resampled(input, source, target)| ==>
                  Resampled(input, source, target)[k] == Interpolate(input, p))
            && Position(k + 1, Step(source, target)) == p + Step(source, target)
  {
    InputReaches(k, |input|, source, target);
    CeilingBounds(Position(k, Step(source, target)), |input| - 1);
  }

  /** The next position is past everything the earlier reads could reach. */
  lemma PastTheSeam(earlier: Samples, k: nat, source: nat, target: nat)
    requires source > 0 && target > 0 && k >= OutputCount(|earlier|, source, target)
    ensures Position(k, Step(source, target)) >= 0.0 && Position(k, Step(source, target)).Floor >= |earlier| - 1
  {
    InputReaches(k, |earlier| + 1, source, target);
    if earlier != [] {
      InputReaches(k, |earlier|, source, target);
    }
  }

  class StreamingLinearResampler {
    const sourceRate: nat
    const targetRate: nat
    const step: real
    var processed: nat
    var nextPosition: real
    var previous: Option<real>
    ghost var history: Samples       // all input so far
    ghost var emitted: Samples       // all output so far

    constructor (source: nat, target: nat)
      requires source > 0 && target > 0
      ensures Valid() && history == [] && emitted == []
      ensures sourceRate == source && targetRate == target
    {
      sourceRate, targetRate, step := source, target, source as real / target as real;
      processed, nextPosition, previous := 0, 0.0, None;
      history, emitted := [], [];
    }

    /** The outputs so far are those of resampling the inputs so far in one go. */
    ghost predicate Valid()
      reads this
    {
      && sourceRate > 0 && targetRate > 0 && step == Step(sourceRate, targetRate)
      && processed == |history|
      && previous == (if history == [] then None else Some(history[|history| - 1]))
      && emitted == Resampled(history, sourceRate, targetRate)
      && (sourceRate != targetRate ==> nextPosition == Position(|emitted|, step))
    }

    method Process(samples: Samples) returns (output: Samples)
      requires Valid()
      modifies this
      ensures Valid() && history == old(history) + samples
      ensures emitted == old(emitted) + output
    {
      history := history + samples;
      if samples == [] {
        assert history == old(history);
        return [];
      }
      if sourceRate == targetRate {
        EqualRatesAreIdentity(old(history), sourceRate);
        EqualRatesAreIdentity(history, sourceRate);
        processed := processed + |samples|;
        previous := Some(samples[|samples| - 1]);
        emitted := emitted + samples;
        return samples;
      }

      output := Advance(samples, old(history));
      emitted := emitted + output;
    }

    /** A sample of this block, or the last one before it: the program's guard against a lost seam never fires. */
    method SampleAt(at: nat, samples: Samples, ghost earlier: Samples) returns (sample: real)
      requires processed == |earlier| && processed - 1 <= at < processed + |samples|
      requires previous == if earlier == [] then None else Some(earlier[|earlier| - 1])
      ensures sample == (earlier + samples)[at]
    {
      return if at < processed then previous.value else samples[at - processed];
    }

    /** The interpolation loop of `process`, and the state it leaves for the next call. */
    method Advance(samples: Samples, ghost earlier: Samples) returns (output: Samples)
      requires sourceRate > 0 && targetRate > 0 && step == Step(sourceRate, targetRate)
      requires samples != [] && history == earlier + samples && processed == |earlier|
      requires previous == if earlier == [] then None else Some(earlier[|earlier| - 1])
      requires emitted == Resampled(earlier, sourceRate, targetRate)
      requires nextPosition == Position(|emitted|, step)
      modifies this`processed, this`nextPosition, this`previous
      ensures emitted + output == Resampled(history, sourceRate, targetRate)
      ensures nextPosition == Position(|emitted + output|, step)
      ensures processed == |history| && previous == Some(samples[|samples| - 1])
    {
      hide Resampled, Position, Step, OutputCount;
      var start := processed;
      var end := start + |samples| - 1;
      var epsilon := 0.000000001;
      ghost var whole := Resampled(history, sourceRate, targetRate);
      ghost var count, k := |emitted|, |emitted|;
      ResampledGrows(earlier, samples, sourceRate, targetRate);
      output := [];
      while nextPosition <= end as real + epsilon
        invariant k == count + |output| <= |whole| && output == whole[count..k]
        invariant nextPosition == Position(k, step)
        invariant processed == start && previous == old(previous)
        decreases |whole| - |output|
      {
        NextOutput(history, k, sourceRate, targetRate);
        PastTheSeam(earlier, k, sourceRate, targetRate);
        var left := nextPosition.Floor;
        var right := Ceiling(nextPosition);
        if right > end {
          break;
        }
        CeilingBounds(nextPosition, end);
        var leftSample := SampleAt(left, samples, earlier);
        var rightSample := SampleAt(right, samples, earlier);
        var sample := Blend(leftSample, rightSample, nextPosition - left as real);
        assert sample == Interpolate(history, nextPosition);
        assert whole[count..k + 1] == whole[count..k] + [whole[k]];
        output := output + [sample];
        nextPosition := nextPosition + step;
        k := k + 1;
      }
      NextOutput(history, k, sourceRate, targetRate);
      processed := processed + |samples|;
      previous := Some(samples[|samples| - 1]);
    }
  }

  /** However an input is cut into blocks, the outputs together are its one-shot resampling. */
  method ResampleInBlocks(source: nat, target: nat, blocks: seq<Samples>) returns (output: Samples)
    requires source > 0 && target > 0
    ensures output == Resampled(Flatten(blocks), source, target)
    ensures |output| == OutputCount(|Flatten(blocks)|, source, target)
  {
    var resampler := new StreamingLinearResampler(source, target);
    output := [];
    for n := 0 to |blocks|
      invariant resampler.Valid() && resampler.emitted == output && resampler.history == Flatten(blocks[..n])
      invariant resampler.sourceRate == source && resampler.targetRate == target
    {
      var part := resampler.Process(blocks[n]);
      output := output + part;
      assert blocks[..n + 1] == blocks[..n] + [blocks[n]];
      FlattenAppend(blocks[..n], blocks[n]);
    }
    assert blocks[..|blocks|] == blocks;
  }
}
