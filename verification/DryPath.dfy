/** The dry path: detector analysis of the input, and the copy of sanitised input to the output. */
module DryPath {
  import opened LaneMasks
  import opened Results

  datatype Sample = Finite(value: real) | NotANumber | Infinite(negative: bool)

  const SILENCE := Finite(0.0)

  datatype DryPathResult = DryPathResult(
    nonfiniteInput: bool, channelsProcessed: nat, selectedPeak: real,
    leftGain: real, rightGain: real, silenceFlags: nat)

  type Channels = seq<array?<Sample>>

  function Magnitude(x: real): real {
    if x < 0.0 then -x else x
  }

  function Sanitised(s: Sample): Sample {
    if s.Finite? then s else SILENCE
  }

  function Count(channels: nat): nat {
    if channels < 2 then channels else 2
  }

  /** Every buffer holds the whole block. */
  predicate Fits(channels: Channels, frames: nat) {
    forall c :: 0 <= c < |channels| && channels[c] != null ==> frames <= channels[c].Length
  }

  function Present(channels: Channels, c: nat): bool {
    c < |channels| && channels[c] != null
  }

  function Contents(channels: Channels, c: nat): seq<Sample>
    reads channels
  {
    if Present(channels, c) then channels[c][..] else []
  }

  /** The channel has a buffer and is not flagged silent. */
  predicate Heard(input: Channels, flags: nat, c: nat) {
    c < Count(|input|) && input[c] != null && !Bit(flags, c)
  }

  /** The finite sample of a heard channel, and zero for anything else. */
  function Level(input: Channels, flags: nat, c: nat, f: nat): real
    requires c < |input| && input[c] != null ==> f < input[c].Length
    reads input
  {
    if Heard(input, flags, c) && input[c][f].Finite? then input[c][f].value else 0.0
  }

  ghost predicate Audible(input: Channels, flags: nat, c: nat, frames: nat)
    requires Fits(input, frames)
    reads input
  {
    exists f :: 0 <= f < frames && Level(input, flags, c, f) != 0.0
  }

  ghost predicate SomeOdd(samples: seq<Sample>, n: nat) {
    exists f :: 0 <= f < n && f < |samples| && !samples[f].Finite?
  }

  ghost predicate HasNonfinite(input: Channels, flags: nat, c: nat, frames: nat)
    requires Fits(input, frames)
    reads input
  {
    Heard(input, flags, c) && SomeOdd(Contents(input, c), frames)
  }

  /** The gains of the two channels in the detector mix. */
  function Gains(channels: nat, available0: bool, available1: bool, audible0: bool, audible1: bool): (real, real) {
    if channels == 1 && available0 then (1.0, 0.0)
    else if channels == 2 && available0 && available1 then
      if audible0 && audible1 then (0.5, 0.5) else if audible1 then (0.0, 1.0) else (1.0, 0.0)
    else (0.0, 0.0)
  }

  function Blend(left: real, right: real, gains: (real, real)): real {
    Magnitude(left * gains.0 + right * gains.1)
  }

  function Mix(input: Channels, flags: nat, gains: (real, real), f: nat): real
    requires forall c :: 0 <= c < |input| && input[c] != null ==> f < input[c].Length
    reads input
  {
    Blend(Level(input, flags, 0, f), Level(input, flags, 1, f), gains)
  }

  /** The largest mixed magnitude of the first n frames. */
  ghost predicate IsPeak(input: Channels, flags: nat, gains: (real, real), n: nat, peak: real)
    requires Fits(input, n)
    reads input
  {
    && (forall f :: 0 <= f < n ==> Mix(input, flags, gains, f) <= peak)
    && (peak == 0.0 || exists f :: 0 <= f < n && Mix(input, flags, gains, f) == peak)
  }

  /** What the analysis of the block finds. */
  ghost predicate Analysed(input: Channels, frames: nat, flags: nat, r: DryPathResult)
    requires Fits(input, frames)
    reads input
  {
    var count := Count(|input|);
    && (r.nonfiniteInput <==> HasNonfinite(input, flags, 0, frames) || HasNonfinite(input, flags, 1, frames))
    && (r.leftGain, r.rightGain)
         == Gains(count, Present(input, 0), Present(input, 1),
                  Audible(input, flags, 0, frames), Audible(input, flags, 1, frames))
    && IsPeak(input, flags, (r.leftGain, r.rightGain), frames, r.selectedPeak) && r.selectedPeak >= 0.0
  }

  lemma BlendIsBounded(a: real, b: real, gains: (real, real))
    requires gains in {(1.0, 0.0), (0.5, 0.5), (0.0, 1.0), (0.0, 0.0)}
    ensures Blend(a, b, gains) <= if Magnitude(a) >= Magnitude(b) then Magnitude(a) else Magnitude(b)
  {
    if gains == (1.0, 0.0) {
      assert a * gains.0 + b * gains.1 == a;
    } else if gains == (0.5, 0.5) {
      assert a * gains.0 + b * gains.1 == a * 0.5 + b * 0.5;
    } else if gains == (0.0, 1.0) {
      assert a * gains.0 + b * gains.1 == b;
    } else {
      assert a * gains.0 + b * gains.1 == 0.0;
    }
  }

  /** Some heard finite sample is at least as large as the selected peak. */
  lemma PeakIsReachedByASample(input: Channels, frames: nat, flags: nat, r: DryPathResult)
    requires Fits(input, frames) && Analysed(input, frames, flags, r) && r.selectedPeak > 0.0
    ensures exists c: nat, f: nat :: c < 2 && f < frames && Magnitude(Level(input, flags, c, f)) >= r.selectedPeak
  {
    var gains := (r.leftGain, r.rightGain);
    assert gains in {(1.0, 0.0), (0.5, 0.5), (0.0, 1.0), (0.0, 0.0)};
    var f: nat :| f < frames && Mix(input, flags, gains, f) == r.selectedPeak;
    hide Level, Blend, Magnitude;
    var a, b := Level(input, flags, 0, f), Level(input, flags, 1, f);
    BlendIsBounded(a, b, gains);
    if Magnitude(a) >= Magnitude(b) {
      assert Magnitude(Level(input, flags, 0, f)) >= r.selectedPeak;
    } else {
      assert Magnitude(Level(input, flags, 1, f)) >= r.selectedPeak;
    }
  }

  /** What the detector hears of a channel: its finite samples, and zero for the others and for a silent channel. */
  ghost function HeardValues(samples: seq<Sample>, silent: bool, n: nat): (values: seq<real>)
    requires n <= |samples|
    ensures |values| == n
  {
    seq(n, f requires 0 <= f < n => if !silent && samples[f].Finite? then samples[f].value else 0.0)
  }

  /** Half of the sum of two channels. */
  ghost function Halved(left: seq<real>, right: seq<real>): (values: seq<real>)
    requires |left| == |right|
    ensures |values| == |left|
  {
    seq(|left|, f requires 0 <= f < |left| => (left[f] + right[f]) / 2.0)
  }

  ghost predicate SomeSound(values: seq<real>) {
    exists f :: 0 <= f < |values| && values[f] != 0.0
  }

  /** No value is further from zero, and one is as far unless there is only silence. */
  ghost predicate PeakOf(values: seq<real>, peak: real) {
    && peak >= 0.0 && (forall f :: 0 <= f < |values| ==> -peak <= values[f] <= peak)
    && (peak == 0.0 || exists f :: 0 <= f < |values| && (values[f] == peak || values[f] == -peak))
  }

  /** The peak is that of the only channel, of the only audible one of two, or of two audible ones mixed half and half. */
  lemma AnalysisMeans(input: Channels, frames: nat, flags: nat, r: DryPathResult)
    requires Fits(input, frames) && Analysed(input, frames, flags, r)
    ensures |input| == 1 && input[0] != null ==>
      PeakOf(HeardValues(input[0][..], Bit(flags, 0), frames), r.selectedPeak)
    ensures |input| >= 2 && input[0] != null && input[1] != null ==>
      var left, right := HeardValues(input[0][..], Bit(flags, 0), frames), HeardValues(input[1][..], Bit(flags, 1), frames);
      PeakOf(if SomeSound(left) && SomeSound(right) then Halved(left, right) else if SomeSound(right) then right else left,
             r.selectedPeak)
    ensures |input| == 0 || input[0] == null || (|input| >= 2 && input[1] == null) ==> r.selectedPeak == 0.0
  {
    var gains := (r.leftGain, r.rightGain);
    if |input| == 1 && input[0] != null {
      MixIsPeak(input, frames, flags, gains, r.selectedPeak, HeardValues(input[0][..], Bit(flags, 0), frames));
    } else if |input| >= 2 && input[0] != null && input[1] != null {
      var left, right := HeardValues(input[0][..], Bit(flags, 0), frames), HeardValues(input[1][..], Bit(flags, 1), frames);
      AudibleIsSound(input, frames, flags, 0, left);
      AudibleIsSound(input, frames, flags, 1, right);
      var mixed :=
        if SomeSound(left) && SomeSound(right) then Halved(left, right) else if SomeSound(right) then right else left;
      MixIsPeak(input, frames, flags, gains, r.selectedPeak, mixed);
    } else {
      assert gains == (0.0, 0.0);
      MixIsPeak(input, frames, flags, gains, r.selectedPeak, seq(frames, f => 0.0));
    }
  }

  lemma AudibleIsSound(input: Channels, frames: nat, flags: nat, c: nat, values: seq<real>)
    requires Fits(input, frames) && c < 2 && c < |input| && input[c] != null
    requires values == HeardValues(input[c][..], Bit(flags, c), frames)
    ensures Audible(input, flags, c, frames) <==> SomeSound(values)
  {
    assert forall f :: 0 <= f < frames ==> values[f] == Level(input, flags, c, f);
  }

  lemma MixIsPeak(
    input: Channels, frames: nat, flags: nat, gains: (real, real), peak: real, values: seq<real>)
    requires Fits(input, frames) && |values| == frames && peak >= 0.0 && IsPeak(input, flags, gains, frames, peak)
    requires forall f :: 0 <= f < frames ==>
      values[f] == Level(input, flags, 0, f) * gains.0 + Level(input, flags, 1, f) * gains.1
    ensures PeakOf(values, peak)
  {
    hide Level;
    forall f | 0 <= f < frames
      ensures Mix(input, flags, gains, f) == Magnitude(values[f])
    {
    }
  }

  /** One channel's scan: whether it is audible and whether it holds a sample that is not finite. */
  method Scan(input: Channels, flags: nat, c: nat, frames: nat) returns (audible: bool, nonfinite: bool)
    requires Fits(input, frames) && c < Count(|input|)
    ensures audible <==> Audible(input, flags, c, frames)
    ensures nonfinite <==> HasNonfinite(input, flags, c, frames)
  {
    audible, nonfinite := false, false;
    if input[c] == null || Bit(flags, c) {
      return;
    }
    for f := 0 to frames
      invariant audible <==> exists g :: 0 <= g < f && Level(input, flags, c, g) != 0.0
      invariant nonfinite <==> SomeOdd(Contents(input, c), f)
    {
      var sample := input[c][f];
      if !sample.Finite? {
        nonfinite := true;
      } else if sample.value != 0.0 {
        assert Level(input, flags, c, f) != 0.0;
        audible := true;
      }
    }
  }

  /** What the first n channels show. */
  ghost predicate Inspected(
    input: Channels, flags: nat, frames: nat, n: nat, available: seq<bool>, audible: seq<bool>, nonfinite: bool)
    requires Fits(input, frames)
    reads input
  {
    && |available| == |audible| == 2
    && available[0] == (n > 0 && Present(input, 0)) && available[1] == (n > 1 && Present(input, 1))
    && audible[0] == (n > 0 && Audible(input, flags, 0, frames))
    && audible[1] == (n > 1 && Audible(input, flags, 1, frames))
    && nonfinite == ((n > 0 && HasNonfinite(input, flags, 0, frames)) || (n > 1 && HasNonfinite(input, flags, 1, frames)))
  }

  method Inspect(input: Channels, flags: nat, frames: nat)
    returns (available: seq<bool>, audible: seq<bool>, nonfinite: bool)
    requires Fits(input, frames)
    ensures Inspected(input, flags, frames, Count(|input|), available, audible, nonfinite)
  {
    available, audible, nonfinite := [false, false], [false, false], false;
    for c := 0 to Count(|input|)
      invariant Inspected(input, flags, frames, c, available, audible, nonfinite)
    {
      var heard, odd := Scan(input, flags, c, frames);
      available, audible, nonfinite := available[c := input[c] != null], audible[c := heard], nonfinite || odd;
    }
  }

  method FindPeak(input: Channels, flags: nat, frames: nat, gains: (real, real)) returns (peak: real)
    requires Fits(input, frames)
    ensures peak >= 0.0 && IsPeak(input, flags, gains, frames, peak)
  {
    hide Mix;
    peak := 0.0;
    for f := 0 to frames
      invariant peak >= 0.0 && IsPeak(input, flags, gains, f, peak)
    {
      var mixed := Mix(input, flags, gains, f);
      if mixed > peak {
        peak := mixed;
      }
    }
  }

  function Processed(available: seq<bool>): nat
    requires |available| == 2
  {
    (if available[0] then 1 else 0) + if available[1] then 1 else 0
  }

  /** `analyze_detector_input`: None stands for a null list of channels. */
  method AnalyzeDetectorInput(input: Option<Channels>, frames: nat, flags: nat) returns (r: DryPathResult)
    requires input.Some? ==> Fits(input.value, frames)
    ensures input.None? ==> r == DryPathResult(false, 0, 0.0, 0.0, 0.0, 0)
    ensures input.Some? ==> Analysed(input.value, frames, flags, r)
    ensures input.Some? ==>
      r.silenceFlags == 0 && r.channelsProcessed == Processed([Present(input.value, 0), Present(input.value, 1)])
  {
    r := DryPathResult(false, 0, 0.0, 0.0, 0.0, 0);
    if input.None? {
      return;
    }
    var channels := input.value;
    var available, audible, nonfinite := Inspect(channels, flags, frames);
    BeyondCount(channels, flags, frames);
    var gains := Gains(Count(|channels|), available[0], available[1], audible[0], audible[1]);
    var peak := FindPeak(channels, flags, frames, gains);
    r := DryPathResult(nonfinite, Processed(available), peak, gains.0, gains.1, 0);
  }

  /** A channel the list does not have is neither audible nor odd. */
  lemma BeyondCount(input: Channels, flags: nat, frames: nat)
    requires Fits(input, frames)
    ensures |input| < 1 ==> !Present(input, 0) && !Audible(input, flags, 0, frames) && !HasNonfinite(input, flags, 0, frames)
    ensures |input| < 2 ==> !Present(input, 1) && !Audible(input, flags, 1, frames) && !HasNonfinite(input, flags, 1, frames)
  {
  }

  // ---------------------------------------------------------------- the copy

  predicate Available(input: Channels, output: Channels, c: nat) {
    Present(input, c) && Present(output, c)
  }

  /** The buffers that are written: the outputs of the first two channels that have both buffers. */
  function Targets(input: Channels, output: Channels): set<object> {
    set c | 0 <= c < 2 && Available(input, output, c) :: output[c] as object
  }

  predicate DistinctOutputs(output: Channels) {
    |output| >= 2 && output[0] != null ==> output[0] != output[1]
  }

  /** What a sample becomes. */
  function Dry(s: Sample, passthrough: bool, silent: bool): Sample {
    if passthrough && !silent then Sanitised(s) else SILENCE
  }

  /** The channel's sample as the copy reads it. */
  method ReadSample(input: Channels, flags: nat, c: nat, f: nat) returns (sample: Sample, nonfinite: bool)
    requires Present(input, c) && f < input[c].Length
    ensures sample == if Bit(flags, c) then SILENCE else Sanitised(input[c][f])
    ensures nonfinite <==> !Bit(flags, c) && !input[c][f].Finite?
  {
    var silent := Bit(flags, c);
    sample, nonfinite := if silent then SILENCE else input[c][f], false;
    if !sample.Finite? {
      sample, nonfinite := SILENCE, true;
    }
  }

  /** The samples of both channels at one frame. */
  method ReadFrame(input: Channels, output: Channels, flags: nat, f: nat) returns (samples: seq<Sample>, nonfinite: bool)
    requires Fits(input, f + 1)
    ensures |samples| == 2
    ensures forall c :: 0 <= c < 2 && Available(input, output, c) ==>
      samples[c] == if Bit(flags, c) then SILENCE else Sanitised(input[c][f])
    ensures nonfinite ==> exists c :: 0 <= c < 2 && Available(input, output, c) && Odd(input[c][f], flags, c)
  {
    samples, nonfinite := [SILENCE, SILENCE], false;
    for c := 0 to 2
      invariant |samples| == 2
      invariant forall k :: 0 <= k < c && Available(input, output, k) ==>
        samples[k] == if Bit(flags, k) then SILENCE else Sanitised(input[k][f])
      invariant nonfinite ==> exists k :: 0 <= k < c && Available(input, output, k) && Odd(input[k][f], flags, k)
    {
      if Available(input, output, c) {
        var sample, odd := ReadSample(input, flags, c, f);
        samples := samples[c := sample];
        if odd {
          assert Odd(input[c][f], flags, c);
          nonfinite := true;
        }
      }
    }
  }

  /** Only frame f may differ. */
  predicate SameBut(now: seq<Sample>, was: seq<Sample>, f: nat) {
    |now| == |was| && forall g :: 0 <= g < |now| && g != f ==> now[g] == was[g]
  }

  /** Writes one frame of both channels. */
  method WriteFrame(
    input: Channels, output: Channels, passthrough: bool, f: nat, samples: seq<Sample>, nonzero: seq<bool>)
    returns (nonzero': seq<bool>)
    requires Fits(output, f + 1) && DistinctOutputs(output) && |samples| == |nonzero| == 2
    modifies Targets(input, output)
    ensures Available(input, output, 0) ==> Contents(output, 0)[f] == if passthrough then samples[0] else SILENCE
    ensures Available(input, output, 1) ==> Contents(output, 1)[f] == if passthrough then samples[1] else SILENCE
    ensures SameBut(Contents(output, 0), old(Contents(output, 0)), f)
    ensures SameBut(Contents(output, 1), old(Contents(output, 1)), f)
    ensures SameBut(Contents(input, 0), old(Contents(input, 0)), f)
    ensures SameBut(Contents(input, 1), old(Contents(input, 1)), f)
    ensures |nonzero'| == 2
    ensures nonzero'[0] == (nonzero[0] || (Available(input, output, 0) && Contents(output, 0)[f] != SILENCE))
    ensures nonzero'[1] == (nonzero[1] || (Available(input, output, 1) && Contents(output, 1)[f] != SILENCE))
  {
    nonzero' := nonzero;
    for c := 0 to 2
      invariant |nonzero'| == 2
      invariant c > 0 && Available(input, output, 0) ==>
        Contents(output, 0)[f] == if passthrough then samples[0] else SILENCE
      invariant c > 1 && Available(input, output, 1) ==>
        Contents(output, 1)[f] == if passthrough then samples[1] else SILENCE
      invariant SameBut(Contents(output, 0), old(Contents(output, 0)), f)
      invariant SameBut(Contents(output, 1), old(Contents(output, 1)), f)
      invariant SameBut(Contents(input, 0), old(Contents(input, 0)), f)
      invariant SameBut(Contents(input, 1), old(Contents(input, 1)), f)
      invariant nonzero'[0] == (nonzero[0] || (c > 0 && Available(input, output, 0) && Contents(output, 0)[f] != SILENCE))
      invariant nonzero'[1] == (nonzero[1] || (c > 1 && Available(input, output, 1) && Contents(output, 1)[f] != SILENCE))
    {
      if Available(input, output, c) {
        output[c][f] := if passthrough then samples[c] else SILENCE;
        nonzero' := nonzero'[c := nonzero'[c] || (passthrough && samples[c] != SILENCE)];
      }
    }
  }

  /** One frame: both samples are read before either output is written. */
  method ProcessFrame(
    input: Channels, output: Channels, flags: nat, passthrough: bool, f: nat, nonzero: seq<bool>)
    returns (nonzero': seq<bool>, nonfinite: bool)
    requires Fits(input, f + 1) && Fits(output, f + 1) && DistinctOutputs(output) && |nonzero| == 2
    modifies Targets(input, output)
    ensures Available(input, output, 0) ==>
      Contents(output, 0)[f] == Dry(old(Contents(input, 0))[f], passthrough, Bit(flags, 0))
    ensures Available(input, output, 1) ==>
      Contents(output, 1)[f] == Dry(old(Contents(input, 1))[f], passthrough, Bit(flags, 1))
    ensures SameBut(Contents(output, 0), old(Contents(output, 0)), f)
    ensures SameBut(Contents(output, 1), old(Contents(output, 1)), f)
    ensures SameBut(Contents(input, 0), old(Contents(input, 0)), f)
    ensures SameBut(Contents(input, 1), old(Contents(input, 1)), f)
    ensures |nonzero'| == 2
    ensures nonzero'[0] == (nonzero[0] || (Available(input, output, 0) && Contents(output, 0)[f] != SILENCE))
    ensures nonzero'[1] == (nonzero[1] || (Available(input, output, 1) && Contents(output, 1)[f] != SILENCE))
    ensures nonfinite ==>
      || (Present(input, 0) && Odd(old(Contents(input, 0))[f], flags, 0))
      || (Present(input, 1) && Odd(old(Contents(input, 1))[f], flags, 1))
  {
    var samples, odd := ReadFrame(input, output, flags, f);
    nonfinite := odd;
    nonzero' := WriteFrame(input, output, passthrough, f, samples, nonzero);
  }

  predicate Odd(s: Sample, flags: nat, c: nat) {
    !Bit(flags, c) && !s.Finite?
  }

  method SilenceFlags(input: Channels, output: Channels, nonzero: seq<bool>) returns (flags: nat)
    requires |nonzero| == 2
    ensures forall c: nat :: Bit(flags, c) <==> c < 2 && Available(input, output, c) && !nonzero[c]
  {
    flags := 0;
    forall c: nat
      ensures !Bit(0, c)
    {
      ZeroHasNoBits(c);
    }
    for c := 0 to 2
      invariant forall k: nat :: Bit(flags, k) <==> k < c && Available(input, output, k) && !nonzero[k]
    {
      if Available(input, output, c) && !nonzero[c] {
        forall k: nat
          ensures Bit(SetBit(flags, c), k) <==> Bit(flags, k) || k == c
        {
          SetBitBits(flags, c, k);
        }
        flags := SetBit(flags, c);
      }
    }
  }

  function Given(channels: Option<Channels>): Channels {
    if channels.Some? then channels.value else []
  }

  /** The first n frames of a written output hold the sanitised former input. */
  predicate Holds(available: bool, output: seq<Sample>, input: seq<Sample>, passthrough: bool, silent: bool, n: nat) {
    available ==>
      n <= |output| && n <= |input| && forall f :: 0 <= f < n ==> output[f] == Dry(input[f], passthrough, silent)
  }

  /** A written sample is the former input where that is finite, heard and passed through, and zero anywhere else. */
  lemma CopyMeans(output: seq<Sample>, input: seq<Sample>, passthrough: bool, silent: bool, n: nat)
    requires n <= |output| && n <= |input|
    ensures Holds(true, output, input, passthrough, silent, n) <==>
      forall f :: 0 <= f < n ==>
        if passthrough && !silent && input[f].Finite? then output[f] == input[f] else output[f] == Finite(0.0)
  {
  }

  /** From frame n on nothing has changed. */
  predicate SameFrom(now: seq<Sample>, was: seq<Sample>, n: nat) {
    |now| == |was| && forall f :: n <= f < |now| ==> now[f] == was[f]
  }

  /** Whether the first n samples hold one that is not zero. */
  predicate Loud(samples: seq<Sample>, n: nat) {
    exists f :: 0 <= f < n && f < |samples| && samples[f] != SILENCE
  }

  lemma OneMoreFrame(
    available: bool, output: seq<Sample>, output': seq<Sample>, input: seq<Sample>, now: seq<Sample>,
    passthrough: bool, silent: bool, f: nat)
    requires Holds(available, output, input, passthrough, silent, f) && SameFrom(now, input, f) && SameBut(output', output, f)
    requires available ==>
      f < |output| && f < |now| && output'[f] == Dry(now[f], passthrough, silent)
    ensures Holds(available, output', input, passthrough, silent, f + 1)
    ensures available ==> (Loud(output', f + 1) <==> Loud(output, f) || output'[f] != SILENCE)
  {
    if available && Loud(output, f) {
      var g :| 0 <= g < f && g < |output| && output[g] != SILENCE;
      assert output'[g] != SILENCE;
    }
  }

  lemma OddWasThere(input: seq<Sample>, now: seq<Sample>, f: nat, n: nat)
    requires SameFrom(now, input, f) && f < n && f < |now| && !now[f].Finite?
    ensures SomeOdd(input, n)
  {
    assert !input[f].Finite?;
  }

  method CopyFrames(input: Channels, output: Channels, flags: nat, passthrough: bool, frames: nat)
    returns (nonzero: seq<bool>, nonfinite: bool)
    requires Fits(input, frames) && Fits(output, frames) && DistinctOutputs(output)
    modifies Targets(input, output)
    ensures Holds(Available(input, output, 0), Contents(output, 0), old(Contents(input, 0)), passthrough, Bit(flags, 0), frames)
    ensures Holds(Available(input, output, 1), Contents(output, 1), old(Contents(input, 1)), passthrough, Bit(flags, 1), frames)
    ensures SameFrom(Contents(output, 0), old(Contents(output, 0)), frames)
    ensures SameFrom(Contents(output, 1), old(Contents(output, 1)), frames)
    ensures |nonzero| == 2
    ensures Available(input, output, 0) ==> nonzero[0] == Loud(Contents(output, 0), frames)
    ensures Available(input, output, 1) ==> nonzero[1] == Loud(Contents(output, 1), frames)
    ensures nonfinite ==> old(HasNonfinite(input, flags, 0, frames)) || old(HasNonfinite(input, flags, 1, frames))
  {
    ghost var in0, in1 := Contents(input, 0), Contents(input, 1);
    ghost var out0, out1 := Contents(output, 0), Contents(output, 1);
    var available0, available1 := Available(input, output, 0), Available(input, output, 1);
    nonzero, nonfinite := [false, false], false;
    hide Dry, SomeOdd, Bit;
    for f := 0 to frames
      invariant Holds(available0, Contents(output, 0), in0, passthrough, Bit(flags, 0), f)
      invariant Holds(available1, Contents(output, 1), in1, passthrough, Bit(flags, 1), f)
      invariant SameFrom(Contents(output, 0), out0, f) && SameFrom(Contents(output, 1), out1, f)
      invariant SameFrom(Contents(input, 0), in0, f) && SameFrom(Contents(input, 1), in1, f)
      invariant |nonzero| == 2
      invariant available0 ==> nonzero[0] == Loud(Contents(output, 0), f)
      invariant available1 ==> nonzero[1] == Loud(Contents(output, 1), f)
      invariant nonfinite ==>
        || (Heard(input, flags, 0) && SomeOdd(in0, frames)) || (Heard(input, flags, 1) && SomeOdd(in1, frames))
    {
      ghost var now0, now1 := Contents(input, 0), Contents(input, 1);
      ghost var before0, before1 := Contents(output, 0), Contents(output, 1);
      var odd;
      nonzero, odd := ProcessFrame(input, output, flags, passthrough, f, nonzero);
      nonfinite := nonfinite || odd;
      OneMoreFrame(available0, before0, Contents(output, 0), in0, now0, passthrough, Bit(flags, 0), f);
      OneMoreFrame(available1, before1, Contents(output, 1), in1, now1, passthrough, Bit(flags, 1), f);
      if odd {
        if Present(input, 0) && Odd(now0[f], flags, 0) {
          OddWasThere(in0, now0, f, frames);
        } else {
          OddWasThere(in1, now1, f, frames);
        }
      }
    }
  }

  /** `process_dry_path`, for any sharing of buffers between input and output. */
  method ProcessDryPath(
    input: Option<Channels>, output: Option<Channels>, frames: nat, passthrough: bool, flags: nat)
    returns (r: DryPathResult)
    requires Fits(Given(input), frames) && Fits(Given(output), frames) && DistinctOutputs(Given(output))
    modifies Targets(Given(input), Given(output))
    ensures input.None? ==> r == DryPathResult(false, 0, 0.0, 0.0, 0.0, 0)
    ensures input.Some? ==> old(Analysed(input.value, frames, flags, r))
    ensures var ins, outs := Given(input), Given(output);
      && Holds(Available(ins, outs, 0), Contents(outs, 0), old(Contents(ins, 0)), passthrough, Bit(flags, 0), frames)
      && Holds(Available(ins, outs, 1), Contents(outs, 1), old(Contents(ins, 1)), passthrough, Bit(flags, 1), frames)
      && SameFrom(Contents(outs, 0), old(Contents(outs, 0)), frames)
      && SameFrom(Contents(outs, 1), old(Contents(outs, 1)), frames)
    ensures input.Some? && output.Some? ==>
      forall c: nat :: Bit(r.silenceFlags, c) <==>
        c < 2 && Available(input.value, output.value, c) && !Loud(Contents(output.value, c), frames)
    ensures input.Some? && output.Some? ==>
      r.channelsProcessed
        == Processed([Available(input.value, output.value, 0), Available(input.value, output.value, 1)])
  {
    r := AnalyzeDetectorInput(input, frames, flags);
    if input.None? || output.None? {
      return;
    }
    var nonzero, nonfinite := CopyFrames(input.value, output.value, flags, passthrough, frames);
    var silence := SilenceFlags(input.value, output.value, nonzero);
    r := r.(nonfiniteInput := r.nonfiniteInput || nonfinite,
            channelsProcessed :=
              Processed([Available(input.value, output.value, 0), Available(input.value, output.value, 1)]),
            silenceFlags := silence);
  }
}
