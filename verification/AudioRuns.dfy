/** The audio track over whole runs: what it answers, what the sink has got, and what the counters
    say of it. */
module AudioRuns {
  import opened Prelude
  import opened MediaFrames
  import opened Resample

  // ---------------------------------------------------------------- samples and bytes

  /** The low byte of a sample comes first, and both together are its two's complement. */
  lemma {:induction false} LowByteFirst(samples: seq<i16>, i: nat)
    requires i < |samples|
    ensures var b := BytesOf(samples);
            b[2 * i] as int + 256 * (b[2 * i + 1] as int) == samples[i] as int % 0x1_0000
    decreases i
  {
    if i == 0 {
    } else {
      LowByteFirst(samples[1..], i - 1);
      assert BytesOf(samples)[2..] == BytesOf(samples[1..]);
      assert BytesOf(samples)[2 * i] == BytesOf(samples)[2..][2 * (i - 1)];
      assert BytesOf(samples)[2 * i + 1] == BytesOf(samples)[2..][2 * (i - 1) + 1];
    }
  }

  // ---------------------------------------------------------------- answers

  /** A track is refused for no channels and for a rate of zero, as invalid; it passes blocks
      through exactly when the rates are equal, and otherwise goes from the source's rate to the
      device's. */
  lemma OpenAnswer(device: u32, source: u32, channels: nat)
    ensures var r := NewTrack(device, source, channels);
            && (channels == 0 || source == 0 || device == 0 ==> r == Err(InvalidFrame))
            && (channels > 0 && source > 0 && device > 0 ==>
                  && r.Ok? && r.value.channels == channels && r.value.log == [] && r.value.peak == 0
                  && (r.value.plan.Passthrough? <==> source == device)
                  && (source != device ==> r.value.plan.sourceRate == source && r.value.plan.deviceRate == device))
  {
    hide Gcd;
  }

  /** What a block is answered with: other frames are not supported, half a sample is invalid, and
      otherwise the answer is the sink's. Unless the sink takes it nothing is counted. */
  lemma BlockAnswer(t: Track, turn: Turn, expected: i64 -> int)
    requires t.plan.Valid()
    ensures var (u, r) := OnBlock(t, turn.frame, turn.sink, expected, turn.localMs);
            && r == (if turn.frame.kind != PcmBlock then Err(UnsupportedFeature)
                     else if |turn.frame.payload| % 2 == 1 then Err(InvalidFrame) else turn.sink)
            && (r.Err? ==> u.stats == t.stats && u.log == t.log && u.clock == t.clock)
  {
    hide Resampled, SamplesOf, BytesOf;
    assert turn.sink.Ok? ==> turn.sink.value == ();
  }

  // ---------------------------------------------------------------- runs

  /** A block of whole samples: it is converted, whatever the sink then says. */
  predicate IsConverted(f: MediaFrame) {
    f.kind.PcmBlock? && |f.payload| % 2 == 0
  }

  /** The payload a block is converted to. */
  function Output(t: Track, f: MediaFrame): Bytes
    requires t.plan.Valid() && IsConverted(f)
  {
    BytesOf(Resampled(t.plan, SamplesOf(f.payload), t.channels))
  }

  /** What the sink gets in a run: the blocks it takes, converted, and otherwise as they came. */
  function SinkFrames(t: Track, turns: seq<Turn>): seq<MediaFrame>
    requires t.plan.Valid()
  {
    if turns == [] then []
    else
      var last := turns[|turns| - 1];
      SinkFrames(t, turns[..|turns| - 1])
      + if Forwarded(last) then [last.frame.(payload := Output(t, last.frame))] else []
  }

  /** The bytes of the blocks the sink takes. */
  function BytesIn(turns: seq<Turn>): nat {
    if turns == [] then 0
    else
      var last := turns[|turns| - 1];
      BytesIn(turns[..|turns| - 1]) + if Forwarded(last) then |last.frame.payload| else 0
  }

  function TotalBytes(frames: seq<MediaFrame>): nat {
    if frames == [] then 0 else TotalBytes(frames[..|frames| - 1]) + |frames[|frames| - 1].payload|
  }

  /** The longest output there was, whether the sink took it or not. */
  function LongestOutput(t: Track, turns: seq<Turn>): nat
    requires t.plan.Valid()
  {
    if turns == [] then 0
    else
      var before, last := LongestOutput(t, turns[..|turns| - 1]), turns[|turns| - 1];
      if IsConverted(last.frame) then Max(before, |Output(t, last.frame)|) else before
  }

  /** The counters of a run, as what was forwarded explains them. */
  ghost predicate Counted(t: Track, u: Track, frames: seq<MediaFrame>, bytesIn: nat, longest: nat) {
    && u.plan == t.plan && u.channels == t.channels && u.log == frames
    && u.stats.blocks == |frames|
    && u.stats.resampledBlocks == (if t.plan.Passthrough? then 0 else |frames|)
    && 2 * u.stats.samplesIn == bytesIn
    && 2 * u.stats.samplesOut == u.stats.bytesOut == TotalBytes(frames)
    && u.peak == longest
  }

  lemma CountedNext(t: Track, u: Track, turn: Turn, expected: i64 -> int, frames: seq<MediaFrame>, bytesIn: nat,
      longest: nat)
    requires t.plan.Valid() && Counted(t, u, frames, bytesIn, longest)
    ensures var f := turn.frame;
            Counted(t, OnBlock(u, f, turn.sink, expected, turn.localMs).0,
              frames + (if Forwarded(turn) then [f.(payload := Output(t, f))] else []),
              bytesIn + (if Forwarded(turn) then |f.payload| else 0),
              if IsConverted(f) then Max(longest, |Output(t, f)|) else longest)
  {
    hide Resampled, SamplesOf, BytesOf, Observe;
    AppendNothing(frames);
    if Forwarded(turn) {
      Split(frames, [turn.frame.(payload := Output(t, turn.frame))]);
    }
  }

  /** In every run of a new track - refused blocks and sink errors mixed in - the sink has got the
      converted blocks it took, in order, and the counters are theirs: how many, how many of them
      resampled, samples in and out, bytes out. The peak is the longest output of all. */
  lemma {:induction false} CountersTellLog(t: Track, expected: i64 -> int, turns: seq<Turn>)
    requires t.plan.Valid() && t.stats == AudioStats(0, 0, 0, 0, 0) && t.peak == 0 && t.log == []
    ensures Counted(t, Play(t, expected, turns), SinkFrames(t, turns), BytesIn(turns), LongestOutput(t, turns))
    decreases |turns|
  {
    if turns == [] {
    } else {
      hide Counted, OnBlock, Output;
      var before, last := turns[..|turns| - 1], turns[|turns| - 1];
      CountersTellLog(t, expected, before);
      CountedNext(t, Play(t, expected, before), last, expected, SinkFrames(t, before), BytesIn(before),
        LongestOutput(t, before));
    }
  }
}
