/** The fixed-point resampler of interop-media/src/sinks.rs and its block-by-block use by the
    audio track of proto-airplay/src/audio.rs. */
module Resample {
  import opened Prelude
  import opened MediaFrames

  type i16 = x: int | -0x8000 <= x < 0x8000

  datatype Plan = Passthrough | Resampling(sourceRate: u32, deviceRate: u32, ratioNum: u32, ratioDen: u32) {
    /** What `PlanFor` builds: the rates are positive. */
    predicate Valid() {
      Resampling? ==> sourceRate > 0 && deviceRate > 0
    }
  }

  function Gcd(a: nat, b: nat): (g: nat)
    ensures a > 0 || b > 0 ==> g > 0
    decreases b
  {
    if b == 0 then a else Gcd(b, a % b)
  }

  function PlanFor(source: u32, device: u32): (r: Result<Plan>)
    ensures r.Ok? ==> r.value.Valid()
  {
    if source == 0 || device == 0 then Err(InvalidFrame)
    else if source == device then Ok(Passthrough)
    else
      var g := Gcd(source, device);
      QuotientInRange(source, g);
      QuotientInRange(device, g);
      Ok(Resampling(source, device, source / g, device / g))
  }

  lemma QuotientInRange(x: nat, d: nat)
    requires d > 0
    ensures 0 <= x / d <= x
  {
    ProductUpTo(1, d, x / d);
  }

  // ---------------------------------------------------------------- arithmetic

  lemma ProductUpTo(x: nat, y: nat, m: nat)
    requires x <= y
    ensures x * m <= y * m
  {
  }

  lemma QuotientFacts(x: nat, d: nat)
    requires d > 0
    ensures d * (x / d) + x % d == x && 0 <= x % d < d
  {
  }

  /** The quotient is the one number that fits. */
  lemma QuotientIs(x: nat, d: nat, q: nat)
    requires d > 0 && d * q <= x < d * q + d
    ensures x / d == q
  {
    QuotientFacts(x, d);
    if x / d < q {
      ProductUpTo(x / d + 1, q, d);
      assert false;
    } else if x / d > q {
      ProductUpTo(q + 1, x / d, d);
      assert false;
    }
  }

  predicate Divides(d: nat, n: nat) {
    d > 0 && n % d == 0
  }

  lemma MultipleDivides(d: nat, m: nat)
    requires d > 0
    ensures Divides(d, d * m)
  {
    QuotientIs(d * m, d, m);
    QuotientFacts(d * m, d);
  }

  lemma CombinationDivides(d: nat, x: nat, q: nat, y: nat)
    requires Divides(d, x) && Divides(d, y)
    ensures Divides(d, q * x + y)
  {
    QuotientFacts(x, d);
    QuotientFacts(y, d);
    var m := q * (x / d) + y / d;
    assert q * (d * (x / d)) == d * (q * (x / d));
    assert d * m == d * (q * (x / d)) + d * (y / d);
    MultipleDivides(d, m);
  }

  lemma FactorNotNegative(d: nat, m: int)
    requires d > 0 && d * m >= 0
    ensures m >= 0
  {
  }

  lemma DividendDivides(d: nat, a: nat, b: nat)
    requires b > 0 && Divides(d, b) && Divides(d, a % b)
    ensures Divides(d, a)
  {
    QuotientFacts(a, b);
    CombinationDivides(d, b, a / b, a % b);
    assert b * (a / b) == (a / b) * b;
  }

  lemma RemainderDivides(d: nat, a: nat, b: nat)
    requires Divides(d, a) && Divides(d, b) && b > 0
    ensures Divides(d, a % b)
  {
    QuotientFacts(a, b);
    QuotientFacts(a, d);
    QuotientFacts(b, d);
    var m := a / d - (a / b) * (b / d);
    assert (a / b) * (d * (b / d)) == d * ((a / b) * (b / d));
    assert a % b == d * m;
    FactorNotNegative(d, m);
    MultipleDivides(d, m);
  }

  /** The recursion computes a common divisor that every common divisor divides. */
  lemma {:induction false} GcdIsGreatest(a: nat, b: nat, d: nat)
    requires a > 0 || b > 0
    ensures Divides(Gcd(a, b), a) && Divides(Gcd(a, b), b)
    ensures Divides(d, a) && Divides(d, b) ==> Divides(d, Gcd(a, b))
    decreases b
  {
    hide Divides;
    if b > 0 {
      GcdIsGreatest(b, a % b, d);
      DividendDivides(Gcd(b, a % b), a, b);
      if Divides(d, a) && Divides(d, b) {
        RemainderDivides(d, a, b);
      }
    } else {
      MultipleDivides(a, 0);
      MultipleDivides(a, 1);
    }
  }

  lemma FactorLifts(g: nat, d: nat, x: nat)
    requires g > 0 && Divides(d, x)
    ensures Divides(g * d, g * x)
  {
    QuotientFacts(x, d);
    ProductUpTo(1, g, d);
    assert g * (d * (x / d)) == (g * d) * (x / d);
    MultipleDivides(g * d, x / d);
  }

  lemma NoSmallerMultiple(g: nat, d: nat)
    requires g > 0 && Divides(g * d, g)
    ensures d == 1
  {
    if d > 1 {
      ProductUpTo(2, d, g);
      QuotientIs(g, g * d, 0);
      QuotientFacts(g, g * d);
      assert false;
    }
  }

  lemma DividedBy(g: nat, x: nat)
    requires Divides(g, x)
    ensures g * (x / g) == x && (x > 0 ==> x / g > 0)
  {
    QuotientFacts(x, g);
  }

  /** The planned ratio is the ratio of the rates, in lowest terms. */
  lemma PlanIsLowestTerms(source: u32, device: u32, d: nat)
    requires source > 0 && device > 0 && source != device
    ensures var p := PlanFor(source, device).value;
            && p.Resampling?
            && p.ratioNum > 0 && p.ratioDen > 0
            && p.ratioNum * device == p.ratioDen * source
            && (Divides(d, p.ratioNum) && Divides(d, p.ratioDen) ==> d == 1)
  {
    hide Divides, Gcd;
    var g := Gcd(source, device);
    var num, den := source / g, device / g;
    GcdIsGreatest(source, device, d);
    DividedBy(g, source);
    DividedBy(g, device);
    assert num * (g * den) == den * (g * num);
    if Divides(d, num) && Divides(d, den) {
      FactorLifts(g, d, num);
      FactorLifts(g, d, den);
      GcdIsGreatest(source, device, g * d);
      NoSmallerMultiple(g, d);
    }
  }

  // ---------------------------------------------------------------- one block

  /** Division that truncates toward zero. */
  function TruncDiv(x: int, d: nat): int
    requires d > 0
  {
    if x >= 0 then x / d else -(-x / d)
  }

  function FramesOut(frames: nat, src: nat, dst: nat): (n: nat)
    requires src > 0
  {
    frames * dst / src
  }

  function Clamp(x: int): i16 {
    if x < -0x8000 then -0x8000 else if x > 0x7FFF then 0x7FFF else x
  }

  /** Two neighbouring samples and a position between them. */
  function Mixed(a: i16, b: i16, frac: nat, dst: nat): int
    requires dst > 0
  {
    a + TruncDiv((b - a) * frac, dst)
  }

  function Abs(x: int): nat {
    if x < 0 then -x else x
  }

  /** A truncated quotient of a numerator between zero and `y * d`. */
  lemma TruncDivBound(x: int, y: nat, d: nat)
    requires d > 0 && 0 <= x <= y * d
    ensures 0 <= TruncDiv(x, d) <= y && 0 <= x - d * TruncDiv(x, d) < d
  {
    QuotientFacts(x, d);
    if x / d > y {
      ProductUpTo(y + 1, x / d, d);
      assert false;
    }
  }

  lemma TruncDivOdd(x: int, d: nat)
    requires d > 0
    ensures TruncDiv(-x, d) == -TruncDiv(x, d)
  {
    QuotientIs(0, d, 0);
  }

  /** The mix lies between its neighbours and less than one unit from the exact
      interpolation, so the clamp to 16 bits never changes it. */
  lemma MixedLiesBetween(a: i16, b: i16, frac: nat, dst: nat)
    requires frac < dst
    ensures Min(a, b) <= Mixed(a, b, frac, dst) <= Max(a, b)
    ensures Clamp(Mixed(a, b, frac, dst)) == Mixed(a, b, frac, dst)
    ensures Abs(dst * Mixed(a, b, frac, dst) - ((dst - frac) * a + frac * b)) < dst
  {
    var x := (b - a) * frac;
    MixedSplits(a, b, frac, dst);
    hide TruncDiv;
    if b >= a {
      ProductUpTo(frac, dst, b - a);
      TruncDivBound(x, b - a, dst);
    } else {
      TruncDivOdd(x, dst);
      NegatedProduct(a, b, frac, dst);
      TruncDivBound(-x, a - b, dst);
    }
  }

  lemma MixedSplits(a: int, b: int, frac: nat, dst: nat)
    requires dst > 0
    ensures (dst - frac) * a + frac * b == dst * a + (b - a) * frac
    ensures dst * (a + TruncDiv((b - a) * frac, dst)) == dst * a + dst * TruncDiv((b - a) * frac, dst)
  {
    hide TruncDiv;
  }

  lemma NegatedProduct(a: int, b: int, frac: nat, dst: nat)
    requires b < a && frac < dst
    ensures 0 <= -((b - a) * frac) <= (a - b) * dst
    ensures dst * -TruncDiv((b - a) * frac, dst) == -(dst * TruncDiv((b - a) * frac, dst))
  {
    hide TruncDiv;
    assert -((b - a) * frac) == (a - b) * frac;
    ProductUpTo(frac, dst, a - b);
  }

  /** An output frame starts inside the input. */
  lemma SourceInRange(f: nat, frames: nat, src: nat, dst: nat)
    requires src > 0 && dst > 0 && f < FramesOut(frames, src, dst)
    ensures f * src / dst < frames
  {
    QuotientFacts(frames * dst, src);
    ProductUpTo(f + 1, FramesOut(frames, src, dst), src);
    assert (f + 1) * src == f * src + src;
    QuotientFacts(f * src, dst);
    if f * src / dst >= frames {
      ProductUpTo(frames, f * src / dst, dst);
      assert false;
    }
  }

  lemma FlatIndex(i: nat, frames: nat, channels: nat, c: nat, len: nat)
    requires i < frames && c < channels && frames == len / channels
    ensures i * channels + c < frames * channels <= len
  {
    QuotientFacts(len, channels);
    ProductUpTo(i + 1, frames, channels);
  }

  /** The source position of output frame `f` in fixed point: the frame it falls into and the
      next one, both kept below the number of frames, and the remainder. */
  function Position(f: nat, src: nat, dst: nat, frames: nat): (p: (nat, nat, nat))
    requires dst > 0 && frames > 0
    ensures p.0 < frames && p.1 < frames
  {
    var posNum := f * src;
    var idx := Min(posNum / dst, frames - 1);
    (idx, Min(idx + 1, frames - 1), posNum % dst)
  }

  /** The sample of channel `c` in output frame `f`. */
  function Sample(input: seq<i16>, channels: nat, src: nat, dst: nat, f: nat, c: nat): (s: i16)
    requires src > 0 && dst > 0 && c < channels && |input| / channels > 0
  {
    var frames := |input| / channels;
    var (idx, next, frac) := Position(f, src, dst, frames);
    FlatIndex(idx, frames, channels, c, |input|);
    FlatIndex(next, frames, channels, c, |input|);
    Clamp(Mixed(input[idx * channels + c], input[next * channels + c], frac, dst))
  }

  /** The first `c` channels of an output frame. */
  function FrameTo(input: seq<i16>, channels: nat, src: nat, dst: nat, f: nat, c: nat): (s: seq<i16>)
    requires src > 0 && dst > 0 && c <= channels && channels > 0 && |input| / channels > 0
    ensures |s| == c
  {
    if c == 0 then [] else FrameTo(input, channels, src, dst, f, c - 1) + [Sample(input, channels, src, dst, f, c - 1)]
  }

  function FramesTo(input: seq<i16>, channels: nat, src: nat, dst: nat, f: nat): (s: seq<i16>)
    requires src > 0 && dst > 0 && channels > 0 && |input| / channels > 0
    ensures |s| == f * channels
  {
    if f == 0 then []
    else
      assert f * channels == (f - 1) * channels + channels;
      FramesTo(input, channels, src, dst, f - 1) + FrameTo(input, channels, src, dst, f - 1, channels)
  }

  function Resampled(plan: Plan, input: seq<i16>, channels: nat): (out: seq<i16>)
    requires plan.Valid()
  {
    var ch := Max(channels, 1);
    match plan
    case Passthrough => input
    case Resampling(src, dst, _, _) =>
      if |input| / ch == 0 then []
      else FramesTo(input, ch, src, dst, FramesOut(|input| / ch, src, dst))
  }

  lemma FlatLength(f: nat, channels: nat)
    ensures (f + 1) * channels == f * channels + channels
  {
  }

  /** Fills the output frame by frame and channel by channel. */
  method ApplyS16le(plan: Plan, input: seq<i16>, channels: nat) returns (out: array<i16>)
    requires plan.Valid()
    ensures fresh(out) && out[..] == Resampled(plan, input, channels)
  {
    hide FramesTo, FramesOut;
    var ch := Max(channels, 1);
    if plan.Passthrough? {
      out := new i16[|input|](i requires 0 <= i < |input| => input[i]);
      return;
    }
    var src, dst := plan.sourceRate, plan.deviceRate;
    var framesIn := |input| / ch;
    if framesIn == 0 {
      out := new i16[0];
      return;
    }
    var framesOut := FramesOut(framesIn, src, dst);
    out := new i16[framesOut * ch](_ => 0);
    FillFrames(out, input, ch, src, dst, framesOut);
  }

  method FillFrames(out: array<i16>, input: seq<i16>, channels: nat, src: nat, dst: nat, framesOut: nat)
    requires src > 0 && dst > 0 && channels > 0 && |input| / channels > 0 && out.Length == framesOut * channels
    modifies out
    ensures out[..] == FramesTo(input, channels, src, dst, framesOut)
  {
    hide FrameTo;
    var f := 0;
    while f < framesOut
      invariant f <= framesOut && f * channels <= framesOut * channels
      invariant out[..f * channels] == FramesTo(input, channels, src, dst, f)
    {
      ProductUpTo(f + 1, framesOut, channels);
      FlatLength(f, channels);
      FillFrame(out, input, channels, src, dst, f, f * channels);
      f := f + 1;
    }
    assert out[..] == out[..f * channels];
  }

  /** The inner loop: one output frame, sample by sample, with the index arithmetic and
      the clamps of the code. */
  method FillFrame(out: array<i16>, input: seq<i16>, channels: nat, src: nat, dst: nat, f: nat, base: nat)
    requires src > 0 && dst > 0 && channels > 0 && |input| / channels > 0
    requires base + channels <= out.Length
    modifies out
    ensures out[..base + channels] == old(out[..base]) + FrameTo(input, channels, src, dst, f, channels)
  {
    hide Sample, FrameTo, Position;
    var position := Position(f, src, dst, |input| / channels);
    var c := 0;
    FrameToNone(input, channels, src, dst, f);
    AppendNothing(out[..base]);
    while c < channels
      invariant c <= channels
      invariant out[..base + c] == old(out[..base]) + FrameTo(input, channels, src, dst, f, c)
    {
      ghost var done := FrameTo(input, channels, src, dst, f, c);
      var mixed := MixAt(input, channels, src, dst, f, c, position);
      FrameToNext(input, channels, src, dst, f, c);
      Store(out, base + c, Clamp(mixed));
      Assoc(old(out[..base]), done, [Sample(input, channels, src, dst, f, c)]);
      c := c + 1;
    }
  }

  /** Two neighbouring input samples of one channel, mixed. */
  method MixAt(input: seq<i16>, channels: nat, src: nat, dst: nat, f: nat, c: nat, at: (nat, nat, nat))
    returns (mixed: int)
    requires src > 0 && dst > 0 && c < channels && |input| / channels > 0
    requires at == Position(f, src, dst, |input| / channels)
    ensures Clamp(mixed) == Sample(input, channels, src, dst, f, c)
  {
    hide Mixed, Clamp, Position;
    var (idx, next, frac) := at;
    FlatIndex(idx, |input| / channels, channels, c, |input|);
    FlatIndex(next, |input| / channels, channels, c, |input|);
    mixed := Mixed(input[idx * channels + c], input[next * channels + c], frac, dst);
  }

  lemma FrameToNone(input: seq<i16>, channels: nat, src: nat, dst: nat, f: nat)
    requires src > 0 && dst > 0 && channels > 0 && |input| / channels > 0
    ensures FrameTo(input, channels, src, dst, f, 0) == []
  {
  }

  lemma FrameToNext(input: seq<i16>, channels: nat, src: nat, dst: nat, f: nat, c: nat)
    requires src > 0 && dst > 0 && c < channels && |input| / channels > 0
    ensures FrameTo(input, channels, src, dst, f, c + 1)
            == FrameTo(input, channels, src, dst, f, c) + [Sample(input, channels, src, dst, f, c)]
  {
    hide Sample;
  }

  method Store(out: array<i16>, at: nat, value: i16)
    requires at < out.Length
    modifies out
    ensures out[..at + 1] == old(out[..at]) + [value]
  {
    out[at] := value;
  }

  // ---------------------------------------------------------------- what a block becomes

  lemma {:induction false} FrameToAt(input: seq<i16>, channels: nat, src: nat, dst: nat, f: nat, n: nat, c: nat)
    requires src > 0 && dst > 0 && c < n <= channels && |input| / channels > 0
    ensures FrameTo(input, channels, src, dst, f, n)[c] == Sample(input, channels, src, dst, f, c)
    decreases n
  {
    if c >= n - 1 {
    } else {
      FrameToAt(input, channels, src, dst, f, n - 1, c);
    }
  }

  lemma {:induction false} FramesToAt(input: seq<i16>, channels: nat, src: nat, dst: nat, n: nat, f: nat, c: nat)
    requires src > 0 && dst > 0 && c < channels && |input| / channels > 0 && f < n
    ensures f * channels + c < n * channels
    ensures FramesTo(input, channels, src, dst, n)[f * channels + c] == Sample(input, channels, src, dst, f, c)
    decreases n
  {
    FlatLength(n - 1, channels);
    if f < n - 1 {
      FramesToAt(input, channels, src, dst, n - 1, f, c);
    } else {
      FrameToAt(input, channels, src, dst, f, channels, c);
    }
  }

  lemma ResampledLength(plan: Plan, input: seq<i16>, channels: nat)
    requires plan.Resampling? && plan.Valid() && channels > 0
    ensures |Resampled(plan, input, channels)|
            == FramesOut(|input| / channels, plan.sourceRate, plan.deviceRate) * channels
  {
    if |input| / channels == 0 {
      QuotientIs(0, plan.sourceRate, 0);
    }
  }

  /** The frame an output frame starts in, and the one after it if there is one. */
  function Neighbours(f: nat, src: nat, dst: nat, frames: nat): (n: (nat, nat))
    requires dst > 0
  {
    var idx := f * src / dst;
    (idx, if idx + 1 < frames then idx + 1 else idx)
  }

  /** The sample lies between its two neighbours, and within one unit of the point the exact
      interpolation has there. */
  ghost predicate Interpolates(s: int, a: int, b: int, frac: nat, dst: nat) {
    Min(a, b) <= s <= Max(a, b) && Abs(dst * s - ((dst - frac) * a + frac * b)) < dst
  }

  lemma SampleInterpolates(input: seq<i16>, channels: nat, src: nat, dst: nat, f: nat, c: nat)
    requires src > 0 && dst > 0 && c < channels && |input| / channels > 0 && f * src / dst < |input| / channels
    ensures var (idx, next) := Neighbours(f, src, dst, |input| / channels);
            && 0 <= idx * channels + c < |input| && 0 <= next * channels + c < |input|
            && Interpolates(Sample(input, channels, src, dst, f, c),
                            input[idx * channels + c], input[next * channels + c], f * src % dst, dst)
  {
    hide Mixed, Clamp;
    var n := |input| / channels;
    var (idx, next) := Neighbours(f, src, dst, n);
    FlatIndex(idx, n, channels, c, |input|);
    FlatIndex(next, n, channels, c, |input|);
    MixedLiesBetween(input[idx * channels + c], input[next * channels + c], f * src % dst, dst);
  }

  /** Duration and content: the output has floor(frames * device / source) frames; every
      output sample comes from the frame its exact position falls into - the index clamp
      never acts - and from the one after it. */
  lemma EverySampleInterpolates(plan: Plan, input: seq<i16>, channels: nat, f: nat, c: nat)
    requires plan.Resampling? && plan.Valid() && c < channels
    requires f < FramesOut(|input| / channels, plan.sourceRate, plan.deviceRate)
    ensures var (src, dst, n) := (plan.sourceRate, plan.deviceRate, |input| / channels);
            var (idx, next) := Neighbours(f, src, dst, n);
            && idx < n
            && |Resampled(plan, input, channels)| == FramesOut(n, src, dst) * channels
            && f * channels + c < FramesOut(n, src, dst) * channels
            && 0 <= idx * channels + c < |input| && 0 <= next * channels + c < |input|
            && Interpolates(Resampled(plan, input, channels)[f * channels + c],
                            input[idx * channels + c], input[next * channels + c], f * src % dst, dst)
  {
    hide Sample, FramesTo, FramesOut, Interpolates;
    var (src, dst, n) := (plan.sourceRate, plan.deviceRate, |input| / channels);
    ResampledLength(plan, input, channels);
    SourceInRange(f, n, src, dst);
    FramesToAt(input, channels, src, dst, FramesOut(n, src, dst), f, c);
    SampleInterpolates(input, channels, src, dst, f, c);
  }

  // ---------------------------------------------------------------- PCM bytes

  /** Pairs of bytes, least significant first, as signed samples. */
  function SamplesOf(payload: Bytes): (s: seq<i16>)
    requires |payload| % 2 == 0
    ensures 2 * |s| == |payload|
  {
    if payload == [] then []
    else
      var v := payload[0] as int + 256 * (payload[1] as int);
      [if v >= 0x8000 then v - 0x1_0000 else v] + SamplesOf(payload[2..])
  }

  function BytesOf(samples: seq<i16>): (b: Bytes)
    ensures |b| == 2 * |samples|
  {
    if samples == [] then []
    else
      var v := if samples[0] < 0 then samples[0] as int + 0x1_0000 else samples[0] as int;
      [v % 256, v / 256] + BytesOf(samples[1..])
  }

  /** The two conversions are inverse to each other. */
  lemma {:induction false} PcmRoundTrip(samples: seq<i16>)
    ensures SamplesOf(BytesOf(samples)) == samples
  {
    if samples == [] {
    } else {
      PcmRoundTrip(samples[1..]);
      assert BytesOf(samples)[2..] == BytesOf(samples[1..]);
      HeadTail(samples);
    }
  }

  lemma {:induction false} PcmRoundTripBytes(payload: Bytes)
    requires |payload| % 2 == 0
    ensures BytesOf(SamplesOf(payload)) == payload
    decreases |payload|
  {
    if payload == [] {
    } else {
      PcmRoundTripBytes(payload[2..]);
      var s := SamplesOf(payload);
      assert s[1..] == SamplesOf(payload[2..]);
      assert [payload[0], payload[1]] + payload[2..] == payload;
    }
  }

  // ---------------------------------------------------------------- the audio track

  datatype AudioStats = AudioStats(blocks: nat, resampledBlocks: nat, samplesIn: nat, samplesOut: nat, bytesOut: nat)

  /** The drift observed in this generation of the clock. */
  datatype Clock = Clock(samples: nat, sumDrift: int, maxAbsDrift: nat)

  const NEW_CLOCK: Clock := Clock(0, 0, 0)

  /** `expected` maps a time stamp to local time; what carries none is not observed. */
  function Observe(c: Clock, expected: i64 -> int, pts: Option<i64>, localMs: nat): Clock {
    if pts.None? then c
    else
      var drift := localMs - expected(pts.value);
      Clock(c.samples + 1, c.sumDrift + drift, Max(c.maxAbsDrift, Abs(drift)))
  }

  /** `log` is what the sink accepted. */
  datatype Track = Track(plan: Plan, channels: nat, stats: AudioStats, peak: nat, clock: Clock, log: seq<MediaFrame>)

  function NewTrack(device: u32, source: u32, channels: nat): (r: Result<Track>)
    ensures r.Ok? ==> r.value.plan.Valid() && r.value.channels > 0
  {
    if channels == 0 then Err(InvalidFrame)
    else
      var plan :- PlanFor(source, device);
      Ok(Track(plan, channels, AudioStats(0, 0, 0, 0, 0), 0, NEW_CLOCK, []))
  }

  /** The frame the sink gets for a block. */
  function Converted(t: Track, f: MediaFrame): MediaFrame
    requires t.plan.Valid() && |f.payload| % 2 == 0
  {
    f.(payload := BytesOf(Resampled(t.plan, SamplesOf(f.payload), t.channels)))
  }

  /** `sink` is the answer of the sink, should it be asked. */
  function OnBlock(t: Track, f: MediaFrame, sink: Result<()>, expected: i64 -> int, localMs: nat):
    (r: (Track, Result<()>))
    requires t.plan.Valid()
    ensures r.0.plan == t.plan && r.0.channels == t.channels
  {
    if !f.kind.PcmBlock? then (t, Err(UnsupportedFeature))
    else if |f.payload| % 2 != 0 then (t, Err(InvalidFrame))
    else
      var samples := SamplesOf(f.payload);
      var out := Resampled(t.plan, samples, t.channels);
      var t' := t.(peak := Max(t.peak, |out| * 2));
      if sink.Err? then (t', sink)
      else
        var stats := AudioStats(
          t.stats.blocks + 1, t.stats.resampledBlocks + (if t.plan.Passthrough? then 0 else 1),
          t.stats.samplesIn + |samples|, t.stats.samplesOut + |out|, t.stats.bytesOut + |out| * 2);
        (t'.(stats := stats, log := t.log + [Converted(t, f)],
             clock := Observe(t.clock, expected, f.PtsIfPresent(), localMs)), Ok(()))
  }

  class AudioTrack {
    var plan: Plan
    var channels: nat
    var stats: AudioStats
    var peakResampleBytes: nat
    /** How a time stamp of this generation maps to local time. */
    const expected: i64 -> int
    var clock: Clock
    /** What the sink accepted. */
    ghost var log: seq<MediaFrame>

    ghost function Model(): Track
      reads this
    {
      Track(plan, channels, stats, peakResampleBytes, clock, log)
    }

    constructor (plan: Plan, channels: nat, expected: i64 -> int)
      requires plan.Valid() && channels > 0
      ensures Model() == Track(plan, channels, AudioStats(0, 0, 0, 0, 0), 0, NEW_CLOCK, []) && this.expected == expected
    {
      this.plan, this.channels, stats := plan, channels, AudioStats(0, 0, 0, 0, 0);
      peakResampleBytes, log := 0, [];
      this.expected, clock := expected, NEW_CLOCK;
    }

    /** Refuses before anything is built when the channels or the rates make no sense. */
    static method Open(deviceRate: u32, sourceRate: u32, channels: nat, expected: i64 -> int)
      returns (r: Result<AudioTrack>)
      ensures var made := NewTrack(deviceRate, sourceRate, channels);
              && (r.Err? <==> made.Err?)
              && (r.Err? ==> r.code == made.code)
              && (r.Ok? ==> fresh(r.value) && r.value.Model() == made.value && r.value.expected == expected)
    {
      hide Gcd;
      if channels == 0 {
        return Err(InvalidFrame);
      }
      var plan := PlanFor(sourceRate, deviceRate);
      if plan.Err? {
        return Err(plan.code);
      }
      var track := new AudioTrack(plan.value, channels, expected);
      return Ok(track);
    }

    method Block(frame: MediaFrame, localMs: nat, sink: Result<()>) returns (r: Result<()>)
      requires plan.Valid()
      modifies this
      ensures (Model(), r) == OnBlock(old(Model()), frame, sink, expected, localMs)
    {
      hide Resampled, SamplesOf, BytesOf;
      if !frame.kind.PcmBlock? {
        return Err(UnsupportedFeature);
      }
      if |frame.payload| % 2 != 0 {
        return Err(InvalidFrame);
      }
      var samples := SamplesOf(frame.payload);
      var out := ApplyS16le(plan, samples, channels);
      peakResampleBytes := Max(peakResampleBytes, out.Length * 2);
      var forwarded := frame.(payload := BytesOf(out[..]));
      if sink.Err? {
        return sink;
      }
      log := log + [forwarded];
      stats := stats.(blocks := stats.blocks + 1);
      if !plan.Passthrough? {
        stats := stats.(resampledBlocks := stats.resampledBlocks + 1);
      }
      stats := stats.(samplesIn := stats.samplesIn + |samples|,
                      samplesOut := stats.samplesOut + out.Length,
                      bytesOut := stats.bytesOut + out.Length * 2);
      clock := Observe(clock, expected, frame.PtsIfPresent(), localMs);
      return Ok(());
    }
  }

  /** At equal rates a block reaches the sink byte for byte. */
  lemma PassthroughForwardsUnchanged(t: Track, f: MediaFrame)
    requires t.plan.Passthrough? && |f.payload| % 2 == 0
    ensures Converted(t, f) == f
  {
    PcmRoundTripBytes(f.payload);
  }

  // ---------------------------------------------------------------- whole runs of blocks

  datatype Turn = Turn(frame: MediaFrame, sink: Result<()>, localMs: nat)

  /** A block of whole frames, when it is one the track takes. */
  predicate WholeFrames(channels: nat, f: MediaFrame)
    requires channels > 0
  {
    f.kind.PcmBlock? && |f.payload| % 2 == 0 ==> |f.payload| / 2 % channels == 0
  }

  function Play(t: Track, expected: i64 -> int, turns: seq<Turn>): (r: Track)
    requires t.plan.Valid()
    ensures r.plan == t.plan && r.channels == t.channels
  {
    if turns == [] then t
    else
      var turn := turns[|turns| - 1];
      OnBlock(Play(t, expected, turns[..|turns| - 1]), turn.frame, turn.sink, expected, turn.localMs).0
  }

  /** Frames taken in and given out, and what rounding each block down has cost so far. */
  ghost predicate Account(t: Track, framesIn: nat, framesOut: nat)
    requires t.plan.Resampling?
  {
    && t.stats.samplesIn == framesIn * t.channels
    && t.stats.samplesOut == framesOut * t.channels
    && (t.stats.blocks == 0 ==> framesIn == framesOut == 0)
    && framesOut * t.plan.sourceRate <= framesIn * t.plan.deviceRate
    && framesIn * t.plan.deviceRate <= framesOut * t.plan.sourceRate + t.stats.blocks * (t.plan.sourceRate - 1)
  }

  /** The cost of one block: less than one output frame. */
  lemma BlockCost(n: nat, src: nat, dst: nat)
    requires src > 0
    ensures FramesOut(n, src, dst) * src <= n * dst <= FramesOut(n, src, dst) * src + (src - 1)
  {
    QuotientFacts(n * dst, src);
  }

  lemma Sum(a: nat, b: nat, m: nat)
    ensures (a + b) * m == a * m + b * m
  {
  }

  lemma AccountStep(t: Track, t': Track, framesIn: nat, framesOut: nat, n: nat)
    requires t.plan.Resampling? && t.plan.Valid() && t'.plan == t.plan && t'.channels == t.channels
    requires Account(t, framesIn, framesOut)
    requires t'.stats.samplesIn == t.stats.samplesIn + n * t.channels
    requires t'.stats.samplesOut == t.stats.samplesOut + FramesOut(n, t.plan.sourceRate, t.plan.deviceRate) * t.channels
    requires t'.stats.blocks == t.stats.blocks + 1
    ensures Account(t', framesIn + n, framesOut + FramesOut(n, t.plan.sourceRate, t.plan.deviceRate))
  {
    var src, dst := t.plan.sourceRate, t.plan.deviceRate;
    var m := FramesOut(n, src, dst);
    BlockCost(n, src, dst);
    Sum(framesIn, n, t.channels); Sum(framesOut, m, t.channels);
    Sum(framesIn, n, dst); Sum(framesOut, m, src);
    Sum(t.stats.blocks, 1, src - 1);
  }

  lemma {:induction false} RunAccount(t: Track, expected: i64 -> int, turns: seq<Turn>)
    returns (framesIn: nat, framesOut: nat)
    requires t.plan.Resampling? && t.plan.Valid() && t.channels > 0 && t.stats == AudioStats(0, 0, 0, 0, 0)
    requires forall i :: 0 <= i < |turns| ==> WholeFrames(t.channels, turns[i].frame)
    ensures Account(Play(t, expected, turns), framesIn, framesOut)
    decreases |turns|
  {
    if turns == [] {
      framesIn, framesOut := 0, 0;
    } else {
      var before, last := turns[..|turns| - 1], turns[|turns| - 1];
      framesIn, framesOut := RunAccount(t, expected, before);
      hide Account, OnBlock, WholeFrames;
      assert WholeFrames(t.channels, last.frame);
      framesIn, framesOut := TurnAccount(Play(t, expected, before), expected, last, framesIn, framesOut);
    }
  }

  lemma TurnAccount(t: Track, expected: i64 -> int, turn: Turn, framesIn: nat, framesOut: nat)
    returns (framesIn': nat, framesOut': nat)
    requires t.plan.Resampling? && t.plan.Valid() && t.channels > 0 && Account(t, framesIn, framesOut)
    requires WholeFrames(t.channels, turn.frame)
    ensures Account(OnBlock(t, turn.frame, turn.sink, expected, turn.localMs).0, framesIn', framesOut')
  {
    hide Account, Resampled, SamplesOf, BytesOf, FramesOut;
    var t' := OnBlock(t, turn.frame, turn.sink, expected, turn.localMs).0;
    if turn.frame.kind.PcmBlock? && |turn.frame.payload| % 2 == 0 && turn.sink.Ok? {
      var samples := SamplesOf(turn.frame.payload);
      var n := |samples| / t.channels;
      ResampledLength(t.plan, samples, t.channels);
      QuotientFacts(|samples|, t.channels);
      AccountStep(t, t', framesIn, framesOut, n);
      framesIn', framesOut' := framesIn + n, framesOut + FramesOut(n, t.plan.sourceRate, t.plan.deviceRate);
    } else {
      AccountUnmoved(t, t', framesIn, framesOut);
      framesIn', framesOut' := framesIn, framesOut;
    }
  }

  lemma AccountUnmoved(t: Track, t': Track, framesIn: nat, framesOut: nat)
    requires t.plan.Resampling? && t'.plan == t.plan && t'.channels == t.channels && t'.stats == t.stats
    requires Account(t, framesIn, framesOut)
    ensures Account(t', framesIn, framesOut)
  {
  }

  /** Time is kept over whole runs: however refused blocks and sink errors mix in, k accepted
      blocks of whole frames come out zero to k - 1 frames shorter than resampling all of
      them at once would make them, and never longer. */
  lemma RunFallsShort(t: Track, expected: i64 -> int, turns: seq<Turn>)
    requires t.plan.Resampling? && t.plan.Valid() && t.channels > 0 && t.stats == AudioStats(0, 0, 0, 0, 0)
    requires forall i :: 0 <= i < |turns| ==> WholeFrames(t.channels, turns[i].frame)
    ensures FallsShort(Play(t, expected, turns))
  {
    var framesIn, framesOut := RunAccount(t, expected, turns);
    hide Play, Account, FallsShort;
    AccountFallsShort(Play(t, expected, turns), framesIn, framesOut);
  }

  /** What came out against resampling everything at once: `k` blocks fall short by at most
      `k - 1` frames and never go over. */
  ghost predicate FallsShort(t: Track)
    requires t.plan.Resampling? && t.plan.Valid() && t.channels > 0
  {
    var atOnce := FramesOut(t.stats.samplesIn / t.channels, t.plan.sourceRate, t.plan.deviceRate);
    && t.stats.samplesIn % t.channels == 0 && t.stats.samplesOut % t.channels == 0
    && t.stats.samplesOut / t.channels <= atOnce
    && (t.stats.blocks > 0 ==> atOnce - t.stats.samplesOut / t.channels <= t.stats.blocks - 1)
    && (t.stats.blocks == 0 ==> atOnce == 0)
  }

  lemma NothingFromNothing(src: nat, dst: nat)
    requires src > 0
    ensures FramesOut(0, src, dst) == 0
  {
    QuotientIs(0, src, 0);
  }

  lemma AccountFallsShort(t: Track, framesIn: nat, framesOut: nat)
    requires t.plan.Resampling? && t.plan.Valid() && t.channels > 0 && Account(t, framesIn, framesOut)
    ensures FallsShort(t)
  {
    ExactQuotient(framesIn, t.channels);
    ExactQuotient(framesOut, t.channels);
    hide FramesOut;
    ShortBy(framesIn, framesOut, t.stats.blocks, t.plan.sourceRate, t.plan.deviceRate);
    NothingFromNothing(t.plan.sourceRate, t.plan.deviceRate);
  }

  function Stamped(frames: seq<MediaFrame>): nat {
    if frames == [] then 0
    else Stamped(frames[..|frames| - 1]) + if frames[|frames| - 1].PtsIfPresent().Some? then 1 else 0
  }

  /** A block the track takes and the sink accepts. */
  predicate Forwarded(turn: Turn) {
    turn.frame.kind.PcmBlock? && |turn.frame.payload| % 2 == 0 && turn.sink.Ok?
  }

  /** How late the forwarded blocks that carry a time stamp came, in order. */
  function Drifts(expected: i64 -> int, turns: seq<Turn>): seq<int> {
    if turns == [] then []
    else
      var before, last := Drifts(expected, turns[..|turns| - 1]), turns[|turns| - 1];
      if Forwarded(last) && last.frame.PtsIfPresent().Some?
      then before + [last.localMs - expected(last.frame.PtsIfPresent().value)] else before
  }

  function Total(xs: seq<int>): int {
    if xs == [] then 0 else Total(xs[..|xs| - 1]) + xs[|xs| - 1]
  }

  /** No drift is larger either way than `m`, and one is that large unless there is none. */
  ghost predicate IsLargest(xs: seq<int>, m: nat) {
    && (forall i :: 0 <= i < |xs| ==> Abs(xs[i]) <= m)
    && if xs == [] then m == 0 else exists i :: 0 <= i < |xs| && Abs(xs[i]) == m
  }

  lemma OneMoreDrift(xs: seq<int>, x: int, m: nat)
    requires IsLargest(xs, m)
    ensures Total(xs + [x]) == Total(xs) + x && IsLargest(xs + [x], Max(m, Abs(x)))
  {
    var all := xs + [x];
    assert all[..|xs|] == xs && all[|xs|] == x;
    assert forall i :: 0 <= i < |xs| ==> all[i] == xs[i];
    if Abs(x) < m {
      var i :| 0 <= i < |xs| && Abs(xs[i]) == m;
      assert Abs(all[i]) == m;
    } else {
      assert Abs(all[|xs|]) == Max(m, Abs(x));
    }
  }

  /** The clock has seen the blocks that were forwarded with a time stamp and no others: their
      number, the sum of their drifts and the largest of them. */
  lemma {:induction false} ClockTellsForwarded(t: Track, expected: i64 -> int, turns: seq<Turn>)
    requires t.plan.Valid() && t.clock == NEW_CLOCK && t.log == []
    ensures var (u, drifts) := (Play(t, expected, turns), Drifts(expected, turns));
            && u.clock.samples == |drifts| == Stamped(u.log)
            && u.clock.sumDrift == Total(drifts) && IsLargest(drifts, u.clock.maxAbsDrift)
    decreases |turns|
  {
    hide Resampled, SamplesOf, BytesOf, IsLargest;
    if turns == [] {
      NoDrifts();
    } else {
      var before, last := turns[..|turns| - 1], turns[|turns| - 1];
      ClockTellsForwarded(t, expected, before);
      var d, f := Play(t, expected, before), last.frame;
      if |f.payload| % 2 == 0 {
        Split(d.log, [Converted(d, f)]);
      }
      if Forwarded(last) && f.PtsIfPresent().Some? {
        OneMoreDrift(Drifts(expected, before), last.localMs - expected(f.PtsIfPresent().value), d.clock.maxAbsDrift);
      }
    }
  }

  lemma NoDrifts()
    ensures IsLargest([], 0)
  {
  }

  lemma ExactQuotient(n: nat, d: nat)
    requires d > 0
    ensures n * d / d == n && n * d % d == 0
  {
    QuotientIs(n * d, d, n);
    QuotientFacts(n * d, d);
  }

  lemma ShortBy(framesIn: nat, framesOut: nat, blocks: nat, src: nat, dst: nat)
    requires src > 0 && framesOut * src <= framesIn * dst <= framesOut * src + blocks * (src - 1)
    ensures framesOut <= FramesOut(framesIn, src, dst)
    ensures blocks > 0 ==> FramesOut(framesIn, src, dst) - framesOut <= blocks - 1
  {
    var q := FramesOut(framesIn, src, dst);
    BlockCost(framesIn, src, dst);
    if framesOut > q {
      ProductUpTo(q + 1, framesOut, src);
      Sum(q, 1, src);
      assert false;
    }
    var short := q - framesOut;
    Sum(framesOut, short, src);
    if short >= blocks {
      ProductUpTo(blocks, short, src);
      assert blocks * (src - 1) == blocks * src - blocks;
    }
  }

  /** The bound is met: at k frames a second to k - 1, k blocks of one frame give nothing,
      while at once they would give k - 1 frames. */
  lemma ShortfallIsSharp(k: nat)
    requires k > 1
    ensures FramesOut(1, k, k - 1) == 0 && FramesOut(k, k, k - 1) == k - 1
  {
    QuotientIs(k - 1, k, 0);
    assert k * (k - 1) == (k - 1) * k;
    QuotientIs(k * (k - 1), k, k - 1);
  }
}
