/** The AirPlay video mirror track of proto-airplay/src/mirror.rs over the bounded queue and
    the format tracker of interop-media/src/stream.rs. The sink never fails and keeps a log. */
module Mirror {
  import opened Prelude
  import opened MediaFrames

  const MAX_PIXELS: nat := 8192 * 8192
  const MAX_FRAMES: nat := 8

  datatype Codec = H264Passthrough | Hevc
  datatype Dimensions = Dimensions(width: u32, height: u32) {
    function Area(): nat {
      width * height
    }
  }

  datatype Forwarded = ToSink | ConfigSent | Ended | WaitingKeyframe | OverBudget

  datatype Stats = Stats(forwarded: nat, dropped: nat, recoveries: nat, configs: nat, bytesForwarded: nat,
      formatChanges: nat)

  datatype SinkEvent = SawConfig(codec: Codec, formatId: u32, dims: Dimensions) | SawFrame(frame: MediaFrame)

  datatype Track = Track(
    queue: seq<MediaFrame>, budget: nat, format: Option<u32>, codec: Option<Codec>, dims: Option<Dimensions>,
    formatId: u32, recovering: bool, drain: bool, stats: Stats, peak: nat, log: seq<SinkEvent>)

  function NewTrack(budget: nat): Track {
    Track([], budget, None, None, None, 0, false, true, Stats(0, 0, 0, 0, 0, 0), 0, [])
  }

  function TotalBytes(frames: seq<MediaFrame>): (n: nat) {
    if frames == [] then 0 else |frames[0].payload| + TotalBytes(frames[1..])
  }

  function Events(frames: seq<MediaFrame>): (e: seq<SinkEvent>)
    ensures |e| == |frames|
  {
    if frames == [] then [] else [SawFrame(frames[0])] + Events(frames[1..])
  }

  predicate Fits(queue: seq<MediaFrame>, budget: nat, f: MediaFrame) {
    |queue| < MAX_FRAMES && TotalBytes(queue) + |f.payload| <= budget
  }

  function Flush(m: Track): Track {
    m.(queue := [], log := m.log + Events(m.queue))
  }

  datatype FormatEvent = Initialized | Unchanged | Reset

  /** A new format needs a decoder reset; a refusal does not move the tracker. */
  function Observe(current: Option<u32>, formatId: u32, discontinuity: bool): Result<FormatEvent> {
    if current.None? then Ok(Initialized)
    else if current.value == formatId then Ok(Unchanged)
    else if discontinuity then Ok(Reset)
    else Err(InvalidFrame)
  }

  function Configure(m: Track, codec: Codec, formatId: u32, dims: Dimensions, discontinuity: bool): (Track, Result<()>)
  {
    if codec.Hevc? then (m, Err(UnsupportedFeature))
    else if dims.Area() > MAX_PIXELS then (m, Err(ResourceLimit))
    else
      var event := Observe(m.format, formatId, discontinuity);
      if event.Err? then (m, Err(event.code))
      else
        var changes := if event.value.Unchanged? then m.stats.formatChanges else m.stats.formatChanges + 1;
        var m' := m.(format := Some(formatId), codec := Some(codec), dims := Some(dims), formatId := formatId,
                     recovering := false, stats := m.stats.(formatChanges := changes),
                     log := m.log + [SawConfig(codec, formatId, dims)]);
        (Flush(m'), Ok(()))
  }

  /** A unit that may be accepted: queued if it fits, or else dropped with the queue flushed. */
  function Admit(r: Track, f: MediaFrame): (Track, Result<Forwarded>) {
    if Fits(r.queue, r.budget, f) then
      var q := r.(queue := r.queue + [f], peak := Max(r.peak, TotalBytes(r.queue + [f])));
      var d := if q.drain then Flush(q) else q;
      (d.(stats := d.stats.(forwarded := d.stats.forwarded + 1,
                            bytesForwarded := d.stats.bytesForwarded + |f.payload|)),
       Ok(ToSink))
    else
      var d := Flush(r);
      (d.(recovering := true, stats := d.stats.(dropped := d.stats.dropped + 1)), Ok(OverBudget))
  }

  function OnAccessUnit(m: Track, f: MediaFrame): (Track, Result<Forwarded>) {
    if m.dims.None? then (m, Err(InvalidFrame))
    else if |f.payload| > MAX_PAYLOAD then (m, Err(ResourceLimit))
    else if m.recovering && !f.IsKeyframe() then
      (m.(stats := m.stats.(dropped := m.stats.dropped + 1)), Ok(WaitingKeyframe))
    else
      var r := if m.recovering
               then Flush(m).(recovering := false, stats := m.stats.(recoveries := m.stats.recoveries + 1))
               else m;
      Admit(r, f)
  }

  function OnFrame(m: Track, f: MediaFrame): (Track, Result<Forwarded>) {
    match f.kind
    case CodecConfig =>
      if m.codec.None? || m.dims.None? then (m, Err(InvalidFrame))
      else
        (m.(log := m.log + [SawConfig(m.codec.value, m.formatId, m.dims.value)],
            stats := m.stats.(configs := m.stats.configs + 1)), Ok(ConfigSent))
    case EncodedAccessUnit => OnAccessUnit(m, f)
    case PcmBlock => (m, Err(UnsupportedFeature))
    case End => if m.dims.None? then (m, Err(InvalidFrame)) else (Flush(m), Ok(Ended))
  }

  // ---------------------------------------------------------------- the objects

  class FrameQueue {
    const maxFrames: nat
    const maxBytes: nat
    var frames: seq<MediaFrame>
    var bytes: nat

    ghost predicate Valid()
      reads this
    {
      bytes == TotalBytes(frames)
    }

    constructor (maxFrames: nat, maxBytes: nat)
      ensures Valid() && frames == [] && this.maxFrames == maxFrames && this.maxBytes == maxBytes
    {
      this.maxFrames, this.maxBytes := maxFrames, maxBytes;
      frames, bytes := [], 0;
    }

    method Push(frame: MediaFrame) returns (ok: bool)
      requires Valid()
      modifies this
      ensures Valid()
      ensures ok <==> old(|frames|) < maxFrames && TotalBytes(old(frames)) + |frame.payload| <= maxBytes
      ensures frames == if ok then old(frames) + [frame] else old(frames)
    {
      if |frames| >= maxFrames || bytes + |frame.payload| > maxBytes {
        return false;
      }
      TotalBytesAppend(frames, [frame]);
      OneFrameBytes(frame);
      bytes := bytes + |frame.payload|;
      frames := frames + [frame];
      return true;
    }

    method Pop() returns (frame: Option<MediaFrame>)
      requires Valid()
      modifies this
      ensures Valid()
      ensures old(frames) == [] ==> frame.None? && frames == []
      ensures old(frames) != [] ==> frame == Some(old(frames)[0]) && frames == old(frames)[1..]
    {
      if frames == [] {
        return None;
      }
      frame := Some(frames[0]);
      bytes := bytes - |frames[0].payload|;
      frames := frames[1..];
    }
  }

  lemma OneFrameBytes(f: MediaFrame)
    ensures TotalBytes([f]) == |f.payload|
  {
    assert [f][1..] == [];
  }

  lemma {:induction false} TotalBytesAppend(a: seq<MediaFrame>, b: seq<MediaFrame>)
    ensures TotalBytes(a + b) == TotalBytes(a) + TotalBytes(b)
    decreases |a|
  {
    if a == [] {
      assert a + b == b;
    } else {
      Extend(a, 1, b);
      TotalBytesAppend(a[1..], b);
    }
  }

  class MirrorTrack {
    const queue: FrameQueue
    var format: Option<u32>
    var codec: Option<Codec>
    var dims: Option<Dimensions>
    var formatId: u32
    var recovering: bool
    var drain: bool
    var stats: Stats
    var peak: nat
    var log: seq<SinkEvent>

    ghost predicate Valid()
      reads this, queue
    {
      queue.Valid() && queue.maxFrames == MAX_FRAMES
    }

    ghost function Model(): Track
      reads this, queue
    {
      Track(queue.frames, queue.maxBytes, format, codec, dims, formatId, recovering, drain, stats, peak, log)
    }

    constructor (budget: nat)
      ensures Valid() && fresh(queue) && Model() == NewTrack(budget)
    {
      queue := new FrameQueue(MAX_FRAMES, budget);
      format, codec, dims, formatId := None, None, None, 0;
      recovering, drain, stats, peak, log := false, true, Stats(0, 0, 0, 0, 0, 0), 0, [];
    }

    method SetDrain(b: bool)
      requires Valid()
      modifies `drain
      ensures Valid() && Model() == old(Model()).(drain := b)
    {
      drain := b;
    }

    /** Hands the queue to the sink, one frame after the other. */
    method FlushQueue()
      requires Valid()
      modifies queue, `log
      ensures Valid() && Model() == Flush(old(Model()))
    {
      var frame := queue.Pop();
      while frame.Some?
        invariant queue.Valid()
        invariant frame.None? ==> queue.frames == []
        invariant old(log) + Events(old(queue.frames)) ==
                  log + (if frame.Some? then [SawFrame(frame.value)] else []) + Events(queue.frames)
        decreases |queue.frames|, frame.Some?
      {
        ghost var pending := queue.frames;
        ghost var before := log;
        log := log + [SawFrame(frame.value)];
        frame := queue.Pop();
        assert pending != [] ==> Events(pending) == [SawFrame(pending[0])] + Events(pending[1..]);
        if pending != [] {
          Assoc(log, [SawFrame(pending[0])], Events(pending[1..]));
        }
      }
    }

    method ConfigureFormat(newCodec: Codec, newFormat: u32, newDims: Dimensions, discontinuity: bool)
      returns (r: Result<()>)
      requires Valid()
      modifies this, queue
      ensures Valid() && (Model(), r) == Configure(old(Model()), newCodec, newFormat, newDims, discontinuity)
    {
      if newCodec.Hevc? {
        return Err(UnsupportedFeature);
      }
      if newDims.Area() > MAX_PIXELS {
        return Err(ResourceLimit);
      }
      var event := Observe(format, newFormat, discontinuity);
      if event.Err? {
        return Err(event.code);
      }
      format := Some(newFormat);
      if !event.value.Unchanged? {
        stats := stats.(formatChanges := stats.formatChanges + 1);
      }
      codec, dims, formatId := Some(newCodec), Some(newDims), newFormat;
      log := log + [SawConfig(newCodec, newFormat, newDims)];
      recovering := false;
      FlushQueue();
      return Ok(());
    }

    method HandleAccessUnit(f: MediaFrame) returns (r: Result<Forwarded>)
      requires Valid()
      modifies this, queue
      ensures Valid() && (Model(), r) == OnAccessUnit(old(Model()), f)
    {
      if dims.None? {
        return Err(InvalidFrame);
      }
      if |f.payload| > MAX_PAYLOAD {
        return Err(ResourceLimit);
      }
      var keyframe := f.IsKeyframe();
      if recovering && !keyframe {
        stats := stats.(dropped := stats.dropped + 1);
        return Ok(WaitingKeyframe);
      }
      if recovering && keyframe {
        FlushQueue();
        recovering := false;
        stats := stats.(recoveries := stats.recoveries + 1);
      }
      r := AdmitUnit(f);
    }

    method AdmitUnit(f: MediaFrame) returns (r: Result<Forwarded>)
      requires Valid()
      modifies this, queue
      ensures Valid() && (Model(), r) == Admit(old(Model()), f)
    {
      var pushed := queue.Push(f);
      if pushed {
        peak := Max(peak, queue.bytes);
        if drain {
          FlushQueue();
        }
        stats := stats.(forwarded := stats.forwarded + 1, bytesForwarded := stats.bytesForwarded + |f.payload|);
        return Ok(ToSink);
      }
      FlushQueue();
      recovering := true;
      stats := stats.(dropped := stats.dropped + 1);
      return Ok(OverBudget);
    }

    method HandleFrame(f: MediaFrame) returns (r: Result<Forwarded>)
      requires Valid()
      modifies this, queue
      ensures Valid() && (Model(), r) == OnFrame(old(Model()), f)
    {
      match f.kind
      case CodecConfig =>
        if codec.None? || dims.None? {
          return Err(InvalidFrame);
        }
        log := log + [SawConfig(codec.value, formatId, dims.value)];
        stats := stats.(configs := stats.configs + 1);
        return Ok(ConfigSent);
      case EncodedAccessUnit =>
        r := HandleAccessUnit(f);
      case PcmBlock =>
        return Err(UnsupportedFeature);
      case End =>
        if dims.None? {
          return Err(InvalidFrame);
        }
        FlushQueue();
        return Ok(Ended);
    }
  }

  // ---------------------------------------------------------------- whole runs

  datatype Op =
    | ConfigureOp(codec: Codec, formatId: u32, dims: Dimensions, discontinuity: bool)
    | FrameOp(frame: MediaFrame)
    | DrainOp(on: bool)
    | FinishOp

  function Step(m: Track, op: Op): Track {
    match op
    case ConfigureOp(c, id, d, disc) => Configure(m, c, id, d, disc).0
    case FrameOp(f) => OnFrame(m, f).0
    case DrainOp(on) => m.(drain := on)
    case FinishOp => Flush(m)
  }

  function Run(budget: nat, ops: seq<Op>): Track {
    if ops == [] then NewTrack(budget) else Step(Run(budget, ops[..|ops| - 1]), ops[|ops| - 1])
  }

  function ResultOf(m: Track, op: Op): Option<Forwarded> {
    if op.FrameOp? && op.frame.kind.EncodedAccessUnit? && OnFrame(m, op.frame).1.Ok?
    then Some(OnFrame(m, op.frame).1.value) else None
  }

  /** The access units that were accepted, in order of arrival. */
  function Accepted(budget: nat, ops: seq<Op>): seq<MediaFrame> {
    if ops == [] then []
    else
      var before, op := ops[..|ops| - 1], ops[|ops| - 1];
      Accepted(budget, before) + if ResultOf(Run(budget, before), op) == Some(ToSink) then [op.frame] else []
  }

  /** Access units that came while a format was configured and were not oversized. */
  function Received(budget: nat, ops: seq<Op>): nat {
    if ops == [] then 0
    else
      var before, op := ops[..|ops| - 1], ops[|ops| - 1];
      var m := Run(budget, before);
      Received(budget, before)
      + if op.FrameOp? && op.frame.kind.EncodedAccessUnit? && m.dims.Some? && |op.frame.payload| <= MAX_PAYLOAD
        then 1 else 0
  }

  /** A unit was dropped, and since then none was accepted and no format configured. */
  function OwesKeyframe(budget: nat, ops: seq<Op>): bool {
    if ops == [] then false
    else
      var before, op := ops[..|ops| - 1], ops[|ops| - 1];
      var r := ResultOf(Run(budget, before), op);
      if op.ConfigureOp? && Configure(Run(budget, before), op.codec, op.formatId, op.dims, op.discontinuity).1.Ok?
        then false
      else if r == Some(ToSink) then false
      else if r == Some(WaitingKeyframe) || r == Some(OverBudget) then true
      else OwesKeyframe(budget, before)
  }

  function FramesOf(log: seq<SinkEvent>): seq<MediaFrame> {
    if log == [] then []
    else FramesOf(log[..|log| - 1]) + if log[|log| - 1].SawFrame? then [log[|log| - 1].frame] else []
  }

  lemma {:induction false} FramesOfAppend(log: seq<SinkEvent>, frames: seq<MediaFrame>)
    ensures FramesOf(log + Events(frames)) == FramesOf(log) + frames
    decreases |frames|
  {
    if frames == [] {
      assert log + Events(frames) == log;
    } else {
      var first := SawFrame(frames[0]);
      FramesOfAppend(log + [first], frames[1..]);
      Assoc(log, [first], Events(frames[1..]));
      assert (log + [first])[..|log|] == log;
      Assoc(FramesOf(log), [frames[0]], frames[1..]);
      HeadTail(frames);
    }
  }

  lemma FramesOfConfig(log: seq<SinkEvent>, c: Codec, id: u32, d: Dimensions)
    ensures FramesOf(log + [SawConfig(c, id, d)]) == FramesOf(log)
  {
    assert (log + [SawConfig(c, id, d)])[..|log|] == log;
  }

  /** What the sink has seen of the units, with what still waits in the queue. */
  function Delivered(m: Track): seq<MediaFrame> {
    FramesOf(m.log) + m.queue
  }

  ghost predicate WithinLimits(m: Track) {
    |m.queue| <= MAX_FRAMES && TotalBytes(m.queue) <= m.budget && m.peak <= m.budget
  }

  lemma FlushDelivers(m: Track)
    ensures Delivered(Flush(m)) == Delivered(m)
  {
    FramesOfAppend(m.log, m.queue);
  }

  lemma UnitStep(m: Track, f: MediaFrame)
    requires WithinLimits(m)
    ensures var (t, r) := OnAccessUnit(m, f);
            && WithinLimits(t) && t.budget == m.budget
            && Delivered(t) == Delivered(m) + (if r == Ok(ToSink) then [f] else [])
            && t.stats.forwarded == m.stats.forwarded + (if r == Ok(ToSink) then 1 else 0)
            && t.stats.dropped == m.stats.dropped + (if r == Ok(WaitingKeyframe) || r == Ok(OverBudget) then 1 else 0)
            && t.stats.bytesForwarded == m.stats.bytesForwarded + (if r == Ok(ToSink) then |f.payload| else 0)
            && (r.Ok? <==> m.dims.Some? && |f.payload| <= MAX_PAYLOAD)
            && (r.Ok? ==> r.value.ToSink? || r.value.WaitingKeyframe? || r.value.OverBudget?)
            && (r == Ok(ToSink) ==> !t.recovering && (m.recovering ==> f.IsKeyframe()))
            && (r == Ok(WaitingKeyframe) || r == Ok(OverBudget) ==> t.recovering)
            && (r.Err? ==> t == m)
  {
    hide FramesOf, Events;
    var (t, res) := OnAccessUnit(m, f);
    AppendNothing(Delivered(m));
    FlushDelivers(m);
    if res.Ok? && !res.value.WaitingKeyframe? {
      var r := if m.recovering
               then Flush(m).(recovering := false, stats := m.stats.(recoveries := m.stats.recoveries + 1))
               else m;
      FlushDelivers(r);
      if Fits(r.queue, r.budget, f) {
        var q := r.(queue := r.queue + [f], peak := Max(r.peak, TotalBytes(r.queue + [f])));
        TotalBytesAppend(r.queue, [f]);
        OneFrameBytes(f);
        FlushDelivers(q);
        Assoc(FramesOf(r.log), r.queue, [f]);
      }
    }
  }

  /** What holds after every run: see the corollaries below. */
  ghost predicate Tallies(budget: nat, ops: seq<Op>) {
    var m := Run(budget, ops);
    && WithinLimits(m) && m.budget == budget
    && Delivered(m) == Accepted(budget, ops)
    && m.stats.forwarded == |Accepted(budget, ops)|
    && m.stats.forwarded + m.stats.dropped == Received(budget, ops)
    && m.stats.bytesForwarded == TotalBytes(Accepted(budget, ops))
    && m.recovering == OwesKeyframe(budget, ops)
  }

  lemma OtherStep(m: Track, op: Op)
    requires WithinLimits(m) && !(op.FrameOp? && op.frame.kind.EncodedAccessUnit?)
    ensures var t := Step(m, op);
            && WithinLimits(t) && t.budget == m.budget && Delivered(t) == Delivered(m)
            && t.stats.forwarded == m.stats.forwarded && t.stats.dropped == m.stats.dropped
            && t.stats.bytesForwarded == m.stats.bytesForwarded
            && t.recovering ==
               (m.recovering
                && !(op.ConfigureOp? && Configure(m, op.codec, op.formatId, op.dims, op.discontinuity).1.Ok?))
  {
    hide FramesOf, Events;
    FlushDelivers(m);
    match op {
      case ConfigureOp(c, id, d, disc) =>
        if Configure(m, c, id, d, disc).1.Ok? {
          FramesOfConfig(m.log, c, id, d);
          FlushDelivers(m.(log := m.log + [SawConfig(c, id, d)]));
        }
      case FrameOp(f) =>
        if f.kind.CodecConfig? && m.codec.Some? && m.dims.Some? {
          FramesOfConfig(m.log, m.codec.value, m.formatId, m.dims.value);
        }
      case DrainOp(_) =>
      case FinishOp =>
    }
  }

  lemma {:induction false} RunTallies(budget: nat, ops: seq<Op>)
    ensures Tallies(budget, ops)
    decreases |ops|
  {
    hide OnAccessUnit, Configure, Flush;
    if ops == [] {
    } else {
      hide Delivered, WithinLimits;
      var before, op := ops[..|ops| - 1], ops[|ops| - 1];
      RunTallies(budget, before);
      var m := Run(budget, before);
      if op.FrameOp? && op.frame.kind.EncodedAccessUnit? {
        UnitStep(m, op.frame);
        TotalBytesAppend(Accepted(budget, before), [op.frame]);
        OneFrameBytes(op.frame);
      } else {
        OtherStep(m, op);
      }
      AppendNothing(Accepted(budget, before));
    }
  }

  /** Nothing accepted is lost, repeated or reordered: log and queue are the accepted units. */
  lemma LogAndQueueAreAccepted(budget: nat, ops: seq<Op>)
    ensures var m := Run(budget, ops); FramesOf(m.log) + m.queue == Accepted(budget, ops)
  {
    RunTallies(budget, ops);
  }

  /** Every unit received under a format is counted once, as forwarded or as dropped. */
  lemma ReceivedIsForwardedOrDropped(budget: nat, ops: seq<Op>)
    ensures var m := Run(budget, ops);
            && Received(budget, ops) == m.stats.forwarded + m.stats.dropped
            && m.stats.forwarded == |Accepted(budget, ops)|
            && m.stats.bytesForwarded == TotalBytes(Accepted(budget, ops))
  {
    RunTallies(budget, ops);
  }

  /** The queue never holds more frames or bytes than its limits, nor did it ever. */
  lemma QueueStaysBounded(budget: nat, ops: seq<Op>)
    ensures var m := Run(budget, ops);
            |m.queue| <= MAX_FRAMES && TotalBytes(m.queue) <= budget && m.peak <= budget
  {
    RunTallies(budget, ops);
  }

  /** After a drop the picture resumes with a keyframe, unless a format was configured first. */
  lemma ResumesWithKeyframe(budget: nat, ops: seq<Op>, f: MediaFrame)
    requires f.kind.EncodedAccessUnit? && OwesKeyframe(budget, ops)
    requires ResultOf(Run(budget, ops), FrameOp(f)) == Some(ToSink)
    ensures f.IsKeyframe()
  {
    hide Run, OwesKeyframe, OnAccessUnit;
    RunTallies(budget, ops);
    UnitStep(Run(budget, ops), f);
  }

  /** Nothing waits, nothing was lost. */
  predicate Clear(m: Track, budget: nat) {
    m.stats.dropped == 0 && m.queue == [] && !m.recovering && m.drain && m.budget == budget
  }

  lemma AdmitStaysClear(m: Track, budget: nat, f: MediaFrame)
    requires Clear(m, budget) && |f.payload| <= budget
    ensures Clear(Admit(m, f).0, budget)
  {
    hide Events;
  }

  lemma StepStaysClear(m: Track, budget: nat, op: Op)
    requires Clear(m, budget) && !(op.DrainOp? && !op.on) && (op.FrameOp? ==> |op.frame.payload| <= budget)
    ensures Clear(Step(m, op), budget)
  {
    hide Events, Admit;
    if op.FrameOp? {
      AdmitStaysClear(m, budget, op.frame);
    }
  }

  /** With the sink keeping up, frames within the budget are never dropped. */
  lemma {:induction false} DrainingDropsNothing(budget: nat, ops: seq<Op>)
    requires forall i :: 0 <= i < |ops| ==> !(ops[i].DrainOp? && !ops[i].on)
    requires forall i :: 0 <= i < |ops| && ops[i].FrameOp? ==> |ops[i].frame.payload| <= budget
    ensures Clear(Run(budget, ops), budget)
    decreases |ops|
  {
    if ops == [] {
    } else {
      hide Step;
      DrainingDropsNothing(budget, ops[..|ops| - 1]);
      StepStaysClear(Run(budget, ops[..|ops| - 1]), budget, ops[|ops| - 1]);
    }
  }
}
