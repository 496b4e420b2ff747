/** What the sink of the mirror track is told of formats, and in which order: told from the
    history of the calls alone. */
module MirrorFormats {
  import opened Prelude
  import opened MediaFrames
  import opened Mirror

  datatype Format = Format(codec: Codec, formatId: u32, dims: Dimensions) {
    function Announcement(): SinkEvent {
      SawConfig(codec, formatId, dims)
    }
  }

  /** A format is taken if it can be decoded and shown, and follows the one before: as the first,
      as the same again, or over an announced discontinuity. */
  predicate Takes(current: Option<Format>, op: Op)
    requires op.ConfigureOp?
  {
    && op.codec == H264Passthrough && op.dims.width * op.dims.height <= MAX_PIXELS
    && (current.None? || current.value.formatId == op.formatId || op.discontinuity)
  }

  /** The format taken last. */
  function InForce(ops: seq<Op>): Option<Format> {
    if ops == [] then None
    else
      var before, op := InForce(ops[..|ops| - 1]), ops[|ops| - 1];
      if op.ConfigureOp? && Takes(before, op) then Some(Format(op.codec, op.formatId, op.dims)) else before
  }

  /** What one call tells the sink of formats: the one it takes, or the one in force again. */
  function Told(current: Option<Format>, op: Op): seq<SinkEvent> {
    if op.ConfigureOp? && Takes(current, op) then [Format(op.codec, op.formatId, op.dims).Announcement()]
    else if op.FrameOp? && op.frame.kind.CodecConfig? && current.Some? then [current.value.Announcement()]
    else []
  }

  function Announced(ops: seq<Op>): seq<SinkEvent> {
    if ops == [] then []
    else Announced(ops[..|ops| - 1]) + Told(InForce(ops[..|ops| - 1]), ops[|ops| - 1])
  }

  function ConfigsOf(log: seq<SinkEvent>): seq<SinkEvent> {
    if log == [] then []
    else ConfigsOf(log[..|log| - 1]) + if log[|log| - 1].SawConfig? then [log[|log| - 1]] else []
  }

  /** The state of the track that depends on formats is the history's. */
  ghost predicate Knows(m: Track, current: Option<Format>) {
    match current
    case None => m.format.None? && m.codec.None? && m.dims.None? && m.log == [] && m.queue == []
    case Some(f) =>
      && m.format == Some(f.formatId) && m.formatId == f.formatId && m.codec == Some(f.codec) && m.dims == Some(f.dims)
      && m.log != [] && m.log[0].SawConfig?
  }

  lemma {:induction false} ConfigsOfEvents(log: seq<SinkEvent>, frames: seq<MediaFrame>)
    ensures ConfigsOf(log + Events(frames)) == ConfigsOf(log)
    decreases |frames|
  {
    if frames == [] {
      assert log + Events(frames) == log;
    } else {
      var first := SawFrame(frames[0]);
      ConfigsOfEvents(log + [first], frames[1..]);
      Assoc(log, [first], Events(frames[1..]));
      assert (log + [first])[..|log|] == log;
    }
  }

  lemma ConfigsOfConfig(log: seq<SinkEvent>, e: SinkEvent)
    requires e.SawConfig?
    ensures ConfigsOf(log + [e]) == ConfigsOf(log) + [e]
  {
    assert (log + [e])[..|log|] == log;
  }

  lemma UnitTellsNothing(m: Track, f: MediaFrame, current: Option<Format>)
    requires Knows(m, current)
    ensures var t := OnAccessUnit(m, f).0;
            Knows(t, current) && ConfigsOf(t.log) == ConfigsOf(m.log)
  {
    hide Events, ConfigsOf;
    var t := OnAccessUnit(m, f).0;
    ConfigsOfEvents(m.log, m.queue);
    ConfigsOfEvents(m.log, m.queue + [f]);
    if m.recovering {
      Assoc(m.log, Events(m.queue), Events([]));
      ConfigsOfEvents(m.log + Events(m.queue), []);
      ConfigsOfEvents(m.log + Events(m.queue), [f]);
      assert [] + [f] == [f];
    }
  }

  lemma ConfigureTells(m: Track, op: Op, current: Option<Format>)
    requires op.ConfigureOp? && Knows(m, current)
    ensures var t := Step(m, op);
            && Knows(t, if Takes(current, op) then Some(Format(op.codec, op.formatId, op.dims)) else current)
            && ConfigsOf(t.log) == ConfigsOf(m.log) + Told(current, op)
  {
    hide Events, ConfigsOf;
    if Takes(current, op) {
      var e := SawConfig(op.codec, op.formatId, op.dims);
      ConfigsOfConfig(m.log, e);
      ConfigsOfEvents(m.log + [e], m.queue);
    } else {
      AppendNothing(ConfigsOf(m.log));
    }
  }

  lemma OtherTells(m: Track, op: Op, current: Option<Format>)
    requires !op.ConfigureOp? && Knows(m, current)
    ensures Knows(Step(m, op), current)
    ensures ConfigsOf(Step(m, op).log) == ConfigsOf(m.log) + Told(current, op)
  {
    hide Events, ConfigsOf, OnAccessUnit;
    AppendNothing(ConfigsOf(m.log));
    ConfigsOfEvents(m.log, m.queue);
    if op.FrameOp? && op.frame.kind.EncodedAccessUnit? {
      UnitTellsNothing(m, op.frame, current);
    } else if op.FrameOp? && op.frame.kind.CodecConfig? && current.Some? {
      ConfigsOfConfig(m.log, current.value.Announcement());
    }
  }

  /** Over every run, the formats the sink is told are, in order, those that were taken and - for
      each codec-config frame under a format - the one in force; each with its codec, format id
      and dimensions. The track is in the format of the history, and is in none exactly as long
      as it has told the sink nothing at all. */
  lemma {:induction false} ToldInOrder(budget: nat, ops: seq<Op>)
    ensures ConfigsOf(Run(budget, ops).log) == Announced(ops)
    ensures Knows(Run(budget, ops), InForce(ops))
    decreases |ops|
  {
    hide Step, Knows, Told;
    if ops == [] {
      KnowsNothing(budget);
    } else {
      var before, op := ops[..|ops| - 1], ops[|ops| - 1];
      ToldInOrder(budget, before);
      if op.ConfigureOp? {
        ConfigureTells(Run(budget, before), op, InForce(before));
      } else {
        OtherTells(Run(budget, before), op, InForce(before));
      }
    }
  }

  lemma KnowsNothing(budget: nat)
    ensures Knows(NewTrack(budget), None)
  {
  }

  /** No unit reaches a sink that was not told a format before. */
  lemma NoFrameBeforeFormat(budget: nat, ops: seq<Op>, i: nat)
    requires i < |Run(budget, ops).log| && Run(budget, ops).log[i].SawFrame?
    ensures 0 < i && Run(budget, ops).log[0].SawConfig?
  {
    hide Run, InForce, Announced, ConfigsOf;
    ToldInOrder(budget, ops);
  }

  // ---------------------------------------------------------------- answers

  /** What a format is answered with, in every run. */
  lemma FormatAnswer(budget: nat, ops: seq<Op>, op: Op)
    requires op.ConfigureOp?
    ensures var (t, r) := Configure(Run(budget, ops), op.codec, op.formatId, op.dims, op.discontinuity);
            && (r.Ok? <==> Takes(InForce(ops), op))
            && (r.Err? ==> t == Run(budget, ops))
            && (op.codec == Hevc ==> r == Err(UnsupportedFeature))
            && (op.codec != Hevc && op.dims.width * op.dims.height > MAX_PIXELS ==> r == Err(ResourceLimit))
            && (op.codec != Hevc && op.dims.width * op.dims.height <= MAX_PIXELS && r.Err? ==> r == Err(InvalidFrame))
  {
    hide Run, InForce, Flush;
    ToldInOrder(budget, ops);
  }

  /** What a frame is answered with, in every run, from the format in force, the keyframe that
      is owed, and what waits in the queue. */
  lemma FrameAnswer(budget: nat, ops: seq<Op>, f: MediaFrame)
    ensures var m := Run(budget, ops);
            var r := OnFrame(m, f).1;
            var waiting := if OwesKeyframe(budget, ops) then [] else m.queue;
            if f.kind == PcmBlock then r == Err(UnsupportedFeature)
            else if InForce(ops).None? then r == Err(InvalidFrame)
            else if f.kind == CodecConfig then r == Ok(ConfigSent)
            else if f.kind == End then r == Ok(Ended)
            else if |f.payload| > MAX_PAYLOAD then r == Err(ResourceLimit)
            else if OwesKeyframe(budget, ops) && !f.IsKeyframe() then r == Ok(WaitingKeyframe)
            else if |waiting| < MAX_FRAMES && TotalBytes(waiting) + |f.payload| <= budget then r == Ok(ToSink)
            else r == Ok(OverBudget)
  {
    hide Run, InForce, OwesKeyframe, Events, TotalBytes, Delivered, Accepted;
    ToldInOrder(budget, ops);
    RunTallies(budget, ops);
  }

  // ---------------------------------------------------------------- counters

  /** How often a format was initialised or reset, a config frame passed on, and a keyframe
      taken up that was owed. */
  datatype Counts = Counts(changes: nat, configs: nat, recoveries: nat)

  function CountOne(c: Counts, current: Option<Format>, owesKeyframe: bool, op: Op): Counts {
    match op
    case ConfigureOp(_, id, _, _) =>
      if Takes(current, op) && (current.None? || current.value.formatId != id) then c.(changes := c.changes + 1) else c
    case FrameOp(f) =>
      if current.None? then c
      else if f.kind.CodecConfig? then c.(configs := c.configs + 1)
      else if f.kind.EncodedAccessUnit? && |f.payload| <= MAX_PAYLOAD && owesKeyframe && f.IsKeyframe()
        then c.(recoveries := c.recoveries + 1)
      else c
    case _ => c
  }

  function Counted(budget: nat, ops: seq<Op>): Counts {
    if ops == [] then Counts(0, 0, 0)
    else
      var before, op := ops[..|ops| - 1], ops[|ops| - 1];
      CountOne(Counted(budget, before), InForce(before), OwesKeyframe(budget, before), op)
  }

  function CountsOf(m: Track): Counts {
    Counts(m.stats.formatChanges, m.stats.configs, m.stats.recoveries)
  }

  lemma StepCounts(m: Track, op: Op, current: Option<Format>)
    requires Knows(m, current)
    ensures CountsOf(Step(m, op)) == CountOne(CountsOf(m), current, m.recovering, op)
  {
    hide Events, TotalBytes;
  }

  lemma {:induction false} CountersTellHistory(budget: nat, ops: seq<Op>)
    ensures CountsOf(Run(budget, ops)) == Counted(budget, ops)
    decreases |ops|
  {
    hide Step, Knows, OwesKeyframe, CountOne, Delivered, WithinLimits, Accepted;
    if ops == [] {
    } else {
      var before, op := ops[..|ops| - 1], ops[|ops| - 1];
      CountersTellHistory(budget, before);
      ToldInOrder(budget, before);
      RunTallies(budget, before);
      StepCounts(Run(budget, before), op, InForce(before));
    }
  }

  // ---------------------------------------------------------------- what waits, and for what

  /** Whether the sink keeps up, as it was told last. */
  function Draining(ops: seq<Op>): bool {
    if ops == [] then true
    else if ops[|ops| - 1].DrainOp? then ops[|ops| - 1].on else Draining(ops[..|ops| - 1])
  }

  /** What waits after one call. Everything is handed over by a new format, by the end of the
      stream, by finishing, by a unit that does not fit, ahead of the keyframe that was owed, and
      by a unit taken while the sink keeps up; telling the sink to keep up hands over nothing. */
  function WaitingNext(w: seq<MediaFrame>, current: Option<Format>, owesKeyframe: bool, on: bool,
      result: Option<Forwarded>, op: Op): seq<MediaFrame>
    requires result == Some(ToSink) ==> op.FrameOp?
  {
    if op.FinishOp? || (op.ConfigureOp? && Takes(current, op)) then []
    else if op.FrameOp? && op.frame.kind.End? && current.Some? then []
    else if result == Some(OverBudget) then []
    else if result == Some(ToSink) then if on then [] else (if owesKeyframe then [] else w) + [op.frame]
    else w
  }

  function Waiting(budget: nat, ops: seq<Op>): seq<MediaFrame> {
    if ops == [] then []
    else
      var before, op := ops[..|ops| - 1], ops[|ops| - 1];
      WaitingNext(Waiting(budget, before), InForce(before), OwesKeyframe(budget, before), Draining(before),
        ResultOf(Run(budget, before), op), op)
  }

  /** The most bytes that were queued at once: a unit is queued even when it is handed over at
      once. */
  function HighestNext(h: nat, w: seq<MediaFrame>, owesKeyframe: bool, result: Option<Forwarded>, op: Op): nat
    requires result == Some(ToSink) ==> op.FrameOp?
  {
    if result == Some(ToSink)
      then Max(h, TotalBytes(if owesKeyframe then [] else w) + |op.frame.payload|) else h
  }

  function Highest(budget: nat, ops: seq<Op>): nat {
    if ops == [] then 0
    else
      var before, op := ops[..|ops| - 1], ops[|ops| - 1];
      HighestNext(Highest(budget, before), Waiting(budget, before), OwesKeyframe(budget, before),
        ResultOf(Run(budget, before), op), op)
  }

  lemma UnitWaits(m: Track, f: MediaFrame)
    ensures var (t, r) := OnAccessUnit(m, f);
            var waiting := if m.recovering then [] else m.queue;
            && t.drain == m.drain
            && t.queue == (if r == Ok(OverBudget) || (r == Ok(ToSink) && m.drain) then []
                           else if r == Ok(ToSink) then waiting + [f] else m.queue)
            && t.peak == (if r == Ok(ToSink) then Max(m.peak, TotalBytes(waiting) + |f.payload|) else m.peak)
            && (r.Ok? ==> r.value.ToSink? || r.value.WaitingKeyframe? || r.value.OverBudget?)
  {
    hide Events, TotalBytes, Fits;
    TotalBytesAppend(m.queue, [f]);
    TotalBytesAppend([], [f]);
    OneFrameBytes(f);
  }

  lemma StepWaits(m: Track, op: Op, current: Option<Format>)
    requires Knows(m, current)
    ensures var t, r := Step(m, op), ResultOf(m, op);
            && t.queue == WaitingNext(m.queue, current, m.recovering, m.drain, r, op)
            && t.peak == HighestNext(m.peak, m.queue, m.recovering, r, op)
            && t.drain == if op.DrainOp? then op.on else m.drain
  {
    hide Events, TotalBytes;
    if op.FrameOp? && op.frame.kind.EncodedAccessUnit? {
      hide Fits;
      UnitWaits(m, op.frame);
    }
  }

  lemma {:induction false} QueueTellsHistory(budget: nat, ops: seq<Op>)
    ensures var m := Run(budget, ops);
            m.queue == Waiting(budget, ops) && m.peak == Highest(budget, ops) && m.drain == Draining(ops)
    decreases |ops|
  {
    hide Step, Knows, OwesKeyframe, ResultOf, WaitingNext, HighestNext, Delivered, WithinLimits, Accepted;
    if ops == [] {
    } else {
      var before, op := ops[..|ops| - 1], ops[|ops| - 1];
      QueueTellsHistory(budget, before);
      ToldInOrder(budget, before);
      RunTallies(budget, before);
      StepWaits(Run(budget, before), op, InForce(before));
    }
  }

  // ---------------------------------------------------------------- the order of everything

  /** What one call should make the sink see: a format, or the unit it takes. */
  function Seen(budget: nat, ops: seq<Op>): seq<SinkEvent> {
    if ops == [] then []
    else
      var before, op := ops[..|ops| - 1], ops[|ops| - 1];
      Seen(budget, before) + Told(InForce(before), op)
      + if ResultOf(Run(budget, before), op) == Some(ToSink) then [SawFrame(op.frame)] else []
  }

  lemma OneEvent(f: MediaFrame)
    ensures Events([f]) == [SawFrame(f)]
  {
    assert [f][1..] == [];
  }

  /** With nothing waiting and the sink keeping up, one call does to the log what it should. */
  lemma DrainedStep(m: Track, op: Op, current: Option<Format>)
    requires Knows(m, current) && m.drain && m.queue == [] && !(op.DrainOp? && !op.on)
    ensures var t := Step(m, op);
            && t.drain && t.queue == []
            && t.log == m.log + Told(current, op)
                        + if ResultOf(m, op) == Some(ToSink) then [SawFrame(op.frame)] else []
  {
    hide Events;
    AppendNothing(m.log);
    AppendNothing(m.log + Told(current, op));
    assert Events([]) == [] by { NoEvents(); }
    if op.FrameOp? {
      OneEvent(op.frame);
      assert [] + [op.frame] == [op.frame];
    }
  }

  lemma NoEvents()
    ensures Events([]) == []
  {
  }

  /** As long as the sink keeps up, it sees formats and units in the order in which they came:
      every unit under the format that was in force when it was taken. */
  lemma {:induction false} DrainedSinkSeesOrder(budget: nat, ops: seq<Op>)
    requires forall i :: 0 <= i < |ops| ==> !(ops[i].DrainOp? && !ops[i].on)
    ensures var m := Run(budget, ops); m.drain && m.queue == [] && m.log == Seen(budget, ops)
    decreases |ops|
  {
    hide Step, Knows, Told, InForce, ResultOf;
    if ops == [] {
    } else {
      var before, op := ops[..|ops| - 1], ops[|ops| - 1];
      DrainedSinkSeesOrder(budget, before);
      ToldInOrder(budget, before);
      DrainedStep(Run(budget, before), op, InForce(before));
    }
  }

  /** When it does not keep up, a new format overtakes the queue: what waits reaches the sink
      behind it. So units reach the sink under their own format exactly when none waits. */
  lemma FormatOvertakesQueueIff(budget: nat, ops: seq<Op>, op: Op)
    requires op.ConfigureOp? && Takes(InForce(ops), op)
    ensures var m := Run(budget, ops);
            var e := Format(op.codec, op.formatId, op.dims).Announcement();
            && Run(budget, ops + [op]).log == m.log + [e] + Events(m.queue)
            && (Run(budget, ops + [op]).log == m.log + Events(m.queue) + [e] <==> m.queue == [])
  {
    hide InForce, Announced, ConfigsOf;
    ToldInOrder(budget, ops);
    assert (ops + [op])[..|ops|] == ops;
    var m, e := Run(budget, ops), Format(op.codec, op.formatId, op.dims).Announcement();
    assert Run(budget, ops + [op]) == Step(m, op);
    if m.queue != [] {
      assert (m.log + [e] + Events(m.queue))[|m.log|] == e;
      assert (m.log + Events(m.queue) + [e])[|m.log|] == Events(m.queue)[0] == SawFrame(m.queue[0]);
    }
  }
}
