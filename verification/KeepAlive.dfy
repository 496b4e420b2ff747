/** The keep-alive tracker of proto-quickshare/src/control.rs, alone and as two peers that
    watch each other over a network with bounded delay. */
module KeepAlive {
  import opened Prelude
  import opened ControlFrames

  const KEEPALIVE_INTERVAL_MS: nat := 10_000
  const KEEPALIVE_TIMEOUT_MS: nat := 30_000

  datatype Tracker = Tracker(
    intervalMs: nat, timeoutMs: nat, nextSeq: u32,
    firstSent: Option<nat>, lastSent: Option<nat>, lastReceived: Option<nat>,
    sent: nat, received: nat, acksSent: nat, expired: bool)

  function NewTracker(intervalMs: nat, timeoutMs: nat): Tracker {
    Tracker(intervalMs, timeoutMs, 1, None, None, None, 0, 0, 0, false)
  }

  predicate Due(t: Tracker, now: nat) {
    t.lastSent.None? || SatSub(now, t.lastSent.value) >= t.intervalMs
  }

  function OnTick(t: Tracker, now: nat): (Tracker, Option<KeepAliveFrame>) {
    if t.expired || !Due(t, now) then (t, None)
    else
      (t.(nextSeq := (t.nextSeq + 1) % TWO_32, sent := t.sent + 1, lastSent := Some(now),
          firstSent := if t.firstSent.Some? then t.firstSent else Some(now)),
       Some(KeepAliveFrame(false, t.nextSeq)))
  }

  function OnReceived(t: Tracker, frame: KeepAliveFrame, now: nat): (Tracker, Result<Option<KeepAliveFrame>>) {
    if t.expired then (t, Err(InvalidFrame))
    else
      var t' := t.(received := t.received + 1, lastReceived := Some(now));
      if frame.ack then (t', Ok(None))
      else (t'.(acksSent := t'.acksSent + 1), Ok(Some(KeepAliveFrame(true, 0))))
  }

  /** The peer's last frame counts; before there is one, the own first heartbeat. */
  function Reference(t: Tracker): Option<nat> {
    if t.lastReceived.Some? then t.lastReceived else t.firstSent
  }

  function Overdue(t: Tracker, now: nat): bool {
    Reference(t).Some? && SatSub(now, Reference(t).value) > t.timeoutMs
  }

  function CheckExpired(t: Tracker, now: nat): (Tracker, bool) {
    if t.expired then (t, true) else (t.(expired := Overdue(t, now)), Overdue(t, now))
  }

  class KeepAliveTracker {
    const intervalMs: nat
    const timeoutMs: nat
    var nextSeq: u32
    var firstSentMs: Option<nat>
    var lastSentMs: Option<nat>
    var lastReceivedMs: Option<nat>
    var sent: nat
    var received: nat
    var acksSent: nat
    var dead: bool

    ghost function Model(): Tracker
      reads this
    {
      Tracker(intervalMs, timeoutMs, nextSeq, firstSentMs, lastSentMs, lastReceivedMs, sent, received, acksSent, dead)
    }

    constructor WithPolicy(intervalMs: nat, timeoutMs: nat)
      ensures Model() == NewTracker(intervalMs, timeoutMs)
    {
      this.intervalMs, this.timeoutMs := intervalMs, timeoutMs;
      nextSeq, sent, received, acksSent, dead := 1, 0, 0, 0, false;
      firstSentMs, lastSentMs, lastReceivedMs := None, None, None;
    }

    method Tick(now: nat) returns (frame: Option<KeepAliveFrame>)
      modifies this
      ensures (Model(), frame) == OnTick(old(Model()), now)
    {
      if dead {
        return None;
      }
      var due := lastSentMs.None? || SatSub(now, lastSentMs.value) >= intervalMs;
      if !due {
        return None;
      }
      frame := Some(KeepAliveFrame(false, nextSeq));
      nextSeq := (nextSeq + 1) % TWO_32;
      if firstSentMs.None? {
        firstSentMs := Some(now);
      }
      lastSentMs := Some(now);
      sent := sent + 1;
    }

    method Receive(frame: KeepAliveFrame, now: nat) returns (r: Result<Option<KeepAliveFrame>>)
      modifies this
      ensures (Model(), r) == OnReceived(old(Model()), frame, now)
    {
      if dead {
        return Err(InvalidFrame);
      }
      received := received + 1;
      lastReceivedMs := Some(now);
      if frame.ack {
        return Ok(None);
      }
      acksSent := acksSent + 1;
      return Ok(Some(KeepAliveFrame(true, 0)));
    }

    method Expired(now: nat) returns (b: bool)
      modifies `dead
      ensures (Model(), b) == CheckExpired(old(Model()), now)
    {
      if dead {
        return true;
      }
      var reference := if lastReceivedMs.Some? then lastReceivedMs else firstSentMs;
      if reference.Some? {
        if SatSub(now, reference.value) > timeoutMs {
          dead := true;
        }
      }
      return dead;
    }
  }

  // ---------------------------------------------------------------- policy

  datatype Policy = Policy(intervalMs: nat, timeoutMs: nat, negotiated: bool)

  function ParseMillis(v: Option<i64>, fallback: nat): Result<nat> {
    if v.None? then Ok(fallback)
    else if v.value <= 0 || v.value >= TWO_32 then Err(InvalidFrame)
    else Ok(v.value)
  }

  function FromNegotiation(interval: Option<i64>, timeout: Option<i64>): (r: Result<Policy>)
    ensures r.Ok? ==> 0 < r.value.intervalMs < r.value.timeoutMs < TWO_32
  {
    var i :- ParseMillis(interval, KEEPALIVE_INTERVAL_MS);
    var t :- ParseMillis(timeout, KEEPALIVE_TIMEOUT_MS);
    if t <= i then Err(InvalidFrame) else Ok(Policy(i, t, interval.Some? || timeout.Some?))
  }

  /** A policy comes of a negotiation exactly when the values offered - ten seconds and thirty
      where none is - are positive, below 2^32, and the timeout is the longer. */
  lemma NegotiationAnswer(interval: Option<i64>, timeout: Option<i64>)
    ensures var i := if interval.Some? then interval.value else 10_000;
            var t := if timeout.Some? then timeout.value else 30_000;
            var r := FromNegotiation(interval, timeout);
            && (r.Ok? <==> 0 < i < t < 0x1_0000_0000)
            && (r.Ok? ==> r.value == Policy(i, t, !(interval.None? && timeout.None?)))
            && (r.Err? ==> r == Err(InvalidFrame))
  {
  }

  // ---------------------------------------------------------------- one tracker

  datatype Op = Tick(now: nat) | Check(now: nat) | Receive(frame: KeepAliveFrame, now: nat)

  function Apply(t: Tracker, op: Op): Tracker {
    match op
    case Tick(now) => OnTick(t, now).0
    case Check(now) => CheckExpired(t, now).0
    case Receive(frame, now) => OnReceived(t, frame, now).0
  }

  function ApplyAll(t: Tracker, ops: seq<Op>): Tracker {
    if ops == [] then t else Apply(ApplyAll(t, ops[..|ops| - 1]), ops[|ops| - 1])
  }

  /** The frame a step returns to be sent. */
  function Output(t: Tracker, op: Op): Option<KeepAliveFrame> {
    match op
    case Tick(now) => OnTick(t, now).1
    case Check(_) => None
    case Receive(frame, now) =>
      match OnReceived(t, frame, now).1
      case Ok(reply) => reply
      case Err(_) => None
  }

  /** Everything a run returns to be sent, in order. */
  function Outputs(t: Tracker, ops: seq<Op>): seq<KeepAliveFrame> {
    if ops == [] then []
    else
      var before := ops[..|ops| - 1];
      Outputs(t, before)
      + match Output(ApplyAll(t, before), ops[|ops| - 1]) case None => [] case Some(frame) => [frame]
  }

  function AcksAmong(frames: seq<KeepAliveFrame>): nat {
    if frames == [] then 0
    else AcksAmong(frames[..|frames| - 1]) + if frames[|frames| - 1].ack then 1 else 0
  }

  /** The heartbeats a run takes: those that arrive while the tracker is not expired. */
  function HeartbeatsTaken(t: Tracker, ops: seq<Op>): nat {
    if ops == [] then 0
    else
      var before, op := ops[..|ops| - 1], ops[|ops| - 1];
      HeartbeatsTaken(t, before)
      + if op.Receive? && !op.frame.ack && !ApplyAll(t, before).expired then 1 else 0
  }

  lemma AcksAppended(frames: seq<KeepAliveFrame>, frame: KeepAliveFrame)
    ensures AcksAmong(frames + [frame]) == AcksAmong(frames) + if frame.ack then 1 else 0
  {
    Split(frames, [frame]);
  }

  /** A step returns an acknowledgement exactly when a heartbeat arrives in time. */
  lemma OutputIsAckIff(t: Tracker, op: Op)
    ensures Output(t, op) == Some(KeepAliveFrame(true, 0)) <==> op.Receive? && !op.frame.ack && !t.expired
    ensures Output(t, op).Some? && Output(t, op).value.ack ==> Output(t, op) == Some(KeepAliveFrame(true, 0))
  {
  }

  /** One acknowledgement goes out for each heartbeat taken, none for an acknowledgement; what
      else goes out are the own heartbeats, and the counters say so. */
  lemma {:induction false} OneAckPerHeartbeat(t: Tracker, ops: seq<Op>)
    ensures AcksAmong(Outputs(t, ops)) == HeartbeatsTaken(t, ops)
    ensures ApplyAll(t, ops).acksSent == t.acksSent + HeartbeatsTaken(t, ops)
    ensures ApplyAll(t, ops).sent == t.sent + |Outputs(t, ops)| - AcksAmong(Outputs(t, ops))
    decreases |ops|
  {
    if ops == [] {
    } else {
      var before, op := ops[..|ops| - 1], ops[|ops| - 1];
      OneAckPerHeartbeat(t, before);
      var d := ApplyAll(t, before);
      OutputIsAckIff(d, op);
      AppendNothing(Outputs(t, before));
      if Output(d, op).Some? {
        AcksAppended(Outputs(t, before), Output(d, op).value);
      }
    }
  }

  function HeartbeatsAmong(frames: seq<KeepAliveFrame>): seq<KeepAliveFrame> {
    if frames == [] then []
    else
      var last := frames[|frames| - 1];
      HeartbeatsAmong(frames[..|frames| - 1]) + if last.ack then [] else [last]
  }

  /** The frames a run takes: those that arrive while the tracker is not expired. */
  function FramesTaken(t: Tracker, ops: seq<Op>): nat {
    if ops == [] then 0
    else
      var before := ops[..|ops| - 1];
      FramesTaken(t, before) + if ops[|ops| - 1].Receive? && !ApplyAll(t, before).expired then 1 else 0
  }

  lemma HeartbeatsAppended(frames: seq<KeepAliveFrame>, frame: KeepAliveFrame)
    ensures HeartbeatsAmong(frames + [frame]) == HeartbeatsAmong(frames) + if frame.ack then [] else [frame]
  {
    Split(frames, [frame]);
  }

  /** The number `n` heartbeats after `first`, as a u32. */
  function NumberAfter(first: u32, n: nat): u32 {
    (first + n) % TWO_32
  }

  /** What one step does to the number and the counters. */
  lemma StepNumbers(d: Tracker, op: Op)
    ensures var out, u := Output(d, op), Apply(d, op);
            && (out.Some? && !out.value.ack ==>
                  && out.value == KeepAliveFrame(false, d.nextSeq) && u.nextSeq == NumberAfter(d.nextSeq, 1)
                  && u.sent == d.sent + 1)
            && (out.None? || out.value.ack ==> u.nextSeq == d.nextSeq && u.sent == d.sent)
            && u.received == d.received + if op.Receive? && !d.expired then 1 else 0
  {
  }

  predicate Numbered(frames: seq<KeepAliveFrame>, first: u32) {
    forall k :: 0 <= k < |frames| ==> frames[k] == KeepAliveFrame(false, NumberAfter(first, k))
  }

  lemma NextNumber(first: u32, n: nat)
    ensures NumberAfter(first, 0) == first && NumberAfter(NumberAfter(first, n), 1) == NumberAfter(first, n + 1)
  {
  }

  lemma NothingNumbered(first: u32)
    ensures HeartbeatsAmong([]) == [] && Numbered([], first) && NumberAfter(first, 0) == first
  {
  }

  lemma NumberedAppended(frames: seq<KeepAliveFrame>, first: u32)
    requires Numbered(frames, first)
    ensures Numbered(frames + [KeepAliveFrame(false, NumberAfter(first, |frames|))], first)
  {
    hide NumberAfter;
  }

  /** The own heartbeats of a run are numbered one after the other, as a u32 that wraps, and every
      frame that is taken is counted, acknowledgements too. */
  lemma {:induction false} HeartbeatsAreNumbered(t: Tracker, ops: seq<Op>)
    ensures var d, sent := ApplyAll(t, ops), HeartbeatsAmong(Outputs(t, ops));
            && Numbered(sent, t.nextSeq) && d.nextSeq == NumberAfter(t.nextSeq, |sent|)
            && d.sent == t.sent + |sent| && d.received == t.received + FramesTaken(t, ops)
    decreases |ops|
  {
    hide HeartbeatsAmong, Apply, Output, Numbered, NumberAfter;
    if ops == [] {
      NothingNumbered(t.nextSeq);
    } else {
      var before, op := ops[..|ops| - 1], ops[|ops| - 1];
      var d, sent := ApplyAll(t, before), HeartbeatsAmong(Outputs(t, before));
      HeartbeatsAreNumbered(t, before);
      StepNumbers(d, op);
      NumberedAppended(sent, t.nextSeq);
      NextNumber(t.nextSeq, |sent|);
      AppendNothing(Outputs(t, before));
      AppendNothing(sent);
      if Output(d, op).Some? {
        HeartbeatsAppended(Outputs(t, before), Output(d, op).value);
      }
    }
  }

  /** A frame is refused as invalid exactly by a tracker that has expired. */
  lemma ReceiveAnswer(t: Tracker, ops: seq<Op>, frame: KeepAliveFrame, now: nat)
    ensures var d := ApplyAll(t, ops);
            OnReceived(d, frame, now).1 == if d.expired then Err(InvalidFrame)
                                           else if frame.ack then Ok(None) else Ok(Some(KeepAliveFrame(true, 0)))
  {
  }

  /** While the peer is silent nothing the tracker does moves its reference: it expires at
      exactly the first check later than reference plus timeout, however often it ticks. */
  lemma {:induction false} SilenceExpires(t: Tracker, ops: seq<Op>)
    requires Reference(t).Some? && !t.expired
    requires forall i :: 0 <= i < |ops| ==> !ops[i].Receive?
    ensures Reference(ApplyAll(t, ops)) == Reference(t) && ApplyAll(t, ops).timeoutMs == t.timeoutMs
    ensures ApplyAll(t, ops).expired <==>
            exists i :: 0 <= i < |ops| && ops[i].Check? && SatSub(ops[i].now, Reference(t).value) > t.timeoutMs
    decreases |ops|
  {
    if ops == [] {
    } else {
      var n := |ops| - 1;
      var before := ops[..n];
      SilenceExpires(t, before);
      assert forall i :: 0 <= i < n ==> before[i] == ops[i];
    }
  }

  /** Expiry is permanent: no tick, no frame and no check revives a tracker. */
  lemma {:induction false} ExpiryIsPermanent(t: Tracker, ops: seq<Op>)
    requires t.expired
    ensures ApplyAll(t, ops) == t
    decreases |ops|
  {
    if ops == [] {
    } else {
      ExpiryIsPermanent(t, ops[..|ops| - 1]);
    }
  }

  // ---------------------------------------------------------------- two trackers

  /** One peer: its tracker, when it sent heartbeats, when it last polled, and which of the
      other's heartbeats have arrived. */
  datatype Side = Side(tracker: Tracker, sends: seq<nat>, lastPoll: nat, heard: set<nat>)

  datatype Pair = Pair(a: Side, b: Side, start: nat, time: nat)

  /** A poll checks for expiry and then ticks; a heartbeat or an acknowledgement arrives. */
  datatype PairEvent =
    | Poll(atA: bool, now: nat)
    | Arrive(atA: bool, index: nat, now: nat)
    | ArriveAck(atA: bool, now: nat)

  function PollSide(s: Side, now: nat): Side {
    var (t, _) := CheckExpired(s.tracker, now);
    var (u, frame) := OnTick(t, now);
    Side(u, if frame.Some? then s.sends + [now] else s.sends, now, s.heard)
  }

  function HearSide(s: Side, index: nat, now: nat): Side {
    s.(tracker := OnReceived(s.tracker, KeepAliveFrame(false, 0), now).0, heard := s.heard + {index})
  }

  function AckSide(s: Side, now: nat): Side {
    s.(tracker := OnReceived(s.tracker, KeepAliveFrame(true, 0), now).0)
  }

  function PairStep(p: Pair, e: PairEvent): Pair {
    var q := p.(time := e.now);
    match e
    case Poll(atA, now) => if atA then q.(a := PollSide(p.a, now)) else q.(b := PollSide(p.b, now))
    case Arrive(atA, i, now) => if atA then q.(a := HearSide(p.a, i, now)) else q.(b := HearSide(p.b, i, now))
    case ArriveAck(atA, now) => if atA then q.(a := AckSide(p.a, now)) else q.(b := AckSide(p.b, now))
  }

  datatype Timing = Timing(interval: nat, timeout: nat, gap: nat, delay: nat)

  /** How far apart heartbeats can be: the last poll that finds none due, and one poll gap. */
  function Spacing(x: Timing): nat {
    (if x.interval == 0 then 0 else x.interval - 1) + x.gap
  }

  /** At this moment nobody is late: no poll is overdue, no heartbeat older than the delay
      is still on its way to `w`. */
  ghost predicate OnTime(x: Timing, s: Side, w: Side, now: nat) {
    && now <= s.lastPoll + x.gap
    && forall i :: 0 <= i < |s.sends| && i !in w.heard ==> now <= s.sends[i] + x.delay
  }

  ghost predicate Timely(x: Timing, p: Pair, e: PairEvent) {
    && p.time <= e.now
    && OnTime(x, p.a, p.b, e.now) && OnTime(x, p.b, p.a, e.now)
    && (e.Arrive? ==> e.index < |if e.atA then p.b.sends else p.a.sends|)
  }

  function PairRun(x: Timing, start: nat, events: seq<PairEvent>): Pair {
    if events == [] then
      var s := Side(NewTracker(x.interval, x.timeout), [], start, {});
      Pair(s, s, start, start)
    else PairStep(PairRun(x, start, events[..|events| - 1]), events[|events| - 1])
  }

  ghost predicate TimelyRun(x: Timing, start: nat, events: seq<PairEvent>) {
    forall n :: 0 <= n < |events| ==> Timely(x, PairRun(x, start, events[..n]), events[n])
  }

  /** How a sender spaces its heartbeats, and what its own tracker knows of them. */
  ghost predicate Sender(x: Timing, start: nat, time: nat, s: Side) {
    && s.tracker.intervalMs == x.interval && s.tracker.timeoutMs == x.timeout && !s.tracker.expired
    && start <= s.lastPoll <= time
    && (s.sends == [] ==> s.lastPoll == start && s.tracker.lastSent.None? && s.tracker.firstSent.None?)
    && (s.sends != [] ==>
          var last := s.sends[|s.sends| - 1];
          && s.tracker.lastSent == Some(last) && s.tracker.firstSent == Some(s.sends[0])
          && last <= s.lastPoll && (s.lastPoll == last || s.lastPoll < last + x.interval)
          && start <= s.sends[0] <= start + x.gap)
    && (forall i :: 0 <= i < |s.sends| ==> start <= s.sends[i] <= time)
    && (forall i :: 0 < i < |s.sends| ==> s.sends[i] <= s.sends[i - 1] + Spacing(x))
  }

  /** What a watcher has heard is at least as recent as the heartbeats that arrived. */
  ghost predicate Watcher(start: nat, time: nat, s: Side, w: Side) {
    && (forall i :: i in w.heard ==> i < |s.sends|)
    && (w.tracker.lastReceived.None? ==> w.heard == {})
    && (w.tracker.lastReceived.Some? ==> start <= w.tracker.lastReceived.value <= time)
    && (forall i :: i in w.heard && i < |s.sends| ==>
          w.tracker.lastReceived.Some? && s.sends[i] <= w.tracker.lastReceived.value)
  }

  ghost predicate Alive(x: Timing, p: Pair) {
    && p.start <= p.time
    && Sender(x, p.start, p.time, p.a) && Sender(x, p.start, p.time, p.b)
    && Watcher(p.start, p.time, p.a, p.b) && Watcher(p.start, p.time, p.b, p.a)
  }

  /** The latest heartbeat that arrived, counting down from `n`. */
  lemma {:induction false} LatestHeard(heard: set<nat>, n: nat) returns (k: nat)
    requires exists i :: i in heard && i < n
    ensures k in heard && k < n && forall i :: k < i < n ==> i !in heard
    decreases n
  {
    if n - 1 in heard {
      k := n - 1;
    } else {
      k := LatestHeard(heard, n - 1);
    }
  }

  /** The heart of the matter: whatever is delayed or reordered, the watcher's reference is
      never older than the heartbeats are apart, and the delay. */
  lemma ReferenceIsRecent(x: Timing, start: nat, time: nat, s: Side, w: Side, now: nat)
    requires Sender(x, start, time, s) && Sender(x, start, time, w) && Watcher(start, time, s, w)
    requires time <= now && OnTime(x, s, w, now)
    ensures Reference(w.tracker).Some? ==> now <= Reference(w.tracker).value + Spacing(x) + x.delay
  {
    if i: nat :| i in w.heard && i < |s.sends| {
      var k := LatestHeard(w.heard, |s.sends|);
      if k + 1 < |s.sends| {
        assert now <= s.sends[k + 1] + x.delay;
        assert s.sends[k + 1] <= s.sends[k + 1 - 1] + Spacing(x);
      }
    } else if s.sends != [] {
      assert 0 !in w.heard;
    }
  }

  lemma PollKeepsSender(x: Timing, start: nat, time: nat, s: Side, w: Side, now: nat)
    requires Spacing(x) + x.delay <= x.timeout
    requires Sender(x, start, time, s) && Sender(x, start, time, w) && Watcher(start, time, w, s)
    requires time <= now && OnTime(x, w, s, now) && now <= s.lastPoll + x.gap
    ensures Sender(x, start, now, PollSide(s, now))
    ensures Watcher(start, now, w, PollSide(s, now))
  {
    PollIsAlive(x, start, time, s, w, now);
    PollSends(x, start, time, s, now);
    hide OnTime, Reference, PollSide, CheckExpired, OnTick;
  }

  /** Polling a tracker that is not expired: it stays so, and sends when a heartbeat is due. */
  lemma PollIsAlive(x: Timing, start: nat, time: nat, s: Side, w: Side, now: nat)
    requires Spacing(x) + x.delay <= x.timeout
    requires Sender(x, start, time, s) && Sender(x, start, time, w) && Watcher(start, time, w, s)
    requires time <= now && OnTime(x, w, s, now)
    ensures CheckExpired(s.tracker, now).0 == s.tracker
  {
    ReferenceIsRecent(x, start, time, w, s, now);
  }

  lemma PollSends(x: Timing, start: nat, time: nat, s: Side, now: nat)
    requires Sender(x, start, time, s) && time <= now <= s.lastPoll + x.gap
    requires CheckExpired(s.tracker, now).0 == s.tracker
    ensures Sender(x, start, now, PollSide(s, now))
    ensures PollSide(s, now).tracker.lastReceived == s.tracker.lastReceived && PollSide(s, now).heard == s.heard
    ensures s.sends <= PollSide(s, now).sends
  {
    hide CheckExpired;
    var u := PollSide(s, now);
    assert forall i :: 0 <= i < |s.sends| ==> u.sends[i] == s.sends[i];
  }

  lemma PollKeepsWatcher(start: nat, time: nat, s: Side, w: Side, now: nat)
    requires Watcher(start, time, s, w) && time <= now
    ensures Watcher(start, now, PollSide(s, now), w)
  {
    var u := PollSide(s, now);
    assert forall i :: 0 <= i < |s.sends| ==> u.sends[i] == s.sends[i];
  }

  lemma HearKeeps(x: Timing, start: nat, time: nat, s: Side, w: Side, i: nat, now: nat)
    requires Sender(x, start, time, s) && Sender(x, start, time, w) && Watcher(start, time, s, w)
             && Watcher(start, time, w, s)
    requires start <= time <= now && i < |s.sends|
    ensures Sender(x, start, now, HearSide(w, i, now)) && Watcher(start, now, s, HearSide(w, i, now))
    ensures Watcher(start, now, HearSide(w, i, now), s) && Sender(x, start, now, s)
  {
  }

  lemma AckKeeps(x: Timing, start: nat, time: nat, s: Side, w: Side, now: nat)
    requires Sender(x, start, time, s) && Sender(x, start, time, w) && Watcher(start, time, s, w)
             && Watcher(start, time, w, s)
    requires start <= time <= now
    ensures Sender(x, start, now, AckSide(w, now)) && Watcher(start, now, s, AckSide(w, now))
    ensures Watcher(start, now, AckSide(w, now), s) && Sender(x, start, now, s)
  {
  }

  lemma TimelyPrefix(x: Timing, start: nat, events: seq<PairEvent>)
    requires events != [] && TimelyRun(x, start, events)
    ensures var before := events[..|events| - 1];
            TimelyRun(x, start, before) && Timely(x, PairRun(x, start, before), events[|events| - 1])
  {
    hide Timely, PairRun;
    var before := events[..|events| - 1];
    assert forall m :: 0 <= m < |before| ==> before[m] == events[m] && before[..m] == events[..m];
  }

  /** Two peers whose heartbeat spacing and delivery delay fit the timeout never declare each
      other dead, in any run in which nobody is later than that. */
  lemma {:induction false} PairNeverExpires(x: Timing, start: nat, events: seq<PairEvent>)
    requires Spacing(x) + x.delay <= x.timeout
    requires TimelyRun(x, start, events)
    ensures var p := PairRun(x, start, events);
            Alive(x, p) && p.start == start && !p.a.tracker.expired && !p.b.tracker.expired
    decreases |events|
  {
    if events == [] {
    } else {
      var before, e := events[..|events| - 1], events[|events| - 1];
      TimelyPrefix(x, start, events);
      hide Sender, Watcher, PairStep, OnTime, Timely, TimelyRun;
      PairNeverExpires(x, start, before);
      AliveStep(x, PairRun(x, start, before), e);
    }
  }

  lemma AliveStep(x: Timing, p: Pair, e: PairEvent)
    requires Spacing(x) + x.delay <= x.timeout
    requires Alive(x, p) && Timely(x, p, e)
    ensures Alive(x, PairStep(p, e)) && !PairStep(p, e).a.tracker.expired && !PairStep(p, e).b.tracker.expired
  {
    hide PollSide, HearSide, AckSide;
    var (s, w) := if e.atA then (p.a, p.b) else (p.b, p.a);
    match e
    case Poll(_, now) =>
      PollKeepsSender(x, p.start, p.time, s, w, now);
      PollKeepsWatcher(p.start, p.time, s, w, now);
      LaterIsFine(x, p.start, p.time, w, now);
    case Arrive(_, i, now) =>
      HearKeeps(x, p.start, p.time, w, s, i, now);
    case ArriveAck(_, now) =>
      AckKeeps(x, p.start, p.time, w, s, now);
  }

  lemma LaterIsFine(x: Timing, start: nat, time: nat, s: Side, now: nat)
    requires Sender(x, start, time, s) && time <= now
    ensures Sender(x, start, now, s)
  {
  }

  // ---------------------------------------------------------------- one millisecond more

  lemma TimelyAppended(x: Timing, start: nat, events: seq<PairEvent>, e: PairEvent)
    requires TimelyRun(x, start, events) && Timely(x, PairRun(x, start, events), e)
    ensures TimelyRun(x, start, events + [e])
    ensures PairRun(x, start, events + [e]) == PairStep(PairRun(x, start, events), e)
  {
    hide Timely, PairStep;
    var all := events + [e];
    assert all[..|events|] == events;
    assert forall n :: 0 <= n < |events| ==> all[n] == events[n] && all[..n] == events[..n];
  }

  /** B sends at once and is heard at once. Its next poll finds a heartbeat one millisecond short
      of due, the one after that is a gap later, and the delay is not over when A polls. */
  function LateEvents(x: Timing): (e: seq<PairEvent>)
    requires x.interval > 0
    ensures |e| == 8
  {
    var (one, two) := (x.interval - 1, Spacing(x));
    [Poll(false, 0), Arrive(true, 0, 0), Poll(true, one), Arrive(false, 0, one), Poll(false, one),
     Poll(true, two), Poll(false, two), Poll(true, two + x.delay)]
  }

  /** Where the first five of them lead. */
  function LateState(x: Timing, n: nat): Pair
    requires x.interval > 0 && n <= 5
  {
    var one := x.interval - 1;
    var idle := Side(NewTracker(x.interval, x.timeout), [], 0, {});
    var b1 := Side(Tracker(x.interval, x.timeout, 2, Some(0), Some(0), None, 1, 0, 0, false), [0], 0, {});
    var b4 := Side(Tracker(x.interval, x.timeout, 2, Some(0), Some(0), Some(one), 1, 1, 1, false), [0], 0, {0});
    var a2 := Side(Tracker(x.interval, x.timeout, 1, None, None, Some(0), 0, 1, 1, false), [], 0, {0});
    var a3 := Side(Tracker(x.interval, x.timeout, 2, Some(one), Some(one), Some(0), 1, 1, 1, false), [one], one, {0});
    if n == 0 then Pair(idle, idle, 0, 0)
    else if n == 1 then Pair(idle, b1, 0, 0)
    else if n == 2 then Pair(a2, b1, 0, 0)
    else if n == 3 then Pair(a3, b1, 0, one)
    else if n == 4 then Pair(a3, b4, 0, one)
    else Pair(a3, b4.(lastPoll := one), 0, one)
  }

  lemma LateStep(x: Timing, n: nat)
    requires 0 < x.interval <= x.timeout && x.interval - 1 <= x.gap && n < 5
    ensures PairStep(LateState(x, n), LateEvents(x)[n]) == LateState(x, n + 1)
    ensures Timely(x, LateState(x, n), LateEvents(x)[n])
  {
    assert [] + [x.interval - 1] == [x.interval - 1];
  }

  lemma PollFacts(s: Side, now: nat)
    ensures var u := PollSide(s, now);
            && u.lastPoll == now && u.heard == s.heard && (u.sends == s.sends || u.sends == s.sends + [now])
            && u.tracker.lastReceived == s.tracker.lastReceived && u.tracker.timeoutMs == s.tracker.timeoutMs
    ensures s.tracker.expired || Overdue(s.tracker, now) ==> PollSide(s, now).tracker.expired
  {
  }

  /** After the sixth and the seventh of them: both have just polled, and whether they are dead or
      not, nothing has been heard since. */
  ghost predicate JustPolled(x: Timing, p: Pair) {
    var two := Spacing(x);
    && p.time == two && p.a.lastPoll == two && p.b.lastPoll == two && p.a.heard == p.b.heard == {0}
    && (p.a.sends == [x.interval - 1] || p.a.sends == [x.interval - 1, two])
    && (p.b.sends == [0] || p.b.sends == [0, two])
    && p.a.tracker.lastReceived == Some(0) && p.a.tracker.timeoutMs == x.timeout
  }

  lemma LatePolls(x: Timing)
    requires 0 < x.interval <= x.timeout && x.interval - 1 <= x.gap
    ensures var e, p5 := LateEvents(x), LateState(x, 5);
            var p6 := PairStep(p5, e[5]);
            && Timely(x, p5, e[5]) && Timely(x, p6, e[6]) && JustPolled(x, PairStep(p6, e[6]))
  {
    var p5, two := LateState(x, 5), Spacing(x);
    PollFacts(p5.a, two);
    PollFacts(p5.b, two);
    hide PollSide;
    assert [x.interval - 1] + [two] == [x.interval - 1, two] && [0] + [two] == [0, two];
  }

  lemma LateEnd(x: Timing, p: Pair)
    requires 0 < x.interval && x.delay <= x.gap && Spacing(x) + x.delay > x.timeout && JustPolled(x, p)
    ensures Timely(x, p, LateEvents(x)[7]) && PairStep(p, LateEvents(x)[7]).a.tracker.expired
  {
    PollFacts(p.a, Spacing(x) + x.delay);
    hide PollSide;
  }

  /** The run up to the `n`-th of these events. */
  function LateRun(x: Timing, n: nat): Pair
    requires x.interval > 0 && n <= 8
  {
    PairRun(x, 0, LateEvents(x)[..n])
  }

  lemma LateAppended(x: Timing, n: nat)
    requires x.interval > 0 && n < 8
    requires TimelyRun(x, 0, LateEvents(x)[..n]) && Timely(x, LateRun(x, n), LateEvents(x)[n])
    ensures TimelyRun(x, 0, LateEvents(x)[..n + 1]) && LateRun(x, n + 1) == PairStep(LateRun(x, n), LateEvents(x)[n])
  {
    hide LateEvents, PairRun, PairStep, TimelyRun, Timely;
    assert LateEvents(x)[..n] + [LateEvents(x)[n]] == LateEvents(x)[..n + 1];
    TimelyAppended(x, 0, LateEvents(x)[..n], LateEvents(x)[n]);
  }

  lemma {:induction false} LateBegin(x: Timing, n: nat)
    requires 0 < x.interval <= x.timeout && x.interval - 1 <= x.gap && n <= 5
    ensures TimelyRun(x, 0, LateEvents(x)[..n]) && LateRun(x, n) == LateState(x, n)
  {
    if n == 0 {
      assert LateEvents(x)[..0] == [];
    } else {
      hide LateEvents, LateRun, LateState, TimelyRun, Timely, PairStep;
      LateBegin(x, n - 1);
      LateStep(x, n - 1);
      LateAppended(x, n - 1);
    }
  }

  /** The bound is sharp: as soon as spacing and delay together are longer than the timeout, a
      run in which nobody is late ends with a peer declared dead. */
  lemma LatePairExpires(x: Timing)
    requires 0 < x.interval <= x.timeout && x.interval - 1 <= x.gap && x.delay <= x.gap
    requires Spacing(x) + x.delay > x.timeout
    ensures TimelyRun(x, 0, LateEvents(x)) && PairRun(x, 0, LateEvents(x)).a.tracker.expired
  {
    assert LateEvents(x)[..8] == LateEvents(x);
    hide LateEvents, LateState, TimelyRun, Timely, PairStep, PairRun, JustPolled;
    LateBegin(x, 5);
    LatePolls(x);
    LateAppended(x, 5);
    LateAppended(x, 6);
    LateEnd(x, LateRun(x, 7));
    LateAppended(x, 7);
  }
}
