/** The restricted session of proto-quickshare/src/session.rs: bytes in, handshake forward,
    events out, and a gate in front of every payload. */
module Session {
  import opened Prelude
  import opened Framing
  import opened Handshake
  import opened Ukey2Wire

  const HANDSHAKE_TIMEOUT_MS: nat := 60_000

  datatype Provenance = Qr | Broadcast | Manual
  datatype GateRefusal = NotEstablished | ConfirmationRequired
  datatype Event = FrameEvent(messageType: MessageType) | Established | AlertEvent(alert: AlertType)

  /** The handshake state a session drives; absent when it could not be created. */
  datatype Peer =
    | ServerPeer(serverConfig: ServerConfig, server: Option<ServerState>)
    | ClientPeer(clientConfig: ClientConfig, client: Option<ClientState>)

  datatype SessionState = SessionState(
    buf: Bytes, peer: Peer, discovery: Option<Provenance>, confirmed: bool, payloads: nat, payloadBytes: nat,
    outbound: seq<Bytes>, startedMs: Option<nat>, dead: bool)

  function Keys(peer: Peer): Option<SessionKeys> {
    match peer
    case ServerPeer(_, s) => if s.Some? then s.value.keys else None
    case ClientPeer(_, c) => if c.Some? then c.value.keys else None
  }

  predicate IsEstablished(peer: Peer) {
    match peer
    case ServerPeer(_, s) => s.Some? && s.value.phase.ServerEstablished?
    case ClientPeer(_, c) => c.Some? && c.value.phase.ClientEstablished?
  }

  /** What the handshake makes of one message: new state, a message to send, or an alert. */
  datatype Reaction = Reaction(peer: Peer, send: seq<Bytes>, outcome: Outcome<bool>)

  function React(p: Primitives, peer: Peer, t: MessageType, frame: Bytes): Reaction {
    match peer
    case ServerPeer(d, s) =>
      if s.None? then Reaction(peer, [], Refused(InternalError))
      else if t.ClientInitType? then
        var (s', r) := HandleClientInit(p, d, s.value, frame);
        if r.Done? then Reaction(ServerPeer(d, Some(s')), [r.value], Done(false))
        else Reaction(ServerPeer(d, Some(s')), [], Refused(r.alert))
      else if t.ClientFinishType? then
        var (s', r) := HandleClientFinish(p, s.value, frame);
        Reaction(ServerPeer(d, Some(s')), [], if r.Done? then Done(true) else Refused(r.alert))
      else Reaction(peer, [], Refused(IncorrectMessage))
    case ClientPeer(c, s) =>
      if s.None? then Reaction(peer, [], Refused(InternalError))
      else if t.ServerInitType? then
        var (s', r) := HandleServerInit(p, c, s.value, frame);
        if r.Done? then Reaction(ClientPeer(c, Some(s')), [r.value.0], Done(false))
        else Reaction(ClientPeer(c, Some(s')), [], Refused(r.alert))
      else Reaction(peer, [], Refused(BadMessageType))
  }

  /** One frame; it is processed even when an earlier frame of the same call killed the session. */
  function FeedFrame(p: Primitives, s: SessionState, frame: Bytes): (SessionState, seq<Event>) {
    var m := DecodeMessage(frame);
    if m.Err? then (s.(dead := true), [AlertEvent(BadMessage)])
    else
      var t := m.value.messageType;
      var r := React(p, s.peer, t, frame);
      var s' := s.(peer := r.peer, outbound := s.outbound + r.send);
      match r.outcome
      case Done(established) => (s', [FrameEvent(t)] + if established then [Established] else [])
      case Refused(a) => (s'.(dead := true), [FrameEvent(t), AlertEvent(a)])
  }

  function FeedFrames(p: Primitives, s: SessionState, frames: seq<Bytes>): (SessionState, seq<Event>) {
    if frames == [] then (s, [])
    else
      var (t, events) := FeedFrames(p, s, frames[..|frames| - 1]);
      var (u, more) := FeedFrame(p, t, frames[|frames| - 1]);
      (u, events + more)
  }

  function Started(s: SessionState, now: nat): SessionState {
    if s.startedMs.Some? then s else s.(startedMs := Some(now))
  }

  predicate TimedOut(s: SessionState, now: nat) {
    !IsEstablished(s.peer) && s.startedMs.Some? && SatSub(now, s.startedMs.value) > HANDSHAKE_TIMEOUT_MS
  }

  function Feed(p: Primitives, s: SessionState, now: nat, chunk: Bytes): (SessionState, Result<seq<Event>>) {
    if s.dead then (s, Err(AuthDenied))
    else
      var t := Started(s, now);
      if TimedOut(t, now) then (t.(dead := true), Ok([AlertEvent(InternalError)]))
      else
        var d := Drain(DEFAULT_MAX_FRAME_BYTES, t.buf + chunk);
        var u := t.(buf := d.rest);
        if d.error.Some? then (u, Err(d.error.value))
        else
          var (v, events) := FeedFrames(p, u, d.frames);
          (v, Ok(events))
  }

  /** The client's first message; sessions of the other role have none. */
  function BeginClient(p: Primitives, s: SessionState): (SessionState, Result<Bytes>) {
    match s.peer
    case ServerPeer(_, _) => (s, Err(UnsupportedRole))
    case ClientPeer(c, client) =>
      if client.None? then (s, Err(UnsupportedRole))
      else
        var (client', r) := Start(p, c, client.value);
        if r.Err? then (s, r)
        else (s.(peer := ClientPeer(c, Some(client')), outbound := s.outbound + [r.value], startedMs := Some(0)), r)
  }

  function Confirm(s: SessionState, code: string): (SessionState, Result<()>) {
    var keys := Keys(s.peer);
    if keys.None? then (s, Err(PairingFailed))
    else if keys.value.pin == code then (s.(confirmed := true), Ok(()))
    else (s.(confirmed := false), Err(PairingFailed))
  }

  datatype Delivery = Delivered | Withheld(reason: GateRefusal)

  function Deliver(s: SessionState, n: nat): (SessionState, Delivery) {
    if !IsEstablished(s.peer) || s.dead then (s, Withheld(NotEstablished))
    else if !s.confirmed then (s, Withheld(ConfirmationRequired))
    else (s.(payloads := s.payloads + 1, payloadBytes := s.payloadBytes + n), Delivered)
  }

  // ---------------------------------------------------------------- the gate, over whole runs

  datatype Op =
    | NoteDiscovery(provenance: Provenance)
    | ClientInitOp
    | TakeOutbound
    | FeedOp(now: nat, chunk: Bytes)
    | ConfirmOp(code: string)
    | DeliverOp(n: nat)

  function Step(p: Primitives, s: SessionState, op: Op): SessionState {
    match op
    case NoteDiscovery(v) => s.(discovery := Some(v))
    case ClientInitOp => BeginClient(p, s).0
    case TakeOutbound => s.(outbound := [])
    case FeedOp(now, chunk) => Feed(p, s, now, chunk).0
    case ConfirmOp(code) => Confirm(s, code).0
    case DeliverOp(n) => Deliver(s, n).0
  }

  function RunOps(p: Primitives, s: SessionState, ops: seq<Op>): SessionState {
    if ops == [] then s else Step(p, RunOps(p, s, ops[..|ops| - 1]), ops[|ops| - 1])
  }

  /** The code given at the latest comparison. */
  function LastCode(ops: seq<Op>): Option<string> {
    if ops == [] then None
    else if ops[|ops| - 1].ConfirmOp? then Some(ops[|ops| - 1].code)
    else LastCode(ops[..|ops| - 1])
  }

  ghost predicate Fresh(s: SessionState) {
    && s.buf == [] && !s.confirmed && s.payloads == 0 && s.payloadBytes == 0 && s.outbound == []
    && s.startedMs.None? && !s.dead && s.discovery.None?
    && match s.peer
       case ServerPeer(_, st) => st.None? || st.value == FRESH_SERVER
       case ClientPeer(_, st) => st.None? || st.value == FRESH_CLIENT
  }

  /** Keys exist exactly when the handshake is established. */
  ghost predicate KeysMatchPhase(peer: Peer) {
    Keys(peer).Some? <==> IsEstablished(peer)
  }

  lemma ReactKeepsKeys(p: Primitives, peer: Peer, t: MessageType, frame: Bytes)
    requires KeysMatchPhase(peer)
    ensures KeysMatchPhase(React(p, peer, t, frame).peer)
    ensures IsEstablished(peer) ==> React(p, peer, t, frame).peer == peer
  {
    hide CheckClientInit, DecodeMessage, DecodeServerInit, DecodeKey, DecodeClientFinished, DeriveKeys,
      EncodeServerInit;
  }

  /** What feeding can do to the parts of the state the gate looks at. */
  ghost predicate GateParts(s: SessionState, t: SessionState) {
    && KeysMatchPhase(t.peer) && t.confirmed == s.confirmed && t.payloads == s.payloads
    && t.payloadBytes == s.payloadBytes
    && (IsEstablished(s.peer) ==> t.peer == s.peer) && (s.dead ==> t.dead)
  }

  lemma FrameGateParts(p: Primitives, s: SessionState, frame: Bytes)
    requires KeysMatchPhase(s.peer)
    ensures GateParts(s, FeedFrame(p, s, frame).0)
  {
    hide React, DecodeMessage;
    var m := DecodeMessage(frame);
    if m.Ok? {
      ReactKeepsKeys(p, s.peer, m.value.messageType, frame);
    }
  }

  lemma {:induction false} FramesGateParts(p: Primitives, s: SessionState, frames: seq<Bytes>)
    requires KeysMatchPhase(s.peer)
    ensures GateParts(s, FeedFrames(p, s, frames).0)
    decreases |frames|
  {
    if frames == [] {
    } else {
      hide FeedFrame;
      var before := frames[..|frames| - 1];
      FramesGateParts(p, s, before);
      FrameGateParts(p, FeedFrames(p, s, before).0, frames[|frames| - 1]);
    }
  }

  lemma FeedGateParts(p: Primitives, s: SessionState, now: nat, chunk: Bytes)
    requires KeysMatchPhase(s.peer)
    ensures GateParts(s, Feed(p, s, now, chunk).0)
  {
    hide FeedFrames, Drain;
    if !s.dead {
      var t := Started(s, now);
      var d := Drain(DEFAULT_MAX_FRAME_BYTES, t.buf + chunk);
      FramesGateParts(p, t.(buf := d.rest), d.frames);
    }
  }

  /** The gate is open only on a match of the latest code with the derived one. */
  ghost predicate GateSound(s: SessionState, last: Option<string>) {
    && KeysMatchPhase(s.peer)
    && (s.confirmed ==> Keys(s.peer).Some? && last == Some(Keys(s.peer).value.pin))
  }

  lemma {:induction false} GateStaysSound(p: Primitives, s: SessionState, ops: seq<Op>)
    requires Fresh(s)
    ensures GateSound(RunOps(p, s, ops), LastCode(ops))
    decreases |ops|
  {
    if ops == [] {
    } else {
      hide Feed, Start;
      var before, op := ops[..|ops| - 1], ops[|ops| - 1];
      var t := RunOps(p, s, before);
      GateStaysSound(p, s, before);
      if op.FeedOp? {
        FeedGateParts(p, t, op.now, op.chunk);
      }
      if op.ClientInitOp? {
        BeginKeepsKeys(p, t);
      }
    }
  }

  lemma BeginKeepsKeys(p: Primitives, s: SessionState)
    requires KeysMatchPhase(s.peer)
    ensures KeysMatchPhase(BeginClient(p, s).0.peer) && Keys(BeginClient(p, s).0.peer) == Keys(s.peer)
    ensures BeginClient(p, s).0.confirmed == s.confirmed && BeginClient(p, s).0.payloads == s.payloads
    ensures BeginClient(p, s).0.dead == s.dead
  {
    hide EncodeClientInit, InitFor, FinishFor;
  }

  /** In every run a payload is delivered only by a session that is established and alive
      and whose latest code was the one the handshake derived. Neither how the peer was
      discovered nor anything fed after an alert opens the gate. */
  lemma PayloadGate(p: Primitives, s: SessionState, ops: seq<Op>, op: Op)
    requires Fresh(s)
    ensures var t, u := RunOps(p, s, ops), RunOps(p, s, ops + [op]);
            u.payloads != t.payloads ==>
              && op.DeliverOp? && u.payloads == t.payloads + 1 && u.payloadBytes == t.payloadBytes + op.n
              && IsEstablished(t.peer) && !t.dead
              && Keys(t.peer).Some? && LastCode(ops) == Some(Keys(t.peer).value.pin)
  {
    hide Feed, Start, BeginClient;
    var t := RunOps(p, s, ops);
    assert (ops + [op])[..|ops|] == ops;
    assert RunOps(p, s, ops + [op]) == Step(p, t, op);
    GateStaysSound(p, s, ops);
    if op.FeedOp? {
      FeedGateParts(p, t, op.now, op.chunk);
    }
    if op.ClientInitOp? {
      BeginKeepsKeys(p, t);
    }
  }

  /** Death is final: nothing delivers afterwards. */
  lemma {:induction false} DeadDeliversNothing(p: Primitives, s: SessionState, ops: seq<Op>, more: seq<Op>)
    requires Fresh(s) && RunOps(p, s, ops).dead
    ensures RunOps(p, s, ops + more).dead && RunOps(p, s, ops + more).payloads == RunOps(p, s, ops).payloads
    decreases |more|
  {
    if more == [] {
      assert ops + more == ops;
    } else {
      hide Feed, Start, BeginClient, Fresh;
      var n := |more| - 1;
      var before, op := ops + more[..n], more[n];
      assert ops + more == before + [op];
      assert (before + [op])[..|before|] == before;
      DeadDeliversNothing(p, s, ops, more[..n]);
      var t := RunOps(p, s, before);
      GateStaysSound(p, s, before);
      if op.FeedOp? {
        FeedGateParts(p, t, op.now, op.chunk);
      }
      if op.ClientInitOp? {
        BeginKeepsKeys(p, t);
      }
      assert RunOps(p, s, before + [op]) == Step(p, t, op);
    }
  }

  // ---------------------------------------------------------------- fragmentation

  /** Everything the calls returned, and the state they left, for chunks fed at one time. */
  function FeedAll(p: Primitives, s: SessionState, now: nat, chunks: seq<Bytes>): (SessionState, seq<Event>) {
    if chunks == [] then (s, [])
    else
      var (t, events) := FeedAll(p, s, now, chunks[..|chunks| - 1]);
      var (u, r) := Feed(p, t, now, chunks[|chunks| - 1]);
      (u, if r.Ok? then events + r.value else events)
  }

  predicate AlertFree(events: seq<Event>) {
    forall i :: 0 <= i < |events| ==> !events[i].AlertEvent?
  }

  /** Up to and including the first alert. */
  function UpToAlert(events: seq<Event>): (r: seq<Event>)
    ensures AlertFree(events) ==> r == events
  {
    if events == [] then []
    else if events[0].AlertEvent? then [events[0]]
    else [events[0]] + UpToAlert(events[1..])
  }

  lemma {:induction false} UpToAlertAppend(a: seq<Event>, b: seq<Event>)
    ensures UpToAlert(a + b) == if AlertFree(a) then a + UpToAlert(b) else UpToAlert(a)
    ensures AlertFree(a + b) <==> AlertFree(a) && AlertFree(b)
    decreases |a|
  {
    if a == [] {
      assert a + b == b;
    } else {
      var tail := a[1..];
      Extend(a, 1, b);
      UpToAlertAppend(tail, b);
      HeadTail(a);
      AlertFreeAppend([a[0]], tail);
      Assoc([a[0]], tail, UpToAlert(b));
      AlertFreeAppend(a, b);
    }
  }

  lemma {:induction false} FeedFramesAppend(p: Primitives, s: SessionState, a: seq<Bytes>, b: seq<Bytes>)
    ensures var (t, e1) := FeedFrames(p, s, a);
            var (u, e2) := FeedFrames(p, t, b);
            FeedFrames(p, s, a + b) == (u, e1 + e2)
    decreases |b|
  {
    hide FeedFrame;
    var (t, e1) := FeedFrames(p, s, a);
    if b == [] {
      assert a + b == a;
      AppendNothing(e1);
    } else {
      var n := |b| - 1;
      FeedFramesAppend(p, s, a, b[..n]);
      assert (a + b)[..|a| + n] == a + b[..n];
      var (u, e2) := FeedFrames(p, t, b[..n]);
      Assoc(e1, e2, FeedFrame(p, u, b[n]).1);
    }
  }

  /** Frames never touch the clock, and kill exactly when they alert. */
  lemma FrameKills(p: Primitives, s: SessionState, frame: Bytes)
    ensures var (t, events) := FeedFrame(p, s, frame);
            && t.startedMs == s.startedMs && t.buf == s.buf
            && (t.dead <==> s.dead || !AlertFree(events))
            && (IsEstablished(s.peer) ==> IsEstablished(t.peer))
  {
    hide React, DecodeMessage, UpToAlert;
    var m := DecodeMessage(frame);
    if m.Ok? {
      EstablishedStays(p, s.peer, m.value.messageType, frame);
      var (t, events) := FeedFrame(p, s, frame);
      if React(p, s.peer, m.value.messageType, frame).outcome.Refused? {
        assert events[1].AlertEvent?;
      } else {
        assert forall i :: 0 <= i < |events| ==> !events[i].AlertEvent?;
      }
    } else {
      assert FeedFrame(p, s, frame).1[0].AlertEvent?;
    }
  }

  lemma AlertFreeAppend(a: seq<Event>, b: seq<Event>)
    ensures AlertFree(a + b) <==> AlertFree(a) && AlertFree(b)
  {
    if AlertFree(a + b) {
      assert forall i :: 0 <= i < |a| ==> a[i] == (a + b)[i];
      assert forall i :: 0 <= i < |b| ==> b[i] == (a + b)[|a| + i];
    }
  }

  lemma {:induction false} FramesKill(p: Primitives, s: SessionState, frames: seq<Bytes>)
    ensures var (t, events) := FeedFrames(p, s, frames);
            && t.startedMs == s.startedMs && t.buf == s.buf
            && (t.dead <==> s.dead || !AlertFree(events))
            && (IsEstablished(s.peer) ==> IsEstablished(t.peer))
    decreases |frames|
  {
    if frames == [] {
    } else {
      hide FeedFrame, AlertFree, IsEstablished;
      var before, last := frames[..|frames| - 1], frames[|frames| - 1];
      FramesKill(p, s, before);
      var (t, events) := FeedFrames(p, s, before);
      FrameKills(p, t, last);
      AlertFreeAppend(events, FeedFrame(p, t, last).1);
    }
  }

  lemma EstablishedStays(p: Primitives, peer: Peer, t: MessageType, frame: Bytes)
    ensures IsEstablished(peer) ==> React(p, peer, t, frame).peer == peer
  {
    hide CheckClientInit, DecodeMessage, DecodeServerInit, DecodeKey, DecodeClientFinished, DeriveKeys,
      EncodeServerInit;
  }

  /** What is left in the buffer plays no part in processing frames. */
  lemma {:induction false} BufferIrrelevant(p: Primitives, s: SessionState, frames: seq<Bytes>, buf: Bytes)
    ensures var (t, events) := FeedFrames(p, s, frames);
            FeedFrames(p, s.(buf := buf), frames) == (t.(buf := buf), events)
    decreases |frames|
  {
    if frames == [] {
    } else {
      hide React, DecodeMessage;
      BufferIrrelevant(p, s, frames[..|frames| - 1], buf);
    }
  }

  /** A stream whose headers are all acceptable, given what is already buffered. */
  ghost predicate LegalStream(s: SessionState, stream: Bytes) {
    Drain(DEFAULT_MAX_FRAME_BYTES, s.buf + stream).error.None?
  }

  /** One call, for a legal stream: a timeout, or every frame of the stream. */
  lemma FeedLegal(p: Primitives, s: SessionState, now: nat, chunk: Bytes)
    requires !s.dead && LegalStream(s, chunk)
    ensures var t := Started(s, now);
            var d := Drain(DEFAULT_MAX_FRAME_BYTES, s.buf + chunk);
            var (u, r) := Feed(p, s, now, chunk);
            && r.Ok?
            && (TimedOut(t, now) ==> u.dead && r.value == [AlertEvent(InternalError)])
            && (!TimedOut(t, now) ==> (u, r.value) == FeedFrames(p, t.(buf := d.rest), d.frames))
  {
    hide FeedFrames, Drain;
  }

  lemma SplitStream(s: SessionState, a: Bytes, b: Bytes)
    requires LegalStream(s, a + b)
    ensures LegalStream(s, a)
    ensures var d1 := Drain(DEFAULT_MAX_FRAME_BYTES, s.buf + a);
            var d2 := Drain(DEFAULT_MAX_FRAME_BYTES, d1.rest + b);
            var d := Drain(DEFAULT_MAX_FRAME_BYTES, s.buf + (a + b));
            d2.error.None? && d.frames == d1.frames + d2.frames && d.rest == d2.rest
  {
    Assoc(s.buf, a, b);
    DrainAppend(DEFAULT_MAX_FRAME_BYTES, s.buf + a, b);
    if Drain(DEFAULT_MAX_FRAME_BYTES, s.buf + a).error.Some? {
      ErrorRepeats(DEFAULT_MAX_FRAME_BYTES, s.buf + a, b);
    }
  }

  /** A stream fed as `a` and then `b`, while nothing alerts in `a`, and fed at once. */
  lemma FeedTwice(p: Primitives, s: SessionState, now: nat, a: Bytes, b: Bytes)
    requires !s.dead && LegalStream(s, a + b)
    ensures var (t, r1) := Feed(p, s, now, a);
            var (u, r) := Feed(p, s, now, a + b);
            && r1.Ok? && r.Ok?
            && (!AlertFree(r1.value) ==> t.dead && UpToAlert(r.value) == UpToAlert(r1.value))
            && (AlertFree(r1.value) ==>
                  var (v, r2) := Feed(p, t, now, b);
                  !t.dead && r2.Ok? && u == v && r.value == r1.value + r2.value)
  {
    hide FeedFrames, Drain, Feed, UpToAlert;
    SplitStream(s, a, b);
    FeedLegal(p, s, now, a);
    FeedLegal(p, s, now, a + b);
    var s1 := Started(s, now);
    if !TimedOut(s1, now) {
      var d1 := Drain(DEFAULT_MAX_FRAME_BYTES, s.buf + a);
      var d2 := Drain(DEFAULT_MAX_FRAME_BYTES, d1.rest + b);
      var (t, e1) := FeedFrames(p, s1.(buf := d1.rest), d1.frames);
      FramesKill(p, s1.(buf := d1.rest), d1.frames);
      FeedFramesAppend(p, s1.(buf := d2.rest), d1.frames, d2.frames);
      BufferIrrelevant(p, s1.(buf := d1.rest), d1.frames, d2.rest);
      var (u, e2) := FeedFrames(p, t.(buf := d2.rest), d2.frames);
      UpToAlertAppend(e1, e2);
      if AlertFree(e1) {
        assert Started(t, now) == t && t.buf == d1.rest;
        FeedLegal(p, t, now, b);
      }
    } else {
      assert !AlertFree([AlertEvent(InternalError)]) by { assert [AlertEvent(InternalError)][0].AlertEvent?; }
    }
  }

  /** However a legal stream is cut, the events up to and including the first alert are
      the same; if there is no alert, so are all events, the messages queued for the peer,
      the handshake and everything else. */
  lemma {:induction false} FragmentationIndependent(p: Primitives, s: SessionState, now: nat, chunks: seq<Bytes>)
    requires !s.dead && chunks != [] && LegalStream(s, Concat(chunks))
    ensures var (t, events) := FeedAll(p, s, now, chunks);
            var (u, r) := Feed(p, s, now, Concat(chunks));
            && r.Ok? && UpToAlert(events) == UpToAlert(r.value)
            && (t.dead <==> !AlertFree(events)) && (AlertFree(events) <==> AlertFree(r.value))
            && (AlertFree(r.value) ==> t == u && events == r.value)
    decreases |chunks|
  {
    hide Feed, UpToAlert, Drain;
    var n := |chunks| - 1;
    var before, last := chunks[..n], chunks[n];
    if n == 0 {
      assert Concat(before) == [] && [] + last == last;
      assert Concat(chunks) == last;
      FeedDead(p, s, now, last);
      assert FeedAll(p, s, now, before) == (s, []);
      assert [] + Feed(p, s, now, last).1.value == Feed(p, s, now, last).1.value;
    } else {
      SplitStream(s, Concat(before), last);
      FragmentationIndependent(p, s, now, before);
      FeedTwice(p, s, now, Concat(before), last);
      FeedDead(p, s, now, Concat(chunks));
      var (t, events) := FeedAll(p, s, now, before);
      if t.dead {
        DeadRefuses(p, t, now, last);
        UpToAlertHas(events, Feed(p, s, now, Concat(chunks)).1.value);
      }
    }
  }

  lemma DeadRefuses(p: Primitives, s: SessionState, now: nat, chunk: Bytes)
    requires s.dead
    ensures Feed(p, s, now, chunk) == (s, Err(AuthDenied))
  {
  }

  lemma FeedDead(p: Primitives, s: SessionState, now: nat, chunk: Bytes)
    requires !s.dead && LegalStream(s, chunk)
    ensures var (u, r) := Feed(p, s, now, chunk);
            r.Ok? && (u.dead <==> !AlertFree(r.value))
  {
    hide Drain, FeedFrames, Feed;
    FeedLegal(p, s, now, chunk);
    var t, d := Started(s, now), Drain(DEFAULT_MAX_FRAME_BYTES, s.buf + chunk);
    if TimedOut(t, now) {
      assert [AlertEvent(InternalError)][0].AlertEvent?;
    } else {
      FramesKill(p, t.(buf := d.rest), d.frames);
    }
  }

  /** Equal up to the first alert means equally free of alerts. */
  lemma {:induction false} UpToAlertHas(a: seq<Event>, b: seq<Event>)
    requires UpToAlert(a) == UpToAlert(b)
    ensures AlertFree(a) <==> AlertFree(b)
  {
    AlertSurvives(a);
    AlertSurvives(b);
  }

  lemma {:induction false} AlertSurvives(a: seq<Event>)
    ensures AlertFree(a) <==> AlertFree(UpToAlert(a))
    decreases |a|
  {
    if a == [] {
    } else if a[0].AlertEvent? {
      assert UpToAlert(a)[0].AlertEvent?;
    } else {
      hide AlertFree;
      AlertSurvives(a[1..]);
      HeadTail(a);
      AlertFreeAppend([a[0]], a[1..]);
      AlertFreeAppend([a[0]], UpToAlert(a[1..]));
    }
  }
}
