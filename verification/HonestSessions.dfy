/** Two sessions talking to each other: the handshake of `Handshake` carried in the frames of
    `Framing` through the sessions of `Session`, up to the first payload. */
module HonestSessions {
  import opened Prelude
  import opened Framing
  import opened Handshake
  import opened Ukey2Wire
  import opened Session
  import Wire

  function NewSession(peer: Peer): SessionState {
    SessionState([], peer, None, false, 0, 0, [], None, false)
  }

  /** A living session with nothing buffered, in time, that is given one whole message. */
  ghost predicate Listening(s: SessionState, now: nat, m: Bytes) {
    && !s.dead && s.buf == [] && 0 < |m| <= DEFAULT_MAX_FRAME_BYTES
    && (s.startedMs.Some? ==> SatSub(now, s.startedMs.value) <= HANDSHAKE_TIMEOUT_MS)
  }

  lemma OneMessageDrains(m: Bytes)
    requires 0 < |m| <= DEFAULT_MAX_FRAME_BYTES
    ensures Drain(DEFAULT_MAX_FRAME_BYTES, EncodeFrame(m)) == Drained([m], [], None)
  {
    DrainInvertsEncode(DEFAULT_MAX_FRAME_BYTES, [m]);
    assert [m][1..] == [];
    AppendNothing(EncodeFrame(m));
  }

  lemma FeedWhole(p: Primitives, s: SessionState, now: nat, m: Bytes)
    requires Listening(s, now, m)
    ensures LegalStream(s, EncodeFrame(m))
    ensures Feed(p, s, now, EncodeFrame(m))
            == (FeedFrame(p, Started(s, now), m).0, Ok(FeedFrame(p, Started(s, now), m).1))
  {
    hide FeedFrame, EncodeFrame, Drain;
    OneMessageDrains(m);
    assert [] + EncodeFrame(m) == EncodeFrame(m);
    var t := Started(s, now);
    assert t.(buf := []) == t && !TimedOut(t, now);
    OneFrameFed(p, t, m);
  }

  lemma OneFrameFed(p: Primitives, t: SessionState, m: Bytes)
    ensures FeedFrames(p, t, [m]) == FeedFrame(p, t, m)
  {
    hide FeedFrame;
    assert [m][..0] == [];
    assert [] + FeedFrame(p, t, m).1 == FeedFrame(p, t, m).1;
  }

  /** No beginning of a message that stops short of it holds a whole frame. */
  lemma PartHoldsNothing(m: Bytes, part: Bytes, more: Bytes)
    requires 0 < |m| <= DEFAULT_MAX_FRAME_BYTES && part + more == EncodeFrame(m) && more != []
    ensures Drain(DEFAULT_MAX_FRAME_BYTES, part) == Drained([], part, None)
  {
    hide Drain, EncodeFrame;
    var d := Drain(DEFAULT_MAX_FRAME_BYTES, part);
    OneMessageDrains(m);
    DrainAppend(DEFAULT_MAX_FRAME_BYTES, part, more);
    if d.error.Some? {
      ErrorRepeats(DEFAULT_MAX_FRAME_BYTES, part, more);
    }
    EncodeInvertsDrain(DEFAULT_MAX_FRAME_BYTES, part);
    assert |part + more| == |part| + |more|;
    OnlyFrame(m, d.frames, Drain(DEFAULT_MAX_FRAME_BYTES, d.rest + more).frames);
    FrameInside(m, d.rest);
    assert [] + d.rest == d.rest;
  }

  lemma OnlyFrame(m: Bytes, frames: seq<Bytes>, later: seq<Bytes>)
    requires frames + later == [m]
    ensures frames == [] || frames == [m]
  {
    if |frames| == 1 {
      assert frames[0] == (frames + later)[0];
    }
  }

  lemma FrameInside(m: Bytes, rest: Bytes)
    ensures |EncodeFrames([m]) + rest| >= |EncodeFrame(m)|
  {
    hide EncodeFrame;
    assert [m][1..] == [];
  }

  /** A part of a message only waits in the buffer. */
  lemma PartWaits(p: Primitives, s: SessionState, now: nat, m: Bytes, part: Bytes, more: Bytes)
    requires Listening(s, now, m) && part + more == EncodeFrame(m) && more != []
    ensures LegalStream(s, part)
    ensures Feed(p, s, now, part) == (Started(s, now).(buf := part), Ok([]))
  {
    hide Drain, EncodeFrame;
    PartHoldsNothing(m, part, more);
    assert [] + part == part;
  }

  /** However a message is cut on its way, what comes of it is what comes of it whole - in the
      events and in the session, whether it is accepted or refused. */
  lemma {:induction false} FeedCut(p: Primitives, s: SessionState, now: nat, chunks: seq<Bytes>, m: Bytes)
    requires Listening(s, now, m) && chunks != [] && Concat(chunks) == EncodeFrame(m)
    ensures FeedAll(p, s, now, chunks) == FeedFrame(p, Started(s, now), m)
    decreases |chunks|
  {
    hide Feed, FeedFrame, EncodeFrame, LegalStream, AlertFree;
    var n := |chunks| - 1;
    var before, last := chunks[..n], chunks[n];
    FeedWhole(p, s, now, m);
    if last == [] {
      AppendNothing(Concat(before));
      WholeHasBytes(m);
      FeedCut(p, s, now, before, m);
      NothingMore(p, s, now, m);
      AppendNothing(FeedFrame(p, Started(s, now), m).1);
    } else {
      PartWaits(p, s, now, m, Concat(before), last);
      if before == [] {
        assert Concat(before) == [] && [] + last == last;
        assert FeedAll(p, s, now, before) == (s, []);
      } else {
        FragmentationIndependent(p, s, now, before);
        NoAlerts();
        FeedTwice(p, s, now, Concat(before), last);
      }
      assert [] + FeedFrame(p, Started(s, now), m).1 == FeedFrame(p, Started(s, now), m).1;
    }
  }

  lemma WholeHasBytes(m: Bytes)
    ensures EncodeFrame(m) != []
  {
  }

  lemma NoAlerts()
    ensures AlertFree([])
  {
  }

  /** Behind a whole message there is nothing that an empty chunk could complete. */
  lemma NothingMore(p: Primitives, s: SessionState, now: nat, m: Bytes)
    requires Listening(s, now, m)
    ensures var (t, _) := FeedFrame(p, Started(s, now), m);
            var (u, r) := Feed(p, t, now, []);
            u == t && (r.Ok? ==> r.value == [])
  {
    hide FeedFrame;
    var t := FeedFrame(p, Started(s, now), m).0;
    FrameKills(p, Started(s, now), m);
    assert t.buf + [] == [];
  }

  // ---------------------------------------------------------------- the three messages

  lemma FinishedInitType(p: Primitives, c: ClientConfig, s: ClientState, frame: Bytes)
    requires HandleServerInit(p, c, s, frame).1.Done?
    ensures DecodeMessage(frame).Ok? && DecodeMessage(frame).value.messageType == ServerInitType
  {
    hide DecodeMessage, DecodeServerInit, DecodeKey;
  }

  lemma FinishType(p: Primitives, s: ServerState, frame: Bytes)
    requires HandleClientFinish(p, s, frame).1.Done?
    ensures DecodeMessage(frame).Ok? && DecodeMessage(frame).value.messageType == ClientFinishType
  {
    hide DecodeMessage, DecodeClientFinished, DecodeKey;
  }

  lemma InitType(p: Primitives, d: ServerConfig, s: ServerState, frame: Bytes)
    requires HandleClientInit(p, d, s, frame).1.Done?
    ensures DecodeMessage(frame).Ok? && DecodeMessage(frame).value.messageType == ClientInitType
  {
    hide CheckClientInit, DecodeMessage;
  }

  lemma MessageLength(t: MessageType, data: Bytes)
    requires |data| <= Wire.MAX_FIELD_BYTES
    ensures 0 < |EncodeMessage(t, data)| <= DEFAULT_MAX_FRAME_BYTES
  {
    hide Wire.EncodeFields;
    Wire.ScalarFieldLength(1, AsU64(TypeCode(t)));
    Wire.BlobFieldLength(2, data);
    Wire.TwoFieldsLength(Wire.Scalar(1, AsU64(TypeCode(t))), Wire.Blob(2, data));
  }

  lemma MessageLengths(p: Primitives, c: ClientConfig, d: ServerConfig)
    requires p.Sizes() && Equipped(p, c, d)
    ensures 0 < |EncodeClientInit(InitFor(p, c, c.scalar.value))| <= DEFAULT_MAX_FRAME_BYTES
    ensures 0 < |EncodeServerInit(ReplyFor(p, d, d.scalar.value, c.cipher))| <= DEFAULT_MAX_FRAME_BYTES
    ensures 0 < |FinishFor(p, c.scalar.value)| <= DEFAULT_MAX_FRAME_BYTES
  {
    hide EncodeMessage, Wire.EncodeFields, EncodeKey;
    var init, reply := InitFor(p, c, c.scalar.value), ReplyFor(p, d, d.scalar.value, c.cipher);
    var key := EncodeKey(p.publicKey(c.scalar.value));
    OneCommitmentLength(init);
    MessageLength(ClientInitType, Wire.EncodeFields(ClientInitFields(init)));
    KeyLength(p.publicKey(d.scalar.value));
    ServerInitLength(reply);
    MessageLength(ServerInitType, Wire.EncodeFields(ServerInitFields(reply)));
    KeyLength(p.publicKey(c.scalar.value));
    ClientFinishedLength(key);
    MessageLength(ClientFinishType, Wire.EncodeFields([Wire.Blob(1, key)]));
  }

  // ---------------------------------------------------------------- one side, one message

  lemma ServerTakesInit(p: Primitives, s: SessionState, d: ServerConfig, st: ServerState, now: nat,
      chunks: seq<Bytes>, m: Bytes)
    requires Listening(s, now, m) && chunks != [] && Concat(chunks) == EncodeFrame(m)
    requires s.peer == ServerPeer(d, Some(st)) && HandleClientInit(p, d, st, m).1.Done?
    ensures var (st', reply) := HandleClientInit(p, d, st, m);
            FeedAll(p, s, now, chunks) ==
            (Started(s, now).(peer := ServerPeer(d, Some(st')), outbound := s.outbound + [reply.value]),
              [FrameEvent(ClientInitType)])
  {
    InitType(p, d, st, m);
    hide HandleClientInit, DecodeMessage, EncodeFrame, FeedAll;
    assert [FrameEvent(ClientInitType)] + [] == [FrameEvent(ClientInitType)];
    FeedCut(p, s, now, chunks, m);
  }

  lemma ClientTakesReply(p: Primitives, s: SessionState, c: ClientConfig, st: ClientState, now: nat,
      chunks: seq<Bytes>, m: Bytes)
    requires Listening(s, now, m) && chunks != [] && Concat(chunks) == EncodeFrame(m)
    requires s.peer == ClientPeer(c, Some(st)) && HandleServerInit(p, c, st, m).1.Done?
    ensures var (st', finish) := HandleServerInit(p, c, st, m);
            FeedAll(p, s, now, chunks) ==
            (Started(s, now).(peer := ClientPeer(c, Some(st')), outbound := s.outbound + [finish.value.0]),
              [FrameEvent(ServerInitType)])
  {
    FinishedInitType(p, c, st, m);
    hide HandleServerInit, DecodeMessage, EncodeFrame, FeedAll;
    assert [FrameEvent(ServerInitType)] + [] == [FrameEvent(ServerInitType)];
    FeedCut(p, s, now, chunks, m);
  }

  lemma ServerTakesFinish(p: Primitives, s: SessionState, d: ServerConfig, st: ServerState, now: nat,
      chunks: seq<Bytes>, m: Bytes)
    requires Listening(s, now, m) && chunks != [] && Concat(chunks) == EncodeFrame(m)
    requires s.peer == ServerPeer(d, Some(st)) && HandleClientFinish(p, st, m).1.Done?
    ensures FeedAll(p, s, now, chunks) ==
            (Started(s, now).(peer := ServerPeer(d, Some(HandleClientFinish(p, st, m).0))),
              [FrameEvent(ClientFinishType), Established])
  {
    FinishType(p, st, m);
    hide HandleClientFinish, DecodeMessage, EncodeFrame, FeedAll;
    AppendNothing(s.outbound);
    assert [FrameEvent(ClientFinishType)] + [Established] == [FrameEvent(ClientFinishType), Established];
    FeedCut(p, s, now, chunks, m);
  }

  // ---------------------------------------------------------------- the exchange

  /** What the two sessions have become, and what each was told. */
  datatype Talk = Talk(client: SessionState, server: SessionState, clientEvents: seq<Event>, serverEvents: seq<Event>)

  /** The client begins; whatever one side queues is framed, cut into pieces on its way and
      fed to the other: the ClientInit at `t1`, the reply at `t2`, the finish at `t3`. */
  ghost predicate Exchanged(p: Primitives, c: ClientConfig, d: ServerConfig, t1: nat, t2: nat, t3: nat,
                            one: seq<Bytes>, two: seq<Bytes>, three: seq<Bytes>, end: Talk)
  {
    var (client1, m1) := BeginClient(p, NewSession(ClientPeer(c, Some(FRESH_CLIENT))));
    var (server1, events1) := FeedAll(p, NewSession(ServerPeer(d, Some(FRESH_SERVER))), t1, one);
    var (client2, events2) := FeedAll(p, client1, t2, two);
    var (server2, events3) := FeedAll(p, server1, t3, three);
    && one != [] && two != [] && three != []
    && m1.Ok? && Concat(one) == EncodeFrame(m1.value)
    && |server1.outbound| == 1 && Concat(two) == EncodeFrame(server1.outbound[0])
    && |client2.outbound| == 2 && Concat(three) == EncodeFrame(client2.outbound[1])
    && end == Talk(client2, server2, events2, events1 + events3)
  }

  /** Two honest sessions reach each other through any fragmentation: both are established
      on the same keys, the server reports it, and neither raises an alert. After that the
      code the client shows opens the server's gate, and any other code keeps it shut. The
      client counts its deadline from zero, the server from its first bytes. */
  lemma HonestSessionsMeet(p: Primitives, c: ClientConfig, d: ServerConfig, t1: nat, t2: nat, t3: nat,
                           one: seq<Bytes>, two: seq<Bytes>, three: seq<Bytes>, end: Talk, code: string, n: nat)
    requires p.Sizes() && p.Commutes() && Equipped(p, c, d)
    requires c.cipher in d.supportedCiphers && c.nextProtocol in d.nextProtocols
    requires t2 <= HANDSHAKE_TIMEOUT_MS && SatSub(t3, t1) <= HANDSHAKE_TIMEOUT_MS
    requires Exchanged(p, c, d, t1, t2, t3, one, two, three, end)
    ensures IsEstablished(end.client.peer) && IsEstablished(end.server.peer)
    ensures Keys(end.client.peer).Some? && Keys(end.client.peer) == Keys(end.server.peer)
    ensures var a, b := c.scalar.value, d.scalar.value;
            DerivedFrom(p, Keys(end.client.peer).value, p.Shared(a, b).value,
              EncodeClientInit(InitFor(p, c, a)) + EncodeServerInit(ReplyFor(p, d, b, c.cipher)))
    ensures end.clientEvents == [FrameEvent(ServerInitType)]
    ensures end.serverEvents == [FrameEvent(ClientInitType), FrameEvent(ClientFinishType), Established]
    ensures var (confirmed, r) := Confirm(end.server, code);
            && (r.Ok? <==> code == Keys(end.client.peer).value.pin)
            && (Deliver(confirmed, n).1 == Delivered <==> r.Ok?)
  {
    hide FeedAll, EncodeFrame, Concat, HandleClientInit, HandleServerInit, HandleClientFinish, EncodeClientInit,
      EncodeServerInit, InitFor, ReplyFor, FinishFor;
    HonestMessages(p, c, d);
    MessageLengths(p, c, d);
    var a, b := c.scalar.value, d.scalar.value;
    var m1, m2 := EncodeClientInit(InitFor(p, c, a)), EncodeServerInit(ReplyFor(p, d, b, c.cipher));
    var server0 := NewSession(ServerPeer(d, Some(FRESH_SERVER)));
    var client1 := BeginClient(p, NewSession(ClientPeer(c, Some(FRESH_CLIENT)))).0;
    ServerTakesInit(p, server0, d, FRESH_SERVER, t1, one, m1);
    var server1 := FeedAll(p, server0, t1, one).0;
    ClientTakesReply(p, client1, c, Start(p, c, FRESH_CLIENT).0, t2, two, m2);
    ServerTakesFinish(p, server1, d, HandleClientInit(p, d, FRESH_SERVER, m1).0, t3, three, FinishFor(p, a));
    assert [FrameEvent(ClientInitType)] + [FrameEvent(ClientFinishType), Established]
        == [FrameEvent(ClientInitType), FrameEvent(ClientFinishType), Established];
  }

  /** The client of these lemmas: begun, and not fed yet. */
  function Begun(p: Primitives, c: ClientConfig): SessionState
    requires c.scalar.Some?
  {
    BeginClient(p, NewSession(ClientPeer(c, Some(FRESH_CLIENT)))).0
  }

  /** The client's deadline is measured from zero, not from when it began: first fed at `now`,
      it has timed out exactly when `now` on its own is past the timeout. Then it raises an alert
      whatever it is fed, and otherwise time alone never stops it. */
  lemma ClientClockStartsAtZero(p: Primitives, c: ClientConfig, now: nat, chunk: Bytes)
    requires c.scalar.Some?
    ensures TimedOut(Started(Begun(p, c), now), now) <==> now > HANDSHAKE_TIMEOUT_MS
    ensures Feed(p, Begun(p, c), now, []).0.dead <==> now > HANDSHAKE_TIMEOUT_MS
    ensures now > HANDSHAKE_TIMEOUT_MS ==>
              Feed(p, Begun(p, c), now, chunk) ==
              (Started(Begun(p, c), now).(dead := true), Ok([AlertEvent(InternalError)]))
  {
    hide EncodeClientInit, InitFor, FinishFor;
  }

  /** For a client begun at `begin`: it is given up although it is in time exactly when the
      timeout is over by the clock but not since it began; it is never kept for too long; and a
      clock that starts with the client is what makes the two agree. */
  lemma ClientGivenUpEarlyIff(p: Primitives, c: ClientConfig, begin: nat, now: nat)
    requires c.scalar.Some? && begin <= now
    ensures var inTime := now - begin <= HANDSHAKE_TIMEOUT_MS;
            && (Feed(p, Begun(p, c), now, []).0.dead && inTime <==>
                  HANDSHAKE_TIMEOUT_MS < now <= begin + HANDSHAKE_TIMEOUT_MS)
            && (!inTime ==> Feed(p, Begun(p, c), now, []).0.dead)
            && (begin == 0 ==> (Feed(p, Begun(p, c), now, []).0.dead <==> !inTime))
  {
    hide Feed, BeginClient;
    ClientClockStartsAtZero(p, c, now, []);
  }

  // ---------------------------------------------------------------- the server's deadline

  /** When a session was fed first. */
  function FirstFed(ops: seq<Op>): Option<nat> {
    if ops == [] then None
    else
      var before, op := FirstFed(ops[..|ops| - 1]), ops[|ops| - 1];
      if before.None? && op.FeedOp? then Some(op.now) else before
  }

  /** The clock of a server runs from its first bytes, and only the clock and the bytes end it. */
  ghost predicate ClockOf(s: SessionState, first: Option<nat>) {
    s.peer.ServerPeer? && s.startedMs == first && (s.dead ==> first.Some?)
  }

  lemma FeedKeepsServer(p: Primitives, s: SessionState, now: nat, chunk: Bytes)
    requires s.peer.ServerPeer? && !s.dead
    ensures Feed(p, s, now, chunk).0.peer.ServerPeer? && Feed(p, s, now, chunk).0.startedMs == Started(s, now).startedMs
  {
    hide FeedFrames, Drain;
    var t := Started(s, now);
    var d := Drain(DEFAULT_MAX_FRAME_BYTES, t.buf + chunk);
    FramesKill(p, t.(buf := d.rest), d.frames);
    FramesKeepServer(p, t.(buf := d.rest), d.frames);
  }

  lemma {:induction false} FramesKeepServer(p: Primitives, s: SessionState, frames: seq<Bytes>)
    requires s.peer.ServerPeer?
    ensures FeedFrames(p, s, frames).0.peer.ServerPeer?
    decreases |frames|
  {
    hide DecodeMessage, HandleClientInit, HandleClientFinish;
    if frames == [] {
    } else {
      FramesKeepServer(p, s, frames[..|frames| - 1]);
    }
  }

  lemma {:induction false} RunClock(p: Primitives, s: SessionState, ops: seq<Op>)
    requires Fresh(s) && s.peer.ServerPeer?
    ensures ClockOf(RunOps(p, s, ops), FirstFed(ops))
    decreases |ops|
  {
    hide Feed;
    if ops == [] {
    } else {
      var before, op := ops[..|ops| - 1], ops[|ops| - 1];
      var t := RunOps(p, s, before);
      RunClock(p, s, before);
      if op.FeedOp? {
        if t.dead {
          DeadRefuses(p, t, op.now, op.chunk);
        } else {
          FeedKeepsServer(p, t, op.now, op.chunk);
        }
      }
    }
  }

  /** In every run of a server: fed more than the timeout after its first bytes, before it is
      established, it tells an internal error, dies, and looks at nothing it was fed. Otherwise
      time alone never ends it - and once it is established, no time does. */
  lemma ServerDeadline(p: Primitives, s: SessionState, ops: seq<Op>, now: nat, chunk: Bytes)
    requires Fresh(s) && s.peer.ServerPeer? && !RunOps(p, s, ops).dead
    ensures var t := RunOps(p, s, ops);
            var late := FirstFed(ops).Some? && now > FirstFed(ops).value + HANDSHAKE_TIMEOUT_MS;
            && (late && !IsEstablished(t.peer) ==>
                  Feed(p, t, now, chunk) == (t.(dead := true), Ok([AlertEvent(InternalError)])))
            && (!late || IsEstablished(t.peer) ==>
                  var d := Drain(DEFAULT_MAX_FRAME_BYTES, t.buf + chunk);
                  d.frames == [] ==> !Feed(p, t, now, chunk).0.dead && Feed(p, t, now, chunk).0.buf == d.rest)
  {
    hide Drain, RunOps, FirstFed;
    RunClock(p, s, ops);
  }
}
