/** What a session does with the messages its handshake turns down, and what each message is
    turned down for. */
module Refusals {
  import opened Prelude
  import opened Framing
  import opened Handshake
  import opened Ukey2Wire
  import opened Session
  import opened HonestSessions
  import Wire

  // ---------------------------------------------------------------- the end of a session

  /** Fed these chunks, the session told `told` and died, with its handshake where it was and
      nothing queued for the peer; whatever is fed later, and whenever, is refused. */
  ghost predicate Dies(p: Primitives, s: SessionState, now: nat, chunks: seq<Bytes>, told: seq<Event>) {
    var dead := Started(s, now).(dead := true);
    && FeedAll(p, s, now, chunks) == (dead, told)
    && forall later: nat, chunk: Bytes :: Feed(p, dead, later, chunk) == (dead, Err(AuthDenied))
  }

  lemma DiesOf(p: Primitives, s: SessionState, now: nat, chunks: seq<Bytes>, m: Bytes, told: seq<Event>)
    requires Listening(s, now, m) && chunks != [] && Concat(chunks) == EncodeFrame(m)
    requires FeedFrame(p, Started(s, now), m) == (Started(s, now).(dead := true), told)
    ensures Dies(p, s, now, chunks, told)
  {
    hide FeedFrame, FeedAll, EncodeFrame;
    FeedCut(p, s, now, chunks, m);
    var dead := Started(s, now).(dead := true);
    forall later: nat, chunk: Bytes ensures Feed(p, dead, later, chunk) == (dead, Err(AuthDenied)) {
      DeadRefuses(p, dead, later, chunk);
    }
  }

  /** The handshake's answer to a message: an alert, and nothing changed. */
  lemma RefusedFrame(p: Primitives, t: SessionState, m: Bytes, a: AlertType)
    requires DecodeMessage(m).Ok?
    requires React(p, t.peer, DecodeMessage(m).value.messageType, m) == Reaction(t.peer, [], Refused(a))
    ensures FeedFrame(p, t, m) ==
            (t.(dead := true), [FrameEvent(DecodeMessage(m).value.messageType), AlertEvent(a)])
  {
    hide React, DecodeMessage;
    AppendNothing(t.outbound);
  }

  // ---------------------------------------------------------------- refused messages, however cut

  /** Bytes that are no message at all. */
  lemma UndecodableKills(p: Primitives, s: SessionState, now: nat, chunks: seq<Bytes>, m: Bytes)
    requires Listening(s, now, m) && chunks != [] && Concat(chunks) == EncodeFrame(m)
    requires DecodeMessage(m).Err?
    ensures Dies(p, s, now, chunks, [AlertEvent(BadMessage)])
  {
    hide DecodeMessage, Dies;
    DiesOf(p, s, now, chunks, m, [AlertEvent(BadMessage)]);
  }

  /** Any message for a session whose handshake could not be created. */
  lemma AbsentHandshakeKills(p: Primitives, s: SessionState, now: nat, chunks: seq<Bytes>, m: Bytes)
    requires Listening(s, now, m) && chunks != [] && Concat(chunks) == EncodeFrame(m)
    requires DecodeMessage(m).Ok?
    requires match s.peer case ServerPeer(_, st) => st.None? case ClientPeer(_, st) => st.None?
    ensures Dies(p, s, now, chunks, [FrameEvent(DecodeMessage(m).value.messageType), AlertEvent(InternalError)])
  {
    hide DecodeMessage, Dies, FeedFrame;
    RefusedFrame(p, Started(s, now), m, InternalError);
    DiesOf(p, s, now, chunks, m, [FrameEvent(DecodeMessage(m).value.messageType), AlertEvent(InternalError)]);
  }

  /** A server tells what its handshake refused, and for what; a message of a type it does not
      take is an incorrect one. */
  lemma ServerRefusalKills(p: Primitives, s: SessionState, d: ServerConfig, st: ServerState, now: nat,
      chunks: seq<Bytes>, m: Bytes)
    requires Listening(s, now, m) && chunks != [] && Concat(chunks) == EncodeFrame(m)
    requires s.peer == ServerPeer(d, Some(st)) && DecodeMessage(m).Ok?
    ensures var t := DecodeMessage(m).value.messageType;
            && (t == ClientInitType && HandleClientInit(p, d, st, m).1.Refused? ==>
                  Dies(p, s, now, chunks, [FrameEvent(t), AlertEvent(HandleClientInit(p, d, st, m).1.alert)]))
            && (t == ClientFinishType && HandleClientFinish(p, st, m).1.Refused? ==>
                  Dies(p, s, now, chunks, [FrameEvent(t), AlertEvent(HandleClientFinish(p, st, m).1.alert)]))
            && (t != ClientInitType && t != ClientFinishType ==>
                  Dies(p, s, now, chunks, [FrameEvent(t), AlertEvent(IncorrectMessage)]))
  {
    RefusalUnmoved(p, d, st, m);
    hide DecodeMessage, Dies, FeedFrame, HandleClientInit, HandleClientFinish, Listening;
    var t := DecodeMessage(m).value.messageType;
    var x := React(p, s.peer, t, m);
    if x.outcome.Refused? {
      RefusedFrame(p, Started(s, now), m, x.outcome.alert);
      DiesOf(p, s, now, chunks, m, [FrameEvent(t), AlertEvent(x.outcome.alert)]);
    }
  }

  lemma RefusalUnmoved(p: Primitives, d: ServerConfig, st: ServerState, m: Bytes)
    ensures HandleClientInit(p, d, st, m).1.Refused? ==> HandleClientInit(p, d, st, m).0 == st
    ensures HandleClientFinish(p, st, m).1.Refused? ==> HandleClientFinish(p, st, m).0 == st
  {
    hide DecodeMessage, CheckClientInit, DecodeClientFinished, DecodeKey, DeriveKeys;
  }

  /** And a client; for it a message of another type is one of a bad type. */
  lemma ClientRefusalKills(p: Primitives, s: SessionState, c: ClientConfig, st: ClientState, now: nat,
      chunks: seq<Bytes>, m: Bytes)
    requires Listening(s, now, m) && chunks != [] && Concat(chunks) == EncodeFrame(m)
    requires s.peer == ClientPeer(c, Some(st)) && DecodeMessage(m).Ok?
    ensures var t := DecodeMessage(m).value.messageType;
            && (t == ServerInitType && HandleServerInit(p, c, st, m).1.Refused? ==>
                  Dies(p, s, now, chunks, [FrameEvent(t), AlertEvent(HandleServerInit(p, c, st, m).1.alert)]))
            && (t != ServerInitType ==> Dies(p, s, now, chunks, [FrameEvent(t), AlertEvent(BadMessageType)]))
  {
    ReplyUnmoved(p, c, st, m);
    hide DecodeMessage, Dies, FeedFrame, HandleServerInit, Listening;
    var t := DecodeMessage(m).value.messageType;
    var x := React(p, s.peer, t, m);
    if x.outcome.Refused? {
      RefusedFrame(p, Started(s, now), m, x.outcome.alert);
      DiesOf(p, s, now, chunks, m, [FrameEvent(t), AlertEvent(x.outcome.alert)]);
    }
  }

  lemma ReplyUnmoved(p: Primitives, c: ClientConfig, st: ClientState, m: Bytes)
    ensures HandleServerInit(p, c, st, m).1.Refused? ==> HandleServerInit(p, c, st, m).0 == st
  {
    hide DecodeMessage, DecodeServerInit, DecodeKey, DeriveKeys;
  }

  lemma TwoMessagesDrain(a: Bytes, b: Bytes)
    requires 0 < |a| <= DEFAULT_MAX_FRAME_BYTES && 0 < |b| <= DEFAULT_MAX_FRAME_BYTES
    ensures Drain(DEFAULT_MAX_FRAME_BYTES, EncodeFrame(a) + EncodeFrame(b)) == Drained([a, b], [], None)
  {
    hide EncodeFrame, Drain;
    DrainInvertsEncode(DEFAULT_MAX_FRAME_BYTES, [a, b]);
    assert [a, b][1..] == [b];
    OneEncoded(b);
  }

  lemma OneEncoded(m: Bytes)
    ensures EncodeFrames([m]) == EncodeFrame(m)
  {
    hide EncodeFrame;
    assert [m][1..] == [];
    AppendNothing(EncodeFrame(m));
  }

  lemma TwoFramesFed(p: Primitives, t: SessionState, a: Bytes, b: Bytes)
    ensures var (u, e1) := FeedFrame(p, t, a);
            var (v, e2) := FeedFrame(p, u, b);
            FeedFrames(p, t, [a, b]) == (v, e1 + e2)
  {
    hide FeedFrame;
    OneFrameFed(p, t, a);
    assert [a, b][..1] == [a];
  }

  lemma BadFrame(p: Primitives, t: SessionState, bad: Bytes)
    requires DecodeMessage(bad).Err?
    ensures FeedFrame(p, t, bad) == (t.(dead := true), [AlertEvent(BadMessage)])
  {
    hide DecodeMessage;
  }

  lemma InitTaken(p: Primitives, s: SessionState, d: ServerConfig, st: ServerState, m: Bytes)
    requires s.peer == ServerPeer(d, Some(st)) && HandleClientInit(p, d, st, m).1.Done?
    ensures var (st', reply) := HandleClientInit(p, d, st, m);
            FeedFrame(p, s, m) ==
            (s.(peer := ServerPeer(d, Some(st')), outbound := s.outbound + [reply.value]), [FrameEvent(ClientInitType)])
  {
    InitType(p, d, st, m);
    hide HandleClientInit, DecodeMessage;
    AppendNothing([FrameEvent(ClientInitType)]);
  }

  /** An alert ends the session but not the call: a good ClientInit that stands behind a bad
      message in one chunk is still answered, by a session that is dead. Fed in a chunk of its
      own it is not. */
  lemma CallGoesOnAfterAlert(p: Primitives, s: SessionState, d: ServerConfig, st: ServerState, now: nat, bad: Bytes,
      m: Bytes)
    requires Listening(s, now, bad) && DecodeMessage(bad).Err? && 0 < |m| <= DEFAULT_MAX_FRAME_BYTES
    requires s.peer == ServerPeer(d, Some(st)) && HandleClientInit(p, d, st, m).1.Done?
    ensures var (st', reply) := HandleClientInit(p, d, st, m);
            Feed(p, s, now, EncodeFrame(bad) + EncodeFrame(m)) ==
            (Started(s, now).(dead := true, peer := ServerPeer(d, Some(st')), outbound := s.outbound + [reply.value]),
              Ok([AlertEvent(BadMessage), FrameEvent(ClientInitType)]))
    ensures FeedAll(p, s, now, [EncodeFrame(bad), EncodeFrame(m)]) ==
            (Started(s, now).(dead := true), [AlertEvent(BadMessage)])
  {
    hide HandleClientInit, DecodeMessage, EncodeFrame, Drain, FeedFrame, FeedFrames, FeedAll;
    var t := Started(s, now);
    var whole := EncodeFrame(bad) + EncodeFrame(m);
    BadFrame(p, t, bad);
    InitTaken(p, t.(dead := true), d, st, m);
    TwoFramesFed(p, t, bad, m);
    TwoMessagesDrain(bad, m);
    assert [] + whole == whole && t.(buf := []) == t && !TimedOut(t, now);
    assert [AlertEvent(BadMessage)] + [FrameEvent(ClientInitType)] ==
           [AlertEvent(BadMessage), FrameEvent(ClientInitType)];
    FeedWhole(p, s, now, bad);
    TwoCalls(p, s, now, EncodeFrame(bad), EncodeFrame(m));
  }

  lemma TwoCalls(p: Primitives, s: SessionState, now: nat, a: Bytes, b: Bytes)
    requires Feed(p, s, now, a).1.Ok? && Feed(p, s, now, a).0.dead
    ensures FeedAll(p, s, now, [a, b]) == (Feed(p, s, now, a).0, Feed(p, s, now, a).1.value)
  {
    hide Feed;
    assert [a, b][..1] == [a] && [a][..0] == [];
    assert FeedAll(p, s, now, []) == (s, []);
    assert FeedAll(p, s, now, [a]) == (Feed(p, s, now, a).0, [] + Feed(p, s, now, a).1.value);
    DeadRefuses(p, Feed(p, s, now, a).0, now, b);
    assert [] + Feed(p, s, now, a).1.value == Feed(p, s, now, a).1.value;
  }

  /** A length the decoder refuses is no alert and does not end the session: the call fails, frames
      that stood ahead of it in the same chunk are lost, the handshake and the queue stay where they
      were, and every later call fails in the same way until time runs out. */
  lemma RefusedLengthStalls(p: Primitives, s: SessionState, now: nat, chunk: Bytes, later: nat, more: Bytes)
    requires !s.dead && !TimedOut(Started(s, now), now) && !LegalStream(s, chunk)
    ensures var d := Drain(DEFAULT_MAX_FRAME_BYTES, s.buf + chunk);
            var t := Started(s, now).(buf := d.rest);
            && Feed(p, s, now, chunk) == (t, Err(d.error.value))
            && (!TimedOut(t, later) ==>
                  var (u, r) := Feed(p, t, later, more);
                  r == Err(d.error.value) && u.(buf := []) == t.(buf := []))
  {
    hide Drain, FeedFrames;
    var d := Drain(DEFAULT_MAX_FRAME_BYTES, s.buf + chunk);
    ErrorRepeats(DEFAULT_MAX_FRAME_BYTES, s.buf + chunk, more);
  }

  /** What a session answers when it is told to begin: only a client with a handshake can, only
      once, and only with entropy; then its first message is queued and its clock starts at zero.
      Otherwise nothing changes. */
  lemma BeginAnswer(p: Primitives, s: SessionState)
    ensures var (t, r) := BeginClient(p, s);
            && (r.Err? ==> t == s)
            && (s.peer.ServerPeer? || (s.peer.ClientPeer? && s.peer.client.None?) ==> r == Err(UnsupportedRole))
            && (s.peer.ClientPeer? && s.peer.client.Some? ==>
                  var c, phase := s.peer.clientConfig, s.peer.client.value.phase;
                  && (!phase.ClientStart? ==> r == Err(AuthDenied))
                  && (phase.ClientStart? && c.scalar.None? ==> r == Err(UnsupportedFeature))
                  && (phase.ClientStart? && c.scalar.Some? ==>
                        && r == Ok(EncodeClientInit(InitFor(p, c, c.scalar.value)))
                        && t.outbound == s.outbound + [r.value] && t.startedMs == Some(0) && t.dead == s.dead))
  {
    hide EncodeClientInit, InitFor, FinishFor;
  }

  // ---------------------------------------------------------------- what a message is refused for

  /** What a server that has not begun answers to a ClientInit, whatever the peer put into it:
      the version comes first, then the random bytes - of the wrong length, or seen before -,
      then the commitments, then the protocol, and last its own entropy. */
  lemma ClientInitAnswer(p: Primitives, d: ServerConfig, s: ServerState, x: ClientInit)
    requires s.phase.ServerStart? && |Wire.EncodeFields(ClientInitFields(x))| <= Wire.MAX_FIELD_BYTES
    ensures var r := HandleClientInit(p, d, s, EncodeClientInit(x)).1;
            var chosen := FirstSupported(d.supportedCiphers, x.commitments);
            if x.version != 1 then r == Refused(BadVersion)
            else if |x.random| != NONCE_BYTES || x.random in s.seenRandoms then r == Refused(BadRandom)
            else if HasEmptyCommitment(x.commitments) || chosen.None? then r == Refused(BadHandshakeCipher)
            else if x.nextProtocol !in d.nextProtocols then r == Refused(BadNextProtocol)
            else if d.scalar.None? then r == Refused(InternalError)
            else r == Done(EncodeServerInit(ServerInit(1, d.random, chosen.value.cipher,
                                                       EncodeKey(p.publicKey(d.scalar.value)))))
  {
    ClientInitRoundTrip(x);
    hide EncodeClientInit, DecodeClientInit, DecodeMessage, ClientInitFields, Wire.EncodeFields, EncodeServerInit,
      EncodeKey;
  }

  /** What a client that waits for it answers to a ServerInit, whatever is in it. */
  lemma ServerInitAnswer(p: Primitives, c: ClientConfig, s: ClientState, x: ServerInit)
    requires s.phase.InitSent? && |Wire.EncodeFields(ServerInitFields(x))| <= Wire.MAX_FIELD_BYTES
    ensures var r := HandleServerInit(p, c, s, EncodeServerInit(x)).1;
            var key := DecodeKey(x.publicKey);
            if x.version != 1 then r == Refused(BadVersion)
            else if |x.random| != NONCE_BYTES then r == Refused(BadRandom)
            else if x.cipher != c.cipher then r == Refused(BadHandshakeCipher)
            else if key.Err? || p.agree(s.phase.scalar, key.value).None? then r == Refused(BadPublicKey)
            else r.Done? && r.value.0 == s.phase.clientFinished
  {
    ServerInitRoundTrip(x);
    hide EncodeServerInit, DecodeServerInit, DecodeMessage, ServerInitFields, Wire.EncodeFields, DecodeKey, DeriveKeys;
  }

  /** What a server that waits for it answers to a ClientFinished: one that is not the committed
      one is refused as such, whatever is in it, and only the committed one is looked into. */
  lemma ClientFinishedAnswer(p: Primitives, s: ServerState, publicKey: Bytes)
    requires s.phase.InitReceived? && |Wire.EncodeFields([Wire.Blob(1, publicKey)])| <= Wire.MAX_FIELD_BYTES
    ensures var m := EncodeClientFinished(publicKey);
            var r := HandleClientFinish(p, s, m).1;
            var key := DecodeKey(publicKey);
            if p.sha512(m) != s.phase.peerCommitment then r == Refused(BadMessageData)
            else if key.Err? || p.agree(s.phase.scalar, key.value).None? then r == Refused(BadPublicKey)
            else r == Done(())
  {
    ClientFinishedRoundTrip(publicKey);
    hide EncodeClientFinished, DecodeClientFinished, DecodeMessage, Wire.EncodeFields, DecodeKey, DeriveKeys;
  }

  /** A message whose content does not decode, and one that comes out of turn. A finish is not
      looked into before its commitment is right. */
  lemma OutOfTurnAnswer(p: Primitives, c: ClientConfig, d: ServerConfig, cs: ClientState, ss: ServerState, m: Bytes)
    requires DecodeMessage(m).Ok?
    ensures !ss.phase.ServerStart? ==> HandleClientInit(p, d, ss, m).1 == Refused(IncorrectMessage)
    ensures !ss.phase.InitReceived? ==> HandleClientFinish(p, ss, m).1 == Refused(IncorrectMessage)
    ensures !cs.phase.InitSent? ==> HandleServerInit(p, c, cs, m).1 == Refused(IncorrectMessage)
    ensures var x := DecodeMessage(m).value;
            && (ss.phase.ServerStart? && x.messageType == ClientInitType && DecodeClientInit(x.data).Err? ==>
                  HandleClientInit(p, d, ss, m).1 == Refused(BadMessageData))
            && (ss.phase.InitReceived? && x.messageType == ClientFinishType && DecodeClientFinished(x.data).Err? ==>
                  HandleClientFinish(p, ss, m).1 == Refused(BadMessageData))
            && (cs.phase.InitSent? && x.messageType == ServerInitType && DecodeServerInit(x.data).Err? ==>
                  HandleServerInit(p, c, cs, m).1 == Refused(BadMessageData))
  {
    hide DecodeMessage, DecodeServerInit, DecodeClientInit, DecodeClientFinished, DecodeKey, DeriveKeys;
  }
}
