/** What the confirmation code confirms: the keys of every session that is established, and
    what it means that two of them show one code. */
module Confirmation {
  import opened Prelude
  import opened Handshake
  import opened Ukey2Wire
  import opened Session
  import Framing

  // ---------------------------------------------------------------- the keys of every run

  /** The keys belong to the secret and the transcript they name. */
  ghost predicate Derived(p: Primitives, keys: Option<SessionKeys>) {
    keys.Some? ==> DerivedFrom(p, keys.value, keys.value.dhs, keys.value.transcript)
  }

  lemma ReactKeepsDerived(p: Primitives, peer: Peer, t: MessageType, frame: Bytes)
    requires Derived(p, Keys(peer))
    ensures Derived(p, Keys(React(p, peer, t, frame).peer))
  {
    hide HandleClientInit, HandleServerInit, HandleClientFinish, DerivedFrom;
    match peer
    case ServerPeer(d, s) =>
      if s.Some? && t.ClientInitType? {
        InitKeepsKeys(p, d, s.value, frame);
      } else if s.Some? && t.ClientFinishType? {
        FinishMakesKeys(p, d, s.value, frame);
      }
    case ClientPeer(c, s) =>
      if s.Some? && t.ServerInitType? {
        ReplyMakesKeys(p, c, s.value, frame);
      }
  }

  lemma InitKeepsKeys(p: Primitives, d: ServerConfig, s: ServerState, frame: Bytes)
    ensures HandleClientInit(p, d, s, frame).0.keys == s.keys
  {
    hide CheckClientInit, EncodeServerInit, ReplyFor;
  }

  lemma FinishMakesKeys(p: Primitives, d: ServerConfig, s: ServerState, frame: Bytes)
    requires Derived(p, s.keys)
    ensures Derived(p, HandleClientFinish(p, s, frame).0.keys)
  {
    hide HandleClientFinish;
    if HandleClientFinish(p, s, frame).1.Done? {
      ServerKeys(p, s, frame);
    } else {
      RefusedFinish(p, s, frame);
    }
  }

  lemma ReplyMakesKeys(p: Primitives, c: ClientConfig, s: ClientState, frame: Bytes)
    requires Derived(p, s.keys)
    ensures Derived(p, HandleServerInit(p, c, s, frame).0.keys)
  {
    hide HandleServerInit;
    if HandleServerInit(p, c, s, frame).1.Done? {
      ClientKeys(p, c, s, frame);
    } else {
      RefusedReply(p, c, s, frame);
    }
  }

  lemma RefusedFinish(p: Primitives, s: ServerState, frame: Bytes)
    requires HandleClientFinish(p, s, frame).1.Refused?
    ensures HandleClientFinish(p, s, frame).0 == s
  {
    hide DecodeMessage, DecodeClientFinished, DecodeKey, DeriveKeys;
  }

  lemma RefusedReply(p: Primitives, c: ClientConfig, s: ClientState, frame: Bytes)
    requires HandleServerInit(p, c, s, frame).1.Refused?
    ensures HandleServerInit(p, c, s, frame).0 == s
  {
    hide DecodeMessage, DecodeServerInit, DecodeKey, DeriveKeys;
  }

  lemma {:induction false} FramesKeepDerived(p: Primitives, s: SessionState, frames: seq<Bytes>)
    requires Derived(p, Keys(s.peer))
    ensures Derived(p, Keys(FeedFrames(p, s, frames).0.peer))
    decreases |frames|
  {
    hide Derived, React, DecodeMessage;
    if frames == [] {
    } else {
      var before, last := frames[..|frames| - 1], frames[|frames| - 1];
      FramesKeepDerived(p, s, before);
      var t := FeedFrames(p, s, before).0;
      if DecodeMessage(last).Ok? {
        ReactKeepsDerived(p, t.peer, DecodeMessage(last).value.messageType, last);
      }
    }
  }

  lemma StepKeepsDerived(p: Primitives, s: SessionState, op: Op)
    requires Derived(p, Keys(s.peer)) && KeysMatchPhase(s.peer)
    ensures Derived(p, Keys(Step(p, s, op).peer))
  {
    hide Derived, FeedFrames, BeginClient, Framing.Drain;
    if op.FeedOp? && !s.dead {
      var t := Started(s, op.now);
      var d := Framing.Drain(Framing.DEFAULT_MAX_FRAME_BYTES, t.buf + op.chunk);
      FramesKeepDerived(p, t.(buf := d.rest), d.frames);
    }
    if op.ClientInitOp? {
      BeginKeepsKeys(p, s);
    }
  }

  /** In every run of either role, whatever arrives: the keys of a session are what the
      primitives make of the secret and the transcript it holds, the code of the string. */
  lemma {:induction false} RunKeepsDerived(p: Primitives, s: SessionState, ops: seq<Op>)
    requires Fresh(s)
    ensures Derived(p, Keys(RunOps(p, s, ops).peer))
    decreases |ops|
  {
    hide Step, DerivedFrom;
    if ops == [] {
    } else {
      var before := ops[..|ops| - 1];
      RunKeepsDerived(p, s, before);
      GateStaysSound(p, s, before);
      StepKeepsDerived(p, RunOps(p, s, before), ops[|ops| - 1]);
    }
  }

  // ---------------------------------------------------------------- one code, one secret

  /** The code does not collide on these two strings. */
  ghost predicate NoCodeCollision(p: Primitives, a: Bytes, b: Bytes) {
    p.pinCode(a) == p.pinCode(b) ==> a == b
  }

  /** The string does not collide on what these two are made of. */
  ghost predicate NoStringCollision(p: Primitives, a: SessionKeys, b: SessionKeys) {
    p.authString(a.dhs, a.transcript) == p.authString(b.dhs, b.transcript) ==>
      a.dhs == b.dhs && a.transcript == b.transcript
  }

  /** Two sides that show one code have one authentication string where the code does not
      collide, and then the same keys altogether where the string does not. */
  lemma OneCodeOneString(p: Primitives, a: SessionKeys, b: SessionKeys)
    requires Derived(p, Some(a)) && Derived(p, Some(b)) && a.pin == b.pin
    requires NoCodeCollision(p, a.auth, b.auth)
    ensures a.auth == b.auth
    ensures NoStringCollision(p, a, b) ==> a == b
  {
  }

  /** A payload comes through only where the code that was compared last is the session's own.
      So when that was the code another session showed, the two hold the same authentication
      string - and the same secrets and transcript: nobody stood between them. Whatever was fed
      to the two, in whatever pieces and order; only collisions are excluded. */
  lemma DeliveredMeansSameKeys(p: Primitives, s: SessionState, ops: seq<Op>, op: Op, other: SessionState,
      otherOps: seq<Op>)
    requires Fresh(s) && Fresh(other)
    requires RunOps(p, s, ops + [op]).payloads != RunOps(p, s, ops).payloads
    requires var shown := Keys(RunOps(p, other, otherOps).peer);
             && shown.Some? && LastCode(ops) == Some(shown.value.pin)
             && var mine := Keys(RunOps(p, s, ops).peer);
                mine.Some? ==> NoCodeCollision(p, mine.value.auth, shown.value.auth)
    ensures var mine, theirs := Keys(RunOps(p, s, ops).peer), Keys(RunOps(p, other, otherOps).peer);
            && mine.Some? && mine.value.auth == theirs.value.auth
            && (NoStringCollision(p, mine.value, theirs.value) ==> mine == theirs)
  {
    hide RunOps, Fresh, Derived, NoCodeCollision, NoStringCollision;
    PayloadGate(p, s, ops, op);
    RunKeepsDerived(p, s, ops);
    RunKeepsDerived(p, other, otherOps);
    OneCodeOneString(p, Keys(RunOps(p, s, ops).peer).value, Keys(RunOps(p, other, otherOps).peer).value);
  }

  // ---------------------------------------------------------------- the gate, exactly

  /** The code compared last, of those compared when there was one to compare with. */
  function LastCompared(p: Primitives, s: SessionState, ops: seq<Op>): Option<string> {
    if ops == [] then None
    else
      var before, op := ops[..|ops| - 1], ops[|ops| - 1];
      if op.ConfirmOp? && Keys(RunOps(p, s, before).peer).Some? then Some(op.code) else LastCompared(p, s, before)
  }

  ghost predicate GateExact(s: SessionState, last: Option<string>) {
    && KeysMatchPhase(s.peer)
    && (Keys(s.peer).None? ==> last.None?)
    && (s.confirmed <==> last.Some? && Keys(s.peer).Some? && last.value == Keys(s.peer).value.pin)
  }

  lemma {:induction false} GateIsExact(p: Primitives, s: SessionState, ops: seq<Op>)
    requires Fresh(s)
    ensures GateExact(RunOps(p, s, ops), LastCompared(p, s, ops))
    decreases |ops|
  {
    if ops == [] {
    } else {
      hide Feed, Start;
      var before, op := ops[..|ops| - 1], ops[|ops| - 1];
      var t := RunOps(p, s, before);
      GateIsExact(p, s, before);
      if op.FeedOp? {
        FeedGateParts(p, t, op.now, op.chunk);
      }
      if op.ClientInitOp? {
        BeginKeepsKeys(p, t);
      }
    }
  }

  /** What a session answers to a payload, after any run: that it is not established, before it
      is and once it is dead; that the code is missing, unless the code compared last was its
      own; and otherwise it takes it. What it answers to a code needs nothing but the keys. */
  lemma GateAnswers(p: Primitives, s: SessionState, ops: seq<Op>, n: nat, code: string)
    requires Fresh(s)
    ensures var t := RunOps(p, s, ops);
            var open := Keys(t.peer).Some? && LastCompared(p, s, ops) == Some(Keys(t.peer).value.pin);
            && Deliver(t, n).1 == (if Keys(t.peer).None? || t.dead then Withheld(NotEstablished)
                                   else if open then Delivered else Withheld(ConfirmationRequired))
            && Confirm(t, code).1 == (if Keys(t.peer).Some? && code == Keys(t.peer).value.pin
                                      then Ok(()) else Err(PairingFailed))
  {
    hide RunOps, LastCompared;
    GateIsExact(p, s, ops);
  }
}
