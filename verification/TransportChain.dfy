/** The composition as the demonstration runs it: the handshake, the keys each side derives
    from it, and a loop over the chunks that drives the sealing channel, the opening channel
    and the receive session in place. */
module TransportChain {
  import opened Prelude
  import opened Wire
  import opened Payload
  import opened SpoolNames
  import opened Spool
  import opened Receive
  import opened SecureChannel
  import opened Transfers
  import opened EndToEnd
  import opened Deliveries
  import opened ReceiveSessions
  import H = Handshake
  import Ukey2Wire

  /** One chunk through every layer; false when some layer refused it. */
  method SendChunk(x: Transfer, k: nat, iv: Bytes, sender: SecureMessageChannel, receiver: SecureMessageChannel,
      session: ReceiveSession)
    returns (ok: bool)
    requires Sendable(x) && HasChunk(x, k) && |iv| == IV_BYTES && session.Valid()
    requires sender != receiver && sender.crypto == receiver.crypto && sender.send == receiver.recv
    modifies sender, receiver, session, session.spool, Assemblers(session.entries)
    ensures session.Valid() && Assemblers(session.entries) <= old(Assemblers(session.entries))
    ensures sender.sendSequence == WrapI32(old(sender.sendSequence) + 1)
    ensures Passed(x, k, iv, sender.crypto, sender.send, old(sender.sendSequence), old(receiver.expectedSequence)) ==>
              && receiver.expectedSequence == WrapI32(old(receiver.expectedSequence) + 1)
              && session.Model() == OnPayload(old(session.Model()), FrameAt(x, k)).0
              && ok == OnPayload(old(session.Model()), FrameAt(x, k)).1.Ok?
  {
    hide EncodeTransfer, DecodeTransfer, SealedFrame, OpenFrame, OnPayload, Fits, WrapI32;
    PartBounds(x, k);
    var bytes := EncodeTransfer(FrameAt(x, k));
    if bytes.Err? {
      return false;
    }
    ghost var s0, e0, m0 := sender.sendSequence, receiver.expectedSequence, session.Model();
    var sealed := sender.Seal(bytes.value, Some(iv));
    var plain := receiver.Open(sealed.value);
    PassedMeans(x, k, iv, sender.crypto, sender.send, s0, e0);
    if plain.Err? {
      return false;
    }
    var frame := ParseTransfer(plain.value);
    if frame.Err? {
      return false;
    }
    assert session.Model() == m0;
    var r := session.HandlePayload(frame.value);
    return r.Ok?;
  }

  /** In step, and short enough for the reader on both levels. */
  ghost predicate Passed(x: Transfer, k: nat, iv: Bytes, c: Suite, keys: DirectionKeys, sequence: i32, expected: i32)
    requires Sendable(x) && HasChunk(x, k)
  {
    && c.DecryptInverts() && |iv| == IV_BYTES && sequence == expected
    && Readable(x, k) && Fits(c, keys, sequence, FramePlaintext(x, k), iv)
  }

  lemma PassedMeans(x: Transfer, k: nat, iv: Bytes, c: Suite, keys: DirectionKeys, sequence: i32, expected: i32)
    requires Sendable(x) && HasChunk(x, k)
    ensures EncodeTransfer(FrameAt(x, k)) == Ok(FramePlaintext(x, k))
    ensures Passed(x, k, iv, c, keys, sequence, expected) ==>
              && OpenFrame(c, keys, expected, SealedFrame(c, keys, sequence, FramePlaintext(x, k), iv))
                 == Ok(FramePlaintext(x, k))
              && DecodeTransfer(FramePlaintext(x, k)) == Ok(FrameAt(x, k))
  {
    hide OpenFrame, SealedFrame, DecodeTransfer, Readable, Fits;
    PartBounds(x, k);
    FrameParses(x, k);
    if Passed(x, k, iv, c, keys, sequence, expected) {
      OpenSealed(c, keys, sequence, FramePlaintext(x, k), iv, expected);
    }
  }

  /** The chunk after `k` others, sent after `base` other frames. */
  method SendNext(x: Transfer, k: nat, iv: Bytes, sender: SecureMessageChannel, receiver: SecureMessageChannel,
                  session: ReceiveSession, ghost s: ReceiveState, ghost base: nat)
    requires sender != receiver && sender.crypto == receiver.crypto && sender.send == receiver.recv
    requires sender.sendSequence == receiver.expectedSequence == SequenceNumber(base + k)
    requires Sendable(x) && HasChunk(x, k) && session.Valid() && Ready(s, x) && AfterChunks(s, x, k, session.Model())
    requires |iv| == IV_BYTES
    requires Passed(x, k, iv, sender.crypto, sender.send, SequenceNumber(base + k), SequenceNumber(base + k))
    modifies sender, receiver, session, session.spool, Assemblers(session.entries)
    ensures session.Valid() && Assemblers(session.entries) <= old(Assemblers(session.entries))
    ensures sender.sendSequence == receiver.expectedSequence == SequenceNumber(base + (k + 1))
    ensures AfterChunks(s, x, k + 1, session.Model())
  {
    hide *;
    NextNumber(base + k);
    assert base + k + 1 == base + (k + 1);
    ghost var t := session.Model();
    var ok := SendChunk(x, k, iv, sender, receiver, session);
    NextChunkTaken(s, x, k, t);
  }

  lemma ChunkPasses(c: Suite, keys: DirectionKeys, x: Transfer, ivs: seq<Bytes>, k: nat, sequence: i32)
    requires c.DecryptInverts() && c.BlockLengths() && Sendable(x) && x.chunk <= MAX_FIELD_BYTES - 1024
    requires k < |ivs| && HasChunk(x, |ivs| - 1) && |ivs[k]| == IV_BYTES
    ensures HasChunk(x, k) && Passed(x, k, ivs[k], c, keys, sequence, sequence)
  {
    hide Readable, Fits, FramePlaintext;
    PlainAt(x, |ivs|, k);
    ChunkFits(x, k);
    PlaintextFits(c, keys, sequence, FramePlaintext(x, k), ivs[k]);
  }

  /** The loop over the chunks, after `base` other frames; the demonstration stops at the first
      refusal, here there is none. */
  method SendAll(x: Transfer, ivs: seq<Bytes>, sender: SecureMessageChannel, receiver: SecureMessageChannel,
                 session: ReceiveSession, ghost s: ReceiveState, ghost base: nat)
    requires sender != receiver && sender.crypto == receiver.crypto && sender.send == receiver.recv
    requires sender.crypto.DecryptInverts() && sender.crypto.BlockLengths()
    requires sender.sendSequence == receiver.expectedSequence == SequenceNumber(base)
    requires Sendable(x) && x.chunk <= MAX_FIELD_BYTES - 1024
    requires |ivs| > 0 && HasChunk(x, |ivs| - 1)
    requires forall i :: 0 <= i < |ivs| ==> |ivs[i]| == IV_BYTES
    requires session.Valid() && session.Model() == s && Ready(s, x)
    modifies sender, receiver, session, session.spool, Assemblers(session.entries)
    ensures session.Valid() && Assemblers(session.entries) <= old(Assemblers(session.entries))
    ensures AfterChunks(s, x, |ivs|, session.Model())
  {
    hide *;
    ReadyStart(s, x);
    var k := 0;
    while k < |ivs|
      invariant k <= |ivs| && session.Valid() && Assemblers(session.entries) <= old(Assemblers(session.entries))
      invariant sender.sendSequence == receiver.expectedSequence == SequenceNumber(base + k)
      invariant AfterChunks(s, x, k, session.Model())
    {
      ChunkPasses(sender.crypto, sender.send, x, ivs, k, SequenceNumber(base + k));
      SendNext(x, k, ivs[k], sender, receiver, session, s, base);
      k := k + 1;
    }
  }

  // ---------------------------------------------------------------- the handshake and its keys

  /** What the demonstration brings: configurations that fit, and primitives that work. */
  ghost predicate Equipment(prim: H.Primitives, c: H.ClientConfig, d: H.ServerConfig, crypto: Suite) {
    && prim.Sizes() && prim.Commutes() && H.Equipped(prim, c, d)
    && c.cipher in d.supportedCiphers && c.nextProtocol in d.nextProtocols
    && (forall dhs: Bytes, transcript: Bytes :: prim.nextSecret(dhs, transcript) != [])
    && crypto.DecryptInverts() && crypto.BlockLengths()
  }

  /** The four calls of the handshake: both objects end established, on the same keys. */
  method Agree(prim: H.Primitives, c: H.ClientConfig, d: H.ServerConfig, ghost crypto: Suite)
    returns (clientKeys: H.SessionKeys, serverKeys: H.SessionKeys)
    requires Equipment(prim, c, d, crypto)
    ensures clientKeys == serverKeys && clientKeys.next != []
  {
    hide Equipment, H.HandleClientInit, H.HandleServerInit, H.HandleClientFinish, H.Start;
    var client := new H.Ukey2Client(prim, c);
    var server := new H.Ukey2Server(prim, d);
    AgreedKeys(prim, c, d, crypto, client.Model(), server.Model());
    var init := client.Begin();
    var reply := server.OnClientInit(init.value);
    var finish := client.OnServerInit(reply.value);
    ghost var done := server.OnClientFinish(finish.value.0);
    clientKeys, serverKeys := finish.value.1, server.keys.value;
  }

  /** What the four calls return on objects that have just been made. */
  lemma AgreedKeys(prim: H.Primitives, c: H.ClientConfig, d: H.ServerConfig, crypto: Suite, c0: H.ClientState,
      s0: H.ServerState)
    requires Equipment(prim, c, d, crypto)
    requires c0 == H.ClientState(H.ClientStart, None) && s0 == H.ServerState(H.ServerStart, None, [])
    ensures var (c1, m1) := H.Start(prim, c, c0);
            && m1.Ok?
            && var (s1, m2) := H.HandleClientInit(prim, d, s0, m1.value);
            && m2.Done?
            && var (c2, m3) := H.HandleServerInit(prim, c, c1, m2.value);
            && m3.Done?
            && var s2 := H.HandleClientFinish(prim, s1, m3.value.0).0;
            && s2.keys == Some(m3.value.1) && m3.value.1.next != []
  {
    hide H.HandleClientInit, H.HandleServerInit, H.HandleClientFinish, H.Start;
    H.HonestMessages(prim, c, d);
    var (c1, m1) := H.Start(prim, c, c0);
    H.ClientKeys(prim, c, c1, H.HandleClientInit(prim, d, s0, m1.value).1.value);
  }

  /** One message through a fresh pair of channels: both counters move on. */
  method Greet(sender: SecureMessageChannel, receiver: SecureMessageChannel, greeting: Bytes, iv: Bytes)
    returns (ok: bool)
    requires sender != receiver && sender.crypto == receiver.crypto && sender.send == receiver.recv
    requires sender.crypto.DecryptInverts() && sender.crypto.BlockLengths()
    requires sender.sendSequence == receiver.expectedSequence == 1
    requires |iv| == IV_BYTES && |greeting| <= MAX_FIELD_BYTES - 256
    modifies sender, receiver
    ensures ok && sender.sendSequence == receiver.expectedSequence == SequenceNumber(1)
  {
    hide SealedFrame, OpenFrame, Fits;
    PlaintextFits(sender.crypto, sender.send, 1, greeting, iv);
    OpenSealed(sender.crypto, sender.send, 1, greeting, iv, 1);
    var sealed := sender.Seal(greeting, Some(iv));
    var opened_ := receiver.Open(sealed.value);
    ok := opened_.Ok?;
  }

  /** One altered frame between a pair of channels of its own: refused. */
  method Tamper(sender: SecureMessageChannel, receiver: SecureMessageChannel, message: Bytes, iv: Bytes)
    returns (rejected: bool)
    requires sender != receiver && sender.crypto == receiver.crypto && sender.send == receiver.recv
    requires sender.crypto.BlockLengths() && |iv| == IV_BYTES
    modifies sender, receiver
    ensures rejected && receiver.expectedSequence == old(receiver.expectedSequence)
  {
    hide SealedFrame, OpenFrame, FlipLast;
    AlteredIsRefused(sender.crypto, sender.send, sender.sendSequence, message, iv, receiver.expectedSequence);
    var sealed := sender.Seal(message, Some(iv));
    var opened_ := receiver.Open(FlipLast(sealed.value));
    rejected := opened_.Err?;
  }

  /** A frame for a payload nobody announced. */
  method Misdirect(session: ReceiveSession, foreign: i64, ghost s: ReceiveState) returns (rejected: bool)
    requires session.Valid() && SameShape(s, session.Model())
    requires forall i :: 0 <= i < |s.entries| ==> s.entries[i].payloadId != foreign
    modifies session, session.spool, Assemblers(session.entries)
    ensures session.Valid() && Assemblers(session.entries) <= old(Assemblers(session.entries))
    ensures rejected && session.Model() == old(session.Model())
  {
    ghost var t := session.Model();
    NobodysFrame(t, DataFrame(foreign, 4, 0, true, [0, 0, 0, 0]));
    var r := session.HandlePayload(DataFrame(foreign, 4, 0, true, [0, 0, 0, 0]));
    rejected := r.Err?;
  }

  lemma NobodysFrame(t: ReceiveState, frame: TransferFrame)
    requires frame.packetType.Data? && frame.header.Some?
    requires forall i :: 0 <= i < |t.entries| ==> t.entries[i].payloadId != frame.header.value.id
    ensures OnPayload(t, frame) == (t, Err(InvalidFrame))
  {
  }

  // ---------------------------------------------------------------- the whole chain

  datatype Report = Report(greeted: bool, tamperRejected: bool, foreignRejected: bool)

  /** The handshake of two objects, a key schedule derived by each side from its own keys, a
      greeting and an altered frame, one file introduced and sent chunk by chunk, a frame for
      another payload, and the file published: it is the content. */
  method RunTransportChain(
    prim: H.Primitives, c: H.ClientConfig, d: H.ServerConfig, crypto: Suite, root: string, budget: u64,
    name: string, x: Transfer, foreign: i64, greeting: Bytes, ivGreeting: Bytes, ivTamper: Bytes, ivs: seq<Bytes>)
    returns (report: Report, r: Result<PublishView>, session: ReceiveSession)
    requires Equipment(prim, c, d, crypto) && CleanRoot(root)
    requires Sendable(x) && x.chunk <= MAX_FIELD_BYTES - 1024 && |x.content| <= budget && foreign != x.id
    requires Sanitary(None, name) && ValidOffer(None, name) && |greeting| <= MAX_FIELD_BYTES - 256
    requires |ivs| > 0 && HasChunk(x, |ivs| - 1) && !HasChunk(x, |ivs|)
    requires |ivGreeting| == |ivTamper| == IV_BYTES && forall i :: 0 <= i < |ivs| ==> |ivs[i]| == IV_BYTES
    ensures report == Report(true, true, true) && Arrived(session.Model(), r, name, x)
  {
    hide Derive, SequenceNumber, CleanRoot, Sanitary, ValidOffer, Arrived;
    var clientKeys, serverKeys := Agree(prim, c, d, crypto);
    var clientSchedule, serverSchedule := Derive(crypto, clientKeys.next), Derive(crypto, serverKeys.next);
    EndsMatch(crypto, clientKeys.next);
    var tamperSender := new SecureMessageChannel(crypto, clientSchedule.value, ChannelRole.Client);
    var tamperReceiver := new SecureMessageChannel(crypto, serverSchedule.value, ChannelRole.Server);
    var sender := new SecureMessageChannel(crypto, clientSchedule.value, ChannelRole.Client);
    var receiver := new SecureMessageChannel(crypto, serverSchedule.value, ChannelRole.Server);
    var greeted := Greet(sender, receiver, greeting, ivGreeting);
    var tamperRejected := Tamper(tamperSender, tamperReceiver, greeting, ivTamper);
    var foreignRejected;
    foreignRejected, r, session := Transport(sender, receiver, root, budget, name, x, foreign, ivs);
    report := Report(greeted, tamperRejected, foreignRejected);
  }

  /** The part of the chain after the greeting. */
  method Transport(sender: SecureMessageChannel, receiver: SecureMessageChannel, root: string, budget: u64,
                   name: string, x: Transfer, foreign: i64, ivs: seq<Bytes>)
    returns (foreignRejected: bool, r: Result<PublishView>, session: ReceiveSession)
    requires sender != receiver && sender.crypto == receiver.crypto && sender.send == receiver.recv
    requires sender.crypto.DecryptInverts() && sender.crypto.BlockLengths() && CleanRoot(root)
    requires sender.sendSequence == receiver.expectedSequence == SequenceNumber(1)
    requires Sendable(x) && x.chunk <= MAX_FIELD_BYTES - 1024 && |x.content| <= budget && foreign != x.id
    requires Sanitary(None, name) && ValidOffer(None, name)
    requires |ivs| > 0 && HasChunk(x, |ivs| - 1) && !HasChunk(x, |ivs|)
    requires forall i :: 0 <= i < |ivs| ==> |ivs[i]| == IV_BYTES
    modifies sender, receiver
    ensures foreignRejected && Arrived(session.Model(), r, name, x)
  {
    hide *;
    var entryId;
    session, entryId := Admit(root, budget, name, x);
    ghost var s := session.Model();
    SendAll(x, ivs, sender, receiver, session, s, 1);
    PartBounds(x, |ivs| - 1);
    foreignRejected, r := Conclude(session, foreign, x, name, entryId, s, |ivs|);
  }

  /** The frame for another payload and the end of the transfer. */
  method Conclude(session: ReceiveSession, foreign: i64, x: Transfer, name: string, entryId: string,
                  ghost s: ReceiveState, n: nat)
    returns (foreignRejected: bool, r: Result<PublishView>)
    requires session.Valid() && Sendable(x) && foreign != x.id && Ready(s, x)
    requires Admitted(s, x, name, entryId) && AfterChunks(s, x, n, session.Model()) && Start(x, n) == |x.content|
    modifies session, session.spool, Assemblers(session.entries)
    ensures foreignRejected && Arrived(session.Model(), r, name, x)
  {
    hide *;
    PublishedFinally(s, x, n, session.Model(), entryId, name);
    OneEntry(s, x, n, session.Model(), entryId, name);
    foreignRejected := Misdirect(session, foreign, s);
    r := session.Finish(entryId);
  }

  lemma OneEntry(s: ReceiveState, x: Transfer, n: nat, t: ReceiveState, entryId: string, name: string)
    requires Admitted(s, x, name, entryId) && AfterChunks(s, x, n, t)
    ensures SameShape(s, t) && forall i :: 0 <= i < |s.entries| ==> s.entries[i].payloadId == x.id
  {
    hide Coupled, Stored, SameShape, Publishable;
  }

  /** The file is there under its name, with the content, and the session says so. */
  ghost predicate Arrived(t: ReceiveState, r: Result<PublishView>, name: string, x: Transfer) {
    && r.Ok? && FileIs(t.spool, [name], x.content)
    && r.value.relative == [name] && r.value.bytes == |x.content| && r.value.hashOf == x.content
    && t.published == [r.value]
  }

  /** A session of its own that accepts the one file. */
  method Admit(root: string, budget: u64, name: string, x: Transfer) returns (session: ReceiveSession, entryId: string)
    requires CleanRoot(root) && |x.content| <= budget && Sendable(x) && Sanitary(None, name) && ValidOffer(None, name)
    ensures fresh(session) && fresh(session.spool) && fresh(Assemblers(session.entries)) && session.Valid()
    ensures Ready(session.Model(), x) && Admitted(session.Model(), x, name, entryId)
  {
    hide OnIntroduction, Sanitary, ValidOffer, CleanRoot, Ready;
    session := new ReceiveSession(root, budget);
    var offer := FileOffer(name, |x.content|, None, x.id);
    var status := session.HandleIntroduction([offer], Accept);
    IntroducedIsReady(root, budget, offer, x);
    ReadyStart(session.Model(), x);
    entryId := session.entries[0].entryId;
  }

  ghost predicate Admitted(s: ReceiveState, x: Transfer, name: string, entryId: string) {
    && Ready(s, x) && |s.entries| == 1 && s.spool.dirs == {} && s.published == []
    && EntryFor(s, x).path == [name] && EntryFor(s, x).entryId == entryId && Publishable(s.spool, [name])
  }

  lemma NextNumber(k: nat)
    ensures WrapI32(SequenceNumber(k) + 1) == SequenceNumber(k + 1)
  {
  }

  lemma PublishedFinally(s: ReceiveState, x: Transfer, n: nat, t: ReceiveState, entryId: string, name: string)
    requires Admitted(s, x, name, entryId) && AfterChunks(s, x, n, t) && Start(x, n) == |x.content|
    ensures Arrived(FinishEntry(t, entryId).0, FinishEntry(t, entryId).1, name, x)
  {
    hide Ready, AfterChunks, FileIs, Publishable, FinishEntry;
    PublishAfter(s, x, n, t);
  }
}
