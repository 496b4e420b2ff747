/** The UKEY2 handshake of proto-quickshare/src/handshake.rs: both state machines, the
    agreement of an undisturbed exchange, and what the commitment binds under any network. */
module Handshake {
  import opened Prelude
  import opened Wire
  import opened Payload
  import opened Ukey2Wire

  const NONCE_BYTES: nat := 32

  /** SHA-512, the P-256 key agreement with the scalars it works on, the two HKDF outputs and
      the confirmation code. */
  datatype Primitives = Primitives(
    sha512: Bytes -> Bytes,
    usable: Bytes -> bool,
    publicKey: Bytes -> GenericPublicKey,
    agree: (Bytes, GenericPublicKey) -> Option<Bytes>,
    authString: (Bytes, Bytes) -> Bytes,
    nextSecret: (Bytes, Bytes) -> Bytes,
    pinCode: Bytes -> string)
  {
    function Shared(a: Bytes, b: Bytes): Option<Bytes> {
      agree(a, publicKey(b))
    }

    /** Both sides of an exchange of usable scalars compute the same secret. */
    ghost predicate Commutes() {
      forall a: Bytes, b: Bytes :: usable(a) && usable(b) ==> Shared(a, b).Some? && Shared(a, b) == Shared(b, a)
    }

    ghost predicate Sizes() {
      && (forall a: Bytes :: usable(a) ==> |publicKey(a).x| <= 64 && |publicKey(a).y| <= 64)
      && (forall m: Bytes :: |sha512(m)| == 64)
    }
  }

  datatype AlertType =
    | BadMessage | BadMessageType | IncorrectMessage | BadMessageData | BadVersion | BadRandom
    | BadHandshakeCipher | BadNextProtocol | BadPublicKey | InternalError

  datatype Outcome<+T> = Done(value: T) | Refused(alert: AlertType)

  datatype SessionKeys = SessionKeys(auth: Bytes, next: Bytes, transcript: Bytes, dhs: Bytes, pin: string)

  function DeriveKeys(p: Primitives, dhs: Bytes, transcript: Bytes): SessionKeys {
    var auth := p.authString(dhs, transcript);
    SessionKeys(auth, p.nextSecret(dhs, transcript), transcript, dhs, p.pinCode(auth))
  }

  /** The keys that belong to a shared secret and a transcript: everything in them comes from
      these two, and the confirmation code from the authentication string. */
  ghost predicate DerivedFrom(p: Primitives, k: SessionKeys, dhs: Bytes, transcript: Bytes) {
    && k.dhs == dhs && k.transcript == transcript
    && k.auth == p.authString(dhs, transcript)
    && k.next == p.nextSecret(dhs, transcript)
    && k.pin == p.pinCode(p.authString(dhs, transcript))
  }

  // ---------------------------------------------------------------- client

  /** `scalar` is what the system's entropy yields, absent when it yields nothing usable. */
  datatype ClientConfig = ClientConfig(nextProtocol: Text, cipher: i32, random: Bytes, scalar: Option<Bytes>)

  datatype ClientPhase =
    | ClientStart
    | InitSent(scalar: Bytes, clientInit: Bytes, clientFinished: Bytes)
    | ClientEstablished

  datatype ClientState = ClientState(phase: ClientPhase, keys: Option<SessionKeys>)

  function FinishFor(p: Primitives, scalar: Bytes): Bytes {
    EncodeClientFinished(EncodeKey(p.publicKey(scalar)))
  }

  function InitFor(p: Primitives, c: ClientConfig, scalar: Bytes): ClientInit {
    ClientInit(1, c.random, [Commitment(c.cipher, p.sha512(FinishFor(p, scalar)))], c.nextProtocol)
  }

  function Start(p: Primitives, c: ClientConfig, s: ClientState): (ClientState, Result<Bytes>) {
    if !s.phase.ClientStart? then (s, Err(AuthDenied))
    else if c.scalar.None? then (s, Err(UnsupportedFeature))
    else
      var scalar := c.scalar.value;
      var init := EncodeClientInit(InitFor(p, c, scalar));
      (s.(phase := InitSent(scalar, init, FinishFor(p, scalar))), Ok(init))
  }

  function HandleServerInit(p: Primitives, c: ClientConfig, s: ClientState, frame: Bytes):
    (ClientState, Outcome<(Bytes, SessionKeys)>)
  {
    if !s.phase.InitSent? then (s, Refused(IncorrectMessage))
    else
      var m := DecodeMessage(frame);
      if m.Err? then (s, Refused(BadMessage))
      else if m.value.messageType != ServerInitType then (s, Refused(BadMessageType))
      else
        var i := DecodeServerInit(m.value.data);
        if i.Err? then (s, Refused(BadMessageData))
        else if i.value.version != 1 then (s, Refused(BadVersion))
        else if |i.value.random| != NONCE_BYTES then (s, Refused(BadRandom))
        else if i.value.cipher != c.cipher then (s, Refused(BadHandshakeCipher))
        else
          var key := DecodeKey(i.value.publicKey);
          if key.Err? then (s, Refused(BadPublicKey))
          else
            var dhs := p.agree(s.phase.scalar, key.value);
            if dhs.None? then (s, Refused(BadPublicKey))
            else
              var keys := DeriveKeys(p, dhs.value, s.phase.clientInit + frame);
              (ClientState(ClientEstablished, Some(keys)), Done((s.phase.clientFinished, keys)))
  }

  // ---------------------------------------------------------------- server

  datatype ServerConfig = ServerConfig(supportedCiphers: seq<i32>, nextProtocols: seq<Text>, random: Bytes,
      scalar: Option<Bytes>)

  datatype ServerPhase =
    ServerStart | InitReceived(peerCommitment: Bytes, m1: Bytes, m2: Bytes, scalar: Bytes) | ServerEstablished

  datatype ServerState = ServerState(phase: ServerPhase, keys: Option<SessionKeys>, seenRandoms: seq<Bytes>)

  /** The client's order decides: the first commitment whose cipher the server supports. */
  function FirstSupported(supported: seq<i32>, cs: seq<Commitment>): (r: Option<Commitment>)
    ensures r.Some? ==> r.value in cs && r.value.cipher in supported
    ensures r.None? ==> forall i :: 0 <= i < |cs| ==> cs[i].cipher !in supported
    decreases |cs|
  {
    if cs == [] then None
    else if cs[0].cipher in supported then Some(cs[0])
    else FirstSupported(supported, cs[1..])
  }

  predicate HasEmptyCommitment(cs: seq<Commitment>) {
    exists i :: 0 <= i < |cs| && cs[i].hash == []
  }

  function CheckClientInit(c: ServerConfig, seen: seq<Bytes>, frame: Bytes): (r: Outcome<(ClientInit, Commitment)>)
    ensures r.Done? ==>
              && DecodeMessage(frame).Ok? && DecodeMessage(frame).value.messageType == ClientInitType
              && DecodeClientInit(DecodeMessage(frame).value.data) == Ok(r.value.0)
              && FirstSupported(c.supportedCiphers, r.value.0.commitments) == Some(r.value.1)
              && r.value.0.version == 1 && |r.value.0.random| == NONCE_BYTES && r.value.0.random !in seen
  {
    var m := DecodeMessage(frame);
    if m.Err? then Refused(BadMessage)
    else if m.value.messageType != ClientInitType then Refused(BadMessageType)
    else
      var i := DecodeClientInit(m.value.data);
      if i.Err? then Refused(BadMessageData)
      else if i.value.version != 1 then Refused(BadVersion)
      else if |i.value.random| != NONCE_BYTES then Refused(BadRandom)
      else if i.value.random in seen then Refused(BadRandom)
      else if i.value.commitments == [] then Refused(BadHandshakeCipher)
      else if HasEmptyCommitment(i.value.commitments) then Refused(BadHandshakeCipher)
      else
        var chosen := FirstSupported(c.supportedCiphers, i.value.commitments);
        if chosen.None? then Refused(BadHandshakeCipher)
        else if i.value.nextProtocol !in c.nextProtocols then Refused(BadNextProtocol)
        else Done((i.value, chosen.value))
  }

  function ReplyFor(p: Primitives, c: ServerConfig, scalar: Bytes, cipher: i32): ServerInit {
    ServerInit(1, c.random, cipher, EncodeKey(p.publicKey(scalar)))
  }

  function HandleClientInit(p: Primitives, c: ServerConfig, s: ServerState, frame: Bytes): (ServerState, Outcome<Bytes>)
  {
    if !s.phase.ServerStart? then (s, Refused(IncorrectMessage))
    else
      var r := CheckClientInit(c, s.seenRandoms, frame);
      if r.Refused? then (s, Refused(r.alert))
      else if c.scalar.None? then (s, Refused(InternalError))
      else
        var (init, chosen) := r.value;
        var m2 := EncodeServerInit(ReplyFor(p, c, c.scalar.value, chosen.cipher));
        (ServerState(InitReceived(chosen.hash, frame, m2, c.scalar.value), s.keys, s.seenRandoms + [init.random]),
          Done(m2))
  }

  /** The commitment is checked before anything of the message is interpreted. */
  function HandleClientFinish(p: Primitives, s: ServerState, frame: Bytes): (ServerState, Outcome<()>) {
    if !s.phase.InitReceived? then (s, Refused(IncorrectMessage))
    else
      var m := DecodeMessage(frame);
      if m.Err? then (s, Refused(BadMessage))
      else if m.value.messageType != ClientFinishType then (s, Refused(BadMessageType))
      else if p.sha512(frame) != s.phase.peerCommitment then (s, Refused(BadMessageData))
      else
        var f := DecodeClientFinished(m.value.data);
        if f.Err? then (s, Refused(BadMessageData))
        else
          var key := DecodeKey(f.value);
          if key.Err? then (s, Refused(BadPublicKey))
          else
            var dhs := p.agree(s.phase.scalar, key.value);
            if dhs.None? then (s, Refused(BadPublicKey))
            else
              var keys := DeriveKeys(p, dhs.value, s.phase.m1 + s.phase.m2);
              (s.(phase := ServerEstablished, keys := Some(keys)), Done(()))
  }

  // ---------------------------------------------------------------- the objects

  class Ukey2Client {
    const prim: Primitives
    const config: ClientConfig
    var phase: ClientPhase
    var keys: Option<SessionKeys>

    ghost function Model(): ClientState
      reads this
    {
      ClientState(phase, keys)
    }

    constructor (prim: Primitives, config: ClientConfig)
      ensures Model() == ClientState(ClientStart, None) && this.prim == prim && this.config == config
    {
      this.prim, this.config := prim, config;
      phase, keys := ClientStart, None;
    }

    method Begin() returns (r: Result<Bytes>)
      modifies this
      ensures (Model(), r) == Start(prim, config, old(Model()))
    {
      if !phase.ClientStart? {
        return Err(AuthDenied);
      }
      if config.scalar.None? {
        return Err(UnsupportedFeature);
      }
      var scalar := config.scalar.value;
      var finished := FinishFor(prim, scalar);
      var init := EncodeClientInit(InitFor(prim, config, scalar));
      phase := InitSent(scalar, init, finished);
      return Ok(init);
    }

    method OnServerInit(frame: Bytes) returns (r: Outcome<(Bytes, SessionKeys)>)
      modifies this
      ensures (Model(), r) == HandleServerInit(prim, config, old(Model()), frame)
      ensures r.Done? ==>
                && old(phase).InitSent? && keys == Some(r.value.1)
                && DerivedFrom(prim, r.value.1, r.value.1.dhs, old(phase).clientInit + frame)
    {
      if !phase.InitSent? {
        return Refused(IncorrectMessage);
      }
      var m := DecodeMessage(frame);
      if m.Err? {
        return Refused(BadMessage);
      }
      if m.value.messageType != ServerInitType {
        return Refused(BadMessageType);
      }
      var init := DecodeServerInit(m.value.data);
      if init.Err? {
        return Refused(BadMessageData);
      }
      if init.value.version != 1 {
        return Refused(BadVersion);
      }
      if |init.value.random| != NONCE_BYTES {
        return Refused(BadRandom);
      }
      if init.value.cipher != config.cipher {
        return Refused(BadHandshakeCipher);
      }
      var key := DecodeKey(init.value.publicKey);
      if key.Err? {
        return Refused(BadPublicKey);
      }
      var dhs := prim.agree(phase.scalar, key.value);
      if dhs.None? {
        return Refused(BadPublicKey);
      }
      var derived := DeriveKeys(prim, dhs.value, phase.clientInit + frame);
      var finished := phase.clientFinished;
      phase, keys := ClientEstablished, Some(derived);
      return Done((finished, derived));
    }
  }

  class Ukey2Server {
    const prim: Primitives
    const config: ServerConfig
    var phase: ServerPhase
    var keys: Option<SessionKeys>
    var seenRandoms: seq<Bytes>

    ghost function Model(): ServerState
      reads this
    {
      ServerState(phase, keys, seenRandoms)
    }

    constructor (prim: Primitives, config: ServerConfig)
      ensures Model() == ServerState(ServerStart, None, []) && this.prim == prim && this.config == config
    {
      this.prim, this.config := prim, config;
      phase, keys, seenRandoms := ServerStart, None, [];
    }

    /** Walks the client's offers in order; an empty commitment anywhere spoils them all. */
    method ChooseCipher(cs: seq<Commitment>) returns (r: Outcome<Commitment>)
      ensures HasEmptyCommitment(cs) ==> r == Refused(BadHandshakeCipher)
      ensures !HasEmptyCommitment(cs) ==>
                r == match FirstSupported(config.supportedCiphers, cs)
                     case None => Refused(BadHandshakeCipher)
                     case Some(c) => Done(c)
    {
      var chosen: Option<Commitment> := None;
      var i := 0;
      while i < |cs|
        invariant i <= |cs|
        invariant forall j :: 0 <= j < i ==> cs[j].hash != []
        invariant FirstSupported(config.supportedCiphers, cs) ==
                  if chosen.Some? then chosen else FirstSupported(config.supportedCiphers, cs[i..])
      {
        if cs[i].hash == [] {
          return Refused(BadHandshakeCipher);
        }
        assert cs[i..][1..] == cs[i + 1..];
        if chosen.None? && cs[i].cipher in config.supportedCiphers {
          chosen := Some(cs[i]);
        }
        i := i + 1;
      }
      return if chosen.None? then Refused(BadHandshakeCipher) else Done(chosen.value);
    }

    method OnClientInit(frame: Bytes) returns (r: Outcome<Bytes>)
      modifies this
      ensures (Model(), r) == HandleClientInit(prim, config, old(Model()), frame)
    {
      if !phase.ServerStart? {
        return Refused(IncorrectMessage);
      }
      var m := DecodeMessage(frame);
      if m.Err? {
        return Refused(BadMessage);
      }
      if m.value.messageType != ClientInitType {
        return Refused(BadMessageType);
      }
      var init := DecodeClientInit(m.value.data);
      if init.Err? {
        return Refused(BadMessageData);
      }
      if init.value.version != 1 {
        return Refused(BadVersion);
      }
      if |init.value.random| != NONCE_BYTES {
        return Refused(BadRandom);
      }
      if init.value.random in seenRandoms {
        return Refused(BadRandom);
      }
      if init.value.commitments == [] {
        return Refused(BadHandshakeCipher);
      }
      var chosen := ChooseCipher(init.value.commitments);
      if chosen.Refused? {
        return Refused(chosen.alert);
      }
      if init.value.nextProtocol !in config.nextProtocols {
        return Refused(BadNextProtocol);
      }
      if config.scalar.None? {
        return Refused(InternalError);
      }
      var reply := EncodeServerInit(ReplyFor(prim, config, config.scalar.value, chosen.value.cipher));
      seenRandoms := seenRandoms + [init.value.random];
      phase := InitReceived(chosen.value.hash, frame, reply, config.scalar.value);
      return Done(reply);
    }

    method OnClientFinish(frame: Bytes) returns (r: Outcome<()>)
      modifies this
      ensures (Model(), r) == HandleClientFinish(prim, old(Model()), frame)
      ensures r.Done? ==>
                && old(phase).InitReceived? && keys.Some?
                && DerivedFrom(prim, keys.value, keys.value.dhs, old(phase).m1 + old(phase).m2)
    {
      if !phase.InitReceived? {
        return Refused(IncorrectMessage);
      }
      var m := DecodeMessage(frame);
      if m.Err? {
        return Refused(BadMessage);
      }
      if m.value.messageType != ClientFinishType {
        return Refused(BadMessageType);
      }
      if prim.sha512(frame) != phase.peerCommitment {
        return Refused(BadMessageData);
      }
      var finished := DecodeClientFinished(m.value.data);
      if finished.Err? {
        return Refused(BadMessageData);
      }
      var key := DecodeKey(finished.value);
      if key.Err? {
        return Refused(BadPublicKey);
      }
      var dhs := prim.agree(phase.scalar, key.value);
      if dhs.None? {
        return Refused(BadPublicKey);
      }
      keys := Some(DeriveKeys(prim, dhs.value, phase.m1 + phase.m2));
      phase := ServerEstablished;
      return Done(());
    }
  }

  // ---------------------------------------------------------------- agreement

  /** Both sides have entropy, and the name of the protocol leaves room in the message. */
  ghost predicate Equipped(p: Primitives, c: ClientConfig, d: ServerConfig) {
    && c.scalar.Some? && p.usable(c.scalar.value) && d.scalar.Some? && p.usable(d.scalar.value)
    && |c.random| == NONCE_BYTES && |d.random| == NONCE_BYTES
    && |c.nextProtocol| <= MAX_FIELD_BYTES - 400
  }

  const FRESH_CLIENT: ClientState := ClientState(ClientStart, None)
  const FRESH_SERVER: ServerState := ServerState(ServerStart, None, [])

  /** The server understands exactly what the client announced. */
  lemma ServerReadsInit(p: Primitives, c: ClientConfig, d: ServerConfig)
    requires p.Sizes() && Equipped(p, c, d)
    ensures var init := InitFor(p, c, c.scalar.value);
            CheckClientInit(d, [], EncodeClientInit(init)) ==
            if c.cipher !in d.supportedCiphers then Refused(BadHandshakeCipher)
            else if c.nextProtocol !in d.nextProtocols then Refused(BadNextProtocol)
            else Done((init, init.commitments[0]))
  {
    var init := InitFor(p, c, c.scalar.value);
    OneCommitmentLength(init);
    ClientInitRoundTrip(init);
    hide EncodeClientInit, DecodeClientInit, DecodeMessage, ClientInitFields;
    assert init.commitments[1..] == [];
    assert FirstSupported(d.supportedCiphers, init.commitments) ==
           if c.cipher in d.supportedCiphers then Some(init.commitments[0]) else None;
    assert |init.commitments[0].hash| == 64;
  }

  lemma ClientReadsReply(p: Primitives, c: ClientConfig, d: ServerConfig, s: ClientState, scalar: Bytes)
    requires p.Sizes() && p.Commutes() && |d.random| == NONCE_BYTES && s.phase.InitSent?
    requires p.usable(scalar) && p.usable(s.phase.scalar)
    ensures var m2 := EncodeServerInit(ReplyFor(p, d, scalar, c.cipher));
            var keys := DeriveKeys(p, p.Shared(s.phase.scalar, scalar).value, s.phase.clientInit + m2);
            HandleServerInit(p, c, s, m2) ==
            (ClientState(ClientEstablished, Some(keys)), Done((s.phase.clientFinished, keys)))
  {
    var reply := ReplyFor(p, d, scalar, c.cipher);
    hide EncodeFields, DecodeMessage, DecodeServerInit, EncodeServerInit, DecodeKey, EncodeKey, ServerInitFields,
      DeriveKeys;
    KeyLength(p.publicKey(scalar));
    ServerInitLength(reply);
    ServerInitRoundTrip(reply);
    PublicKeyRoundTrip(p.publicKey(scalar));
  }

  lemma ServerReadsFinish(p: Primitives, s: ServerState, scalar: Bytes)
    requires p.Sizes() && p.Commutes() && s.phase.InitReceived? && p.usable(scalar) && p.usable(s.phase.scalar)
    requires s.phase.peerCommitment == p.sha512(FinishFor(p, scalar))
    ensures HandleClientFinish(p, s, FinishFor(p, scalar)) ==
            (s.(phase := ServerEstablished,
                keys := Some(DeriveKeys(p, p.Shared(s.phase.scalar, scalar).value, s.phase.m1 + s.phase.m2))),
             Done(()))
  {
    hide EncodeFields, DecodeMessage, DecodeClientFinished, DecodeKey, EncodeKey, EncodeClientFinished, DeriveKeys;
    KeyLength(p.publicKey(scalar));
    ClientFinishedLength(EncodeKey(p.publicKey(scalar)));
    ClientFinishedRoundTrip(EncodeKey(p.publicKey(scalar)));
    PublicKeyRoundTrip(p.publicKey(scalar));
  }

  lemma DerivedAre(p: Primitives, dhs: Bytes, transcript: Bytes)
    ensures DerivedFrom(p, DeriveKeys(p, dhs, transcript), dhs, transcript)
  {
  }

  /** The client's keys come from its own ClientInit and the very bytes of the reply, and from
      the secret its scalar agrees on with the key in that reply. */
  lemma ClientKeys(p: Primitives, c: ClientConfig, s: ClientState, frame: Bytes)
    requires HandleServerInit(p, c, s, frame).1.Done?
    ensures var (t, r) := HandleServerInit(p, c, s, frame);
            var key := DecodeKey(DecodeServerInit(DecodeMessage(frame).value.data).value.publicKey).value;
            var dhs := p.agree(s.phase.scalar, key);
            && s.phase.InitSent? && t.keys == Some(r.value.1) && r.value.0 == s.phase.clientFinished
            && dhs.Some? && DerivedFrom(p, r.value.1, dhs.value, s.phase.clientInit + frame)
  {
    hide DecodeMessage, DecodeServerInit, DecodeKey;
  }

  /** The server's keys come from the two messages before the finish, and from the secret its
      scalar agrees on with the key in the finish. */
  lemma ServerKeys(p: Primitives, s: ServerState, frame: Bytes)
    requires HandleClientFinish(p, s, frame).1.Done?
    ensures var t := HandleClientFinish(p, s, frame).0;
            var key := DecodeKey(DecodeClientFinished(DecodeMessage(frame).value.data).value).value;
            var dhs := p.agree(s.phase.scalar, key);
            && s.phase.InitReceived? && t.keys.Some?
            && dhs.Some? && DerivedFrom(p, t.keys.value, dhs.value, s.phase.m1 + s.phase.m2)
  {
    hide DecodeMessage, DecodeClientFinished, DecodeKey;
  }

  /** The handshake of an honest pair, message by message. */
  lemma HonestMessages(p: Primitives, c: ClientConfig, d: ServerConfig)
    requires p.Sizes() && p.Commutes() && Equipped(p, c, d)
    requires c.cipher in d.supportedCiphers && c.nextProtocol in d.nextProtocols
    ensures var a, b := c.scalar.value, d.scalar.value;
            var c1 := Start(p, c, FRESH_CLIENT).0;
            var m1 := EncodeClientInit(InitFor(p, c, a));
            var m2 := EncodeServerInit(ReplyFor(p, d, b, c.cipher));
            var (s1, r1) := HandleClientInit(p, d, FRESH_SERVER, m1);
            var (c2, r2) := HandleServerInit(p, c, c1, m2);
            var (s2, r3) := HandleClientFinish(p, s1, FinishFor(p, a));
            && Start(p, c, FRESH_CLIENT).1 == Ok(m1)
            && r1 == Done(m2) && r2.Done? && r2.value.0 == FinishFor(p, a) && r3 == Done(())
            && c2.phase.ClientEstablished? && s2.phase.ServerEstablished? && c2.keys.Some? && c2.keys == s2.keys
            && DerivedFrom(p, c2.keys.value, p.Shared(a, b).value, m1 + m2)
  {
    hide CheckClientInit, EncodeClientInit, FinishFor, EncodeServerInit, ReplyFor, DeriveKeys, InitFor,
         HandleServerInit, HandleClientFinish;
    ServerReadsInit(p, c, d);
    InitIs(p, c);
    var a, b := c.scalar.value, d.scalar.value;
    var c1 := Start(p, c, FRESH_CLIENT).0;
    var s1 := HandleClientInit(p, d, FRESH_SERVER, EncodeClientInit(InitFor(p, c, a))).0;
    ClientReadsReply(p, c, d, c1, b);
    ServerReadsFinish(p, s1, a);
    assert p.Shared(a, b) == p.Shared(b, a);
    DerivedAre(p, p.Shared(a, b).value,
      EncodeClientInit(InitFor(p, c, a)) + EncodeServerInit(ReplyFor(p, d, b, c.cipher)));
  }

  /** An undisturbed exchange: what each side holds when the messages arrive unaltered. */
  datatype Exchange = Exchange(client: ClientState, server: ServerState, replied: bool)

  function Honest(p: Primitives, c: ClientConfig, d: ServerConfig): Exchange {
    var (c1, m1) := Start(p, c, FRESH_CLIENT);
    if m1.Err? then Exchange(c1, FRESH_SERVER, false)
    else
      var (s1, m2) := HandleClientInit(p, d, FRESH_SERVER, m1.value);
      if m2.Refused? then Exchange(c1, s1, false)
      else
        var (c2, m3) := HandleServerInit(p, c, c1, m2.value);
        if m3.Refused? then Exchange(c2, s1, true)
        else Exchange(c2, HandleClientFinish(p, s1, m3.value.0).0, true)
  }

  /** With messages unaltered both sides end established, exactly when the server knows the
      client's cipher and protocol - and then on the secret the two scalars share, the two
      messages as their transcript, and the strings, secret and code the primitives make of these. */
  lemma HonestAgreement(p: Primitives, c: ClientConfig, d: ServerConfig)
    requires p.Sizes() && p.Commutes() && Equipped(p, c, d)
    ensures var x := Honest(p, c, d);
            var fits := c.cipher in d.supportedCiphers && c.nextProtocol in d.nextProtocols;
            && (x.server.phase.ServerEstablished? <==> fits)
            && (x.client.phase.ClientEstablished? <==> fits)
            && (fits ==>
                  var a, b := c.scalar.value, d.scalar.value;
                  var dhs := p.Shared(a, b).value;
                  var transcript := EncodeClientInit(InitFor(p, c, a)) + EncodeServerInit(ReplyFor(p, d, b, c.cipher));
                  && x.client.keys.Some? && DerivedFrom(p, x.client.keys.value, dhs, transcript)
                  && x.server.keys.Some? && DerivedFrom(p, x.server.keys.value, dhs, transcript))
  {
    hide CheckClientInit, EncodeClientInit, FinishFor, EncodeServerInit, ReplyFor, DeriveKeys, InitFor,
         HandleServerInit, HandleClientFinish;
    ServerReadsInit(p, c, d);
    if c.cipher in d.supportedCiphers && c.nextProtocol in d.nextProtocols {
      HonestMessages(p, c, d);
    }
  }

  lemma InitIs(p: Primitives, c: ClientConfig)
    requires c.scalar.Some?
    ensures var init := InitFor(p, c, c.scalar.value);
            && |init.commitments| == 1 && init.commitments[0].cipher == c.cipher
            && init.commitments[0].hash == p.sha512(FinishFor(p, c.scalar.value))
            && init.random == c.random
  {
  }

  // ---------------------------------------------------------------- any network

  datatype Input = ToInit(frame: Bytes) | ToFinish(frame: Bytes)

  function ServerStep(p: Primitives, d: ServerConfig, s: ServerState, i: Input): ServerState {
    match i
    case ToInit(frame) => HandleClientInit(p, d, s, frame).0
    case ToFinish(frame) => HandleClientFinish(p, s, frame).0
  }

  function ServerRun(p: Primitives, d: ServerConfig, inputs: seq<Input>): ServerState {
    if inputs == [] then FRESH_SERVER
    else ServerStep(p, d, ServerRun(p, d, inputs[..|inputs| - 1]), inputs[|inputs| - 1])
  }

  /** Input `i` is a ClientInit the server accepted: well formed, version 1, and committing
      to `hash` under the first cipher, in the client's order, that the server supports. */
  ghost predicate AcceptedInit(d: ServerConfig, inputs: seq<Input>, i: nat, hash: Bytes) {
    && i < |inputs| && inputs[i].ToInit?
    && var r := CheckClientInit(d, [], inputs[i].frame);
       r.Done? && r.value.1.hash == hash
  }

  /** The random bytes of a ClientInit. */
  function RandomOf(frame: Bytes): Bytes {
    var m := DecodeMessage(frame);
    if m.Err? || DecodeClientInit(m.value.data).Err? then [] else DecodeClientInit(m.value.data).value.random
  }

  /** The server is where its inputs put it, and established only through a ClientFinish
      whose SHA-512 is the commitment of the ClientInit it accepted before; its keys then come
      from that ClientInit and the reply to it. It remembers the random bytes of that one. */
  ghost predicate Justified(p: Primitives, d: ServerConfig, inputs: seq<Input>, s: ServerState, i: nat, j: nat) {
    match s.phase
    case ServerStart => s == FRESH_SERVER
    case InitReceived(commitment, m1, m2, scalar) =>
      && AcceptedInit(d, inputs, i, commitment) && inputs[i].frame == m1 && s.keys.None?
      && HandleClientInit(p, d, FRESH_SERVER, m1).1 == Done(m2) && s.seenRandoms == [RandomOf(m1)]
    case ServerEstablished =>
      && i < j < |inputs| && inputs[j].ToFinish? && s.keys.Some?
      && AcceptedInit(d, inputs, i, p.sha512(inputs[j].frame)) && s.seenRandoms == [RandomOf(inputs[i].frame)]
      && var reply := HandleClientInit(p, d, FRESH_SERVER, inputs[i].frame).1;
         reply.Done? && DerivedFrom(p, s.keys.value, s.keys.value.dhs, inputs[i].frame + reply.value)
  }

  lemma {:induction false} ServerJustified(p: Primitives, d: ServerConfig, inputs: seq<Input>) returns (i: nat, j: nat)
    ensures Justified(p, d, inputs, ServerRun(p, d, inputs), i, j)
    decreases |inputs|
  {
    i, j := 0, 0;
    if inputs == [] {
    } else {
      hide Justified, ServerStep;
      var n := |inputs| - 1;
      i, j := ServerJustified(p, d, inputs[..n]);
      i, j := StepJustified(p, d, inputs[..n], inputs[n], ServerRun(p, d, inputs[..n]), i, j);
      LastAppended(inputs);
    }
  }

  lemma StepJustified(p: Primitives, d: ServerConfig, before: seq<Input>, input: Input, s: ServerState, i0: nat,
      j0: nat)
    returns (i: nat, j: nat)
    requires Justified(p, d, before, s, i0, j0)
    ensures Justified(p, d, before + [input], ServerStep(p, d, s, input), i, j)
  {
    i, j := i0, j0;
    match input
    case ToInit(frame) =>
      i, j := InitJustified(p, d, before, frame, s, i0, j0);
    case ToFinish(frame) =>
      i, j := FinishJustified(p, d, before, frame, s, i0, j0);
  }

  lemma InitJustified(p: Primitives, d: ServerConfig, before: seq<Input>, frame: Bytes, s: ServerState, i0: nat,
      j0: nat)
    returns (i: nat, j: nat)
    requires Justified(p, d, before, s, i0, j0)
    ensures Justified(p, d, before + [ToInit(frame)], HandleClientInit(p, d, s, frame).0, i, j)
  {
    hide CheckClientInit, EncodeServerInit, ReplyFor;
    i, j := if s.phase.ServerStart? then |before| else i0, j0;
    assert i0 < |before| ==> (before + [ToInit(frame)])[i0] == before[i0];
    assert j0 < |before| ==> (before + [ToInit(frame)])[j0] == before[j0];
  }

  lemma FinishJustified(p: Primitives, d: ServerConfig, before: seq<Input>, frame: Bytes, s: ServerState, i0: nat,
      j0: nat)
    returns (i: nat, j: nat)
    requires Justified(p, d, before, s, i0, j0)
    ensures Justified(p, d, before + [ToFinish(frame)], HandleClientFinish(p, s, frame).0, i, j)
  {
    hide CheckClientInit, DecodeMessage, DecodeClientFinished, DecodeKey, HandleClientInit, DeriveKeys;
    var moves := HandleClientFinish(p, s, frame).1.Done?;
    if moves {
      ServerKeys(p, s, frame);
    }
    i, j := i0, if moves then |before| else j0;
    assert i0 < |before| ==> (before + [ToFinish(frame)])[i0] == before[i0];
    assert j0 < |before| ==> (before + [ToFinish(frame)])[j0] == before[j0];
  }

  /** In every run, whatever arrives, an established server accepted a matching finish. */
  lemma EstablishedMeansCommitted(p: Primitives, d: ServerConfig, inputs: seq<Input>)
    requires ServerRun(p, d, inputs).phase.ServerEstablished?
    ensures exists i, j :: 0 <= i < j < |inputs| && inputs[j].ToFinish? &&
                           AcceptedInit(d, inputs, i, p.sha512(inputs[j].frame))
  {
    hide AcceptedInit, ServerRun;
    var i, j := ServerJustified(p, d, inputs);
  }

  /** A refused message never moves either machine. */
  lemma RefusalChangesNothing(p: Primitives, c: ClientConfig, d: ServerConfig, cs: ClientState, ss: ServerState,
      frame: Bytes)
    ensures HandleServerInit(p, c, cs, frame).1.Refused? ==> HandleServerInit(p, c, cs, frame).0 == cs
    ensures HandleClientInit(p, d, ss, frame).1.Refused? ==> HandleClientInit(p, d, ss, frame).0 == ss
    ensures HandleClientFinish(p, ss, frame).1.Refused? ==> HandleClientFinish(p, ss, frame).0 == ss
  {
    hide DecodeMessage, DecodeServerInit, DecodeKey, CheckClientInit, DecodeClientFinished, DeriveKeys;
  }

  /** These two messages are not a collision of the hash. */
  ghost predicate NoCollision(p: Primitives, a: Bytes, b: Bytes) {
    p.sha512(a) == p.sha512(b) ==> a == b
  }

  /** If the server accepted this client's ClientInit and then a finish, it holds the keys the
      client has once it accepts the server's reply. */
  lemma FinishBinds(p: Primitives, c: ClientConfig, d: ServerConfig, s1: ServerState, finish: Bytes)
    requires p.Sizes() && p.Commutes() && Equipped(p, c, d) && NoCollision(p, finish, FinishFor(p, c.scalar.value))
    requires var m1 := EncodeClientInit(InitFor(p, c, c.scalar.value));
             HandleClientInit(p, d, FRESH_SERVER, m1).1.Done? && s1 == HandleClientInit(p, d, FRESH_SERVER, m1).0
    requires HandleClientFinish(p, s1, finish).1.Done?
    ensures finish == FinishFor(p, c.scalar.value)
    ensures var c1 := Start(p, c, FRESH_CLIENT).0;
            HandleServerInit(p, c, c1, s1.phase.m2).0.keys == HandleClientFinish(p, s1, finish).0.keys
  {
    hide CheckClientInit, EncodeClientInit, FinishFor, EncodeServerInit, ReplyFor, DeriveKeys, InitFor,
         HandleServerInit, DecodeMessage, DecodeClientFinished, DecodeKey;
    ServerReadsInit(p, c, d);
    InitIs(p, c);
    var a, b := c.scalar.value, d.scalar.value;
    assert p.sha512(finish) == s1.phase.peerCommitment == p.sha512(FinishFor(p, a));
    ClientReadsReply(p, c, d, Start(p, c, FRESH_CLIENT).0, b);
    ServerReadsFinish(p, s1, a);
    assert p.Shared(a, b) == p.Shared(b, a);
  }

  /** Input `i` of a run is the ClientInit that moves the server. */
  ghost predicate FirstAccepted(p: Primitives, d: ServerConfig, inputs: seq<Input>, i: nat) {
    && i < |inputs| && inputs[i].ToInit? && HandleClientInit(p, d, FRESH_SERVER, inputs[i].frame).1.Done?
    && forall k :: 0 <= k < i && inputs[k].ToInit? ==> HandleClientInit(p, d, FRESH_SERVER, inputs[k].frame).1.Refused?
  }

  lemma NotStarted(p: Primitives, d: ServerConfig, input: Input)
    requires input.ToInit? ==> HandleClientInit(p, d, FRESH_SERVER, input.frame).1.Refused?
    ensures ServerStep(p, d, FRESH_SERVER, input) == FRESH_SERVER
  {
    hide CheckClientInit, DecodeMessage, DecodeClientFinished, DecodeKey;
  }

  lemma {:induction false} BeforeAccepted(p: Primitives, d: ServerConfig, inputs: seq<Input>)
    requires forall k :: 0 <= k < |inputs| && inputs[k].ToInit? ==>
               HandleClientInit(p, d, FRESH_SERVER, inputs[k].frame).1.Refused?
    ensures ServerRun(p, d, inputs) == FRESH_SERVER
    decreases |inputs|
  {
    hide HandleClientInit, ServerStep;
    if inputs == [] {
    } else {
      BeforeAccepted(p, d, inputs[..|inputs| - 1]);
      NotStarted(p, d, inputs[|inputs| - 1]);
    }
  }

  /** Where a server can be that waits for a finish, or has had one. */
  ghost predicate Waiting(p: Primitives, s1: ServerState, inputs: seq<Input>, s: ServerState) {
    || s == s1
    || exists j :: 0 <= j < |inputs| && inputs[j].ToFinish? && HandleClientFinish(p, s1, inputs[j].frame).1.Done? &&
                   s == HandleClientFinish(p, s1, inputs[j].frame).0
  }

  lemma WaitingStep(p: Primitives, d: ServerConfig, s1: ServerState, before: seq<Input>, input: Input, s: ServerState)
    requires s1.phase.InitReceived? && Waiting(p, s1, before, s)
    ensures Waiting(p, s1, before + [input], ServerStep(p, d, s, input))
  {
    var all := before + [input];
    assert all[|before|] == input;
    if s == s1 {
      StillWaiting(p, d, s, input);
    } else {
      var j :| 0 <= j < |before| && before[j].ToFinish? && HandleClientFinish(p, s1, before[j].frame).1.Done? &&
               s == HandleClientFinish(p, s1, before[j].frame).0;
      assert all[j] == before[j];
      DoneIsDone(p, d, s1, before[j].frame, input);
    }
  }

  lemma StillWaiting(p: Primitives, d: ServerConfig, s: ServerState, input: Input)
    requires s.phase.InitReceived?
    ensures ServerStep(p, d, s, input) == s
         || (input.ToFinish? && HandleClientFinish(p, s, input.frame).1.Done?
             && ServerStep(p, d, s, input) == HandleClientFinish(p, s, input.frame).0)
  {
    hide DecodeMessage, DecodeClientFinished, DecodeKey, DeriveKeys;
  }

  lemma DoneIsDone(p: Primitives, d: ServerConfig, s1: ServerState, finish: Bytes, input: Input)
    requires HandleClientFinish(p, s1, finish).1.Done?
    ensures var s := HandleClientFinish(p, s1, finish).0; s.phase.ServerEstablished? && ServerStep(p, d, s, input) == s
  {
    hide DecodeMessage, DecodeClientFinished, DecodeKey, DeriveKeys;
  }

  lemma {:induction false} RunAfterInit(p: Primitives, d: ServerConfig, inputs: seq<Input>, i: nat)
    requires FirstAccepted(p, d, inputs, i)
    ensures Waiting(p, HandleClientInit(p, d, FRESH_SERVER, inputs[i].frame).0, inputs, ServerRun(p, d, inputs))
    decreases |inputs|
  {
    hide Waiting, HandleClientInit, HandleClientFinish;
    var n := |inputs| - 1;
    var before, s1 := inputs[..n], HandleClientInit(p, d, FRESH_SERVER, inputs[i].frame).0;
    if i == n {
      BeforeAccepted(p, d, before);
      WaitsAtOnce(p, s1, inputs);
    } else {
      RunAfterInit(p, d, before, i);
      AcceptedWaits(p, d, inputs[i].frame);
      WaitingStep(p, d, s1, before, inputs[n], ServerRun(p, d, before));
      LastAppended(inputs);
    }
  }

  lemma WaitsAtOnce(p: Primitives, s1: ServerState, inputs: seq<Input>)
    ensures Waiting(p, s1, inputs, s1)
  {
  }

  lemma AcceptedWaits(p: Primitives, d: ServerConfig, frame: Bytes)
    requires HandleClientInit(p, d, FRESH_SERVER, frame).1.Done?
    ensures HandleClientInit(p, d, FRESH_SERVER, frame).0.phase.InitReceived?
  {
    hide CheckClientInit, EncodeServerInit, ReplyFor;
  }

  /** The commitment binds, over every run: if this client's ClientInit is the one the server
      accepted, and the client accepts the server's reply, then a server that is established -
      whatever else arrived, before, between and after - was sent the finish the client
      committed to and holds the client's keys, unless SHA-512 collides on that finish. */
  lemma CommitmentBinds(p: Primitives, c: ClientConfig, d: ServerConfig, inputs: seq<Input>, i: nat)
    requires p.Sizes() && p.Commutes() && Equipped(p, c, d) && FirstAccepted(p, d, inputs, i)
    requires inputs[i].frame == EncodeClientInit(InitFor(p, c, c.scalar.value))
    requires forall j :: 0 <= j < |inputs| && inputs[j].ToFinish? ==>
               NoCollision(p, inputs[j].frame, FinishFor(p, c.scalar.value))
    requires ServerRun(p, d, inputs).phase.ServerEstablished?
    ensures ToFinish(FinishFor(p, c.scalar.value)) in inputs
    ensures var c1 := Start(p, c, FRESH_CLIENT).0;
            var s1 := HandleClientInit(p, d, FRESH_SERVER, inputs[i].frame).0;
            s1.phase.InitReceived? && HandleServerInit(p, c, c1, s1.phase.m2).0.keys == ServerRun(p, d, inputs).keys
  {
    hide CheckClientInit, EncodeClientInit, FinishFor, HandleClientInit, HandleClientFinish, HandleServerInit,
         NoCollision, InitFor, Start;
    var s1 := HandleClientInit(p, d, FRESH_SERVER, inputs[i].frame).0;
    AcceptedWaits(p, d, inputs[i].frame);
    RunAfterInit(p, d, inputs, i);
    var j :| 0 <= j < |inputs| && inputs[j].ToFinish? && HandleClientFinish(p, s1, inputs[j].frame).1.Done? &&
             ServerRun(p, d, inputs) == HandleClientFinish(p, s1, inputs[j].frame).0;
    FinishBinds(p, c, d, s1, inputs[j].frame);
    assert inputs[j] == ToFinish(FinishFor(p, c.scalar.value));
  }
}
