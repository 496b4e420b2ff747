/** The session object of proto-quickshare/src/session.rs, changed in place and proved
    against the state functions of `Session`. */
module SessionObjects {
  import opened Prelude
  import opened Framing
  import opened Handshake
  import opened Ukey2Wire
  import opened Session

  datatype Role = ServerRole(serverConfig: ServerConfig) | ClientRole(clientConfig: ClientConfig)

  class QuickShareSession {
    const prim: Primitives
    const role: Role
    const decoder: FrameDecoder
    const server: Ukey2Server?
    const client: Ukey2Client?
    var discovery: Option<Provenance>
    var confirmed: bool
    var payloads: nat
    var payloadBytes: nat
    var outbound: seq<Bytes>
    var startedMs: Option<nat>
    var dead: bool

    ghost const Repr: set<object?>

    ghost predicate Valid() {
      && Repr == {this, decoder} + (if server == null then {} else {server}) + (if client == null then {} else {client})
      && decoder.maxFrameBytes == DEFAULT_MAX_FRAME_BYTES
      && (role.ServerRole? ==>
            client == null && (server != null ==> server.prim == prim && server.config == role.serverConfig))
      && (role.ClientRole? ==>
            server == null && (client != null ==> client.prim == prim && client.config == role.clientConfig))
    }

    ghost function PeerModel(): Peer
      reads server, client
    {
      match role
      case ServerRole(d) => ServerPeer(d, if server == null then None else Some(server.Model()))
      case ClientRole(c) => ClientPeer(c, if client == null then None else Some(client.Model()))
    }

    ghost function Model(): SessionState
      reads this, decoder, server, client
    {
      SessionState(decoder.buf, PeerModel(), discovery, confirmed, payloads, payloadBytes, outbound, startedMs, dead)
    }

    /** `entropy` is false when the system yields no random bytes: the handshake is then absent. */
    constructor (prim: Primitives, role: Role, entropy: bool)
      ensures Valid() && fresh(Repr) && Fresh(Model())
      ensures match role
              case ServerRole(d) => Model().peer == ServerPeer(d, if entropy then Some(FRESH_SERVER) else None)
              case ClientRole(c) => Model().peer == ClientPeer(c, if entropy then Some(FRESH_CLIENT) else None)
    {
      this.prim, this.role := prim, role;
      var d := new FrameDecoder(DEFAULT_MAX_FRAME_BYTES);
      decoder := d;
      var s: Ukey2Server? := null;
      var c: Ukey2Client? := null;
      if entropy {
        match role
        case ServerRole(config) => s := new Ukey2Server(prim, config);
        case ClientRole(config) => c := new Ukey2Client(prim, config);
      }
      server, client := s, c;
      discovery, confirmed, payloads, payloadBytes := None, false, 0, 0;
      outbound, startedMs, dead := [], None, false;
      Repr := {this, d} + (if s == null then {} else {s}) + (if c == null then {} else {c});
    }

    method NoteDiscoveryOf(provenance: Provenance)
      requires Valid()
      modifies `discovery
      ensures Model() == old(Model()).(discovery := Some(provenance))
    {
      discovery := Some(provenance);
    }

    method TakeOutboundMessages() returns (messages: seq<Bytes>)
      requires Valid()
      modifies `outbound
      ensures messages == old(outbound) && Model() == old(Model()).(outbound := [])
    {
      messages := outbound;
      outbound := [];
    }

    method BeginHandshake() returns (r: Result<Bytes>)
      requires Valid()
      modifies Repr
      ensures (Model(), r) == BeginClient(prim, old(Model()))
    {
      if client == null {
        return Err(UnsupportedRole);
      }
      r := client.Begin();
      if r.Ok? {
        outbound := outbound + [r.value];
        startedMs := Some(0);
      }
    }

    method ReactTo(t: MessageType, frame: Bytes) returns (r: Outcome<bool>)
      requires Valid()
      modifies Repr
      ensures var x := React(prim, old(PeerModel()), t, frame);
              && r == x.outcome
              && Model() == old(Model()).(peer := x.peer, outbound := old(outbound) + x.send)
    {
      AppendNothing(outbound);
      match role
      case ServerRole(_) =>
        if server == null {
          return Refused(InternalError);
        }
        if t.ClientInitType? {
          var reply := server.OnClientInit(frame);
          if reply.Refused? {
            return Refused(reply.alert);
          }
          outbound := outbound + [reply.value];
          return Done(false);
        }
        if t.ClientFinishType? {
          var done := server.OnClientFinish(frame);
          return if done.Done? then Done(true) else Refused(done.alert);
        }
        return Refused(IncorrectMessage);
      case ClientRole(_) =>
        if client == null {
          return Refused(InternalError);
        }
        if t.ServerInitType? {
          var finish := client.OnServerInit(frame);
          if finish.Refused? {
            return Refused(finish.alert);
          }
          outbound := outbound + [finish.value.0];
          return Done(false);
        }
        return Refused(BadMessageType);
    }

    method ProcessFrame(frame: Bytes) returns (events: seq<Event>)
      requires Valid()
      modifies Repr
      ensures (Model(), events) == FeedFrame(prim, old(Model()), frame)
    {
      hide React;
      var m := DecodeMessage(frame);
      if m.Err? {
        dead := true;
        return [AlertEvent(BadMessage)];
      }
      var t := m.value.messageType;
      var r := ReactTo(t, frame);
      match r
      case Done(established) =>
        return [FrameEvent(t)] + if established then [Established] else [];
      case Refused(a) =>
        dead := true;
        return [FrameEvent(t), AlertEvent(a)];
    }

    method EstablishedNow() returns (b: bool)
      requires Valid()
      ensures b == IsEstablished(PeerModel())
    {
      match role
      case ServerRole(_) => b := server != null && server.phase.ServerEstablished?;
      case ClientRole(_) => b := client != null && client.phase.ClientEstablished?;
    }

    /** Decodes frames and drives the handshake; once dead, only refuses. */
    method FeedBytes(now: nat, chunk: Bytes) returns (r: Result<seq<Event>>)
      requires Valid()
      modifies Repr
      ensures (Model(), r) == Feed(prim, old(Model()), now, chunk)
    {
      hide FeedFrame, Drain;
      if dead {
        return Err(AuthDenied);
      }
      if startedMs.None? {
        startedMs := Some(now);
      }
      var established := EstablishedNow();
      if !established && SatSub(now, startedMs.value) > HANDSHAKE_TIMEOUT_MS {
        dead := true;
        return Ok([AlertEvent(InternalError)]);
      }
      var frames := decoder.Push(chunk);
      if frames.Err? {
        return Err(frames.code);
      }
      var events := ProcessFrames(frames.value);
      return Ok(events);
    }

    method ProcessFrames(frames: seq<Bytes>) returns (events: seq<Event>)
      requires Valid()
      modifies Repr
      ensures (Model(), events) == FeedFrames(prim, old(Model()), frames)
    {
      hide FeedFrame;
      events := [];
      var i := 0;
      assert frames[..0] == [];
      while i < |frames|
        invariant i <= |frames|
        invariant (Model(), events) == FeedFrames(prim, old(Model()), frames[..i])
      {
        var more := ProcessFrame(frames[i]);
        events := events + more;
        assert frames[..i + 1][..i] == frames[..i];
        i := i + 1;
      }
      assert frames[..i] == frames;
    }

    method ConfirmCode(code: string) returns (r: Result<()>)
      requires Valid()
      modifies `confirmed
      ensures (Model(), r) == Confirm(old(Model()), code)
    {
      var keys: Option<SessionKeys> := None;
      match role {
        case ServerRole(_) => if server != null { keys := server.keys; }
        case ClientRole(_) => if client != null { keys := client.keys; }
      }
      if keys.None? {
        return Err(PairingFailed);
      }
      confirmed := keys.value.pin == code;
      return if confirmed then Ok(()) else Err(PairingFailed);
    }

    method DeliverPayload(n: nat) returns (r: Delivery)
      requires Valid()
      modifies `payloads, `payloadBytes
      ensures (Model(), r) == Deliver(old(Model()), n)
    {
      var established := EstablishedNow();
      if !established || dead {
        return Withheld(NotEstablished);
      }
      if !confirmed {
        return Withheld(ConfirmationRequired);
      }
      payloads := payloads + 1;
      payloadBytes := payloadBytes + n;
      return Delivered;
    }
  }
}
