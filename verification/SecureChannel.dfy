/** The encrypted channel of proto-quickshare/src/secure_message.rs: key schedule, sealing
    and opening with strictly consecutive sequence numbers, and what that guarantees over
    every run against a network that drops, repeats, reorders and invents frames. */
module SecureChannel {
  import opened Prelude
  import opened Wire
  import opened Messages

  const IV_BYTES: nat := 16
  const GCM_TYPE_DEVICE_TO_DEVICE_MESSAGE: i64 := 13
  const GCM_METADATA_VERSION: i64 := 1
  const SIG_SCHEME_HMAC_SHA256: i64 := 1
  const ENC_SCHEME_AES_256_CBC: i64 := 2

  /** The primitives are parameters: HMAC-SHA256, AES-256-CBC with PKCS7, HKDF-SHA256. */
  datatype Suite = Suite(
    mac: (Bytes, Bytes) -> Bytes,
    encrypt: (Bytes, Bytes, Bytes) -> Bytes,
    decrypt: (Bytes, Bytes, Bytes) -> Option<Bytes>,
    hkdf: (Bytes, Bytes, Bytes) -> Bytes,
    sha256: Bytes -> Bytes)
  {
    /** Decryption inverts encryption under the same key and vector. */
    ghost predicate DecryptInverts() {
      forall k: Bytes, iv: Bytes, m: Bytes :: decrypt(k, iv, encrypt(k, iv, m)) == Some(m)
    }

    /** PKCS7 padding to whole blocks and a 32-byte tag. */
    ghost predicate BlockLengths() {
      && (forall k: Bytes, iv: Bytes, m: Bytes :: |encrypt(k, iv, m)| <= |m| + 16)
      && (forall k: Bytes, m: Bytes :: |mac(k, m)| == 32)
    }
  }

  // ---------------------------------------------------------------- key schedule

  datatype DirectionKeys = DirectionKeys(encKey: Bytes, sigKey: Bytes)
  datatype KeySchedule = KeySchedule(client: DirectionKeys, server: DirectionKeys)
  datatype ChannelRole = Client | Server

  const D2D: Bytes := [0x44, 0x32, 0x44]
  const SECURE_MESSAGE: Bytes := [0x53, 0x65, 0x63, 0x75, 0x72, 0x65, 0x4D, 0x65, 0x73, 0x73, 0x61, 0x67, 0x65]
  const CLIENT: Bytes := [0x63, 0x6C, 0x69, 0x65, 0x6E, 0x74]
  const SERVER: Bytes := [0x73, 0x65, 0x72, 0x76, 0x65, 0x72]
  const ENC_2: Bytes := [0x45, 0x4E, 0x43, 0x3A, 0x32]
  const SIG_1: Bytes := [0x53, 0x49, 0x47, 0x3A, 0x31]

  function DeriveDirection(c: Suite, nextSecret: Bytes, info: Bytes): DirectionKeys {
    var ikm := c.hkdf(nextSecret, c.sha256(D2D), info);
    var salt := c.sha256(SECURE_MESSAGE);
    DirectionKeys(c.hkdf(ikm, salt, ENC_2), c.hkdf(ikm, salt, SIG_1))
  }

  function Derive(c: Suite, nextSecret: Bytes): (r: Result<KeySchedule>)
    ensures r.Err? <==> nextSecret == []
  {
    if nextSecret == [] then Err(InvalidFrame)
    else Ok(KeySchedule(DeriveDirection(c, nextSecret, CLIENT), DeriveDirection(c, nextSecret, SERVER)))
  }

  function SendKeys(s: KeySchedule, role: ChannelRole): DirectionKeys {
    if role.Client? then s.client else s.server
  }

  function RecvKeys(s: KeySchedule, role: ChannelRole): DirectionKeys {
    if role.Client? then s.server else s.client
  }

  // ---------------------------------------------------------------- messages

  datatype SecureMessage = SecureMessage(headerAndBody: Bytes, signature: Bytes)
  datatype Header = Header(signatureScheme: i64, encryptionScheme: i64, iv: Option<Bytes>,
      publicMetadata: Option<Bytes>)
  datatype DeviceMessage = DeviceMessage(message: Bytes, sequenceNumber: i32)

  function PairFields(first: Bytes, second: Bytes): seq<Field> {
    [Blob(1, first), Blob(2, second)]
  }

  /** Two required byte fields: SecureMessage, HeaderAndBody and EcP256PublicKey. */
  function EncodePair(first: Bytes, second: Bytes): (b: Bytes) {
    EncodeFields(PairFields(first, second))
  }

  function DecodePair(buf: Bytes): (r: Result<(Bytes, Bytes)>) {
    var s :- Gather(Wants({}, {1, 2}), buf);
    if 1 !in s.blobs || 2 !in s.blobs then Err(InvalidFrame)
    else Ok((s.blobs[1], s.blobs[2]))
  }

  /** Exactly the pairs the reader's field limit allows come back; the rest are refused. */
  lemma PairRoundTrip(first: Bytes, second: Bytes)
    ensures if |first| <= MAX_FIELD_BYTES && |second| <= MAX_FIELD_BYTES
            then DecodePair(EncodePair(first, second)) == Ok((first, second))
            else DecodePair(EncodePair(first, second)).Err?
  {
    var w, fields := Wants({}, {1, 2}), PairFields(first, second);
    if |first| > MAX_FIELD_BYTES {
      OversizeNeverDecodes(w, fields, 0);
    } else if |second| > MAX_FIELD_BYTES {
      OversizeNeverDecodes(w, fields, 1);
    } else {
      GatherEncoded(w, fields);
      LastBlobAt(fields, 0);
      LastBlobAt(fields, 1);
    }
  }

  function HeaderFields(signatureScheme: i64, encryptionScheme: i64, iv: Bytes, metadata: Bytes): seq<Field> {
    [Scalar(1, AsU64(signatureScheme)), Scalar(2, AsU64(encryptionScheme)), Blob(5, iv), Blob(6, metadata)]
  }

  function DecodeHeader(buf: Bytes): (r: Result<Header>) {
    var s :- Gather(Wants({1, 2}, {3, 4, 5, 6}), buf);
    Ok(Header(
      if 1 in s.scalars then AsI64(s.scalars[1]) else 0,
      if 2 in s.scalars then AsI64(s.scalars[2]) else 0,
      Lookup(s.blobs, 5), Lookup(s.blobs, 6)))
  }

  lemma HeaderRoundTrip(sig: i64, enc: i64, iv: Bytes, metadata: Bytes)
    requires |iv| <= MAX_FIELD_BYTES && |metadata| <= MAX_FIELD_BYTES
    ensures DecodeHeader(EncodeFields(HeaderFields(sig, enc, iv, metadata))) ==
            Ok(Header(sig, enc, Some(iv), Some(metadata)))
  {
    hide Run, EncodeFields, Absorb;
    var w, fields := Wants({1, 2}, {3, 4, 5, 6}), HeaderFields(sig, enc, iv, metadata);
    GatherEncoded(w, fields);
    assert LastScalar(fields, 1) == Some(AsU64(sig)) by { LastScalarAt(fields, 0); }
    assert LastScalar(fields, 2) == Some(AsU64(enc)) by { LastScalarAt(fields, 1); }
    assert LastBlob(fields, 5) == Some(iv) by { LastBlobAt(fields, 2); }
    assert LastBlob(fields, 6) == Some(metadata) by { LastBlobAt(fields, 3); }
    hide LastScalar, LastBlob;
  }

  function DeviceFields(sequenceNumber: i32, message: Bytes): seq<Field> {
    [Blob(1, message), Scalar(2, AsU64(sequenceNumber))]
  }

  function DecodeDevice(buf: Bytes): (r: Result<DeviceMessage>) {
    var s :- Gather(Wants({2}, {1}), buf);
    if 2 !in s.scalars then Err(InvalidFrame)
    else Ok(DeviceMessage(if 1 in s.blobs then s.blobs[1] else [], AsI32(s.scalars[2])))
  }

  lemma DeviceRoundTrip(sequenceNumber: i32, message: Bytes)
    ensures if |message| <= MAX_FIELD_BYTES
            then DecodeDevice(EncodeFields(DeviceFields(sequenceNumber, message))) ==
                 Ok(DeviceMessage(message, sequenceNumber))
            else DecodeDevice(EncodeFields(DeviceFields(sequenceNumber, message))).Err?
  {
    var w, fields := Wants({2}, {1}), DeviceFields(sequenceNumber, message);
    if |message| > MAX_FIELD_BYTES {
      OversizeNeverDecodes(w, fields, 0);
    } else {
      GatherEncoded(w, fields);
      LastBlobAt(fields, 0);
      LastScalarAt(fields, 1);
      AsI32OfSigned(sequenceNumber);
    }
  }

  // ---------------------------------------------------------------- one frame

  const METADATA: Bytes :=
    EncodeFields([Scalar(1, AsU64(GCM_TYPE_DEVICE_TO_DEVICE_MESSAGE)), Scalar(2, AsU64(GCM_METADATA_VERSION))])

  function HeaderBytes(iv: Bytes): Bytes {
    EncodeFields(HeaderFields(SIG_SCHEME_HMAC_SHA256, ENC_SCHEME_AES_256_CBC, iv, METADATA))
  }

  /** What one sealed frame authenticates: header and ciphertext. */
  function Envelope(c: Suite, k: DirectionKeys, sequence: i32, plaintext: Bytes, iv: Bytes): Bytes {
    EncodePair(HeaderBytes(iv), c.encrypt(k.encKey, iv, EncodeFields(DeviceFields(sequence, plaintext))))
  }

  function SealedFrame(c: Suite, k: DirectionKeys, sequence: i32, plaintext: Bytes, iv: Bytes): Bytes {
    var e := Envelope(c, k, sequence, plaintext, iv);
    EncodePair(e, c.mac(k.sigKey, e))
  }

  /** The checks of `open` in their order: envelope, schemes, tag, vector, padding, sequence. */
  function OpenFrame(c: Suite, k: DirectionKeys, expected: i32, frame: Bytes): (r: Result<Bytes>) {
    var (headerAndBody, signature) :- DecodePair(frame);
    OpenEnvelope(c, k, expected, headerAndBody, signature)
  }

  function OpenEnvelope(c: Suite, k: DirectionKeys, expected: i32, headerAndBody: Bytes,
      signature: Bytes): (r: Result<Bytes>)
  {
    var (header, body) :- DecodePair(headerAndBody);
    var h :- DecodeHeader(header);
    if h.signatureScheme != SIG_SCHEME_HMAC_SHA256 then Err(InvalidFrame)
    else if h.encryptionScheme != ENC_SCHEME_AES_256_CBC then Err(InvalidFrame)
    else if c.mac(k.sigKey, headerAndBody) != signature then Err(IntegrityFailed)
    else if h.iv.None? || |h.iv.value| != IV_BYTES then Err(InvalidFrame)
    else
      var plain := c.decrypt(k.encKey, h.iv.value, body);
      if plain.None? then Err(IntegrityFailed)
      else
        var d2d :- DecodeDevice(plain.value);
        if d2d.sequenceNumber != expected then Err(IntegrityFailed)
        else Ok(d2d.message)
  }

  /** The lengths at which a frame survives the reader's field limit. */
  ghost predicate Fits(c: Suite, k: DirectionKeys, sequence: i32, plaintext: Bytes, iv: Bytes) {
    var ct := c.encrypt(k.encKey, iv, EncodeFields(DeviceFields(sequence, plaintext)));
    var e := Envelope(c, k, sequence, plaintext, iv);
    && |plaintext| <= MAX_FIELD_BYTES && |ct| <= MAX_FIELD_BYTES
    && |e| <= MAX_FIELD_BYTES && |c.mac(k.sigKey, e)| <= MAX_FIELD_BYTES
  }

  lemma HeaderLength(iv: Bytes)
    requires |iv| == IV_BYTES
    ensures |METADATA| <= 40 && |HeaderBytes(iv)| <= 136
  {
    var a, b := Scalar(1, AsU64(SIG_SCHEME_HMAC_SHA256)), Scalar(2, AsU64(ENC_SCHEME_AES_256_CBC));
    var m1, m2 := Scalar(1, AsU64(GCM_TYPE_DEVICE_TO_DEVICE_MESSAGE)), Scalar(2, AsU64(GCM_METADATA_VERSION));
    ScalarFieldLength(1, m1.v); ScalarFieldLength(2, m2.v); TwoFieldsLength(m1, m2);
    ScalarFieldLength(1, a.v); ScalarFieldLength(2, b.v); TwoFieldsLength(a, b);
    BlobFieldLength(5, iv); BlobFieldLength(6, METADATA); TwoFieldsLength(Blob(5, iv), Blob(6, METADATA));
    EncodeFieldsAppend([a, b], [Blob(5, iv), Blob(6, METADATA)]);
    assert HeaderFields(SIG_SCHEME_HMAC_SHA256, ENC_SCHEME_AES_256_CBC, iv, METADATA)
        == [a, b] + [Blob(5, iv), Blob(6, METADATA)];
  }

  /** Every plaintext up to 256 bytes below the field limit fits. */
  lemma PlaintextFits(c: Suite, k: DirectionKeys, sequence: i32, plaintext: Bytes, iv: Bytes)
    requires c.BlockLengths() && |iv| == IV_BYTES && |plaintext| <= MAX_FIELD_BYTES - 256
    ensures Fits(c, k, sequence, plaintext, iv)
  {
    var d := DeviceFields(sequence, plaintext);
    BlobFieldLength(1, plaintext); ScalarFieldLength(2, AsU64(sequence)); TwoFieldsLength(d[0], d[1]);
    var ct := c.encrypt(k.encKey, iv, EncodeFields(d));
    assert |ct| <= |plaintext| + 56;
    HeaderLength(iv);
    BlobFieldLength(1, HeaderBytes(iv)); BlobFieldLength(2, ct);
    TwoFieldsLength(Blob(1, HeaderBytes(iv)), Blob(2, ct));
  }

  /** An envelope the peer authenticated yields nothing but its own plaintext, and only
      when its sequence number is the expected one; when it fits it always does. */
  lemma OpenGenuine(c: Suite, k: DirectionKeys, sequence: i32, plaintext: Bytes, iv: Bytes, expected: i32,
      signature: Bytes)
    requires c.DecryptInverts() && |iv| == IV_BYTES
    ensures var e := Envelope(c, k, sequence, plaintext, iv);
            var r := OpenEnvelope(c, k, expected, e, signature);
            && (r.Ok? ==> r == Ok(plaintext) && sequence == expected && signature == c.mac(k.sigKey, e))
            && (Fits(c, k, sequence, plaintext, iv) && signature == c.mac(k.sigKey, e) ==>
                  r == if sequence == expected then Ok(plaintext) else Err(IntegrityFailed))
  {
    var d2d := EncodeFields(DeviceFields(sequence, plaintext));
    var ct := c.encrypt(k.encKey, iv, d2d);
    HeaderLength(iv);
    PairRoundTrip(HeaderBytes(iv), ct);
    HeaderRoundTrip(SIG_SCHEME_HMAC_SHA256, ENC_SCHEME_AES_256_CBC, iv, METADATA);
    assert c.decrypt(k.encKey, iv, ct) == Some(d2d);
    DeviceRoundTrip(sequence, plaintext);
  }

  lemma OpenSealed(c: Suite, k: DirectionKeys, sequence: i32, plaintext: Bytes, iv: Bytes, expected: i32)
    requires c.DecryptInverts() && |iv| == IV_BYTES && Fits(c, k, sequence, plaintext, iv)
    ensures OpenFrame(c, k, expected, SealedFrame(c, k, sequence, plaintext, iv)) ==
            if sequence == expected then Ok(plaintext) else Err(IntegrityFailed)
  {
    var e := Envelope(c, k, sequence, plaintext, iv);
    PairRoundTrip(e, c.mac(k.sigKey, e));
    OpenGenuine(c, k, sequence, plaintext, iv, expected, c.mac(k.sigKey, e));
  }

  // ---------------------------------------------------------------- the channel object

  class SecureMessageChannel {
    const crypto: Suite
    const send: DirectionKeys
    const recv: DirectionKeys
    var sendSequence: i32
    var expectedSequence: i32

    constructor (crypto: Suite, schedule: KeySchedule, role: ChannelRole)
      ensures this.crypto == crypto && send == SendKeys(schedule, role) && recv == RecvKeys(schedule, role)
      ensures sendSequence == 1 && expectedSequence == 1
    {
      this.crypto := crypto;
      send, recv := SendKeys(schedule, role), RecvKeys(schedule, role);
      sendSequence, expectedSequence := 1, 1;
    }

    /** `entropy` is the fresh vector, absent when the system has none to give. */
    method Seal(plaintext: Bytes, entropy: Option<Bytes>) returns (r: Result<Bytes>)
      requires entropy.Some? ==> |entropy.value| == IV_BYTES
      modifies `sendSequence
      ensures entropy.None? ==> r == Err(InvalidFrame) && sendSequence == old(sendSequence)
      ensures entropy.Some? ==>
                && r == Ok(SealedFrame(crypto, send, old(sendSequence), plaintext, entropy.value))
                && sendSequence == WrapI32(old(sendSequence) + 1)
    {
      if entropy.None? {
        return Err(InvalidFrame);
      }
      var iv := entropy.value;
      var d2d := WriteBytesField([], 1, plaintext);
      d2d := WriteScalarField(d2d, 2, AsU64(sendSequence));
      TwoWrites(DeviceFields(sendSequence, plaintext));
      var ct := crypto.encrypt(send.encKey, iv, d2d);
      var headerAndBody := WriteBytesField([], 1, HeaderBytes(iv));
      headerAndBody := WriteBytesField(headerAndBody, 2, ct);
      TwoWrites(PairFields(HeaderBytes(iv), ct));
      var signature := crypto.mac(send.sigKey, headerAndBody);
      sendSequence := WrapI32(sendSequence + 1);
      var frame := WriteBytesField([], 1, headerAndBody);
      frame := WriteBytesField(frame, 2, signature);
      TwoWrites(PairFields(headerAndBody, signature));
      return Ok(frame);
    }

    /** A refused frame leaves the expected number where it was. */
    method Open(frame: Bytes) returns (r: Result<Bytes>)
      modifies `expectedSequence
      ensures r == OpenFrame(crypto, recv, old(expectedSequence), frame)
      ensures expectedSequence == if r.Ok? then WrapI32(old(expectedSequence) + 1) else old(expectedSequence)
    {
      var msg := ParsePair(frame);
      if msg.Err? {
        return Err(msg.code);
      }
      var (headerAndBody, signature) := msg.value;
      var hb := ParsePair(headerAndBody);
      if hb.Err? {
        return Err(hb.code);
      }
      var (header, body) := hb.value;
      var h := DecodeHeader(header);
      if h.Err? {
        return Err(h.code);
      }
      if h.value.signatureScheme != SIG_SCHEME_HMAC_SHA256 {
        return Err(InvalidFrame);
      }
      if h.value.encryptionScheme != ENC_SCHEME_AES_256_CBC {
        return Err(InvalidFrame);
      }
      if crypto.mac(recv.sigKey, headerAndBody) != signature {
        return Err(IntegrityFailed);
      }
      if h.value.iv.None? || |h.value.iv.value| != IV_BYTES {
        return Err(InvalidFrame);
      }
      var plain := crypto.decrypt(recv.encKey, h.value.iv.value, body);
      if plain.None? {
        return Err(IntegrityFailed);
      }
      var d2d := DecodeDevice(plain.value);
      if d2d.Err? {
        return Err(d2d.code);
      }
      if d2d.value.sequenceNumber != expectedSequence {
        return Err(IntegrityFailed);
      }
      expectedSequence := WrapI32(expectedSequence + 1);
      return Ok(d2d.value.message);
    }
  }

  lemma TwoWrites(fields: seq<Field>)
    requires |fields| == 2
    ensures EncodeFields(fields) == [] + EncodeField(fields[0]) + EncodeField(fields[1])
  {
    hide EncodeField;
    assert fields[1..][1..] == [];
    assert EncodeFields(fields[1..]) == EncodeField(fields[1]) + [];
  }

  method ParsePair(buf: Bytes) returns (r: Result<(Bytes, Bytes)>)
    ensures r == DecodePair(buf)
  {
    var s := Decode(GatherStep, Wants({}, {1, 2}), buf);
    if s.Err? {
      return Err(s.code);
    }
    if 1 !in s.value.blobs || 2 !in s.value.blobs {
      return Err(InvalidFrame);
    }
    return Ok((s.value.blobs[1], s.value.blobs[2]));
  }

  // ---------------------------------------------------------------- the keys of the two ends

  function Other(role: ChannelRole): ChannelRole {
    if role.Client? then Server else Client
  }

  /** The label under which an end derives what it sends with. */
  function OwnLabel(role: ChannelRole): Bytes {
    match role
    case Client => CLIENT
    case Server => SERVER
  }

  /** The secret of one direction. */
  function DirectionSecret(c: Suite, nextSecret: Bytes, role: ChannelRole): Bytes {
    c.hkdf(nextSecret, c.sha256(D2D), OwnLabel(role))
  }

  /** The two keys of the frames `role` sends: both expanded from the secret of its direction. */
  ghost predicate KeysOf(c: Suite, nextSecret: Bytes, role: ChannelRole, k: DirectionKeys) {
    && k.encKey == c.hkdf(DirectionSecret(c, nextSecret, role), c.sha256(SECURE_MESSAGE), ENC_2)
    && k.sigKey == c.hkdf(DirectionSecret(c, nextSecret, role), c.sha256(SECURE_MESSAGE), SIG_1)
  }

  /** Both ends of one secret use matching keys in both directions, and each end sends under the
      keys of its own label. */
  lemma EndsMatch(c: Suite, nextSecret: Bytes)
    requires nextSecret != []
    ensures var s := Derive(c, nextSecret).value;
            && SendKeys(s, Client) == RecvKeys(s, Server) && SendKeys(s, Server) == RecvKeys(s, Client)
            && KeysOf(c, nextSecret, Client, SendKeys(s, Client)) && KeysOf(c, nextSecret, Server, SendKeys(s, Server))
  {
  }

  /** The derivation does not collide on these two inputs. */
  ghost predicate NoKeyCollision(c: Suite, ikm1: Bytes, info1: Bytes, ikm2: Bytes, info2: Bytes, salt: Bytes) {
    c.hkdf(ikm1, salt, info1) == c.hkdf(ikm2, salt, info2) ==> ikm1 == ikm2 && info1 == info2
  }

  /** Nor on any two of the inputs that the schedule of this secret uses. */
  ghost predicate NoScheduleCollision(c: Suite, nextSecret: Bytes) {
    var a, b := DirectionSecret(c, nextSecret, Client), DirectionSecret(c, nextSecret, Server);
    && NoKeyCollision(c, nextSecret, CLIENT, nextSecret, SERVER, c.sha256(D2D))
    && forall i1, l1, i2, l2 :: i1 in {a, b} && i2 in {a, b} && l1 in {ENC_2, SIG_1} && l2 in {ENC_2, SIG_1} ==>
         NoKeyCollision(c, i1, l1, i2, l2, c.sha256(SECURE_MESSAGE))
  }

  lemma LabelsDiffer()
    ensures CLIENT != SERVER && ENC_2 != SIG_1
  {
    assert CLIENT[0] != SERVER[0] && ENC_2[0] != SIG_1[0];
  }

  /** The four keys of a connection are four different keys. */
  lemma KeysSeparate(c: Suite, nextSecret: Bytes)
    requires nextSecret != [] && NoScheduleCollision(c, nextSecret)
    ensures var s := Derive(c, nextSecret).value;
            && s.client.encKey != s.server.encKey && s.client.sigKey != s.server.sigKey
            && s.client.encKey != s.client.sigKey && s.server.encKey != s.server.sigKey
            && s.client.encKey != s.server.sigKey && s.client.sigKey != s.server.encKey
  {
    LabelsDiffer();
    var a, b := DirectionSecret(c, nextSecret, Client), DirectionSecret(c, nextSecret, Server);
    var salt := c.sha256(SECURE_MESSAGE);
    assert a != b;
    assert NoKeyCollision(c, a, ENC_2, b, ENC_2, salt) && NoKeyCollision(c, a, SIG_1, b, SIG_1, salt);
    assert NoKeyCollision(c, a, ENC_2, a, SIG_1, salt) && NoKeyCollision(c, b, ENC_2, b, SIG_1, salt);
    assert NoKeyCollision(c, a, ENC_2, b, SIG_1, salt) && NoKeyCollision(c, a, SIG_1, b, ENC_2, salt);
  }

  // ---------------------------------------------------------------- runs

  /** One direction of a connection: the peer seals, the network delivers any bytes it likes. */
  datatype Event = Sealed(plaintext: Bytes, iv: Bytes) | Delivered(frame: Bytes)

  datatype Link = Link(sent: seq<(Bytes, Bytes)>, expected: i32, received: seq<Bytes>)

  /** Number carried by the frame sealed after `n` others; wraps like the counter it is. */
  function SequenceNumber(n: nat): i32 {
    WrapI32(n + 1)
  }

  function LinkStep(c: Suite, k: DirectionKeys, l: Link, e: Event): Link {
    match e
    case Sealed(plaintext, iv) => l.(sent := l.sent + [(plaintext, iv)])
    case Delivered(frame) =>
      var r := OpenFrame(c, k, l.expected, frame);
      if r.Ok? then l.(expected := WrapI32(l.expected + 1), received := l.received + [r.value]) else l
  }

  function RunLink(c: Suite, k: DirectionKeys, events: seq<Event>): Link {
    if events == [] then Link([], 1, [])
    else LinkStep(c, k, RunLink(c, k, events[..|events| - 1]), events[|events| - 1])
  }

  function Plaintexts(sent: seq<(Bytes, Bytes)>): (p: seq<Bytes>)
    ensures |p| == |sent| && forall i :: 0 <= i < |sent| ==> p[i] == sent[i].0
  {
    seq(|sent|, i requires 0 <= i < |sent| => sent[i].0)
  }

  function EnvelopeOf(c: Suite, k: DirectionKeys, sent: seq<(Bytes, Bytes)>, i: nat): Bytes
    requires i < |sent|
  {
    Envelope(c, k, SequenceNumber(i), sent[i].0, sent[i].1)
  }

  /** The ideal tag: whatever verifies was sealed by the key holder before. */
  ghost predicate Unforged(c: Suite, k: DirectionKeys, l: Link, frame: Bytes) {
    var m := DecodePair(frame);
    m.Ok? && c.mac(k.sigKey, m.value.0) == m.value.1 ==>
      exists i :: 0 <= i < |l.sent| && EnvelopeOf(c, k, l.sent, i) == m.value.0
  }

  ghost predicate IdealEvent(c: Suite, k: DirectionKeys, l: Link, e: Event) {
    match e
    case Sealed(_, iv) => |iv| == IV_BYTES
    case Delivered(frame) => Unforged(c, k, l, frame)
  }

  ghost predicate IdealRun(c: Suite, k: DirectionKeys, events: seq<Event>) {
    forall n :: 0 <= n < |events| ==> IdealEvent(c, k, RunLink(c, k, events[..n]), events[n])
  }

  lemma IdealPrefix(c: Suite, k: DirectionKeys, events: seq<Event>)
    requires events != [] && IdealRun(c, k, events)
    ensures var before := events[..|events| - 1];
            IdealRun(c, k, before) && IdealEvent(c, k, RunLink(c, k, before), events[|events| - 1])
  {
    hide Unforged, RunLink;
    var before := events[..|events| - 1];
    assert forall m :: 0 <= m < |before| ==> before[m] == events[m] && before[..m] == events[..m];
  }

  lemma SequenceNumbersDistinct(m: nat, n: nat)
    ensures SequenceNumber(m) == SequenceNumber(n) <==> (m - n) % TWO_32 == 0
  {
  }

  lemma AcceptedWasSealed(c: Suite, k: DirectionKeys, l: Link, frame: Bytes) returns (i: nat)
    requires c.DecryptInverts() && Unforged(c, k, l, frame)
    requires forall i :: 0 <= i < |l.sent| ==> |l.sent[i].1| == IV_BYTES
    requires OpenFrame(c, k, l.expected, frame).Ok?
    ensures i < |l.sent| && SequenceNumber(i) == l.expected
    ensures OpenFrame(c, k, l.expected, frame) == Ok(l.sent[i].0)
  {
    hide Envelope, SequenceNumber, DecodePair, DecodeHeader, DecodeDevice;
    var (e, signature) := DecodePair(frame).value;
    assert c.mac(k.sigKey, e) == signature;
    i :| i < |l.sent| && EnvelopeOf(c, k, l.sent, i) == e;
    OpenGenuine(c, k, SequenceNumber(i), l.sent[i].0, l.sent[i].1, l.expected, signature);
  }

  lemma DeliverKeepsPrefix(c: Suite, k: DirectionKeys, l: Link, frame: Bytes)
    requires c.DecryptInverts() && Unforged(c, k, l, frame)
    requires forall i :: 0 <= i < |l.sent| ==> |l.sent[i].1| == IV_BYTES
    requires |l.sent| < TWO_32
    requires l.received <= Plaintexts(l.sent) && l.expected == SequenceNumber(|l.received|)
    ensures var l' := LinkStep(c, k, l, Delivered(frame));
            l'.received <= Plaintexts(l'.sent) && l'.expected == SequenceNumber(|l'.received|)
  {
    hide OpenFrame, Unforged;
    if OpenFrame(c, k, l.expected, frame).Ok? {
      var i := AcceptedWasSealed(c, k, l, frame);
      SequenceNumbersDistinct(i, |l.received|);
      assert i == |l.received|;
    }
  }

  /** Whatever the network does, what `open` returned is always a prefix of what the peer
      sealed: nothing invented, repeated, reordered or skipped. */
  lemma {:induction false} OpenedIsPrefixOfSealed(c: Suite, k: DirectionKeys, events: seq<Event>)
    requires c.DecryptInverts() && IdealRun(c, k, events)
    requires |RunLink(c, k, events).sent| < TWO_32
    ensures var l := RunLink(c, k, events);
            && l.received <= Plaintexts(l.sent)
            && l.expected == SequenceNumber(|l.received|)
            && forall i :: 0 <= i < |l.sent| ==> |l.sent[i].1| == IV_BYTES
    decreases |events|
  {
    if events == [] {
    } else {
      var n := |events| - 1;
      var before, l := events[..n], RunLink(c, k, events[..n]);
      IdealPrefix(c, k, events);
      OpenedIsPrefixOfSealed(c, k, before);
      match events[n]
      case Sealed(plaintext, iv) =>
      case Delivered(frame) => DeliverKeepsPrefix(c, k, l, frame);
    }
  }

  /** Whatever was opened was sealed on this connection, under a vector of the right length. */
  ghost predicate AllSealed(l: Link) {
    && (forall i :: 0 <= i < |l.received| ==> l.received[i] in Plaintexts(l.sent))
    && (forall i :: 0 <= i < |l.sent| ==> |l.sent[i].1| == IV_BYTES)
  }

  /** However many frames there were, and whatever wraps: nothing is invented. */
  lemma {:induction false} OpenedWasSealed(c: Suite, k: DirectionKeys, events: seq<Event>)
    requires c.DecryptInverts() && IdealRun(c, k, events)
    ensures AllSealed(RunLink(c, k, events))
    decreases |events|
  {
    if events == [] {
    } else {
      IdealPrefix(c, k, events);
      hide IdealRun, AllSealed, LinkStep, IdealEvent;
      OpenedWasSealed(c, k, events[..|events| - 1]);
      StepWasSealed(c, k, RunLink(c, k, events[..|events| - 1]), events[|events| - 1]);
    }
  }

  lemma StepWasSealed(c: Suite, k: DirectionKeys, l: Link, e: Event)
    requires c.DecryptInverts() && AllSealed(l) && IdealEvent(c, k, l, e)
    ensures AllSealed(LinkStep(c, k, l, e))
  {
    hide OpenFrame, Unforged;
    match e
    case Sealed(plaintext, iv) =>
      forall i | 0 <= i < |l.received| ensures l.received[i] in Plaintexts(l.sent + [(plaintext, iv)]) {
        var j :| 0 <= j < |l.sent| && Plaintexts(l.sent)[j] == l.received[i];
        assert Plaintexts(l.sent + [(plaintext, iv)])[j] == l.received[i];
      }
    case Delivered(frame) =>
      if OpenFrame(c, k, l.expected, frame).Ok? {
        var i := AcceptedWasSealed(c, k, l, frame);
        assert Plaintexts(l.sent)[i] == l.sent[i].0;
      }
  }

  /** The events of a lossless connection: each frame arrives before the next is sealed. */
  function Lossless(c: Suite, k: DirectionKeys, messages: seq<(Bytes, Bytes)>): seq<Event> {
    if messages == [] then []
    else
      var n := |messages| - 1;
      var (plaintext, iv) := messages[n];
      Lossless(c, k, messages[..n])
      + [Sealed(plaintext, iv), Delivered(SealedFrame(c, k, SequenceNumber(n), plaintext, iv))]
  }

  ghost predicate AllFit(c: Suite, k: DirectionKeys, messages: seq<(Bytes, Bytes)>) {
    forall i :: 0 <= i < |messages| ==>
      |messages[i].1| == IV_BYTES && Fits(c, k, SequenceNumber(i), messages[i].0, messages[i].1)
  }

  lemma LosslessStep(c: Suite, k: DirectionKeys, before: seq<(Bytes, Bytes)>, plaintext: Bytes, iv: Bytes)
    requires c.DecryptInverts() && |iv| == IV_BYTES
    requires Fits(c, k, SequenceNumber(|before|), plaintext, iv)
    ensures var n := |before|;
            var l := Link(before, SequenceNumber(n), Plaintexts(before));
            LinkStep(c, k, LinkStep(c, k, l, Sealed(plaintext, iv)),
                     Delivered(SealedFrame(c, k, SequenceNumber(n), plaintext, iv))) ==
            Link(before + [(plaintext, iv)], SequenceNumber(n + 1), Plaintexts(before + [(plaintext, iv)]))
  {
    hide OpenFrame, SealedFrame, Fits;
    OpenSealed(c, k, SequenceNumber(|before|), plaintext, iv, SequenceNumber(|before|));
    assert Plaintexts(before) + [plaintext] == Plaintexts(before + [(plaintext, iv)]);
  }

  /** The last message, taken apart from the ones before. */
  lemma LosslessLast(c: Suite, k: DirectionKeys, messages: seq<(Bytes, Bytes)>)
    requires messages != [] && AllFit(c, k, messages)
    ensures var n := |messages| - 1;
            var (plaintext, iv) := messages[n];
            && AllFit(c, k, messages[..n]) && |iv| == IV_BYTES && Fits(c, k, SequenceNumber(n), plaintext, iv)
            && messages[..n] + [(plaintext, iv)] == messages
            && Lossless(c, k, messages) == Lossless(c, k, messages[..n])
               + [Sealed(plaintext, iv), Delivered(SealedFrame(c, k, SequenceNumber(n), plaintext, iv))]
  {
    hide Fits, SealedFrame;
    LastAppended(messages);
  }

  /** Over a lossless ordered connection every message that fits arrives. */
  lemma {:induction false} LosslessDeliversAll(c: Suite, k: DirectionKeys, messages: seq<(Bytes, Bytes)>)
    requires c.DecryptInverts() && AllFit(c, k, messages)
    ensures RunLink(c, k, Lossless(c, k, messages)) ==
            Link(messages, SequenceNumber(|messages|), Plaintexts(messages))
    decreases |messages|
  {
    hide *;
    if messages == [] {
      NothingSent(c, k);
    } else {
      var n := |messages| - 1;
      LosslessLast(c, k, messages);
      LosslessDeliversAll(c, k, messages[..n]);
      LosslessDeliversOne(c, k, messages[..n], messages[n].0, messages[n].1);
    }
  }

  lemma NothingSent(c: Suite, k: DirectionKeys)
    ensures RunLink(c, k, Lossless(c, k, [])) == Link([], SequenceNumber(0), Plaintexts([]))
  {
  }

  lemma LosslessDeliversOne(c: Suite, k: DirectionKeys, before: seq<(Bytes, Bytes)>, plaintext: Bytes, iv: Bytes)
    requires c.DecryptInverts() && |iv| == IV_BYTES && Fits(c, k, SequenceNumber(|before|), plaintext, iv)
    requires RunLink(c, k, Lossless(c, k, before)) == Link(before, SequenceNumber(|before|), Plaintexts(before))
    ensures var frame := SealedFrame(c, k, SequenceNumber(|before|), plaintext, iv);
            var after := before + [(plaintext, iv)];
            RunLink(c, k, Lossless(c, k, before) + [Sealed(plaintext, iv), Delivered(frame)]) ==
            Link(after, SequenceNumber(|after|), Plaintexts(after))
  {
    hide LinkStep, RunLink, SealedFrame, Fits, Lossless, SequenceNumber;
    var frame := SealedFrame(c, k, SequenceNumber(|before|), plaintext, iv);
    RunLinkTwo(c, k, Lossless(c, k, before), Sealed(plaintext, iv), Delivered(frame));
    LosslessStep(c, k, before, plaintext, iv);
  }

  lemma RunLinkTwo(c: Suite, k: DirectionKeys, events: seq<Event>, s: Event, d: Event)
    ensures RunLink(c, k, events + [s, d]) == LinkStep(c, k, LinkStep(c, k, RunLink(c, k, events), s), d)
  {
    var one, two := events + [s], events + [s, d];
    assert two[..|two| - 1] == one && one[..|one| - 1] == events;
    assert RunLink(c, k, one) == LinkStep(c, k, RunLink(c, k, events), s);
  }

  // ---------------------------------------------------------------- the bound on the frames

  lemma IdealAppended(c: Suite, k: DirectionKeys, events: seq<Event>, e: Event)
    requires IdealRun(c, k, events) && IdealEvent(c, k, RunLink(c, k, events), e)
    ensures IdealRun(c, k, events + [e])
  {
    hide IdealEvent, RunLink;
    var all := events + [e];
    forall n | 0 <= n < |all| ensures IdealEvent(c, k, RunLink(c, k, all[..n]), all[n]) {
      if n == |events| {
        assert all[..n] == events;
      } else {
        assert all[..n] == events[..n] && all[n] == events[n];
      }
    }
  }

  /** A frame that was sealed on this connection is no forgery, however often it comes. */
  lemma SealedUnforged(c: Suite, k: DirectionKeys, l: Link, i: nat)
    requires i < |l.sent|
    ensures Unforged(c, k, l, SealedFrame(c, k, SequenceNumber(i), l.sent[i].0, l.sent[i].1))
  {
    hide DecodePair, EncodePair, SequenceNumber, Envelope;
    var e := Envelope(c, k, SequenceNumber(i), l.sent[i].0, l.sent[i].1);
    PairRoundTrip(e, c.mac(k.sigKey, e));
    assert EnvelopeOf(c, k, l.sent, i) == e;
  }

  lemma RunLinkOne(c: Suite, k: DirectionKeys, events: seq<Event>, e: Event)
    ensures RunLink(c, k, events + [e]) == LinkStep(c, k, RunLink(c, k, events), e)
  {
    hide LinkStep;
    Split(events, [e]);
  }

  lemma IdealPair(c: Suite, k: DirectionKeys, events: seq<Event>, plaintext: Bytes, iv: Bytes)
    requires IdealRun(c, k, events) && |iv| == IV_BYTES
    ensures var n := |RunLink(c, k, events).sent|;
            IdealRun(c, k,
              events + [Sealed(plaintext, iv), Delivered(SealedFrame(c, k, SequenceNumber(n), plaintext, iv))])
  {
    hide IdealRun, RunLink, SealedFrame, SequenceNumber, Unforged, OpenFrame;
    var s, l := Sealed(plaintext, iv), RunLink(c, k, events);
    var d := Delivered(SealedFrame(c, k, SequenceNumber(|l.sent|), plaintext, iv));
    IdealAppended(c, k, events, s);
    RunLinkOne(c, k, events, s);
    SealedUnforged(c, k, RunLink(c, k, events + [s]), |l.sent|);
    IdealAppended(c, k, events + [s], d);
    assert events + [s] + [d] == events + [s, d];
  }

  lemma {:induction false} LosslessIsIdeal(c: Suite, k: DirectionKeys, messages: seq<(Bytes, Bytes)>)
    requires c.DecryptInverts() && AllFit(c, k, messages)
    ensures IdealRun(c, k, Lossless(c, k, messages))
    decreases |messages|
  {
    if messages == [] {
    } else {
      hide *;
      var before := messages[..|messages| - 1];
      var (plaintext, iv) := messages[|messages| - 1];
      LosslessLast(c, k, messages);
      LosslessIsIdeal(c, k, before);
      LosslessDeliversAll(c, k, before);
      IdealPair(c, k, Lossless(c, k, before), plaintext, iv);
    }
  }

  /** The bound on the number of frames is exact: a run in which 2^32 messages were sealed and
      delivered, and in which nothing is forged, accepts the first frame a second time. */
  lemma ReplayAfterWrap(c: Suite, k: DirectionKeys, messages: seq<(Bytes, Bytes)>)
    requires c.DecryptInverts() && AllFit(c, k, messages) && |messages| == TWO_32
    ensures var first := SealedFrame(c, k, 1, messages[0].0, messages[0].1);
            var events := Lossless(c, k, messages) + [Delivered(first)];
            var l := RunLink(c, k, events);
            && IdealRun(c, k, events)
            && l.sent == messages && l.received == Plaintexts(messages) + [messages[0].0]
            && !(l.received <= Plaintexts(l.sent))
  {
    hide IdealRun, RunLink, OpenFrame, SealedFrame, Fits, Lossless, Unforged;
    var first := SealedFrame(c, k, 1, messages[0].0, messages[0].1);
    assert SequenceNumber(0) == 1 && SequenceNumber(TWO_32) == 1;
    LosslessDeliversAll(c, k, messages);
    LosslessIsIdeal(c, k, messages);
    SealedUnforged(c, k, RunLink(c, k, Lossless(c, k, messages)), 0);
    IdealAppended(c, k, Lossless(c, k, messages), Delivered(first));
    RunLinkOne(c, k, Lossless(c, k, messages), Delivered(first));
    OpenSealed(c, k, 1, messages[0].0, messages[0].1, 1);
  }

  // ---------------------------------------------------------------- tampering

  function FlipLowBit(b: byte): byte {
    if b % 2 == 0 then b + 1 else b - 1
  }

  /** The last byte exclusive-or one. */
  function FlipLast(frame: Bytes): (r: Bytes)
    requires frame != []
    ensures |r| == |frame| && r != frame
  {
    frame[..|frame| - 1] + [FlipLowBit(frame[|frame| - 1])]
  }

  lemma FlipBehind(front: Bytes, tail: Bytes)
    requires tail != []
    ensures FlipLast(front + tail) == front + FlipLast(tail)
  {
    var all := front + tail;
    assert all[..|all| - 1] == front + tail[..|tail| - 1];
    Assoc(front, tail[..|tail| - 1], [FlipLowBit(tail[|tail| - 1])]);
  }

  lemma BlobWritten(num: u32, data: Bytes)
    ensures EncodeField(Blob(num, data)) == Varint(num * 8 + 2) + Varint(|data|) + data
  {
    hide Varint;
    Assoc(Varint(num * 8 + 2), Varint(|data|), data);
  }

  lemma OneFieldWritten(f: Field)
    ensures EncodeFields([f]) == EncodeField(f)
  {
    hide EncodeField;
    assert [f][1..] == [];
    AppendNothing(EncodeField(f));
  }

  lemma PairWritten(first: Bytes, second: Bytes)
    ensures EncodePair(first, second) == EncodeField(Blob(1, first)) + EncodeField(Blob(2, second))
  {
    hide EncodeField;
    var f, g := Blob(1, first), Blob(2, second);
    assert PairFields(first, second) == [f] + [g];
    EncodeFieldsAppend([f], [g]);
    OneFieldWritten(f);
    OneFieldWritten(g);
  }

  lemma PairEnds(first: Bytes, second: Bytes)
    ensures EncodePair(first, second) == EncodeField(Blob(1, first)) + (Varint(2 * 8 + 2) + Varint(|second|)) + second
  {
    PairWritten(first, second);
    BlobWritten(2, second);
    hide EncodePair, EncodeField, Varint;
    Assoc(EncodeField(Blob(1, first)), Varint(2 * 8 + 2) + Varint(|second|), second);
  }

  /** A frame whose last byte was changed is never opened: what changed is its tag, and a frame
      that would have arrived whole is refused for it. */
  lemma AlteredIsRefused(c: Suite, k: DirectionKeys, sequence: i32, plaintext: Bytes, iv: Bytes, expected: i32)
    requires c.BlockLengths()
    ensures SealedFrame(c, k, sequence, plaintext, iv) != []
    ensures OpenFrame(c, k, expected, FlipLast(SealedFrame(c, k, sequence, plaintext, iv))).Err?
    ensures |iv| == IV_BYTES && Fits(c, k, sequence, plaintext, iv) ==>
              OpenFrame(c, k, expected, FlipLast(SealedFrame(c, k, sequence, plaintext, iv))) == Err(IntegrityFailed)
  {
    hide EncodePair, DecodePair, DecodeHeader, DecodeDevice, Envelope, EncodeField, Varint, FlipLast, EncodeFields,
      HeaderBytes;
    var e := Envelope(c, k, sequence, plaintext, iv);
    var tag := c.mac(k.sigKey, e);
    assert |tag| == 32;
    PairEnds(e, tag);
    PairEnds(e, FlipLast(tag));
    FlipBehind(EncodeField(Blob(1, e)) + (Varint(2 * 8 + 2) + Varint(|tag|)), tag);
    PairRoundTrip(e, FlipLast(tag));
    if |iv| == IV_BYTES && Fits(c, k, sequence, plaintext, iv) {
      EnvelopeReads(c, k, sequence, plaintext, iv);
    }
  }

  lemma EnvelopeReads(c: Suite, k: DirectionKeys, sequence: i32, plaintext: Bytes, iv: Bytes)
    requires |iv| == IV_BYTES && Fits(c, k, sequence, plaintext, iv)
    ensures var ct := c.encrypt(k.encKey, iv, EncodeFields(DeviceFields(sequence, plaintext)));
            DecodePair(Envelope(c, k, sequence, plaintext, iv)) == Ok((HeaderBytes(iv), ct))
    ensures DecodeHeader(HeaderBytes(iv)) ==
            Ok(Header(SIG_SCHEME_HMAC_SHA256, ENC_SCHEME_AES_256_CBC, Some(iv), Some(METADATA)))
  {
    HeaderLength(iv);
    PairRoundTrip(HeaderBytes(iv), c.encrypt(k.encKey, iv, EncodeFields(DeviceFields(sequence, plaintext))));
    HeaderRoundTrip(SIG_SCHEME_HMAC_SHA256, ENC_SCHEME_AES_256_CBC, iv, METADATA);
  }

  /** A frame anyone can write: any schemes, any vector, any ciphertext and any tag. */
  datatype Written = Written(signatureScheme: i64, encryptionScheme: i64, iv: Bytes, body: Bytes, tag: Bytes)
  {
    function Envelope(): Bytes {
      EncodePair(EncodeFields(HeaderFields(signatureScheme, encryptionScheme, iv, METADATA)), body)
    }

    function Frame(): Bytes {
      EncodePair(Envelope(), tag)
    }

    ghost predicate Readable() {
      && |iv| <= MAX_FIELD_BYTES && |METADATA| <= MAX_FIELD_BYTES && |body| <= MAX_FIELD_BYTES
      && |EncodeFields(HeaderFields(signatureScheme, encryptionScheme, iv, METADATA))| <= MAX_FIELD_BYTES
      && |Envelope()| <= MAX_FIELD_BYTES && |tag| <= MAX_FIELD_BYTES
    }

    predicate Schemes() {
      signatureScheme == SIG_SCHEME_HMAC_SHA256 && encryptionScheme == ENC_SCHEME_AES_256_CBC
    }
  }

  /** What such a frame is refused for. The schemes come first, whatever the tag; the tag comes
      next, whatever the vector and the ciphertext; only then is anything decrypted; and behind
      a right tag stand the vector, the padding, the message and its number. */
  lemma WrittenAnswer(c: Suite, k: DirectionKeys, expected: i32, w: Written)
    requires w.Readable()
    ensures var r := OpenFrame(c, k, expected, w.Frame());
            var genuine := c.mac(k.sigKey, w.Envelope()) == w.tag;
            var plain := c.decrypt(k.encKey, w.iv, w.body);
            && (!w.Schemes() ==> r == Err(InvalidFrame))
            && (w.Schemes() && !genuine ==> r == Err(IntegrityFailed))
            && (w.Schemes() && genuine && |w.iv| != IV_BYTES ==> r == Err(InvalidFrame))
            && (w.Schemes() && genuine && |w.iv| == IV_BYTES && plain.None? ==> r == Err(IntegrityFailed))
            && (forall n: i32, m: Bytes ::
                  w.Schemes() && genuine && |w.iv| == IV_BYTES && |m| <= MAX_FIELD_BYTES
                  && plain == Some(EncodeFields(DeviceFields(n, m))) ==>
                    r == if n == expected then Ok(m) else Err(IntegrityFailed))
  {
    PairRoundTrip(w.Envelope(), w.tag);
    PairRoundTrip(EncodeFields(HeaderFields(w.signatureScheme, w.encryptionScheme, w.iv, METADATA)), w.body);
    HeaderRoundTrip(w.signatureScheme, w.encryptionScheme, w.iv, METADATA);
    hide EncodePair, DecodePair, DecodeHeader, DecodeDevice, EncodeFields, METADATA, HeaderFields;
    forall n: i32, m: Bytes | |m| <= MAX_FIELD_BYTES
      ensures DecodeDevice(EncodeFields(DeviceFields(n, m))) == Ok(DeviceMessage(m, n))
    {
      DeviceRoundTrip(n, m);
    }
  }

  // ---------------------------------------------------------------- reflection

  /** The tags of this message under these two keys are not a collision. */
  ghost predicate NoTagCollision(c: Suite, k1: Bytes, k2: Bytes, message: Bytes) {
    c.mac(k1, message) == c.mac(k2, message) ==> k1 == k2
  }

  /** A frame is opened by the other end and, reflected, refused by the end that sealed it:
      nothing an end sends can be taken for something it receives. So the ideal tag allows the
      network to reflect frames at any point of any run, and no run is moved by it. */
  lemma OnlyTheOtherEndOpens(c: Suite, nextSecret: Bytes, role: ChannelRole, sequence: i32, plaintext: Bytes,
      iv: Bytes, expected: i32, l: Link)
    requires c.DecryptInverts() && nextSecret != [] && NoScheduleCollision(c, nextSecret) && |iv| == IV_BYTES
    requires Fits(c, SendKeys(Derive(c, nextSecret).value, role), sequence, plaintext, iv)
    requires var s := Derive(c, nextSecret).value;
             NoTagCollision(c, SendKeys(s, role).sigKey, RecvKeys(s, role).sigKey,
               Envelope(c, SendKeys(s, role), sequence, plaintext, iv))
    ensures var s := Derive(c, nextSecret).value;
            var frame := SealedFrame(c, SendKeys(s, role), sequence, plaintext, iv);
            && OpenFrame(c, RecvKeys(s, Other(role)), sequence, frame) == Ok(plaintext)
            && OpenFrame(c, RecvKeys(s, role), expected, frame) == Err(IntegrityFailed)
            && Unforged(c, RecvKeys(s, role), l, frame)
            && LinkStep(c, RecvKeys(s, role), l, Delivered(frame)) == l
  {
    hide NoScheduleCollision, OpenFrame, SealedFrame, Fits, Derive, LinkStep, Unforged;
    var s := Derive(c, nextSecret).value;
    EndsMatch(c, nextSecret);
    KeysSeparate(c, nextSecret);
    OpenSealed(c, SendKeys(s, role), sequence, plaintext, iv, sequence);
    WrongTagKey(c, SendKeys(s, role), RecvKeys(s, role), sequence, plaintext, iv, expected, l);
    WrongTagKey(c, SendKeys(s, role), RecvKeys(s, role), sequence, plaintext, iv, l.expected, l);
    RefusedStays(c, RecvKeys(s, role), l, SealedFrame(c, SendKeys(s, role), sequence, plaintext, iv));
  }

  lemma RefusedStays(c: Suite, k: DirectionKeys, l: Link, frame: Bytes)
    requires OpenFrame(c, k, l.expected, frame).Err?
    ensures LinkStep(c, k, l, Delivered(frame)) == l
  {
    hide OpenFrame;
  }

  lemma WrongTagKey(c: Suite, k: DirectionKeys, other: DirectionKeys, sequence: i32, plaintext: Bytes, iv: Bytes,
      expected: i32, l: Link)
    requires |iv| == IV_BYTES && Fits(c, k, sequence, plaintext, iv) && k.sigKey != other.sigKey
    requires NoTagCollision(c, k.sigKey, other.sigKey, Envelope(c, k, sequence, plaintext, iv))
    ensures var frame := SealedFrame(c, k, sequence, plaintext, iv);
            OpenFrame(c, other, expected, frame) == Err(IntegrityFailed) && Unforged(c, other, l, frame)
  {
    var e := Envelope(c, k, sequence, plaintext, iv);
    PairRoundTrip(e, c.mac(k.sigKey, e));
    EnvelopeReads(c, k, sequence, plaintext, iv);
    hide EncodePair, DecodePair, DecodeHeader, DecodeDevice, EncodeFields, HeaderBytes, METADATA;
  }
}
