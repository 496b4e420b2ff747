/** The UKEY2 handshake messages of proto-quickshare/src/wire.rs. */
module Ukey2Wire {
  import opened Prelude
  import opened Wire
  import opened Messages
  import opened Payload
  import SecureChannel

  datatype MessageType = Alert | ClientInitType | ServerInitType | ClientFinishType

  function TypeCode(t: MessageType): i32 {
    match t case Alert => 1 case ClientInitType => 2 case ServerInitType => 3 case ClientFinishType => 4
  }

  function TypeFrom(v: i32): (r: Result<MessageType>)
    ensures r.Ok? ==> TypeCode(r.value) == v
  {
    if v == 1 then Ok(Alert) else if v == 2 then Ok(ClientInitType)
    else if v == 3 then Ok(ServerInitType) else if v == 4 then Ok(ClientFinishType) else Err(InvalidFrame)
  }

  // ---------------------------------------------------------------- envelope

  datatype Ukey2Message = Ukey2Message(messageType: MessageType, data: Bytes)
  datatype EnvelopeSlots = EnvelopeSlots(messageType: Option<MessageType>, data: Option<Bytes>)

  function EncodeMessage(t: MessageType, data: Bytes): (b: Bytes) {
    EncodeFields([Scalar(1, AsU64(TypeCode(t))), Blob(2, data)])
  }

  function EnvelopeStep(s: EnvelopeSlots, f: Field): (r: Result<EnvelopeSlots>) {
    if IsScalar(f, 1) then
      var t :- TypeFrom(AsI32(f.v));
      Ok(s.(messageType := Some(t)))
    else if IsBlob(f, 2) then Ok(s.(data := Some(f.data)))
    else Ok(s)
  }

  function DecodeMessage(buf: Bytes): (r: Result<Ukey2Message>) {
    var s :- Run(EnvelopeStep, EnvelopeSlots(None, None), buf);
    if s.messageType.None? then Err(InvalidFrame)
    else Ok(Ukey2Message(s.messageType.value, if s.data.Some? then s.data.value else []))
  }

  lemma MessageRoundTrip(t: MessageType, data: Bytes)
    requires |data| <= MAX_FIELD_BYTES
    ensures DecodeMessage(EncodeMessage(t, data)) == Ok(Ukey2Message(t, data))
  {
    hide Absorb, Run, EncodeFields;
    var a, b := Scalar(1, AsU64(TypeCode(t))), Blob(2, data);
    var s0 := EnvelopeSlots(None, None);
    var s1 := EnvelopeSlots(Some(t), None);
    RunOfEncoded(EnvelopeStep, s0, [a, b]);
    assert [a, b] == [a] + [b];
    AbsorbOne(EnvelopeStep, s0, a);
    AbsorbOne(EnvelopeStep, s1, b);
    AbsorbAppend(EnvelopeStep, s0, [a], [b]);
  }

  // ---------------------------------------------------------------- client init

  datatype Commitment = Commitment(cipher: i32, hash: Bytes)
  datatype ClientInit = ClientInit(version: i32, random: Bytes, commitments: seq<Commitment>, nextProtocol: Text)

  function CommitmentFields(c: Commitment): seq<Field> {
    [Scalar(1, AsU64(c.cipher)), Blob(2, c.hash)]
  }

  function CommitmentsFields(cs: seq<Commitment>): (fields: seq<Field>)
    ensures |fields| == |cs|
    ensures forall i :: 0 <= i < |cs| ==> fields[i] == Blob(3, EncodeFields(CommitmentFields(cs[i])))
  {
    seq(|cs|, i requires 0 <= i < |cs| => Blob(3, EncodeFields(CommitmentFields(cs[i]))))
  }

  function ClientInitFields(init: ClientInit): seq<Field> {
    [Scalar(1, AsU64(init.version)), Blob(2, init.random)] + CommitmentsFields(init.commitments)
      + [Blob(4, init.nextProtocol)]
  }

  function EncodeClientInit(init: ClientInit): (b: Bytes) {
    EncodeMessage(ClientInitType, EncodeFields(ClientInitFields(init)))
  }

  function DecodeCommitment(buf: Bytes): (r: Result<Commitment>) {
    var s :- Gather(Wants({1}, {2}), buf);
    if 1 !in s.scalars || 2 !in s.blobs then Err(InvalidFrame)
    else Ok(Commitment(AsI32(s.scalars[1]), s.blobs[2]))
  }

  datatype ClientInitSlots = ClientInitSlots(
    version: Option<i32>, random: Option<Bytes>, commitments: seq<Commitment>, nextProtocol: Option<Text>)

  function ClientInitStep(s: ClientInitSlots, f: Field): (r: Result<ClientInitSlots>) {
    if IsScalar(f, 1) then Ok(s.(version := Some(AsI32(f.v))))
    else if IsBlob(f, 2) then Ok(s.(random := Some(f.data)))
    else if IsBlob(f, 3) then
      var c :- DecodeCommitment(f.data);
      Ok(s.(commitments := s.commitments + [c]))
    else if IsBlob(f, 4) then
      var t :- ReadText(f.data);
      Ok(s.(nextProtocol := Some(t)))
    else Ok(s)
  }

  const NO_CLIENT_INIT: ClientInitSlots := ClientInitSlots(None, None, [], None)

  function DecodeClientInit(buf: Bytes): (r: Result<ClientInit>) {
    var s :- Run(ClientInitStep, NO_CLIENT_INIT, buf);
    if s.version.None? || s.random.None? then Err(InvalidFrame)
    else Ok(ClientInit(s.version.value, s.random.value, s.commitments,
                       if s.nextProtocol.Some? then s.nextProtocol.value else []))
  }

  lemma CommitmentRoundTrip(c: Commitment)
    requires |EncodeFields(CommitmentFields(c))| <= MAX_FIELD_BYTES
    ensures DecodeCommitment(EncodeFields(CommitmentFields(c))) == Ok(c)
  {
    var fields := CommitmentFields(c);
    InsideLimitLegal(fields);
    GatherEncoded(Wants({1}, {2}), fields);
    assert LastScalar(fields, 1) == Some(AsU64(c.cipher)) by { LastScalarAt(fields, 0); }
    assert LastBlob(fields, 2) == Some(c.hash) by { LastBlobAt(fields, 1); }
    AsI32OfSigned(c.cipher);
  }

  lemma {:induction false} CommitmentsAbsorbed(s: ClientInitSlots, cs: seq<Commitment>)
    requires forall i :: 0 <= i < |cs| ==> |EncodeFields(CommitmentFields(cs[i]))| <= MAX_FIELD_BYTES
    ensures Absorb(ClientInitStep, s, CommitmentsFields(cs)) == Ok(s.(commitments := s.commitments + cs))
    decreases |cs|
  {
    hide DecodeCommitment, CommitmentFields, EncodeFields;
    if cs == [] {
      AppendNothing(s.commitments);
    } else {
      var rest := cs[1..];
      CommitmentRoundTrip(cs[0]);
      assert CommitmentsFields(cs)[1..] == CommitmentsFields(rest);
      CommitmentsAbsorbed(s.(commitments := s.commitments + [cs[0]]), rest);
      Assoc(s.commitments, [cs[0]], rest);
      HeadTail(cs);
    }
  }

  lemma CommitmentsSmall(init: ClientInit)
    requires |EncodeFields(ClientInitFields(init))| <= MAX_FIELD_BYTES
    ensures forall i :: 0 <= i < |init.commitments| ==>
              |EncodeFields(CommitmentFields(init.commitments[i]))| <= MAX_FIELD_BYTES
  {
    forall i | 0 <= i < |init.commitments|
      ensures |EncodeFields(CommitmentFields(init.commitments[i]))| <= MAX_FIELD_BYTES
    {
      assert ClientInitFields(init)[2 + i] == CommitmentsFields(init.commitments)[i];
      FieldFitsInside(ClientInitFields(init), 2 + i);
    }
  }

  lemma FirstTwoAbsorbed(init: ClientInit)
    ensures Absorb(ClientInitStep, NO_CLIENT_INIT, [Scalar(1, AsU64(init.version)), Blob(2, init.random)]) ==
            Ok(ClientInitSlots(Some(init.version), Some(init.random), [], None))
  {
    var a, b := Scalar(1, AsU64(init.version)), Blob(2, init.random);
    var s1 := NO_CLIENT_INIT.(version := Some(init.version));
    AsI32OfSigned(init.version);
    AbsorbOne(ClientInitStep, NO_CLIENT_INIT, a);
    AbsorbOne(ClientInitStep, s1, b);
    AbsorbAppend(ClientInitStep, NO_CLIENT_INIT, [a], [b]);
    assert [a] + [b] == [a, b];
  }

  lemma ClientInitAbsorbed(init: ClientInit)
    requires |EncodeFields(ClientInitFields(init))| <= MAX_FIELD_BYTES
    ensures Absorb(ClientInitStep, NO_CLIENT_INIT, ClientInitFields(init)) ==
            Ok(ClientInitSlots(Some(init.version), Some(init.random), init.commitments, Some(init.nextProtocol)))
  {
    hide EncodeFields, CommitmentFields, CommitmentsFields, DecodeCommitment, Absorb;
    var two := [Scalar(1, AsU64(init.version)), Blob(2, init.random)];
    var cs, d := CommitmentsFields(init.commitments), Blob(4, init.nextProtocol);
    var s2 := ClientInitSlots(Some(init.version), Some(init.random), [], None);
    var s3 := s2.(commitments := [] + init.commitments);
    CommitmentsSmall(init);
    FirstTwoAbsorbed(init);
    CommitmentsAbsorbed(s2, init.commitments);
    AbsorbOne(ClientInitStep, s3, d);
    AbsorbAppend(ClientInitStep, NO_CLIENT_INIT, two, cs);
    AbsorbAppend(ClientInitStep, NO_CLIENT_INIT, two + cs, [d]);
    assert [] + init.commitments == init.commitments;
  }

  /** Ciphers, commitments and their order survive. */
  lemma ClientInitRoundTrip(init: ClientInit)
    requires |EncodeFields(ClientInitFields(init))| <= MAX_FIELD_BYTES
    ensures DecodeMessage(EncodeClientInit(init)) ==
            Ok(Ukey2Message(ClientInitType, EncodeFields(ClientInitFields(init))))
    ensures DecodeClientInit(EncodeFields(ClientInitFields(init))) == Ok(init)
  {
    MessageRoundTrip(ClientInitType, EncodeFields(ClientInitFields(init)));
    InsideLimitLegal(ClientInitFields(init));
    RunOfEncoded(ClientInitStep, NO_CLIENT_INIT, ClientInitFields(init));
    ClientInitAbsorbed(init);
  }

  // ---------------------------------------------------------------- server init

  datatype ServerInit = ServerInit(version: i32, random: Bytes, cipher: i32, publicKey: Bytes)

  function ServerInitFields(init: ServerInit): seq<Field> {
    [Scalar(1, AsU64(init.version)), Blob(2, init.random), Scalar(3, AsU64(init.cipher)), Blob(4, init.publicKey)]
  }

  function EncodeServerInit(init: ServerInit): (b: Bytes) {
    EncodeMessage(ServerInitType, EncodeFields(ServerInitFields(init)))
  }

  function DecodeServerInit(buf: Bytes): (r: Result<ServerInit>) {
    var s :- Gather(Wants({1, 3}, {2, 4}), buf);
    if 1 !in s.scalars || 2 !in s.blobs || 3 !in s.scalars || 4 !in s.blobs then Err(InvalidFrame)
    else Ok(ServerInit(AsI32(s.scalars[1]), s.blobs[2], AsI32(s.scalars[3]), s.blobs[4]))
  }

  lemma ServerInitRoundTrip(init: ServerInit)
    requires |EncodeFields(ServerInitFields(init))| <= MAX_FIELD_BYTES
    ensures DecodeMessage(EncodeServerInit(init)) ==
            Ok(Ukey2Message(ServerInitType, EncodeFields(ServerInitFields(init))))
    ensures DecodeServerInit(EncodeFields(ServerInitFields(init))) == Ok(init)
  {
    hide Run, EncodeFields, Absorb;
    var fields := ServerInitFields(init);
    MessageRoundTrip(ServerInitType, EncodeFields(fields));
    InsideLimitLegal(fields);
    GatherEncoded(Wants({1, 3}, {2, 4}), fields);
    LastScalarAt(fields, 0);
    LastBlobAt(fields, 1);
    LastScalarAt(fields, 2);
    LastBlobAt(fields, 3);
    AsI32OfSigned(init.version);
    AsI32OfSigned(init.cipher);
  }

  // ---------------------------------------------------------------- client finish, public key

  function EncodeClientFinished(publicKey: Bytes): (b: Bytes) {
    EncodeMessage(ClientFinishType, EncodeFields([Blob(1, publicKey)]))
  }

  function DecodeClientFinished(buf: Bytes): (r: Result<Bytes>) {
    var s :- Gather(Wants({}, {1}), buf);
    if 1 !in s.blobs then Err(InvalidFrame) else Ok(s.blobs[1])
  }

  lemma ClientFinishedRoundTrip(publicKey: Bytes)
    requires |EncodeFields([Blob(1, publicKey)])| <= MAX_FIELD_BYTES
    ensures DecodeMessage(EncodeClientFinished(publicKey)) ==
            Ok(Ukey2Message(ClientFinishType, EncodeFields([Blob(1, publicKey)])))
    ensures DecodeClientFinished(EncodeFields([Blob(1, publicKey)])) == Ok(publicKey)
  {
    var fields := [Blob(1, publicKey)];
    MessageRoundTrip(ClientFinishType, EncodeFields(fields));
    InsideLimitLegal(fields);
    GatherEncoded(Wants({}, {1}), fields);
    LastBlobAt(fields, 0);
  }

  datatype GenericPublicKey = GenericPublicKey(keyType: i32, x: Bytes, y: Bytes)
  datatype KeySlots = KeySlots(keyType: Option<i32>, coords: Option<(Bytes, Bytes)>)

  function KeyFields(k: GenericPublicKey): seq<Field> {
    [Scalar(1, AsU64(k.keyType)), Blob(2, SecureChannel.EncodePair(k.x, k.y))]
  }

  function EncodeKey(k: GenericPublicKey): (b: Bytes) {
    EncodeFields(KeyFields(k))
  }

  function KeyStep(s: KeySlots, f: Field): (r: Result<KeySlots>) {
    if IsScalar(f, 1) then Ok(s.(keyType := Some(AsI32(f.v))))
    else if IsBlob(f, 2) then
      var p :- SecureChannel.DecodePair(f.data);
      Ok(s.(coords := Some(p)))
    else Ok(s)
  }

  function DecodeKey(buf: Bytes): (r: Result<GenericPublicKey>) {
    var s :- Run(KeyStep, KeySlots(None, None), buf);
    if s.keyType.None? || s.coords.None? then Err(InvalidFrame)
    else Ok(GenericPublicKey(s.keyType.value, s.coords.value.0, s.coords.value.1))
  }

  lemma PublicKeyRoundTrip(k: GenericPublicKey)
    requires |EncodeKey(k)| <= MAX_FIELD_BYTES
    ensures DecodeKey(EncodeKey(k)) == Ok(k)
  {
    var a, b := KeyFields(k)[0], KeyFields(k)[1];
    var s0, s1 := KeySlots(None, None), KeySlots(Some(k.keyType), None);
    InsideLimitLegal(KeyFields(k));
    FieldFitsInside(KeyFields(k), 1);
    FieldFitsInside(SecureChannel.PairFields(k.x, k.y), 0);
    FieldFitsInside(SecureChannel.PairFields(k.x, k.y), 1);
    hide EncodeFields, SecureChannel.DecodePair;
    SecureChannel.PairRoundTrip(k.x, k.y);
    RunOfEncoded(KeyStep, s0, KeyFields(k));
    AsI32OfSigned(k.keyType);
    AbsorbOne(KeyStep, s0, a);
    AbsorbOne(KeyStep, s1, b);
    AbsorbAppend(KeyStep, s0, [a], [b]);
    assert KeyFields(k) == [a] + [b];
  }

  // ---------------------------------------------------------------- lengths

  lemma KeyLength(k: GenericPublicKey)
    requires |k.x| <= 64 && |k.y| <= 64
    ensures |EncodeKey(k)| <= 300
  {
    BlobFieldLength(1, k.x);
    BlobFieldLength(2, k.y);
    TwoFieldsLength(Blob(1, k.x), Blob(2, k.y));
    var ec := SecureChannel.EncodePair(k.x, k.y);
    assert |ec| <= 200;
    ScalarFieldLength(1, AsU64(k.keyType));
    BlobFieldLength(2, ec);
    TwoFieldsLength(Scalar(1, AsU64(k.keyType)), Blob(2, ec));
  }

  lemma ClientFinishedLength(publicKey: Bytes)
    requires |publicKey| <= 300
    ensures |EncodeFields([Blob(1, publicKey)])| <= 400
  {
    BlobFieldLength(1, publicKey);
    assert [Blob(1, publicKey)][1..] == [];
  }

  lemma ServerInitLength(init: ServerInit)
    requires |init.random| <= 64 && |init.publicKey| <= 300
    ensures |EncodeFields(ServerInitFields(init))| <= 500
  {
    var f := ServerInitFields(init);
    ScalarFieldLength(1, AsU64(init.version));
    BlobFieldLength(2, init.random);
    ScalarFieldLength(3, AsU64(init.cipher));
    BlobFieldLength(4, init.publicKey);
    TwoFieldsLength(f[0], f[1]);
    TwoFieldsLength(f[2], f[3]);
    EncodeFieldsAppend([f[0], f[1]], [f[2], f[3]]);
    assert f == [f[0], f[1]] + [f[2], f[3]];
  }

  lemma OneCommitmentLength(init: ClientInit)
    requires |init.random| <= 64 && |init.commitments| == 1 && |init.commitments[0].hash| <= 64
    requires |init.nextProtocol| <= MAX_FIELD_BYTES
    ensures |EncodeFields(ClientInitFields(init))| <= |init.nextProtocol| + 400
  {
    var c := init.commitments[0];
    ScalarFieldLength(1, AsU64(c.cipher));
    BlobFieldLength(2, c.hash);
    TwoFieldsLength(CommitmentFields(c)[0], CommitmentFields(c)[1]);
    var cb := EncodeFields(CommitmentFields(c));
    var a, b, d, e := Scalar(1, AsU64(init.version)), Blob(2, init.random), Blob(3, cb), Blob(4, init.nextProtocol);
    ScalarFieldLength(1, AsU64(init.version));
    BlobFieldLength(2, init.random);
    BlobFieldLength(3, cb);
    BlobFieldLength(4, init.nextProtocol);
    TwoFieldsLength(a, b);
    TwoFieldsLength(d, e);
    assert CommitmentsFields(init.commitments) == [d];
    EncodeFieldsAppend([a, b], [d, e]);
    assert ClientInitFields(init) == [a, b] + [d, e];
  }
}
