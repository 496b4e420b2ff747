/** The control frames of proto-quickshare/src/control.rs that travel beside payload frames:
    keep-alive and disconnection on the outer level, the paired-key result on the inner. */
module ControlFrames {
  import opened Prelude
  import opened Wire
  import opened Messages
  import opened Offline
  import Payload

  const OUTER_TYPE_KEEP_ALIVE: u64 := 5
  const OUTER_FIELD_KEEP_ALIVE: u32 := 6
  const OUTER_TYPE_DISCONNECTION: u64 := 6
  const OUTER_FIELD_DISCONNECTION: u32 := 7
  const INNER_TYPE_PAIRED_KEY_ENCRYPTION: u64 := 3
  const INNER_TYPE_PAIRED_KEY_RESULT: u64 := 4
  const INNER_FIELD_PAIRED_KEY_RESULT: u32 := 5

  // ---------------------------------------------------------------- keep-alive

  datatype KeepAliveFrame = KeepAliveFrame(ack: bool, seqNum: u32)

  function KeepAliveFields(f: KeepAliveFrame): seq<Field> {
    (if f.ack then [Scalar(1, 1)] else []) + [Scalar(2, f.seqNum)]
  }

  function EncodeKeepAlive(f: KeepAliveFrame): Bytes {
    EncodeOffline(OUTER_TYPE_KEEP_ALIVE, OUTER_FIELD_KEEP_ALIVE, EncodeFields(KeepAliveFields(f)))
  }

  function KeepAliveStep(s: KeepAliveFrame, f: Field): (r: Result<KeepAliveFrame>) {
    if IsScalar(f, 1) then Ok(s.(ack := f.v != 0))
    else if IsScalar(f, 2) then (if f.v < TWO_32 then Ok(s.(seqNum := f.v)) else Err(InvalidFrame))
    else Ok(s)
  }

  function DecodeKeepAlive(buf: Bytes): (r: Result<KeepAliveFrame>) {
    var (frameType, body) :- OuterV1(buf, OUTER_FIELD_KEEP_ALIVE);
    if frameType != OUTER_TYPE_KEEP_ALIVE then
      Err(if frameType == INNER_TYPE_PAIRED_KEY_ENCRYPTION then InvalidFrame else UnsupportedFeature)
    else if body.None? then Err(InvalidFrame)
    else Run(KeepAliveStep, KeepAliveFrame(false, 0), body.value)
  }

  lemma ShortScalars(fields: seq<Field>)
    requires |fields| <= 2 && forall i :: 0 <= i < |fields| ==> fields[i].Scalar? && fields[i].num > 0
    ensures AllLegal(fields) && |EncodeFields(fields)| <= 40
  {
    ScalarsLength(fields);
  }

  lemma SmallV1(frameType: u64, field: u32, body: Bytes)
    requires |body| <= 40
    ensures |V1Bytes(frameType, field, body)| <= 100
  {
    ScalarFieldLength(1, frameType);
    BlobFieldLength(field, body);
    TwoFieldsLength(Scalar(1, frameType), Blob(field, body));
  }

  /** Every keep-alive frame comes back as it was sent. */
  lemma KeepAliveRoundTrip(f: KeepAliveFrame)
    ensures DecodeKeepAlive(EncodeKeepAlive(f)) == Ok(f)
  {
    var fields, s0 := KeepAliveFields(f), KeepAliveFrame(false, 0);
    ShortScalars(fields);
    SmallV1(OUTER_TYPE_KEEP_ALIVE, OUTER_FIELD_KEEP_ALIVE, EncodeFields(fields));
    OfflineRoundTrip(OUTER_TYPE_KEEP_ALIVE, OUTER_FIELD_KEEP_ALIVE, EncodeFields(fields));
    RunOfEncoded(KeepAliveStep, s0, fields);
    AbsorbOne(KeepAliveStep, s0.(ack := f.ack), Scalar(2, f.seqNum));
    if f.ack {
      assert fields == [Scalar(1, 1)] + [Scalar(2, f.seqNum)];
      AbsorbOne(KeepAliveStep, s0, Scalar(1, 1));
      AbsorbAppend(KeepAliveStep, s0, [Scalar(1, 1)], [Scalar(2, f.seqNum)]);
    } else {
      assert fields == [Scalar(2, f.seqNum)];
    }
  }

  // ---------------------------------------------------------------- disconnection

  datatype DisconnectionFrame = DisconnectionFrame(request: Option<bool>, ack: Option<bool>)

  function BoolField(num: u32, b: Option<bool>): seq<Field> {
    if b.None? then [] else [Scalar(num, if b.value then 1 else 0)]
  }

  function DisconnectionFields(f: DisconnectionFrame): seq<Field> {
    BoolField(1, f.request) + BoolField(2, f.ack)
  }

  function EncodeDisconnection(f: DisconnectionFrame): Bytes {
    EncodeOffline(OUTER_TYPE_DISCONNECTION, OUTER_FIELD_DISCONNECTION, EncodeFields(DisconnectionFields(f)))
  }

  function AsBool(v: Option<u64>): Option<bool> {
    if v.None? then None else Some(v.value != 0)
  }

  function DecodeDisconnection(buf: Bytes): (r: Result<DisconnectionFrame>) {
    var (frameType, body) :- OuterV1(buf, OUTER_FIELD_DISCONNECTION);
    if frameType != OUTER_TYPE_DISCONNECTION then Err(UnsupportedFeature)
    else if body.None? then Err(InvalidFrame)
    else DisconnectionBody(body.value)
  }

  function DisconnectionBody(body: Bytes): (r: Result<DisconnectionFrame>) {
    var s :- Gather(Wants({1, 2}, {}), body);
    Ok(DisconnectionFrame(AsBool(Lookup(s.scalars, 1)), AsBool(Lookup(s.scalars, 2))))
  }

  /** Presence of each flag survives, not only its value: nine distinct frames. */
  lemma DisconnectionRoundTrip(f: DisconnectionFrame)
    ensures DecodeDisconnection(EncodeDisconnection(f)) == Ok(f)
  {
    hide EncodeFields, EncodeOffline, OuterV1, Gather, LastScalar;
    var fields := DisconnectionFields(f);
    ShortScalars(fields);
    SmallV1(OUTER_TYPE_DISCONNECTION, OUTER_FIELD_DISCONNECTION, EncodeFields(fields));
    OfflineRoundTrip(OUTER_TYPE_DISCONNECTION, OUTER_FIELD_DISCONNECTION, EncodeFields(fields));
    GatherEncoded(Wants({1, 2}, {}), fields);
    if f.request.Some? { LastScalarAt(fields, 0); } else { LastScalarNone(fields, 1); }
    if f.ack.Some? { LastScalarAt(fields, |fields| - 1); } else { LastScalarNone(fields, 2); }
  }

  datatype DisconnectAction = CloseNow | MarkedAndNotified | MarkedAndReply(reply: DisconnectionFrame)

  function Decision(f: DisconnectionFrame): DisconnectAction {
    if f.request == Some(true) then
      if f.ack == Some(true) then MarkedAndNotified
      else MarkedAndReply(DisconnectionFrame(Some(true), Some(true)))
    else CloseNow
  }

  /** The handshake of a safe disconnect ends: the reply to a request never asks for another. */
  lemma ReplyNeedsNoReply(f: DisconnectionFrame)
    requires Decision(f).MarkedAndReply?
    ensures DecodeDisconnection(EncodeDisconnection(Decision(f).reply)).Ok?
    ensures Decision(DecodeDisconnection(EncodeDisconnection(Decision(f).reply)).value) == MarkedAndNotified
  {
    DisconnectionRoundTrip(Decision(f).reply);
  }

  // ---------------------------------------------------------------- three decoders, one type

  /** No byte string is a payload frame and a keep-alive, or either and a disconnection. */
  lemma OuterDecodersDisjoint(buf: Bytes)
    ensures !(Payload.DecodeTransfer(buf).Ok? && DecodeKeepAlive(buf).Ok?)
    ensures !(Payload.DecodeTransfer(buf).Ok? && DecodeDisconnection(buf).Ok?)
    ensures !(DecodeKeepAlive(buf).Ok? && DecodeDisconnection(buf).Ok?)
  {
    hide OuterV1, Run;
    TypeIndependentOfBody(buf, Payload.FIELD_PAYLOAD_TRANSFER, OUTER_FIELD_KEEP_ALIVE);
    TypeIndependentOfBody(buf, OUTER_FIELD_KEEP_ALIVE, OUTER_FIELD_DISCONNECTION);
  }

  /** Unknown fields after the version field change none of the three decoders. */
  lemma OuterDecodersSkipUnknown(pre: Bytes, a: Bytes, u: Bytes, b: Bytes)
    requires ReadVersion(pre) == Ok([]) && Fields(a).Ok? && Fields(u).Ok?
    requires forall i :: 0 <= i < |Fields(u).value| ==> !IsBlob(Fields(u).value[i], 2)
    ensures Payload.DecodeTransfer(pre + (a + u + b)) == Payload.DecodeTransfer(pre + (a + b))
    ensures DecodeKeepAlive(pre + (a + u + b)) == DecodeKeepAlive(pre + (a + b))
    ensures DecodeDisconnection(pre + (a + u + b)) == DecodeDisconnection(pre + (a + b))
  {
    hide OuterV1, Run, Gather, ReadVersion, Fields;
    OuterSkipsUnknown(pre, a, u, b, Payload.FIELD_PAYLOAD_TRANSFER);
    OuterSkipsUnknown(pre, a, u, b, OUTER_FIELD_KEEP_ALIVE);
    OuterSkipsUnknown(pre, a, u, b, OUTER_FIELD_DISCONNECTION);
  }

  /** Inside the transfer body only fields 1 (scalar), 2 and 3 (bytes) are looked at. */
  predicate UnknownToTransfer(f: Field) {
    !IsScalar(f, 1) && !IsBlob(f, 2) && !IsBlob(f, 3)
  }

  lemma TransferBodySkipsUnknown(a: Bytes, u: Bytes, b: Bytes)
    requires Fields(a).Ok? && Fields(u).Ok?
    requires forall i :: 0 <= i < |Fields(u).value| ==> UnknownToTransfer(Fields(u).value[i])
    ensures Payload.DecodeBody(a + u + b) == Payload.DecodeBody(a + b)
  {
    hide Run, Fields, Payload.DecodeHeader, Payload.DecodeChunk;
    assert Ignores(Payload.TransferStep, Fields(u).value);
    UnknownFieldsSkipped(Payload.TransferStep, Payload.TransferSlots(None, None, None), a, u, b);
  }

  // ---------------------------------------------------------------- paired-key result

  datatype PairedKeyStatus = Unknown | Success | Fail | Unable

  datatype PairedKeyResult = PairedKeyResult(status: PairedKeyStatus, osType: Option<i32>)

  function StatusCode(s: PairedKeyStatus): i64 {
    match s case Unknown => 0 case Success => 1 case Fail => 2 case Unable => 3
  }

  function StatusFrom(v: i64): (r: Result<PairedKeyStatus>)
    ensures r.Ok? ==> StatusCode(r.value) == v
  {
    if v == 0 then Ok(Unknown) else if v == 1 then Ok(Success)
    else if v == 2 then Ok(Fail) else if v == 3 then Ok(Unable) else Err(InvalidFrame)
  }

  function ResultFields(p: PairedKeyResult): seq<Field> {
    [Scalar(1, AsU64(StatusCode(p.status)))] + (if p.osType.Some? then [Scalar(2, AsU64(p.osType.value))] else [])
  }

  function EncodePairedKeyResult(p: PairedKeyResult): Bytes {
    EncodeOffline(INNER_TYPE_PAIRED_KEY_RESULT, INNER_FIELD_PAIRED_KEY_RESULT, EncodeFields(ResultFields(p)))
  }

  datatype ResultSlots = ResultSlots(status: Option<PairedKeyStatus>, osType: Option<i32>)

  function ResultStep(s: ResultSlots, f: Field): (r: Result<ResultSlots>) {
    if IsScalar(f, 1) then
      var st :- StatusFrom(AsI64(f.v));
      Ok(s.(status := Some(st)))
    else if IsScalar(f, 2) then
      if f.v < TWO_31 then Ok(s.(osType := Some(f.v))) else Err(InvalidFrame)
    else Ok(s)
  }

  function DecodePairedKeyResult(buf: Bytes): (r: Result<PairedKeyResult>) {
    var (frameType, body) :- OuterV1(buf, INNER_FIELD_PAIRED_KEY_RESULT);
    if AsI64(frameType) != INNER_TYPE_PAIRED_KEY_RESULT then Err(UnsupportedFeature)
    else if body.None? then Err(InvalidFrame)
    else
      var s :- Run(ResultStep, ResultSlots(None, None), body.value);
      if s.status.None? then Err(InvalidFrame) else Ok(PairedKeyResult(s.status.value, s.osType))
  }

  /** The printer sign-extends a negative operating-system type, the parser refuses it:
      the frame round-trips exactly when the type is absent or not negative. */
  lemma PairedKeyResultRoundTrip(p: PairedKeyResult)
    ensures DecodePairedKeyResult(EncodePairedKeyResult(p)) ==
            if p.osType.Some? && p.osType.value < 0 then Err(InvalidFrame) else Ok(p)
  {
    hide Run, EncodeFields, OuterV1;
    var fields, s0 := ResultFields(p), ResultSlots(None, None);
    ShortScalars(fields);
    SmallV1(INNER_TYPE_PAIRED_KEY_RESULT, INNER_FIELD_PAIRED_KEY_RESULT, EncodeFields(fields));
    OfflineRoundTrip(INNER_TYPE_PAIRED_KEY_RESULT, INNER_FIELD_PAIRED_KEY_RESULT, EncodeFields(fields));
    RunOfEncoded(ResultStep, s0, fields);
    ResultAbsorbed(p);
  }

  lemma ResultAbsorbed(p: PairedKeyResult)
    ensures Absorb(ResultStep, ResultSlots(None, None), ResultFields(p)) ==
            if p.osType.Some? && p.osType.value < 0 then Err(InvalidFrame)
            else Ok(ResultSlots(Some(p.status), p.osType))
  {
    var fields, s0, s1 := ResultFields(p), ResultSlots(None, None), ResultSlots(Some(p.status), None);
    var first := fields[0];
    AbsorbOne(ResultStep, s0, first);
    if p.osType.Some? {
      AbsorbOne(ResultStep, s1, fields[1]);
      AbsorbAppend(ResultStep, s0, [first], [fields[1]]);
    } else {
      assert fields == [first];
    }
  }
}
