/** What the decoders of the outer frames say to frames that are not for them, of another version,
    incomplete, or too long. */
module FrameAnswers {
  import opened Prelude
  import opened Wire
  import opened Messages
  import opened Offline
  import opened ControlFrames
  import Payload

  // ---------------------------------------------------------------- in front of everything

  /** The four decoders on the same bytes all fail with `code`. */
  ghost predicate AllFail(buf: Bytes, code: ErrorCode) {
    && Payload.DecodeTransfer(buf) == Err(code) && DecodeKeepAlive(buf) == Err(code)
    && DecodeDisconnection(buf) == Err(code) && DecodePairedKeyResult(buf) == Err(code)
  }

  lemma VersionFails(buf: Bytes, code: ErrorCode)
    requires ReadVersion(buf) == Err(code)
    ensures AllFail(buf, code)
  {
    hide ReadVersion, Gather, Run;
  }

  /** A frame of another version is told apart from one that does not begin with a version, and
      neither is looked into. */
  lemma VersionAnswer(f: Field, more: Bytes)
    requires LegalField(f)
    ensures f.num == 1 && f.Scalar? && f.v != 1 ==> AllFail(EncodeField(f) + more, VersionUnsupported)
    ensures !(f.num == 1 && f.Scalar?) ==> AllFail(EncodeField(f) + more, InvalidFrame)
  {
    hide AllFail, Varint, ReadVarint;
    var buf := EncodeField(f) + more;
    Assoc(Varint(KeyOf(f)), EncodeBody(f), more);
    KeyRoundTrip(f, EncodeBody(f) + more);
    if f.num == 1 && f.Scalar? {
      VarintRoundTrip(f.v, more);
      if f.v != 1 {
        VersionFails(buf, VersionUnsupported);
      }
    } else {
      VersionFails(buf, InvalidFrame);
    }
  }

  // ---------------------------------------------------------------- by type

  /** What each decoder makes of a frame of this type. Each takes its own; the others it does not
      support - only to the keep-alive decoder a paired-key encryption is invalid. */
  lemma TypeAnswer(frameType: u64, field: u32, body: Bytes)
    requires field > 0 && |V1Bytes(frameType, field, body)| <= MAX_FIELD_BYTES
    ensures var buf := EncodeOffline(frameType, field, body);
            && (frameType != 3 ==> Payload.DecodeTransfer(buf) == Err(UnsupportedFeature))
            && (frameType != 5 ==>
                  DecodeKeepAlive(buf) == Err(if frameType == 3 then InvalidFrame else UnsupportedFeature))
            && (frameType != 6 ==> DecodeDisconnection(buf) == Err(UnsupportedFeature))
            && (frameType != 4 ==> DecodePairedKeyResult(buf) == Err(UnsupportedFeature))
  {
    hide OuterV1, EncodeOffline, Run, Gather, V1Bytes;
    var buf := EncodeOffline(frameType, field, body);
    OfflineRoundTrip(frameType, field, body);
    TypeIndependentOfBody(buf, field, Payload.FIELD_PAYLOAD_TRANSFER);
    TypeIndependentOfBody(buf, field, OUTER_FIELD_KEEP_ALIVE);
    TypeIndependentOfBody(buf, field, OUTER_FIELD_DISCONNECTION);
    TypeIndependentOfBody(buf, field, INNER_FIELD_PAIRED_KEY_RESULT);
  }

  /** A frame of the right type that carries another body has none for its decoder. */
  lemma NoBodyAnswer(frameType: u64, field: u32, body: Bytes)
    requires field > 0 && |V1Bytes(frameType, field, body)| <= MAX_FIELD_BYTES
    ensures var buf := EncodeOffline(frameType, field, body);
            && (frameType == 3 && field != 4 ==> Payload.DecodeTransfer(buf) == Err(InvalidFrame))
            && (frameType == 5 && field != 6 ==> DecodeKeepAlive(buf) == Err(InvalidFrame))
            && (frameType == 6 && field != 7 ==> DecodeDisconnection(buf) == Err(InvalidFrame))
            && (frameType == 4 && field != 5 ==> DecodePairedKeyResult(buf) == Err(InvalidFrame))
  {
    hide OuterV1, EncodeOffline, Run, Gather, V1Bytes;
    OtherBody(frameType, field, body, 4);
    OtherBody(frameType, field, body, 6);
    OtherBody(frameType, field, body, 7);
    OtherBody(frameType, field, body, 5);
  }

  lemma OtherBody(frameType: u64, field: u32, body: Bytes, sought: u32)
    requires field > 0 && sought > 0 && |V1Bytes(frameType, field, body)| <= MAX_FIELD_BYTES
    ensures field != sought ==> OuterV1(EncodeOffline(frameType, field, body), sought) == Ok((frameType, None))
  {
    hide Gather, EncodeFields;
    var v1 := [Scalar(1, frameType), Blob(field, body)];
    var outer := [Blob(2, EncodeFields(v1))];
    V1Inside(frameType, field, body);
    GatherEncoded(Wants({}, {2}), outer);
    LastBlobAt(outer, 0);
    BodyFits(v1);
    GatherEncoded(Wants({1}, {sought}), v1);
    LastScalarAt(v1, 0);
    if field != sought {
      LastBlobNone(v1, sought);
    }
  }

  lemma V1Inside(frameType: u64, field: u32, body: Bytes)
    ensures ReadVersion(EncodeOffline(frameType, field, body)) ==
            Ok(EncodeFields([Blob(2, V1Bytes(frameType, field, body))]))
  {
    var outer := [Blob(2, V1Bytes(frameType, field, body))];
    var whole := [Scalar(1, VERSION_V1)] + outer;
    VersionWritten();
    VersionLocal(EncodeField(Scalar(1, VERSION_V1)), EncodeFields(outer));
    assert whole[1..] == outer;
  }

  // ---------------------------------------------------------------- limits

  /** A length over the limit is refused whether or not the bytes are there; one within it, when
      they are not. */
  lemma LengthAnswer(len: u64, more: Bytes)
    ensures len > MAX_FIELD_BYTES ==> ReadBlob(Varint(len) + more) == Err(ResourceLimit)
    ensures len <= MAX_FIELD_BYTES && len > |more| ==> ReadBlob(Varint(len) + more) == Err(InvalidFrame)
  {
    hide Varint, ReadVarint;
    VarintRoundTrip(len, more);
  }

  /** A frame is not printed exactly when its chunk is over the printer's limit. */
  lemma PrintAnswer(f: Payload.TransferFrame)
    ensures Payload.EncodeTransfer(f) == Err(ResourceLimit)
            <==> f.chunk.Some? && |f.chunk.value.body| > 4 * 1024 * 1024
  {
    hide EncodeOffline, Payload.TransferFields, EncodeFields;
  }

  /** A keep-alive whose number does not fit 32 bits is invalid, and one that does is read. */
  lemma SequenceAnswer(n: u64)
    ensures DecodeKeepAlive(EncodeOffline(5, 6, EncodeFields([Scalar(2, n)]))) ==
            if n < TWO_32 then Ok(KeepAliveFrame(false, n)) else Err(InvalidFrame)
  {
    hide EncodeOffline, OuterV1, Run, EncodeFields;
    var fields := [Scalar(2, n)];
    ShortScalars(fields);
    SmallV1(5, 6, EncodeFields(fields));
    OfflineRoundTrip(5, 6, EncodeFields(fields));
    RunOfEncoded(KeepAliveStep, KeepAliveFrame(false, 0), fields);
    AbsorbOne(KeepAliveStep, KeepAliveFrame(false, 0), Scalar(2, n));
  }

  /** What is done about a disconnection: one that asks for nothing closes at once, one that is
      acknowledged is noted, and one that is not is answered. */
  lemma DisconnectAnswer(f: DisconnectionFrame)
    ensures Decision(f) == CloseNow <==> f.request != Some(true)
    ensures Decision(f) == MarkedAndNotified <==> f.request == Some(true) && f.ack == Some(true)
    ensures Decision(f).MarkedAndReply? ==> Decision(f).reply == DisconnectionFrame(Some(true), Some(true))
  {
  }
}
