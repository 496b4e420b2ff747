/** What the field loops of the Quick Share codecs make of repeated and of unknown fields.
    When a loop that decodes as it goes ends well, its input was whole fields and each slot
    holds the decoded value of the last field that fills it; and on every nesting level,
    fields without an arm change nothing. */
module FieldLoops {
  import opened Prelude
  import opened Wire
  import opened Messages
  import opened Offline
  import opened ControlFrames
  import P = Payload
  import U = Ukey2Wire
  import SecureChannel

  /** The value of a slot after a loop: decoded from the last field that fills it, if there
      was one, and otherwise what it was before. */
  ghost predicate Decoded<A, T>(last: Option<A>, decode: A -> Result<T>, before: Option<T>, now: Option<T>) {
    match last
    case None => now == before
    case Some(a) => now.Some? && decode(a) == Ok(now.value)
  }

  function Number(v: u64): Result<u64> {
    Ok(v)
  }

  function Signed64(v: u64): Result<i64> {
    Ok(AsI64(v))
  }

  function Signed32(v: u64): Result<i32> {
    Ok(AsI32(v))
  }

  function Raw(data: Bytes): Result<Bytes> {
    Ok(data)
  }

  /** One more field in front: it counts only where no later one does. */
  lemma LastCons(f: Field, fields: seq<Field>, num: u32)
    ensures LastScalar([f] + fields, num) == Or(LastScalar(fields, num), if IsScalar(f, num) then Some(f.v) else None)
    ensures LastBlob([f] + fields, num) == Or(LastBlob(fields, num), if IsBlob(f, num) then Some(f.data) else None)
  {
    assert ([f] + fields)[1..] == fields;
  }

  /** What holds of no fields, and of one more field in front, holds of all that were read. */
  lemma {:induction false} LastWins<S(!new)>(step: (S, Field) -> Result<S>, holds: (S, seq<Field>, S) -> bool, s0: S,
      buf: Bytes)
    requires Run(step, s0, buf).Ok?
    requires forall s: S :: holds(s, [], s)
    requires forall s: S, f: Field, fields: seq<Field>, t: S ::
               step(s, f).Ok? && holds(step(s, f).value, fields, t) ==> holds(s, [f] + fields, t)
    ensures Fields(buf).Ok? && holds(s0, Fields(buf).value, Run(step, s0, buf).value)
    decreases |buf|
  {
    if buf == [] {
    } else {
      hide ReadField;
      var (f, rest) := ReadField(buf).value;
      LastWins(step, holds, step(s0, f).value, rest);
      assert Fields(buf).value == [f] + Fields(rest).value;
    }
  }

  // ---------------------------------------------------------------- payload header

  function KindOf(v: u64): Result<P.PayloadKind> {
    P.KindFrom(AsI64(v))
  }

  /** The header of a payload. */
  ghost predicate HeaderHolds(s0: P.HeaderSlots, fields: seq<Field>, s: P.HeaderSlots) {
    && Decoded(LastScalar(fields, 1), Signed64, s0.id, s.id)
    && Decoded(LastScalar(fields, 2), KindOf, s0.kind, s.kind)
    && Decoded(LastScalar(fields, 3), Number, s0.totalSize, s.totalSize)
    && Decoded(LastBlob(fields, 5), P.ReadText, s0.fileName, s.fileName)
    && Decoded(LastBlob(fields, 6), P.ReadText, s0.parentFolder, s.parentFolder)
  }

  lemma HeaderCons(s0: P.HeaderSlots, f: Field, fields: seq<Field>, s: P.HeaderSlots)
    requires P.HeaderStep(s0, f).Ok? && HeaderHolds(P.HeaderStep(s0, f).value, fields, s)
    ensures HeaderHolds(s0, [f] + fields, s)
  {
    hide LastScalar, LastBlob, P.ReadText, P.KindFrom;
    LastCons(f, fields, 1);
    LastCons(f, fields, 2);
    LastCons(f, fields, 3);
    LastCons(f, fields, 5);
    LastCons(f, fields, 6);
  }

  lemma HeaderLastWins(s0: P.HeaderSlots, buf: Bytes)
    requires Run(P.HeaderStep, s0, buf).Ok?
    ensures Fields(buf).Ok? && HeaderHolds(s0, Fields(buf).value, Run(P.HeaderStep, s0, buf).value)
  {
    hide Run, P.HeaderStep;
    forall s: P.HeaderSlots, f: Field, fields: seq<Field>, t: P.HeaderSlots |
      P.HeaderStep(s, f).Ok? && HeaderHolds(P.HeaderStep(s, f).value, fields, t)
      ensures HeaderHolds(s, [f] + fields, t)
    {
      HeaderCons(s, f, fields, t);
    }
    LastWins(P.HeaderStep, HeaderHolds, s0, buf);
  }

  // ---------------------------------------------------------------- payload body

  function PacketOf(v: u64): Result<P.PacketType> {
    P.PacketFrom(AsI64(v))
  }

  /** The body of a payload frame, whose header and chunk are themselves decoded. */
  ghost predicate TransferHolds(s0: P.TransferSlots, fields: seq<Field>, s: P.TransferSlots) {
    && Decoded(LastScalar(fields, 1), PacketOf, s0.packetType, s.packetType)
    && Decoded(LastBlob(fields, 2), P.DecodeHeader, s0.header, s.header)
    && Decoded(LastBlob(fields, 3), P.DecodeChunk, s0.chunk, s.chunk)
  }

  lemma TransferCons(s0: P.TransferSlots, f: Field, fields: seq<Field>, s: P.TransferSlots)
    requires P.TransferStep(s0, f).Ok? && TransferHolds(P.TransferStep(s0, f).value, fields, s)
    ensures TransferHolds(s0, [f] + fields, s)
  {
    hide LastScalar, LastBlob, P.DecodeHeader, P.DecodeChunk, P.PacketFrom;
    LastCons(f, fields, 1);
    LastCons(f, fields, 2);
    LastCons(f, fields, 3);
  }

  lemma TransferLastWins(s0: P.TransferSlots, buf: Bytes)
    requires Run(P.TransferStep, s0, buf).Ok?
    ensures Fields(buf).Ok? && TransferHolds(s0, Fields(buf).value, Run(P.TransferStep, s0, buf).value)
  {
    hide Run, P.TransferStep;
    forall s: P.TransferSlots, f: Field, fields: seq<Field>, t: P.TransferSlots |
      P.TransferStep(s, f).Ok? && TransferHolds(P.TransferStep(s, f).value, fields, t)
      ensures TransferHolds(s, [f] + fields, t)
    {
      TransferCons(s, f, fields, t);
    }
    LastWins(P.TransferStep, TransferHolds, s0, buf);
  }

  // ---------------------------------------------------------------- keep-alive

  function Flag(v: u64): Result<bool> {
    Ok(v != 0)
  }

  function Narrow(v: u64): Result<u32> {
    if v < TWO_32 then Ok(v) else Err(InvalidFrame)
  }

  /** A keep-alive frame, whose slots start with a value. */
  ghost predicate KeepAliveHolds(s0: KeepAliveFrame, fields: seq<Field>, s: KeepAliveFrame) {
    && Decoded(LastScalar(fields, 1), Flag, Some(s0.ack), Some(s.ack))
    && Decoded(LastScalar(fields, 2), Narrow, Some(s0.seqNum), Some(s.seqNum))
  }

  lemma KeepAliveCons(s0: KeepAliveFrame, f: Field, fields: seq<Field>, s: KeepAliveFrame)
    requires KeepAliveStep(s0, f).Ok? && KeepAliveHolds(KeepAliveStep(s0, f).value, fields, s)
    ensures KeepAliveHolds(s0, [f] + fields, s)
  {
    hide LastScalar, LastBlob;
    LastCons(f, fields, 1);
    LastCons(f, fields, 2);
  }

  lemma KeepAliveLastWins(s0: KeepAliveFrame, buf: Bytes)
    requires Run(KeepAliveStep, s0, buf).Ok?
    ensures Fields(buf).Ok? && KeepAliveHolds(s0, Fields(buf).value, Run(KeepAliveStep, s0, buf).value)
  {
    hide Run, KeepAliveStep;
    forall s: KeepAliveFrame, f: Field, fields: seq<Field>, t: KeepAliveFrame |
      KeepAliveStep(s, f).Ok? && KeepAliveHolds(KeepAliveStep(s, f).value, fields, t)
      ensures KeepAliveHolds(s, [f] + fields, t)
    {
      KeepAliveCons(s, f, fields, t);
    }
    LastWins(KeepAliveStep, KeepAliveHolds, s0, buf);
  }

  // ---------------------------------------------------------------- paired-key result

  function StatusOf(v: u64): Result<PairedKeyStatus> {
    StatusFrom(AsI64(v))
  }

  function OsType(v: u64): Result<i32> {
    if v < TWO_31 then Ok(v) else Err(InvalidFrame)
  }

  /** A paired-key result. */
  ghost predicate ResultHolds(s0: ResultSlots, fields: seq<Field>, s: ResultSlots) {
    && Decoded(LastScalar(fields, 1), StatusOf, s0.status, s.status)
    && Decoded(LastScalar(fields, 2), OsType, s0.osType, s.osType)
  }

  lemma ResultCons(s0: ResultSlots, f: Field, fields: seq<Field>, s: ResultSlots)
    requires ResultStep(s0, f).Ok? && ResultHolds(ResultStep(s0, f).value, fields, s)
    ensures ResultHolds(s0, [f] + fields, s)
  {
    hide LastScalar, LastBlob, StatusFrom;
    LastCons(f, fields, 1);
    LastCons(f, fields, 2);
  }

  lemma ResultLastWins(s0: ResultSlots, buf: Bytes)
    requires Run(ResultStep, s0, buf).Ok?
    ensures Fields(buf).Ok? && ResultHolds(s0, Fields(buf).value, Run(ResultStep, s0, buf).value)
  {
    hide Run, ResultStep;
    forall s: ResultSlots, f: Field, fields: seq<Field>, t: ResultSlots |
      ResultStep(s, f).Ok? && ResultHolds(ResultStep(s, f).value, fields, t)
      ensures ResultHolds(s, [f] + fields, t)
    {
      ResultCons(s, f, fields, t);
    }
    LastWins(ResultStep, ResultHolds, s0, buf);
  }

  // ---------------------------------------------------------------- UKEY2 envelope

  function TypeOf(v: u64): Result<U.MessageType> {
    U.TypeFrom(AsI32(v))
  }

  /** The outer UKEY2 message. */
  ghost predicate EnvelopeHolds(s0: U.EnvelopeSlots, fields: seq<Field>, s: U.EnvelopeSlots) {
    && Decoded(LastScalar(fields, 1), TypeOf, s0.messageType, s.messageType)
    && Decoded(LastBlob(fields, 2), Raw, s0.data, s.data)
  }

  lemma EnvelopeCons(s0: U.EnvelopeSlots, f: Field, fields: seq<Field>, s: U.EnvelopeSlots)
    requires U.EnvelopeStep(s0, f).Ok? && EnvelopeHolds(U.EnvelopeStep(s0, f).value, fields, s)
    ensures EnvelopeHolds(s0, [f] + fields, s)
  {
    hide LastScalar, LastBlob, U.TypeFrom;
    LastCons(f, fields, 1);
    LastCons(f, fields, 2);
  }

  lemma EnvelopeLastWins(s0: U.EnvelopeSlots, buf: Bytes)
    requires Run(U.EnvelopeStep, s0, buf).Ok?
    ensures Fields(buf).Ok? && EnvelopeHolds(s0, Fields(buf).value, Run(U.EnvelopeStep, s0, buf).value)
  {
    hide Run, U.EnvelopeStep;
    forall s: U.EnvelopeSlots, f: Field, fields: seq<Field>, t: U.EnvelopeSlots |
      U.EnvelopeStep(s, f).Ok? && EnvelopeHolds(U.EnvelopeStep(s, f).value, fields, t)
      ensures EnvelopeHolds(s, [f] + fields, t)
    {
      EnvelopeCons(s, f, fields, t);
    }
    LastWins(U.EnvelopeStep, EnvelopeHolds, s0, buf);
  }

  // ---------------------------------------------------------------- generic public key

  /** A generic public key. */
  ghost predicate KeyHolds(s0: U.KeySlots, fields: seq<Field>, s: U.KeySlots) {
    && Decoded(LastScalar(fields, 1), Signed32, s0.keyType, s.keyType)
    && Decoded(LastBlob(fields, 2), SecureChannel.DecodePair, s0.coords, s.coords)
  }

  lemma KeyCons(s0: U.KeySlots, f: Field, fields: seq<Field>, s: U.KeySlots)
    requires U.KeyStep(s0, f).Ok? && KeyHolds(U.KeyStep(s0, f).value, fields, s)
    ensures KeyHolds(s0, [f] + fields, s)
  {
    hide LastScalar, LastBlob, SecureChannel.DecodePair;
    LastCons(f, fields, 1);
    LastCons(f, fields, 2);
  }

  lemma KeyLastWins(s0: U.KeySlots, buf: Bytes)
    requires Run(U.KeyStep, s0, buf).Ok?
    ensures Fields(buf).Ok? && KeyHolds(s0, Fields(buf).value, Run(U.KeyStep, s0, buf).value)
  {
    hide Run, U.KeyStep;
    forall s: U.KeySlots, f: Field, fields: seq<Field>, t: U.KeySlots |
      U.KeyStep(s, f).Ok? && KeyHolds(U.KeyStep(s, f).value, fields, t)
      ensures KeyHolds(s, [f] + fields, t)
    {
      KeyCons(s, f, fields, t);
    }
    LastWins(U.KeyStep, KeyHolds, s0, buf);
  }

  // ---------------------------------------------------------------- ClientInit

  /** The commitments of a ClientInit are all kept, in order. */
  ghost predicate Collected(fields: seq<Field>, before: seq<U.Commitment>, now: seq<U.Commitment>)
    decreases |fields|
  {
    if fields == [] then now == before
    else if IsBlob(fields[0], 3) then
      U.DecodeCommitment(fields[0].data).Ok?
      && Collected(fields[1..], before + [U.DecodeCommitment(fields[0].data).value], now)
    else Collected(fields[1..], before, now)
  }

  lemma CollectedCons(f: Field, fields: seq<Field>, before: seq<U.Commitment>, now: seq<U.Commitment>)
    ensures Collected([f] + fields, before, now) <==>
            if IsBlob(f, 3) then
              U.DecodeCommitment(f.data).Ok? && Collected(fields, before + [U.DecodeCommitment(f.data).value], now)
            else Collected(fields, before, now)
  {
    hide U.DecodeCommitment;
    assert ([f] + fields)[1..] == fields;
  }

  ghost predicate ClientInitHolds(s0: U.ClientInitSlots, fields: seq<Field>, s: U.ClientInitSlots) {
    && Decoded(LastScalar(fields, 1), Signed32, s0.version, s.version)
    && Decoded(LastBlob(fields, 2), Raw, s0.random, s.random)
    && Collected(fields, s0.commitments, s.commitments)
    && Decoded(LastBlob(fields, 4), P.ReadText, s0.nextProtocol, s.nextProtocol)
  }

  lemma ClientInitCons(s0: U.ClientInitSlots, f: Field, fields: seq<Field>, s: U.ClientInitSlots)
    requires U.ClientInitStep(s0, f).Ok? && ClientInitHolds(U.ClientInitStep(s0, f).value, fields, s)
    ensures ClientInitHolds(s0, [f] + fields, s)
  {
    hide LastScalar, LastBlob, Collected, U.DecodeCommitment, P.ReadText;
    LastCons(f, fields, 1);
    LastCons(f, fields, 2);
    LastCons(f, fields, 4);
    CollectedCons(f, fields, s0.commitments, s.commitments);
  }

  lemma ClientInitLastWins(s0: U.ClientInitSlots, buf: Bytes)
    requires Run(U.ClientInitStep, s0, buf).Ok?
    ensures Fields(buf).Ok? && ClientInitHolds(s0, Fields(buf).value, Run(U.ClientInitStep, s0, buf).value)
  {
    hide Run, U.ClientInitStep;
    forall s: U.ClientInitSlots, f: Field, fields: seq<Field>, t: U.ClientInitSlots |
      U.ClientInitStep(s, f).Ok? && ClientInitHolds(U.ClientInitStep(s, f).value, fields, t)
      ensures ClientInitHolds(s, [f] + fields, t)
    {
      ClientInitCons(s, f, fields, t);
    }
    LastWins(U.ClientInitStep, ClientInitHolds, s0, buf);
  }

  // ---------------------------------------------------------------- unknown fields, level by level

  ghost predicate NoneOf(u: Bytes, scalars: set<u32>, blobs: set<u32>)
    requires Fields(u).Ok?
  {
    forall i :: 0 <= i < |Fields(u).value| ==>
      !(Fields(u).value[i].Scalar? && Fields(u).value[i].num in scalars)
      && !(Fields(u).value[i].Blob? && Fields(u).value[i].num in blobs)
  }

  /** A V1Frame inside a frame whose version is right is what the frame is decoded by. */
  lemma OuterOfV1(pre: Bytes, v1: Bytes, field: u32)
    requires ReadVersion(pre) == Ok([]) && |v1| <= MAX_FIELD_BYTES
    ensures OuterV1(pre + EncodeField(Blob(2, v1)), field) == DecodeV1(v1, field)
  {
    hide ReadVersion, DecodeV1, EncodeField;
    var outer := [Blob(2, v1)];
    VersionLocal(pre, EncodeField(Blob(2, v1)));
    SecureChannel.OneFieldWritten(outer[0]);
    GatherEncoded(Wants({}, {2}), outer);
    LastBlobAt(outer, 0);
  }

  lemma V1SkipsUnknown(a: Bytes, u: Bytes, b: Bytes, field: u32)
    requires Fields(a).Ok? && Fields(u).Ok? && NoneOf(u, {1}, {field})
    ensures DecodeV1(a + u + b, field) == DecodeV1(a + b, field)
  {
    hide Gather, Fields;
    GatherSkipsUnknown(Wants({1}, {field}), a, u, b);
  }

  lemma HeaderSkipsUnknown(a: Bytes, u: Bytes, b: Bytes)
    requires Fields(a).Ok? && Fields(u).Ok? && NoneOf(u, {1, 2, 3}, {5, 6})
    ensures P.DecodeHeader(a + u + b) == P.DecodeHeader(a + b)
  {
    hide Run, Fields, P.ReadText, P.KindFrom;
    assert Ignores(P.HeaderStep, Fields(u).value);
    UnknownFieldsSkipped(P.HeaderStep, P.NO_HEADER, a, u, b);
  }

  lemma ChunkSkipsUnknown(a: Bytes, u: Bytes, b: Bytes)
    requires Fields(a).Ok? && Fields(u).Ok? && NoneOf(u, {1, 2}, {3})
    ensures P.DecodeChunk(a + u + b) == P.DecodeChunk(a + b)
  {
    hide Gather, Fields;
    GatherSkipsUnknown(Wants({1, 2}, {3}), a, u, b);
  }

  lemma KeepAliveSkipsUnknown(s: KeepAliveFrame, a: Bytes, u: Bytes, b: Bytes)
    requires Fields(a).Ok? && Fields(u).Ok? && NoneOf(u, {1, 2}, {})
    ensures Run(KeepAliveStep, s, a + u + b) == Run(KeepAliveStep, s, a + b)
  {
    hide Run, Fields;
    assert Ignores(KeepAliveStep, Fields(u).value);
    UnknownFieldsSkipped(KeepAliveStep, s, a, u, b);
  }

  lemma DisconnectionSkipsUnknown(a: Bytes, u: Bytes, b: Bytes)
    requires Fields(a).Ok? && Fields(u).Ok? && NoneOf(u, {1, 2}, {})
    ensures DisconnectionBody(a + u + b) == DisconnectionBody(a + b)
  {
    hide Gather, Fields;
    GatherSkipsUnknown(Wants({1, 2}, {}), a, u, b);
  }

  lemma EnvelopeSkipsUnknown(a: Bytes, u: Bytes, b: Bytes)
    requires Fields(a).Ok? && Fields(u).Ok? && NoneOf(u, {1}, {2})
    ensures U.DecodeMessage(a + u + b) == U.DecodeMessage(a + b)
  {
    hide Run, Fields, U.TypeFrom;
    assert Ignores(U.EnvelopeStep, Fields(u).value);
    UnknownFieldsSkipped(U.EnvelopeStep, U.EnvelopeSlots(None, None), a, u, b);
  }

  lemma ClientInitSkipsUnknown(a: Bytes, u: Bytes, b: Bytes)
    requires Fields(a).Ok? && Fields(u).Ok? && NoneOf(u, {1}, {2, 3, 4})
    ensures U.DecodeClientInit(a + u + b) == U.DecodeClientInit(a + b)
  {
    hide Run, Fields, U.DecodeCommitment, P.ReadText;
    assert Ignores(U.ClientInitStep, Fields(u).value);
    UnknownFieldsSkipped(U.ClientInitStep, U.NO_CLIENT_INIT, a, u, b);
  }
}
