/** The payload layer of proto-quickshare/src/payload.rs: the nested frame codec and the
    checks of the assembler. */
module Payload {
  import opened Prelude
  import opened Wire
  import opened Messages
  import opened Offline

  const FLAG_LAST_CHUNK: i32 := 1
  const MAX_CHUNK_BYTES: nat := 4 * 1024 * 1024
  const TYPE_PAYLOAD_TRANSFER: u64 := 3
  const FIELD_PAYLOAD_TRANSFER: u32 := 4

  // ---------------------------------------------------------------- text

  predicate Continuation(b: byte) {
    0x80 <= b <= 0xBF
  }

  /** Length of the well-formed UTF-8 sequence in front, or 0 (Unicode, table 3-7). */
  function Utf8Head(b: Bytes): (n: nat)
    requires b != []
    ensures n <= |b|
  {
    var x := b[0];
    if x <= 0x7F then 1
    else if |b| < 2 then 0
    else if 0xC2 <= x <= 0xDF then (if Continuation(b[1]) then 2 else 0)
    else if |b| < 3 || !Continuation(b[2]) then 0
    else if x == 0xE0 then (if 0xA0 <= b[1] <= 0xBF then 3 else 0)
    else if x == 0xED then (if 0x80 <= b[1] <= 0x9F then 3 else 0)
    else if 0xE1 <= x <= 0xEF then (if Continuation(b[1]) then 3 else 0)
    else if |b| < 4 || !Continuation(b[3]) then 0
    else if x == 0xF0 then (if 0x90 <= b[1] <= 0xBF then 4 else 0)
    else if 0xF1 <= x <= 0xF3 then (if Continuation(b[1]) then 4 else 0)
    else if x == 0xF4 then (if 0x80 <= b[1] <= 0x8F then 4 else 0)
    else 0
  }

  predicate ValidUtf8(b: Bytes)
    decreases |b|
  {
    b == [] || (Utf8Head(b) > 0 && ValidUtf8(b[Utf8Head(b)..]))
  }

  type Text = b: Bytes | ValidUtf8(b) witness []

  function ReadText(b: Bytes): (r: Result<Text>) {
    if ValidUtf8(b) then Ok(b) else Err(InvalidFrame)
  }

  // ---------------------------------------------------------------- frames

  datatype PayloadKind = BytesKind | FileKind | StreamKind
  datatype PacketType = Data | Control | PayloadAck

  function KindCode(k: PayloadKind): i64 {
    match k case BytesKind => 1 case FileKind => 2 case StreamKind => 3
  }

  function KindFrom(v: i64): (r: Result<PayloadKind>)
    ensures r.Ok? ==> KindCode(r.value) == v
  {
    if v == 1 then Ok(BytesKind) else if v == 2 then Ok(FileKind) else if v == 3 then Ok(StreamKind)
      else Err(InvalidFrame)
  }

  function PacketCode(p: PacketType): i64 {
    match p case Data => 1 case Control => 2 case PayloadAck => 3
  }

  function PacketFrom(v: i64): (r: Result<PacketType>)
    ensures r.Ok? ==> PacketCode(r.value) == v
  {
    if v == 1 then Ok(Data) else if v == 2 then Ok(Control) else if v == 3 then Ok(PayloadAck) else Err(InvalidFrame)
  }

  datatype PayloadHeader = PayloadHeader(
    id: i64, kind: PayloadKind, totalSize: u64, fileName: Option<Text>, parentFolder: Option<Text>)

  datatype PayloadChunk = PayloadChunk(flags: i32, offset: u64, body: Bytes) {
    /** The lowest bit of the flags. */
    predicate IsLast() {
      flags % 2 == FLAG_LAST_CHUNK
    }
  }

  datatype TransferFrame = TransferFrame(
    packetType: PacketType, header: Option<PayloadHeader>, chunk: Option<PayloadChunk>)

  function DataFrame(id: i64, totalSize: u64, offset: u64, last: bool, body: Bytes): TransferFrame {
    TransferFrame(Data, Some(PayloadHeader(id, FileKind, totalSize, None, None)),
                  Some(PayloadChunk(if last then FLAG_LAST_CHUNK else 0, offset, body)))
  }

  // ---------------------------------------------------------------- printing

  function TextField(num: u32, t: Option<Text>): (fields: seq<Field>) {
    if t.Some? then [Blob(num, t.value)] else []
  }

  function HeaderFields(h: PayloadHeader): seq<Field> {
    [Scalar(1, AsU64(h.id)), Scalar(2, AsU64(KindCode(h.kind))), Scalar(3, h.totalSize)]
    + TextField(5, h.fileName) + TextField(6, h.parentFolder)
  }

  function ChunkFields(c: PayloadChunk): seq<Field> {
    [Scalar(1, AsU64(c.flags)), Scalar(2, c.offset), Blob(3, c.body)]
  }

  function HeaderField(h: Option<PayloadHeader>): seq<Field> {
    if h.Some? then [Blob(2, EncodeFields(HeaderFields(h.value)))] else []
  }

  function ChunkField(c: Option<PayloadChunk>): seq<Field> {
    if c.Some? then [Blob(3, EncodeFields(ChunkFields(c.value)))] else []
  }

  function TransferFields(f: TransferFrame): seq<Field> {
    [Scalar(1, AsU64(PacketCode(f.packetType)))] + HeaderField(f.header) + ChunkField(f.chunk)
  }

  function EncodeTransfer(f: TransferFrame): (r: Result<Bytes>)
    ensures r.Err? <==> f.chunk.Some? && |f.chunk.value.body| > MAX_CHUNK_BYTES
  {
    if f.chunk.Some? && |f.chunk.value.body| > MAX_CHUNK_BYTES then Err(ResourceLimit)
    else Ok(EncodeOffline(TYPE_PAYLOAD_TRANSFER, FIELD_PAYLOAD_TRANSFER, EncodeFields(TransferFields(f))))
  }

  // ---------------------------------------------------------------- parsing

  datatype HeaderSlots = HeaderSlots(
    id: Option<i64>, kind: Option<PayloadKind>, totalSize: Option<u64>,
    fileName: Option<Text>, parentFolder: Option<Text>)

  function HeaderStep(s: HeaderSlots, f: Field): (r: Result<HeaderSlots>) {
    if IsScalar(f, 1) then Ok(s.(id := Some(AsI64(f.v))))
    else if IsScalar(f, 2) then
      var k :- KindFrom(AsI64(f.v));
      Ok(s.(kind := Some(k)))
    else if IsScalar(f, 3) then Ok(s.(totalSize := Some(f.v)))
    else if IsBlob(f, 5) then
      var t :- ReadText(f.data);
      Ok(s.(fileName := Some(t)))
    else if IsBlob(f, 6) then
      var t :- ReadText(f.data);
      Ok(s.(parentFolder := Some(t)))
    else Ok(s)
  }

  const NO_HEADER: HeaderSlots := HeaderSlots(None, None, None, None, None)

  function DecodeHeader(buf: Bytes): (r: Result<PayloadHeader>) {
    var s :- Run(HeaderStep, NO_HEADER, buf);
    if s.id.None? || s.kind.None? || s.totalSize.None? then Err(InvalidFrame)
    else Ok(PayloadHeader(s.id.value, s.kind.value, s.totalSize.value, s.fileName, s.parentFolder))
  }

  function DecodeChunk(buf: Bytes): (r: Result<PayloadChunk>) {
    var s :- Gather(Wants({1, 2}, {3}), buf);
    if 3 !in s.blobs then Err(InvalidFrame)
    else if |s.blobs[3]| > MAX_CHUNK_BYTES then Err(ResourceLimit)
    else if 2 !in s.scalars then Err(InvalidFrame)
    else Ok(PayloadChunk(if 1 in s.scalars then AsI32(s.scalars[1]) else 0, s.scalars[2], s.blobs[3]))
  }

  datatype TransferSlots = TransferSlots(
    packetType: Option<PacketType>, header: Option<PayloadHeader>, chunk: Option<PayloadChunk>)

  function TransferStep(s: TransferSlots, f: Field): (r: Result<TransferSlots>) {
    if IsScalar(f, 1) then
      var p :- PacketFrom(AsI64(f.v));
      Ok(s.(packetType := Some(p)))
    else if IsBlob(f, 2) then
      var h :- DecodeHeader(f.data);
      Ok(s.(header := Some(h)))
    else if IsBlob(f, 3) then
      var c :- DecodeChunk(f.data);
      Ok(s.(chunk := Some(c)))
    else Ok(s)
  }

  function DecodeBody(buf: Bytes): (r: Result<TransferFrame>) {
    var s :- Run(TransferStep, TransferSlots(None, None, None), buf);
    if s.packetType.None? then Err(InvalidFrame)
    else Ok(TransferFrame(s.packetType.value, s.header, s.chunk))
  }

  function DecodeTransfer(buf: Bytes): (r: Result<TransferFrame>) {
    var (frameType, body) :- OuterV1(buf, FIELD_PAYLOAD_TRANSFER);
    if frameType != TYPE_PAYLOAD_TRANSFER then Err(UnsupportedFeature)
    else if body.None? then Err(InvalidFrame)
    else DecodeBody(body.value)
  }

  /** The same decoder as nested loops over readers. */
  method ParseTransfer(buf: Bytes) returns (r: Result<TransferFrame>)
    ensures r == DecodeTransfer(buf)
  {
    var rest := ReadVersion(buf);
    if rest.Err? {
      return Err(rest.code);
    }
    var outer := Decode(GatherStep, Wants({}, {2}), rest.value);
    if outer.Err? {
      return Err(outer.code);
    }
    if 2 !in outer.value.blobs {
      return Err(InvalidFrame);
    }
    var v1 := Decode(GatherStep, Wants({1}, {FIELD_PAYLOAD_TRANSFER}), outer.value.blobs[2]);
    if v1.Err? {
      return Err(v1.code);
    }
    if 1 !in v1.value.scalars {
      return Err(InvalidFrame);
    }
    if v1.value.scalars[1] != TYPE_PAYLOAD_TRANSFER {
      return Err(UnsupportedFeature);
    }
    if FIELD_PAYLOAD_TRANSFER !in v1.value.blobs {
      return Err(InvalidFrame);
    }
    var s := Decode(TransferStep, TransferSlots(None, None, None), v1.value.blobs[FIELD_PAYLOAD_TRANSFER]);
    if s.Err? {
      return Err(s.code);
    }
    if s.value.packetType.None? {
      return Err(InvalidFrame);
    }
    return Ok(TransferFrame(s.value.packetType.value, s.value.header, s.value.chunk));
  }

  // ---------------------------------------------------------------- round trip

  lemma HeaderAbsorbed(h: PayloadHeader)
    ensures Absorb(HeaderStep, NO_HEADER, HeaderFields(h)) ==
            Ok(HeaderSlots(Some(h.id), Some(h.kind), Some(h.totalSize), h.fileName, h.parentFolder))
  {
    var a, b, c := Scalar(1, AsU64(h.id)), Scalar(2, AsU64(KindCode(h.kind))), Scalar(3, h.totalSize);
    var s1 := NO_HEADER.(id := Some(h.id));
    var s2 := s1.(kind := Some(h.kind));
    var s3 := s2.(totalSize := Some(h.totalSize));
    var s4 := s3.(fileName := h.fileName);
    assert Absorb(HeaderStep, NO_HEADER, [a]) == Ok(s1) by { AbsorbOne(HeaderStep, NO_HEADER, a); }
    assert Absorb(HeaderStep, s1, [b]) == Ok(s2) by { AbsorbOne(HeaderStep, s1, b); }
    assert Absorb(HeaderStep, s2, [c]) == Ok(s3) by { AbsorbOne(HeaderStep, s2, c); }
    TextAbsorbed(s3, h.fileName, 5);
    TextAbsorbed(s4, h.parentFolder, 6);
    AbsorbAppend(HeaderStep, NO_HEADER, [a], [b]);
    AbsorbAppend(HeaderStep, NO_HEADER, [a] + [b], [c]);
    assert [a] + [b] + [c] == [a, b, c];
    AbsorbAppend(HeaderStep, NO_HEADER, [a, b, c], TextField(5, h.fileName));
    AbsorbAppend(HeaderStep, NO_HEADER, [a, b, c] + TextField(5, h.fileName), TextField(6, h.parentFolder));
  }

  lemma TextAbsorbed(s: HeaderSlots, t: Option<Text>, num: u32)
    requires num == 5 || num == 6
    requires num == 5 ==> s.fileName.None?
    requires num == 6 ==> s.parentFolder.None?
    ensures Absorb(HeaderStep, s, TextField(num, t)) ==
            Ok(if num == 5 then s.(fileName := t) else s.(parentFolder := t))
  {
    if t.Some? {
      AbsorbOne(HeaderStep, s, Blob(num, t.value));
    }
  }

  lemma HeaderRoundTrip(h: PayloadHeader)
    requires |EncodeFields(HeaderFields(h))| <= MAX_FIELD_BYTES
    ensures DecodeHeader(EncodeFields(HeaderFields(h))) == Ok(h)
  {
    InsideLimitLegal(HeaderFields(h));
    RunOfEncoded(HeaderStep, NO_HEADER, HeaderFields(h));
    HeaderAbsorbed(h);
  }

  lemma ChunkRoundTrip(c: PayloadChunk)
    requires |EncodeFields(ChunkFields(c))| <= MAX_FIELD_BYTES
    ensures DecodeChunk(EncodeFields(ChunkFields(c))) == Ok(c)
  {
    var w, fields := Wants({1, 2}, {3}), ChunkFields(c);
    InsideLimitLegal(fields);
    FieldFitsInside(fields, 2);
    GatherEncoded(w, fields);
    assert LastScalar(fields, 1) == Some(AsU64(c.flags)) by { LastScalarAt(fields, 0); }
    assert LastScalar(fields, 2) == Some(c.offset) by { LastScalarAt(fields, 1); }
    assert LastBlob(fields, 3) == Some(c.body) by { LastBlobAt(fields, 2); }
    AsI32OfSigned(c.flags);
  }

  lemma BodyAbsorbed(f: TransferFrame)
    requires |EncodeFields(TransferFields(f))| <= MAX_FIELD_BYTES
    ensures Absorb(TransferStep, TransferSlots(None, None, None), TransferFields(f)) ==
            Ok(TransferSlots(Some(f.packetType), f.header, f.chunk))
  {
    hide Run, EncodeFields, DecodeHeader, DecodeChunk;
    var s0 := TransferSlots(None, None, None);
    var s1 := s0.(packetType := Some(f.packetType));
    var s2 := s1.(header := f.header);
    var first := Scalar(1, AsU64(PacketCode(f.packetType)));
    AbsorbOne(TransferStep, s0, first);
    assert Absorb(TransferStep, s1, HeaderField(f.header)) == Ok(s2) by {
      if f.header.Some? {
        FieldFitsInside(TransferFields(f), 1);
        HeaderRoundTrip(f.header.value);
        AbsorbOne(TransferStep, s1, HeaderField(f.header)[0]);
      }
    }
    assert Absorb(TransferStep, s2, ChunkField(f.chunk)) == Ok(s2.(chunk := f.chunk)) by {
      if f.chunk.Some? {
        FieldFitsInside(TransferFields(f), |TransferFields(f)| - 1);
        ChunkRoundTrip(f.chunk.value);
        AbsorbOne(TransferStep, s2, ChunkField(f.chunk)[0]);
      }
    }
    AbsorbAppend(TransferStep, s0, [first], HeaderField(f.header));
    AbsorbAppend(TransferStep, s0, [first] + HeaderField(f.header), ChunkField(f.chunk));
  }

  /** The bytes of the V1Frame, the longest length-delimited field of a printed frame. */
  function TransferV1(f: TransferFrame): Bytes {
    V1Bytes(TYPE_PAYLOAD_TRANSFER, FIELD_PAYLOAD_TRANSFER, EncodeFields(TransferFields(f)))
  }

  /** Parsing inverts printing - negative ids and flags included - exactly when the V1Frame
      keeps the reader's limit of one mebibyte; a longer frame is printed but never parsed,
      although the printer itself allows chunks of four. */
  lemma TransferRoundTrip(f: TransferFrame)
    requires EncodeTransfer(f).Ok?
    ensures if |TransferV1(f)| <= MAX_FIELD_BYTES
            then DecodeTransfer(EncodeTransfer(f).value) == Ok(f)
            else DecodeTransfer(EncodeTransfer(f).value).Err?
  {
    hide Run, EncodeFields, Gather;
    var body := EncodeFields(TransferFields(f));
    OfflineRoundTrip(TYPE_PAYLOAD_TRANSFER, FIELD_PAYLOAD_TRANSFER, body);
    if |TransferV1(f)| <= MAX_FIELD_BYTES {
      FieldFitsInside([Scalar(1, TYPE_PAYLOAD_TRANSFER), Blob(FIELD_PAYLOAD_TRANSFER, body)], 1);
      InsideLimitLegal(TransferFields(f));
      RunOfEncoded(TransferStep, TransferSlots(None, None, None), TransferFields(f));
      BodyAbsorbed(f);
    }
  }
}
