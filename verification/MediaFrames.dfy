/** The XMD1 data-plane frame of interop-ipc/src/media_frame.rs. */
module MediaFrames {
  import opened Prelude

  const HEADER_LEN: nat := 36
  const MAX_PAYLOAD: nat := 16 * 1024 * 1024
  const HEADER_VERSION: nat := 1
  const MAGIC: Bytes := [0x58, 0x4D, 0x44, 0x31]
  /** Flag bits 0, 1 and 2 are known: keyframe, discontinuity, no timestamp. */
  const KNOWN_FLAGS: nat := 7

  datatype FrameKind = EncodedAccessUnit | PcmBlock | CodecConfig | End

  function KindCode(k: FrameKind): nat {
    match k case EncodedAccessUnit => 1 case PcmBlock => 2 case CodecConfig => 3 case End => 4
  }

  function KindFrom(v: nat): (r: Result<FrameKind>)
    ensures r.Ok? ==> KindCode(r.value) == v
  {
    if v == 1 then Ok(EncodedAccessUnit) else if v == 2 then Ok(PcmBlock)
    else if v == 3 then Ok(CodecConfig) else if v == 4 then Ok(End) else Err(InvalidFrame)
  }

  datatype MediaFrame = MediaFrame(
    kind: FrameKind, streamId: u32, flags: u32, sequence: u64, pts: i64, payload: Bytes)
  {
    predicate IsKeyframe() {
      flags % 2 == 1
    }

    /** The time stamp, unless the flags say there is none. */
    function PtsIfPresent(): Option<i64> {
      if flags / 4 % 2 == 1 then None else Some(pts)
    }
  }

  function HeaderOf(f: MediaFrame): (b: Bytes) {
    MAGIC + BigEndian(2, HEADER_VERSION) + BigEndian(2, KindCode(f.kind)) + BigEndian(4, f.streamId)
    + BigEndian(4, f.flags) + BigEndian(8, f.sequence) + BigEndian(8, AsU64(f.pts))
    + BigEndian(4, |f.payload| % TWO_32)
  }

  function TryEncode(f: MediaFrame): (r: Result<Bytes>) {
    if |f.payload| > MAX_PAYLOAD then Err(ResourceLimit) else Ok(HeaderOf(f) + f.payload)
  }

  /** The frame in front of the buffer and how many bytes it took. */
  function DecodeFrame(buf: Bytes): (r: Result<(MediaFrame, nat)>)
    ensures r.Ok? ==> HEADER_LEN <= r.value.1 <= |buf|
  {
    if |buf| < HEADER_LEN then Err(InvalidFrame)
    else if buf[..4] != MAGIC then Err(InvalidFrame)
    else if FromBigEndian(buf[4..6]) != HEADER_VERSION then Err(VersionUnsupported)
    else
      var kind :- KindFrom(FromBigEndian(buf[6..8]));
      DecodeRest(buf, kind)
  }

  function DecodeRest(buf: Bytes, kind: FrameKind): (r: Result<(MediaFrame, nat)>)
    requires |buf| >= HEADER_LEN
    ensures r.Ok? ==> HEADER_LEN <= r.value.1 <= |buf|
  {
    FieldBounds(buf);
    var flags := FromBigEndian(buf[12..16]);
    var len := FromBigEndian(buf[32..36]);
    if flags > KNOWN_FLAGS then Err(InvalidFrame)
    else if len > MAX_PAYLOAD then Err(ResourceLimit)
    else if |buf| < HEADER_LEN + len then Err(InvalidFrame)
    else
      Ok((MediaFrame(kind, FromBigEndian(buf[8..12]), flags, FromBigEndian(buf[16..24]),
                     AsI64(FromBigEndian(buf[24..32])), buf[HEADER_LEN..HEADER_LEN + len]),
          HEADER_LEN + len))
  }

  lemma FieldBounds(buf: Bytes)
    requires |buf| >= HEADER_LEN
    ensures FromBigEndian(buf[8..12]) < TWO_32 && FromBigEndian(buf[12..16]) < TWO_32
            && FromBigEndian(buf[32..36]) < TWO_32
    ensures FromBigEndian(buf[16..24]) < TWO_64 && FromBigEndian(buf[24..32]) < TWO_64
  {
    Pow256Values();
    FromBigEndianInverse(buf[8..12]);
    FromBigEndianInverse(buf[12..16]);
    FromBigEndianInverse(buf[16..24]);
    FromBigEndianInverse(buf[24..32]);
    FromBigEndianInverse(buf[32..36]);
  }

  method TryEncodeFrame(f: MediaFrame) returns (r: Result<Bytes>)
    ensures r == TryEncode(f)
  {
    hide BigEndian;
    if |f.payload| > MAX_PAYLOAD {
      return Err(ResourceLimit);
    }
    var out := MAGIC;
    out := out + BigEndian(2, HEADER_VERSION);
    out := out + BigEndian(2, KindCode(f.kind));
    out := out + BigEndian(4, f.streamId);
    out := out + BigEndian(4, f.flags);
    out := out + BigEndian(8, f.sequence);
    out := out + BigEndian(8, AsU64(f.pts));
    out := out + BigEndian(4, |f.payload| % TWO_32);
    out := out + f.payload;
    return Ok(out);
  }

  lemma HeaderParts(f: MediaFrame, h: Bytes)
    requires h == HeaderOf(f)
    ensures |h| == HEADER_LEN && h[..4] == MAGIC && h[4..6] == BigEndian(2, HEADER_VERSION)
    ensures h[6..8] == BigEndian(2, KindCode(f.kind)) && h[8..12] == BigEndian(4, f.streamId)
    ensures h[12..16] == BigEndian(4, f.flags) && h[16..24] == BigEndian(8, f.sequence)
    ensures h[24..32] == BigEndian(8, AsU64(f.pts)) && h[32..36] == BigEndian(4, |f.payload| % TWO_32)
  {
    hide BigEndian;
  }

  lemma PartsOfPrefix(h: Bytes, more: Bytes, i: nat, j: nat)
    requires i <= j <= |h|
    ensures (h + more)[i..j] == h[i..j]
  {
  }

  /** Decoding inverts encoding, whatever follows the frame, exactly for known flags; the
      encoder does not look at them. */
  lemma DecodeInvertsEncode(f: MediaFrame, more: Bytes)
    requires |f.payload| <= MAX_PAYLOAD
    ensures DecodeFrame(TryEncode(f).value + more) ==
            if f.flags <= KNOWN_FLAGS then Ok((f, HEADER_LEN + |f.payload|)) else Err(InvalidFrame)
  {
    hide BigEndian, FromBigEndian, Pow256, HeaderOf;
    var h, tail := HeaderOf(f), f.payload + more;
    Assoc(h, f.payload, more);
    HeaderParts(f, h);
    PartsOfPrefix(h, tail, 0, 4); PartsOfPrefix(h, tail, 4, 6); PartsOfPrefix(h, tail, 6, 8);
    PartsOfPrefix(h, tail, 8, 12); PartsOfPrefix(h, tail, 12, 16); PartsOfPrefix(h, tail, 16, 24);
    PartsOfPrefix(h, tail, 24, 32); PartsOfPrefix(h, tail, 32, 36);
    NumbersBack(f);
    assert (h + tail)[36..36 + |f.payload|] == f.payload;
  }

  lemma NumbersBack(f: MediaFrame)
    requires |f.payload| <= MAX_PAYLOAD
    ensures FromBigEndian(BigEndian(2, HEADER_VERSION)) == HEADER_VERSION
    ensures FromBigEndian(BigEndian(2, KindCode(f.kind))) == KindCode(f.kind)
    ensures FromBigEndian(BigEndian(4, f.streamId)) == f.streamId && FromBigEndian(BigEndian(4, f.flags)) == f.flags
    ensures FromBigEndian(BigEndian(8, f.sequence)) == f.sequence
            && FromBigEndian(BigEndian(8, AsU64(f.pts))) == AsU64(f.pts)
    ensures FromBigEndian(BigEndian(4, |f.payload| % TWO_32)) == |f.payload|
  {
    hide BigEndian, FromBigEndian;
    Pow256Values();
    BigEndianRoundTrip(2, HEADER_VERSION);
    BigEndianRoundTrip(2, KindCode(f.kind));
    BigEndianRoundTrip(4, f.streamId);
    BigEndianRoundTrip(4, f.flags);
    BigEndianRoundTrip(8, f.sequence);
    BigEndianRoundTrip(8, AsU64(f.pts));
    BigEndianRoundTrip(4, |f.payload|);
  }

  /** And encoding inverts decoding: an accepted buffer is its frame, printed again, byte for
      byte - no second spelling of a frame is accepted. */
  lemma EncodeInvertsDecode(buf: Bytes)
    requires DecodeFrame(buf).Ok?
    ensures var (f, n) := DecodeFrame(buf).value;
            && f.flags <= KNOWN_FLAGS && |f.payload| <= MAX_PAYLOAD
            && TryEncode(f) == Ok(buf[..n])
  {
    hide BigEndian, FromBigEndian, Pow256;
    var (f, n) := DecodeFrame(buf).value;
    FromBigEndianInverse(buf[4..6]); FromBigEndianInverse(buf[6..8]); FromBigEndianInverse(buf[8..12]);
    FromBigEndianInverse(buf[12..16]); FromBigEndianInverse(buf[16..24]); FromBigEndianInverse(buf[24..32]);
    FromBigEndianInverse(buf[32..36]);
    HeaderJoins(buf);
    assert buf[..36] + buf[36..n] == buf[..n];
  }

  lemma HeaderJoins(buf: Bytes)
    requires |buf| >= HEADER_LEN
    ensures buf[..4] + buf[4..6] + buf[6..8] + buf[8..12] + buf[12..16] + buf[16..24] + buf[24..32] + buf[32..36]
            == buf[..36]
  {
  }

  // ---------------------------------------------------------------- what is refused

  /** A header anyone can write. */
  datatype RawHeader = RawHeader(
    magic: Bytes, version: nat, kind: nat, streamId: u32, flags: u32, sequence: u64, pts: i64, length: u32)
  {
    predicate Valid() {
      |magic| == 4 && version < 0x1_0000 && kind < 0x1_0000
    }

    function Written(): Bytes {
      magic + BigEndian(2, version) + BigEndian(2, kind) + BigEndian(4, streamId) + BigEndian(4, flags)
      + BigEndian(8, sequence) + BigEndian(8, AsU64(pts)) + BigEndian(4, length)
    }
  }

  lemma RawParts(h: RawHeader, b: Bytes)
    requires h.Valid() && b == h.Written()
    ensures |b| == HEADER_LEN && b[..4] == h.magic && b[4..6] == BigEndian(2, h.version)
    ensures b[6..8] == BigEndian(2, h.kind) && b[8..12] == BigEndian(4, h.streamId)
    ensures b[12..16] == BigEndian(4, h.flags) && b[16..24] == BigEndian(8, h.sequence)
    ensures b[24..32] == BigEndian(8, AsU64(h.pts)) && b[32..36] == BigEndian(4, h.length)
  {
    hide BigEndian;
  }

  lemma RawNumbers(h: RawHeader)
    requires h.Valid()
    ensures FromBigEndian(BigEndian(2, h.version)) == h.version && FromBigEndian(BigEndian(2, h.kind)) == h.kind
    ensures FromBigEndian(BigEndian(4, h.flags)) == h.flags && FromBigEndian(BigEndian(4, h.length)) == h.length
  {
    hide BigEndian, FromBigEndian;
    Pow256Values();
    BigEndianRoundTrip(2, h.version);
    BigEndianRoundTrip(2, h.kind);
    BigEndianRoundTrip(4, h.flags);
    BigEndianRoundTrip(4, h.length);
  }

  /** What a header is refused for: another magic, another version, a kind that is none of one to
      four, an unknown flag, a length over the limit, and last a payload that is not all there.
      Only the version and the limit have answers of their own. Less than a header is invalid. */
  lemma HeaderAnswer(h: RawHeader, more: Bytes)
    requires h.Valid()
    ensures var r := DecodeFrame(h.Written() + more);
            if h.magic != [0x58, 0x4D, 0x44, 0x31] then r == Err(InvalidFrame)
            else if h.version != 1 then r == Err(VersionUnsupported)
            else if h.kind !in {1, 2, 3, 4} || h.flags > 7 then r == Err(InvalidFrame)
            else if h.length > MAX_PAYLOAD then r == Err(ResourceLimit)
            else if |more| < h.length then r == Err(InvalidFrame)
            else r.Ok? && r.value.1 == 36 + h.length
    ensures forall buf: Bytes :: |buf| < 36 ==> DecodeFrame(buf) == Err(InvalidFrame)
  {
    hide BigEndian, FromBigEndian, Pow256;
    var b := h.Written();
    RawParts(h, b);
    PartsOfPrefix(b, more, 0, 4); PartsOfPrefix(b, more, 4, 6); PartsOfPrefix(b, more, 6, 8);
    PartsOfPrefix(b, more, 12, 16); PartsOfPrefix(b, more, 32, 36);
    RawNumbers(h);
  }

  /** The kinds and the flags by their numbers on the wire, and what the encoder refuses. */
  lemma CodesOnTheWire(f: MediaFrame)
    ensures |f.payload| > MAX_PAYLOAD ==> TryEncode(f) == Err(ResourceLimit)
    ensures |f.payload| <= MAX_PAYLOAD ==>
              && TryEncode(f).Ok? && |TryEncode(f).value| == 36 + |f.payload|
              && FromBigEndian(TryEncode(f).value[6..8]) ==
                 (match f.kind case EncodedAccessUnit => 1 case PcmBlock => 2 case CodecConfig => 3 case End => 4)
    ensures f.flags < 8 ==>
              && (f.IsKeyframe() <==> f.flags in {1, 3, 5, 7})
              && f.PtsIfPresent() == if f.flags in {4, 5, 6, 7} then None else Some(f.pts)
  {
    hide BigEndian, FromBigEndian, HeaderOf;
    if |f.payload| <= MAX_PAYLOAD {
      HeaderParts(f, HeaderOf(f));
      PartsOfPrefix(HeaderOf(f), f.payload, 6, 8);
      NumbersBack(f);
    }
  }
}
