/** The sending side of one file: the chunks it is cut into, the frames and the plaintexts they
    are printed as, and how long those get. */
module Transfers {
  import opened Prelude
  import opened Wire
  import opened Offline
  import opened Payload

  // ---------------------------------------------------------------- chunks

  datatype Transfer = Transfer(content: Bytes, id: i64, chunk: nat)

  ghost predicate Sendable(x: Transfer) {
    0 < |x.content| < TWO_64 && 0 < x.chunk <= MAX_CHUNK_BYTES
  }

  function Start(x: Transfer, k: nat): (i: nat)
    ensures i <= |x.content|
  {
    Min(k * x.chunk, |x.content|)
  }

  /** The k-th chunk starts inside the file. */
  predicate HasChunk(x: Transfer, k: nat) {
    k * x.chunk < |x.content|
  }

  function Part(x: Transfer, k: nat): Bytes {
    if Start(x, k) <= Start(x, k + 1) then x.content[Start(x, k)..Start(x, k + 1)] else []
  }

  function FrameAt(x: Transfer, k: nat): TransferFrame
    requires Sendable(x) && HasChunk(x, k)
  {
    DataFrame(x.id, |x.content|, k * x.chunk, k * x.chunk + |Part(x, k)| == |x.content|, Part(x, k))
  }

  lemma PartBounds(x: Transfer, k: nat)
    requires Sendable(x) && HasChunk(x, k)
    ensures (k + 1) * x.chunk == k * x.chunk + x.chunk
    ensures Start(x, k) == k * x.chunk && Start(x, k + 1) == k * x.chunk + |Part(x, k)|
    ensures 0 < |Part(x, k)| <= x.chunk
    ensures x.content[..Start(x, k)] + Part(x, k) == x.content[..Start(x, k + 1)]
    ensures Start(x, k + 1) == |x.content| <==> !HasChunk(x, k + 1)
  {
  }

  lemma {:induction false} EarlierChunk(x: Transfer, j: nat, k: nat)
    requires j <= k && HasChunk(x, k)
    ensures HasChunk(x, j) && j * x.chunk <= k * x.chunk
    ensures j < k && x.chunk > 0 ==> j * x.chunk < k * x.chunk
    decreases k
  {
    if j >= k {
    } else {
      assert k * x.chunk == (k - 1) * x.chunk + x.chunk;
      EarlierChunk(x, j, k - 1);
    }
  }

  function FramePlaintext(x: Transfer, k: nat): Bytes
    requires Sendable(x) && HasChunk(x, k)
  {
    PartBounds(x, k);
    EncodeTransfer(FrameAt(x, k)).value
  }

  /** The plaintexts of the first `n` chunks, in order. */
  function Plain(x: Transfer, n: nat): (p: seq<Bytes>)
    requires Sendable(x) && (n > 0 ==> HasChunk(x, n - 1))
    ensures |p| == n
    decreases n
  {
    if n == 0 then [] else (EarlierToo(x, n - 1); Plain(x, n - 1) + [FramePlaintext(x, n - 1)])
  }

  lemma EarlierToo(x: Transfer, k: nat)
    requires HasChunk(x, k)
    ensures k > 0 ==> HasChunk(x, k - 1)
  {
    if k > 0 { EarlierChunk(x, k - 1, k); }
  }

  /** Printed no longer than the reader's field limit. */
  ghost predicate Readable(x: Transfer, k: nat)
    requires Sendable(x) && HasChunk(x, k)
  {
    |TransferV1(FrameAt(x, k))| <= MAX_FIELD_BYTES
  }

  lemma FrameParses(x: Transfer, k: nat)
    requires Sendable(x) && HasChunk(x, k)
    ensures var r := DecodeTransfer(FramePlaintext(x, k));
            (r.Ok? ==> r.value == FrameAt(x, k)) && (Readable(x, k) <==> r.Ok?)
  {
    hide DecodeTransfer, TransferV1;
    PartBounds(x, k);
    TransferRoundTrip(FrameAt(x, k));
  }

  lemma {:induction false} PlainAt(x: Transfer, n: nat, i: nat)
    requires Sendable(x) && i < n && HasChunk(x, n - 1)
    ensures HasChunk(x, i) && Plain(x, n)[i] == FramePlaintext(x, i)
    decreases n
  {
    hide HasChunk, FramePlaintext, Sendable;
    if i == n - 1 {
    } else {
      EarlierToo(x, n - 1);
      PlainAt(x, n - 1, i);
    }
  }

  // ---------------------------------------------------------------- frames of one file

  predicate ForId(id: i64, frame: TransferFrame) {
    frame.packetType.Data? && frame.header.Some? && frame.header.value.id == id
  }

  /** Parses, to a data frame for this payload id. */
  predicate IsFor(id: i64, plaintext: Bytes) {
    DecodeTransfer(plaintext).Ok? && ForId(id, DecodeTransfer(plaintext).value)
  }

  /** The data frames for this payload id, in order. */
  function FramesFor(id: i64, plaintexts: seq<Bytes>): (frames: seq<TransferFrame>)
    ensures forall i :: 0 <= i < |frames| ==> ForId(id, frames[i])
  {
    if plaintexts == [] then []
    else
      var before, last := FramesFor(id, plaintexts[..|plaintexts| - 1]), plaintexts[|plaintexts| - 1];
      if IsFor(id, last) then before + [DecodeTransfer(last).value] else before
  }

  ghost predicate ChunkOf(x: Transfer, frame: TransferFrame)
    requires Sendable(x)
  {
    exists k: nat :: HasChunk(x, k) && frame == FrameAt(x, k)
  }

  /** Whatever is for this file is one of its chunks, in any order, as often as one likes; what
      is for other payload ids, or no frame at all, is left open. */
  ghost predicate OnlyChunks(x: Transfer, plaintexts: seq<Bytes>) {
    Sendable(x) && forall i :: 0 <= i < |plaintexts| && IsFor(x.id, plaintexts[i]) ==>
                     ChunkOf(x, DecodeTransfer(plaintexts[i]).value)
  }

  /** The first `n` chunks of the file, once each and in order. */
  function Chunks(x: Transfer, n: nat): (f: seq<TransferFrame>)
    requires Sendable(x) && (n > 0 ==> HasChunk(x, n - 1))
    ensures |f| == n
    decreases n
  {
    if n == 0 then [] else (EarlierToo(x, n - 1); Chunks(x, n - 1) + [FrameAt(x, n - 1)])
  }

  /** A control frame: it cancels the session. */
  predicate IsCancel(plaintext: Bytes) {
    DecodeTransfer(plaintext).Ok? && DecodeTransfer(plaintext).value.packetType.Control?
  }

  ghost predicate NoCancel(plaintexts: seq<Bytes>) {
    forall i :: 0 <= i < |plaintexts| ==> !IsCancel(plaintexts[i])
  }

  // ---------------------------------------------------------------- lengths

  lemma ChunkFits(x: Transfer, k: nat)
    requires Sendable(x) && HasChunk(x, k) && x.chunk <= MAX_FIELD_BYTES - 1024
    ensures Readable(x, k) && |FramePlaintext(x, k)| <= MAX_FIELD_BYTES - 256
  {
    PartBounds(x, k);
    DataFrameLength(x.id, |x.content|, k * x.chunk, k * x.chunk + |Part(x, k)| == |x.content|, Part(x, k));
  }

  lemma ChunkLength(c: PayloadChunk)
    requires |c.body| <= MAX_FIELD_BYTES
    ensures |EncodeFields(ChunkFields(c))| <= |c.body| + 60
  {
    hide EncodeFields;
    var s1, s2 := Scalar(1, AsU64(c.flags)), Scalar(2, c.offset);
    assert ChunkFields(c) == [s1, s2] + [Blob(3, c.body)];
    EncodeFieldsAppend([s1, s2], [Blob(3, c.body)]);
    ScalarsLength([s1, s2]);
    OneBlobLength(3, c.body);
  }

  lemma TransferLength(f: TransferFrame, header: Bytes, chunk: Bytes)
    requires |header| <= 60 && |chunk| <= 2 * MAX_FIELD_BYTES
    requires TransferFields(f) == [Scalar(1, AsU64(PacketCode(f.packetType)))] + ([Blob(2, header)] + [Blob(3, chunk)])
    ensures |EncodeFields(TransferFields(f))| <= |chunk| + 140
  {
    hide EncodeFields;
    var first := Scalar(1, AsU64(PacketCode(f.packetType)));
    EncodeFieldsAppend([first], [Blob(2, header)] + [Blob(3, chunk)]);
    EncodeFieldsAppend([Blob(2, header)], [Blob(3, chunk)]);
    ScalarsLength([first]);
    OneBlobLength(2, header);
    OneBlobLength(3, chunk);
  }

  /** One scalar and one blob around `body`. */
  lemma WrapLength(num: u32, v: u64, field: u32, body: Bytes)
    requires |body| < TWO_64
    ensures |EncodeFields([Scalar(num, v), Blob(field, body)])| <= |body| + 40
  {
    hide EncodeFields;
    ScalarFieldLength(num, v);
    BlobFieldLength(field, body);
    TwoFieldsLength(Scalar(num, v), Blob(field, body));
  }

  lemma DataFrameLength(id: i64, total: u64, offset: u64, last: bool, body: Bytes)
    requires |body| <= MAX_FIELD_BYTES
    ensures var f := DataFrame(id, total, offset, last, body);
            |TransferV1(f)| <= |body| + 400 && |EncodeTransfer(f).value| <= |body| + 500
  {
    hide EncodeFields;
    var f := DataFrame(id, total, offset, last, body);
    var h := f.header.value;
    assert Payload.HeaderFields(h)
      == [Scalar(1, AsU64(h.id)), Scalar(2, AsU64(KindCode(h.kind))), Scalar(3, h.totalSize)];
    ScalarsLength(Payload.HeaderFields(h));
    ChunkLength(f.chunk.value);
    TransferLength(f, EncodeFields(Payload.HeaderFields(h)), EncodeFields(ChunkFields(f.chunk.value)));
    WrapLength(1, TYPE_PAYLOAD_TRANSFER, FIELD_PAYLOAD_TRANSFER, EncodeFields(TransferFields(f)));
    WrapLength(1, VERSION_V1, 2, TransferV1(f));
  }

  lemma OneBlobLength(num: u32, data: Bytes)
    requires |data| < TWO_64
    ensures |EncodeFields([Blob(num, data)])| <= |data| + 20
  {
    BlobFieldLength(num, data);
    assert [Blob(num, data)][1..] == [];
  }
}
