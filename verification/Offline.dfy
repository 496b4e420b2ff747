/** The outer OfflineFrame shared by payload, keep-alive, disconnection and paired-key
    frames: a version field, then one V1Frame that carries a type and one body field. */
module Offline {
  import opened Prelude
  import opened Wire
  import opened Messages

  const VERSION_V1: u64 := 1

  /** The version must be the first field and must be V1; yields what follows it. */
  function ReadVersion(s: Bytes): (r: Result<Bytes>) {
    var (num, wire, rest) :- ReadKey(s);
    if num != 1 || wire != 0 then Err(InvalidFrame)
    else
      var (v, tail) :- ReadVarint(rest);
      if v != VERSION_V1 then Err(VersionUnsupported) else Ok(tail)
  }

  /** The V1Frame: its type and, if present, the body carried in field `field`. */
  function DecodeV1(v1: Bytes, field: u32): (r: Result<(u64, Option<Bytes>)>) {
    var s :- Gather(Wants({1}, {field}), v1);
    if 1 !in s.scalars then Err(InvalidFrame) else Ok((s.scalars[1], Lookup(s.blobs, field)))
  }

  /** The same of the whole frame: version, then the V1Frame. */
  function OuterV1(buf: Bytes, field: u32): (r: Result<(u64, Option<Bytes>)>) {
    var rest :- ReadVersion(buf);
    var outer :- Gather(Wants({}, {2}), rest);
    if 2 !in outer.blobs then Err(InvalidFrame) else DecodeV1(outer.blobs[2], field)
  }

  function V1Bytes(frameType: u64, field: u32, body: Bytes): (b: Bytes) {
    EncodeFields([Scalar(1, frameType), Blob(field, body)])
  }

  function EncodeOffline(frameType: u64, field: u32, body: Bytes): (b: Bytes) {
    EncodeFields([Scalar(1, VERSION_V1), Blob(2, V1Bytes(frameType, field, body))])
  }

  lemma VersionLocal(pre: Bytes, more: Bytes)
    requires ReadVersion(pre) == Ok([])
    ensures ReadVersion(pre + more) == Ok(more)
  {
    VarintLocal(pre, more);
    var (num, wire, rest) := ReadKey(pre).value;
    VarintLocal(rest, more);
    assert [] + more == more;
  }

  lemma VersionWritten()
    ensures ReadVersion(EncodeField(Scalar(1, VERSION_V1))) == Ok([])
  {
    var f := Scalar(1, VERSION_V1);
    KeyRoundTrip(f, EncodeBody(f));
    VarintRoundTrip(VERSION_V1, []);
    assert EncodeBody(f) + [] == EncodeBody(f);
  }

  /** The reader gives back type and body exactly when the V1Frame keeps the field limit. */
  lemma OfflineRoundTrip(frameType: u64, field: u32, body: Bytes)
    requires field > 0
    ensures if |V1Bytes(frameType, field, body)| <= MAX_FIELD_BYTES
            then OuterV1(EncodeOffline(frameType, field, body), field) == Ok((frameType, Some(body)))
            else OuterV1(EncodeOffline(frameType, field, body), field).Err?
  {
    var v1 := [Scalar(1, frameType), Blob(field, body)];
    var outer := [Blob(2, EncodeFields(v1))];
    var whole := [Scalar(1, VERSION_V1), Blob(2, EncodeFields(v1))];
    assert whole[1..] == outer;
    VersionWritten();
    VersionLocal(EncodeField(Scalar(1, VERSION_V1)), EncodeFields(outer));
    assert ReadVersion(EncodeFields(whole)) == Ok(EncodeFields(outer));
    if |EncodeFields(v1)| <= MAX_FIELD_BYTES {
      GatherEncoded(Wants({}, {2}), outer);
      LastBlobAt(outer, 0);
      BodyFits(v1);
      GatherEncoded(Wants({1}, {field}), v1);
      LastScalarAt(v1, 0);
      LastBlobAt(v1, 1);
    } else {
      OversizeNeverDecodes(Wants({}, {2}), outer, 0);
    }
  }

  lemma BodyFits(v1: seq<Field>)
    requires |v1| == 2 && v1[0].Scalar? && v1[0].num > 0 && v1[1].Blob? && v1[1].num > 0
    requires |EncodeFields(v1)| <= MAX_FIELD_BYTES
    ensures AllLegal(v1)
  {
    FieldFitsInside(v1, 1);
  }

  /** A frame has one type, whichever body its reader is after. */
  lemma TypeIndependentOfBody(buf: Bytes, f: u32, g: u32)
    ensures OuterV1(buf, f).Ok? <==> OuterV1(buf, g).Ok?
    ensures OuterV1(buf, f).Ok? ==> OuterV1(buf, f).value.0 == OuterV1(buf, g).value.0
  {
    var rest := ReadVersion(buf);
    if rest.Ok? {
      var outer := Gather(Wants({}, {2}), rest.value);
      if outer.Ok? && 2 in outer.value.blobs {
        var v1 := outer.value.blobs[2];
        GatherTotal(Wants({1}, {f}), v1);
        GatherTotal(Wants({1}, {g}), v1);
        if Fields(v1).Ok? {
          TypeIsLast(v1, f);
          TypeIsLast(v1, g);
        }
      }
    }
  }

  lemma TypeIsLast(v1: Bytes, f: u32)
    requires Fields(v1).Ok?
    ensures Gather(Wants({1}, {f}), v1).Ok?
    ensures Lookup(Gather(Wants({1}, {f}), v1).value.scalars, 1) == LastScalar(Fields(v1).value, 1)
  {
    GatherLastWins(Wants({1}, {f}), v1);
  }

  /** After the version field, unknown fields may stand at any field boundary of the frame. */
  lemma OuterSkipsUnknown(pre: Bytes, a: Bytes, u: Bytes, b: Bytes, field: u32)
    requires ReadVersion(pre) == Ok([]) && Fields(a).Ok? && Fields(u).Ok?
    requires forall i :: 0 <= i < |Fields(u).value| ==> !IsBlob(Fields(u).value[i], 2)
    ensures OuterV1(pre + (a + u + b), field) == OuterV1(pre + (a + b), field)
  {
    VersionLocal(pre, a + u + b);
    VersionLocal(pre, a + b);
    GatherSkipsUnknown(Wants({}, {2}), a, u, b);
  }
}
