/** The flat messages of proto-quickshare/src/wire.rs: decoders that remember the last
    value of the fields they know, and the messages of the encrypted channel. */
module Messages {
  import opened Prelude
  import opened Wire

  // ---------------------------------------------------------------- last value wins

  /** The Option locals of a decoder, by field number: which scalar and which
      length-delimited fields it has an arm for, and what they last held. */
  datatype Slots = Slots(
    scalarNums: set<u32>,
    blobNums: set<u32>,
    scalars: map<u32, u64>,
    blobs: map<u32, Bytes>)

  function Wants(scalarNums: set<u32>, blobNums: set<u32>): Slots {
    Slots(scalarNums, blobNums, map[], map[])
  }

  function GatherStep(s: Slots, f: Field): (r: Result<Slots>) {
    if f.Scalar? && f.num in s.scalarNums then Ok(s.(scalars := s.scalars[f.num := f.v]))
    else if f.Blob? && f.num in s.blobNums then Ok(s.(blobs := s.blobs[f.num := f.data]))
    else Ok(s)
  }

  function Gather(wants: Slots, buf: Bytes): (r: Result<Slots>) {
    Run(GatherStep, wants, buf)
  }

  predicate IsScalar(f: Field, num: u32) {
    f.Scalar? && f.num == num
  }

  predicate IsBlob(f: Field, num: u32) {
    f.Blob? && f.num == num
  }

  predicate Known(s: Slots, f: Field) {
    (f.Scalar? && f.num in s.scalarNums) || (f.Blob? && f.num in s.blobNums)
  }

  /** A flat decoder fails only when the bytes are not whole fields. */
  lemma {:induction false} GatherTotal(s: Slots, buf: Bytes)
    ensures match Fields(buf)
            case Err(e) => Gather(s, buf) == Err(e)
            case Ok(fields) => Gather(s, buf) == Absorb(GatherStep, s, fields) && Gather(s, buf).Ok?
    decreases |buf|
  {
    if buf == [] {
    } else {
      var r := ReadField(buf);
      if r.Ok? {
        var (f, rest) := r.value;
        var s' := GatherStep(s, f).value;
        GatherTotal(s', rest);
        if Fields(rest).Ok? {
          var fields := Fields(rest).value;
          assert ([f] + fields)[1..] == fields;
        }
      }
    }
  }

  function Lookup<T>(m: map<u32, T>, num: u32): Option<T> {
    if num in m then Some(m[num]) else None
  }

  function Or<T>(a: Option<T>, b: Option<T>): Option<T> {
    if a.Some? then a else b
  }

  /** What the last scalar field with this number carries, if there is one. */
  function LastScalar(fields: seq<Field>, num: u32): (r: Option<u64>)
    decreases |fields|
  {
    if fields == [] then None
    else Or(LastScalar(fields[1..], num), if IsScalar(fields[0], num) then Some(fields[0].v) else None)
  }

  function LastBlob(fields: seq<Field>, num: u32): (r: Option<Bytes>)
    decreases |fields|
  {
    if fields == [] then None
    else Or(LastBlob(fields[1..], num), if IsBlob(fields[0], num) then Some(fields[0].data) else None)
  }

  lemma {:induction false} LastScalarAt(fields: seq<Field>, i: nat)
    requires i < |fields| && fields[i].Scalar?
    requires forall j :: i < j < |fields| ==> !IsScalar(fields[j], fields[i].num)
    ensures LastScalar(fields, fields[i].num) == Some(fields[i].v)
    decreases i
  {
    var tail := fields[1..];
    if i == 0 {
      forall j | 0 <= j < |tail| ensures !IsScalar(tail[j], fields[0].num) { assert tail[j] == fields[j + 1]; }
      LastScalarNone(tail, fields[0].num);
    } else {
      LastScalarAt(tail, i - 1);
    }
  }

  lemma {:induction false} LastScalarNone(fields: seq<Field>, num: u32)
    requires forall j :: 0 <= j < |fields| ==> !IsScalar(fields[j], num)
    ensures LastScalar(fields, num) == None
    decreases |fields|
  {
    if fields == [] {
    } else {
      LastScalarNone(fields[1..], num);
    }
  }

  lemma {:induction false} LastBlobAt(fields: seq<Field>, i: nat)
    requires i < |fields| && fields[i].Blob?
    requires forall j :: i < j < |fields| ==> !IsBlob(fields[j], fields[i].num)
    ensures LastBlob(fields, fields[i].num) == Some(fields[i].data)
    decreases i
  {
    var tail := fields[1..];
    if i == 0 {
      forall j | 0 <= j < |tail| ensures !IsBlob(tail[j], fields[0].num) { assert tail[j] == fields[j + 1]; }
      LastBlobNone(tail, fields[0].num);
    } else {
      LastBlobAt(tail, i - 1);
    }
  }

  lemma {:induction false} LastBlobNone(fields: seq<Field>, num: u32)
    requires forall j :: 0 <= j < |fields| ==> !IsBlob(fields[j], num)
    ensures LastBlob(fields, num) == None
    decreases |fields|
  {
    if fields == [] {
    } else {
      LastBlobNone(fields[1..], num);
    }
  }

  /** The arms of a decoder, seen from outside: a known field holds the value of its last
      occurrence, and what it held before only if it never occurred. */
  ghost predicate HoldsLast(s0: Slots, fields: seq<Field>, s: Slots) {
    && s.scalarNums == s0.scalarNums && s.blobNums == s0.blobNums
    && (forall num :: num in s.scalarNums ==>
          Lookup(s.scalars, num) == Or(LastScalar(fields, num), Lookup(s0.scalars, num)))
    && (forall num :: num in s.blobNums ==>
          Lookup(s.blobs, num) == Or(LastBlob(fields, num), Lookup(s0.blobs, num)))
  }

  lemma {:induction false} AbsorbHoldsLast(s0: Slots, fields: seq<Field>)
    ensures Absorb(GatherStep, s0, fields).Ok?
    ensures HoldsLast(s0, fields, Absorb(GatherStep, s0, fields).value)
    decreases |fields|
  {
    if fields == [] {
    } else {
      AbsorbHoldsLast(GatherStep(s0, fields[0]).value, fields[1..]);
    }
  }

  /** Every flat decoder: last occurrence wins, on every input that is whole fields. */
  lemma GatherLastWins(wants: Slots, buf: Bytes)
    requires Fields(buf).Ok?
    ensures Gather(wants, buf).Ok? && HoldsLast(wants, Fields(buf).value, Gather(wants, buf).value)
  {
    GatherTotal(wants, buf);
    AbsorbHoldsLast(wants, Fields(buf).value);
  }

  /** The same for what a printer wrote. */
  lemma GatherEncoded(wants: Slots, fields: seq<Field>)
    requires AllLegal(fields)
    ensures Gather(wants, EncodeFields(fields)).Ok?
    ensures HoldsLast(wants, fields, Gather(wants, EncodeFields(fields)).value)
  {
    RunOfEncoded(GatherStep, wants, fields);
    AbsorbHoldsLast(wants, fields);
  }

  lemma {:induction false} GatherKeepsWants(s: Slots, buf: Bytes)
    ensures Gather(s, buf).Ok? ==>
              Gather(s, buf).value.scalarNums == s.scalarNums && Gather(s, buf).value.blobNums == s.blobNums
    decreases |buf|
  {
    if buf == [] {
    } else if ReadField(buf).Ok? {
      var (f, rest) := ReadField(buf).value;
      GatherKeepsWants(GatherStep(s, f).value, rest);
    }
  }

  /** Fields a flat decoder has no arm for can be inserted at any field boundary. */
  lemma GatherSkipsUnknown(wants: Slots, a: Bytes, u: Bytes, b: Bytes)
    requires Fields(a).Ok? && Fields(u).Ok?
    requires forall i :: 0 <= i < |Fields(u).value| ==> !Known(wants, Fields(u).value[i])
    ensures Gather(wants, a + u + b) == Gather(wants, a + b)
  {
    GatherKeepsWants(wants, a);
    UnknownFieldsSkipped(GatherStep, wants, a, u, b);
  }

  /** Once a field is too long for the reader, nothing printed around it is readable. */
  lemma {:induction false} OversizeNeverDecodes(wants: Slots, fields: seq<Field>, k: nat)
    requires k < |fields| && AllLegal(fields[..k])
    requires fields[k].Blob? && fields[k].num > 0 && |fields[k].data| > MAX_FIELD_BYTES
    ensures Gather(wants, EncodeFields(fields)).Err?
    decreases k
  {
    hide EncodeField, ReadField, LegalField;
    var tail := fields[1..];
    if k == 0 {
      OversizeFieldRefused(fields[0].num, fields[0].data, EncodeFields(tail));
    } else {
      assert LegalField(fields[..k][0]);
      FieldRoundTrip(fields[0], EncodeFields(tail));
      assert tail[..k - 1] == fields[..k][1..];
      OversizeNeverDecodes(GatherStep(wants, fields[0]).value, tail, k - 1);
    }
  }
}
