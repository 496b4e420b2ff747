/** The protobuf subset of proto-quickshare/src/wire.rs: variable-length integers,
    fields, the in-place reader, and the field loop that every decoder runs. */
module Wire {
  import opened Prelude

  const MAX_FIELD_BYTES: nat := 1024 * 1024

  // ---------------------------------------------------------------- varint

  function Varint(v: nat): (b: Bytes)
    ensures |b| >= 1
    decreases v
  {
    if v < 128 then [v] else [v % 128 + 128] + Varint(v / 128)
  }

  /** Value of the integer at the front of `s` when `i` bytes of it were already read,
      with what follows it. At most ten bytes; the tenth may only carry one bit. */
  function ReadVarintAt(s: Bytes, i: nat): (r: Result<(nat, Bytes)>)
    requires i <= 10
    ensures r.Ok? ==> r.value.0 < Capacity(i) && |r.value.1| < |s|
    decreases 10 - i
  {
    if i == 10 || s == [] then Err(InvalidFrame)
    else if i == 9 && s[0] > 1 then Err(InvalidFrame)
    else if s[0] < 128 then Ok((s[0], s[1..]))
    else
      var (v, rest) :- ReadVarintAt(s[1..], i + 1);
      Ok((s[0] - 128 + 128 * v, rest))
  }

  /** Number of values that still fit a u64 after `i` groups of seven bits. */
  function Capacity(i: nat): (c: nat)
    requires i <= 10
    ensures c >= 1
    decreases 10 - i
  {
    if i == 10 then 1 else if i == 9 then 2 else 128 * Capacity(i + 1)
  }

  lemma CapacityOfU64()
    ensures Capacity(0) == TWO_64
  {
    assert Capacity(7) == 32768;
    assert Capacity(5) == 32768 * 16384;
    assert Capacity(3) == 32768 * 16384 * 16384;
    assert Capacity(1) == 32768 * 16384 * 16384 * 16384;
  }

  function ReadVarint(s: Bytes): (r: Result<(u64, Bytes)>)
    ensures r.Ok? ==> |r.value.1| < |s|
  {
    CapacityOfU64();
    var (v, rest) :- ReadVarintAt(s, 0);
    Ok((v, rest))
  }

  lemma {:induction false} VarintRoundTripAt(v: nat, i: nat, rest: Bytes)
    requires i <= 9 && v < Capacity(i)
    ensures ReadVarintAt(Varint(v) + rest, i) == Ok((v, rest))
    ensures |Varint(v)| <= 10 - i
    decreases v
  {
    var s := Varint(v) + rest;
    if v < 128 {
      assert s[1..] == rest;
    } else {
      VarintRoundTripAt(v / 128, i + 1, rest);
      assert s[1..] == Varint(v / 128) + rest;
    }
  }

  /** Reading inverts writing for every u64, in at most ten bytes. */
  lemma VarintRoundTrip(v: u64, rest: Bytes)
    ensures ReadVarint(Varint(v) + rest) == Ok((v, rest))
    ensures |Varint(v)| <= 10
  {
    CapacityOfU64();
    VarintRoundTripAt(v, 0, rest);
  }

  lemma {:induction false} VarintOverflowAt(v: nat, i: nat, rest: Bytes)
    requires i <= 10 && v >= Capacity(i)
    ensures ReadVarintAt(Varint(v) + rest, i) == Err(InvalidFrame)
    decreases v
  {
    if i >= 9 {
    } else {
      VarintOverflowAt(v / 128, i + 1, rest);
      assert (Varint(v) + rest)[1..] == Varint(v / 128) + rest;
    }
  }

  /** What was read does not depend on what follows it. */
  lemma {:induction false} VarintLocalAt(s: Bytes, i: nat, more: Bytes)
    requires i <= 10 && ReadVarintAt(s, i).Ok?
    ensures ReadVarintAt(s + more, i) == Ok((ReadVarintAt(s, i).value.0, ReadVarintAt(s, i).value.1 + more))
    decreases 10 - i
  {
    assert (s + more)[1..] == s[1..] + more;
    if s[0] < 128 {
    } else {
      VarintLocalAt(s[1..], i + 1, more);
    }
  }

  lemma VarintLocal(s: Bytes, more: Bytes)
    requires ReadVarint(s).Ok?
    ensures ReadVarint(s + more) == Ok((ReadVarint(s).value.0, ReadVarint(s).value.1 + more))
  {
    VarintLocalAt(s, 0, more);
  }

  // ---------------------------------------------------------------- fields

  /** One field of a message; the constructor stands for the wire type. */
  datatype Field =
    | Scalar(num: u32, v: u64)
    | Blob(num: u32, data: Bytes)
    | Fixed64(num: u32, data: Bytes)
    | Fixed32(num: u32, data: Bytes)

  function WireType(f: Field): (w: nat)
    ensures w < 8
  {
    match f
    case Scalar(_, _) => 0
    case Fixed64(_, _) => 1
    case Blob(_, _) => 2
    case Fixed32(_, _) => 5
  }

  function KeyOf(f: Field): (k: nat) {
    f.num * 8 + WireType(f)
  }

  function EncodeBody(f: Field): (b: Bytes) {
    match f
    case Scalar(_, v) => Varint(v)
    case Blob(_, data) => LengthPrefixed(data)
    case Fixed64(_, data) => data
    case Fixed32(_, data) => data
  }

  function LengthPrefixed(data: Bytes): (b: Bytes) {
    Varint(|data|) + data
  }

  function EncodeField(f: Field): (b: Bytes)
    ensures |b| >= 1
  {
    Varint(KeyOf(f)) + EncodeBody(f)
  }

  /** Field number and wire type; the number is cut to 32 bits before the zero check. */
  function ReadKey(s: Bytes): (r: Result<(u32, nat, Bytes)>)
    ensures r.Ok? ==> |r.value.2| < |s| && r.value.1 < 8 && r.value.0 != 0
  {
    var (key, rest) :- ReadVarint(s);
    var num := (key / 8) % TWO_32;
    if num == 0 then Err(InvalidFrame) else Ok((num, key % 8, rest))
  }

  function ReadBlob(s: Bytes): (r: Result<(Bytes, Bytes)>)
    ensures r.Ok? ==> |r.value.1| < |s|
    ensures r.Ok? ==> |r.value.0| <= MAX_FIELD_BYTES
  {
    var (len, rest) :- ReadVarint(s);
    if len > MAX_FIELD_BYTES then Err(ResourceLimit)
    else if len > |rest| then Err(InvalidFrame)
    else Ok((rest[..len], rest[len..]))
  }

  function ReadFixed(s: Bytes, n: nat): (r: Result<(Bytes, Bytes)>)
    ensures r.Ok? ==> r.value.0 + r.value.1 == s && |r.value.0| == n
  {
    if n > |s| then Err(InvalidFrame) else Ok((s[..n], s[n..]))
  }

  function ReadBody(num: u32, wire: nat, s: Bytes): (r: Result<(Field, Bytes)>)
    ensures r.Ok? ==> |r.value.1| <= |s|
  {
    if wire == 0 then
      var (v, tail) :- ReadVarint(s);
      Ok((Scalar(num, v), tail))
    else if wire == 1 then
      var (data, tail) :- ReadFixed(s, 8);
      Ok((Fixed64(num, data), tail))
    else if wire == 2 then
      var (data, tail) :- ReadBlob(s);
      Ok((Blob(num, data), tail))
    else if wire == 5 then
      var (data, tail) :- ReadFixed(s, 4);
      Ok((Fixed32(num, data), tail))
    else Err(InvalidFrame)
  }

  function ReadField(s: Bytes): (r: Result<(Field, Bytes)>)
    ensures r.Ok? ==> |r.value.1| < |s|
  {
    var (num, wire, rest) :- ReadKey(s);
    ReadBody(num, wire, rest)
  }

  /** What the writer may emit and the reader gives back. */
  predicate LegalField(f: Field) {
    && f.num > 0
    && match f
       case Scalar(_, _) => true
       case Blob(_, data) => |data| <= MAX_FIELD_BYTES
       case Fixed64(_, data) => |data| == 8
       case Fixed32(_, data) => |data| == 4
  }

  lemma KeyRoundTrip(f: Field, rest: Bytes)
    requires f.num > 0
    ensures ReadKey(Varint(KeyOf(f)) + rest) == Ok((f.num, WireType(f), rest))
  {
    hide Varint, ReadVarint;
    VarintRoundTrip(KeyOf(f), rest);
    KeyParts(f.num, WireType(f));
  }

  lemma KeyParts(num: u32, wire: nat)
    requires wire < 8
    ensures (num * 8 + wire) / 8 % TWO_32 == num && (num * 8 + wire) % 8 == wire
  {
  }

  lemma BlobRoundTrip(data: Bytes, rest: Bytes)
    ensures |data| <= MAX_FIELD_BYTES ==> ReadBlob(LengthPrefixed(data) + rest) == Ok((data, rest))
    ensures |data| > MAX_FIELD_BYTES ==> ReadBlob(LengthPrefixed(data) + rest).Err?
    ensures MAX_FIELD_BYTES < |data| < TWO_64 ==> ReadBlob(LengthPrefixed(data) + rest) == Err(ResourceLimit)
  {
    Assoc(Varint(|data|), data, rest);
    if |data| < TWO_64 {
      VarintRoundTrip(|data|, data + rest);
      Split(data, rest);
    } else {
      CapacityOfU64();
      VarintOverflowAt(|data|, 0, data + rest);
    }
  }

  lemma BodyRoundTrip(f: Field, rest: Bytes)
    requires LegalField(f)
    ensures ReadBody(f.num, WireType(f), EncodeBody(f) + rest) == Ok((f, rest))
  {
    match f {
      case Scalar(_, v) => VarintRoundTrip(v, rest);
      case Blob(_, data) => BlobRoundTrip(data, rest);
      case Fixed64(_, data) => Split(data, rest);
      case Fixed32(_, data) => Split(data, rest);
    }
  }

  /** Reading inverts writing for every legal field. */
  lemma FieldRoundTrip(f: Field, rest: Bytes)
    requires LegalField(f)
    ensures ReadField(EncodeField(f) + rest) == Ok((f, rest))
  {
    Assoc(Varint(KeyOf(f)), EncodeBody(f), rest);
    KeyRoundTrip(f, EncodeBody(f) + rest);
    BodyRoundTrip(f, rest);
  }

  /** A field over the reader's limit is written but never read back. */
  lemma OversizeFieldRefused(num: u32, data: Bytes, rest: Bytes)
    requires num > 0 && MAX_FIELD_BYTES < |data|
    ensures ReadField(EncodeField(Blob(num, data)) + rest).Err?
    ensures |data| < TWO_64 ==> ReadField(EncodeField(Blob(num, data)) + rest) == Err(ResourceLimit)
  {
    var f := Blob(num, data);
    Assoc(Varint(KeyOf(f)), EncodeBody(f), rest);
    KeyRoundTrip(f, EncodeBody(f) + rest);
    BlobRoundTrip(data, rest);
  }

  lemma BodyLocal(num: u32, wire: nat, s: Bytes, more: Bytes)
    requires ReadBody(num, wire, s).Ok?
    ensures ReadBody(num, wire, s + more) ==
            Ok((ReadBody(num, wire, s).value.0, ReadBody(num, wire, s).value.1 + more))
  {
    if wire == 0 {
      VarintLocal(s, more);
    } else if wire == 2 {
      VarintLocal(s, more);
      var (len, tail) := ReadVarint(s).value;
      Extend(tail, len, more);
    } else if wire == 1 {
      Extend(s, 8, more);
    } else {
      Extend(s, 4, more);
    }
  }

  /** What was read does not depend on what follows it. */
  lemma FieldLocal(s: Bytes, more: Bytes)
    requires ReadField(s).Ok?
    ensures ReadField(s + more) == Ok((ReadField(s).value.0, ReadField(s).value.1 + more))
  {
    VarintLocal(s, more);
    var (num, wire, rest) := ReadKey(s).value;
    BodyLocal(num, wire, rest, more);
  }

  // ---------------------------------------------------------------- the field loop

  /** The loop of every decoder: read a field, let `step` absorb it (the arms of the
      match; an arm it has no use for is the skip), until the input is used up. */
  function Run<S>(step: (S, Field) -> Result<S>, s: S, buf: Bytes): (r: Result<S>)
    decreases |buf|
  {
    if buf == [] then Ok(s)
    else
      var (f, rest) :- ReadField(buf);
      var s' :- step(s, f);
      Run(step, s', rest)
  }

  /** The same loop over fields that were already read. */
  function Absorb<S>(step: (S, Field) -> Result<S>, s: S, fields: seq<Field>): (r: Result<S>)
    decreases |fields|
  {
    if fields == [] then Ok(s)
    else
      var s' :- step(s, fields[0]);
      Absorb(step, s', fields[1..])
  }

  function EncodeFields(fields: seq<Field>): (b: Bytes) {
    if fields == [] then [] else EncodeField(fields[0]) + EncodeFields(fields[1..])
  }

  ghost predicate AllLegal(fields: seq<Field>) {
    forall i :: 0 <= i < |fields| ==> LegalField(fields[i])
  }

  /** The fields a byte string consists of, when it consists of whole fields. */
  function Fields(buf: Bytes): (r: Result<seq<Field>>)
    decreases |buf|
  {
    if buf == [] then Ok([])
    else
      var (f, rest) :- ReadField(buf);
      var tail :- Fields(rest);
      Ok([f] + tail)
  }

  lemma {:induction false} FieldsRoundTrip(fields: seq<Field>)
    requires AllLegal(fields)
    ensures Fields(EncodeFields(fields)) == Ok(fields)
    decreases |fields|
  {
    if fields == [] {
    } else {
      var tail := fields[1..];
      FieldRoundTrip(fields[0], EncodeFields(tail));
      FieldsRoundTrip(tail);
      HeadTail(fields);
    }
  }

  lemma {:induction false} EncodeFieldsAppend(a: seq<Field>, b: seq<Field>)
    ensures EncodeFields(a + b) == EncodeFields(a) + EncodeFields(b)
    decreases |a|
  {
    if a == [] {
      assert a + b == b;
    } else {
      var tail := a[1..];
      EncodeFieldsAppend(tail, b);
      Extend(a, 1, b);
      Assoc(EncodeField(a[0]), EncodeFields(tail), EncodeFields(b));
    }
  }

  /** Decoding a printed message is absorbing its fields in order. */
  lemma {:induction false} RunOfEncoded<S>(step: (S, Field) -> Result<S>, s: S, fields: seq<Field>)
    requires AllLegal(fields)
    ensures Run(step, s, EncodeFields(fields)) == Absorb(step, s, fields)
    decreases |fields|
  {
    if fields == [] {
    } else {
      FieldRoundTrip(fields[0], EncodeFields(fields[1..]));
      var r := step(s, fields[0]);
      if r.Ok? {
        RunOfEncoded(step, r.value, fields[1..]);
      }
    }
  }

  /** At a field boundary a decoder can be stopped and resumed. */
  lemma {:induction false} RunAppend<S>(step: (S, Field) -> Result<S>, s: S, a: Bytes, b: Bytes)
    requires Fields(a).Ok?
    ensures Run(step, s, a + b) ==
            match Run(step, s, a) case Err(e) => Err(e) case Ok(s') => Run(step, s', b)
    decreases |a|
  {
    if a == [] {
      assert a + b == b;
    } else {
      FieldLocal(a, b);
      var (f, rest) := ReadField(a).value;
      var r := step(s, f);
      if r.Ok? {
        RunAppend(step, r.value, rest, b);
      }
    }
  }

  lemma {:induction false} AbsorbAppend<S>(step: (S, Field) -> Result<S>, s: S, a: seq<Field>, b: seq<Field>)
    ensures Absorb(step, s, a + b) ==
            match Absorb(step, s, a) case Err(e) => Err(e) case Ok(t) => Absorb(step, t, b)
    decreases |a|
  {
    if a == [] {
      assert a + b == b;
    } else {
      Extend(a, 1, b);
      var r := step(s, a[0]);
      if r.Ok? {
        AbsorbAppend(step, r.value, a[1..], b);
      }
    }
  }

  lemma AbsorbOne<S>(step: (S, Field) -> Result<S>, s: S, f: Field)
    ensures Absorb(step, s, [f]) == step(s, f)
  {
    assert [f][1..] == [];
  }

  /** In this state the step has no arm for any of the fields. */
  ghost predicate IgnoresAt<S>(step: (S, Field) -> Result<S>, s: S, fields: seq<Field>) {
    forall i :: 0 <= i < |fields| ==> step(s, fields[i]) == Ok(s)
  }

  ghost predicate Ignores<S(!new)>(step: (S, Field) -> Result<S>, fields: seq<Field>) {
    forall s: S :: IgnoresAt(step, s, fields)
  }

  lemma {:induction false} RunIgnored<S>(step: (S, Field) -> Result<S>, s: S, u: Bytes)
    requires Fields(u).Ok? && IgnoresAt(step, s, Fields(u).value)
    ensures Run(step, s, u) == Ok(s)
    decreases |u|
  {
    if u == [] {
    } else {
      var (f, rest) := ReadField(u).value;
      var fields := Fields(u).value;
      assert fields[0] == f && fields[1..] == Fields(rest).value;
      assert step(s, fields[0]) == Ok(s);
      forall i | 0 <= i < |fields[1..]| ensures step(s, fields[1..][i]) == Ok(s) {
        assert fields[1..][i] == fields[i + 1];
      }
      RunIgnored(step, s, rest);
    }
  }

  /** Inserting well-formed fields that a decoder does not know, at any field boundary,
      never changes what it returns - neither a value nor an error. */
  lemma UnknownFieldsSkipped<S(!new)>(step: (S, Field) -> Result<S>, s: S, a: Bytes, u: Bytes, b: Bytes)
    requires Fields(a).Ok? && Fields(u).Ok?
    requires Run(step, s, a).Ok? ==> IgnoresAt(step, Run(step, s, a).value, Fields(u).value)
    ensures Run(step, s, a + u + b) == Run(step, s, a + b)
  {
    RunAppend(step, s, a, u + b);
    RunAppend(step, s, a, b);
    Assoc(a, u, b);
    var r := Run(step, s, a);
    if r.Ok? {
      RunAppend(step, r.value, u, b);
      RunIgnored(step, r.value, u);
    }
  }

  // ---------------------------------------------------------------- lengths

  lemma ScalarFieldLength(num: u32, v: u64)
    ensures |EncodeField(Scalar(num, v))| <= 20
  {
    VarintRoundTrip(num * 8, []);
    VarintRoundTrip(v, []);
  }

  lemma BlobFieldLength(num: u32, data: Bytes)
    requires |data| < TWO_64
    ensures |EncodeField(Blob(num, data))| <= |data| + 20
  {
    VarintRoundTrip(num * 8 + 2, []);
    VarintRoundTrip(|data|, []);
  }

  lemma TwoFieldsLength(f: Field, g: Field)
    ensures |EncodeFields([f, g])| == |EncodeField(f)| + |EncodeField(g)|
  {
    assert [f, g] == [f] + [g];
    EncodeFieldsAppend([f], [g]);
    assert EncodeFields([f]) == EncodeField(f) && EncodeFields([g]) == EncodeField(g);
  }

  lemma {:induction false} FieldFitsInside(fields: seq<Field>, k: nat)
    requires k < |fields| && fields[k].Blob?
    ensures |fields[k].data| < |EncodeFields(fields)|
    decreases k
  {
    if k == 0 {
    } else {
      FieldFitsInside(fields[1..], k - 1);
    }
  }

  /** Fields of a message that itself fits are short enough for the reader. */
  lemma InsideLimitLegal(fields: seq<Field>)
    requires |EncodeFields(fields)| <= MAX_FIELD_BYTES
    requires forall i :: 0 <= i < |fields| ==> fields[i].num > 0 && (fields[i].Scalar? || fields[i].Blob?)
    ensures AllLegal(fields)
  {
    forall i | 0 <= i < |fields| ensures LegalField(fields[i]) {
      if fields[i].Blob? {
        FieldFitsInside(fields, i);
      }
    }
  }

  lemma {:induction false} ScalarsLength(fields: seq<Field>)
    requires forall i :: 0 <= i < |fields| ==> fields[i].Scalar?
    ensures |EncodeFields(fields)| <= 20 * |fields|
    decreases |fields|
  {
    if fields == [] {
    } else {
      ScalarFieldLength(fields[0].num, fields[0].v);
      ScalarsLength(fields[1..]);
    }
  }

  // ---------------------------------------------------------------- in-place code

  method WriteVarint(out: Bytes, value: nat) returns (r: Bytes)
    ensures r == out + Varint(value)
  {
    r := out;
    var v := value;
    while v >= 128
      invariant r + Varint(v) == out + Varint(value)
      decreases v
    {
      var low := v % 128;
      assert Varint(v) == [low + 128] + Varint(v / 128);
      r := r + [low + 128];
      v := v / 128;
    }
    r := r + [v];
  }

  method WriteScalarField(out: Bytes, field: u32, v: u64) returns (r: Bytes)
    ensures r == out + EncodeField(Scalar(field, v))
  {
    r := WriteVarint(out, field * 8);
    r := WriteVarint(r, v);
    Assoc(out, Varint(field * 8), Varint(v));
  }

  method WriteBytesField(out: Bytes, field: u32, data: Bytes) returns (r: Bytes)
    ensures r == out + EncodeField(Blob(field, data))
  {
    r := WriteVarint(out, field * 8 + 2);
    r := WriteVarint(r, |data|);
    ghost var key, len := Varint(field * 8 + 2), Varint(|data|);
    r := r + data;
    Assoc(out + key, len, data);
    Assoc(out, key, len + data);
  }

  /** The reader: a buffer and a position that moves forward in place. */
  class Reader {
    const buf: Bytes
    var pos: nat

    ghost predicate Valid()
      reads this
    {
      pos <= |buf|
    }

    ghost function Remaining(): Bytes
      requires Valid()
      reads this
    {
      buf[pos..]
    }

    constructor (buf: Bytes)
      ensures Valid() && this.buf == buf && pos == 0
    {
      this.buf := buf;
      pos := 0;
    }

    method Byte() returns (r: Result<byte>)
      requires Valid()
      modifies this`pos
      ensures Valid()
      ensures old(Remaining()) == [] ==> r == Err(InvalidFrame) && pos == old(pos)
      ensures old(Remaining()) != [] ==> r == Ok(old(Remaining())[0]) && pos == old(pos) + 1
    {
      if pos >= |buf| {
        return Err(InvalidFrame);
      }
      r := Ok(buf[pos]);
      pos := pos + 1;
    }

    /** Accumulates seven bits per byte, each group 128 times as heavy as the one before;
        agrees with the recursive definition. */
    method Varint() returns (r: Result<u64>)
      requires Valid()
      modifies this`pos
      ensures Valid() && old(pos) <= pos
      ensures match ReadVarint(old(Remaining()))
              case Err(e) => r == Err(e)
              case Ok((v, rest)) => r == Ok(v) && Remaining() == rest && pos > old(pos)
    {
      ghost var start := Remaining();
      var result: nat, weight: nat := 0, 1;
      var shift := 0;
      while shift < 10
        invariant 0 <= shift <= 10
        invariant Valid() && pos == old(pos) + shift
        invariant ReadVarintAt(start, 0) == Resume(result, weight, ReadVarintAt(Remaining(), shift))
      {
        ghost var before := Remaining();
        var b := Byte();
        if b.Err? {
          return Err(b.code);
        }
        assert Remaining() == before[1..];
        if shift == 9 && b.value > 1 {
          return Err(InvalidFrame);
        }
        ResumeStep(result, weight, before, shift);
        result := Accumulate(result, b.value % 128, weight);
        if b.value < 128 {
          CapacityOfU64();
          return Ok(result);
        }
        weight := 128 * weight;
        shift := shift + 1;
      }
      return Err(InvalidFrame);
    }

    /** Looks at the declared length before it slices. */
    method BytesField() returns (r: Result<Bytes>)
      requires Valid()
      modifies this`pos
      ensures Valid() && old(pos) <= pos
      ensures match ReadBlob(old(Remaining()))
              case Err(e) => r == Err(e)
              case Ok((data, rest)) => r == Ok(data) && Remaining() == rest && pos > old(pos)
    {
      var len := Varint();
      if len.Err? {
        return Err(len.code);
      }
      if len.value > MAX_FIELD_BYTES {
        return Err(ResourceLimit);
      }
      var end := pos + len.value;
      if end > |buf| {
        return Err(InvalidFrame);
      }
      r := Ok(buf[pos..end]);
      assert buf[pos..][..len.value] == buf[pos..end];
      assert buf[pos..][len.value..] == buf[end..];
      pos := end;
    }

    method Fixed(n: nat) returns (r: Result<Bytes>)
      requires Valid()
      modifies this`pos
      ensures Valid() && old(pos) <= pos
      ensures match ReadFixed(old(Remaining()), n)
              case Err(e) => r == Err(e)
              case Ok((data, rest)) => r == Ok(data) && Remaining() == rest
    {
      if pos + n > |buf| {
        return Err(InvalidFrame);
      }
      r := Ok(buf[pos..pos + n]);
      assert buf[pos..][..n] == buf[pos..pos + n];
      assert buf[pos..][n..] == buf[pos + n..];
      pos := pos + n;
    }

    method NextKey() returns (r: Result<(u32, nat)>)
      requires Valid()
      modifies this`pos
      ensures Valid() && old(pos) <= pos
      ensures match ReadKey(old(Remaining()))
              case Err(e) => r == Err(e)
              case Ok((num, wire, rest)) => r == Ok((num, wire)) && Remaining() == rest && pos > old(pos)
    {
      var key := Varint();
      if key.Err? {
        return Err(key.code);
      }
      var num := (key.value / 8) % TWO_32;
      if num == 0 {
        return Err(InvalidFrame);
      }
      return Ok((num, key.value % 8));
    }

    method NextField() returns (r: Result<Field>)
      requires Valid()
      modifies this`pos
      ensures Valid() && old(pos) <= pos
      ensures match ReadField(old(Remaining()))
              case Err(e) => r == Err(e)
              case Ok((f, rest)) => r == Ok(f) && Remaining() == rest && pos > old(pos)
    {
      var key := NextKey();
      if key.Err? {
        return Err(key.code);
      }
      var (num, wire) := key.value;
      if wire == 0 {
        var v := Varint();
        return if v.Err? then Err(v.code) else Ok(Scalar(num, v.value));
      } else if wire == 1 {
        var d := Fixed(8);
        return if d.Err? then Err(d.code) else Ok(Fixed64(num, d.value));
      } else if wire == 2 {
        var d := BytesField();
        return if d.Err? then Err(d.code) else Ok(Blob(num, d.value));
      } else if wire == 5 {
        var d := Fixed(4);
        return if d.Err? then Err(d.code) else Ok(Fixed32(num, d.value));
      }
      return Err(InvalidFrame);
    }
  }

  function Accumulate(acc: nat, group: nat, weight: nat): nat {
    acc + group * weight
  }

  /** The value read so far combined with what the rest of the input yields. */
  ghost function Resume(acc: nat, weight: nat, r: Result<(nat, Bytes)>): Result<(nat, Bytes)> {
    match r
    case Err(e) => Err(e)
    case Ok((v, rest)) => Ok((Accumulate(acc, v, weight), rest))
  }

  lemma AccumulateStep(acc: nat, group: nat, weight: nat, v: nat)
    ensures Accumulate(acc, group + 128 * v, weight) == Accumulate(Accumulate(acc, group, weight), v, 128 * weight)
  {
    assert (group + 128 * v) * weight == group * weight + v * (128 * weight);
  }

  lemma ResumeStep(acc: nat, weight: nat, s: Bytes, i: nat)
    requires i < 10 && s != [] && !(i == 9 && s[0] > 1)
    ensures Resume(acc, weight, ReadVarintAt(s, i)) ==
            var acc' := Accumulate(acc, s[0] % 128, weight);
            if s[0] < 128 then Ok((acc', s[1..]))
            else Resume(acc', 128 * weight, ReadVarintAt(s[1..], i + 1))
  {
    if s[0] >= 128 {
      var r := ReadVarintAt(s[1..], i + 1);
      if r.Ok? {
        AccumulateStep(acc, s[0] - 128, weight, r.value.0);
      }
    }
  }

  /** The field loop as the source runs it: a reader that advances, a state that is filled. */
  method Decode<S>(step: (S, Field) -> Result<S>, init: S, buf: Bytes) returns (r: Result<S>)
    ensures r == Run(step, init, buf)
  {
    var reader := new Reader(buf);
    assert buf[0..] == buf;
    var s := init;
    while reader.pos < |reader.buf|
      invariant reader.Valid() && reader.buf == buf
      invariant fresh(reader)
      invariant Run(step, init, buf) == Run(step, s, reader.Remaining())
      decreases |buf| - reader.pos
    {
      var f := reader.NextField();
      if f.Err? {
        return Err(f.code);
      }
      var next := step(s, f.value);
      if next.Err? {
        return Err(next.code);
      }
      s := next.value;
    }
    r := Ok(s);
  }
}
