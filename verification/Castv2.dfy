/** The CASTV2 envelope of proto-cast/src/castv2.rs. It has a protobuf reader of its own,
    which differs from the one in `Wire`: it has no field limit, and it lets the tenth byte
    of an integer carry bits that the shift then drops. Strings are their UTF-8 bytes. */
module Castv2 {
  import opened Prelude
  import W = Wire
  import Payload

  const HEADER_BYTES: nat := 4
  const MAX_BODY_BYTES: nat := 65536

  datatype Body = Utf8(text: Payload.Text) | Binary(data: Bytes) {
    function TypeCode(): u64 {
      if Utf8? then 0 else 1
    }
  }

  datatype Message = Message(version: byte, source: Payload.Text, destination: Payload.Text, namespace: Payload.Text,
      payload: Body)

  // ---------------------------------------------------------------- the reader

  /** The group of seven bits in a byte, as far as it stays in the u64. */
  function Group(b: byte, i: nat): nat {
    if i == 9 then b % 2 else b % 128
  }

  /** The integer in front of `s` when `i` bytes of it were already read. */
  function ReadVarintAt(s: Bytes, i: nat): (r: Result<(nat, Bytes)>)
    requires i <= 9
    ensures r.Ok? ==> r.value.0 < W.Capacity(i) && |r.value.1| < |s|
    decreases 9 - i
  {
    if s == [] then Err(InvalidFrame)
    else if s[0] < 128 then Ok((Group(s[0], i), s[1..]))
    else if i == 9 then Err(InvalidFrame)
    else
      var (v, rest) :- ReadVarintAt(s[1..], i + 1);
      Ok((Group(s[0], i) + 128 * v, rest))
  }

  function ReadVarint(s: Bytes): (r: Result<(u64, Bytes)>)
    ensures r.Ok? ==> |r.value.1| < |s|
  {
    W.CapacityOfU64();
    var (v, rest) :- ReadVarintAt(s, 0);
    Ok((v, rest))
  }

  function ReadBlob(s: Bytes): (r: Result<(Bytes, Bytes)>)
    ensures r.Ok? ==> |r.value.1| < |s|
  {
    var (len, rest) :- ReadVarint(s);
    if len > |rest| then Err(InvalidFrame) else Ok((rest[..len], rest[len..]))
  }

  function ReadText(s: Bytes): (r: Result<(Payload.Text, Bytes)>)
    ensures r.Ok? ==> |r.value.1| < |s|
  {
    var (data, rest) :- ReadBlob(s);
    if Payload.ValidUtf8(data) then Ok((data, rest)) else Err(InvalidFrame)
  }

  function SkipBytes(s: Bytes, n: nat): (r: Result<Bytes>)
    ensures r.Ok? ==> |r.value| <= |s|
  {
    if n > |s| then Err(InvalidFrame) else Ok(s[n..])
  }

  /** Field number and wire type: 0 integer, 1 eight bytes, 2 length-prefixed, 5 four bytes. */
  function ReadKey(s: Bytes): (r: Result<(u32, nat, Bytes)>)
    ensures r.Ok? ==> |r.value.2| < |s| && r.value.0 > 0 && r.value.1 in [0, 1, 2, 5]
  {
    var (key, rest) :- ReadVarint(s);
    var (num, wire) := (key / 8 % TWO_32, key % 8);
    if wire !in [0, 1, 2, 5] then Err(InvalidFrame)
    else if num == 0 then Err(InvalidFrame)
    else Ok((num, wire, rest))
  }

  function Skip(wire: nat, s: Bytes): (r: Result<Bytes>)
    requires wire in [0, 1, 2, 5]
    ensures r.Ok? ==> |r.value| <= |s|
  {
    if wire == 0 then
      var (_, rest) :- ReadVarint(s);
      Ok(rest)
    else if wire == 1 then SkipBytes(s, 8)
    else if wire == 5 then SkipBytes(s, 4)
    else
      var (_, rest) :- ReadBlob(s);
      Ok(rest)
  }

  // ---------------------------------------------------------------- the body

  /** What the field loop has filled in so far. */
  datatype Partial = Partial(
    version: Option<u64>,
    source: Option<Payload.Text>, destination: Option<Payload.Text>, namespace: Option<Payload.Text>,
    payloadType: Option<u64>, utf8: Option<Payload.Text>, binary: Option<Bytes>)

  const NOTHING := Partial(None, None, None, None, None, None, None)

  /** One arm of the loop: a field of the expected wire type is taken, `continued` must be
      zero, `remaining_length` is refused unread, anything else is skipped. */
  function Arm(p: Partial, num: u32, wire: nat, s: Bytes): (r: Result<(Partial, Bytes)>)
    requires wire in [0, 1, 2, 5]
    ensures r.Ok? ==> |r.value.1| <= |s|
  {
    if wire == 0 && num in [1, 5, 8] then
      var (v, rest) :- ReadVarint(s);
      if num == 1 then Ok((p.(version := Some(v)), rest))
      else if num == 5 then Ok((p.(payloadType := Some(v)), rest))
      else if v != 0 then Err(UnsupportedFeature)
      else Ok((p, rest))
    else if wire == 0 && num == 9 then Err(UnsupportedFeature)
    else if wire == 2 && num in [2, 3, 4, 6] then
      var (t, rest) :- ReadText(s);
      if num == 2 then Ok((p.(source := Some(t)), rest))
      else if num == 3 then Ok((p.(destination := Some(t)), rest))
      else if num == 4 then Ok((p.(namespace := Some(t)), rest))
      else Ok((p.(utf8 := Some(t)), rest))
    else if wire == 2 && num == 7 then
      var (d, rest) :- ReadBlob(s);
      Ok((p.(binary := Some(d)), rest))
    else
      var rest :- Skip(wire, s);
      Ok((p, rest))
  }

  function Loop(p: Partial, s: Bytes): (r: Result<Partial>)
    decreases |s|
  {
    if s == [] then Ok(p)
    else
      var (num, wire, rest) :- ReadKey(s);
      var (p', rest') :- Arm(p, num, wire, rest);
      Loop(p', rest')
  }

  function Finish(p: Partial): (r: Result<Message>) {
    if p.version.None? || p.version.value > 3 then Err(InvalidFrame)
    else if p.source.None? || p.destination.None? || p.namespace.None? || p.payloadType.None? then Err(InvalidFrame)
    else if p.source.value == [] || p.destination.value == [] || p.namespace.value == [] then Err(InvalidFrame)
    else if p.payloadType.value == 0 && p.utf8.Some? && p.binary.None? then
      Ok(Message(p.version.value, p.source.value, p.destination.value, p.namespace.value, Utf8(p.utf8.value)))
    else if p.payloadType.value == 1 && p.utf8.None? && p.binary.Some? then
      Ok(Message(p.version.value, p.source.value, p.destination.value, p.namespace.value, Binary(p.binary.value)))
    else Err(InvalidFrame)
  }

  function DecodeBody(body: Bytes): (r: Result<Message>) {
    if |body| > MAX_BODY_BYTES then Err(ResourceLimit)
    else
      var p :- Loop(NOTHING, body);
      Finish(p)
  }

  function PayloadField(b: Body): W.Field {
    match b case Utf8(t) => W.Blob(6, t) case Binary(d) => W.Blob(7, d)
  }

  function FieldsOf(m: Message): seq<W.Field> {
    [W.Scalar(1, m.version), W.Blob(2, m.source), W.Blob(3, m.destination), W.Blob(4, m.namespace),
     W.Scalar(5, m.payload.TypeCode()), PayloadField(m.payload)]
  }

  function EncodeBody(m: Message): (r: Result<Bytes>) {
    if m.version > 3 then Err(InvalidFrame)
    else if m.source == [] || m.destination == [] || m.namespace == [] then Err(InvalidFrame)
    else
      var out := W.EncodeFields(FieldsOf(m));
      if |out| > MAX_BODY_BYTES then Err(ResourceLimit) else Ok(out)
  }

  function EncodeFrame(m: Message): (r: Result<Bytes>) {
    var body :- EncodeBody(m);
    Ok(BigEndian(4, |body|) + body)
  }

  /** The message in front of the buffer and how many bytes it took. */
  function DecodeFrame(frame: Bytes): (r: Result<(Message, nat)>) {
    if |frame| < HEADER_BYTES then Err(InvalidFrame)
    else
      var declared := FromBigEndian(frame[..4]);
      if declared > MAX_BODY_BYTES then Err(ResourceLimit)
      else if |frame| < HEADER_BYTES + declared then Err(InvalidFrame)
      else
        var m :- DecodeBody(frame[HEADER_BYTES..HEADER_BYTES + declared]);
        Ok((m, HEADER_BYTES + declared))
  }

  // ---------------------------------------------------------------- the two readers compared

  /** Nine bytes that go on and a tenth that ends with bits beyond the u64; `i` are gone. */
  predicate TenthOverflows(s: Bytes, i: nat)
    requires i <= 9
    decreases 9 - i
  {
    s != [] && if i == 9 then 1 < s[0] < 128 else s[0] >= 128 && TenthOverflows(s[1..], i + 1)
  }

  lemma {:induction false} ReadersAgreeAt(s: Bytes, i: nat)
    requires i <= 9
    ensures TenthOverflows(s, i) ==> ReadVarintAt(s, i).Ok? && W.ReadVarintAt(s, i).Err?
    ensures !TenthOverflows(s, i) ==> ReadVarintAt(s, i) == W.ReadVarintAt(s, i)
    decreases 9 - i
  {
    hide W.Capacity;
    if s == [] || i == 9 || s[0] < 128 {
    } else {
      ReadersAgreeAt(s[1..], i + 1);
    }
  }

  /** The two readers accept the same integers with the same values, except exactly those
      whose tenth byte overflows: this one drops the bits, the other refuses. */
  lemma ReadersAgreeUnless(s: Bytes)
    ensures ReadVarint(s) == W.ReadVarint(s) <==> !TenthOverflows(s, 0)
    ensures TenthOverflows(s, 0) ==> ReadVarint(s).Ok? && W.ReadVarint(s).Err?
  {
    ReadersAgreeAt(s, 0);
    W.CapacityOfU64();
  }

  lemma VarintRoundTrip(v: u64, rest: Bytes)
    ensures ReadVarint(W.Varint(v) + rest) == Ok((v, rest))
  {
    W.VarintRoundTrip(v, rest);
    ReadersAgreeUnless(W.Varint(v) + rest);
  }

  lemma BlobRoundTrip(data: Bytes, rest: Bytes)
    requires |data| < TWO_64
    ensures ReadBlob(W.LengthPrefixed(data) + rest) == Ok((data, rest))
  {
    hide ReadVarint;
    Assoc(W.Varint(|data|), data, rest);
    VarintRoundTrip(|data|, data + rest);
    Split(data, rest);
  }

  // ---------------------------------------------------------------- round trip

  /** The fields the encoder writes. */
  predicate Written(f: W.Field) {
    match f
    case Scalar(num, _) => num in [1, 5]
    case Blob(num, data) => |data| < TWO_64 && (num == 7 || (num in [2, 3, 4, 6] && Payload.ValidUtf8(data)))
    case _ => false
  }

  function Taken(p: Partial, f: W.Field): Partial
    requires Written(f)
  {
    match f
    case Scalar(num, v) => if num == 1 then p.(version := Some(v)) else p.(payloadType := Some(v))
    case Blob(num, data) =>
      if num == 2 then p.(source := Some(data))
      else if num == 3 then p.(destination := Some(data))
      else if num == 4 then p.(namespace := Some(data))
      else if num == 6 then p.(utf8 := Some(data))
      else p.(binary := Some(data))
  }

  lemma ArmTakes(p: Partial, f: W.Field, rest: Bytes)
    requires Written(f)
    ensures Arm(p, f.num, W.WireType(f), W.EncodeBody(f) + rest) == Ok((Taken(p, f), rest))
  {
    hide ReadVarint, ReadBlob;
    match f
    case Scalar(_, v) => VarintRoundTrip(v, rest);
    case Blob(_, data) => BlobRoundTrip(data, rest);
  }

  lemma LoopTakes(p: Partial, f: W.Field, rest: Bytes)
    requires Written(f)
    ensures Loop(p, W.EncodeField(f) + rest) == Loop(Taken(p, f), rest)
  {
    hide Arm, ReadVarint, Taken;
    Assoc(W.Varint(W.KeyOf(f)), W.EncodeBody(f), rest);
    VarintRoundTrip(W.KeyOf(f), W.EncodeBody(f) + rest);
    ArmTakes(p, f, rest);
  }

  function TakenAll(p: Partial, fields: seq<W.Field>): Partial
    requires forall i :: 0 <= i < |fields| ==> Written(fields[i])
    decreases |fields|
  {
    if fields == [] then p else TakenAll(Taken(p, fields[0]), fields[1..])
  }

  lemma {:induction false} LoopTakesAll(p: Partial, fields: seq<W.Field>)
    requires forall i :: 0 <= i < |fields| ==> Written(fields[i])
    ensures Loop(p, W.EncodeFields(fields)) == Ok(TakenAll(p, fields))
    decreases |fields|
  {
    if fields == [] {
    } else {
      hide Taken, Written;
      LoopTakes(p, fields[0], W.EncodeFields(fields[1..]));
      LoopTakesAll(Taken(p, fields[0]), fields[1..]);
    }
  }

  lemma SixTaken(m: Message)
    requires forall i :: 0 <= i < 6 ==> Written(FieldsOf(m)[i])
    ensures TakenAll(NOTHING, FieldsOf(m)) ==
            Partial(Some(m.version), Some(m.source), Some(m.destination), Some(m.namespace), Some(m.payload.TypeCode()),
                    if m.payload.Utf8? then Some(m.payload.text) else None,
                    if m.payload.Binary? then Some(m.payload.data) else None)
  {
    var f := FieldsOf(m);
    TakenFirst(NOTHING, f[0], [f[1], f[2], f[3], f[4], f[5]]);
    TakenFirst(Taken(NOTHING, f[0]), f[1], [f[2], f[3], f[4], f[5]]);
    var p2 := Taken(Taken(NOTHING, f[0]), f[1]);
    TakenFirst(p2, f[2], [f[3], f[4], f[5]]);
    TakenFirst(Taken(p2, f[2]), f[3], [f[4], f[5]]);
    var p4 := Taken(Taken(p2, f[2]), f[3]);
    TakenFirst(p4, f[4], [f[5]]);
    TakenFirst(Taken(p4, f[4]), f[5], []);
    assert f == [f[0]] + [f[1], f[2], f[3], f[4], f[5]];
    assert [f[1], f[2], f[3], f[4], f[5]] == [f[1]] + [f[2], f[3], f[4], f[5]];
    assert [f[2], f[3], f[4], f[5]] == [f[2]] + [f[3], f[4], f[5]];
    assert [f[3], f[4], f[5]] == [f[3]] + [f[4], f[5]] && [f[4], f[5]] == [f[4]] + [f[5]] && [f[5]] == [f[5]] + [];
  }

  lemma TakenFirst(p: Partial, f: W.Field, fields: seq<W.Field>)
    requires Written(f) && forall i :: 0 <= i < |fields| ==> Written(fields[i])
    ensures forall i :: 0 <= i < |fields| + 1 ==> Written(([f] + fields)[i])
    ensures TakenAll(p, [f] + fields) == TakenAll(Taken(p, f), fields)
  {
    hide Taken;
    assert ([f] + fields)[1..] == fields;
  }

  /** What `EncodeBody` accepts. */
  predicate Encodable(m: Message) {
    m.version <= 3 && m.source != [] && m.destination != [] && m.namespace != []
    && |W.EncodeFields(FieldsOf(m))| <= MAX_BODY_BYTES
  }

  lemma AllWritten(m: Message)
    requires |W.EncodeFields(FieldsOf(m))| < TWO_64
    ensures forall i :: 0 <= i < 6 ==> Written(FieldsOf(m)[i])
  {
    var fields := FieldsOf(m);
    hide W.EncodeFields, W.EncodeField;
    forall i | 0 <= i < 6 ensures Written(fields[i]) {
      if fields[i].Blob? {
        W.FieldFitsInside(fields, i);
      }
    }
  }

  lemma BodyRoundTrip(m: Message)
    requires Encodable(m)
    ensures EncodeBody(m).Ok? && DecodeBody(EncodeBody(m).value) == Ok(m)
  {
    hide W.EncodeFields, Loop, TakenAll, Written;
    AllWritten(m);
    LoopTakesAll(NOTHING, FieldsOf(m));
    SixTaken(m);
  }

  /** Decoding inverts encoding for every message the encoder accepts, and leaves whatever
      follows the frame alone. */
  lemma FrameRoundTrip(m: Message, more: Bytes)
    ensures EncodeFrame(m).Ok? <==> Encodable(m)
    ensures Encodable(m) ==> DecodeFrame(EncodeFrame(m).value + more) == Ok((m, |EncodeFrame(m).value|))
  {
    hide DecodeBody, W.EncodeFields, BigEndian, FromBigEndian, FieldsOf;
    if Encodable(m) {
      BodyRoundTrip(m);
      var body := EncodeBody(m).value;
      Pow256Values();
      BigEndianRoundTrip(4, |body|);
      var head := BigEndian(4, |body|);
      assert (head + body + more)[..4] == head;
      assert (head + body + more)[4..4 + |body|] == body;
    }
  }

  // ---------------------------------------------------------------- what is accepted is encodable

  lemma {:induction false} VarintGrows(a: nat, b: nat)
    requires a <= b
    ensures |W.Varint(a)| <= |W.Varint(b)|
    decreases b
  {
    if a < 128 {
    } else {
      VarintGrows(a / 128, b / 128);
    }
  }

  /** No spelling of an integer is shorter than the written one. */
  lemma {:induction false} VarintShortest(s: Bytes, i: nat)
    requires i <= 9 && ReadVarintAt(s, i).Ok?
    ensures |W.Varint(ReadVarintAt(s, i).value.0)| <= |s| - |ReadVarintAt(s, i).value.1|
    decreases 9 - i
  {
    if s[0] < 128 {
    } else {
      VarintShortest(s[1..], i + 1);
    }
  }

  function Cost(f: W.Field): nat {
    |W.EncodeField(f)|
  }

  function ScalarCost(num: u32, o: Option<u64>): nat {
    match o case None => 0 case Some(v) => Cost(W.Scalar(num, v))
  }

  function DataCost(num: u32, o: Option<Bytes>): nat {
    match o case None => 0 case Some(data) => Cost(W.Blob(num, data))
  }

  /** The length of what has been filled in, written out. */
  function Size(p: Partial): nat {
    ScalarCost(1, p.version) + DataCost(2, p.source) + DataCost(3, p.destination) + DataCost(4, p.namespace)
    + ScalarCost(5, p.payloadType) + DataCost(6, p.utf8) + DataCost(7, p.binary)
  }

  lemma BlobCost(s: Bytes)
    requires ReadBlob(s).Ok?
    ensures |W.LengthPrefixed(ReadBlob(s).value.0)| <= |s| - |ReadBlob(s).value.1|
  {
    VarintShortest(s, 0);
  }

  /** A field taken in costs what it is written as, at most. */
  lemma TakenCost(p: Partial, f: W.Field)
    requires Written(f)
    ensures Size(Taken(p, f)) <= Size(p) + Cost(f)
  {
    var p' := Taken(p, f);
    match f
    case Scalar(num, v) =>
      assert ScalarCost(num, Some(v)) == Cost(f);
      hide ScalarCost, DataCost, Cost;
      assert num == 1 || num == 5;
    case Blob(num, data) =>
      assert DataCost(num, Some(data)) == Cost(f);
      hide ScalarCost, DataCost, Cost;
  }

  lemma FieldCost(f: W.Field)
    ensures Cost(f) == |W.Varint(W.KeyOf(f))| + |W.EncodeBody(f)|
  {
    hide W.Varint, W.EncodeBody;
  }

  /** What an arm does: it takes one field, or leaves the state alone. */
  lemma ArmTaken(p: Partial, num: u32, wire: nat, s: Bytes)
    requires wire in [0, 1, 2, 5] && Arm(p, num, wire, s).Ok?
    ensures var p' := Arm(p, num, wire, s).value.0;
            || p' == p
            || (wire == 0 && ReadVarint(s).Ok? && ReadVarint(s).value.1 == Arm(p, num, wire, s).value.1
                && var f := W.Scalar(num, ReadVarint(s).value.0); Written(f) && p' == Taken(p, f))
            || (wire == 2 && ReadBlob(s).Ok? && ReadBlob(s).value.1 == Arm(p, num, wire, s).value.1
                && |ReadBlob(s).value.0| < TWO_64
                && var f := W.Blob(num, ReadBlob(s).value.0); Written(f) && p' == Taken(p, f))
  {
    hide ReadVarintAt, Payload.ValidUtf8;
  }

  lemma ArmCost(p: Partial, num: u32, wire: nat, s: Bytes)
    requires wire in [0, 1, 2, 5] && Arm(p, num, wire, s).Ok?
    ensures var (p', rest) := Arm(p, num, wire, s).value;
            Size(p') <= Size(p) + |W.Varint(num * 8 + wire)| + |s| - |rest|
  {
    ArmTaken(p, num, wire, s);
    hide Arm, Size, Cost, Taken, W.Varint, W.LengthPrefixed, ReadBlob, ReadVarint;
    if Arm(p, num, wire, s).value.0 != p {
      if wire == 0 {
        var f := W.Scalar(num, ReadVarint(s).value.0);
        VarintCost(s);
        FieldCost(f);
        TakenCost(p, f);
      } else {
        var f := W.Blob(num, ReadBlob(s).value.0);
        BlobCost(s);
        FieldCost(f);
        TakenCost(p, f);
      }
    }
  }

  lemma VarintCost(s: Bytes)
    requires ReadVarint(s).Ok?
    ensures |W.Varint(ReadVarint(s).value.0)| <= |s| - |ReadVarint(s).value.1|
  {
    VarintShortest(s, 0);
  }

  lemma KeyCost(s: Bytes)
    requires ReadKey(s).Ok?
    ensures var (num, wire, rest) := ReadKey(s).value; |W.Varint(num * 8 + wire)| <= |s| - |rest|
  {
    hide ReadVarint;
    VarintCost(s);
    var (num, wire, rest) := ReadKey(s).value;
    VarintGrows(num * 8 + wire, ReadVarint(s).value.0);
  }

  lemma {:induction false} LoopCost(p: Partial, s: Bytes)
    requires Loop(p, s).Ok?
    ensures Size(Loop(p, s).value) <= Size(p) + |s|
    decreases |s|
  {
    if s == [] {
    } else {
      hide Arm, ReadKey, Size;
      var (num, wire, rest) := ReadKey(s).value;
      var (p', rest') := Arm(p, num, wire, rest).value;
      KeyCost(s);
      ArmCost(p, num, wire, rest);
      LoopCost(p', rest');
    }
  }

  lemma SixCost(m: Message)
    ensures |W.EncodeFields(FieldsOf(m))|
         == Cost(W.Scalar(1, m.version)) + Cost(W.Blob(2, m.source)) + Cost(W.Blob(3, m.destination))
          + Cost(W.Blob(4, m.namespace)) + Cost(W.Scalar(5, m.payload.TypeCode())) + Cost(PayloadField(m.payload))
  {
    var f := FieldsOf(m);
    hide W.EncodeField, W.EncodeFields, PayloadField, Cost;
    assert f == [f[0]] + [f[1], f[2], f[3], f[4], f[5]];
    assert [f[1], f[2], f[3], f[4], f[5]] == [f[1]] + [f[2], f[3], f[4], f[5]];
    assert [f[2], f[3], f[4], f[5]] == [f[2]] + [f[3], f[4], f[5]] && [f[3], f[4], f[5]] == [f[3]] + [f[4], f[5]];
    LastTwoCost(f[4], f[5]);
    FirstCost(f[0], [f[1], f[2], f[3], f[4], f[5]]);
    FirstCost(f[1], [f[2], f[3], f[4], f[5]]);
    FirstCost(f[2], [f[3], f[4], f[5]]);
    FirstCost(f[3], [f[4], f[5]]);
  }

  lemma LastTwoCost(f: W.Field, g: W.Field)
    ensures |W.EncodeFields([f, g])| == Cost(f) + Cost(g)
  {
    W.TwoFieldsLength(f, g);
  }

  lemma FirstCost(f: W.Field, fields: seq<W.Field>)
    ensures |W.EncodeFields([f] + fields)| == Cost(f) + |W.EncodeFields(fields)|
  {
    assert ([f] + fields)[1..] == fields;
  }

  /** Whatever spelling a frame was accepted in - overlong integers, unknown and repeated
      fields included - its message can be encoded again, in no more bytes, and decodes to
      itself. */
  lemma AcceptedCanBeSent(frame: Bytes)
    requires DecodeFrame(frame).Ok?
    ensures var (m, n) := DecodeFrame(frame).value;
            && EncodeFrame(m).Ok? && |EncodeFrame(m).value| <= n <= |frame|
            && DecodeFrame(EncodeFrame(m).value) == Ok((m, |EncodeFrame(m).value|))
  {
    hide Loop, W.EncodeFields, FieldsOf, BigEndian, Cost;
    var declared := FromBigEndian(frame[..4]);
    var body := frame[HEADER_BYTES..HEADER_BYTES + declared];
    var m := DecodeFrame(frame).value.0;
    LoopCost(NOTHING, body);
    SixCost(m);
    FrameRoundTrip(m, []);
    AppendNothing(EncodeFrame(m).value);
  }

  // ---------------------------------------------------------------- field boundaries

  lemma {:induction false} VarintLocalAt(s: Bytes, i: nat, more: Bytes)
    requires i <= 9 && ReadVarintAt(s, i).Ok?
    ensures ReadVarintAt(s + more, i) == Ok((ReadVarintAt(s, i).value.0, ReadVarintAt(s, i).value.1 + more))
    decreases 9 - i
  {
    assert (s + more)[1..] == s[1..] + more;
    if s[0] < 128 {
    } else {
      VarintLocalAt(s[1..], i + 1, more);
    }
  }

  lemma VarintLocal(s: Bytes, more: Bytes)
    requires ReadVarint(s).Ok?
    ensures ReadVarint(s + more) == Ok((ReadVarint(s).value.0, ReadVarint(s).value.1 + more))
  {
    VarintLocalAt(s, 0, more);
  }

  lemma BlobLocal(s: Bytes, more: Bytes)
    requires ReadBlob(s).Ok?
    ensures ReadBlob(s + more) == Ok((ReadBlob(s).value.0, ReadBlob(s).value.1 + more))
  {
    hide ReadVarint;
    VarintLocal(s, more);
    Extend(ReadVarint(s).value.1, ReadVarint(s).value.0, more);
  }

  lemma SkipLocal(wire: nat, s: Bytes, more: Bytes)
    requires wire in [0, 1, 2, 5] && Skip(wire, s).Ok?
    ensures Skip(wire, s + more) == Ok(Skip(wire, s).value + more)
  {
    hide ReadVarint, ReadBlob;
    if wire == 0 {
      VarintLocal(s, more);
    } else if wire == 2 {
      BlobLocal(s, more);
    } else {
      Extend(s, if wire == 1 then 8 else 4, more);
    }
  }

  lemma ArmLocal(p: Partial, num: u32, wire: nat, s: Bytes, more: Bytes)
    requires wire in [0, 1, 2, 5] && Arm(p, num, wire, s).Ok?
    ensures Arm(p, num, wire, s + more) == Ok((Arm(p, num, wire, s).value.0, Arm(p, num, wire, s).value.1 + more))
  {
    hide ReadVarint, ReadBlob, Skip;
    if wire == 0 && num in [1, 5, 8] {
      VarintLocal(s, more);
    } else if wire == 2 && num in [2, 3, 4, 6, 7] {
      BlobLocal(s, more);
    } else {
      SkipLocal(wire, s, more);
    }
  }

  lemma {:induction false} LoopAppend(p: Partial, a: Bytes, b: Bytes)
    requires Loop(p, a).Ok?
    ensures Loop(p, a + b) == Loop(Loop(p, a).value, b)
    decreases |a|
  {
    if a == [] {
      assert a + b == b;
    } else {
      hide Arm, ReadVarint;
      VarintLocal(a, b);
      var (num, wire, rest) := ReadKey(a).value;
      ArmLocal(p, num, wire, rest, b);
      LoopAppend(Arm(p, num, wire, rest).value.0, Arm(p, num, wire, rest).value.1, b);
    }
  }

  /** A field the decoder knows nothing about. */
  predicate Unknown(f: W.Field) {
    && W.LegalField(f)
    && match f
       case Scalar(num, _) => num !in [1, 5, 8, 9]
       case Blob(num, _) => num !in [2, 3, 4, 6, 7]
       case _ => true
  }

  lemma UnknownArm(p: Partial, f: W.Field, rest: Bytes)
    requires Unknown(f)
    ensures Arm(p, f.num, W.WireType(f), W.EncodeBody(f) + rest) == Ok((p, rest))
  {
    hide ReadVarint, ReadBlob;
    match f
    case Scalar(_, v) => VarintRoundTrip(v, rest);
    case Blob(_, data) => BlobRoundTrip(data, rest);
    case Fixed64(_, data) => Split(data, rest);
    case Fixed32(_, data) => Split(data, rest);
  }

  lemma ContinuedArm(p: Partial, v: u64, rest: Bytes)
    ensures Arm(p, 8, 0, W.Varint(v) + rest) == if v == 0 then Ok((p, rest)) else Err(UnsupportedFeature)
  {
    hide ReadVarint;
    VarintRoundTrip(v, rest);
  }

  lemma AfterKey(p: Partial, num: u32, wire: nat, s: Bytes)
    requires num > 0 && wire in [0, 1, 2, 5]
    ensures Loop(p, W.Varint(num * 8 + wire) + s) ==
            match Arm(p, num, wire, s) case Err(e) => Err(e) case Ok((p', rest)) => Loop(p', rest)
  {
    hide Arm, ReadVarint;
    VarintRoundTrip(num * 8 + wire, s);
  }

  /** At any field boundary an unknown field changes nothing. */
  lemma UnknownFieldSkipped(a: Bytes, f: W.Field, b: Bytes)
    requires Loop(NOTHING, a).Ok? && Unknown(f)
    ensures Loop(NOTHING, a + (W.EncodeField(f) + b)) == Loop(NOTHING, a + b)
  {
    hide Loop, Arm, W.EncodeBody, W.EncodeField;
    var p := Loop(NOTHING, a).value;
    LoopAppend(NOTHING, a, b);
    LoopAppend(NOTHING, a, W.EncodeField(f) + b);
    Boundary(p, f, b);
    UnknownArm(p, f, b);
  }

  /** At any field boundary `continued` is refused, unless it is zero and changes nothing. */
  lemma ContinuedRefused(a: Bytes, v: u64, b: Bytes)
    requires Loop(NOTHING, a).Ok?
    ensures Loop(NOTHING, a + (W.EncodeField(W.Scalar(8, v)) + b))
            == if v == 0 then Loop(NOTHING, a + b) else Err(UnsupportedFeature)
  {
    hide Loop, Arm, W.EncodeBody, W.EncodeField;
    var p := Loop(NOTHING, a).value;
    LoopAppend(NOTHING, a, b);
    LoopAppend(NOTHING, a, W.EncodeField(W.Scalar(8, v)) + b);
    Boundary(p, W.Scalar(8, v), b);
    ContinuedBody(v);
    ContinuedArm(p, v, b);
  }

  /** At any field boundary the key of `remaining_length` is refused, whatever follows. */
  lemma RemainingLengthRefused(a: Bytes, b: Bytes)
    requires Loop(NOTHING, a).Ok?
    ensures Loop(NOTHING, a + (W.Varint(9 * 8) + b)) == Err(UnsupportedFeature)
  {
    hide Loop, ReadVarint;
    LoopAppend(NOTHING, a, W.Varint(9 * 8) + b);
    AfterKey(Loop(NOTHING, a).value, 9, 0, b);
  }

  lemma ContinuedBody(v: u64)
    ensures W.EncodeBody(W.Scalar(8, v)) == W.Varint(v)
  {
  }

  lemma Boundary(p: Partial, f: W.Field, b: Bytes)
    requires f.num > 0
    ensures Loop(p, W.EncodeField(f) + b) ==
            match Arm(p, f.num, W.WireType(f), W.EncodeBody(f) + b)
            case Err(e) => Err(e)
            case Ok((p', rest)) => Loop(p', rest)
  {
    hide Arm, Loop, W.EncodeBody;
    Assoc(W.Varint(W.KeyOf(f)), W.EncodeBody(f), b);
    AfterKey(p, f.num, W.WireType(f), W.EncodeBody(f) + b);
  }

  // ---------------------------------------------------------------- in-place code

  class Reader {
    const buf: Bytes
    var pos: nat

    ghost predicate Valid()
      reads this
    {
      pos <= |buf|
    }

    ghost function Remaining(): Bytes
      requires Valid()
      reads this
    {
      buf[pos..]
    }

    constructor (buf: Bytes)
      ensures Valid() && this.buf == buf && pos == 0
    {
      this.buf, pos := buf, 0;
    }

    /** Seven bits per byte, each group 128 times as heavy as the one before; what the shift
        moves out of the u64 is gone. */
    method Varint() returns (r: Result<u64>)
      requires Valid()
      modifies this`pos
      ensures Valid() && old(pos) <= pos
      ensures match ReadVarint(old(Remaining()))
              case Err(e) => r == Err(e)
              case Ok((v, rest)) => r == Ok(v) && Remaining() == rest && pos > old(pos)
    {
      ghost var start := Remaining();
      var value: nat, weight: nat := 0, 1;
      var i := 0;
      while true
        invariant 0 <= i <= 9 && Valid() && pos == old(pos) + i
        invariant ReadVarintAt(start, 0) == W.Resume(value, weight, ReadVarintAt(Remaining(), i))
        decreases 9 - i
      {
        ghost var before := Remaining();
        if pos >= |buf| {
          return Err(InvalidFrame);
        }
        var b := buf[pos];
        pos := pos + 1;
        assert Remaining() == before[1..];
        ResumeStep(value, weight, before, i);
        value := W.Accumulate(value, Group(b, i), weight);
        if b < 128 {
          W.CapacityOfU64();
          return Ok(value);
        }
        if i == 9 {
          return Err(InvalidFrame);
        }
        weight, i := 128 * weight, i + 1;
      }
    }

    /** `None` at the end of the input. */
    method NextField() returns (r: Result<Option<(u32, nat)>>)
      requires Valid()
      modifies this`pos
      ensures Valid() && old(pos) <= pos
      ensures old(Remaining()) == [] ==> r == Ok(None) && pos == old(pos)
      ensures old(Remaining()) != [] ==>
                match ReadKey(old(Remaining()))
                case Err(e) => r == Err(e)
                case Ok((num, wire, rest)) => r == Ok(Some((num, wire))) && Remaining() == rest && pos > old(pos)
    {
      hide ReadVarint;
      if pos >= |buf| {
        return Ok(None);
      }
      var key := Varint();
      if key.Err? {
        return Err(key.code);
      }
      var num, wire := key.value / 8 % TWO_32, key.value % 8;
      if wire != 0 && wire != 1 && wire != 2 && wire != 5 {
        return Err(InvalidFrame);
      }
      if num == 0 {
        return Err(InvalidFrame);
      }
      return Ok(Some((num, wire)));
    }

    method BytesField() returns (r: Result<Bytes>)
      requires Valid()
      modifies this`pos
      ensures Valid() && old(pos) <= pos
      ensures match ReadBlob(old(Remaining()))
              case Err(e) => r == Err(e)
              case Ok((data, rest)) => r == Ok(data) && Remaining() == rest
    {
      hide ReadVarint;
      var len := Varint();
      if len.Err? {
        return Err(len.code);
      }
      var end := pos + len.value;
      if end > |buf| {
        return Err(InvalidFrame);
      }
      r := Ok(buf[pos..end]);
      assert buf[pos..][..len.value] == buf[pos..end];
      assert buf[pos..][len.value..] == buf[end..];
      pos := end;
    }

    method StringField() returns (r: Result<Payload.Text>)
      requires Valid()
      modifies this`pos
      ensures Valid() && old(pos) <= pos
      ensures match ReadText(old(Remaining()))
              case Err(e) => r == Err(e)
              case Ok((t, rest)) => r == Ok(t) && Remaining() == rest
    {
      hide ReadBlob;
      var raw := BytesField();
      if raw.Err? {
        return Err(raw.code);
      }
      if !Payload.ValidUtf8(raw.value) {
        return Err(InvalidFrame);
      }
      return Ok(raw.value);
    }

    method Advance(n: nat) returns (r: Result<()>)
      requires Valid()
      modifies this`pos
      ensures Valid() && old(pos) <= pos
      ensures match SkipBytes(old(Remaining()), n)
              case Err(e) => r == Err(e)
              case Ok(rest) => r.Ok? && Remaining() == rest
    {
      if pos + n > |buf| {
        return Err(InvalidFrame);
      }
      assert buf[pos..][n..] == buf[pos + n..];
      pos := pos + n;
      return Ok(());
    }

    method SkipField(wire: nat) returns (r: Result<()>)
      requires Valid() && wire in [0, 1, 2, 5]
      modifies this`pos
      ensures Valid() && old(pos) <= pos
      ensures match Skip(wire, old(Remaining()))
              case Err(e) => r == Err(e)
              case Ok(rest) => r.Ok? && Remaining() == rest
    {
      hide ReadVarint, ReadBlob, SkipBytes;
      if wire == 0 {
        var v := Varint();
        return if v.Err? then Err(v.code) else Ok(());
      } else if wire == 1 {
        r := Advance(8);
      } else if wire == 5 {
        r := Advance(4);
      } else {
        var d := BytesField();
        return if d.Err? then Err(d.code) else Ok(());
      }
    }

    /** The arm of the field loop for one key. */
    method TakeField(p: Partial, num: u32, wire: nat) returns (r: Result<Partial>)
      requires Valid() && wire in [0, 1, 2, 5]
      modifies this`pos
      ensures Valid() && old(pos) <= pos
      ensures match Arm(p, num, wire, old(Remaining()))
              case Err(e) => r == Err(e)
              case Ok((p', rest)) => r == Ok(p') && Remaining() == rest
    {
      hide ReadVarint, ReadBlob, ReadText, Skip;
      if wire == 0 && num in [1, 5, 8] {
        var v := Varint();
        if v.Err? {
          return Err(v.code);
        }
        if num == 8 && v.value != 0 {
          return Err(UnsupportedFeature);
        }
        return Ok(if num == 1 then p.(version := Some(v.value))
                  else if num == 5 then p.(payloadType := Some(v.value)) else p);
      } else if wire == 0 && num == 9 {
        return Err(UnsupportedFeature);
      } else if wire == 2 && num in [2, 3, 4, 6] {
        var t := StringField();
        if t.Err? {
          return Err(t.code);
        }
        return Ok(if num == 2 then p.(source := Some(t.value)) else if num == 3 then p.(destination := Some(t.value))
                  else if num == 4 then p.(namespace := Some(t.value)) else p.(utf8 := Some(t.value)));
      } else if wire == 2 && num == 7 {
        var d := BytesField();
        return if d.Err? then Err(d.code) else Ok(p.(binary := Some(d.value)));
      } else {
        var d := SkipField(wire);
        return if d.Err? then Err(d.code) else Ok(p);
      }
    }
  }

  lemma ResumeStep(value: nat, weight: nat, s: Bytes, i: nat)
    requires i <= 9 && s != []
    ensures W.Resume(value, weight, ReadVarintAt(s, i)) ==
            var value' := W.Accumulate(value, Group(s[0], i), weight);
            if s[0] < 128 then Ok((value', s[1..]))
            else if i == 9 then Err(InvalidFrame)
            else W.Resume(value', 128 * weight, ReadVarintAt(s[1..], i + 1))
  {
    if s[0] >= 128 && i < 9 {
      var r := ReadVarintAt(s[1..], i + 1);
      if r.Ok? {
        W.AccumulateStep(value, Group(s[0], i), weight, r.value.0);
      }
    }
  }

  method DecodeBodyOf(body: Bytes) returns (r: Result<Message>)
    ensures r == DecodeBody(body)
  {
    if |body| > MAX_BODY_BYTES {
      return Err(ResourceLimit);
    }
    var reader := new Reader(body);
    var p := NOTHING;
    assert body[0..] == body;
    var filled := RunLoop(reader, p);
    if filled.Err? {
      return Err(filled.code);
    }
    return Finish(filled.value);
  }

  method RunLoop(reader: Reader, init: Partial) returns (r: Result<Partial>)
    requires reader.Valid()
    modifies reader
    ensures r == Loop(init, old(reader.Remaining()))
  {
    hide Arm, ReadKey;
    var p := init;
    while true
      invariant reader.Valid()
      invariant Loop(init, old(reader.Remaining())) == Loop(p, reader.Remaining())
      decreases |reader.buf| - reader.pos
    {
      var key := reader.NextField();
      if key.Err? {
        return Err(key.code);
      }
      if key.value.None? {
        return Ok(p);
      }
      var (num, wire) := key.value.value;
      var taken := reader.TakeField(p, num, wire);
      if taken.Err? {
        return Err(taken.code);
      }
      p := taken.value;
    }
  }

  method EncodeBodyOf(m: Message) returns (r: Result<Bytes>)
    ensures r == EncodeBody(m)
  {
    hide W.EncodeField;
    if m.version > 3 {
      return Err(InvalidFrame);
    }
    if m.source == [] || m.destination == [] || m.namespace == [] {
      return Err(InvalidFrame);
    }
    var out: Bytes := [];
    out := W.WriteScalarField(out, 1, m.version);
    out := W.WriteBytesField(out, 2, m.source);
    out := W.WriteBytesField(out, 3, m.destination);
    out := W.WriteBytesField(out, 4, m.namespace);
    out := W.WriteScalarField(out, 5, m.payload.TypeCode());
    match m.payload {
      case Utf8(text) => out := W.WriteBytesField(out, 6, text);
      case Binary(data) => out := W.WriteBytesField(out, 7, data);
    }
    SixWritten(m);
    if |out| > MAX_BODY_BYTES {
      return Err(ResourceLimit);
    }
    return Ok(out);
  }

  lemma SixWritten(m: Message)
    ensures W.EncodeFields(FieldsOf(m)) ==
            [] + W.EncodeField(W.Scalar(1, m.version)) + W.EncodeField(W.Blob(2, m.source))
            + W.EncodeField(W.Blob(3, m.destination)) + W.EncodeField(W.Blob(4, m.namespace))
            + W.EncodeField(W.Scalar(5, m.payload.TypeCode())) + W.EncodeField(PayloadField(m.payload))
  {
    hide W.EncodeField, W.EncodeFields, PayloadField;
    var f := FieldsOf(m);
    OneMore([], f[0]);
    OneMore([f[0]], f[1]);
    OneMore([f[0], f[1]], f[2]);
    OneMore([f[0], f[1], f[2]], f[3]);
    OneMore([f[0], f[1], f[2], f[3]], f[4]);
    OneMore([f[0], f[1], f[2], f[3], f[4]], f[5]);
    NoneYet();
    assert [] + [f[0]] == [f[0]] && [f[0]] + [f[1]] == [f[0], f[1]] && [f[0], f[1]] + [f[2]] == [f[0], f[1], f[2]];
    assert [f[0], f[1], f[2]] + [f[3]] == [f[0], f[1], f[2], f[3]];
    assert [f[0], f[1], f[2], f[3]] + [f[4]] == [f[0], f[1], f[2], f[3], f[4]];
    assert [f[0], f[1], f[2], f[3], f[4]] + [f[5]] == f;
  }

  lemma NoneYet()
    ensures W.EncodeFields([]) == []
  {
  }

  lemma OneMore(fields: seq<W.Field>, f: W.Field)
    ensures W.EncodeFields(fields + [f]) == W.EncodeFields(fields) + W.EncodeField(f)
  {
    W.EncodeFieldsAppend(fields, [f]);
    assert [f][1..] == [];
    AppendNothing(W.EncodeField(f));
  }
}
