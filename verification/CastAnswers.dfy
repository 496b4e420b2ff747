/** What the CASTV2 codec refuses, and for what: headers, keys, bodies with fields missing or at
    odds, and messages that cannot be encoded. */
module CastAnswers {
  import opened Prelude
  import opened Castv2
  import Messages
  import Payload
  import W = Wire

  /** A header that promises too much is refused before the body has arrived, a body that has not
      arrived as invalid, and so are fewer bytes than a header. A body over the limit is refused
      unread, wherever it comes from. */
  lemma HeaderAnswer(declared: u32, more: Bytes)
    ensures var r := DecodeFrame(BigEndian(4, declared) + more);
            && (declared > MAX_BODY_BYTES ==> r == Err(ResourceLimit))
            && (declared <= MAX_BODY_BYTES && |more| < declared ==> r == Err(InvalidFrame))
            && (declared <= MAX_BODY_BYTES && |more| >= declared ==>
                  r == match DecodeBody(more[..declared])
                       case Ok(m) => Ok((m, 4 + declared))
                       case Err(e) => Err(e))
    ensures forall frame: Bytes :: |frame| < 4 ==> DecodeFrame(frame) == Err(InvalidFrame)
    ensures forall body: Bytes :: |body| > MAX_BODY_BYTES ==> DecodeBody(body) == Err(ResourceLimit)
  {
    hide Loop, BigEndian, FromBigEndian;
    Pow256Values();
    BigEndianRoundTrip(4, declared);
    Split(BigEndian(4, declared), more);
    if |more| >= declared {
      assert (BigEndian(4, declared) + more)[4..4 + declared] == more[..declared];
    }
  }

  /** Wherever a field can begin, a key of another wire type or of number zero is invalid. */
  lemma KeyAnswer(p: Partial, num: nat, wire: nat, rest: Bytes)
    requires wire < 8 && num * 8 + wire < TWO_64 && (wire in [3, 4, 6, 7] || num % TWO_32 == 0)
    ensures Loop(p, W.Varint(num * 8 + wire) + rest) == Err(InvalidFrame)
  {
    hide Arm, ReadVarint;
    VarintRoundTrip(num * 8 + wire, rest);
    assert W.Varint(num * 8 + wire) != [];
  }

  // ---------------------------------------------------------------- what cannot be encoded

  /** A version above three or an empty name is invalid; a body that is too long for the limit is
      one too many resources; and nothing else is refused. */
  lemma EncodeAnswer(m: Message)
    ensures var short := m.version <= 3 && m.source != [] && m.destination != [] && m.namespace != [];
            && (!short ==> EncodeFrame(m) == Err(InvalidFrame))
            && (short && |W.EncodeFields(FieldsOf(m))| > MAX_BODY_BYTES ==> EncodeFrame(m) == Err(ResourceLimit))
            && (EncodeFrame(m).Ok? <==> short && |W.EncodeFields(FieldsOf(m))| <= MAX_BODY_BYTES)
  {
    hide W.EncodeFields;
  }

  // ---------------------------------------------------------------- any fields, in any order

  /** Of each field the last, if there is one. */
  datatype Slots = Slots(
    version: Option<u64>, source: Option<Bytes>, destination: Option<Bytes>, namespace: Option<Bytes>,
    payloadType: Option<u64>, utf8: Option<Bytes>, binary: Option<Bytes>)
  {
    predicate Named() {
      && version.Some? && version.value <= 3 && source.Some? && source.value != []
      && destination.Some? && destination.value != [] && namespace.Some? && namespace.value != []
    }

    predicate HasText() {
      payloadType == Some(0) && utf8.Some? && binary.None?
    }

    predicate HasData() {
      payloadType == Some(1) && utf8.None? && binary.Some?
    }
  }

  function LastOf(fields: seq<W.Field>): Slots {
    Slots(Messages.LastScalar(fields, 1), Messages.LastBlob(fields, 2), Messages.LastBlob(fields, 3),
          Messages.LastBlob(fields, 4), Messages.LastScalar(fields, 5), Messages.LastBlob(fields, 6),
          Messages.LastBlob(fields, 7))
  }

  /** The loop has what the last fields carry, and what it had before of the others. */
  ghost predicate Holds(t: Partial, p: Partial, last: Slots) {
    && t.version == Messages.Or(last.version, p.version)
    && t.payloadType == Messages.Or(last.payloadType, p.payloadType)
    && t.source == Messages.Or(last.source, p.source) && t.destination == Messages.Or(last.destination, p.destination)
    && t.namespace == Messages.Or(last.namespace, p.namespace)
    && t.utf8 == Messages.Or(last.utf8, p.utf8) && t.binary == Messages.Or(last.binary, p.binary)
  }

  lemma {:induction false} TakenAreLast(p: Partial, fields: seq<W.Field>)
    requires forall i :: 0 <= i < |fields| ==> Written(fields[i])
    ensures Holds(TakenAll(p, fields), p, LastOf(fields))
    decreases |fields|
  {
    if fields == [] {
    } else {
      hide Payload.ValidUtf8;
      TakenAreLast(Taken(p, fields[0]), fields[1..]);
    }
  }

  /** A body of such fields, in any order and however often repeated: the last of each counts. It
      is a message exactly when the version is there and at most three, the three names are there
      and not empty, and there is a text and no data for type zero, or data and no text for type
      one. Everything else is invalid. */
  lemma AnyOrderAnswer(fields: seq<W.Field>)
    requires forall i :: 0 <= i < |fields| ==> Written(fields[i])
    requires |W.EncodeFields(fields)| <= MAX_BODY_BYTES
    ensures var r, last := DecodeBody(W.EncodeFields(fields)), LastOf(fields);
            && (r.Ok? <==> last.Named() && (last.HasText() || last.HasData()))
            && (r.Err? ==> r == Err(InvalidFrame))
            && (r.Ok? ==>
                  && r.value.version == last.version.value && r.value.source == last.source.value
                  && r.value.destination == last.destination.value && r.value.namespace == last.namespace.value
                  && match r.value.payload
                     case Utf8(text) => last.HasText() && text == last.utf8.value
                     case Binary(data) => last.HasData() && data == last.binary.value)
  {
    hide Loop, Written, TakenAll, W.EncodeFields;
    LoopTakesAll(NOTHING, fields);
    TakenAreLast(NOTHING, fields);
    hide Messages.LastBlob, Messages.LastScalar;
  }
}
