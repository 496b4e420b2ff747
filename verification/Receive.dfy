/** The receiving side: the assembler of proto-quickshare/src/payload.rs and the session of
    proto-quickshare/src/receive.rs that binds payload ids to spool entries. */
module Receive {
  import opened Prelude
  import opened Payload
  import opened SpoolNames
  import opened Spool

  // ---------------------------------------------------------------- assembler

  datatype Assembler = Assembler(header: PayloadHeader, written: nat, complete: bool)

  /** All checks of `accept`, in order; none of them has an effect. */
  function Check(a: Assembler, frame: TransferFrame): (r: Result<PayloadChunk>)
    ensures r.Ok? ==> frame.header.Some? && frame.chunk == Some(r.value) && frame.header.value.id == a.header.id
  {
    if a.complete then Err(InvalidFrame)
    else if !frame.packetType.Data? then Err(UnsupportedFeature)
    else if frame.header.None? then Err(InvalidFrame)
    else if frame.header.value.id != a.header.id then Err(InvalidFrame)
    else if frame.header.value.totalSize != a.header.totalSize then Err(InvalidFrame)
    else if frame.chunk.None? then Err(InvalidFrame)
    else
      var c := frame.chunk.value;
      var end := a.written + |c.body|;
      if c.offset != a.written then Err(InvalidFrame)
      else if end >= TWO_64 then Err(InvalidFrame)
      else if end > a.header.totalSize then Err(ResourceLimit)
      else if c.IsLast() != (end == a.header.totalSize) then Err(InvalidFrame)
      else Ok(c)
  }

  function Advance(a: Assembler, c: PayloadChunk): Assembler {
    a.(written := a.written + |c.body|, complete := c.IsLast())
  }

  // ---------------------------------------------------------------- session

  datatype FileOffer = FileOffer(name: string, size: u64, parent: Option<seq<string>>, payloadId: i64)
  datatype ReceiveDecision = Accept | Reject
  datatype ResponseStatus = Accepted | Rejected | NotEnoughSpace

  datatype Pending = Pending(entryId: string, payloadId: i64, size: nat, path: FinalPath, handle: nat,
      assembler: Assembler)

  datatype PublishView = PublishView(entryId: string, payloadId: i64, relative: Path, bytes: nat, hashOf: Bytes)

  datatype ReceiveState = ReceiveState(
    spool: SpoolState, budget: u64, entries: seq<Pending>, published: seq<PublishView>, nextSeq: nat)

  /** A session just opened on an empty root. */
  function FreshState(root: string, budget: u64): ReceiveState {
    ReceiveState(SpoolState(root, [], [], 1, map[], {}), budget, [], [], 1)
  }

  function EntryId(seqNo: nat, idx: nat): string {
    "ofr_qs_" + Decimal(seqNo) + "_" + Decimal(idx)
  }

  lemma EntryIdDotless(seqNo: nat, idx: nat)
    ensures Dotless(EntryId(seqNo, idx))
  {
  }

  /** The declared sizes added as u64 in a release build. */
  function TotalSize(offers: seq<FileOffer>): (t: u64) {
    if offers == [] then 0 else (TotalSize(offers[..|offers| - 1]) + offers[|offers| - 1].size) % TWO_64
  }

  predicate DuplicateIds(offers: seq<FileOffer>) {
    exists i, j :: 0 <= i < j < |offers| && offers[i].payloadId == offers[j].payloadId
  }

  predicate AllSanitary(offers: seq<FileOffer>) {
    forall i :: 0 <= i < |offers| ==> Sanitary(offers[i].parent, offers[i].name)
  }

  function NewAssembler(o: FileOffer): Assembler {
    Assembler(PayloadHeader(o.payloadId, FileKind, o.size, None, None), 0, false)
  }

  /** One entry per file, from `idx` on; stops at the first that cannot be set up, leaving
      those before it in place. */
  function Establish(s: ReceiveState, offers: seq<FileOffer>, idx: nat): (ReceiveState, Result<ResponseStatus>)
    requires idx <= |offers|
    decreases |offers| - idx
  {
    if idx == |offers| then (s, Ok(Accepted))
    else
      var (t, r) := EstablishOne(s, offers[idx], idx);
      if r.Err? then (t, Err(r.code)) else Establish(t, offers, idx + 1)
  }

  function EstablishOne(s: ReceiveState, o: FileOffer, idx: nat): (ReceiveState, Result<()>) {
    var id := EntryId(s.nextSeq, idx);
    var t := s.(nextSeq := s.nextSeq + 1);
    if !ValidOffer(o.parent, o.name) then (t, Err(InvalidFrame))
    else
      var (spool, h) := Begin(s.spool, id, o.parent, o.name, o.size, s.budget);
      if h.Err? then (t.(spool := spool), Err(h.code))
      else
        var p := Pending(id, o.payloadId, o.size, Components(o.parent, o.name), h.value, NewAssembler(o));
        (t.(spool := spool, entries := s.entries + [p]), Ok(()))
  }

  function OnIntroduction(s: ReceiveState, offers: seq<FileOffer>, decision: ReceiveDecision):
    (ReceiveState, Result<ResponseStatus>)
  {
    if offers == [] then (s, Err(InvalidFrame))
    else if !AllSanitary(offers) then (s, Err(InvalidFrame))
    else if DuplicateIds(offers) then (s, Err(InvalidFrame))
    else if TotalSize(offers) > s.budget then (s, Ok(NotEnoughSpace))
    else if decision.Reject? then (s, Ok(Rejected))
    else Establish(s, offers, 0)
  }

  /** The first entry with this payload id; |entries| when there is none. */
  function IndexOfPayload(entries: seq<Pending>, id: i64): (i: nat)
    ensures i <= |entries|
    ensures i < |entries| ==> entries[i].payloadId == id
    ensures forall j :: 0 <= j < i ==> entries[j].payloadId != id
    decreases |entries|
  {
    if entries == [] then 0 else if entries[0].payloadId == id then 0 else 1 + IndexOfPayload(entries[1..], id)
  }

  function IndexOfEntry(entries: seq<Pending>, entryId: string): (i: nat)
    ensures i <= |entries|
    ensures i < |entries| ==> entries[i].entryId == entryId
    decreases |entries|
  {
    if entries == [] then 0 else if entries[0].entryId == entryId then 0 else 1 + IndexOfEntry(entries[1..], entryId)
  }

  function OnData(s: ReceiveState, frame: TransferFrame): (ReceiveState, Result<()>) {
    if frame.header.None? then (s, Err(InvalidFrame))
    else
      var idx := IndexOfPayload(s.entries, frame.header.value.id);
      if idx == |s.entries| then (s, Err(InvalidFrame))
      else
        var p := s.entries[idx];
        var c := Check(p.assembler, frame);
        if c.Err? then (s, Err(c.code))
        else
          var (spool, w) := Write(s.spool, p.handle, c.value.offset, c.value.body);
          if w.Err? then (s.(spool := spool), w)
          else
            (s.(spool := spool, entries := s.entries[idx := p.(assembler := Advance(p.assembler, c.value))]), w)
  }

  function AbortIncomplete(spool: SpoolState, entries: seq<Pending>): (SpoolState, Result<()>)
    decreases |entries|
  {
    if entries == [] then (spool, Ok(()))
    else if entries[0].assembler.complete then AbortIncomplete(spool, entries[1..])
    else
      var (t, r) := Abort(spool, entries[0].handle);
      if r.Err? then (t, r) else AbortIncomplete(t, entries[1..])
  }

  function CancelAll(s: ReceiveState): (ReceiveState, Result<()>) {
    var (spool, r) := AbortIncomplete(s.spool, s.entries);
    (s.(spool := spool, entries := []), r)
  }

  function OnPayload(s: ReceiveState, frame: TransferFrame): (ReceiveState, Result<()>) {
    match frame.packetType
    case Data => OnData(s, frame)
    case Control => CancelAll(s)
    case PayloadAck => (s, Err(UnsupportedFeature))
  }

  /** The entry is gone from the session even when publishing it then fails. */
  function FinishEntry(s: ReceiveState, entryId: string): (ReceiveState, Result<PublishView>) {
    var idx := IndexOfEntry(s.entries, entryId);
    if idx == |s.entries| then (s, Err(DestinationUnavailable))
    else
      var p := s.entries[idx];
      if !p.assembler.complete then (s, Err(InvalidFrame))
      else
        var (spool, r) := Commit(s.spool, p.handle, p.path);
        var t := s.(spool := spool, entries := s.entries[..idx] + s.entries[idx + 1..]);
        if r.Err? then (t, Err(r.code))
        else
          var view := PublishView(p.entryId, p.payloadId, r.value.relative, r.value.size, r.value.hashOf);
          (t.(published := s.published + [view]), Ok(view))
  }

  // ---------------------------------------------------------------- the two layers agree

  function EntryOf(spool: SpoolState, handle: nat): (i: nat) {
    Find(spool.root, spool.entries, handle)
  }

  /** Assembler and spool entry of one pending file tell the same story. */
  ghost predicate Bound(spool: SpoolState, p: Pending) {
    var i := EntryOf(spool, p.handle);
    && i < |spool.entries|
    && spool.entries[i].handle == p.handle
    && !spool.entries[i].terminated
    && spool.entries[i].written == p.assembler.written <= p.size == spool.entries[i].budget
    && p.assembler.header.totalSize == p.size && p.assembler.header.id == p.payloadId
    && (p.assembler.complete ==> p.assembler.written == p.size)
  }

  ghost predicate AllBound(spool: SpoolState, entries: seq<Pending>) {
    && Sound(spool)
    && (forall i :: 0 <= i < |entries| ==> Bound(spool, entries[i]))
    && (forall i, j :: 0 <= i < j < |entries| ==> entries[i].handle != entries[j].handle)
  }

  ghost predicate Coupled(s: ReceiveState) {
    AllBound(s.spool, s.entries)
  }

  /** The bytes stored so far for a handle. */
  function Stored(spool: SpoolState, handle: nat): Bytes {
    var i := EntryOf(spool, handle);
    if i < |spool.entries| then spool.entries[i].hashed else []
  }

  /** Whatever the assembler lets through, the spool takes: its own checks never fire. */
  lemma SpoolNeverRefuses(spool: SpoolState, p: Pending, frame: TransferFrame)
    requires Sound(spool) && Bound(spool, p) && Check(p.assembler, frame).Ok?
    ensures var c := Check(p.assembler, frame).value;
            Write(spool, p.handle, c.offset, c.body).1 == Ok(())
  {
  }

  /** A write moves one entry and leaves every other where and what it was. */
  lemma WriteKeepsStored(spool: SpoolState, handle: nat, offset: nat, bytes: Bytes, other: nat)
    requires Sound(spool) && Write(spool, handle, offset, bytes).1.Ok? && other != handle
    ensures var t := Write(spool, handle, offset, bytes).0;
            && EntryOf(t, other) == EntryOf(spool, other)
            && (EntryOf(spool, other) < |spool.entries| ==>
                  t.entries[EntryOf(spool, other)] == spool.entries[EntryOf(spool, other)])
            && Stored(t, other) == Stored(spool, other)
  {
    var t := Write(spool, handle, offset, bytes).0;
    FindInCleanRoot(spool.root, spool.entries, spool.nextHandle, handle);
    FindInCleanRoot(spool.root, spool.entries, spool.nextHandle, other);
    SameLookup(spool.root, spool.entries, t.entries, other);
  }

  lemma WriteKeepsBound(spool: SpoolState, handle: nat, offset: nat, bytes: Bytes, q: Pending)
    requires Sound(spool) && Write(spool, handle, offset, bytes).1.Ok?
    requires Bound(spool, q) && q.handle != handle
    ensures Bound(Write(spool, handle, offset, bytes).0, q)
  {
    WriteKeepsStored(spool, handle, offset, bytes, q.handle);
  }

  lemma WriteAdvancesBound(spool: SpoolState, p: Pending, frame: TransferFrame)
    requires Sound(spool) && Bound(spool, p) && Check(p.assembler, frame).Ok?
    ensures var c := Check(p.assembler, frame).value;
            var t := Write(spool, p.handle, c.offset, c.body).0;
            && Bound(t, p.(assembler := Advance(p.assembler, c)))
            && Stored(t, p.handle) == Stored(spool, p.handle) + c.body
  {
    var c := Check(p.assembler, frame).value;
    var t := Write(spool, p.handle, c.offset, c.body).0;
    SameLookup(spool.root, spool.entries, t.entries, p.handle);
  }

  /** The entry a frame is stored into, and what of it is stored. */
  function Target(s: ReceiveState, frame: TransferFrame): (handle: Option<nat>) {
    if frame.header.None? then None
    else
      var idx := IndexOfPayload(s.entries, frame.header.value.id);
      if idx < |s.entries| && Check(s.entries[idx].assembler, frame).Ok? then Some(s.entries[idx].handle) else None
  }

  /** A data frame either goes, whole, to the one entry bound to its payload id, or it is
      refused and nothing changes at all. */
  lemma DataFrameStep(s: ReceiveState, frame: TransferFrame)
    requires Coupled(s)
    ensures Coupled(OnData(s, frame).0)
    ensures OnData(s, frame).1.Ok? <==> Target(s, frame).Some?
    ensures OnData(s, frame).1.Err? ==> OnData(s, frame).0 == s
    ensures OnData(s, frame).1.Ok? ==>
              && Stored(OnData(s, frame).0.spool, Target(s, frame).value)
                 == Stored(s.spool, Target(s, frame).value) + frame.chunk.value.body
              && forall h: nat :: h != Target(s, frame).value ==>
                   Stored(OnData(s, frame).0.spool, h) == Stored(s.spool, h)
  {
    hide Write, Find, Sound, Bound, Stored, Check, Advance;
    if Target(s, frame).Some? {
      var idx := IndexOfPayload(s.entries, frame.header.value.id);
      var p := s.entries[idx];
      var c := Check(p.assembler, frame).value;
      var t := Write(s.spool, p.handle, c.offset, c.body).0;
      SpoolNeverRefuses(s.spool, p, frame);
      WriteAdvancesBound(s.spool, p, frame);
      WriteSound(s.spool, p.handle, c.offset, c.body);
      forall h: nat | h != p.handle ensures Stored(t, h) == Stored(s.spool, h) {
        WriteKeepsStored(s.spool, p.handle, c.offset, c.body, h);
      }
      forall i | 0 <= i < |s.entries| && i != idx ensures Bound(t, s.entries[i]) {
        WriteKeepsBound(s.spool, p.handle, c.offset, c.body, s.entries[i]);
      }
    }
  }
}
