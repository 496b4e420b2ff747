/** The objects of the receiving side, changed in place and proved against the state
    functions of `Receive`. */
module ReceiveSessions {
  import opened Prelude
  import opened Payload
  import opened SpoolNames
  import opened Spool
  import opened Receive

  class PayloadAssembler {
    const header: PayloadHeader
    var written: nat
    var complete: bool

    ghost function Model(): Assembler
      reads this
    {
      Assembler(header, written, complete)
    }

    constructor (header: PayloadHeader)
      ensures Model() == Assembler(header, 0, false)
    {
      this.header := header;
      written, complete := 0, false;
    }

    /** Checks a frame, hands its body to the spool, and only then moves on. */
    method AcceptFrame(frame: TransferFrame, spool: SpoolStore, handle: nat) returns (r: Result<()>)
      modifies this, spool
      ensures match Check(old(Model()), frame)
              case Err(e) => r == Err(e) && Model() == old(Model()) && spool.Model() == old(spool.Model())
              case Ok(c) =>
                && (spool.Model(), r) == Write(old(spool.Model()), handle, c.offset, c.body)
                && Model() == if r.Ok? then Advance(old(Model()), c) else old(Model())
    {
      if complete {
        return Err(InvalidFrame);
      }
      if !frame.packetType.Data? {
        return Err(UnsupportedFeature);
      }
      if frame.header.None? {
        return Err(InvalidFrame);
      }
      if frame.header.value.id != header.id {
        return Err(InvalidFrame);
      }
      if frame.header.value.totalSize != header.totalSize {
        return Err(InvalidFrame);
      }
      if frame.chunk.None? {
        return Err(InvalidFrame);
      }
      var chunk := frame.chunk.value;
      if chunk.offset != written {
        return Err(InvalidFrame);
      }
      var end := written + |chunk.body|;
      if end >= TWO_64 {
        return Err(InvalidFrame);
      }
      if end > header.totalSize {
        return Err(ResourceLimit);
      }
      var fillsPayload := end == header.totalSize;
      if chunk.IsLast() && !fillsPayload {
        return Err(InvalidFrame);
      }
      if !chunk.IsLast() && fillsPayload {
        return Err(InvalidFrame);
      }
      r := spool.WriteChunk(handle, chunk.offset, chunk.body);
      if r.Ok? {
        written := end;
        if chunk.IsLast() {
          complete := true;
        }
      }
    }
  }

  datatype PendingEntry = PendingEntry(
    entryId: string, payloadId: i64, size: nat, path: FinalPath, handle: nat, assembler: PayloadAssembler)
  {
    ghost function Value(): Pending
      reads assembler
    {
      Pending(entryId, payloadId, size, path, handle, assembler.Model())
    }
  }

  ghost function Assemblers(entries: seq<PendingEntry>): set<PayloadAssembler> {
    set e | e in entries :: e.assembler
  }

  ghost function Values(entries: seq<PendingEntry>): (v: seq<Pending>)
    reads Assemblers(entries)
    ensures |v| == |entries| && forall i :: 0 <= i < |entries| ==> v[i] == entries[i].Value()
  {
    seq(|entries|, i requires 0 <= i < |entries| reads Assemblers(entries) => entries[i].Value())
  }

  class ReceiveSession {
    const spool: SpoolStore
    const budget: u64
    var entries: seq<PendingEntry>
    var published: seq<PublishView>
    var nextSeq: nat

    ghost predicate Valid()
      reads this
    {
      forall i, j :: 0 <= i < j < |entries| ==> entries[i].assembler != entries[j].assembler
    }

    ghost function Model(): ReceiveState
      reads this, spool, Assemblers(entries)
    {
      ReceiveState(spool.Model(), budget, Values(entries), published, nextSeq)
    }

    constructor (root: string, budget: u64)
      ensures Valid() && fresh(spool) && entries == []
      ensures Model() == FreshState(root, budget)
    {
      spool := new SpoolStore(root);
      this.budget := budget;
      entries, published, nextSeq := [], [], 1;
    }

    /** Sets up one entry per offer; the checks in front have no effect. */
    method HandleIntroduction(offers: seq<FileOffer>, decision: ReceiveDecision) returns (r: Result<ResponseStatus>)
      requires Valid()
      modifies this, spool
      ensures Valid() && fresh(Assemblers(entries) - old(Assemblers(entries)))
      ensures (Model(), r) == OnIntroduction(old(Model()), offers, decision)
    {
      if offers == [] {
        return Err(InvalidFrame);
      }
      if !AllSanitary(offers) {
        return Err(InvalidFrame);
      }
      if DuplicateIds(offers) {
        return Err(InvalidFrame);
      }
      if TotalSize(offers) > budget {
        return Ok(NotEnoughSpace);
      }
      if decision.Reject? {
        return Ok(Rejected);
      }
      ghost var start := Model();
      var idx := 0;
      while idx < |offers|
        invariant idx <= |offers|
        invariant Valid() && fresh(Assemblers(entries) - old(Assemblers(entries)))
        invariant Establish(start, offers, 0) == Establish(Model(), offers, idx)
      {
        ghost var before := Model();
        var one := SetUpEntry(offers[idx], idx);
        if one.Err? {
          return Err(one.code);
        }
        idx := idx + 1;
      }
      return Ok(Accepted);
    }

    method SetUpEntry(o: FileOffer, idx: nat) returns (r: Result<()>)
      requires Valid()
      modifies this, spool
      ensures Valid() && fresh(Assemblers(entries) - old(Assemblers(entries)))
      ensures (Model(), r) == EstablishOne(old(Model()), o, idx)
    {
      hide Begin, ValidOffer, EntryId, Components;
      var id := EntryId(nextSeq, idx);
      nextSeq := nextSeq + 1;
      if !ValidOffer(o.parent, o.name) {
        return Err(InvalidFrame);
      }
      var handle := spool.BeginEntry(id, o.parent, o.name, o.size, budget);
      if handle.Err? {
        return Err(handle.code);
      }
      var assembler := new PayloadAssembler(PayloadHeader(o.payloadId, FileKind, o.size, None, None));
      var e := PendingEntry(id, o.payloadId, o.size, Components(o.parent, o.name), handle.value, assembler);
      ghost var was := entries;
      entries := entries + [e];
      assert Values(entries) == Values(was) + [e.Value()];
      return Ok(());
    }

    method PositionOf(payloadId: i64) returns (i: nat)
      ensures i == IndexOfPayload(Values(entries), payloadId)
    {
      i := 0;
      while i < |entries| && entries[i].payloadId != payloadId
        invariant i <= |entries|
        invariant IndexOfPayload(Values(entries), payloadId) == i + IndexOfPayload(Values(entries)[i..], payloadId)
      {
        i := i + 1;
      }
    }

    method HandleData(frame: TransferFrame) returns (r: Result<()>)
      requires Valid()
      modifies spool, Assemblers(entries)
      ensures (Model(), r) == OnData(old(Model()), frame)
    {
      hide Write, Check, Advance, IndexOfPayload;
      if frame.header.None? {
        return Err(InvalidFrame);
      }
      var idx := PositionOf(frame.header.value.id);
      if idx == |entries| {
        return Err(InvalidFrame);
      }
      var e := entries[idx];
      ghost var was := Model();
      assert was.entries[idx] == e.Value();
      r := e.assembler.AcceptFrame(frame, spool, e.handle);
      assert forall i :: 0 <= i < |entries| && i != idx ==> entries[i].Value() == was.entries[i];
      ghost var c := Check(was.entries[idx].assembler, frame);
      if r.Err? {
        assert e.Value() == was.entries[idx];
        assert Values(entries) == was.entries;
      } else {
        assert c.Ok? && e.Value() == was.entries[idx].(assembler := Advance(was.entries[idx].assembler, c.value));
        assert Values(entries) == was.entries[idx := e.Value()];
      }
    }

    method HandleCancel() returns (r: Result<()>)
      requires Valid()
      modifies this, spool
      ensures Valid() && entries == []
      ensures (Model(), r) == CancelAll(old(Model()))
    {
      var taken := entries;
      entries := [];
      ghost var all := old(Values(entries));
      assert Values(taken) == all;
      var i := 0;
      while i < |taken|
        invariant i <= |taken| && entries == [] && unchanged(`published) && unchanged(`nextSeq)
        invariant Values(taken) == all
        invariant AbortIncomplete(old(spool.Model()), all) == AbortIncomplete(spool.Model(), all[i..])
      {
        assert all[i..][0] == taken[i].Value() && all[i..][1..] == all[i + 1..];
        if !taken[i].assembler.complete {
          r := spool.AbortEntry(taken[i].handle);
          if r.Err? {
            return;
          }
        }
        i := i + 1;
      }
      return Ok(());
    }

    method HandlePayload(frame: TransferFrame) returns (r: Result<()>)
      requires Valid()
      modifies this, spool, Assemblers(entries)
      ensures Valid() && Assemblers(entries) <= old(Assemblers(entries))
      ensures (Model(), r) == OnPayload(old(Model()), frame)
    {
      match frame.packetType
      case Data =>
        r := HandleData(frame);
      case Control =>
        r := HandleCancel();
      case PayloadAck =>
        r := Err(UnsupportedFeature);
    }

    method IndexOf(entryId: string) returns (i: nat)
      ensures i == IndexOfEntry(Values(entries), entryId)
    {
      i := 0;
      while i < |entries| && entries[i].entryId != entryId
        invariant i <= |entries|
        invariant IndexOfEntry(Values(entries), entryId) == i + IndexOfEntry(Values(entries)[i..], entryId)
      {
        i := i + 1;
      }
    }

    method RemoveAt(idx: nat)
      requires Valid() && idx < |entries|
      modifies `entries
      ensures Valid() && Assemblers(entries) <= old(Assemblers(entries))
      ensures Values(entries) == old(Values(entries))[..idx] + old(Values(entries))[idx + 1..]
    {
      ghost var was := entries;
      entries := entries[..idx] + entries[idx + 1..];
      assert forall i :: 0 <= i < |entries| ==> entries[i] == was[if i < idx then i else i + 1];
    }

    method Finish(entryId: string) returns (r: Result<PublishView>)
      requires Valid()
      modifies this, spool
      ensures Valid() && Assemblers(entries) <= old(Assemblers(entries))
      ensures (Model(), r) == FinishEntry(old(Model()), entryId)
    {
      hide Commit;
      var idx := IndexOf(entryId);
      if idx == |entries| {
        return Err(DestinationUnavailable);
      }
      var e := entries[idx];
      if !e.assembler.complete {
        return Err(InvalidFrame);
      }
      RemoveAt(idx);
      var receipt := spool.CommitEntry(e.handle, e.path);
      if receipt.Err? {
        return Err(receipt.code);
      }
      var view := PublishView(e.entryId, e.payloadId, receipt.value.relative, receipt.value.size, receipt.value.hashOf);
      published := published + [view];
      return Ok(view);
    }
  }
}
