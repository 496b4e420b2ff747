/** A file through every layer: split, printed, sealed, opened, parsed, assembled, published, as
    `run_transport_chain` of interop-demo/src/quickshare.rs composes them - and beside it
    whatever else the connection carries and the session receives. */
module EndToEnd {
  import opened Prelude
  import opened Payload
  import opened SpoolNames
  import opened Spool
  import opened Receive
  import opened Introductions
  import opened ReceiveRuns
  import opened SecureChannel
  import opened Transfers

  // ---------------------------------------------------------------- safety: what entries hold

  /** What is stored for this entry is a beginning of the file, and complete means all of it. */
  ghost predicate HoldsPrefix(spool: SpoolState, p: Pending, x: Transfer) {
    && p.assembler.written <= |x.content|
    && Stored(spool, p.handle) == x.content[..p.assembler.written]
    && (p.assembler.complete ==> p.assembler.written == |x.content|)
  }

  /** So it is for every entry announced under the file's payload id. */
  ghost predicate HoldsPrefixes(s: ReceiveState, x: Transfer) {
    && Coupled(s)
    && forall i :: 0 <= i < |s.entries| && s.entries[i].payloadId == x.id ==> HoldsPrefix(s.spool, s.entries[i], x)
  }

  /** So it is, for every file, in a session that has just been opened. */
  lemma FreshHoldsPrefixes(root: string, budget: u64, x: Transfer)
    requires CleanRoot(root)
    ensures var s := FreshState(root, budget); HoldsPrefixes(s, x) && DirsClosed(s.spool.dirs) && s.published == []
  {
  }

  /** One chunk more, if it is taken at all. */
  lemma ChunkExtendsPrefix(x: Transfer, written: nat, a: Assembler, frame: TransferFrame)
    requires Sendable(x) && ChunkOf(x, frame) && Check(a, frame).Ok? && written == a.written <= |x.content|
    ensures var c := Check(a, frame).value;
            && written + |c.body| <= |x.content|
            && x.content[..written] + c.body == x.content[..written + |c.body|]
            && (c.IsLast() ==> written + |c.body| == |x.content|)
  {
    var k: nat :| HasChunk(x, k) && frame == FrameAt(x, k);
    PartBounds(x, k);
  }

  lemma DataKeepsPrefixes(s: ReceiveState, x: Transfer, frame: TransferFrame)
    requires Sendable(x) && HoldsPrefixes(s, x) && frame.packetType.Data?
    requires ForId(x.id, frame) ==> ChunkOf(x, frame)
    ensures HoldsPrefixes(OnData(s, frame).0, x)
  {
    hide Coupled, Stored, Check, ChunkOf, Write;
    DataFrameStep(s, frame);
    if Target(s, frame).Some? {
      var idx, t := IndexOfPayload(s.entries, frame.header.value.id), OnData(s, frame).0;
      var p := s.entries[idx];
      TakenShape(s, frame);
      if p.payloadId == x.id {
        ChunkExtendsPrefix(x, p.assembler.written, p.assembler, frame);
      }
      forall i | 0 <= i < |t.entries| && t.entries[i].payloadId == x.id ensures HoldsPrefix(t.spool, t.entries[i], x) {
        assert i != idx ==> t.entries[i] == s.entries[i] && s.entries[i].handle != p.handle;
      }
    }
  }

  /** What taking a frame does to the entries. */
  lemma TakenShape(s: ReceiveState, frame: TransferFrame)
    requires Coupled(s) && Target(s, frame).Some?
    ensures var idx := IndexOfPayload(s.entries, frame.header.value.id);
            var p := s.entries[idx];
            && OnData(s, frame).0.entries ==
               s.entries[idx := p.(assembler := Advance(p.assembler, Check(p.assembler, frame).value))]
            && (forall i :: 0 <= i < |s.entries| && i != idx ==> s.entries[i].handle != p.handle)
            && OnData(s, frame).0.spool.files.Keys == s.spool.files.Keys
  {
    hide Check, Sound;
    var p := s.entries[IndexOfPayload(s.entries, frame.header.value.id)];
    assert Bound(s.spool, p);
    SpoolNeverRefuses(s.spool, p, frame);
  }

  lemma FrameKeepsPrefixes(s: ReceiveState, x: Transfer, frame: TransferFrame)
    requires Sendable(x) && HoldsPrefixes(s, x) && (ForId(x.id, frame) ==> ChunkOf(x, frame))
    ensures HoldsPrefixes(OnPayload(s, frame).0, x)
  {
    hide Coupled, OnData, CancelAll, HoldsPrefix, ChunkOf;
    match frame.packetType
    case Data => DataKeepsPrefixes(s, x, frame);
    case Control => CancelOutcome(s);
    case PayloadAck =>
  }

  lemma IntroductionKeepsPrefixes(s: ReceiveState, x: Transfer, offers: seq<FileOffer>, decision: ReceiveDecision)
    requires HoldsPrefixes(s, x) && Coupled(OnIntroduction(s, offers, decision).0)
    ensures HoldsPrefixes(OnIntroduction(s, offers, decision).0, x)
  {
    hide Coupled, Stored, OnIntroduction, Established, FirstRefused;
    CoupledSound(s);
    IntroductionOutcome(s, offers, decision);
    var t, n := OnIntroduction(s, offers, decision).0, FirstRefused(s, offers, 0, 0);
    if Passes(s, offers, decision) {
      forall i | 0 <= i < |t.entries| && t.entries[i].payloadId == x.id ensures HoldsPrefix(t.spool, t.entries[i], x) {
        AddedStoresNothing(s, t, offers, n, t.entries[i].handle);
        if i < |s.entries| {
          assert t.entries[i] == s.entries[i];
        } else {
          NewHoldsNothing(t, offers[i - |s.entries|], t.entries[i], s.spool.nextHandle + (i - |s.entries|));
        }
      }
    }
  }

  lemma NewHoldsNothing(t: ReceiveState, o: FileOffer, p: Pending, handle: nat)
    requires Established(t, o, p, handle)
    ensures Stored(t.spool, p.handle) == [] && p.assembler.written == 0 && !p.assembler.complete
  {
    hide Find;
  }

  lemma CoupledSound(s: ReceiveState)
    requires Coupled(s)
    ensures Sound(s.spool)
  {
  }

  lemma FinishKeepsPrefixes(s: ReceiveState, x: Transfer, entryId: string)
    requires HoldsPrefixes(s, x) && Coupled(FinishEntry(s, entryId).0)
    ensures HoldsPrefixes(FinishEntry(s, entryId).0, x)
  {
    hide Coupled, Stored, Commit;
    var idx, t := IndexOfEntry(s.entries, entryId), FinishEntry(s, entryId).0;
    if idx < |s.entries| && s.entries[idx].assembler.complete {
      forall i | 0 <= i < |t.entries| && t.entries[i].payloadId == x.id ensures HoldsPrefix(t.spool, t.entries[i], x) {
        RemovedAt(s.entries, idx, i);
        CommitKeepsStored(s.spool, s.entries[idx].handle, s.entries[idx].path, t.entries[i].handle);
      }
    }
  }

  // ---------------------------------------------------------------- safety: what is published

  ghost predicate FileIs(spool: SpoolState, path: Path, content: Bytes) {
    path in spool.files && spool.files[path] == content
  }

  /** This announcement of a publish is for other payloads, or tells of the whole file. */
  ghost predicate Tells(v: PublishView, x: Transfer) {
    v.payloadId == x.id ==> v.bytes == |x.content| && v.hashOf == x.content
  }

  /** Publishing an entry of the file publishes the file. */
  lemma FinishPublishesFile(s: ReceiveState, x: Transfer, entryId: string)
    requires HoldsPrefixes(s, x) && DirsClosed(s.spool.dirs) && FinishEntry(s, entryId).1.Ok?
    ensures var (t, r) := FinishEntry(s, entryId);
            && t.published == s.published + [r.value] && Tells(r.value, x)
            && (r.value.payloadId == x.id ==> FileIs(t.spool, r.value.relative, x.content))
  {
    hide Stored, Coupled, DirsClosed, Commit, Publishable;
    FinishPublishes(s, entryId);
    assert x.content[..|x.content|] == x.content;
  }

  ghost predicate AllTell(s: ReceiveState, t: ReceiveState, x: Transfer) {
    s.published <= t.published
    && forall i :: |s.published| <= i < |t.published| ==> Tells(t.published[i], x)
  }

  /** Every data frame for the file's payload id that the session is fed is one of its chunks. */
  ghost predicate FedChunks(x: Transfer, ops: seq<ReceiveOp>)
    requires Sendable(x)
  {
    forall i :: 0 <= i < |ops| && ops[i].Frame? && ForId(x.id, ops[i].frame) ==> ChunkOf(x, ops[i].frame)
  }

  lemma StepKeepsPrefixes(s: ReceiveState, x: Transfer, op: ReceiveOp)
    requires Sendable(x) && HoldsPrefixes(s, x) && DirsClosed(s.spool.dirs) && !Harms(s, op)
    requires op.Frame? && ForId(x.id, op.frame) ==> ChunkOf(x, op.frame)
    ensures HoldsPrefixes(Next(s, op), x) && DirsClosed(Next(s, op).spool.dirs) && AllTell(s, Next(s, op), x)
  {
    hide Coupled, HoldsPrefix, OnPayload, OnIntroduction, FinishEntry, Harms, DirsClosed, ChunkOf;
    StepKeepsCouplingIff(s, op);
    match op
    case Introduce(offers, decision) =>
      IntroductionKeepsPrefixes(s, x, offers, decision);
      IntroductionPublishesNothing(s, offers, decision);
    case Frame(frame) =>
      FrameKeepsPrefixes(s, x, frame);
      FrameStep(s, frame);
    case Finish(entryId) =>
      FinishKeepsPrefixes(s, x, entryId);
      if FinishEntry(s, entryId).1.Ok? {
        FinishPublishesFile(s, x, entryId);
      } else {
        RefusedPublishesNothing(s, entryId);
      }
  }

  lemma IntroductionPublishesNothing(s: ReceiveState, offers: seq<FileOffer>, decision: ReceiveDecision)
    requires Coupled(s)
    ensures OnIntroduction(s, offers, decision).0.published == s.published
  {
    hide OnIntroduction, Established, FirstRefused;
    IntroductionOutcome(s, offers, decision);
  }

  lemma RefusedPublishesNothing(s: ReceiveState, entryId: string)
    requires FinishEntry(s, entryId).1.Err?
    ensures FinishEntry(s, entryId).0.published == s.published
  {
    hide Commit;
  }

  /** Over any interleaving of introductions, frames and publishing. */
  lemma {:induction false} RunKeepsPrefixes(s: ReceiveState, x: Transfer, ops: seq<ReceiveOp>)
    requires Sendable(x) && HoldsPrefixes(s, x) && DirsClosed(s.spool.dirs) && NoHarm(s, ops) && FedChunks(x, ops)
    ensures var t := RunOps(s, ops); HoldsPrefixes(t, x) && DirsClosed(t.spool.dirs) && AllTell(s, t, x)
    decreases |ops|
  {
    if ops == [] {
    } else {
      hide HoldsPrefixes, DirsClosed, Next, Harms, Tells, ChunkOf;
      var before, op := ops[..|ops| - 1], ops[|ops| - 1];
      assert forall i :: 0 <= i < |before| ==> before[i] == ops[i];
      RunKeepsPrefixes(s, x, before);
      StepKeepsPrefixes(RunOps(s, before), x, op);
    }
  }

  /** What the session is fed was opened on the connection. */
  ghost predicate FedFrom(ops: seq<ReceiveOp>, opened_: seq<Bytes>) {
    forall i :: 0 <= i < |ops| && ops[i].Frame? ==>
      exists j :: 0 <= j < |opened_| && DecodeTransfer(opened_[j]) == Ok(ops[i].frame)
  }

  /** Safety, for each file by itself. On the connection anything may be sealed besides it:
      greetings, control frames, other files. Whatever the network drops, repeats, reorders or
      invents, whatever the session is fed of what was opened, in whatever order, and however
      introductions and publishing come in between: if what the sender sealed under the payload
      id are chunks of the file, then what is published under that id, whenever and as often as
      it is, is the file, byte for byte, with its size. */
  lemma PublishedIsSent(c: Suite, k: DirectionKeys, events: seq<Event>, x: Transfer, s: ReceiveState,
      ops: seq<ReceiveOp>, entryId: string)
    requires c.DecryptInverts() && IdealRun(c, k, events)
    requires OnlyChunks(x, Plaintexts(RunLink(c, k, events).sent)) && FedFrom(ops, RunLink(c, k, events).received)
    requires HoldsPrefixes(s, x) && DirsClosed(s.spool.dirs) && NoHarm(s, ops)
    ensures var t := RunOps(s, ops);
            var (u, r) := FinishEntry(t, entryId);
            && AllTell(s, t, x)
            && (r.Ok? ==>
                  && u.published == t.published + [r.value] && Tells(r.value, x)
                  && (r.value.payloadId == x.id ==> FileIs(u.spool, r.value.relative, x.content)))
  {
    hide DirsClosed, RunLink, IdealRun, HoldsPrefixes, NoHarm, ChunkOf, FinishEntry, Tells;
    OpenedWasSealed(c, k, events);
    OpenedAreChunks(x, ops, RunLink(c, k, events));
    RunKeepsPrefixes(s, x, ops);
    if FinishEntry(RunOps(s, ops), entryId).1.Ok? {
      FinishPublishesFile(RunOps(s, ops), x, entryId);
    }
  }

  lemma OpenedAreChunks(x: Transfer, ops: seq<ReceiveOp>, l: Link)
    requires AllSealed(l) && OnlyChunks(x, Plaintexts(l.sent)) && FedFrom(ops, l.received)
    ensures FedChunks(x, ops)
  {
    hide ChunkOf, DecodeTransfer;
    forall i | 0 <= i < |ops| && ops[i].Frame? && ForId(x.id, ops[i].frame) ensures ChunkOf(x, ops[i].frame) {
      var j :| 0 <= j < |l.received| && DecodeTransfer(l.received[j]) == Ok(ops[i].frame);
      var m :| 0 <= m < |l.sent| && Plaintexts(l.sent)[m] == l.received[j];
      assert IsFor(x.id, Plaintexts(l.sent)[m]);
    }
  }

  // ---------------------------------------------------------------- safety: where it is published

  predicate IsOffer(p: Pending, o: FileOffer) {
    p.payloadId == o.payloadId && p.size == o.size && p.path == Components(o.parent, o.name)
  }

  /** Some introduction of the run offered this entry's file, under this path and size. */
  ghost predicate Announced(ops: seq<ReceiveOp>, p: Pending) {
    exists i, j :: 0 <= i < |ops| && ops[i].Introduce? && 0 <= j < |ops[i].offers| && IsOffer(p, ops[i].offers[j])
  }

  lemma AnnouncedLater(ops: seq<ReceiveOp>, op: ReceiveOp, p: Pending, q: Pending)
    requires Announced(ops, p) && q.payloadId == p.payloadId && q.size == p.size && q.path == p.path
    ensures Announced(ops + [op], q)
  {
    hide Components;
    var i, j :| 0 <= i < |ops| && ops[i].Introduce? && 0 <= j < |ops[i].offers| && IsOffer(p, ops[i].offers[j]);
    assert (ops + [op])[i] == ops[i] && IsOffer(q, ops[i].offers[j]);
  }

  lemma AnnouncedNow(ops: seq<ReceiveOp>, op: ReceiveOp, j: nat, p: Pending)
    requires op.Introduce? && j < |op.offers| && IsOffer(p, op.offers[j])
    ensures Announced(ops + [op], p)
  {
    hide IsOffer;
    assert (ops + [op])[|ops|] == op;
  }

  /** Every entry after a step was there before, but for its assembler, or was just offered. */
  lemma StepEntries(s: ReceiveState, op: ReceiveOp, i: nat) returns (j: nat)
    requires Coupled(s) && i < |Next(s, op).entries|
    ensures var q := Next(s, op).entries[i];
            || (j < |s.entries| && q == s.entries[j].(assembler := q.assembler))
            || (op.Introduce? && j < |op.offers| && IsOffer(q, op.offers[j]))
  {
    hide Coupled, OnIntroduction, FirstRefused, Components, Target, CancelAll, OnData, Commit;
    j := i;
    match op
    case Introduce(offers, decision) =>
      CoupledSound(s);
      IntroductionOutcome(s, offers, decision);
      if Passes(s, offers, decision) && i >= |s.entries| {
        j := i - |s.entries|;
        assert Established(Next(s, op), offers[j], Next(s, op).entries[i], s.spool.nextHandle + j);
      }
    case Frame(frame) => FrameEntries(s, frame, i);
    case Finish(entryId) =>
      var idx := IndexOfEntry(s.entries, entryId);
      if idx < |s.entries| && s.entries[idx].assembler.complete {
        RemovedAt(s.entries, idx, i);
        j := Shifted(i, idx);
      }
  }

  lemma FrameEntries(s: ReceiveState, frame: TransferFrame, i: nat)
    requires Coupled(s) && i < |OnPayload(s, frame).0.entries|
    ensures i < |s.entries|
    ensures var q := OnPayload(s, frame).0.entries[i]; q == s.entries[i].(assembler := q.assembler)
  {
    hide Coupled, Target, CancelAll, OnData;
    match frame.packetType
    case Data =>
      DataFrameStep(s, frame);
      if Target(s, frame).Some? {
        TakenShape(s, frame);
        TargetExists(s, frame);
      }
    case Control => CancelOutcome(s);
    case PayloadAck =>
  }

  lemma TargetExists(s: ReceiveState, frame: TransferFrame)
    requires Target(s, frame).Some?
    ensures frame.header.Some? && IndexOfPayload(s.entries, frame.header.value.id) < |s.entries|
  {
  }

  /** A session that starts without entries publishes nothing but what was offered to it, and
      under the path it was offered by. */
  lemma {:induction false} EntriesAreAnnounced(s: ReceiveState, ops: seq<ReceiveOp>)
    requires s.entries == [] && Coupled(s) && DirsClosed(s.spool.dirs) && NoHarm(s, ops)
    ensures forall i :: 0 <= i < |RunOps(s, ops).entries| ==> Announced(ops, RunOps(s, ops).entries[i])
    decreases |ops|
  {
    if ops == [] {
    } else {
      hide Announced, Next, Coupled, DirsClosed, Harms, IsOffer;
      var before, op := ops[..|ops| - 1], ops[|ops| - 1];
      EntriesAreAnnounced(s, before);
      RunStaysCoupled(s, before);
      LastAppended(ops);
      var t := RunOps(s, before);
      forall i | 0 <= i < |Next(t, op).entries| ensures Announced(ops, Next(t, op).entries[i]) {
        var j := StepEntries(t, op, i);
        var q := Next(t, op).entries[i];
        if j < |t.entries| && q == t.entries[j].(assembler := q.assembler) {
          AnnouncedLater(before, op, t.entries[j], q);
        } else {
          AnnouncedNow(before, op, j, q);
        }
      }
    }
  }

  lemma PublishedAsAnnounced(s: ReceiveState, ops: seq<ReceiveOp>, entryId: string)
    requires s.entries == [] && Coupled(s) && DirsClosed(s.spool.dirs) && NoHarm(s, ops)
    requires FinishEntry(RunOps(s, ops), entryId).1.Ok?
    ensures var v := FinishEntry(RunOps(s, ops), entryId).1.value;
            exists p: Pending :: Announced(ops, p) && p.payloadId == v.payloadId && p.size == v.bytes &&
                                 p.path == v.relative
  {
    hide Announced, Coupled, DirsClosed, NoHarm, Publishable, Commit, Stored;
    var t := RunOps(s, ops);
    EntriesAreAnnounced(s, ops);
    RunStaysCoupled(s, ops);
    FinishPublishes(t, entryId);
    assert Announced(ops, t.entries[IndexOfEntry(t.entries, entryId)]);
  }
}
