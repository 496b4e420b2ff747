/** What a receive session guarantees over whole runs: introductions, payload frames in any
    order, cancellation and publishing. */
module ReceiveRuns {
  import opened Prelude
  import opened Payload
  import opened Spool
  import opened Receive
  import opened Introductions

  // ---------------------------------------------------------------- payload frames

  function RunFrames(s: ReceiveState, frames: seq<TransferFrame>): ReceiveState {
    if frames == [] then s
    else OnPayload(RunFrames(s, frames[..|frames| - 1]), frames[|frames| - 1]).0
  }

  /** What the session takes of a frame for this handle. */
  function TakenNow(t: ReceiveState, frame: TransferFrame, handle: nat): Bytes {
    if frame.packetType.Data? && Target(t, frame) == Some(handle) then frame.chunk.value.body else []
  }

  /** The bodies of the frames the session took for this handle, in order. */
  function TakenBytes(s: ReceiveState, frames: seq<TransferFrame>, handle: nat): Bytes {
    if frames == [] then []
    else
      var n := |frames| - 1;
      TakenBytes(s, frames[..n], handle) + TakenNow(RunFrames(s, frames[..n]), frames[n], handle)
  }

  /** Where the bytes of a pending file are kept until it is published. */
  function TempOf(spool: SpoolState, p: Pending): Path {
    var i := EntryOf(spool, p.handle);
    if i < |spool.entries| then spool.entries[i].TempFile() else []
  }

  lemma AbortKeepsOthers(spool: SpoolState, handle: nat, other: nat)
    requires Sound(spool)
    ensures var t := Abort(spool, handle).0;
            && EntryOf(t, other) == EntryOf(spool, other)
            && Stored(t, other) == Stored(spool, other)
            && t.root == spool.root
            && (other != handle && EntryOf(spool, other) < |spool.entries| ==>
                  t.entries[EntryOf(spool, other)] == spool.entries[EntryOf(spool, other)])
  {
    var i, t := Find(spool.root, spool.entries, handle), Abort(spool, handle).0;
    FindInCleanRoot(spool.root, spool.entries, spool.nextHandle, handle);
    FindInCleanRoot(spool.root, spool.entries, spool.nextHandle, other);
    SameLookup(spool.root, spool.entries, t.entries, other);
  }

  lemma AbortKeepsBound(spool: SpoolState, handle: nat, q: Pending)
    requires Sound(spool) && Bound(spool, q) && q.handle != handle
    ensures Bound(Abort(spool, handle).0, q) && TempOf(Abort(spool, handle).0, q) == TempOf(spool, q)
  {
    AbortKeepsOthers(spool, handle, q.handle);
  }

  lemma AbortRemoves(spool: SpoolState, p: Pending)
    requires Sound(spool) && Bound(spool, p)
    ensures var (t, r) := Abort(spool, p.handle);
            r.Ok? && t.files == spool.files - {TempOf(spool, p)}
  {
  }

  /** The temporary files of the unfinished entries. */
  ghost function Unfinished(spool: SpoolState, entries: seq<Pending>): set<Path> {
    set i | 0 <= i < |entries| && !entries[i].assembler.complete :: TempOf(spool, entries[i])
  }

  lemma UnfinishedCons(spool: SpoolState, entries: seq<Pending>)
    requires entries != []
    ensures Unfinished(spool, entries) ==
            Unfinished(spool, entries[1..]) + if entries[0].assembler.complete then {} else {TempOf(spool, entries[0])}
  {
    var all, rest := Unfinished(spool, entries), entries[1..];
    forall f | f in all
      ensures f in Unfinished(spool, rest) || (!entries[0].assembler.complete && f == TempOf(spool, entries[0]))
    {
      var i :| 0 <= i < |entries| && !entries[i].assembler.complete && TempOf(spool, entries[i]) == f;
      if i > 0 { assert rest[i - 1] == entries[i]; }
    }
    forall f | f in Unfinished(spool, rest) ensures f in all {
      var i :| 0 <= i < |rest| && !rest[i].assembler.complete && TempOf(spool, rest[i]) == f;
      assert rest[i] == entries[i + 1];
    }
  }

  lemma AbortKeepsAllBound(spool: SpoolState, entries: seq<Pending>)
    requires entries != [] && AllBound(spool, entries)
    ensures var t := Abort(spool, entries[0].handle).0;
            && AllBound(t, entries[1..])
            && Unfinished(t, entries[1..]) == Unfinished(spool, entries[1..])
  {
    hide Abort, Bound, Sound, EntryOf;
    var p, rest, t := entries[0], entries[1..], Abort(spool, entries[0].handle).0;
    AbortSound(spool, p.handle);
    forall i | 0 <= i < |rest| ensures Bound(t, rest[i]) && TempOf(t, rest[i]) == TempOf(spool, rest[i]) {
      assert rest[i] == entries[i + 1];
      AbortKeepsBound(spool, p.handle, rest[i]);
    }
    forall i, j | 0 <= i < j < |rest| ensures rest[i].handle != rest[j].handle {
      assert rest[i] == entries[i + 1] && rest[j] == entries[j + 1];
    }
  }

  lemma {:induction false} CancelFiles(spool: SpoolState, entries: seq<Pending>)
    requires AllBound(spool, entries)
    ensures var (t, r) := AbortIncomplete(spool, entries);
            r.Ok? && Removed(spool, t, Unfinished(spool, entries))
    decreases |entries|
  {
    if entries != [] {
      hide Abort, AllBound, Unfinished, Removed;
      UnfinishedCons(spool, entries);
      if entries[0].assembler.complete {
        RestBound(spool, entries);
        CancelFiles(spool, entries[1..]);
        assert Unfinished(spool, entries) == Unfinished(spool, entries[1..]);
      } else {
        AbortKeepsAllBound(spool, entries);
        AbortFirst(spool, entries);
        var t := Abort(spool, entries[0].handle).0;
        CancelFiles(t, entries[1..]);
        RemovedTwice(spool, t, AbortIncomplete(t, entries[1..]).0, {TempOf(spool, entries[0])},
          Unfinished(spool, entries[1..]));
        assert Unfinished(spool, entries) == {TempOf(spool, entries[0])} + Unfinished(spool, entries[1..]);
      }
    } else {
      NothingRemoved(spool);
    }
  }

  /** The files `gone` are gone, and that is all that has happened to what is stored. */
  ghost predicate Removed(spool: SpoolState, t: SpoolState, gone: set<Path>) {
    && Sound(t)
    && t.files == spool.files - gone
    && (forall h: nat :: Stored(t, h) == Stored(spool, h))
  }

  lemma NothingRemoved(spool: SpoolState)
    requires AllBound(spool, [])
    ensures Removed(spool, spool, Unfinished(spool, []))
  {
    hide Sound, Stored;
  }

  lemma RemovedTwice(s: SpoolState, t: SpoolState, u: SpoolState, first: set<Path>, second: set<Path>)
    requires Removed(s, t, first) && Removed(t, u, second)
    ensures Removed(s, u, first + second)
  {
    hide Sound, Stored;
  }

  lemma RestBound(spool: SpoolState, entries: seq<Pending>)
    requires entries != [] && AllBound(spool, entries)
    ensures AllBound(spool, entries[1..])
  {
    hide Bound, Sound;
    var rest := entries[1..];
    assert forall i :: 0 <= i < |rest| ==> rest[i] == entries[i + 1];
  }

  lemma AbortFirst(spool: SpoolState, entries: seq<Pending>)
    requires entries != [] && AllBound(spool, entries)
    ensures var (t, r) := Abort(spool, entries[0].handle);
            r.Ok? && Removed(spool, t, {TempOf(spool, entries[0])})
  {
    hide Abort, Bound, Sound, EntryOf, Stored, TempOf;
    AbortSound(spool, entries[0].handle);
    AbortRemoves(spool, entries[0]);
    forall h: nat ensures Stored(Abort(spool, entries[0].handle).0, h) == Stored(spool, h) {
      AbortKeepsOthers(spool, entries[0].handle, h);
    }
  }

  lemma BoundFile(spool: SpoolState, p: Pending, q: Pending)
    requires Sound(spool) && Bound(spool, p) && Bound(spool, q)
    ensures TempOf(spool, p) in spool.files
    ensures TempOf(spool, p) == TempOf(spool, q) ==> p.handle == q.handle
  {
    OtherTempFiles(spool, EntryOf(spool, p.handle));
  }

  /** Cancelling removes the temporary file of every unfinished entry - and only of those: an
      entry that is complete but not yet published keeps its file, although it is forgotten. */
  lemma CancelOutcome(s: ReceiveState)
    requires Coupled(s)
    ensures var (t, r) := CancelAll(s);
            && r.Ok? && Coupled(t) && t.entries == []
            && (forall h: nat :: Stored(t.spool, h) == Stored(s.spool, h))
            && (forall i :: 0 <= i < |s.entries| ==>
                  (TempOf(s.spool, s.entries[i]) in t.spool.files <==> s.entries[i].assembler.complete))
  {
    hide Bound, Sound, EntryOf, Stored, TempOf;
    assert AllBound(s.spool, s.entries);
    CancelFiles(s.spool, s.entries);
    var gone := Unfinished(s.spool, s.entries);
    forall i | 0 <= i < |s.entries|
      ensures TempOf(s.spool, s.entries[i]) in CancelAll(s).0.spool.files <==> s.entries[i].assembler.complete
    {
      var p := s.entries[i];
      BoundFile(s.spool, p, p);
      if TempOf(s.spool, p) in gone {
        var j :| 0 <= j < |s.entries| && !s.entries[j].assembler.complete
          && TempOf(s.spool, s.entries[j]) == TempOf(s.spool, p);
        BoundFile(s.spool, p, s.entries[j]);
      }
    }
  }

  /** After one accepted introduction, whatever frames follow: assembler and spool agree, and
      every handle holds exactly the bodies that were taken for it, in the order taken. */
  lemma {:induction false} RunKeepsCoupling(s: ReceiveState, frames: seq<TransferFrame>)
    requires Coupled(s)
    ensures var t := RunFrames(s, frames);
            && Coupled(t)
            && (forall h: nat :: Stored(t.spool, h) == Stored(s.spool, h) + TakenBytes(s, frames, h))
            && t.published == s.published
    decreases |frames|
  {
    hide Coupled, Stored, OnData, CancelAll;
    if frames == [] {
      forall h: nat ensures Stored(s.spool, h) == Stored(s.spool, h) + TakenBytes(s, frames, h) {
        AppendNothing(Stored(s.spool, h));
      }
    } else {
      var n := |frames| - 1;
      var before, frame := frames[..n], frames[n];
      RunKeepsCoupling(s, before);
      var t := RunFrames(s, before);
      FrameStep(t, frame);
      forall h: nat
        ensures Stored(OnPayload(t, frame).0.spool, h) == Stored(s.spool, h) + TakenBytes(s, frames, h)
      {
        Assoc(Stored(s.spool, h), TakenBytes(s, before, h), TakenNow(t, frame, h));
      }
    }
  }

  lemma FrameStep(t: ReceiveState, frame: TransferFrame)
    requires Coupled(t)
    ensures Coupled(OnPayload(t, frame).0) && OnPayload(t, frame).0.published == t.published
    ensures forall h: nat :: Stored(OnPayload(t, frame).0.spool, h) == Stored(t.spool, h) + TakenNow(t, frame, h)
  {
    hide Bound, Sound, Stored, Check;
    forall h: nat ensures Stored(t.spool, h) + [] == Stored(t.spool, h) { AppendNothing(Stored(t.spool, h)); }
    match frame.packetType
    case Data => DataFrameStep(t, frame);
    case Control => CancelOutcome(t);
    case PayloadAck =>
  }

  // ---------------------------------------------------------------- publishing

  /** Publishing writes exactly the stored bytes under the announced path, once, with the
      declared size; and it succeeds exactly for a complete entry with nothing in its way. */
  lemma FinishPublishes(s: ReceiveState, entryId: string)
    requires Coupled(s) && DirsClosed(s.spool.dirs) && IndexOfEntry(s.entries, entryId) < |s.entries|
    ensures var p := s.entries[IndexOfEntry(s.entries, entryId)];
            var (t, r) := FinishEntry(s, entryId);
            && (r.Ok? <==> p.assembler.complete && Publishable(s.spool, p.path))
            && (r.Ok? ==>
                  && p.path in t.spool.files && t.spool.files[p.path] == Stored(s.spool, p.handle)
                  && |Stored(s.spool, p.handle)| == p.size
                  && r.value == PublishView(p.entryId, p.payloadId, p.path, p.size, Stored(s.spool, p.handle))
                  && t.published == s.published + [r.value])
  {
    hide DirsClosed, Publishable, Find;
    var p := s.entries[IndexOfEntry(s.entries, entryId)];
    assert Bound(s.spool, p);
    CommitSucceedsIff(s.spool, p.handle, p.path);
    if Commit(s.spool, p.handle, p.path).1.Ok? {
      CommitPublishes(s.spool, p.handle, p.path);
    }
  }

  lemma CommitKeepsBound(spool: SpoolState, handle: nat, final: FinalPath, q: Pending)
    requires Sound(spool) && Bound(spool, q) && q.handle != handle
    ensures Bound(Commit(spool, handle, final).0, q)
    ensures Stored(Commit(spool, handle, final).0, q.handle) == Stored(spool, q.handle)
  {
    hide Commit;
    var t := Commit(spool, handle, final).0;
    CommitEntriesOnly(spool, handle, final);
    FindInCleanRoot(spool.root, spool.entries, spool.nextHandle, handle);
    SameLookup(spool.root, spool.entries, t.entries, q.handle);
  }

  /** Where the element at `i` was before the one at `idx` was removed. */
  function Shifted(i: nat, idx: nat): nat {
    if i < idx then i else i + 1
  }

  lemma RemovedAt(entries: seq<Pending>, idx: nat, i: nat)
    requires idx < |entries| && i < |entries| - 1
    ensures (entries[..idx] + entries[idx + 1..])[i] == entries[Shifted(i, idx)]
  {
  }

  /** The entry is removed and its bytes are published, or not: the others stay bound. */
  lemma OthersStayBound(s: ReceiveState, idx: nat, i: nat)
    requires Coupled(s) && idx < |s.entries| && i < |s.entries| - 1
    ensures var rest := s.entries[..idx] + s.entries[idx + 1..];
            Bound(Commit(s.spool, s.entries[idx].handle, s.entries[idx].path).0, rest[i])
  {
    hide Bound, Sound, Commit;
    RemovedAt(s.entries, idx, i);
    CommitKeepsBound(s.spool, s.entries[idx].handle, s.entries[idx].path, s.entries[Shifted(i, idx)]);
  }

  lemma PublishedCoupledIff(s: ReceiveState, idx: nat, t: ReceiveState)
    requires Coupled(s) && idx < |s.entries|
    requires t.spool == Commit(s.spool, s.entries[idx].handle, s.entries[idx].path).0
    requires t.entries == s.entries[..idx] + s.entries[idx + 1..]
    ensures Coupled(t) <==> Sound(t.spool)
  {
    hide Bound, Sound, Commit;
    forall i | 0 <= i < |t.entries| ensures Bound(t.spool, t.entries[i]) && t.entries[i] == s.entries[Shifted(i, idx)] {
      OthersStayBound(s, idx, i);
      RemovedAt(s.entries, idx, i);
    }
  }

  /** Publishing an entry goes through, and replaces another entry's temporary file that
      holds other bytes. */
  ghost predicate Clashes(s: ReceiveState, entryId: string) {
    var idx := IndexOfEntry(s.entries, entryId);
    && idx < |s.entries| && s.entries[idx].assembler.complete
    && var p := s.entries[idx];
       IsLive(s.spool, p.handle) && Publishable(s.spool, p.path) && !SameBytesAt(s.spool, p.handle, p.path)
  }

  /** Publishing one entry leaves the others receivable exactly when it does not clash: a
      name that is another entry's temporary file replaces the bytes that entry has stored. */
  lemma FinishKeepsCouplingIff(s: ReceiveState, entryId: string)
    requires Coupled(s) && DirsClosed(s.spool.dirs)
    ensures Coupled(FinishEntry(s, entryId).0) <==> !Clashes(s, entryId)
  {
    hide Sound, Commit, DirsClosed, Publishable, SameBytesAt;
    var idx := IndexOfEntry(s.entries, entryId);
    if idx < |s.entries| && s.entries[idx].assembler.complete {
      var p := s.entries[idx];
      assert Bound(s.spool, p);
      CommitSoundIff(s.spool, p.handle, p.path);
      PublishedCoupledIff(s, idx, FinishEntry(s, entryId).0);
    }
  }

  // ---------------------------------------------------------------- runs of everything

  datatype ReceiveOp =
    | Introduce(offers: seq<FileOffer>, decision: ReceiveDecision)
    | Frame(frame: TransferFrame)
    | Finish(entryId: string)

  function Next(s: ReceiveState, op: ReceiveOp): ReceiveState {
    match op
    case Introduce(offers, decision) => OnIntroduction(s, offers, decision).0
    case Frame(frame) => OnPayload(s, frame).0
    case Finish(entryId) => FinishEntry(s, entryId).0
  }

  function RunOps(s: ReceiveState, ops: seq<ReceiveOp>): ReceiveState {
    if ops == [] then s else Next(RunOps(s, ops[..|ops| - 1]), ops[|ops| - 1])
  }

  /** An introduction sets up a file larger than the budget, or a publish clashes. */
  ghost predicate Harms(s: ReceiveState, op: ReceiveOp) {
    match op
    case Introduce(offers, decision) =>
      && Passes(s, offers, decision)
      && exists i :: 0 <= i < FirstRefused(s, offers, 0, 0) && offers[i].size > s.budget
    case Frame(_) => false
    case Finish(entryId) => Clashes(s, entryId)
  }

  lemma {:induction false} CancelKeepsDirs(spool: SpoolState, entries: seq<Pending>)
    ensures AbortIncomplete(spool, entries).0.dirs == spool.dirs
    decreases |entries|
  {
    if entries == [] {
    } else if entries[0].assembler.complete {
      CancelKeepsDirs(spool, entries[1..]);
    } else {
      CancelKeepsDirs(Abort(spool, entries[0].handle).0, entries[1..]);
    }
  }

  lemma DirsStayClosed(s: ReceiveState, op: ReceiveOp)
    requires Coupled(s) && DirsClosed(s.spool.dirs)
    ensures DirsClosed(Next(s, op).spool.dirs)
  {
    hide DirsClosed, Find, Sound, Bound, Established, FirstRefused, OnIntroduction;
    match op
    case Introduce(offers, decision) => IntroductionOutcome(s, offers, decision);
    case Frame(frame) => CancelKeepsDirs(s.spool, s.entries);
    case Finish(entryId) =>
      var idx := IndexOfEntry(s.entries, entryId);
      if idx < |s.entries| {
        StepKeepsDirs(s.spool, DoCommit(s.entries[idx].handle, s.entries[idx].path));
      }
  }

  lemma CommitKeepsStored(spool: SpoolState, handle: nat, final: FinalPath, other: nat)
    ensures Stored(Commit(spool, handle, final).0, other) == Stored(spool, other)
  {
    hide Commit;
    CommitEntriesOnly(spool, handle, final);
    SameLookup(spool.root, spool.entries, Commit(spool, handle, final).0.entries, other);
  }

  lemma StepStores(s: ReceiveState, op: ReceiveOp)
    requires Coupled(s)
    ensures forall h: nat :: Stored(Next(s, op).spool, h) == Stored(s.spool, h) + TakenByStep(s, op, h)
  {
    hide Stored, OnPayload, OnIntroduction, Commit, FirstRefused, Established, Bound, Sound;
    forall h: nat ensures Stored(Next(s, op).spool, h) == Stored(s.spool, h) + TakenByStep(s, op, h) {
      AppendNothing(Stored(s.spool, h));
      match op
      case Introduce(offers, decision) =>
        IntroductionOutcome(s, offers, decision);
        if Passes(s, offers, decision) {
          AddedStoresNothing(s, OnIntroduction(s, offers, decision).0, offers, FirstRefused(s, offers, 0, 0), h);
        }
      case Frame(frame) => FrameStep(s, frame);
      case Finish(entryId) =>
        var idx := IndexOfEntry(s.entries, entryId);
        if idx < |s.entries| {
          CommitKeepsStored(s.spool, s.entries[idx].handle, s.entries[idx].path, h);
        }
    }
  }

  /** Every step keeps assembler and spool in agreement, except exactly the harmful ones. */
  lemma StepKeepsCouplingIff(s: ReceiveState, op: ReceiveOp)
    requires Coupled(s) && DirsClosed(s.spool.dirs)
    ensures Coupled(Next(s, op)) <==> !Harms(s, op)
    ensures DirsClosed(Next(s, op).spool.dirs)
  {
    hide Coupled, OnPayload, OnIntroduction, FinishEntry, Clashes, DirsClosed, FirstRefused;
    DirsStayClosed(s, op);
    match op
    case Introduce(offers, decision) => IntroductionKeepsCouplingIff(s, offers, decision);
    case Frame(frame) => FrameStep(s, frame);
    case Finish(entryId) => FinishKeepsCouplingIff(s, entryId);
  }

  /** What one step adds to the bytes stored under a handle. */
  function TakenByStep(s: ReceiveState, op: ReceiveOp, handle: nat): Bytes {
    if op.Frame? then TakenNow(s, op.frame, handle) else []
  }

  function TakenByRun(s: ReceiveState, ops: seq<ReceiveOp>, handle: nat): Bytes {
    if ops == [] then []
    else
      var n := |ops| - 1;
      TakenByRun(s, ops[..n], handle) + TakenByStep(RunOps(s, ops[..n]), ops[n], handle)
  }

  ghost predicate NoHarm(s: ReceiveState, ops: seq<ReceiveOp>) {
    ops == [] || (NoHarm(s, ops[..|ops| - 1]) && !Harms(RunOps(s, ops[..|ops| - 1]), ops[|ops| - 1]))
  }

  /** However introductions, payload frames and publishing interleave: while no step does
      harm, assembler and spool agree, and every handle holds exactly the bodies that were
      taken for it, in the order taken. */
  lemma {:induction false} RunStaysCoupled(s: ReceiveState, ops: seq<ReceiveOp>)
    requires Coupled(s) && DirsClosed(s.spool.dirs) && NoHarm(s, ops)
    ensures var t := RunOps(s, ops);
            && Coupled(t) && DirsClosed(t.spool.dirs)
            && (forall h: nat :: Stored(t.spool, h) == Stored(s.spool, h) + TakenByRun(s, ops, h))
    decreases |ops|
  {
    hide Coupled, Stored, Next, Harms, DirsClosed;
    if ops == [] {
      forall h: nat ensures Stored(s.spool, h) == Stored(s.spool, h) + TakenByRun(s, ops, h) {
        AppendNothing(Stored(s.spool, h));
      }
    } else {
      var before, op := ops[..|ops| - 1], ops[|ops| - 1];
      RunStaysCoupled(s, before);
      var t := RunOps(s, before);
      StepKeepsCouplingIff(t, op);
      StepStores(t, op);
      forall h: nat ensures Stored(Next(t, op).spool, h) == Stored(s.spool, h) + TakenByRun(s, ops, h) {
        Assoc(Stored(s.spool, h), TakenByRun(s, before, h), TakenByStep(t, op, h));
      }
    }
  }

  /** What such a run publishes are the bytes it took for that entry, all of them. */
  lemma PublishedIsTaken(s: ReceiveState, ops: seq<ReceiveOp>, entryId: string)
    requires Coupled(s) && DirsClosed(s.spool.dirs) && NoHarm(s, ops)
    requires FinishEntry(RunOps(s, ops), entryId).1.Ok?
    ensures var t := RunOps(s, ops);
            && IndexOfEntry(t.entries, entryId) < |t.entries|
            && var p := t.entries[IndexOfEntry(t.entries, entryId)];
               var (u, r) := FinishEntry(t, entryId);
               var bytes := Stored(s.spool, p.handle) + TakenByRun(s, ops, p.handle);
               && p.path in u.spool.files && u.spool.files[p.path] == bytes
               && |bytes| == p.size == r.value.bytes && r.value.hashOf == bytes
  {
    hide Stored, Bound, Sound, Commit, DirsClosed, Publishable, NoHarm, TakenByRun, Next;
    RunStaysCoupled(s, ops);
    FinishPublishes(RunOps(s, ops), entryId);
  }
}
