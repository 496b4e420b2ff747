/** The budget over whole sessions. The receive session of proto-quickshare/src/receive.rs is
    given one number of bytes for all it stores, and looks at it once per introduction. */
module SessionBudget {
  import opened Prelude
  import opened Payload
  import opened SpoolNames
  import opened Spool
  import opened Receive
  import opened Introductions
  import opened ReceiveRuns
  import opened EndToEnd
  import opened Deliveries

  /** Bytes written to entries, ended or not. */
  function SumStored(entries: seq<SpoolEntry>): nat {
    if entries == [] then 0 else SumStored(entries[..|entries| - 1]) + |entries[|entries| - 1].hashed|
  }

  function SumAllowed(entries: seq<SpoolEntry>): nat {
    if entries == [] then 0 else SumAllowed(entries[..|entries| - 1]) + entries[|entries| - 1].budget
  }

  /** No entry holds more than it is allowed, nor is allowed more than the budget. */
  ghost predicate WithinAllowed(entries: seq<SpoolEntry>, budget: nat) {
    forall i :: 0 <= i < |entries| ==> |entries[i].hashed| == entries[i].written <= entries[i].budget <= budget
  }

  /** The same entries with the same allowances. */
  ghost predicate SameAllowed(a: seq<SpoolEntry>, b: seq<SpoolEntry>) {
    |a| == |b| && forall i :: 0 <= i < |a| ==> a[i].budget == b[i].budget
  }

  lemma {:induction false} SumsOf(entries: seq<SpoolEntry>, budget: nat)
    requires WithinAllowed(entries, budget)
    ensures SumStored(entries) <= SumAllowed(entries)
    decreases |entries|
  {
    if entries == [] {
    } else {
      SumsOf(entries[..|entries| - 1], budget);
    }
  }

  lemma {:induction false} SameSum(a: seq<SpoolEntry>, b: seq<SpoolEntry>)
    requires SameAllowed(a, b)
    ensures SumAllowed(a) == SumAllowed(b)
    decreases |a|
  {
    if a == [] {
    } else {
      SameSum(a[..|a| - 1], b[..|b| - 1]);
    }
  }

  // ---------------------------------------------------------------- every step keeps the allowances

  lemma WriteKeepsAllowed(s: SpoolState, handle: nat, offset: nat, bytes: Bytes, budget: nat)
    requires WithinAllowed(s.entries, budget)
    ensures WithinAllowed(Write(s, handle, offset, bytes).0.entries, budget)
    ensures SameAllowed(s.entries, Write(s, handle, offset, bytes).0.entries)
  {
    hide Find;
  }

  lemma {:induction false} AbortsKeepAllowed(s: SpoolState, entries: seq<Pending>, budget: nat)
    requires WithinAllowed(s.entries, budget)
    ensures WithinAllowed(AbortIncomplete(s, entries).0.entries, budget)
    ensures SameAllowed(s.entries, AbortIncomplete(s, entries).0.entries)
    decreases |entries|
  {
    hide Find;
    if entries == [] {
    } else if entries[0].assembler.complete {
      AbortsKeepAllowed(s, entries[1..], budget);
    } else if Abort(s, entries[0].handle).1.Ok? {
      AbortsKeepAllowed(Abort(s, entries[0].handle).0, entries[1..], budget);
    }
  }

  lemma CommitKeepsAllowed(s: SpoolState, handle: nat, final: FinalPath, budget: nat)
    requires WithinAllowed(s.entries, budget)
    ensures WithinAllowed(Commit(s, handle, final).0.entries, budget)
    ensures SameAllowed(s.entries, Commit(s, handle, final).0.entries)
  {
    hide Commit, Find;
    CommitEntriesOnly(s, handle, final);
  }

  /** The sizes offered from file `idx` on. */
  function SumFrom(offers: seq<FileOffer>, idx: nat): nat
    requires idx <= |offers|
    decreases |offers| - idx
  {
    if idx == |offers| then 0 else offers[idx].size + SumFrom(offers, idx + 1)
  }

  lemma {:induction false} SumFromAll(offers: seq<FileOffer>, idx: nat)
    requires idx <= |offers|
    ensures SumSizes(offers[..idx]) + SumFrom(offers, idx) == SumSizes(offers)
    decreases |offers| - idx
  {
    if idx == |offers| {
      assert offers[..idx] == offers;
    } else {
      assert offers[..idx + 1][..idx] == offers[..idx];
      SumFromAll(offers, idx + 1);
    }
  }

  /** One file more, at most, allowed no more than it declares. */
  lemma OneMoreAllowed(s: ReceiveState, o: FileOffer, idx: nat)
    requires WithinAllowed(s.spool.entries, s.budget)
    ensures var t := EstablishOne(s, o, idx).0;
            && t.budget == s.budget && WithinAllowed(t.spool.entries, s.budget)
            && SumAllowed(t.spool.entries) <= SumAllowed(s.spool.entries) + o.size
            && SumStored(t.spool.entries) == SumStored(s.spool.entries)
  {
    hide EntryId, TempName, ValidOffer, Sanitary, Components;
    var t := EstablishOne(s, o, idx).0;
    if t.spool.entries != s.spool.entries {
      assert t.spool.entries[..|s.spool.entries|] == s.spool.entries;
    }
  }

  lemma {:induction false} EstablishAllowed(s: ReceiveState, offers: seq<FileOffer>, idx: nat)
    requires idx <= |offers| && WithinAllowed(s.spool.entries, s.budget)
    ensures var t := Establish(s, offers, idx).0;
            && t.budget == s.budget && WithinAllowed(t.spool.entries, s.budget)
            && SumAllowed(t.spool.entries) <= SumAllowed(s.spool.entries) + SumFrom(offers, idx)
            && SumStored(t.spool.entries) == SumStored(s.spool.entries)
    decreases |offers| - idx
  {
    hide EstablishOne, WithinAllowed;
    if idx == |offers| {
    } else {
      OneMoreAllowed(s, offers[idx], idx);
      EstablishAllowed(EstablishOne(s, offers[idx], idx).0, offers, idx + 1);
    }
  }

  lemma IntroductionAllowed(s: ReceiveState, offers: seq<FileOffer>, decision: ReceiveDecision)
    requires WithinAllowed(s.spool.entries, s.budget)
    ensures var t := OnIntroduction(s, offers, decision).0;
            && t.budget == s.budget && WithinAllowed(t.spool.entries, s.budget)
            && SumAllowed(t.spool.entries) <=
               SumAllowed(s.spool.entries) + if Passes(s, offers, decision) then SumSizes(offers) else 0
  {
    hide Establish, WithinAllowed, DuplicateIds, AllSanitary;
    EstablishAllowed(s, offers, 0);
    SumFromAll(offers, 0);
    assert offers[..0] == [];
  }

  lemma OtherOpsAllowed(s: ReceiveState, op: ReceiveOp)
    requires WithinAllowed(s.spool.entries, s.budget) && !op.Introduce?
    ensures var t := Next(s, op);
            && t.budget == s.budget && WithinAllowed(t.spool.entries, s.budget)
            && SameAllowed(s.spool.entries, t.spool.entries)
  {
    hide Write, Commit, AbortIncomplete, Check, WithinAllowed;
    assert SameAllowed(s.spool.entries, s.spool.entries);
    match op
    case Frame(frame) =>
      if frame.packetType.Data? && frame.header.Some? {
        var idx := IndexOfPayload(s.entries, frame.header.value.id);
        if idx < |s.entries| && Check(s.entries[idx].assembler, frame).Ok? {
          var c := Check(s.entries[idx].assembler, frame).value;
          WriteKeepsAllowed(s.spool, s.entries[idx].handle, c.offset, c.body, s.budget);
        }
      } else if frame.packetType.Control? {
        AbortsKeepAllowed(s.spool, s.entries, s.budget);
      }
    case Finish(entryId) =>
      var idx := IndexOfEntry(s.entries, entryId);
      if idx < |s.entries| {
        CommitKeepsAllowed(s.spool, s.entries[idx].handle, s.entries[idx].path, s.budget);
      }
  }

  // ---------------------------------------------------------------- over whole runs

  /** What the introductions that passed their checks declared, all together. */
  function Declared(s: ReceiveState, ops: seq<ReceiveOp>): nat {
    if ops == [] then 0
    else
      var before, op := ops[..|ops| - 1], ops[|ops| - 1];
      Declared(s, before)
      + if op.Introduce? && Passes(RunOps(s, before), op.offers, op.decision) then SumSizes(op.offers) else 0
  }

  lemma StepAllowed(s: ReceiveState, op: ReceiveOp)
    requires WithinAllowed(s.spool.entries, s.budget)
    ensures var t := Next(s, op);
            && t.budget == s.budget && WithinAllowed(t.spool.entries, s.budget)
            && SumAllowed(t.spool.entries) <= SumAllowed(s.spool.entries)
               + if op.Introduce? && Passes(s, op.offers, op.decision) then SumSizes(op.offers) else 0
  {
    hide WithinAllowed, Passes, OnIntroduction, OnPayload, FinishEntry;
    match op {
      case Introduce(offers, decision) => IntroductionAllowed(s, offers, decision);
      case _ =>
        OtherOpsAllowed(s, op);
        SameSum(s.spool.entries, Next(s, op).spool.entries);
    }
  }

  /** Over every run, harmful or not: no entry ever holds more than the budget, and all of them
      together no more than was declared in the introductions that passed. */
  lemma {:induction false} StoredIsDeclared(root: string, budget: u64, ops: seq<ReceiveOp>)
    ensures var t := RunOps(FreshState(root, budget), ops);
            && t.budget == budget && WithinAllowed(t.spool.entries, budget)
            && SumStored(t.spool.entries) <= SumAllowed(t.spool.entries) <= Declared(FreshState(root, budget), ops)
    decreases |ops|
  {
    hide Next, WithinAllowed, Passes;
    if ops == [] {
      NothingAllowed(budget);
    } else {
      var before, op := ops[..|ops| - 1], ops[|ops| - 1];
      StoredIsDeclared(root, budget, before);
      StepAllowed(RunOps(FreshState(root, budget), before), op);
      SumsOf(RunOps(FreshState(root, budget), ops).spool.entries, budget);
    }
  }

  lemma NothingAllowed(budget: nat)
    ensures WithinAllowed([], budget)
  {
  }

  /** So the budget is a cap for the session as long as what passed stays within it. */
  lemma CapHolds(root: string, budget: u64, ops: seq<ReceiveOp>)
    requires Declared(FreshState(root, budget), ops) <= budget
    ensures SumStored(RunOps(FreshState(root, budget), ops).spool.entries) <= budget
  {
    hide *;
    StoredIsDeclared(root, budget, ops);
  }

  // ---------------------------------------------------------------- it is no cap for the session

  lemma {:induction false} SumUpdated(entries: seq<SpoolEntry>, i: nat, e: SpoolEntry)
    requires i < |entries|
    ensures SumStored(entries[i := e]) == SumStored(entries) - |entries[i].hashed| + |e.hashed|
    decreases |entries|
  {
    var n := |entries| - 1;
    if i == n {
      assert entries[i := e][..n] == entries[..n];
    } else {
      assert entries[i := e][..n] == entries[..n][i := e];
      SumUpdated(entries[..n], i, e);
    }
  }

  function WholeFrame(id: i64, content: Bytes): TransferFrame
    requires |content| < TWO_64
  {
    DataFrame(id, |content|, 0, true, content)
  }

  /** One file introduced by itself and received whole, in one frame. */
  function IntroducedAndReceived(s: ReceiveState, o: FileOffer, content: Bytes): ReceiveState
    requires |content| < TWO_64
  {
    OnPayload(OnIntroduction(s, [o], Accept).0, WholeFrame(o.payloadId, content)).0
  }

  lemma IntroducedAlone(s: ReceiveState, o: FileOffer)
    requires Coupled(s) && o.size <= s.budget && NameFree(s, 0, 0)
    requires Sanitary(o.parent, o.name) && ValidOffer(o.parent, o.name)
    ensures OnIntroduction(s, [o], Accept) == (AfterOne(s, o, 0), Ok(Accepted)) && Coupled(AfterOne(s, o, 0))
    ensures Stored(AfterOne(s, o, 0).spool, s.spool.nextHandle) == []
  {
    hide Coupled, Sanitary, ValidOffer, AfterOne, FirstRefused, Established, NameFree;
    CoupledSound(s);
    SumOfOne(o);
    OneOutcome(s, o, 0);
    assert Passes(s, [o], Accept);
    EstablishedAlone(s, o);
    IntroductionKeepsCouplingIff(s, [o], Accept);
    FirstEstablished(s, o, 0);
    NewHoldsNothing(AfterOne(s, o, 0), o, NextPending(s, o, 0), s.spool.nextHandle);
  }

  lemma EstablishedAlone(s: ReceiveState, o: FileOffer)
    requires Passes(s, [o], Accept) && EstablishOne(s, o, 0) == (AfterOne(s, o, 0), Ok(()))
    ensures OnIntroduction(s, [o], Accept) == (AfterOne(s, o, 0), Ok(Accepted))
  {
    hide AfterOne, EstablishOne, AllSanitary;
    assert Establish(AfterOne(s, o, 0), [o], 1) == (AfterOne(s, o, 0), Ok(Accepted));
  }

  lemma {:induction false} LastIndex(entries: seq<Pending>, p: Pending)
    requires forall i :: 0 <= i < |entries| ==> entries[i].payloadId != p.payloadId
    ensures IndexOfPayload(entries + [p], p.payloadId) == |entries|
  {
    assert (entries + [p])[|entries|] == p;
    assert forall i :: 0 <= i < |entries| ==> (entries + [p])[i] == entries[i];
  }

  /** The session then stores so much more, and could be given the next. */
  lemma ReceivedAlone(s: ReceiveState, o: FileOffer, content: Bytes)
    requires Coupled(s) && 0 < |content| == o.size <= s.budget && NameFree(s, 0, 0)
    requires Sanitary(o.parent, o.name) && ValidOffer(o.parent, o.name)
    requires forall i :: 0 <= i < |s.entries| ==> s.entries[i].payloadId != o.payloadId
    ensures var (t, u) := (AfterOne(s, o, 0), IntroducedAndReceived(s, o, content));
            && Coupled(u) && u.budget == s.budget && u.nextSeq == s.nextSeq + 1
            && u.spool.nextHandle == s.spool.nextHandle + 1 && u.spool.dirs == s.spool.dirs
            && u.spool.files.Keys == s.spool.files.Keys + {NextTemp(s, 0, 0)}
            && |u.entries| == |s.entries| + 1 && u.entries[|s.entries|].payloadId == o.payloadId
            && (forall i :: 0 <= i < |s.entries| ==> u.entries[i] == s.entries[i])
            && SumStored(u.spool.entries) == SumStored(s.spool.entries) + |content|
  {
    hide Coupled, Sanitary, ValidOffer, NameFree, OnIntroduction, OnData, Stored, NextTemp;
    IntroducedAlone(s, o);
    var t, f := AfterOne(s, o, 0), WholeFrame(o.payloadId, content);
    LastIndex(s.entries, NextPending(s, o, 0));
    assert Check(NextPending(s, o, 0).assembler, f) == Ok(f.chunk.value);
    assert t.spool.entries[..|s.spool.entries|] == s.spool.entries;
    DataFrameStep(t, f);
    TakenShape(t, f);
    TakenSum(t, f);
  }

  lemma TakenSum(t: ReceiveState, frame: TransferFrame)
    requires Coupled(t) && Target(t, frame).Some?
    ensures var u := OnData(t, frame).0;
            && SumStored(u.spool.entries) == SumStored(t.spool.entries) + |frame.chunk.value.body|
            && u.spool.dirs == t.spool.dirs && u.spool.nextHandle == t.spool.nextHandle
            && u.nextSeq == t.nextSeq && u.budget == t.budget
  {
    hide Check, Sound, Find;
    var p := t.entries[IndexOfPayload(t.entries, frame.header.value.id)];
    assert Bound(t.spool, p);
    SpoolNeverRefuses(t.spool, p, frame);
    var c, i := Check(p.assembler, frame).value, Find(t.spool.root, t.spool.entries, p.handle);
    var e := t.spool.entries[i];
    SumUpdated(t.spool.entries, i, e.(hashed := e.hashed + c.body, written := e.written + |c.body|));
  }

  /** After the first of them. */
  ghost predicate OneStored(t: ReceiveState, size: nat) {
    && Coupled(t) && t.budget == size && t.nextSeq == 2 && t.spool.nextHandle == 2 && t.spool.dirs == {}
    && t.spool.files.Keys == {[TempName(1, EntryId(1, 0))]}
    && |t.entries| == 1 && t.entries[0].payloadId == 1 && SumStored(t.spool.entries) == size
  }

  lemma FirstStored(root: string, a: Bytes)
    requires CleanRoot(root) && 0 < |a| < TWO_64
    ensures var (s, x) := (FreshState(root, |a|), FileOffer("a", |a|, None, 1));
            OnIntroduction(s, [x], Accept).1 == Ok(Accepted) && OneStored(IntroducedAndReceived(s, x, a), |a|)
  {
    LetterIsFine("a");
    var s, x := FreshState(root, |a|), FileOffer("a", |a|, None, 1);
    assert NameFree(s, 0, 0) && Coupled(s) && SumStored(s.spool.entries) == 0;
    hide CleanRoot, Coupled, Sanitary, ValidOffer, IntroducedAndReceived, TempName, EntryId, OnIntroduction, SumStored;
    IntroducedAlone(s, x);
    ReceivedAlone(s, x, a);
  }

  lemma SecondFree(t: ReceiveState, size: nat)
    requires OneStored(t, size)
    ensures NameFree(t, 0, 0)
  {
    hide Coupled, TempName, EntryId, SumStored;
    var (e, f) := (SpoolEntry(1, EntryId(1, 0), 0, [], 0, false), SpoolEntry(2, EntryId(2, 0), 0, [], 0, false));
    assert NextTemp(t, 0, 0) == f.TempFile();
    if e.TempFile() == f.TempFile() {
      TempNamesDistinct(e, f);
    }
  }

  /** Two introductions of one file each, both as large as the budget, are both accepted and
      received whole: the session stores twice the budget. */
  lemma BudgetIsPerIntroduction(root: string, a: Bytes, b: Bytes)
    requires CleanRoot(root) && 0 < |a| == |b| < TWO_64
    ensures var s := FreshState(root, |a|);
            var t := IntroducedAndReceived(s, FileOffer("a", |a|, None, 1), a);
            var u := IntroducedAndReceived(t, FileOffer("b", |b|, None, 2), b);
            && OnIntroduction(s, [FileOffer("a", |a|, None, 1)], Accept).1 == Ok(Accepted)
            && OnIntroduction(t, [FileOffer("b", |b|, None, 2)], Accept).1 == Ok(Accepted)
            && SumStored(u.spool.entries) == 2 * u.budget
  {
    FirstStored(root, a);
    hide CleanRoot, Sanitary, ValidOffer, IntroducedAndReceived, OnIntroduction, SumStored, Coupled, NameFree;
    LetterIsFine("b");
    var t := IntroducedAndReceived(FreshState(root, |a|), FileOffer("a", |a|, None, 1), a);
    SecondFree(t, |a|);
    IntroducedAlone(t, FileOffer("b", |b|, None, 2));
    ReceivedAlone(t, FileOffer("b", |b|, None, 2), b);
  }

  // ---------------------------------------------------------------- when it is one

  /** What can still be written to entry `i`: nothing if frames of its id go to an earlier one. */
  function RoomAt(entries: seq<Pending>, i: nat): nat
    requires i < |entries|
  {
    var p := entries[i];
    if IndexOfPayload(entries, p.payloadId) == i then SatSub(p.size, p.assembler.written) else 0
  }

  function Room(entries: seq<Pending>, n: nat): nat
    requires n <= |entries|
  {
    if n == 0 then 0 else Room(entries, n - 1) + RoomAt(entries, n - 1)
  }

  /** What is stored and what can still come. */
  function Reach(s: ReceiveState): nat {
    SumStored(s.spool.entries) + Room(s.entries, |s.entries|)
  }

  lemma {:induction false} RoomChanged(a: seq<Pending>, b: seq<Pending>, i: nat, n: nat)
    requires i < |a| == |b| && n <= |a| && RoomAt(b, i) <= RoomAt(a, i)
    requires forall k :: 0 <= k < |a| && k != i ==> RoomAt(b, k) == RoomAt(a, k)
    ensures Room(b, n) == Room(a, n) - if i < n then RoomAt(a, i) - RoomAt(b, i) else 0
  {
    hide RoomAt;
    if n == 0 {
    } else {
      RoomChanged(a, b, i, n - 1);
    }
  }

  /** A frame that is taken moves as much from what can come to what is stored. */
  lemma TakenReach(t: ReceiveState, frame: TransferFrame)
    requires Coupled(t) && Target(t, frame).Some?
    ensures var (i, u) := (IndexOfPayload(t.entries, frame.header.value.id), OnData(t, frame).0);
            && i < |t.entries| == |u.entries| && Reach(u) == Reach(t)
            && RoomAt(u.entries, i) == RoomAt(t.entries, i) - |frame.chunk.value.body|
            && (forall k :: 0 <= k < |t.entries| && k != i ==> RoomAt(u.entries, k) == RoomAt(t.entries, k))
  {
    TargetExists(t, frame);
    hide Coupled, Target, OnData, Room, SumStored;
    TakenShape(t, frame);
    TakenSum(t, frame);
    var i, u := IndexOfPayload(t.entries, frame.header.value.id), OnData(t, frame).0;
    TakenFits(t, frame);
    forall k | 0 <= k < |t.entries|
      ensures k != i ==> RoomAt(u.entries, k) == RoomAt(t.entries, k)
      ensures IndexOfPayload(u.entries, u.entries[k].payloadId) == IndexOfPayload(t.entries, t.entries[k].payloadId)
    {
      SameIndex(t.entries, u.entries, t.entries[k].payloadId, "");
    }
    assert RoomAt(u.entries, i) == RoomAt(t.entries, i) - |frame.chunk.value.body|;
    RoomChanged(t.entries, u.entries, i, |t.entries|);
  }

  lemma TakenFits(t: ReceiveState, frame: TransferFrame)
    requires Coupled(t) && Target(t, frame).Some?
    ensures var p := t.entries[IndexOfPayload(t.entries, frame.header.value.id)];
            && Check(p.assembler, frame).Ok? && frame.chunk == Some(Check(p.assembler, frame).value)
            && p.payloadId == frame.header.value.id
            && p.assembler.written + |frame.chunk.value.body| <= p.size
  {
    BoundHeader(t, IndexOfPayload(t.entries, frame.header.value.id));
    hide Coupled;
  }

  lemma {:induction false} SameStored(a: seq<SpoolEntry>, b: seq<SpoolEntry>)
    requires |a| == |b| && forall i :: 0 <= i < |a| ==> a[i].hashed == b[i].hashed
    ensures SumStored(a) == SumStored(b)
    decreases |a|
  {
    if a == [] {
    } else {
      SameStored(a[..|a| - 1], b[..|b| - 1]);
    }
  }

  lemma {:induction false} AbortsKeepStored(s: SpoolState, entries: seq<Pending>)
    ensures var t := AbortIncomplete(s, entries).0;
            |t.entries| == |s.entries|
            && forall i :: 0 <= i < |s.entries| ==> t.entries[i].hashed == s.entries[i].hashed
    decreases |entries|
  {
    hide Find;
    if entries == [] {
    } else if entries[0].assembler.complete {
      AbortsKeepStored(s, entries[1..]);
    } else if Abort(s, entries[0].handle).1.Ok? {
      AbortsKeepStored(Abort(s, entries[0].handle).0, entries[1..]);
    }
  }

  lemma FrameReach(s: ReceiveState, frame: TransferFrame)
    requires Coupled(s)
    ensures Reach(OnPayload(s, frame).0) <= Reach(s) && Coupled(OnPayload(s, frame).0)
    ensures OnPayload(s, frame).0.budget == s.budget
  {
    hide Coupled, OnData, Target, AbortIncomplete;
    FrameStep(s, frame);
    match frame.packetType
    case Data =>
      DataFrameStep(s, frame);
      DataKeepsDirs(s, frame);
      if Target(s, frame).Some? {
        TakenReach(s, frame);
      }
    case Control =>
      AbortsKeepStored(s.spool, s.entries);
      SameStored(s.spool.entries, CancelAll(s).0.spool.entries);
    case PayloadAck =>
  }

  lemma {:induction false} FramesReach(s: ReceiveState, frames: seq<TransferFrame>)
    requires Coupled(s)
    ensures Coupled(RunFrames(s, frames)) && Reach(RunFrames(s, frames)) <= Reach(s)
    decreases |frames|
  {
    hide Coupled, Reach, OnPayload;
    if frames == [] {
    } else {
      FramesReach(s, frames[..|frames| - 1]);
      FrameReach(RunFrames(s, frames[..|frames| - 1]), frames[|frames| - 1]);
    }
  }

  /** The rest of an entry's file in one frame; which bytes it has does not matter. */
  function RestFrame(p: Pending): TransferFrame
    requires p.assembler.written <= p.assembler.header.totalSize
  {
    var h := p.assembler.header;
    DataFrame(h.id, h.totalSize, p.assembler.written, true, seq(h.totalSize - p.assembler.written, _ => 0 as byte))
  }

  /** Filling entry `i` leaves no room in it. */
  lemma EntryFilled(t: ReceiveState, i: nat) returns (frames: seq<TransferFrame>)
    requires Coupled(t) && i < |t.entries|
    ensures |frames| <= 1
    ensures var u := RunFrames(t, frames);
            && Coupled(u) && Reach(u) == Reach(t) && |u.entries| == |t.entries| && RoomAt(u.entries, i) == 0
            && forall k :: 0 <= k < |t.entries| && k != i ==> RoomAt(u.entries, k) == RoomAt(t.entries, k)
  {
    frames := [];
    if RoomAt(t.entries, i) > 0 {
      var p := t.entries[i];
      RestPasses(t, i);
      hide Coupled, Check, OnData, Reach, RoomAt;
      frames := [RestFrame(p)];
      DataFrameStep(t, RestFrame(p));
      TakenReach(t, RestFrame(p));
      assert frames[..0] == [];
    }
  }

  lemma RestPasses(t: ReceiveState, i: nat)
    requires Coupled(t) && i < |t.entries| && RoomAt(t.entries, i) > 0
    ensures var p := t.entries[i];
            && p.assembler.written <= p.assembler.header.totalSize && p.payloadId == RestFrame(p).header.value.id
            && IndexOfPayload(t.entries, p.payloadId) == i && Target(t, RestFrame(p)).Some?
            && |RestFrame(p).chunk.value.body| == RoomAt(t.entries, i)
  {
    BoundHeader(t, i);
    assert Bound(t.spool, t.entries[i]);
    hide Coupled, Bound;
    assert Check(t.entries[i].assembler, RestFrame(t.entries[i])).Ok?;
  }

  lemma {:induction false} RunFramesAppend(s: ReceiveState, a: seq<TransferFrame>, b: seq<TransferFrame>)
    ensures RunFrames(s, a + b) == RunFrames(RunFrames(s, a), b)
    decreases |b|
  {
    hide OnPayload;
    if b == [] {
      assert a + b == a;
    } else {
      RunFramesAppend(s, a, b[..|b| - 1]);
      assert (a + b)[..|a + b| - 1] == a + b[..|b| - 1];
    }
  }

  lemma {:induction false} NoRoom(entries: seq<Pending>, n: nat)
    requires n <= |entries| && forall k :: 0 <= k < n ==> RoomAt(entries, k) == 0
    ensures Room(entries, n) == 0
  {
    hide RoomAt;
    if n == 0 {
    } else {
      NoRoom(entries, n - 1);
    }
  }

  /** All entries up to the `n`-th filled. */
  lemma {:induction false} AllFilled(s: ReceiveState, n: nat) returns (frames: seq<TransferFrame>)
    requires Coupled(s) && n <= |s.entries|
    ensures var t := RunFrames(s, frames);
            && Coupled(t) && Reach(t) == Reach(s) && |t.entries| == |s.entries|
            && forall k :: 0 <= k < n ==> RoomAt(t.entries, k) == 0
  {
    hide Coupled, Reach, RoomAt;
    if n == 0 {
      frames := [];
    } else {
      var before := AllFilled(s, n - 1);
      var last := EntryFilled(RunFrames(s, before), n - 1);
      frames := before + last;
      RunFramesAppend(s, before, last);
    }
  }

  /** Payload frames can bring a session past its budget exactly when what it has stored and
      what its entries still have room for, together, are more. */
  lemma CapCanBeExceededIff(s: ReceiveState)
    requires Coupled(s)
    ensures (exists frames: seq<TransferFrame> :: SumStored(RunFrames(s, frames).spool.entries) > s.budget)
       <==> Reach(s) > s.budget
  {
    hide Coupled, RunFrames, RoomAt;
    forall frames: seq<TransferFrame>
      ensures SumStored(RunFrames(s, frames).spool.entries) <= Reach(s)
    {
      FramesReach(s, frames);
    }
    var frames := AllFilled(s, |s.entries|);
    NoRoom(RunFrames(s, frames).entries, |s.entries|);
    assert SumStored(RunFrames(s, frames).spool.entries) == Reach(s);
  }

  // ---------------------------------------------------------------- payload ids that repeat

  /** Nothing is published and nothing cancelled along the run. */
  ghost predicate OnlyReceives(ops: seq<ReceiveOp>) {
    forall i :: 0 <= i < |ops| ==> !ops[i].Finish? && (ops[i].Frame? ==> !ops[i].frame.packetType.Control?)
  }

  /** Entry `j` is as it was, behind an earlier one of the same payload id. */
  ghost predicate InTheShadow(s: ReceiveState, i: nat, j: nat, p: Pending, held: Bytes) {
    && Coupled(s) && DirsClosed(s.spool.dirs) && i < j < |s.entries|
    && s.entries[i].payloadId == p.payloadId && s.entries[j] == p && Stored(s.spool, p.handle) == held
  }

  lemma FrameInShadow(s: ReceiveState, i: nat, j: nat, p: Pending, held: Bytes, frame: TransferFrame)
    requires InTheShadow(s, i, j, p, held) && !frame.packetType.Control?
    ensures InTheShadow(OnPayload(s, frame).0, i, j, p, held)
  {
    hide Coupled, Stored, OnData, Target, DirsClosed;
    if frame.packetType.Data? {
      DataFrameStep(s, frame);
      DirsStayClosed(s, Frame(frame));
      if Target(s, frame).Some? {
        TargetExists(s, frame);
        TakenShape(s, frame);
        NotTheLater(s, frame, i, j);
      }
    }
  }

  lemma NotTheLater(s: ReceiveState, frame: TransferFrame, i: nat, j: nat)
    requires i < j < |s.entries| && s.entries[i].payloadId == s.entries[j].payloadId && frame.header.Some?
    requires Target(s, frame).Some?
    ensures IndexOfPayload(s.entries, frame.header.value.id) != j
    ensures Target(s, frame) == Some(s.entries[IndexOfPayload(s.entries, frame.header.value.id)].handle)
  {
  }

  lemma IntroductionInShadow(s: ReceiveState, i: nat, j: nat, p: Pending, held: Bytes, op: ReceiveOp)
    requires InTheShadow(s, i, j, p, held) && op.Introduce? && !Harms(s, op)
    ensures InTheShadow(Next(s, op), i, j, p, held)
  {
    hide Coupled, Stored, OnIntroduction, Established, FirstRefused, DirsClosed, Harms;
    StepKeepsCouplingIff(s, op);
    CoupledSound(s);
    IntroductionOutcome(s, op.offers, op.decision);
    if Passes(s, op.offers, op.decision) {
      AddedStoresNothing(s, Next(s, op), op.offers, FirstRefused(s, op.offers, 0, 0), p.handle);
    }
  }

  /** While the first entry of a payload id stands, a second one - from a later introduction,
      which only looks for repetitions within itself - never gets a byte, whatever arrives. */
  lemma {:induction false} ShadowedGetsNothing(s: ReceiveState, ops: seq<ReceiveOp>, i: nat, j: nat)
    requires Coupled(s) && DirsClosed(s.spool.dirs) && NoHarm(s, ops) && OnlyReceives(ops)
    requires i < j < |s.entries| && s.entries[i].payloadId == s.entries[j].payloadId
    ensures InTheShadow(RunOps(s, ops), i, j, s.entries[j], Stored(s.spool, s.entries[j].handle))
    decreases |ops|
  {
    hide Next, Harms, Coupled, DirsClosed, Stored;
    if ops == [] {
    } else {
      var before, op := ops[..|ops| - 1], ops[|ops| - 1];
      assert OnlyReceives(before) && (op.Introduce? || op.Frame?);
      ShadowedGetsNothing(s, before, i, j);
      ShadowStep(RunOps(s, before), i, j, s.entries[j], Stored(s.spool, s.entries[j].handle), op);
    }
  }

  lemma ShadowStep(s: ReceiveState, i: nat, j: nat, p: Pending, held: Bytes, op: ReceiveOp)
    requires InTheShadow(s, i, j, p, held) && !Harms(s, op)
    requires !op.Finish? && (op.Frame? ==> !op.frame.packetType.Control?)
    ensures InTheShadow(Next(s, op), i, j, p, held)
  {
    hide InTheShadow, OnPayload, OnIntroduction, Harms;
    match op
    case Introduce(_, _) => IntroductionInShadow(s, i, j, p, held, op);
    case Frame(frame) => FrameInShadow(s, i, j, p, held, frame);
  }
}
