/** Runs that reach the states in which the receive session breaks its promises: introductions
    whose file names collide with something, two files in one folder, and a root that holds the
    text an entry is looked up by. */
module Collisions {
  import opened Prelude
  import opened Payload
  import opened SpoolNames
  import opened Spool
  import opened Receive
  import opened Introductions
  import opened ReceiveRuns

  function OneByte(at: Option<seq<string>>, name: string, id: i64): FileOffer {
    FileOffer(name, 1, at, id)
  }

  /** The whole of a one-byte file in one frame. */
  function OneByteFrame(id: i64, x: byte): TransferFrame {
    DataFrame(id, 1, 0, true, [x])
  }

  function Introduced(root: string, budget: u64, at: Option<seq<string>>, first: string, second: string): ReceiveState {
    OnIntroduction(FreshState(root, budget), [OneByte(at, first, 1), OneByte(at, second, 2)], Accept).0
  }

  /** A session that was introduced to two files of one byte and has received both. */
  function Received(root: string, budget: u64, at: Option<seq<string>>, first: string, second: string, x: byte,
      y: byte): ReceiveState
  {
    OnPayload(OnPayload(Introduced(root, budget, at, first, second), OneByteFrame(1, x)).0, OneByteFrame(2, y)).0
  }

  function PendingOne(seqNo: nat, idx: nat, id: i64, path: FinalPath, handle: nat, done: bool): Pending {
    Pending(EntryId(seqNo, idx), id, 1, path, handle,
            Assembler(PayloadHeader(id, FileKind, 1, None, None), if done then 1 else 0, done))
  }

  /** Two entries, with handles 1 and 2; what was received is in their temporary files. */
  ghost predicate Holds(s: ReceiveState, budget: u64, at: Option<seq<string>>, first: string, second: string,
      done1: bool, done2: bool)
  {
    && Coupled(s) && s.budget == budget && s.nextSeq == 3 && s.published == []
    && s.entries == [PendingOne(1, 0, 1, Components(at, first), 1, done1),
                     PendingOne(2, 1, 2, Components(at, second), 2, done2)]
    && s.spool.nextHandle == 3 && s.spool.dirs == {} && s.spool.published == [] && |s.spool.entries| == 2
    && s.spool.entries[0].handle == 1 && s.spool.entries[0].entryId == EntryId(1, 0)
    && s.spool.entries[1].handle == 2 && s.spool.entries[1].entryId == EntryId(2, 1)
    && s.spool.files.Keys == {[TempName(1, EntryId(1, 0))], [TempName(2, EntryId(2, 1))]}
  }

  lemma TwoSetUp(s: ReceiveState, a: FileOffer, b: FileOffer)
    requires Sanitary(a.parent, a.name) && ValidOffer(a.parent, a.name) && Sanitary(b.parent, b.name)
             && ValidOffer(b.parent, b.name)
    requires NameFree(s, 0, 0) && NameFree(s, 0, 1)
    ensures Establish(s, [a, b], 0) == (AfterOne(AfterOne(s, a, 0), b, 1), Ok(Accepted))
  {
    OneOutcome(s, a, 0);
    NameFreeAfter(s, a, 0, 0);
    OneOutcome(AfterOne(s, a, 0), b, 1);
    hide Sanitary, ValidOffer, NameFree, AfterOne, EstablishOne;
    var t := AfterOne(s, a, 0);
    assert Establish(AfterOne(t, b, 1), [a, b], 2) == (AfterOne(t, b, 1), Ok(Accepted));
    assert Establish(t, [a, b], 1) == (AfterOne(t, b, 1), Ok(Accepted));
  }

  lemma TwoPass(s: ReceiveState, a: FileOffer, b: FileOffer)
    requires Sanitary(a.parent, a.name) && Sanitary(b.parent, b.name) && a.payloadId != b.payloadId
    requires a.size + b.size <= s.budget
    ensures Passes(s, [a, b], Accept) && SumSizes([a, b]) < TWO_64
    ensures OnIntroduction(s, [a, b], Accept) == Establish(s, [a, b], 0)
  {
    hide Sanitary, Establish;
    SumOfTwo(a, b);
  }

  lemma IntroducedIs(root: string, budget: u64, at: Option<seq<string>>, first: string, second: string)
    requires budget >= 2
    requires Sanitary(at, first) && ValidOffer(at, first) && Sanitary(at, second) && ValidOffer(at, second)
    ensures Introduced(root, budget, at, first, second) ==
            AfterOne(AfterOne(FreshState(root, budget), OneByte(at, first, 1), 0), OneByte(at, second, 2), 1)
    ensures Passes(FreshState(root, budget), [OneByte(at, first, 1), OneByte(at, second, 2)], Accept)
  {
    hide Sanitary, ValidOffer, NextTemp, AfterOne, Establish, OnIntroduction;
    var s := FreshState(root, budget);
    TwoPass(s, OneByte(at, first, 1), OneByte(at, second, 2));
    assert NameFree(s, 0, 0) && NameFree(s, 0, 1);
    TwoSetUp(s, OneByte(at, first, 1), OneByte(at, second, 2));
  }

  lemma IntroducedCoupled(root: string, budget: u64, at: Option<seq<string>>, first: string, second: string)
    requires CleanRoot(root) && budget >= 2
    requires Sanitary(at, first) && ValidOffer(at, first) && Sanitary(at, second) && ValidOffer(at, second)
    ensures Coupled(Introduced(root, budget, at, first, second))
    ensures forall h: nat :: Stored(Introduced(root, budget, at, first, second).spool, h) == []
  {
    hide CleanRoot, Sanitary, ValidOffer, OnIntroduction, FirstRefused, Bound, Established;
    var s, offers := FreshState(root, budget), [OneByte(at, first, 1), OneByte(at, second, 2)];
    TwoPass(s, offers[0], offers[1]);
    IntroductionKeepsCouplingIff(s, offers, Accept);
    IntroductionOutcome(s, offers, Accept);
    forall h: nat ensures Stored(Introduced(root, budget, at, first, second).spool, h) == [] {
      AddedStoresNothing(s, OnIntroduction(s, offers, Accept).0, offers, FirstRefused(s, offers, 0, 0), h);
    }
  }

  lemma IntroducedHolds(root: string, budget: u64, at: Option<seq<string>>, first: string, second: string)
    requires CleanRoot(root) && budget >= 2
    requires Sanitary(at, first) && ValidOffer(at, first) && Sanitary(at, second) && ValidOffer(at, second)
    ensures Holds(Introduced(root, budget, at, first, second), budget, at, first, second, false, false)
  {
    IntroducedCoupled(root, budget, at, first, second);
    IntroducedIs(root, budget, at, first, second);
    hide CleanRoot, Coupled, EntryId, TempName, Sanitary, ValidOffer, Introduced;
    var t := AfterOne(AfterOne(FreshState(root, budget), OneByte(at, first, 1), 0), OneByte(at, second, 2), 1);
    assert t.entries == [PendingOne(1, 0, 1, Components(at, first), 1, false),
                         PendingOne(2, 1, 2, Components(at, second), 2, false)];
    assert t.spool.files.Keys == {[TempName(1, EntryId(1, 0))], [TempName(2, EntryId(2, 1))]};
  }

  // ---------------------------------------------------------------- the two frames

  /** The whole of a one-byte file arrives. */
  lemma OneByteTaken(s: ReceiveState, idx: nat, id: i64, x: byte)
    requires Coupled(s) && idx < |s.entries| && IndexOfPayload(s.entries, id) == idx
    requires s.entries[idx].assembler == Assembler(PayloadHeader(id, FileKind, 1, None, None), 0, false)
    ensures var t := OnPayload(s, OneByteFrame(id, x)).0;
            var p := s.entries[idx];
            && Coupled(t)
            && t == s.(spool := t.spool,
                       entries := s.entries[idx := p.(assembler := p.assembler.(written := 1, complete := true))])
            && t.spool == s.spool.(files := t.spool.files, entries := t.spool.entries)
            && t.spool.files.Keys == s.spool.files.Keys && |t.spool.entries| == |s.spool.entries|
            && (forall i :: 0 <= i < |s.spool.entries| ==>
                  t.spool.entries[i].handle == s.spool.entries[i].handle
                  && t.spool.entries[i].entryId == s.spool.entries[i].entryId)
            && Stored(t.spool, p.handle) == Stored(s.spool, p.handle) + [x]
            && (forall h: nat :: h != p.handle ==> Stored(t.spool, h) == Stored(s.spool, h))
  {
    var f := OneByteFrame(id, x);
    assert Check(s.entries[idx].assembler, f) == Ok(f.chunk.value);
    DataFrameStep(s, f);
    SpoolNeverRefuses(s.spool, s.entries[idx], f);
    hide Stored, Coupled, Find, IndexOfPayload;
    WriteShape(s.spool, s.entries[idx].handle, 0, [x]);
  }

  lemma WriteShape(s: SpoolState, handle: nat, offset: nat, bytes: Bytes)
    requires Write(s, handle, offset, bytes).1.Ok?
    ensures var t := Write(s, handle, offset, bytes).0;
            && t == s.(files := t.files, entries := t.entries)
            && t.files.Keys == s.files.Keys && |t.entries| == |s.entries|
            && forall i :: 0 <= i < |s.entries| ==>
                 t.entries[i].handle == s.entries[i].handle && t.entries[i].entryId == s.entries[i].entryId
  {
    hide Find;
  }

  lemma ReceivedHolds(root: string, budget: u64, at: Option<seq<string>>, first: string, second: string, x: byte,
      y: byte)
    requires CleanRoot(root) && budget >= 2
    requires Sanitary(at, first) && ValidOffer(at, first) && Sanitary(at, second) && ValidOffer(at, second)
    ensures var t := Received(root, budget, at, first, second, x, y);
            Holds(t, budget, at, first, second, true, true) && Stored(t.spool, 1) == [x] && Stored(t.spool, 2) == [y]
  {
    IntroducedHolds(root, budget, at, first, second);
    IntroducedCoupled(root, budget, at, first, second);
    hide CleanRoot, Coupled, EntryId, TempName, Sanitary, ValidOffer, Introduced, OnPayload, Stored;
    var s := Introduced(root, budget, at, first, second);
    assert IndexOfPayload(s.entries, 1) == 0;
    OneByteTaken(s, 0, 1, x);
    var t := OnPayload(s, OneByteFrame(1, x)).0;
    SecondIndex(t.entries);
    OneByteTaken(t, 1, 2, y);
    assert [] + [x] == [x] && [] + [y] == [y];
  }

  lemma SecondIndex(entries: seq<Pending>)
    requires |entries| == 2 && entries[0].payloadId == 1 && entries[1].payloadId == 2
    ensures IndexOfPayload(entries, 2) == 1
  {
    assert entries[1..][0] == entries[1];
  }

  // ---------------------------------------------------------------- publishing the first

  function Temp(seqNo: nat, idx: nat, handle: nat): string {
    TempName(handle, EntryId(seqNo, idx))
  }

  /** Where the two entries are, and what they hold. */
  lemma EntriesOf(t: ReceiveState, budget: u64, at: Option<seq<string>>, first: string, second: string, x: byte,
      y: byte)
    requires Holds(t, budget, at, first, second, true, true) && Stored(t.spool, 1) == [x] && Stored(t.spool, 2) == [y]
    ensures var e := t.spool.entries;
            && Find(t.spool.root, e, 1) == 0 && Find(t.spool.root, e, 2) == 1
            && !e[0].terminated && !e[1].terminated && e[0].hashed == [x] && e[1].hashed == [y]
            && e[0].TempFile() == [Temp(1, 0, 1)] && e[1].TempFile() == [Temp(2, 1, 2)]
            && [Temp(1, 0, 1)] in t.spool.files && [Temp(2, 1, 2)] in t.spool.files
            && t.spool.files[[Temp(1, 0, 1)]] == [x] && t.spool.files[[Temp(2, 1, 2)]] == [y]
            && e[0].written == 1 && e[1].written == 1 && Sound(t.spool)
  {
    hide EntryId, TempName, CleanRoot;
    FindInCleanRoot(t.spool.root, t.spool.entries, 3, 1);
    FindInCleanRoot(t.spool.root, t.spool.entries, 3, 2);
    assert Bound(t.spool, t.entries[0]) && Bound(t.spool, t.entries[1]);
  }

  /** A name in the root, where no directory was made, can always be published. */
  lemma RootPublishes(s: SpoolState, handle: nat, name: string)
    requires s.dirs == {} && IsLive(s, handle)
    requires var e := s.entries[Find(s.root, s.entries, handle)]; e.TempFile() in s.files
    ensures var i := Find(s.root, s.entries, handle);
            && Publishable(s, [name])
            && Commit(s, handle, [name]) ==
               (Committed(s, i, [name], {}), Ok(PublishReceipt([name], s.entries[i].written, s.entries[i].hashed)))
  {
    hide Find;
    assert [name][..1] == [name];
  }

  lemma FirstFinished(t: ReceiveState, budget: u64, first: string, second: string, x: byte, y: byte)
    requires Holds(t, budget, None, first, second, true, true) && Stored(t.spool, 1) == [x] && Stored(t.spool, 2) == [y]
    ensures IsLive(t.spool, 1) && Publishable(t.spool, [first]) && t.spool.entries[0].TempFile() in t.spool.files
    ensures IndexOfEntry(t.entries, EntryId(1, 0)) == 0
    ensures var view := PublishView(EntryId(1, 0), 1, [first], 1, [x]);
            FinishEntry(t, EntryId(1, 0)) ==
            (t.(spool := Committed(t.spool, 0, [first], {}), entries := [PendingOne(2, 1, 2, [second], 2, true)],
                published := [view]), Ok(view))
  {
    EntriesOf(t, budget, None, first, second, x, y);
    assert Components(None, first) == [first] && Components(None, second) == [second];
    RootPublishes(t.spool, 1, first);
    hide EntryId, TempName, Coupled, Stored, Find, Commit, Publishable, Committed;
    assert t.entries[..0] + t.entries[1..] == [PendingOne(2, 1, 2, [second], 2, true)];
    assert [] + [PublishView(EntryId(1, 0), 1, [first], 1, [x])] == [PublishView(EntryId(1, 0), 1, [first], 1, [x])];
  }

  /** Two files, the first named like the temporary file of the second: publishing the first
      replaces what the second has stored, and publishing the second then puts the bytes of
      the first under its name, with a hash that belongs to others. */
  lemma ClashIsReached(root: string, budget: u64, second: string, x: byte, y: byte)
    requires CleanRoot(root) && budget >= 2 && x != y
    requires Sanitary(None, second) && ValidOffer(None, second)
    ensures Sanitary(None, Temp(2, 1, 2)) && ValidOffer(None, Temp(2, 1, 2))
    ensures var t := Received(root, budget, None, Temp(2, 1, 2), second, x, y);
            var (u, r) := FinishEntry(t, EntryId(1, 0));
            var (v, q) := FinishEntry(u, EntryId(2, 1));
            && Coupled(t) && Clashes(t, EntryId(1, 0)) && r.Ok? && !Coupled(u)
            && q.Ok? && q.value.relative == [second] && q.value.hashOf == [y]
            && [second] in v.spool.files && v.spool.files[[second]] == [x]
  {
    TempNameFine(2, 1, 2);
    var first := Temp(2, 1, 2);
    ReceivedHolds(root, budget, None, first, second, x, y);
    var t := Received(root, budget, None, first, second, x, y);
    EntriesOf(t, budget, None, first, second, x, y);
    FirstFinished(t, budget, first, second, x, y);
    hide EntryId, TempName, CleanRoot, Sanitary, ValidOffer, Received, Stored, Find, Commit, Bound, FinishEntry;
    assert t.spool.entries[1].TempFile() == [first];
    assert Clashes(t, EntryId(1, 0));
    FinishKeepsCouplingIff(t, EntryId(1, 0));
    SecondFinished(t, FinishEntry(t, EntryId(1, 0)).0, first, second, x, y);
  }

  lemma SecondFinished(t: ReceiveState, u: ReceiveState, first: string, second: string, x: byte, y: byte)
    requires |t.spool.entries| == 2 && t.spool.dirs == {} && first == Temp(2, 1, 2)
    requires var e := t.spool.entries;
             && e[0].TempFile() in t.spool.files && t.spool.files[e[0].TempFile()] == [x]
             && e[1].TempFile() == [first] && !e[1].terminated && e[1].hashed == [y]
             && Find(t.spool.root, e, 2) == 1
    requires u.spool == Committed(t.spool, 0, [first], {}) && u.entries == [PendingOne(2, 1, 2, [second], 2, true)]
    ensures var (v, q) := FinishEntry(u, EntryId(2, 1));
            && q.Ok? && q.value.relative == [second] && q.value.hashOf == [y]
            && [second] in v.spool.files && v.spool.files[[second]] == [x]
  {
    hide EntryId, TempName, Find, Commit;
    SameLookup(t.spool.root, t.spool.entries, u.spool.entries, 2);
    assert u.spool.files[[first]] == [x];
    RootPublishes(u.spool, 2, second);
  }

  // ---------------------------------------------------------------- temporary names are sane names

  predicate Ordinary(s: string) {
    forall i :: 0 <= i < |s| ==> s[i] >= ' ' && s[i] !in ['/', '\\', ':', '\U{007F}']
  }

  lemma OrdinaryAppend(a: string, b: string)
    requires Ordinary(a) && Ordinary(b)
    ensures Ordinary(a + b)
  {
  }

  lemma OrdinaryName(name: string)
    requires Ordinary(name) && 2 < |name| <= 255 && name[0] == '.'
    ensures Sanitary(None, name) && ValidOffer(None, name)
  {
    assert Components(None, name) == [name];
    assert UpperAscii(Stem(name)) == "";
    assert "" !in RESERVED;
  }

  /** The temporary name of an entry with small numbers is one the path rules accept. */
  lemma TempNameFine(seqNo: nat, idx: nat, handle: nat)
    requires seqNo < 10 && idx < 10 && handle < 10
    ensures Sanitary(None, Temp(seqNo, idx, handle)) && ValidOffer(None, Temp(seqNo, idx, handle))
  {
    var d, e, f := Decimal(handle), Decimal(seqNo), Decimal(idx);
    assert |d| == |e| == |f| == 1;
    var id := EntryId(seqNo, idx);
    hide Decimal, Sanitary, ValidOffer;
    assert Ordinary(DOT_TMP) && Ordinary("-") && Ordinary("_") && Ordinary("ofr_qs_");
    OrdinaryAppend(DOT_TMP, d);
    OrdinaryAppend(DOT_TMP + d, "-");
    OrdinaryAppend("ofr_qs_", e);
    OrdinaryAppend("ofr_qs_" + e, "_");
    OrdinaryAppend("ofr_qs_" + e + "_", f);
    OrdinaryAppend(DOT_TMP + d + "-", id);
    OrdinaryName(DOT_TMP + d + "-" + id);
  }

  // ---------------------------------------------------------------- one name for two files

  /** Two files of one name in the root: both are published, the second replaces the first,
      and the receipt of the first is no longer true. */
  lemma SameNameReplaces(root: string, budget: u64, name: string, x: byte, y: byte)
    requires CleanRoot(root) && budget >= 2 && x != y
    requires Sanitary(None, name) && ValidOffer(None, name) && name != Temp(1, 0, 1) && name != Temp(2, 1, 2)
    ensures var t := Received(root, budget, None, name, name, x, y);
            var (u, r) := FinishEntry(t, EntryId(1, 0));
            var (v, q) := FinishEntry(u, EntryId(2, 1));
            && r.Ok? && q.Ok? && r.value.relative == q.value.relative == [name]
            && r.value.hashOf == [x] && [name] in v.spool.files && v.spool.files[[name]] == [y]
            && Tidy(t.spool) && ReceiptsTrue(u.spool) && !ReceiptsTrue(v.spool)
  {
    hide *;
    ReceivedHolds(root, budget, None, name, name, x, y);
    SameNameFrom(Received(root, budget, None, name, name, x, y), budget, name, x, y);
  }

  lemma SameNameFrom(t: ReceiveState, budget: u64, name: string, x: byte, y: byte)
    requires Holds(t, budget, None, name, name, true, true) && Stored(t.spool, 1) == [x] && Stored(t.spool, 2) == [y]
    requires x != y && name != Temp(1, 0, 1) && name != Temp(2, 1, 2)
    ensures var (u, r) := FinishEntry(t, EntryId(1, 0));
            var (v, q) := FinishEntry(u, EntryId(2, 1));
            && r.Ok? && q.Ok? && r.value.relative == q.value.relative == [name]
            && r.value.hashOf == [x] && [name] in v.spool.files && v.spool.files[[name]] == [y]
            && Tidy(t.spool) && ReceiptsTrue(u.spool) && !ReceiptsTrue(v.spool)
  {
    EntriesOf(t, budget, None, name, name, x, y);
    FirstFinished(t, budget, name, name, x, y);
    NamesOf(1, 1, 0, 2, 2, 1);
    hide EntryId, TempName, Stored, Find, Commit, FinishEntry, Coupled, Sound, Tidy, ReceiptsTrue, Publishable;
    SecondReplaces(t, FinishEntry(t, EntryId(1, 0)).0, name, x, y);
  }

  lemma SecondReplaces(t: ReceiveState, u: ReceiveState, name: string, x: byte, y: byte)
    requires |t.spool.entries| == 2 && t.spool.dirs == {} && t.spool.published == [] && x != y && Sound(t.spool)
    requires var e := t.spool.entries;
             && e[0].TempFile() in t.spool.files && t.spool.files[e[0].TempFile()] == [x] && e[0].hashed == [x]
             && e[1].TempFile() in t.spool.files && t.spool.files[e[1].TempFile()] == [y] && e[1].hashed == [y]
             && !e[1].terminated && e[0].written == 1 && e[1].TempFile() != [name] && e[0].TempFile() != e[1].TempFile()
             && Find(t.spool.root, e, 2) == 1
    requires u.spool == Committed(t.spool, 0, [name], {}) && u.entries == [PendingOne(2, 1, 2, [name], 2, true)]
    ensures var (v, q) := FinishEntry(u, EntryId(2, 1));
            && q.Ok? && q.value.relative == [name] && [name] in v.spool.files && v.spool.files[[name]] == [y]
            && Tidy(t.spool) && ReceiptsTrue(u.spool) && !ReceiptsTrue(v.spool)
  {
    hide EntryId, TempName, Find, Commit, Sound;
    SameLookup(t.spool.root, t.spool.entries, u.spool.entries, 2);
    RootPublishes(u.spool, 2, name);
    var v := FinishEntry(u, EntryId(2, 1)).0;
    assert u.spool.published == [PublishReceipt([name], 1, [x])];
    assert v.spool.published[0] == u.spool.published[0];
  }

  // ---------------------------------------------------------------- a temporary name that is taken

  /** A file published under a coming temporary name: a later introduction whose names are all
      fine is refused half-way, and its first entry stays. */
  lemma TakenNameRefuses(root: string, budget: u64, second: string, a: string, b: string, x: byte, y: byte)
    requires CleanRoot(root) && budget >= 2
    requires Sanitary(None, second) && ValidOffer(None, second)
    requires Sanitary(None, a) && ValidOffer(None, a) && Sanitary(None, b) && ValidOffer(None, b)
    ensures Sanitary(None, Temp(4, 1, 4)) && ValidOffer(None, Temp(4, 1, 4))
    ensures var t := Received(root, budget, None, Temp(4, 1, 4), second, x, y);
            var (u, r) := FinishEntry(t, EntryId(1, 0));
            var (v, q) := OnIntroduction(u, [OneByte(None, a, 3), OneByte(None, b, 4)], Accept);
            r.Ok? && q == Err(DestinationUnavailable) && |v.entries| == |u.entries| + 1
  {
    hide *;
    TempNameFine(4, 1, 4);
    ReceivedHolds(root, budget, None, Temp(4, 1, 4), second, x, y);
    TakenNameFrom(Received(root, budget, None, Temp(4, 1, 4), second, x, y), budget, second, a, b, x, y);
  }

  lemma TakenNameFrom(t: ReceiveState, budget: u64, second: string, a: string, b: string, x: byte, y: byte)
    requires Holds(t, budget, None, Temp(4, 1, 4), second, true, true) && Stored(t.spool, 1) == [x]
             && Stored(t.spool, 2) == [y]
    requires budget >= 2
    requires Sanitary(None, a) && ValidOffer(None, a) && Sanitary(None, b) && ValidOffer(None, b)
    ensures var (u, r) := FinishEntry(t, EntryId(1, 0));
            var (v, q) := OnIntroduction(u, [OneByte(None, a, 3), OneByte(None, b, 4)], Accept);
            r.Ok? && q == Err(DestinationUnavailable) && |v.entries| == |u.entries| + 1
  {
    var first := Temp(4, 1, 4);
    EntriesOf(t, budget, None, first, second, x, y);
    FirstFinished(t, budget, first, second, x, y);
    NamesOf(1, 1, 0, 4, 4, 1);
    NamesOf(2, 2, 1, 4, 4, 1);
    hide EntryId, TempName, Sanitary, ValidOffer, Stored, Find, FinishEntry, OnIntroduction, Coupled, Sound, Passes,
      NameFree;
    var u := FinishEntry(t, EntryId(1, 0)).0;
    RootPublishes(t.spool, 1, first);
    FirstStaysSound(t, u, first);
    SecondNameTaken(t, u, first);
    TwoPass(u, OneByte(None, a, 3), OneByte(None, b, 4));
    HalfWay(u, [OneByte(None, a, 3), OneByte(None, b, 4)]);
  }

  lemma NamesOf(handle: nat, seqNo: nat, idx: nat, handle': nat, seqNo': nat, idx': nat)
    requires handle != handle'
    ensures Temp(seqNo, idx, handle) != Temp(seqNo', idx', handle')
  {
    hide EntryId, TempName;
    var a := SpoolEntry(handle, EntryId(seqNo, idx), 0, [], 0, false);
    var b := SpoolEntry(handle', EntryId(seqNo', idx'), 0, [], 0, false);
    if Temp(seqNo, idx, handle) == Temp(seqNo', idx', handle') {
      assert a.TempFile() == b.TempFile();
      TempNamesDistinct(a, b);
    }
  }

  lemma FirstStaysSound(t: ReceiveState, u: ReceiveState, first: string)
    requires |t.spool.entries| == 2 && Sound(t.spool) && t.spool.dirs == {} && IsLive(t.spool, 1)
             && Publishable(t.spool, [first])
    requires u.spool == Commit(t.spool, 1, [first]).0
    requires forall i :: 0 <= i < 2 ==> t.spool.entries[i].TempFile() != [first]
    ensures Sound(u.spool)
  {
    hide Sound, Find, Commit;
    CommitSoundIff(t.spool, 1, [first]);
  }

  lemma SecondNameTaken(t: ReceiveState, u: ReceiveState, first: string)
    requires first == Temp(4, 1, 4) && u.spool.nextHandle == 3 && u.nextSeq == 3 && u.spool.dirs == {}
    requires t.spool.files.Keys == {[Temp(1, 0, 1)], [Temp(2, 1, 2)]} && |t.spool.entries| == 2
    requires t.spool.entries[0].TempFile() in t.spool.files && u.spool == Committed(t.spool, 0, [first], {})
    ensures NameFree(u, 0, 0) && !NameFree(u, 0, 1)
  {
    hide EntryId, TempName;
    NamesOf(3, 3, 0, 1, 1, 0);
    NamesOf(3, 3, 0, 2, 2, 1);
    NamesOf(3, 3, 0, 4, 4, 1);
    assert NextTemp(u, 0, 0) == [Temp(3, 0, 3)] && NextTemp(u, 0, 1) == [Temp(4, 1, 4)];
  }

  lemma HalfWay(u: ReceiveState, offers: seq<FileOffer>)
    requires |offers| == 2 && Passes(u, offers, Accept) && Sound(u.spool) && NameFree(u, 0, 0) && !NameFree(u, 0, 1)
    requires forall i :: 0 <= i < 2 ==> ValidOffer(offers[i].parent, offers[i].name)
    ensures var (v, q) := OnIntroduction(u, offers, Accept);
            q == Err(DestinationUnavailable) && |v.entries| == |u.entries| + 1
  {
    hide NameFree, ValidOffer, Sound, OnIntroduction, Established;
    assert Settable(u, offers, 0, 0) && !Settable(u, offers, 0, 1);
    assert FirstRefused(u, offers, 0, 1) == 1;
    IntroductionOutcome(u, offers, Accept);
  }

  // ---------------------------------------------------------------- a cancelled session

  /** Two files received whole and then cancelled: nothing is pending or published any more, and
      both temporary files are still there. */
  lemma CancelLeavesComplete(root: string, budget: u64, x: byte, y: byte, cancel: TransferFrame)
    requires CleanRoot(root) && budget >= 2 && cancel.packetType.Control?
    ensures var (t, r) := OnPayload(Received(root, budget, None, "a", "b", x, y), cancel);
            && r.Ok? && t.entries == [] && t.published == []
            && [Temp(1, 0, 1)] in t.spool.files && [Temp(2, 1, 2)] in t.spool.files
  {
    LetterIsFine("a");
    LetterIsFine("b");
    ReceivedHolds(root, budget, None, "a", "b", x, y);
    var s := Received(root, budget, None, "a", "b", x, y);
    EntriesOf(s, budget, None, "a", "b", x, y);
    hide CleanRoot, Sanitary, ValidOffer, Received, Stored, Coupled, EntryId, TempName, AbortIncomplete;
    CancelOutcome(s);
    FrameStep(s, cancel);
    assert TempOf(s.spool, s.entries[0]) == [Temp(1, 0, 1)] && TempOf(s.spool, s.entries[1]) == [Temp(2, 1, 2)];
  }

  // ---------------------------------------------------------------- a lookup that goes astray

  lemma NeedleFound(pre: string, handle: nat, name: string)
    ensures Contains(RootPrefix(pre + Needle(handle)) + name, Needle(handle))
  {
    var root, n := pre + Needle(handle), Needle(handle);
    assert root[|root| - 1] == n[|n| - 1] == '-';
    var path := RootPrefix(root) + name;
    assert path[|pre|..|pre| + |n|] == n;
    assert OccursAt(path, n, |pre|);
  }

  /** A root that ends in the text of the second entry: the byte received for the second file
      is written into the temporary file of the first, whose own stays empty. */
  lemma LookupGoesAstray(pre: string, budget: u64, first: string, second: string, y: byte)
    requires budget >= 2
    requires Sanitary(None, first) && ValidOffer(None, first) && Sanitary(None, second) && ValidOffer(None, second)
    ensures var s := Introduced(pre + Needle(2), budget, None, first, second);
            var (t, r) := OnPayload(s, OneByteFrame(2, y));
            && r.Ok? && |t.entries| == 2 && t.entries[1].payloadId == 2 && t.entries[1].assembler.complete
            && [Temp(1, 0, 1)] in t.spool.files && t.spool.files[[Temp(1, 0, 1)]] == [y]
            && [Temp(2, 1, 2)] in t.spool.files && t.spool.files[[Temp(2, 1, 2)]] == []
            && !LookupExact(t.spool.root, t.spool.entries)
  {
    var root := pre + Needle(2);
    IntroducedIs(root, budget, None, first, second);
    NamesOf(1, 1, 0, 2, 2, 1);
    NeedleFound(pre, 2, TempName(1, EntryId(1, 0)));
    hide EntryId, TempName, Sanitary, ValidOffer, Introduced, Contains, RootPrefix, Needle;
    var s := Introduced(root, budget, None, first, second);
    SecondIndex(s.entries);
    assert s.spool.entries[0].handle == 1 && s.spool.entries[0].entryId == EntryId(1, 0);
    assert Find(root, s.spool.entries, 2) == 0;
    WriteAstray(s.spool, y);
    var t := OnPayload(s, OneByteFrame(2, y)).0;
    SameLookup(root, s.spool.entries, t.spool.entries, 2);
    assert t.spool.entries[1].handle == 2;
  }

  lemma WriteAstray(s: SpoolState, y: byte)
    requires |s.entries| == 2 && Find(s.root, s.entries, 2) == 0
    requires s.entries[0] == SpoolEntry(1, EntryId(1, 0), 1, [], 0, false)
    requires [Temp(1, 0, 1)] in s.files && s.files[[Temp(1, 0, 1)]] == []
    ensures Write(s, 2, 0, [y]) ==
            (s.(entries := s.entries[0 := s.entries[0].(hashed := [y], written := 1)],
                files := s.files[[Temp(1, 0, 1)] := [y]]), Ok(()))
  {
    hide EntryId, TempName, Find;
    assert [] + [y] == [y];
  }

  // ---------------------------------------------------------------- two files in one folder

  /** After one file of a folder is published, the next one is complete and yet never will be. */
  lemma NextInFolderFails(s: ReceiveState, first: string, second: string)
    requires FinishEntry(s, first).1.Ok?
    requires var u := FinishEntry(s, first).0;
             && IndexOfEntry(u.entries, second) < |u.entries|
             && var (p, q) := (s.entries[IndexOfEntry(s.entries, first)], u.entries[IndexOfEntry(u.entries, second)]);
                |p.path| >= 2 && q.path[..1] == p.path[..1]
    ensures FinishEntry(FinishEntry(s, first).0, second).1.Err?
  {
    var u := FinishEntry(s, first).0;
    var p, q := s.entries[IndexOfEntry(s.entries, first)], u.entries[IndexOfEntry(u.entries, second)];
    FolderPublishesOnce(s.spool, p.handle, p.path, [], q.handle, q.path);
    hide Commit;
    assert Play(u.spool, []) == u.spool;
  }

  /** One introduction of two files in a folder, both received whole: the first is published, the
      second is refused, and its entry is gone. */
  lemma FolderLosesSecond(root: string, budget: u64, x: byte, y: byte)
    requires CleanRoot(root) && budget >= 2
    ensures var t := Received(root, budget, Some(["d"]), "a", "b", x, y);
            var (u, r) := FinishEntry(t, EntryId(1, 0));
            var (v, q) := FinishEntry(u, EntryId(2, 1));
            && r.Ok? && r.value.relative == ["d", "a"]
            && |u.entries| == 1 && u.entries[0].assembler.complete && u.entries[0].path == ["d", "b"]
            && q.Err? && v.entries == []
  {
    var at := Some(["d"]);
    FolderNamesFine("a");
    FolderNamesFine("b");
    ReceivedHolds(root, budget, at, "a", "b", x, y);
    hide CleanRoot, Sanitary, ValidOffer, Received, Stored, Coupled;
    FolderFirst(Received(root, budget, at, "a", "b", x, y), budget);
    NextInFolderFails(Received(root, budget, at, "a", "b", x, y), EntryId(1, 0), EntryId(2, 1));
  }

  lemma FolderNamesFine(name: string)
    requires |name| == 1 && 'a' <= name[0] <= 'z'
    ensures Sanitary(Some(["d"]), name) && ValidOffer(Some(["d"]), name)
  {
    LetterIsFine("d");
    LetterIsFine(name);
    hide SafeComponent, OfferComponent;
    assert Components(None, "d")[0] == "d" && Components(None, name)[0] == name;
    assert Components(Some(["d"]), name) == ["d", name];
  }

  lemma FolderFirst(t: ReceiveState, budget: u64)
    requires Holds(t, budget, Some(["d"]), "a", "b", true, true)
    ensures FinishEntry(t, EntryId(1, 0)).1.Ok? && FinishEntry(t, EntryId(1, 0)).1.value.relative == ["d", "a"]
    ensures FinishEntry(t, EntryId(1, 0)).0.entries == [PendingOne(2, 1, 2, ["d", "b"], 2, true)]
    ensures IndexOfEntry(t.entries, EntryId(1, 0)) == 0 && t.entries[0].path == ["d", "a"]
  {
    hide EntryId, Coupled, Commit, Stored;
    assert Components(Some(["d"]), "a") == ["d", "a"] && Components(Some(["d"]), "b") == ["d", "b"];
    assert ["d", "a"][..1] == ["d"];
    assert ["d"] !in t.spool.files by {
      assert TempName(1, EntryId(1, 0))[0] == TempName(2, EntryId(2, 1))[0] == '.';
      assert "d"[0] != '.';
    }
    hide TempName;
    assert Publishable(t.spool, ["d", "a"]);
    FinishPublishes(t, EntryId(1, 0));
    assert t.entries[..0] + t.entries[1..] == [PendingOne(2, 1, 2, ["d", "b"], 2, true)];
  }
}
