/** What an introduction leaves behind: the declared sizes against the budget, the entries
    that get set up, and the refusals after which something stays. */
module Introductions {
  import opened Prelude
  import opened SpoolNames
  import opened Spool
  import opened Receive

  // ---------------------------------------------------------------- the declared sizes

  function SumSizes(offers: seq<FileOffer>): (t: nat) {
    if offers == [] then 0 else SumSizes(offers[..|offers| - 1]) + offers[|offers| - 1].size
  }

  lemma {:induction false} TotalIsSumWrapped(offers: seq<FileOffer>)
    ensures TotalSize(offers) == SumSizes(offers) % TWO_64
    decreases |offers|
  {
    if offers == [] {
    } else {
      TotalIsSumWrapped(offers[..|offers| - 1]);
      WrappedSum(SumSizes(offers[..|offers| - 1]), offers[|offers| - 1].size);
    }
  }

  lemma WrappedSum(a: nat, b: nat)
    ensures (a % TWO_64 + b) % TWO_64 == (a + b) % TWO_64
  {
  }

  lemma {:induction false} EachWithinSum(offers: seq<FileOffer>, i: nat)
    requires i < |offers|
    ensures offers[i].size <= SumSizes(offers)
    decreases |offers|
  {
    if i == |offers| - 1 {
    } else {
      EachWithinSum(offers[..|offers| - 1], i);
    }
  }

  /** Files that pass the check together fit the budget together exactly when their sizes
      add up below 2^64: what is checked is the sum as a u64. */
  lemma BudgetHoldsIff(s: ReceiveState, offers: seq<FileOffer>)
    requires TotalSize(offers) <= s.budget
    ensures SumSizes(offers) <= s.budget <==> SumSizes(offers) < TWO_64
  {
    TotalIsSumWrapped(offers);
  }

  lemma EachWithinBudget(s: ReceiveState, offers: seq<FileOffer>)
    requires TotalSize(offers) <= s.budget && SumSizes(offers) < TWO_64
    ensures forall i :: 0 <= i < |offers| ==> offers[i].size <= s.budget
  {
    BudgetHoldsIff(s, offers);
    forall i | 0 <= i < |offers| ensures offers[i].size <= s.budget {
      EachWithinSum(offers, i);
    }
  }

  // ---------------------------------------------------------------- setting up one entry

  /** The spool entry and the pending entry that the next file would get. */
  function NextEntry(s: ReceiveState, o: FileOffer, idx: nat): SpoolEntry {
    SpoolEntry(s.spool.nextHandle, EntryId(s.nextSeq, idx), Min(s.budget, o.size), [], 0, false)
  }

  function NextPending(s: ReceiveState, o: FileOffer, idx: nat): Pending {
    Pending(EntryId(s.nextSeq, idx), o.payloadId, o.size, Components(o.parent, o.name), s.spool.nextHandle,
            NewAssembler(o))
  }

  /** The temporary file of the `j`-th entry from now on; `idx` is the number of the next. */
  function NextTemp(s: ReceiveState, idx: nat, j: nat): Path {
    [TempName(s.spool.nextHandle + j, EntryId(s.nextSeq + j, idx + j))]
  }

  /** Nothing in the spool has that name yet. */
  predicate NameFree(s: ReceiveState, idx: nat, j: nat) {
    NextTemp(s, idx, j) !in s.spool.files && NextTemp(s, idx, j) !in s.spool.dirs
  }

  function AfterOne(s: ReceiveState, o: FileOffer, idx: nat): ReceiveState {
    s.(nextSeq := s.nextSeq + 1,
       entries := s.entries + [NextPending(s, o, idx)],
       spool := s.spool.(nextHandle := s.spool.nextHandle + 1,
                         entries := s.spool.entries + [NextEntry(s, o, idx)],
                         files := s.spool.files[NextTemp(s, idx, 0) := []]))
  }

  /** One file: refused for its name, refused because its temporary name is taken, or set up. */
  lemma OneOutcome(s: ReceiveState, o: FileOffer, idx: nat)
    requires Sanitary(o.parent, o.name)
    ensures EstablishOne(s, o, idx) ==
            if !ValidOffer(o.parent, o.name) then (s.(nextSeq := s.nextSeq + 1), Err(InvalidFrame))
            else if !NameFree(s, idx, 0) then
              (s.(nextSeq := s.nextSeq + 1, spool := s.spool.(nextHandle := s.spool.nextHandle + 1)),
               Err(DestinationUnavailable))
            else (AfterOne(s, o, idx), Ok(()))
  {
    hide EntryId, TempName, Sanitary, ValidOffer;
    assert NextEntry(s, o, idx).TempFile() == NextTemp(s, idx, 0);
  }

  lemma AfterOneSound(s: ReceiveState, o: FileOffer, idx: nat)
    requires Sound(s.spool) && NameFree(s, idx, 0)
    ensures Sound(AfterOne(s, o, idx).spool)
  {
    hide EntryId, TempName, CleanRoot;
    EntryIdDotless(s.nextSeq, idx);
    assert NextEntry(s, o, idx).TempFile() == NextTemp(s, idx, 0);
  }

  lemma NamesApart(s: ReceiveState, idx: nat, i: nat, j: nat)
    requires i != j
    ensures NextTemp(s, idx, i) != NextTemp(s, idx, j)
  {
    hide EntryId, TempName;
    var a := SpoolEntry(s.spool.nextHandle + i, EntryId(s.nextSeq + i, idx + i), 0, [], 0, false);
    var b := SpoolEntry(s.spool.nextHandle + j, EntryId(s.nextSeq + j, idx + j), 0, [], 0, false);
    if a.TempFile() == b.TempFile() {
      TempNamesDistinct(a, b);
    }
  }

  /** Setting up one entry leaves the later temporary names as free as they were. */
  lemma NameFreeAfter(s: ReceiveState, o: FileOffer, idx: nat, j: nat)
    ensures NameFree(AfterOne(s, o, idx), idx + 1, j) <==> NameFree(s, idx, j + 1)
  {
    hide EntryId, TempName;
    NamesApart(s, idx, 0, j + 1);
    SameTemp(s, o, idx, j);
  }

  lemma SameTemp(s: ReceiveState, o: FileOffer, idx: nat, j: nat)
    ensures NextTemp(AfterOne(s, o, idx), idx + 1, j) == NextTemp(s, idx, j + 1)
  {
    hide EntryId, TempName;
    assert s.nextSeq + 1 + j == s.nextSeq + (j + 1) && idx + 1 + j == idx + (j + 1);
  }

  // ---------------------------------------------------------------- setting up all of them

  /** File `k` can be set up, when `idx` is the next: its name is valid and its temporary
      name is free. */
  predicate Settable(s: ReceiveState, offers: seq<FileOffer>, idx: nat, k: nat)
    requires idx <= k < |offers|
  {
    ValidOffer(offers[k].parent, offers[k].name) && NameFree(s, idx, k - idx)
  }

  /** The first file from `k` on that cannot be set up; |offers| when all can. */
  function FirstRefused(s: ReceiveState, offers: seq<FileOffer>, idx: nat, k: nat): (r: nat)
    requires idx <= k <= |offers|
    ensures k <= r <= |offers|
    decreases |offers| - k
  {
    if k == |offers| || !Settable(s, offers, idx, k) then k else FirstRefused(s, offers, idx, k + 1)
  }

  lemma {:induction false} FirstRefusedAfter(s: ReceiveState, offers: seq<FileOffer>, o: FileOffer, idx: nat, k: nat)
    requires idx < k <= |offers|
    ensures FirstRefused(AfterOne(s, o, idx), offers, idx + 1, k) == FirstRefused(s, offers, idx, k)
    decreases |offers| - k
  {
    hide NameFree, AfterOne;
    if k == |offers| {
    } else {
      NameFreeAfter(s, o, idx, k - idx - 1);
      FirstRefusedAfter(s, offers, o, idx, k + 1);
    }
  }

  /** The entry of a file that was set up: bound to its payload id, under the next handle,
      limited to the budget, and nothing stored in it yet. */
  ghost predicate Established(t: ReceiveState, o: FileOffer, p: Pending, handle: nat) {
    && p.handle == handle && p.payloadId == o.payloadId && p.size == o.size
    && p.path == Components(o.parent, o.name) && p.assembler == NewAssembler(o)
    && var i := EntryOf(t.spool, handle);
       && i < |t.spool.entries| && t.spool.entries[i].handle == handle && !t.spool.entries[i].terminated
       && t.spool.entries[i].hashed == [] && t.spool.entries[i].written == 0
       && t.spool.entries[i].budget == Min(t.budget, o.size)
  }

  /** `t` is `s` with an entry for each of the offers `idx` to `k`, and nothing else. */
  ghost predicate Added(s: ReceiveState, t: ReceiveState, offers: seq<FileOffer>, idx: nat, k: nat)
    requires idx <= k <= |offers|
  {
    && |t.entries| == |s.entries| + (k - idx) && s.entries <= t.entries
    && |t.spool.entries| == |s.spool.entries| + (k - idx) && s.spool.entries <= t.spool.entries
    && (forall i :: |s.entries| <= i < |t.entries| ==>
          Established(t, offers[idx + (i - |s.entries|)], t.entries[i], s.spool.nextHandle + (i - |s.entries|)))
    && t.published == s.published && t.budget == s.budget
    && t.spool.dirs == s.spool.dirs && t.spool.root == s.spool.root && t.spool.published == s.spool.published
    && (k == idx ==> t.spool.files == s.spool.files)
    && (forall j :: |s.spool.entries| <= j < |t.spool.entries| ==> t.spool.entries[j].hashed == [])
  }

  lemma {:induction false} FindPrefix(root: string, a: seq<SpoolEntry>, b: seq<SpoolEntry>, handle: nat)
    requires a <= b
    ensures Find(root, a, handle) < |a| ==> Find(root, b, handle) == Find(root, a, handle)
    ensures Find(root, a, handle) == |a| ==> Find(root, b, handle) >= |a|
    decreases |a|
  {
    if a == [] {
    } else if Matches(root, a[0], handle) {
      assert b[0] == a[0];
    } else {
      assert b[0] == a[0] && a[1..] <= b[1..];
      FindPrefix(root, a[1..], b[1..], handle);
    }
  }

  lemma EstablishedLater(t1: ReceiveState, t: ReceiveState, o: FileOffer, p: Pending, handle: nat)
    requires Established(t1, o, p, handle) && t1.spool.entries <= t.spool.entries
    requires t.budget == t1.budget && t.spool.root == t1.spool.root
    ensures Established(t, o, p, handle)
  {
    FindPrefix(t.spool.root, t1.spool.entries, t.spool.entries, handle);
  }

  lemma FirstEstablished(s: ReceiveState, o: FileOffer, idx: nat)
    requires Sound(s.spool) && NameFree(s, idx, 0)
    ensures Established(AfterOne(s, o, idx), o, NextPending(s, o, idx), s.spool.nextHandle)
  {
    hide EntryId, TempName, NextTemp, Components, CleanRoot;
    var t, e, h := AfterOne(s, o, idx).spool, NextEntry(s, o, idx), s.spool.nextHandle;
    AfterOneSound(s, o, idx);
    FindInCleanRoot(t.root, t.entries, t.nextHandle, h);
    assert t.entries[|s.spool.entries|] == e;
    assert forall j :: 0 <= j < |s.spool.entries| ==> t.entries[j] == s.spool.entries[j];
  }

  lemma NextEntryEmpty(s: ReceiveState, o: FileOffer, idx: nat)
    ensures NextEntry(s, o, idx).hashed == []
  {
  }

  /** Nothing is stored in what was set up. */
  lemma AddedStoresNothing(s: ReceiveState, t: ReceiveState, offers: seq<FileOffer>, k: nat, handle: nat)
    requires k <= |offers| && Added(s, t, offers, 0, k)
    ensures Stored(t.spool, handle) == Stored(s.spool, handle)
  {
    hide Established, Find;
    FindPrefix(s.spool.root, s.spool.entries, t.spool.entries, handle);
  }

  lemma AddedCons(s: ReceiveState, t1: ReceiveState, t: ReceiveState, offers: seq<FileOffer>, idx: nat, k: nat)
    requires idx < k <= |offers| && t1 == AfterOne(s, offers[idx], idx)
    requires Added(t1, t, offers, idx + 1, k)
    requires Established(t1, offers[idx], NextPending(s, offers[idx], idx), s.spool.nextHandle)
    ensures Added(s, t, offers, idx, k)
  {
    hide Established, NextTemp, NextPending, NextEntry;
    EstablishedLater(t1, t, offers[idx], NextPending(s, offers[idx], idx), s.spool.nextHandle);
    assert s.entries <= t1.entries <= t.entries && s.spool.entries <= t1.spool.entries <= t.spool.entries;
    forall i | |s.entries| <= i < |t.entries|
      ensures Established(t, offers[idx + (i - |s.entries|)], t.entries[i], s.spool.nextHandle + (i - |s.entries|))
    {
      if i == |s.entries| {
        assert t.entries[i] == t1.entries[i] == NextPending(s, offers[idx], idx);
      } else {
        assert idx + 1 + (i - |t1.entries|) == idx + (i - |s.entries|);
        assert t1.spool.nextHandle + (i - |t1.entries|) == s.spool.nextHandle + (i - |s.entries|);
      }
    }
    assert t.spool.entries[|s.spool.entries|] == t1.spool.entries[|s.spool.entries|] == NextEntry(s, offers[idx], idx);
    assert NextEntry(s, offers[idx], idx).hashed == [] by {
      NextEntryEmpty(s, offers[idx], idx);
    }
  }

  /** What the first file that cannot be set up is refused with. */
  function Refusal(offers: seq<FileOffer>, k: nat): Result<ResponseStatus>
    requires k <= |offers|
  {
    if k == |offers| then Ok(Accepted)
    else if !ValidOffer(offers[k].parent, offers[k].name) then Err(InvalidFrame)
    else Err(DestinationUnavailable)
  }

  /** Setting up entries from `idx` on: every file before the first one that cannot be set
      up gets its entry and keeps it. */
  lemma {:induction false} EstablishOutcome(s: ReceiveState, offers: seq<FileOffer>, idx: nat)
    requires idx <= |offers| && Sound(s.spool) && AllSanitary(offers)
    ensures var (t, r) := Establish(s, offers, idx);
            var k := FirstRefused(s, offers, idx, idx);
            Sound(t.spool) && r == Refusal(offers, k) && Added(s, t, offers, idx, k)
    decreases |offers| - idx
  {
    hide Sound, EstablishOne, NameFree, AfterOne, Established, Sanitary, ValidOffer;
    if idx == |offers| {
    } else {
      var o := offers[idx];
      OneOutcome(s, o, idx);
      if Settable(s, offers, idx, idx) {
        var t1 := AfterOne(s, o, idx);
        AfterOneSound(s, o, idx);
        FirstEstablished(s, o, idx);
        EstablishOutcome(t1, offers, idx + 1);
        FirstRefusedAfter(s, offers, o, idx, idx + 1);
        AddedCons(s, t1, Establish(t1, offers, idx + 1).0, offers, idx, FirstRefused(s, offers, idx, idx + 1));
      } else {
        SoundLater(s.spool, s.spool.nextHandle + 1);
      }
    }
  }

  lemma SoundLater(spool: SpoolState, nextHandle: nat)
    requires Sound(spool) && nextHandle >= spool.nextHandle
    ensures Sound(spool.(nextHandle := nextHandle))
  {
  }

  // ---------------------------------------------------------------- whole introductions

  /** Every check that comes before the first side effect. */
  predicate Passes(s: ReceiveState, offers: seq<FileOffer>, decision: ReceiveDecision) {
    && offers != [] && AllSanitary(offers) && !DuplicateIds(offers)
    && TotalSize(offers) <= s.budget && decision.Accept?
  }

  /** No files at all, a file that is not sanitary, or one payload id for two of them. */
  ghost predicate Malformed(offers: seq<FileOffer>) {
    || offers == []
    || (exists i :: 0 <= i < |offers| && !Sanitary(offers[i].parent, offers[i].name))
    || (exists i, j :: 0 <= i < j < |offers| && offers[i].payloadId == offers[j].payloadId)
  }

  lemma {:induction false} EstablishNeverDeclines(s: ReceiveState, offers: seq<FileOffer>, idx: nat)
    requires idx <= |offers|
    ensures var r := Establish(s, offers, idx).1; r.Ok? ==> r.value.Accepted?
    decreases |offers| - idx
  {
    hide EstablishOne;
    if idx == |offers| {
    } else {
      EstablishNeverDeclines(EstablishOne(s, offers[idx], idx).0, offers, idx + 1);
    }
  }

  /** What an introduction is answered before any file is set up, for every state, offer and
      decision. Malformed ones are an error. Of the others it is told that there is not enough
      space exactly when the sizes, added as a u64, are more than the budget, whatever the user
      decided; and that it is rejected exactly when they are not and the user decided so. */
  lemma IntroductionAnswer(s: ReceiveState, offers: seq<FileOffer>, decision: ReceiveDecision)
    ensures var (t, r) := OnIntroduction(s, offers, decision);
            && (Malformed(offers) ==> t == s && r == Err(InvalidFrame))
            && (!Malformed(offers) ==>
                  && (r == Ok(NotEnoughSpace) <==> SumSizes(offers) % TWO_64 > s.budget)
                  && (r == Ok(Rejected) <==> SumSizes(offers) % TWO_64 <= s.budget && decision.Reject?)
                  && (r == Ok(NotEnoughSpace) || r == Ok(Rejected) ==> t == s))
  {
    hide Sanitary, Establish;
    TotalIsSumWrapped(offers);
    EstablishNeverDeclines(s, offers, 0);
  }

  /** An introduction that is turned down by a check changes nothing. One that passes them
      sets up its files in order, and stops at the first that cannot be set up. */
  lemma IntroductionOutcome(s: ReceiveState, offers: seq<FileOffer>, decision: ReceiveDecision)
    requires Sound(s.spool)
    ensures var (t, r) := OnIntroduction(s, offers, decision);
            var k := FirstRefused(s, offers, 0, 0);
            && Sound(t.spool)
            && (!Passes(s, offers, decision) ==>
                  && t == s
                  && r == (if Malformed(offers) then Err(InvalidFrame)
                           else if SumSizes(offers) % TWO_64 > s.budget then Ok(NotEnoughSpace) else Ok(Rejected)))
            && (Passes(s, offers, decision) ==> Added(s, t, offers, 0, k) && r == Refusal(offers, k))
  {
    hide Sound, Establish, Added, FirstRefused, Sanitary;
    IntroductionAnswer(s, offers, decision);
    TotalIsSumWrapped(offers);
    if Passes(s, offers, decision) {
      EstablishOutcome(s, offers, 0);
    }
  }

  lemma NothingAdded(s: ReceiveState, t: ReceiveState, offers: seq<FileOffer>)
    requires Added(s, t, offers, 0, 0)
    ensures t.entries == s.entries && t.spool.entries == s.spool.entries && t.spool.files == s.spool.files
  {
  }

  /** The design says a refused introduction leaves no temporary file and no entry. It leaves
      none exactly when it did not pass the checks in front, or its first file is the one that
      cannot be set up. */
  lemma RefusalLeavesNothingIff(s: ReceiveState, offers: seq<FileOffer>, decision: ReceiveDecision)
    requires Sound(s.spool)
    requires OnIntroduction(s, offers, decision).1 != Ok(Accepted)
    ensures var t := OnIntroduction(s, offers, decision).0;
            t.entries == s.entries && t.spool.entries == s.spool.entries && t.spool.files == s.spool.files
            <==> !(Passes(s, offers, decision) && FirstRefused(s, offers, 0, 0) > 0)
  {
    hide Sound, OnIntroduction, FirstRefused, Passes, Established;
    IntroductionOutcome(s, offers, decision);
    if Passes(s, offers, decision) && FirstRefused(s, offers, 0, 0) == 0 {
      NothingAdded(s, OnIntroduction(s, offers, decision).0, offers);
    }
  }

  // ---------------------------------------------------------------- the two layers agree

  lemma BoundLater(spool: SpoolState, t: SpoolState, q: Pending)
    requires Bound(spool, q) && spool.entries <= t.entries && t.root == spool.root
    ensures Bound(t, q) && Stored(t, q.handle) == Stored(spool, q.handle)
  {
    FindPrefix(t.root, spool.entries, t.entries, q.handle);
  }

  lemma EstablishedBoundIff(t: ReceiveState, o: FileOffer, p: Pending, handle: nat)
    requires Established(t, o, p, handle)
    ensures Bound(t.spool, p) <==> o.size <= t.budget
    ensures Stored(t.spool, handle) == []
  {
  }

  lemma BoundHandle(spool: SpoolState, p: Pending)
    requires Sound(spool) && Bound(spool, p)
    ensures p.handle < spool.nextHandle
  {
  }

  lemma AddedHandles(s: ReceiveState, t: ReceiveState, offers: seq<FileOffer>, k: nat)
    requires Coupled(s) && k <= |offers| && Added(s, t, offers, 0, k)
    ensures forall i, j :: 0 <= i < j < |t.entries| ==> t.entries[i].handle != t.entries[j].handle
  {
    hide Bound, Sound;
    forall i | 0 <= i < |s.entries| ensures t.entries[i] == s.entries[i] && t.entries[i].handle < s.spool.nextHandle {
      BoundHandle(s.spool, s.entries[i]);
    }
    forall i | |s.entries| <= i < |t.entries|
      ensures t.entries[i].handle == s.spool.nextHandle + (i - |s.entries|)
    {
      assert Established(t, offers[0 + (i - |s.entries|)], t.entries[i], s.spool.nextHandle + (i - |s.entries|));
    }
  }

  lemma AddedCoupledIff(s: ReceiveState, t: ReceiveState, offers: seq<FileOffer>, k: nat)
    requires Coupled(s) && Sound(t.spool) && k <= |offers| && Added(s, t, offers, 0, k)
    ensures Coupled(t) <==> forall i :: 0 <= i < k ==> offers[i].size <= s.budget
  {
    hide Bound, Sound, Established;
    AddedHandles(s, t, offers, k);
    forall i | 0 <= i < |s.entries| ensures Bound(t.spool, t.entries[i]) {
      assert t.entries[i] == s.entries[i];
      BoundLater(s.spool, t.spool, s.entries[i]);
    }
    forall i | 0 <= i < k ensures Bound(t.spool, t.entries[|s.entries| + i]) <==> offers[i].size <= s.budget {
      var j := |s.entries| + i;
      assert Established(t, offers[0 + (j - |s.entries|)], t.entries[j], s.spool.nextHandle + (j - |s.entries|));
      EstablishedBoundIff(t, offers[i], t.entries[j], s.spool.nextHandle + i);
    }
    if Coupled(t) {
      forall i | 0 <= i < k ensures offers[i].size <= s.budget {
        assert Bound(t.spool, t.entries[|s.entries| + i]);
      }
    } else {
      NotAllBound(s, t, offers, k);
    }
  }

  lemma NotAllBound(s: ReceiveState, t: ReceiveState, offers: seq<FileOffer>, k: nat)
    requires !Coupled(t) && Sound(t.spool) && k <= |offers| && |t.entries| == |s.entries| + k
    requires forall i, j :: 0 <= i < j < |t.entries| ==> t.entries[i].handle != t.entries[j].handle
    requires forall i :: 0 <= i < |s.entries| ==> Bound(t.spool, t.entries[i])
    requires forall i :: 0 <= i < k ==> (Bound(t.spool, t.entries[|s.entries| + i]) <==> offers[i].size <= s.budget)
    ensures exists i :: 0 <= i < k && offers[i].size > s.budget
  {
    hide Bound, Sound;
    var j :| 0 <= j < |t.entries| && !Bound(t.spool, t.entries[j]);
    var i := j - |s.entries|;
    assert t.entries[|s.entries| + i] == t.entries[j];
    assert 0 <= i < k && offers[i].size > s.budget;
  }

  /** After an introduction the two layers still agree exactly when each file that was set up
      fits the budget by itself - which only a sum that wraps can prevent. */
  lemma IntroductionKeepsCouplingIff(s: ReceiveState, offers: seq<FileOffer>, decision: ReceiveDecision)
    requires Coupled(s)
    ensures Coupled(OnIntroduction(s, offers, decision).0) <==>
            (Passes(s, offers, decision) ==>
               forall i :: 0 <= i < FirstRefused(s, offers, 0, 0) ==> offers[i].size <= s.budget)
    ensures SumSizes(offers) < TWO_64 ==> Coupled(OnIntroduction(s, offers, decision).0)
  {
    hide Bound, OnIntroduction, FirstRefused, Established;
    IntroductionOutcome(s, offers, decision);
    if Passes(s, offers, decision) {
      AddedCoupledIff(s, OnIntroduction(s, offers, decision).0, offers, FirstRefused(s, offers, 0, 0));
      if SumSizes(offers) < TWO_64 {
        EachWithinBudget(s, offers);
      }
    }
  }

  // ---------------------------------------------------------------- a total that wraps

  /** A name of one ordinary letter. */
  lemma LetterIsFine(name: string)
    requires |name| == 1 && 'a' <= name[0] <= 'z'
    ensures Sanitary(None, name) && ValidOffer(None, name)
  {
    assert Components(None, name) == [name];
    assert Stem(name[1..]) == "" && Stem(name) == name;
    assert |UpperAscii(name)| == 1;
  }

  /** Two files of 2^63 bytes each are accepted under every budget a u64 can hold, and both
      get their entry, although together they declare more than that. */
  lemma OverBudgetAccepted(root: string, budget: u64)
    requires CleanRoot(root)
    ensures var offers := [FileOffer("a", TWO_63, None, 1), FileOffer("b", TWO_63, None, 2)];
            var (t, r) := OnIntroduction(FreshState(root, budget), offers, Accept);
            SumSizes(offers) > budget && r == Ok(Accepted) && |t.entries| == 2 && |t.spool.entries| == 2
  {
    hide CleanRoot, OnIntroduction, EntryId, TempName, Established;
    var s := FreshState(root, budget);
    var a, b := FileOffer("a", TWO_63, None, 1), FileOffer("b", TWO_63, None, 2);
    LetterIsFine("a");
    LetterIsFine("b");
    SumOfTwo(a, b);
    assert Settable(s, [a, b], 0, 0) && Settable(s, [a, b], 0, 1);
    assert FirstRefused(s, [a, b], 0, 2) == 2 && FirstRefused(s, [a, b], 0, 1) == 2;
    IntroductionOutcome(s, [a, b], Accept);
  }

  lemma SumOfOne(a: FileOffer)
    ensures SumSizes([a]) == TotalSize([a]) == a.size
  {
    assert [a][..0] == [];
    TotalIsSumWrapped([a]);
  }

  lemma SumOfTwo(a: FileOffer, b: FileOffer)
    ensures SumSizes([a, b]) == a.size + b.size && TotalSize([a, b]) == (a.size + b.size) % TWO_64
  {
    assert [a, b][..1] == [a];
    SumOfOne(a);
    TotalIsSumWrapped([a, b]);
  }
}
