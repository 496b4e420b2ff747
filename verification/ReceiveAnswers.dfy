/** What a receiving session answers to frames and to publishing, told from what is stored. */
module ReceiveAnswers {
  import opened Prelude
  import opened Payload
  import opened SpoolNames
  import opened Spool
  import opened SpoolAnswers
  import opened Receive
  import opened ReceiveRuns

  // ---------------------------------------------------------------- data

  /** The frame is about this entry and carries something: the next bytes, as far as its header
      can tell. */
  predicate Continues(p: Pending, stored: Bytes, frame: TransferFrame) {
    && !p.assembler.complete
    && frame.header.Some? && frame.header.value.id == p.payloadId && frame.header.value.totalSize == p.size
    && frame.chunk.Some? && frame.chunk.value.offset == |stored|
  }

  /** What a frame that is about an entry is answered with. */
  function AnswerOf(p: Pending, stored: Bytes, frame: TransferFrame): Result<()> {
    if !Continues(p, stored, frame) then Err(InvalidFrame)
    else
      var end := |stored| + |frame.chunk.value.body|;
      if end >= TWO_64 then Err(InvalidFrame)
      else if end > p.size then Err(ResourceLimit)
      else if frame.chunk.value.IsLast() != (end == p.size) then Err(InvalidFrame)
      else Ok(())
  }

  lemma CheckAnswers(spool: SpoolState, p: Pending, stored: Bytes, frame: TransferFrame)
    requires Bound(spool, p) && frame.packetType.Data? && |stored| == p.assembler.written
    ensures var c, r := Check(p.assembler, frame), AnswerOf(p, stored, frame);
            (c.Ok? <==> r.Ok?) && (c.Err? ==> r == Err(c.code))
  {
    hide Find;
  }

  /** What a data frame is answered with. It is invalid if it is about no file of this session, or
      does not continue the one it is about: not from its next byte, or with another total size, or
      after it was complete. One that goes beyond the declared size is one too many resources; one
      that is marked as the last too early, or is the last and not marked, is invalid; and only
      what is left is taken. */
  lemma DataAnswer(s: ReceiveState, frame: TransferFrame)
    requires Coupled(s) && frame.packetType.Data?
    ensures var r := OnPayload(s, frame).1;
            if frame.header.None? || (forall i :: 0 <= i < |s.entries| ==>
                                        s.entries[i].payloadId != frame.header.value.id)
              then r == Err(InvalidFrame)
            else
              var i := IndexOfPayload(s.entries, frame.header.value.id);
              && i < |s.entries|
              && var a := AnswerOf(s.entries[i], Stored(s.spool, s.entries[i].handle), frame);
                 (r.Ok? <==> a.Ok?) && (r.Err? ==> r == a)
  {
    hide Find, Write, Advance, Check, AnswerOf, Stored, Bound;
    DataFrameStep(s, frame);
    if frame.header.Some? {
      PayloadKnown(s.entries, frame.header.value.id);
      var i := IndexOfPayload(s.entries, frame.header.value.id);
      if i < |s.entries| {
        StoredIsWritten(s, i);
        CheckAnswers(s.spool, s.entries[i], Stored(s.spool, s.entries[i].handle), frame);
      }
    }
  }

  lemma {:induction false} PayloadKnown(entries: seq<Pending>, id: i64)
    ensures IndexOfPayload(entries, id) == |entries|
            <==> forall k :: 0 <= k < |entries| ==> entries[k].payloadId != id
    decreases |entries|
  {
    if entries == [] {
    } else {
      PayloadKnown(entries[1..], id);
      assert forall k :: 1 <= k < |entries| ==> entries[k] == entries[1..][k - 1];
    }
  }

  lemma StoredIsWritten(s: ReceiveState, i: nat)
    requires Coupled(s) && i < |s.entries|
    ensures |Stored(s.spool, s.entries[i].handle)| == s.entries[i].assembler.written
  {
    hide Find;
    assert Bound(s.spool, s.entries[i]);
    assert LiveFile(s.spool, s.spool.entries[EntryOf(s.spool, s.entries[i].handle)]);
  }

  /** The two other kinds of frame: an acknowledgement is not supported and changes nothing, a
      control frame cancels whatever it is about. */
  lemma OtherAnswer(s: ReceiveState, frame: TransferFrame)
    requires Coupled(s)
    ensures frame.packetType.PayloadAck? ==> OnPayload(s, frame) == (s, Err(UnsupportedFeature))
    ensures frame.packetType.Control? ==> OnPayload(s, frame).1.Ok? && OnPayload(s, frame).0.entries == []
  {
    hide Coupled, Check, Write, Stored;
    CancelOutcome(s);
  }

  /** What an assembler says to a frame that is no data frame, were it ever given one. */
  lemma AssemblerAnswer(a: Assembler, frame: TransferFrame)
    ensures a.complete ==> Check(a, frame) == Err(InvalidFrame)
    ensures !a.complete && !frame.packetType.Data? ==> Check(a, frame) == Err(UnsupportedFeature)
  {
  }

  // ---------------------------------------------------------------- publishing

  /** What publishing is answered with. An entry the session does not know has no destination; one
      that is not complete is invalid and stays. A complete one is given up, and the answer is the
      spool's: it fails for a file where a folder would be, or because a folder or a directory of
      its name is there. */
  lemma FinishAnswer(s: ReceiveState, entryId: string)
    requires Coupled(s)
    ensures var (t, r) := FinishEntry(s, entryId);
            var i := IndexOfEntry(s.entries, entryId);
            if forall k :: 0 <= k < |s.entries| ==> s.entries[k].entryId != entryId
              then (t, r) == (s, Err(DestinationUnavailable))
            else
              i < |s.entries| && s.entries[i].entryId == entryId &&
              var p := s.entries[i];
              if !p.assembler.complete then (t, r) == (s, Err(InvalidFrame))
              else
                && t.entries == s.entries[..i] + s.entries[i + 1..]
                && (r.Err? ==>
                      && t.published == s.published && t.spool.files == s.spool.files
                      && (r == Err(InvalidFrame) <==>
                            exists k :: 1 <= k < |p.path| && p.path[..k] in s.spool.files)
                      && (r == Err(InvalidFrame) || r == Err(DestinationUnavailable)))
                && (r.Ok? ==>
                      r.value == PublishView(entryId, p.payloadId, p.path, p.size, Stored(s.spool, p.handle)))
  {
    hide Find, Commit, FirstTaken, Folders;
    EntryKnown(s.entries, entryId);
    var i := IndexOfEntry(s.entries, entryId);
    if i < |s.entries| && s.entries[i].assembler.complete {
      var p := s.entries[i];
      assert Bound(s.spool, p);
      CommitAnswer(s.spool, p.handle, p.path);
      FoundIsOwn(s.spool, p.handle);
      StoredIsWritten(s, i);
      if Commit(s.spool, p.handle, p.path).1.Ok? {
        CommitPublishes(s.spool, p.handle, p.path);
      }
    }
  }

  lemma {:induction false} EntryKnown(entries: seq<Pending>, entryId: string)
    ensures IndexOfEntry(entries, entryId) == |entries|
            <==> forall k :: 0 <= k < |entries| ==> entries[k].entryId != entryId
    decreases |entries|
  {
    if entries == [] {
    } else {
      EntryKnown(entries[1..], entryId);
      assert forall k :: 1 <= k < |entries| ==> entries[k] == entries[1..][k - 1];
    }
  }
}
