/** What arrives: a session that is fed what a connection opened, in order, as the loop of
    `run_transport_chain` in interop-demo/src/quickshare.rs feeds it. */
module Deliveries {
  import opened Prelude
  import opened Wire
  import opened Offline
  import opened Payload
  import opened SpoolNames
  import opened Spool
  import opened Receive
  import opened Introductions
  import opened ReceiveRuns
  import opened SecureChannel
  import opened Transfers
  import opened EndToEnd

  /** Every plaintext that parses is handed to the session; the others are dropped. */
  function Feed(s: ReceiveState, plaintexts: seq<Bytes>): ReceiveState {
    if plaintexts == [] then s
    else
      var n := |plaintexts| - 1;
      var f := DecodeTransfer(plaintexts[n]);
      if f.Ok? then OnPayload(Feed(s, plaintexts[..n]), f.value).0 else Feed(s, plaintexts[..n])
  }

  function FrameOps(plaintexts: seq<Bytes>): seq<ReceiveOp> {
    if plaintexts == [] then []
    else
      var n := |plaintexts| - 1;
      var f := DecodeTransfer(plaintexts[n]);
      if f.Ok? then FrameOps(plaintexts[..n]) + [Frame(f.value)] else FrameOps(plaintexts[..n])
  }

  /** Such a session is one of those the safety theorem speaks of. */
  lemma {:induction false} FeedIsRun(s: ReceiveState, plaintexts: seq<Bytes>)
    ensures Feed(s, plaintexts) == RunOps(s, FrameOps(plaintexts))
    ensures NoHarm(s, FrameOps(plaintexts)) && FedFrom(FrameOps(plaintexts), plaintexts)
    decreases |plaintexts|
  {
    hide DecodeTransfer, OnPayload;
    if plaintexts == [] {
    } else {
      var n := |plaintexts| - 1;
      var ops := FrameOps(plaintexts[..n]);
      FeedIsRun(s, plaintexts[..n]);
      if DecodeTransfer(plaintexts[n]).Ok? {
        var op := Frame(DecodeTransfer(plaintexts[n]).value);
        assert (ops + [op])[..|ops|] == ops;
        FedOneMore(ops, op, plaintexts);
      } else {
        FedMore(ops, plaintexts);
      }
    }
  }

  lemma FedMore(ops: seq<ReceiveOp>, plaintexts: seq<Bytes>)
    requires plaintexts != [] && FedFrom(ops, plaintexts[..|plaintexts| - 1])
    ensures FedFrom(ops, plaintexts)
  {
    hide DecodeTransfer;
    var before := plaintexts[..|plaintexts| - 1];
    forall i | 0 <= i < |ops| && ops[i].Frame?
      ensures exists j :: 0 <= j < |plaintexts| && DecodeTransfer(plaintexts[j]) == Ok(ops[i].frame)
    {
      var j :| 0 <= j < |before| && DecodeTransfer(before[j]) == Ok(ops[i].frame);
      assert plaintexts[j] == before[j];
    }
  }

  lemma FedOneMore(ops: seq<ReceiveOp>, op: ReceiveOp, plaintexts: seq<Bytes>)
    requires plaintexts != [] && FedFrom(ops, plaintexts[..|plaintexts| - 1])
    requires op.Frame? && DecodeTransfer(plaintexts[|plaintexts| - 1]) == Ok(op.frame)
    ensures FedFrom(ops + [op], plaintexts)
  {
    hide DecodeTransfer;
    FedMore(ops, plaintexts);
    assert (ops + [op])[|ops|] == op;
  }

  // ---------------------------------------------------------------- one file among others

  /** An entry is set up for this file, the first of its payload id, with nothing received. */
  ghost predicate Ready(s: ReceiveState, x: Transfer) {
    && Coupled(s)
    && var e := IndexOfPayload(s.entries, x.id);
       && e < |s.entries| && s.entries[e].size == |x.content|
       && IndexOfEntry(s.entries, s.entries[e].entryId) == e
       && s.entries[e].assembler == Assembler(s.entries[e].assembler.header, 0, false)
       && Stored(s.spool, s.entries[e].handle) == []
  }

  /** The entry of the file. */
  function EntryFor(s: ReceiveState, x: Transfer): Pending
    requires IndexOfPayload(s.entries, x.id) < |s.entries|
  {
    s.entries[IndexOfPayload(s.entries, x.id)]
  }

  /** Nothing but assemblers and contents of temporary files is different. */
  ghost predicate SameShape(s: ReceiveState, t: ReceiveState) {
    && |t.entries| == |s.entries|
    && (forall i :: 0 <= i < |s.entries| ==> t.entries[i] == s.entries[i].(assembler := t.entries[i].assembler))
    && t.spool.dirs == s.spool.dirs && t.spool.files.Keys == s.spool.files.Keys
    && t.published == s.published && t.budget == s.budget
  }

  lemma {:induction false} SameIndex(a: seq<Pending>, b: seq<Pending>, id: i64, entryId: string)
    requires |a| == |b|
    requires forall i :: 0 <= i < |a| ==> a[i].payloadId == b[i].payloadId && a[i].entryId == b[i].entryId
    ensures IndexOfPayload(a, id) == IndexOfPayload(b, id) && IndexOfEntry(a, entryId) == IndexOfEntry(b, entryId)
    decreases |a|
  {
    if a == [] {
    } else {
      SameIndex(a[1..], b[1..], id, entryId);
    }
  }

  lemma FrameKeepsShape(s: ReceiveState, t: ReceiveState, frame: TransferFrame)
    requires SameShape(s, t) && Coupled(t) && !frame.packetType.Control?
    ensures SameShape(s, OnPayload(t, frame).0) && Coupled(OnPayload(t, frame).0)
  {
    hide Coupled, OnData, Target;
    if frame.packetType.Data? {
      DataFrameStep(t, frame);
      DataKeepsDirs(t, frame);
      if Target(t, frame).Some? {
        TargetExists(t, frame);
        TakenShape(t, frame);
      }
    }
  }

  lemma DataKeepsDirs(t: ReceiveState, frame: TransferFrame)
    ensures OnData(t, frame).0.spool.dirs == t.spool.dirs
    ensures OnData(t, frame).0.published == t.published && OnData(t, frame).0.budget == t.budget
  {
  }

  /** The session after exactly the first `k` chunks of the file were taken, whatever else was. */
  ghost predicate AfterChunks(s: ReceiveState, x: Transfer, k: nat, t: ReceiveState)
    requires IndexOfPayload(s.entries, x.id) < |s.entries|
  {
    && Coupled(t) && SameShape(s, t)
    && var (p, q) := (EntryFor(s, x), t.entries[IndexOfPayload(s.entries, x.id)]);
       && q.assembler == Assembler(p.assembler.header, Start(x, k), Start(x, k) == |x.content|)
       && Stored(t.spool, p.handle) == x.content[..Start(x, k)]
  }

  lemma ReadyStart(s: ReceiveState, x: Transfer)
    requires Ready(s, x) && Sendable(x)
    ensures IndexOfPayload(s.entries, x.id) < |s.entries| && AfterChunks(s, x, 0, s)
  {
    hide Coupled, Stored;
    assert x.content[..0] == [];
  }

  lemma BoundHeader(t: ReceiveState, i: nat)
    requires Coupled(t) && i < |t.entries|
    ensures var h := t.entries[i].assembler.header; h.id == t.entries[i].payloadId && h.totalSize == t.entries[i].size
  {
    hide Sound, Find;
    assert Bound(t.spool, t.entries[i]);
  }

  /** The entry that frames of the file go to, now that `k` chunks were taken. */
  lemma EntryNow(s: ReceiveState, x: Transfer, k: nat, t: ReceiveState)
    requires Ready(s, x) && AfterChunks(s, x, k, t)
    ensures var e := IndexOfPayload(s.entries, x.id);
            && IndexOfPayload(t.entries, x.id) == e < |t.entries|
            && t.entries[e].assembler
               == Assembler(t.entries[e].assembler.header, Start(x, k), Start(x, k) == |x.content|)
            && t.entries[e].assembler.header.id == x.id && t.entries[e].assembler.header.totalSize == |x.content|
  {
    hide Coupled, Stored;
    SameIndex(s.entries, t.entries, x.id, "");
    BoundHeader(t, IndexOfPayload(s.entries, x.id));
  }

  lemma NextChunkPasses(s: ReceiveState, x: Transfer, k: nat, t: ReceiveState)
    requires Sendable(x) && HasChunk(x, k) && Ready(s, x) && AfterChunks(s, x, k, t)
    ensures var e := IndexOfPayload(s.entries, x.id);
            && IndexOfPayload(t.entries, x.id) == e < |t.entries|
            && Check(t.entries[e].assembler, FrameAt(x, k)) == Ok(FrameAt(x, k).chunk.value)
            && FrameAt(x, k).chunk.value.IsLast() == (Start(x, k + 1) == |x.content|)
  {
    EntryNow(s, x, k, t);
    hide *;
    ChunkPasses(x, k, t.entries[IndexOfPayload(s.entries, x.id)].assembler);
  }

  lemma ChunkPasses(x: Transfer, k: nat, a: Assembler)
    requires Sendable(x) && HasChunk(x, k) && a.header.id == x.id && a.header.totalSize == |x.content|
    requires a.written == Start(x, k) && a.complete == (Start(x, k) == |x.content|)
    ensures Check(a, FrameAt(x, k)) == Ok(FrameAt(x, k).chunk.value)
    ensures FrameAt(x, k).chunk.value.IsLast() == (Start(x, k + 1) == |x.content|)
  {
    PartBounds(x, k);
    hide HasChunk, Start, Part;
  }

  /** In sync: the next chunk is taken. */
  lemma NextChunkTaken(s: ReceiveState, x: Transfer, k: nat, t: ReceiveState)
    requires Sendable(x) && HasChunk(x, k) && Ready(s, x) && AfterChunks(s, x, k, t)
    ensures AfterChunks(s, x, k + 1, OnPayload(t, FrameAt(x, k)).0)
    ensures OnPayload(t, FrameAt(x, k)).1.Ok?
  {
    var f := FrameAt(x, k);
    PartBounds(x, k);
    NextChunkPasses(s, x, k, t);
    hide Coupled, Stored, OnData, Check, Start, Part, HasChunk;
    DataFrameStep(t, f);
    TakenShape(t, f);
    FrameKeepsShape(s, t, f);
  }

  /** Out of step: a chunk that is not the next one is refused and nothing changes. */
  lemma OtherChunkRefused(s: ReceiveState, x: Transfer, j: nat, k: nat, t: ReceiveState)
    requires Sendable(x) && HasChunk(x, k) && (j > 0 ==> HasChunk(x, j - 1))
    requires Ready(s, x) && AfterChunks(s, x, j, t) && j != k
    ensures OnPayload(t, FrameAt(x, k)).0 == t
  {
    EntryNow(s, x, j, t);
    hide Ready, AfterChunks, IndexOfPayload;
    OtherOffset(x, j, k);
    assert Check(t.entries[IndexOfPayload(s.entries, x.id)].assembler, FrameAt(x, k)).Err?;
  }

  lemma OtherOffset(x: Transfer, j: nat, k: nat)
    requires Sendable(x) && HasChunk(x, k) && (j > 0 ==> HasChunk(x, j - 1)) && j != k
    ensures k * x.chunk != Start(x, j) || Start(x, j) == |x.content|
  {
    if j < k {
      EarlierChunk(x, j, k);
    } else {
      EarlierChunk(x, k, j - 1);
      PartBounds(x, j - 1);
    }
  }

  /** A frame that is for other payload ids, or for none, leaves this entry as it was. */
  lemma OthersFrameIgnored(s: ReceiveState, x: Transfer, k: nat, t: ReceiveState, frame: TransferFrame)
    requires Ready(s, x) && AfterChunks(s, x, k, t) && !frame.packetType.Control? && !ForId(x.id, frame)
    ensures AfterChunks(s, x, k, OnPayload(t, frame).0)
  {
    hide Coupled, Stored, OnData, Check;
    SameIndex(s.entries, t.entries, x.id, "");
    FrameKeepsShape(s, t, frame);
    if frame.packetType.Data? {
      DataFrameStep(t, frame);
      if Target(t, frame).Some? {
        TakenShape(t, frame);
      }
    }
  }

  /** Whatever of the file comes, in any order and as often as it likes, with whatever frames
      of others in between: what is taken are its first `j` chunks, once each. */
  lemma {:induction false} FeedTakesPrefix(s: ReceiveState, x: Transfer, plaintexts: seq<Bytes>) returns (j: nat)
    requires Ready(s, x) && OnlyChunks(x, plaintexts) && NoCancel(plaintexts)
    ensures (j > 0 ==> HasChunk(x, j - 1)) && AfterChunks(s, x, j, Feed(s, plaintexts))
    decreases |plaintexts|
  {
    hide Ready, AfterChunks, DecodeTransfer, OnPayload, ChunkOf, Chunks;
    if plaintexts == [] {
      j := 0;
      ReadyStart(s, x);
    } else {
      var n := |plaintexts| - 1;
      j := FeedTakesPrefix(s, x, plaintexts[..n]);
      var t, f := Feed(s, plaintexts[..n]), DecodeTransfer(plaintexts[n]);
      if f.Ok? {
        assert !IsCancel(plaintexts[n]);
        j := OneMoreFrame(s, x, j, t, f.value);
      }
    }
  }

  lemma OneMoreFrame(s: ReceiveState, x: Transfer, j: nat, t: ReceiveState, frame: TransferFrame) returns (j': nat)
    requires Sendable(x) && Ready(s, x) && AfterChunks(s, x, j, t) && (j > 0 ==> HasChunk(x, j - 1))
    requires !frame.packetType.Control? && (ForId(x.id, frame) ==> ChunkOf(x, frame))
    ensures (j' > 0 ==> HasChunk(x, j' - 1)) && AfterChunks(s, x, j', OnPayload(t, frame).0)
  {
    hide Ready, AfterChunks, OnPayload;
    j' := j;
    if ForId(x.id, frame) {
      var k: nat :| HasChunk(x, k) && frame == FrameAt(x, k);
      if j == k {
        NextChunkTaken(s, x, k, t);
        j' := j + 1;
      } else {
        OtherChunkRefused(s, x, j, k, t);
      }
    } else {
      OthersFrameIgnored(s, x, j, t, frame);
    }
  }

  /** When what comes of the file are its first `n` chunks in order, all of them are taken. */
  lemma {:induction false} FeedTakesAll(s: ReceiveState, x: Transfer, plaintexts: seq<Bytes>, n: nat)
    requires Sendable(x) && Ready(s, x) && NoCancel(plaintexts) && (n > 0 ==> HasChunk(x, n - 1))
    requires FramesFor(x.id, plaintexts) == Chunks(x, n)
    ensures AfterChunks(s, x, n, Feed(s, plaintexts))
    decreases |plaintexts|
  {
    hide Ready, AfterChunks, DecodeTransfer, OnPayload, FrameAt, HasChunk;
    if plaintexts == [] {
      ReadyStart(s, x);
    } else {
      var before, last := plaintexts[..|plaintexts| - 1], plaintexts[|plaintexts| - 1];
      assert !IsCancel(last);
      if IsFor(x.id, last) {
        EarlierToo(x, n - 1);
        LastAppended(Chunks(x, n));
        LastAppended(FramesFor(x.id, plaintexts));
        FeedTakesAll(s, x, before, n - 1);
        NextChunkTaken(s, x, n - 1, Feed(s, before));
      } else {
        FeedTakesAll(s, x, before, n);
        if DecodeTransfer(last).Ok? {
          OthersFrameIgnored(s, x, n, Feed(s, before), DecodeTransfer(last).value);
        }
      }
    }
  }

  // ---------------------------------------------------------------- publishing it

  /** After all of its chunks the file is published, unless something stands in its way. */
  lemma PublishAfter(s: ReceiveState, x: Transfer, j: nat, t: ReceiveState)
    requires Ready(s, x) && AfterChunks(s, x, j, t) && DirsClosed(s.spool.dirs)
    ensures var p := EntryFor(s, x);
            var (u, r) := FinishEntry(t, p.entryId);
            && (r.Ok? <==> Start(x, j) == |x.content| && Publishable(s.spool, p.path))
            && (r.Ok? ==>
                  && FileIs(u.spool, p.path, x.content)
                  && r.value == PublishView(p.entryId, x.id, p.path, |x.content|, x.content)
                  && u.published == s.published + [r.value])
  {
    hide DirsClosed, Stored, Coupled, Commit;
    SameIndex(s.entries, t.entries, x.id, EntryFor(s, x).entryId);
    PublishableKept(s, t, EntryFor(s, x).path);
    hide Publishable;
    FinishPublishes(t, EntryFor(s, x).entryId);
    assert x.content[..|x.content|] == x.content;
  }

  lemma PublishableKept(s: ReceiveState, t: ReceiveState, path: FinalPath)
    requires SameShape(s, t)
    ensures Publishable(s.spool, path) <==> Publishable(t.spool, path)
  {
  }

  /** Liveness: over a lossless connection, whatever else was sealed on it before, between and
      after, a file whose chunks were sealed in order is published - in a folder or not, in a
      session with any number of entries - exactly when nothing stands in the way of its path. */
  lemma LosslessPublishes(c: Suite, k: DirectionKeys, messages: seq<(Bytes, Bytes)>, x: Transfer, n: nat,
      s: ReceiveState)
    requires c.DecryptInverts() && AllFit(c, k, messages) && NoCancel(Plaintexts(messages))
    requires Sendable(x) && n > 0 && HasChunk(x, n - 1) && !HasChunk(x, n)
    requires FramesFor(x.id, Plaintexts(messages)) == Chunks(x, n)
    requires Ready(s, x) && DirsClosed(s.spool.dirs)
    ensures var l, p := RunLink(c, k, Lossless(c, k, messages)), EntryFor(s, x);
            var (u, r) := FinishEntry(Feed(s, l.received), p.entryId);
            && (r.Ok? <==> Publishable(s.spool, p.path))
            && (r.Ok? ==>
                  && FileIs(u.spool, p.path, x.content)
                  && r.value == PublishView(p.entryId, x.id, p.path, |x.content|, x.content))
  {
    hide *;
    LosslessDeliversAll(c, k, messages);
    FeedTakesAll(s, x, Plaintexts(messages), n);
    PartBounds(x, n - 1);
    PublishAfter(s, x, n, Feed(s, Plaintexts(messages)));
  }

  // ---------------------------------------------------------------- what the demonstration seals

  lemma NoVersion(text: Bytes)
    requires text != [] && text[0] < 128 && text[0] != 8
    ensures ReadVersion(text).Err?
  {
    hide ReadVarintAt;
    assert ReadVarint(text) == Ok((text[0], text[1..])) by { OneByteVarint(text); }
  }

  lemma OneByteVarint(text: Bytes)
    requires text != [] && text[0] < 128
    ensures ReadVarint(text) == Ok((text[0], text[1..]))
  {
  }

  /** What begins with an ordinary letter, as the greeting of the demonstration does, is no frame. */
  lemma TextIsNoFrame(text: Bytes)
    requires text != [] && text[0] < 128 && text[0] != 8
    ensures DecodeTransfer(text).Err? && !IsCancel(text) && forall id: i64 :: !IsFor(id, text)
  {
    hide ReadVersion, DecodeV1, DecodeBody;
    NoVersion(text);
  }

  /** The greeting, then the chunks, with the vectors they are sealed under. */
  function DemoMessages(greeting: (Bytes, Bytes), x: Transfer, ivs: seq<Bytes>): (m: seq<(Bytes, Bytes)>)
    requires Sendable(x) && |ivs| > 0 && HasChunk(x, |ivs| - 1)
    ensures |m| == |ivs| + 1 && m[0] == greeting
    ensures forall i :: 0 <= i < |ivs| ==> m[i + 1] == (Plain(x, |ivs|)[i], ivs[i])
  {
    [greeting] + seq(|ivs|, i requires 0 <= i < |ivs| => (Plain(x, |ivs|)[i], ivs[i]))
  }

  lemma ChunkMessageFits(c: Suite, k: DirectionKeys, x: Transfer, i: nat, sequence: i32, iv: Bytes)
    requires c.BlockLengths() && Sendable(x) && x.chunk <= MAX_FIELD_BYTES - 1024
    requires HasChunk(x, i) && |iv| == IV_BYTES
    ensures Readable(x, i) && Fits(c, k, sequence, FramePlaintext(x, i), iv)
  {
    hide Fits, FramePlaintext, Readable, HasChunk;
    ChunkFits(x, i);
    PlaintextFits(c, k, sequence, FramePlaintext(x, i), iv);
  }

  /** A greeting that is no frame, and chunks that leave room for the envelopes: all of them
      fit, and what of them is for the file are its chunks in order. */
  lemma DemoMessagesFit(c: Suite, k: DirectionKeys, greeting: (Bytes, Bytes), x: Transfer, ivs: seq<Bytes>)
    requires c.BlockLengths() && Sendable(x) && x.chunk <= MAX_FIELD_BYTES - 1024
    requires |ivs| > 0 && HasChunk(x, |ivs| - 1) && forall i :: 0 <= i < |ivs| ==> |ivs[i]| == IV_BYTES
    requires |greeting.0| <= MAX_FIELD_BYTES - 256 && |greeting.1| == IV_BYTES && DecodeTransfer(greeting.0).Err?
    ensures var m := DemoMessages(greeting, x, ivs);
            && AllFit(c, k, m) && NoCancel(Plaintexts(m))
            && FramesFor(x.id, Plaintexts(m)) == Chunks(x, |ivs|)
  {
    hide Fits, FramePlaintext, Readable, DecodeTransfer, HasChunk, Plain, Sendable, IsFor, IsCancel, NoCancel,
         SequenceNumber, FramesFor, Chunks;
    var m := DemoMessages(greeting, x, ivs);
    forall i | 0 <= i < |m| ensures |m[i].1| == IV_BYTES && Fits(c, k, SequenceNumber(i), m[i].0, m[i].1) {
      DemoMessageFits(c, k, greeting, x, ivs, i);
    }
    forall i | 0 <= i < |ivs| ensures HasChunk(x, i) && Readable(x, i) {
      PlainAt(x, |ivs|, i);
      ChunkMessageFits(c, k, x, i, 1, ivs[i]);
    }
    assert Plaintexts(m) == [greeting.0] + Plain(x, |ivs|);
    GreetedFrames(x, greeting.0, |ivs|);
  }

  lemma DemoMessageFits(c: Suite, k: DirectionKeys, greeting: (Bytes, Bytes), x: Transfer, ivs: seq<Bytes>, i: nat)
    requires c.BlockLengths() && Sendable(x) && x.chunk <= MAX_FIELD_BYTES - 1024
    requires |ivs| > 0 && HasChunk(x, |ivs| - 1) && forall i :: 0 <= i < |ivs| ==> |ivs[i]| == IV_BYTES
    requires |greeting.0| <= MAX_FIELD_BYTES - 256 && |greeting.1| == IV_BYTES && i <= |ivs|
    ensures var m := DemoMessages(greeting, x, ivs)[i];
            |m.1| == IV_BYTES && Fits(c, k, SequenceNumber(i), m.0, m.1)
  {
    hide Fits, FramePlaintext, Readable, HasChunk, Plain, Sendable, SequenceNumber;
    if i == 0 {
      PlaintextFits(c, k, SequenceNumber(0), greeting.0, greeting.1);
    } else {
      assert DemoMessages(greeting, x, ivs)[i - 1 + 1] == (Plain(x, |ivs|)[i - 1], ivs[i - 1]);
      PlainAt(x, |ivs|, i - 1);
      ChunkMessageFits(c, k, x, i - 1, SequenceNumber(i), ivs[i - 1]);
    }
  }

  lemma {:induction false} GreetedFrames(x: Transfer, greeting: Bytes, n: nat)
    requires Sendable(x) && (n > 0 ==> HasChunk(x, n - 1)) && DecodeTransfer(greeting).Err?
    requires forall i :: 0 <= i < n ==> HasChunk(x, i) && Readable(x, i)
    ensures NoCancel([greeting] + Plain(x, n)) && FramesFor(x.id, [greeting] + Plain(x, n)) == Chunks(x, n)
    decreases n
  {
    hide DecodeTransfer, FrameAt, FramePlaintext, Readable, HasChunk;
    if n == 0 {
      assert [greeting] + Plain(x, 0) == [greeting] && [greeting][..0] == [];
    } else {
      EarlierToo(x, n - 1);
      GreetedFrames(x, greeting, n - 1);
      assert Plain(x, n) == Plain(x, n - 1) + [FramePlaintext(x, n - 1)];
      assert Chunks(x, n) == Chunks(x, n - 1) + [FrameAt(x, n - 1)];
      assert [greeting] + Plain(x, n) == [greeting] + Plain(x, n - 1) + [FramePlaintext(x, n - 1)];
      hide Plain, Chunks;
      OneMoreChunk(x, [greeting] + Plain(x, n - 1), n - 1);
    }
  }

  lemma OneMoreChunk(x: Transfer, before: seq<Bytes>, k: nat)
    requires Sendable(x) && HasChunk(x, k) && Readable(x, k) && NoCancel(before)
    ensures NoCancel(before + [FramePlaintext(x, k)])
    ensures FramesFor(x.id, before + [FramePlaintext(x, k)]) == FramesFor(x.id, before) + [FrameAt(x, k)]
  {
    FrameParses(x, k);
    FrameIsFor(x, k);
    hide DecodeTransfer, FrameAt, FramePlaintext, Readable, HasChunk;
    assert (before + [FramePlaintext(x, k)])[..|before|] == before;
  }

  lemma FrameIsFor(x: Transfer, k: nat)
    requires Sendable(x) && HasChunk(x, k)
    ensures ForId(x.id, FrameAt(x, k)) && !FrameAt(x, k).packetType.Control?
  {
  }

  // ---------------------------------------------------------------- a fresh session

  /** A fresh session that accepts one file is ready for it. */
  lemma IntroducedIsReady(root: string, budget: u64, o: FileOffer, x: Transfer)
    requires CleanRoot(root) && o.size == |x.content| <= budget && o.payloadId == x.id
    requires Sanitary(o.parent, o.name) && ValidOffer(o.parent, o.name)
    ensures var (s, r) := OnIntroduction(FreshState(root, budget), [o], Accept);
            && r == Ok(Accepted) && Ready(s, x) && |s.entries| == 1
            && s.spool.dirs == {} && s.published == [] && EntryFor(s, x).path == Components(o.parent, o.name)
            && (|EntryFor(s, x).path| == 1 ==> Publishable(s.spool, EntryFor(s, x).path))
  {
    hide CleanRoot, Sanitary, ValidOffer, OnIntroduction, EntryId, TempName, Bound, Components;
    var s0 := FreshState(root, budget);
    SumOfOne(o);
    assert Passes(s0, [o], Accept);
    assert NameFree(s0, 0, 0) && [o][0] == o;
    assert Settable(s0, [o], 0, 0);
    assert FirstRefused(s0, [o], 0, 0) == 1;
    IntroductionOutcome(s0, [o], Accept);
    IntroductionKeepsCouplingIff(s0, [o], Accept);
    var s := OnIntroduction(s0, [o], Accept).0;
    assert Established(s, [o][0 + (0 - |s0.entries|)], s.entries[0], 1);
    EstablishedBoundIff(s, o, s.entries[0], 1);
  }
}
