/** The length-prefix layer of proto-quickshare/src/framing.rs: the decoder that is fed
    fragments, and the one-shot parser of the whole stream that it refines. */
module Framing {
  import opened Prelude

  const LENGTH_PREFIX_BYTES: nat := 4
  const DEFAULT_MAX_FRAME_BYTES: u32 := 5 * 1024 * 1024

  function EncodeFrame(payload: Bytes): (b: Bytes)
    ensures |b| == 4 + |payload|
  {
    BigEndian(4, |payload| % TWO_32) + payload
  }

  function EncodeFrames(payloads: seq<Bytes>): Bytes {
    if payloads == [] then [] else EncodeFrame(payloads[0]) + EncodeFrames(payloads[1..])
  }

  /** What a stream holds: the whole frames in front, what is left, and the refusal of the
      header the rest begins with, if it has to be refused. */
  datatype Drained = Drained(frames: seq<Bytes>, rest: Bytes, error: Option<ErrorCode>)

  function HeaderError(max: u32, len: nat): Option<ErrorCode> {
    if len == 0 then Some(InvalidFrame) else if len > max then Some(ResourceLimit) else None
  }

  /** The whole stream parsed at once. */
  function Drain(max: u32, s: Bytes): (d: Drained)
    decreases |s|
  {
    if |s| < LENGTH_PREFIX_BYTES then Drained([], s, None)
    else
      var len := FromBigEndian(s[..4]);
      if HeaderError(max, len).Some? then Drained([], s, HeaderError(max, len))
      else if |s| < 4 + len then Drained([], s, None)
      else
        var d := Drain(max, s[4 + len..]);
        d.(frames := [s[4..4 + len]] + d.frames)
  }

  class FrameDecoder {
    const maxFrameBytes: u32
    var buf: Bytes

    constructor (maxFrameBytes: u32)
      ensures this.maxFrameBytes == maxFrameBytes && buf == []
    {
      this.maxFrameBytes := maxFrameBytes;
      buf := [];
    }

    /** Takes every whole frame off the front. A refused header drops the frames taken in
        this call, but not the header: it stays in front and is refused again. */
    method Push(chunk: Bytes) returns (r: Result<seq<Bytes>>)
      modifies `buf
      ensures var d := Drain(maxFrameBytes, old(buf) + chunk);
              && buf == d.rest
              && r == if d.error.Some? then Err(d.error.value) else Ok(d.frames)
    {
      buf := buf + chunk;
      var out: seq<Bytes> := [];
      ghost var all := Drain(maxFrameBytes, buf);
      while true
        invariant var d := Drain(maxFrameBytes, buf);
                  all == d.(frames := out + d.frames)
        decreases |buf|
      {
        if |buf| < LENGTH_PREFIX_BYTES {
          break;
        }
        var len := FromBigEndian(buf[..4]);
        if len == 0 {
          return Err(InvalidFrame);
        }
        if len > maxFrameBytes {
          return Err(ResourceLimit);
        }
        if |buf| < 4 + len {
          break;
        }
        var frame := buf[4..4 + len];
        var rest := buf[4 + len..];
        Assoc(out, [frame], Drain(maxFrameBytes, rest).frames);
        buf, out := rest, out + [frame];
      }
      AppendNothing(out);
      return Ok(out);
    }
  }

  // ---------------------------------------------------------------- parser and printer

  lemma OneFrame(max: u32, payload: Bytes, more: Bytes)
    requires 0 < |payload| <= max
    ensures Drain(max, EncodeFrame(payload) + more) ==
            Drain(max, more).(frames := [payload] + Drain(max, more).frames)
  {
    hide BigEndian, FromBigEndian, Pow256;
    Pow256Values();
    BigEndianRoundTrip(4, |payload|);
    var head := BigEndian(4, |payload|);
    Assoc(head, payload, more);
    Split(head, payload + more);
    Split(payload, more);
    var s := EncodeFrame(payload) + more;
    assert s[4..] == payload + more;
    assert s[4..4 + |payload|] == s[4..][..|payload|];
    assert s[4 + |payload|..] == s[4..][|payload|..];
  }

  /** Printing frames and parsing the stream gives the frames back. */
  lemma {:induction false} DrainInvertsEncode(max: u32, payloads: seq<Bytes>)
    requires forall i :: 0 <= i < |payloads| ==> 0 < |payloads[i]| <= max
    ensures Drain(max, EncodeFrames(payloads)) == Drained(payloads, [], None)
    decreases |payloads|
  {
    if payloads == [] {
    } else {
      var tail := payloads[1..];
      DrainInvertsEncode(max, tail);
      OneFrame(max, payloads[0], EncodeFrames(tail));
      HeadTail(payloads);
    }
  }

  /** Nothing is lost or invented: every stream is its frames, printed, and its rest. */
  lemma {:induction false} EncodeInvertsDrain(max: u32, s: Bytes)
    ensures var d := Drain(max, s);
            && s == EncodeFrames(d.frames) + d.rest
            && (forall i :: 0 <= i < |d.frames| ==> 0 < |d.frames[i]| <= max)
            && (d.error.None? ==> |d.rest| < 4 + max)
    decreases |s|
  {
    var d := Drain(max, s);
    if |s| >= 4 && d.frames != [] {
      var len := FromBigEndian(s[..4]);
      EncodeInvertsDrain(max, s[4 + len..]);
      ReprintHead(max, s);
      var tail := Drain(max, s[4 + len..]);
      assert d.frames[1..] == tail.frames;
      Assoc(EncodeFrame(d.frames[0]), EncodeFrames(tail.frames), tail.rest);
    }
  }

  lemma ReprintHead(max: u32, s: Bytes)
    requires |s| >= 4 && 0 < FromBigEndian(s[..4]) <= max && |s| >= 4 + FromBigEndian(s[..4])
    ensures var len := FromBigEndian(s[..4]);
            EncodeFrame(s[4..4 + len]) + s[4 + len..] == s
  {
    var len := FromBigEndian(s[..4]);
    FromBigEndianInverse(s[..4]);
    assert s[..4] + s[4..4 + len] + s[4 + len..] == s;
  }

  // ---------------------------------------------------------------- fragments

  function Concat(chunks: seq<Bytes>): Bytes {
    if chunks == [] then [] else Concat(chunks[..|chunks| - 1]) + chunks[|chunks| - 1]
  }

  /** Everything successful pushes returned, and the buffer, after feeding the chunks. */
  datatype Fed = Fed(out: seq<Bytes>, buf: Bytes)

  function PushAll(max: u32, chunks: seq<Bytes>): Fed {
    if chunks == [] then Fed([], [])
    else
      var before := PushAll(max, chunks[..|chunks| - 1]);
      var d := Drain(max, before.buf + chunks[|chunks| - 1]);
      Fed(if d.error.None? then before.out + d.frames else before.out, d.rest)
  }

  /** Parsing can stop anywhere and resume with the rest in front of what comes next. */
  lemma {:induction false} DrainAppend(max: u32, a: Bytes, b: Bytes)
    ensures var d, e := Drain(max, a), Drain(max, Drain(max, a).rest + b);
            Drain(max, a + b) == e.(frames := d.frames + e.frames)
    decreases |a|
  {
    if |a| < 4 {
    } else {
      var len := FromBigEndian(a[..4]);
      Extend(a, 4, b);
      if HeaderError(max, len).None? && |a| >= 4 + len {
        DrainAppend(max, a[4 + len..], b);
        Extend(a, 4 + len, b);
        assert (a + b)[4..4 + len] == a[4..4 + len];
        var d := Drain(max, a[4 + len..]);
        Assoc([a[4..4 + len]], d.frames, Drain(max, d.rest + b).frames);
      }
    }
  }

  /** A refused header is refused again however the stream goes on. */
  lemma {:induction false} ErrorRepeats(max: u32, s: Bytes, more: Bytes)
    requires Drain(max, s).error.Some?
    ensures var rest := Drain(max, s).rest;
            Drain(max, rest + more) == Drained([], rest + more, Drain(max, s).error)
    decreases |s|
  {
    var len := FromBigEndian(s[..4]);
    if HeaderError(max, len).Some? {
      Extend(s, 4, more);
    } else {
      ErrorRepeats(max, s[4 + len..], more);
    }
  }

  /** Every way to cut a stream leaves the same buffer and delivers a prefix of the frames
      of the stream, all of them when no header of it is refused. */
  lemma {:induction false} ChunksRefineDrain(max: u32, chunks: seq<Bytes>)
    ensures var d, fed := Drain(max, Concat(chunks)), PushAll(max, chunks);
            && fed.buf == d.rest
            && fed.out <= d.frames
            && (d.error.None? ==> fed.out == d.frames)
    decreases |chunks|
  {
    if chunks == [] {
    } else {
      var before, last := chunks[..|chunks| - 1], chunks[|chunks| - 1];
      ChunksRefineDrain(max, before);
      DrainAppend(max, Concat(before), last);
      if Drain(max, Concat(before)).error.Some? {
        ErrorRepeats(max, Concat(before), last);
      }
    }
  }

  ghost predicate ChunkIndependent(max: u32, s: Bytes) {
    forall chunks: seq<Bytes> :: Concat(chunks) == s ==> PushAll(max, chunks).out == Drain(max, s).frames
  }

  /** Fragmentation is invisible exactly when no header is refused, or the refused one is the
      first: otherwise one push of everything loses the frames in front of it. */
  lemma ChunkIndependentIff(max: u32, s: Bytes)
    ensures ChunkIndependent(max, s) <==> (Drain(max, s).error.None? || Drain(max, s).frames == [])
  {
    var d := Drain(max, s);
    if d.error.None? || d.frames == [] {
      forall chunks: seq<Bytes> | Concat(chunks) == s
        ensures PushAll(max, chunks).out == d.frames
      {
        ChunksRefineDrain(max, chunks);
      }
    } else {
      var none: seq<Bytes> := [];
      assert [s][..0] == none && Concat(none) == [] && [] + s == s;
      assert Concat([s]) == s;
      assert PushAll(max, [s]).out == [];
    }
  }

  /** One frame and a header of length zero: pushed together the frame is lost, pushed apart it
      is delivered. */
  lemma LostInOnePush(max: u32, payload: Bytes)
    requires 0 < |payload| <= max
    ensures var (s, zero) := (EncodeFrame(payload) + [0, 0, 0, 0], [0, 0, 0, 0]);
            && Concat([s]) == Concat([EncodeFrame(payload), zero]) == s
            && PushAll(max, [s]).out == [] && PushAll(max, [EncodeFrame(payload), zero]).out == [payload]
  {
    var zero: Bytes := [0, 0, 0, 0];
    var s := EncodeFrame(payload) + zero;
    ZeroRefused(max, zero);
    OneFrame(max, payload, zero);
    CutDeliversAll(max, s);
    hide Drain, EncodeFrame;
    assert EncodeFrames([payload]) == EncodeFrame(payload) by {
      assert [payload][1..] == [];
      AppendNothing(EncodeFrame(payload));
    }
    var none: seq<Bytes> := [];
    assert [s][..0] == none && Concat(none) == [] && PushAll(max, none) == Fed([], []);
    assert [] + s == s && Concat([s]) == s && [payload] + none == [payload];
  }

  lemma ZeroRefused(max: u32, zero: Bytes)
    requires zero == [0, 0, 0, 0]
    ensures Drain(max, zero) == Drained([], zero, Some(InvalidFrame))
  {
    Pow256Values();
    assert zero[..4] == zero;
    assert FromBigEndian(zero) == 0 by { ZeroIsZero(zero); }
  }

  lemma {:induction false} ZeroIsZero(b: Bytes)
    requires forall i :: 0 <= i < |b| ==> b[i] == 0
    ensures FromBigEndian(b) == 0
  {
    if b == [] {
    } else {
      ZeroIsZero(b[..|b| - 1]);
    }
  }

  /** Cutting before the refused header does deliver the frames in front of it. */
  lemma CutDeliversAll(max: u32, s: Bytes)
    ensures var d := Drain(max, s);
            var chunks := [EncodeFrames(d.frames), d.rest];
            Concat(chunks) == s && PushAll(max, chunks).out == d.frames
  {
    hide Drain, EncodeFrames;
    var d := Drain(max, s);
    var a, b := EncodeFrames(d.frames), d.rest;
    EncodeInvertsDrain(max, s);
    DrainInvertsEncode(max, d.frames);
    var none: seq<Bytes> := [];
    assert [a, b][..1] == [a] && [a][..0] == none;
    assert Concat([a]) == [] + a == a;
    assert Concat([a, b]) == Concat([a]) + b;
    ChunksRefineDrain(max, [a, b]);
    assert PushAll(max, []) == Fed([], []);
    assert PushAll(max, [a]) == Fed(d.frames, []) by {
      assert Drain(max, [] + a) == Drained(d.frames, [], None);
      assert [] + d.frames == d.frames;
    }
    assert d.frames <= PushAll(max, [a, b]).out;
  }
}
