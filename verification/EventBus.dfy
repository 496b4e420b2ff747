/** The bounded event log of interop-runtime/src/events.rs: two limits, eviction from the
    old end, and cursors that either continue without a hole or are told there is one. */
module EventBus {
  import opened Prelude

  const EVENT_OVERHEAD: nat := 64

  datatype Event = Event(instanceId: string, sequence: nat, sessionId: Option<string>, kind: string, data: string,
      bytes: nat)

  datatype Limits = Limits(maxEntries: nat, maxTotalBytes: nat)

  datatype SubscribeResult = Events(events: seq<Event>, nextCursor: nat) | Gap(snapshotAdvice: nat)

  function TotalBytes(events: seq<Event>): (n: nat) {
    if events == [] then 0 else events[0].bytes + TotalBytes(events[1..])
  }

  predicate Within(limits: Limits, events: seq<Event>) {
    |events| <= limits.maxEntries && TotalBytes(events) <= limits.maxTotalBytes
  }

  /** The longest end of a log that keeps both limits. */
  function LongestSuffix(limits: Limits, log: seq<Event>): (s: seq<Event>)
    ensures Within(limits, s) && |s| <= |log|
  {
    if Within(limits, log) then log
    else if log == [] then []
    else LongestSuffix(limits, log[1..])
  }

  lemma {:induction false} SuffixIsSlice(limits: Limits, log: seq<Event>)
    ensures LongestSuffix(limits, log) == log[|log| - |LongestSuffix(limits, log)|..]
    decreases |log|
  {
    if !Within(limits, log) && log != [] {
      SuffixIsSlice(limits, log[1..]);
    } else if log != [] {
      assert log[0..] == log;
    }
  }

  lemma {:induction false} TotalBytesAppend(a: seq<Event>, b: seq<Event>)
    ensures TotalBytes(a + b) == TotalBytes(a) + TotalBytes(b)
    decreases |a|
  {
    if a == [] {
      assert a + b == b;
    } else {
      Extend(a, 1, b);
      TotalBytesAppend(a[1..], b);
    }
  }

  /** No longer end would do. */
  lemma {:induction false} SuffixIsLongest(limits: Limits, log: seq<Event>, k: nat)
    requires k <= |log| && Within(limits, log[k..])
    ensures |log| - k <= |LongestSuffix(limits, log)|
    decreases k
  {
    if !Within(limits, log) && log != [] && k > 0 {
      assert log[k..] == log[1..][k - 1..];
      SuffixIsLongest(limits, log[1..], k - 1);
    } else if k == 0 {
      assert log[0..] == log;
    }
  }

  /** Evicting before or after an event is appended comes to the same. */
  lemma {:induction false} SuffixOfAppended(limits: Limits, log: seq<Event>, e: Event)
    ensures LongestSuffix(limits, log + [e]) == LongestSuffix(limits, LongestSuffix(limits, log) + [e])
    decreases |log|
  {
    if !Within(limits, log) && log != [] {
      Extend(log, 1, [e]);
      TotalBytesAppend(log, [e]);
      SuffixOfAppended(limits, log[1..], e);
    } else if log == [] {
      assert log + [e] == [e];
    }
  }

  /** Sequence numbers count the log from one. */
  ghost predicate Published(log: seq<Event>) {
    forall i :: 0 <= i < |log| ==> log[i].sequence == i + 1
  }

  lemma AppendedIsPublished(log: seq<Event>, e: Event)
    requires Published(log) && e.sequence == |log| + 1
    ensures Published(log + [e])
  {
  }

  lemma AppendBytes(buffer: seq<Event>, e: Event)
    ensures TotalBytes(buffer + [e]) == TotalBytes(buffer) + e.bytes
  {
    TotalBytesAppend(buffer, [e]);
    assert [e][1..] == [];
  }

  class Bus {
    const instanceId: string
    const limits: Limits
    var buffer: seq<Event>
    var totalBytes: nat
    var nextSeq: nat
    /** Everything ever published. */
    ghost var log: seq<Event>

    /** The buffer is the longest end of the log that the limits allow. */
    ghost predicate Valid()
      reads this
    {
      && totalBytes == TotalBytes(buffer)
      && nextSeq == |log| + 1
      && Published(log)
      && buffer == LongestSuffix(limits, log)
    }

    constructor (instanceId: string, limits: Limits)
      ensures Valid() && log == [] && this.instanceId == instanceId && this.limits == limits
    {
      this.instanceId, this.limits := instanceId, limits;
      buffer, totalBytes, nextSeq, log := [], 0, 1, [];
    }

    /** Appends, then evicts from the old end until both limits hold. */
    method Publish(sessionId: Option<string>, kind: string, data: string) returns (seqNo: nat)
      requires Valid()
      modifies `log, `buffer, `totalBytes, `nextSeq
      ensures Valid() && seqNo == |log|
      ensures log == old(log) + [Event(instanceId, seqNo, sessionId, kind, data, |data| + |kind| + EVENT_OVERHEAD)]
    {
      hide LongestSuffix, TotalBytes, Published;
      seqNo := nextSeq;
      nextSeq := nextSeq + 1;
      var event := Event(instanceId, seqNo, sessionId, kind, data, |data| + |kind| + EVENT_OVERHEAD);
      AppendedIsPublished(log, event);
      SuffixOfAppended(limits, log, event);
      AppendBytes(buffer, event);
      log := log + [event];
      buffer := buffer + [event];
      totalBytes := totalBytes + event.bytes;
      Evict(LongestSuffix(limits, log));
    }

    /** The eviction loop: from the old end, until both limits hold. */
    method Evict(ghost target: seq<Event>)
      requires totalBytes == TotalBytes(buffer) && LongestSuffix(limits, buffer) == target
      modifies `buffer, `totalBytes
      ensures totalBytes == TotalBytes(buffer) && buffer == target
    {
      while |buffer| > limits.maxEntries || totalBytes > limits.maxTotalBytes
        invariant totalBytes == TotalBytes(buffer)
        invariant LongestSuffix(limits, buffer) == target
        decreases |buffer|
      {
        if buffer == [] {
          break;
        }
        totalBytes := totalBytes - buffer[0].bytes;
        buffer := buffer[1..];
      }
    }

    function LastSequence(): nat
      reads this
    {
      if buffer == [] then 0 else buffer[|buffer| - 1].sequence
    }

    /** Filters the buffer, unless the cursor lies before its oldest event. */
    method SubscribeAfter(after: nat) returns (r: SubscribeResult)
      requires Valid()
      ensures r == Answer(buffer, nextSeq, after)
    {
      hide LongestSuffix, TotalBytes, After;
      HeldRun(limits, log);
      var oldest := if buffer == [] then nextSeq else buffer[0].sequence;
      if after > 0 && after < oldest - 1 {
        r := Gap(LastSequence());
      } else {
        var events := Newer(after);
        r := Events(events, if events == [] then after else events[|events| - 1].sequence);
      }
    }

    method Newer(after: nat) returns (events: seq<Event>)
      ensures events == After(buffer, after)
    {
      events := [];
      var i := 0;
      while i < |buffer|
        invariant i <= |buffer|
        invariant After(buffer, after) == events + After(buffer[i..], after)
      {
        AfterStep(buffer, i, after);
        if buffer[i].sequence > after {
          Assoc(events, [buffer[i]], After(buffer[i + 1..], after));
          events := events + [buffer[i]];
        } else {
          assert [] + After(buffer[i + 1..], after) == After(buffer[i + 1..], after);
        }
        i := i + 1;
      }
      assert buffer[i..] == [];
      AppendNothing(events);
    }
  }

  /** The buffer carries consecutive sequence numbers that end on the newest. */
  lemma HeldRun(limits: Limits, log: seq<Event>)
    requires Published(log)
    ensures var s := LongestSuffix(limits, log);
            && |s| <= |log|
            && forall i :: 0 <= i < |s| ==> s[i].sequence == |log| - |s| + 1 + i
  {
    hide LongestSuffix;
    SuffixIsSlice(limits, log);
  }

  function After(events: seq<Event>, after: nat): (r: seq<Event>)
    decreases |events|
  {
    if events == [] then []
    else (if events[0].sequence > after then [events[0]] else []) + After(events[1..], after)
  }

  lemma AfterStep(events: seq<Event>, i: nat, after: nat)
    requires i < |events|
    ensures After(events[i..], after)
         == (if events[i].sequence > after then [events[i]] else []) + After(events[i + 1..], after)
  {
    assert events[i..][1..] == events[i + 1..];
  }

  /** The answer to a cursor, as a function of the buffer. */
  function Answer(buffer: seq<Event>, nextSeq: nat, after: nat): SubscribeResult {
    var oldest := if buffer == [] then nextSeq else buffer[0].sequence;
    if after > 0 && after < oldest - 1 then Gap(if buffer == [] then 0 else buffer[|buffer| - 1].sequence)
    else
      var events := After(buffer, after);
      Events(events, if events == [] then after else events[|events| - 1].sequence)
  }

  // ---------------------------------------------------------------- what a cursor can rely on

  /** Everything held lies after the cursor. */
  lemma {:induction false} AfterAll(events: seq<Event>, after: nat)
    requires forall i :: 0 <= i < |events| ==> events[i].sequence > after
    ensures After(events, after) == events
    decreases |events|
  {
    if events == [] {
    } else {
      AfterAll(events[1..], after);
      HeadTail(events);
    }
  }

  /** The first `k` held events lie at or before the cursor, the rest after it. */
  lemma {:induction false} AfterSome(events: seq<Event>, k: nat, after: nat)
    requires k <= |events|
    requires forall i :: 0 <= i < k ==> events[i].sequence <= after
    requires forall i :: k <= i < |events| ==> events[i].sequence > after
    ensures After(events, after) == events[k..]
    decreases |events|
  {
    if k == 0 {
      AfterAll(events, after);
      assert events[0..] == events;
    } else {
      AfterSome(events[1..], k - 1, after);
      assert events[1..][k - 1..] == events[k..];
      assert [] + events[k..] == events[k..];
    }
  }

  /** A cursor inside the log is told of a gap exactly when an event after it was evicted;
      otherwise it gets every later event, in order, and ends on the last. Cursor zero is
      never told of a gap: it gets whatever is still held. A gap comes with the number of the
      newest event, if any is held; a cursor ahead of the log stays where it is. */
  lemma CursorNeverSkips(limits: Limits, log: seq<Event>, after: nat)
    requires Published(log)
    ensures var buffer := LongestSuffix(limits, log);
            var evicted := |log| - |buffer|;
            var r := Answer(buffer, |log| + 1, after);
            && (r.Gap? <==> 0 < after < evicted)
            && (r.Gap? ==> r.snapshotAdvice == if buffer == [] then 0 else |log|)
            && (0 < after <= |log| && !r.Gap? ==> r == Events(log[after..], |log|))
            && (after == 0 ==> r == Events(buffer, if buffer == [] then 0 else |log|))
            && (after > |log| ==> r == Events([], after))
  {
    var buffer := LongestSuffix(limits, log);
    HeldRun(limits, log);
    SuffixIsSlice(limits, log);
    hide LongestSuffix, Answer, After;
    if after == 0 {
      AnswerToZero(buffer, |log| - |buffer|, |log| + 1);
    } else if after < |log| - |buffer| {
      AnswerGap(buffer, |log| - |buffer|, after);
    } else if after > |log| {
      AnswerAhead(buffer, |log| - |buffer|, after);
    } else {
      AnswerRest(log, buffer, after);
    }
  }

  /** Two events in a bus that holds one: asked from zero, the first is missing and no gap is
      told; asked from one, none is missing. */
  lemma ZeroIsNotTold(maxTotalBytes: nat, first: Event, second: Event)
    requires first.sequence == 1 && second.sequence == 2 && second.bytes <= maxTotalBytes
    ensures var buffer := LongestSuffix(Limits(1, maxTotalBytes), [first, second]);
            && buffer == [second]
            && Answer(buffer, 3, 0).Events? && Answer(buffer, 3, 0).events == [second]
            && Answer(buffer, 3, 1) == Events([second], 2)
  {
    var limits := Limits(1, maxTotalBytes);
    assert [first, second][1..] == [second] && [second][1..] == [];
    assert Within(limits, [second]);
    assert LongestSuffix(limits, [first, second]) == [second];
    CursorNeverSkips(limits, [first, second], 0);
    CursorNeverSkips(limits, [first, second], 1);
  }

  ghost predicate RunFrom(buffer: seq<Event>, evicted: nat) {
    forall i :: 0 <= i < |buffer| ==> buffer[i].sequence == evicted + 1 + i
  }

  lemma AnswerToZero(buffer: seq<Event>, evicted: nat, nextSeq: nat)
    requires RunFrom(buffer, evicted)
    ensures Answer(buffer, nextSeq, 0) == Events(buffer, if buffer == [] then 0 else evicted + |buffer|)
  {
    hide After;
    AfterAll(buffer, 0);
  }

  lemma AnswerGap(buffer: seq<Event>, evicted: nat, after: nat)
    requires RunFrom(buffer, evicted) && 0 < after < evicted
    ensures Answer(buffer, evicted + |buffer| + 1, after) == Gap(if buffer == [] then 0 else evicted + |buffer|)
  {
    hide After;
  }

  lemma AnswerAhead(buffer: seq<Event>, evicted: nat, after: nat)
    requires RunFrom(buffer, evicted) && after > evicted + |buffer|
    ensures Answer(buffer, evicted + |buffer| + 1, after) == Events([], after)
  {
    hide After;
    AfterSome(buffer, |buffer|, after);
    assert buffer[|buffer|..] == [];
  }

  lemma AnswerRest(log: seq<Event>, buffer: seq<Event>, after: nat)
    requires Published(log) && |buffer| <= |log| && buffer == log[|log| - |buffer|..]
    requires |log| - |buffer| <= after <= |log| && after > 0
    ensures Answer(buffer, |log| + 1, after) == Events(log[after..], |log|)
  {
    hide After;
    var evicted := |log| - |buffer|;
    assert RunFrom(buffer, evicted);
    AfterSome(buffer, after - evicted, after);
    SliceTwice(log, evicted, after);
    LastOfSlice(log, after);
  }

  lemma SliceTwice<T>(s: seq<T>, a: nat, b: nat)
    requires a <= b <= |s|
    ensures s[a..][b - a..] == s[b..]
  {
  }

  lemma LastOfSlice(log: seq<Event>, after: nat)
    requires Published(log) && after <= |log|
    ensures log[after..] != [] ==> log[after..][|log[after..]| - 1].sequence == |log|
    ensures log[after..] == [] ==> after == |log|
  {
  }

  /** A step of a client's life: something is published, or the client asks again. */
  datatype Turn = Publish(event: Event) | Ask

  datatype Client = Client(log: seq<Event>, cursor: nat, got: seq<Event>, told: bool)

  function Follow(limits: Limits, c: Client, t: Turn): Client {
    match t
    case Publish(e) => c.(log := c.log + [e.(sequence := |c.log| + 1)])
    case Ask =>
      if c.told then c
      else
        match Answer(LongestSuffix(limits, c.log), |c.log| + 1, c.cursor)
        case Gap(_) => c.(told := true)
        case Events(events, next) => c.(cursor := next, got := c.got + events)
  }

  function FollowAll(limits: Limits, c: Client, turns: seq<Turn>): Client {
    if turns == [] then c else Follow(limits, FollowAll(limits, c, turns[..|turns| - 1]), turns[|turns| - 1])
  }

  /** The client has exactly the events between its start and its cursor. */
  ghost predicate CaughtUp(start: nat, log: seq<Event>, d: Client) {
    && Published(d.log) && log <= d.log
    && 0 < start <= d.cursor <= |d.log|
    && d.got == d.log[start..d.cursor]
  }

  lemma FollowKeepsCaughtUp(limits: Limits, start: nat, log: seq<Event>, d: Client, t: Turn)
    requires CaughtUp(start, log, d)
    ensures CaughtUp(start, log, Follow(limits, d, t))
  {
    hide LongestSuffix, Answer;
    match t
    case Publish(e) =>
      AppendedIsPublished(d.log, e.(sequence := |d.log| + 1));
      assert (d.log + [e.(sequence := |d.log| + 1)])[start..d.cursor] == d.log[start..d.cursor];
    case Ask =>
      CursorNeverSkips(limits, d.log, d.cursor);
      assert d.log[start..d.cursor] + d.log[d.cursor..] == d.log[start..|d.log|];
  }

  /** A client that starts at a real cursor and follows `next_cursor` has, at every moment
      until it is told of a gap, exactly the events from its start to its cursor: none
      skipped, none repeated, however publishing and asking interleave. */
  lemma {:induction false} FollowerSeesEverything(limits: Limits, c: Client, turns: seq<Turn>)
    requires Published(c.log) && 0 < c.cursor <= |c.log| && c.got == [] && !c.told
    ensures CaughtUp(c.cursor, c.log, FollowAll(limits, c, turns))
    decreases |turns|
  {
    if turns == [] {
    } else {
      hide Follow, CaughtUp;
      FollowerSeesEverything(limits, c, turns[..|turns| - 1]);
      FollowKeepsCaughtUp(limits, c.cursor, c.log, FollowAll(limits, c, turns[..|turns| - 1]), turns[|turns| - 1]);
    }
  }
}
