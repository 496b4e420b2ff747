/** The restart limiter of interop-runtime/src/workers.rs: exit detection, the sliding window
    of exits, and the profiles that are stopped for good. What a start does to the operating
    system is its result, a parameter. */
module Workers {
  import opened Prelude

  datatype Profile = Profile(maxRestarts: u32, window: u64)

  datatype Worker = Worker(profileId: string, pid: nat, mode: string)

  datatype Event =
    | Spawned(profileId: string, pid: nat, mode: string)
    | Exited(profileId: string, code: Option<int>)
    | RestartLimitReached(profileId: string, restarts: nat, window: nat)
    | Shutdown(workers: nat, killed: nat, orphanListeners: nat)

  datatype Verdict = LimitReached | Restarted | NotRestarted

  /** One counted exit and what was decided about it, or one start by the caller. */
  datatype Happening = Exit(profileId: string, time: nat, verdict: Verdict) | Manual(profileId: string, time: nat)

  /** `history` is everything that happened, with its time; the program does not keep it. */
  datatype Supervisor = Supervisor(
    profiles: map<string, Profile>, running: seq<Worker>, log: seq<Event>, spawns: map<string, nat>,
    crashes: map<string, seq<nat>>, stopped: seq<string>, lastModes: map<string, string>, shuttingDown: bool,
    history: seq<Happening>)

  function Fresh(profiles: map<string, Profile>): Supervisor {
    Supervisor(profiles, [], [], map[], map[], [], map[], false, [])
  }

  function SpawnsOf(spawns: map<string, nat>, p: string): nat {
    if p in spawns then spawns[p] else 0
  }

  function CrashesOf(crashes: map<string, seq<nat>>, p: string): seq<nat> {
    if p in crashes then crashes[p] else []
  }

  /** `start`: refused for unknown and for stopped profiles, before anything is spawned. */
  function Launch(s: Supervisor, p: string, mode: string, spawn: Result<nat>): (Supervisor, Result<nat>) {
    if p !in s.profiles then (s, Err(UnsupportedProfile))
    else if p in s.stopped then (s, Err(Busy))
    else if spawn.Err? then (s, spawn)
    else
      (s.(spawns := s.spawns[p := SpawnsOf(s.spawns, p) + 1],
          running := s.running + [Worker(p, spawn.value, mode)],
          lastModes := s.lastModes[p := mode],
          log := s.log + [Spawned(p, spawn.value, mode)]), spawn)
  }

  function Start(s: Supervisor, p: string, mode: string, now: nat, spawn: Result<nat>): (Supervisor, Result<nat>) {
    var (s', r) := Launch(s, p, mode, spawn);
    (if r.Ok? then s'.(history := s.history + [Manual(p, now)]) else s', r)
  }

  function Retain(times: seq<nat>, from: nat): seq<nat> {
    if times == [] then []
    else Retain(times[..|times| - 1], from) + (if times[|times| - 1] >= from then [times[|times| - 1]] else [])
  }

  function MaybeRestart(s: Supervisor, p: string, now: nat, spawn: Result<nat>): Supervisor {
    if p !in s.profiles then s
    else
      var (max, window) := (s.profiles[p].maxRestarts, s.profiles[p].window);
      var recent := Retain(CrashesOf(s.crashes, p), SatSub(now, window)) + [now];
      var s' := s.(crashes := s.crashes[p := recent]);
      if |recent| > max then
        s'.(stopped := s.stopped + [p], log := s.log + [RestartLimitReached(p, max, window)],
            history := s.history + [Exit(p, now, LimitReached)])
      else if p !in s.lastModes then s'.(history := s.history + [Exit(p, now, NotRestarted)])
      else
        var (s'', r) := Launch(s', p, s.lastModes[p], spawn);
        s''.(history := s.history + [Exit(p, now, if r.Ok? then Restarted else NotRestarted)])
  }

  /** Worker `i` has been found exited. */
  function ExitFound(s: Supervisor, i: nat, code: Option<int>, now: nat, spawn: Result<nat>): Supervisor
    requires i < |s.running|
  {
    var p := s.running[i].profileId;
    var s' := s.(running := s.running[..i] + s.running[i + 1..], log := s.log + [Exited(p, code)]);
    if s.shuttingDown then s' else MaybeRestart(s', p, now, spawn)
  }

  /** `slow` tells which of the workers do not end in time, `left` whose listener file is still
      there at the end. */
  datatype Turn =
    | Begin(profileId: string, mode: string, now: nat, spawn: Result<nat>)
    | Found(i: nat, code: Option<int>, now: nat, spawn: Result<nat>)
    | ShutDown(now: nat, slow: seq<bool>, left: seq<Option<string>>)

  /** How many of the first `n` workers had to be killed. */
  function Killed(slow: seq<bool>, n: nat): nat {
    if n == 0 then 0 else Killed(slow, n - 1) + if n <= |slow| && slow[n - 1] then 1 else 0
  }

  /** The listener files that the first `n` workers left behind, in order. */
  function Orphans(left: seq<Option<string>>, n: nat): (paths: seq<string>) {
    if n == 0 then []
    else Orphans(left, n - 1) + if n <= |left| && left[n - 1].Some? then [left[n - 1].value] else []
  }

  function Step(s: Supervisor, t: Turn): Supervisor {
    match t
    case Begin(p, mode, now, spawn) => Start(s, p, mode, now, spawn).0
    case Found(i, code, now, spawn) => if i < |s.running| then ExitFound(s, i, code, now, spawn) else s
    case ShutDown(_, slow, left) =>
      var n := |s.running|;
      s.(shuttingDown := true, running := [],
         log := s.log + [Shutdown(n, Killed(slow, n), |Orphans(left, n)|)])
  }

  function Play(s: Supervisor, turns: seq<Turn>): Supervisor {
    if turns == [] then s else Step(Play(s, turns[..|turns| - 1]), turns[|turns| - 1])
  }

  /** Time never steps back. */
  predicate Ordered(turns: seq<Turn>) {
    forall i, j :: 0 <= i < j < |turns| ==> turns[i].now <= turns[j].now
  }

  // ---------------------------------------------------------------- what the history shows

  /** The times of the counted exits of `p` from `from` on. */
  function ExitTimes(h: seq<Happening>, p: string, from: nat): seq<nat> {
    if h == [] then []
    else
      var last := h[|h| - 1];
      ExitTimes(h[..|h| - 1], p, from)
      + if last.Exit? && last.profileId == p && last.time >= from then [last.time] else []
  }

  /** The automatic restarts of `p` in the closed window from `a` to `b`. */
  function RestartsIn(h: seq<Happening>, p: string, a: nat, b: nat): nat {
    if h == [] then 0
    else
      var last := h[|h| - 1];
      RestartsIn(h[..|h| - 1], p, a, b)
      + (if last.Exit? && last.profileId == p && last.verdict.Restarted? && a <= last.time <= b then 1 else 0)
  }

  function StartsOf(h: seq<Happening>, p: string): nat {
    if h == [] then 0
    else StartsOf(h[..|h| - 1], p) + (if IsStart(h[|h| - 1]) && h[|h| - 1].profileId == p then 1 else 0)
  }

  predicate IsStart(e: Happening) {
    e.Manual? || e.verdict.Restarted?
  }

  predicate IsExitOf(e: Happening, p: string) {
    e.Exit? && e.profileId == p
  }

  /** What the program keeps of the exits of `p`: after each of them, itself and those it kept
      before that are in the window behind it. */
  function Remembered(h: seq<Happening>, p: string, window: nat): seq<nat> {
    if h == [] then []
    else
      var before, last := Remembered(h[..|h| - 1], p, window), h[|h| - 1];
      if IsExitOf(last, p) then Retain(before, SatSub(last.time, window)) + [last.time] else before
  }

  /** Exit `i` was thrown away at the latest when exit `j` came, whose window began after it. */
  predicate Forgets(h: seq<Happening>, p: string, window: nat, i: int, j: int) {
    0 <= i < j < |h| && IsExitOf(h[i], p) && IsExitOf(h[j], p) && SatSub(h[j].time, window) > h[i].time
  }

  /** Some exit at `from` or later was thrown away. */
  ghost predicate Forgotten(h: seq<Happening>, p: string, window: nat, from: nat) {
    exists i, j :: Forgets(h, p, window, i, j) && h[i].time >= from
  }

  /** Every exit was judged by what was kept of the exits up to it, itself included. */
  predicate Decided(profiles: map<string, Profile>, h: seq<Happening>) {
    h == []
    || (&& Decided(profiles, h[..|h| - 1])
        && var e := h[|h| - 1];
           (e.Exit? ==>
              && e.profileId in profiles
              && (e.verdict.LimitReached? <==>
                    |Remembered(h, e.profileId, profiles[e.profileId].window)| > profiles[e.profileId].maxRestarts)))
  }

  predicate HasStopped(h: seq<Happening>, p: string) {
    exists i :: 0 <= i < |h| && h[i].Exit? && h[i].profileId == p && h[i].verdict.LimitReached?
  }

  predicate StoppedStay(h: seq<Happening>) {
    forall j :: 0 <= j < |h| && IsStart(h[j]) ==> !HasStopped(h[..j], h[j].profileId)
  }

  /** What every step keeps, whatever the clock does: the list of a profile is what its history
      says is kept, every exit was judged by it, and stops and starts are on record. */
  ghost predicate Kept(s: Supervisor) {
    && (forall p :: p in s.profiles ==>
          CrashesOf(s.crashes, p) == Remembered(s.history, p, s.profiles[p].window))
    && Decided(s.profiles, s.history)
    && StoppedStay(s.history)
    && (forall p :: p in s.stopped <==> HasStopped(s.history, p))
    && (forall p :: SpawnsOf(s.spawns, p) == StartsOf(s.history, p))
  }

  lemma HistoryAppended(h: seq<Happening>, e: Happening)
    ensures (h + [e])[..|h|] == h && (h + [e])[|h|] == e && |h + [e]| == |h| + 1
  {
  }

  lemma StoppedAppended(h: seq<Happening>, e: Happening, p: string)
    ensures HasStopped(h + [e], p) <==> HasStopped(h, p) || (e.Exit? && e.profileId == p && e.verdict.LimitReached?)
  {
    var h' := h + [e];
    if HasStopped(h, p) {
      var i :| 0 <= i < |h| && h[i].Exit? && h[i].profileId == p && h[i].verdict.LimitReached?;
      assert h'[i] == h[i];
    }
    if e.Exit? && e.profileId == p && e.verdict.LimitReached? {
      assert h'[|h|] == e;
    }
    if HasStopped(h', p) {
      var i :| 0 <= i < |h'| && h'[i].Exit? && h'[i].profileId == p && h'[i].verdict.LimitReached?;
      assert i < |h| ==> h[i] == h'[i];
    }
  }

  lemma StayAppended(h: seq<Happening>, e: Happening)
    requires StoppedStay(h) && (IsStart(e) ==> !HasStopped(h, e.profileId))
    ensures StoppedStay(h + [e])
  {
    hide HasStopped;
    var h' := h + [e];
    forall j | 0 <= j < |h'| && IsStart(h'[j]) ensures !HasStopped(h'[..j], h'[j].profileId) {
      assert h'[..j] == h[..j];
      if j == |h| {
        assert h[..j] == h;
      }
    }
  }

  // ---------------------------------------------------------------- every step keeps it

  /** `s'` is `s` after `e`, in the parts of the state that the history explains. */
  predicate Explains(s: Supervisor, s': Supervisor, e: Happening) {
    && s'.profiles == s.profiles && s'.history == s.history + [e]
    && (IsStart(e) ==> e.profileId !in s.stopped)
    && s'.stopped == (if e.Exit? && e.verdict.LimitReached? then s.stopped + [e.profileId] else s.stopped)
    && s'.spawns == (if IsStart(e) then s.spawns[e.profileId := SpawnsOf(s.spawns, e.profileId) + 1] else s.spawns)
    && (e.Manual? ==> s'.crashes == s.crashes)
    && (e.Exit? ==>
          e.profileId in s.profiles
          && var recent := Retain(CrashesOf(s.crashes, e.profileId), SatSub(e.time, s.profiles[e.profileId].window))
             + [e.time];
             s'.crashes == s.crashes[e.profileId := recent]
             && (e.verdict.LimitReached? <==> |recent| > s.profiles[e.profileId].maxRestarts))
  }

  lemma ListsAppended(s: Supervisor, s': Supervisor, e: Happening, p: string)
    requires Kept(s) && Explains(s, s', e) && p in s.profiles
    ensures CrashesOf(s'.crashes, p) == Remembered(s'.history, p, s'.profiles[p].window)
  {
    hide HasStopped, StoppedStay, Retain, StartsOf, Decided;
    HistoryAppended(s.history, e);
  }

  lemma DecisionAppended(s: Supervisor, s': Supervisor, e: Happening)
    requires Kept(s) && Explains(s, s', e)
    ensures Decided(s'.profiles, s'.history)
  {
    hide HasStopped, StoppedStay, Retain, StartsOf;
    HistoryAppended(s.history, e);
  }

  lemma StopsAppended(s: Supervisor, s': Supervisor, e: Happening, p: string)
    requires Kept(s) && Explains(s, s', e)
    ensures p in s'.stopped <==> HasStopped(s'.history, p)
    ensures SpawnsOf(s'.spawns, p) == StartsOf(s'.history, p)
    ensures StoppedStay(s'.history)
  {
    hide HasStopped, StoppedStay, Retain, Decided, Remembered;
    HistoryAppended(s.history, e);
    StoppedAppended(s.history, e, p);
    StayAppended(s.history, e);
  }

  lemma KeptAppended(s: Supervisor, s': Supervisor, e: Happening)
    requires Kept(s) && Explains(s, s', e)
    ensures Kept(s')
  {
    hide HasStopped, StoppedStay, Retain, Decided, Remembered, StartsOf;
    DecisionAppended(s, s', e);
    forall p | p in s'.profiles ensures CrashesOf(s'.crashes, p) == Remembered(s'.history, p, s'.profiles[p].window) {
      ListsAppended(s, s', e, p);
    }
    forall p ensures p in s'.stopped <==> HasStopped(s'.history, p) {
      StopsAppended(s, s', e, p);
    }
    forall p ensures SpawnsOf(s'.spawns, p) == StartsOf(s'.history, p) {
      StopsAppended(s, s', e, p);
    }
    StopsAppended(s, s', e, e.profileId);
  }

  /** A step that is not recorded. */
  lemma KeptUnmoved(s: Supervisor, s': Supervisor)
    requires Kept(s)
    requires s'.profiles == s.profiles && s'.history == s.history && s'.stopped == s.stopped
    requires s'.spawns == s.spawns && s'.crashes == s.crashes
    ensures Kept(s')
  {
    hide HasStopped, StoppedStay, Retain, Remembered, Decided, StartsOf;
  }

  lemma StepKeeps(s: Supervisor, t: Turn)
    requires Kept(s)
    ensures Kept(Step(s, t))
    ensures Step(s, t).profiles == s.profiles
  {
    hide Kept, Retain;
    var s' := Step(s, t);
    match t
    case Begin(p, mode, now, spawn) =>
      if Launch(s, p, mode, spawn).1.Ok? {
        KeptAppended(s, s', Manual(p, now));
      } else {
        KeptUnmoved(s, s');
      }
    case Found(i, code, now, spawn) =>
      if i < |s.running| && !s.shuttingDown && s.running[i].profileId in s.profiles {
        hide ExitFound, Launch;
        ExitKeeps(s, i, code, now, spawn);
      } else {
        KeptUnmoved(s, s');
      }
    case ShutDown(now, _, _) =>
      KeptUnmoved(s, s');
  }

  lemma ExitKeeps(s: Supervisor, i: nat, code: Option<int>, now: nat, spawn: Result<nat>)
    requires Kept(s) && i < |s.running| && !s.shuttingDown && s.running[i].profileId in s.profiles
    ensures Kept(ExitFound(s, i, code, now, spawn))
    ensures ExitFound(s, i, code, now, spawn).profiles == s.profiles
  {
    hide Kept, Retain;
    var s' := ExitFound(s, i, code, now, spawn);
    KeptAppended(s, s', s'.history[|s.history|]);
  }

  lemma FreshKept(profiles: map<string, Profile>)
    ensures Kept(Fresh(profiles))
  {
  }

  lemma {:induction false} RunKeeps(profiles: map<string, Profile>, turns: seq<Turn>)
    ensures Play(Fresh(profiles), turns).profiles == profiles && Kept(Play(Fresh(profiles), turns))
    decreases |turns|
  {
    hide Kept, Step;
    if turns == [] {
      FreshKept(profiles);
    } else {
      RunKeeps(profiles, turns[..|turns| - 1]);
      StepKeeps(Play(Fresh(profiles), turns[..|turns| - 1]), turns[|turns| - 1]);
    }
  }

  // ---------------------------------------------------------------- what is forgotten

  /** Fewer exits count from a later time on, unless none lies in between. */
  lemma {:induction false} FewerLater(h: seq<Happening>, p: string, from: nat, later: nat)
    requires from <= later
    ensures |ExitTimes(h, p, later)| <= |ExitTimes(h, p, from)|
    ensures if exists i :: 0 <= i < |h| && IsExitOf(h[i], p) && from <= h[i].time < later
            then |ExitTimes(h, p, later)| < |ExitTimes(h, p, from)|
            else ExitTimes(h, p, later) == ExitTimes(h, p, from)
    decreases |h|
  {
    if h == [] {
    } else {
      var before, last := h[..|h| - 1], h[|h| - 1];
      FewerLater(before, p, from, later);
      assert forall i :: 0 <= i < |before| ==> before[i] == h[i];
    }
  }

  lemma {:induction false} RetainLater(times: seq<nat>, from: nat, later: nat)
    ensures Retain(Retain(times, from), later) == Retain(times, Max(from, later))
    decreases |times|
  {
    if times == [] {
    } else {
      var before, last := Retain(times[..|times| - 1], from), times[|times| - 1];
      RetainLater(times[..|times| - 1], from, later);
      if last >= from {
        assert (before + [last])[..|before|] == before;
      } else {
        AppendNothing(before);
      }
      AppendNothing(Retain(times[..|times| - 1], Max(from, later)));
    }
  }

  lemma RetainAppended(times: seq<nat>, last: nat, from: nat)
    ensures Retain(times + [last], from) == Retain(times, from) + if last >= from then [last] else []
  {
    assert (times + [last])[..|times|] == times;
  }

  /** What is kept from a time on is all there was from it on exactly when none of it has been
      forgotten; otherwise it is less. */
  lemma {:induction false} RememberedExactly(h: seq<Happening>, p: string, window: nat, from: nat)
    ensures if Forgotten(h, p, window, from)
            then |Retain(Remembered(h, p, window), from)| < |ExitTimes(h, p, from)|
            else Retain(Remembered(h, p, window), from) == ExitTimes(h, p, from)
    decreases |h|
  {
    if h == [] {
    } else {
      var before, last := h[..|h| - 1], h[|h| - 1];
      assert forall i :: 0 <= i < |before| ==> before[i] == h[i];
      if IsExitOf(last, p) {
        var start := SatSub(last.time, window);
        RememberedExactly(before, p, window, Max(from, start));
        ForgottenNow(h, p, window, from);
        if start > from {
          FewerLater(before, p, from, start);
        }
        RetainLater(Remembered(before, p, window), start, from);
        RetainAppended(Retain(Remembered(before, p, window), start), last.time, from);
      } else {
        RememberedExactly(before, p, window, from);
        ForgottenBefore(h, p, window, from);
        AppendNothing(ExitTimes(before, p, from));
      }
    }
  }

  /** One more exit forgets what lies before its window; nothing else is new. */
  lemma ForgottenNow(h: seq<Happening>, p: string, window: nat, from: nat)
    requires h != [] && IsExitOf(h[|h| - 1], p)
    ensures var before, start := h[..|h| - 1], SatSub(h[|h| - 1].time, window);
            Forgotten(h, p, window, from) <==>
            || Forgotten(before, p, window, Max(from, start))
            || exists i :: 0 <= i < |before| && IsExitOf(before[i], p) && from <= before[i].time < start
  {
    var n, before, start := |h| - 1, h[..|h| - 1], SatSub(h[|h| - 1].time, window);
    if Forgotten(h, p, window, from) {
      var i, j :| Forgets(h, p, window, i, j) && h[i].time >= from;
      assert before[i] == h[i];
      if h[i].time >= start {
        assert before[j] == h[j];
        assert Forgets(before, p, window, i, j);
      }
    }
    if i :| 0 <= i < |before| && IsExitOf(before[i], p) && from <= before[i].time < start {
      assert Forgets(h, p, window, i, n);
    }
    if Forgotten(before, p, window, Max(from, start)) {
      var i, j :| Forgets(before, p, window, i, j) && before[i].time >= Max(from, start);
      assert Forgets(h, p, window, i, j);
    }
  }

  lemma ForgottenBefore(h: seq<Happening>, p: string, window: nat, from: nat)
    requires h != [] && !IsExitOf(h[|h| - 1], p)
    ensures Forgotten(h, p, window, from) <==> Forgotten(h[..|h| - 1], p, window, from)
  {
    var before := h[..|h| - 1];
    if Forgotten(before, p, window, from) {
      var i, j :| Forgets(before, p, window, i, j) && before[i].time >= from;
      assert Forgets(h, p, window, i, j);
    }
    if Forgotten(h, p, window, from) {
      var i, j :| Forgets(h, p, window, i, j) && h[i].time >= from;
      assert Forgets(before, p, window, i, j);
    }
  }

  // ---------------------------------------------------------------- the promises

  /** The window that ends with exit `j`. */
  function WindowStart(h: seq<Happening>, j: nat, window: nat): nat
    requires j < |h|
  {
    SatSub(h[j].time, window)
  }

  lemma {:induction false} DecidedAt(profiles: map<string, Profile>, h: seq<Happening>, j: nat)
    requires Decided(profiles, h) && j < |h| && h[j].Exit?
    ensures var p := h[j].profileId;
            && p in profiles
            && (h[j].verdict.LimitReached? <==>
                  |Remembered(h[..j + 1], p, profiles[p].window)| > profiles[p].maxRestarts)
    decreases |h|
  {
    hide Remembered;
    if j == |h| - 1 {
      assert h[..j + 1] == h;
    } else {
      DecidedAt(profiles, h[..|h| - 1], j);
      assert h[..|h| - 1][..j + 1] == h[..j + 1];
    }
  }

  lemma KeptInWindow(h: seq<Happening>, p: string, window: nat)
    requires h != [] && IsExitOf(h[|h| - 1], p)
    ensures Retain(Remembered(h, p, window), WindowStart(h, |h| - 1, window)) == Remembered(h, p, window)
  {
    var before, start := Remembered(h[..|h| - 1], p, window), WindowStart(h, |h| - 1, window);
    RetainLater(before, start, start);
    RetainAppended(Retain(before, start), h[|h| - 1].time, start);
  }

  /** In every run, whatever the clock does: an exit stops its profile exactly when what is kept
      of the exits is more than the limit. What is kept are all exits in the window behind it
      exactly when none of those was forgotten before; otherwise they are more than were kept. */
  lemma DecisionIsExact(profiles: map<string, Profile>, turns: seq<Turn>, j: nat)
    requires j < |Play(Fresh(profiles), turns).history| && Play(Fresh(profiles), turns).history[j].Exit?
    ensures var h := Play(Fresh(profiles), turns).history;
            var p := h[j].profileId;
            && p in profiles
            && var (window, limit) := (profiles[p].window, profiles[p].maxRestarts);
               var kept := Remembered(h[..j + 1], p, window);
               var all := ExitTimes(h[..j + 1], p, WindowStart(h, j, window));
               && (h[j].verdict.LimitReached? <==> |kept| > limit)
               && (kept == all <==> !Forgotten(h[..j + 1], p, window, WindowStart(h, j, window)))
               && (kept != all ==> |kept| < |all|)
  {
    hide Remembered, ExitTimes, Forgotten, Retain, Decided, Play, HasStopped, StoppedStay, StartsOf;
    var h := Play(Fresh(profiles), turns).history;
    RunKeeps(profiles, turns);
    DecidedAt(profiles, h, j);
    var p := h[j].profileId;
    assert h[..j + 1][j] == h[j];
    KeptInWindow(h[..j + 1], p, profiles[p].window);
    RememberedExactly(h[..j + 1], p, profiles[p].window, WindowStart(h, j, profiles[p].window));
  }

  /** The restarts in any window that reaches back no further than a given time are among
      the exits counted from that time. */
  lemma {:induction false} RestartsAreExits(h: seq<Happening>, p: string, a: nat, b: nat, from: nat)
    requires from <= a
    ensures RestartsIn(h, p, a, b) <= |ExitTimes(h, p, from)|
  {
    if h == [] {
    } else {
      RestartsAreExits(h[..|h| - 1], p, a, b, from);
    }
  }

  predicate RestartedIn(e: Happening, p: string, a: nat, b: nat) {
    IsExitOf(e, p) && e.verdict.Restarted? && a <= e.time <= b
  }

  /** No restart of `p` in the window from `a` on came after an exit that it should have counted
      and that was forgotten. */
  ghost predicate NothingMissed(h: seq<Happening>, p: string, a: nat, window: nat) {
    forall j :: 0 <= j < |h| && RestartedIn(h[j], p, a, a + window) ==>
      !Forgotten(h[..j + 1], p, window, WindowStart(h, j, window))
  }

  lemma {:induction false} WindowBound(profiles: map<string, Profile>, h: seq<Happening>, p: string, a: nat)
    requires Decided(profiles, h) && p in profiles && NothingMissed(h, p, a, profiles[p].window)
    ensures RestartsIn(h, p, a, a + profiles[p].window) <= profiles[p].maxRestarts
    decreases |h|
  {
    hide Forgotten, Remembered, ExitTimes;
    if h == [] {
    } else {
      var e, window := h[|h| - 1], profiles[p].window;
      MissedBefore(h, p, a, window);
      WindowBound(profiles, h[..|h| - 1], p, a);
      if RestartedIn(e, p, a, a + window) {
        assert h[..|h| - 1 + 1] == h;
        KeptInWindow(h, p, window);
        RememberedExactly(h, p, window, WindowStart(h, |h| - 1, window));
        RestartsAreExits(h, p, a, a + window, WindowStart(h, |h| - 1, window));
      }
    }
  }

  lemma MissedBefore(h: seq<Happening>, p: string, a: nat, window: nat)
    requires h != [] && NothingMissed(h, p, a, window)
    ensures NothingMissed(h[..|h| - 1], p, a, window)
  {
    hide Forgotten;
    var before := h[..|h| - 1];
    forall j | 0 <= j < |before| && RestartedIn(before[j], p, a, a + window)
      ensures !Forgotten(before[..j + 1], p, window, WindowStart(before, j, window))
    {
      assert before[j] == h[j] && before[..j + 1] == h[..j + 1];
    }
  }

  /** A window of the configured length - both ends included, wherever it lies - in which no
      restart missed an exit that was forgotten holds no more automatic restarts of a profile
      than its limit, whatever the clock did. */
  lemma RestartsAreBounded(profiles: map<string, Profile>, turns: seq<Turn>, p: string, a: nat)
    requires p in profiles && NothingMissed(Play(Fresh(profiles), turns).history, p, a, profiles[p].window)
    ensures RestartsIn(Play(Fresh(profiles), turns).history, p, a, a + profiles[p].window) <= profiles[p].maxRestarts
  {
    hide Play, Decided, Forgotten;
    RunKeeps(profiles, turns);
    WindowBound(profiles, Play(Fresh(profiles), turns).history, p, a);
  }

  lemma StepHistory(s: Supervisor, t: Turn)
    ensures || Step(s, t).history == s.history
            || exists e: Happening :: e.time == t.now && Step(s, t).history == s.history + [e]
  {
    hide Retain;
    var h := Step(s, t).history;
    if |h| == |s.history| + 1 {
      assert h == s.history + [h[|s.history|]];
    }
  }

  /** No event of the history comes before an earlier one or after this moment. */
  ghost predicate InOrder(h: seq<Happening>, now: nat) {
    (forall i, j :: 0 <= i < j < |h| ==> h[i].time <= h[j].time) && forall i :: 0 <= i < |h| ==> h[i].time <= now
  }

  /** With a clock that never steps back the history is in order of time. */
  lemma {:induction false} OrderedHistory(profiles: map<string, Profile>, turns: seq<Turn>)
    requires Ordered(turns)
    ensures InOrder(Play(Fresh(profiles), turns).history, if turns == [] then 0 else turns[|turns| - 1].now)
    decreases |turns|
  {
    hide Step;
    if turns == [] {
    } else {
      var before, last := turns[..|turns| - 1], turns[|turns| - 1];
      OrderedHistory(profiles, before);
      assert before != [] ==> turns[|before| - 1].now <= turns[|before|].now;
      StepHistory(Play(Fresh(profiles), before), last);
    }
  }

  /** Then nothing is missed, wherever the window lies. */
  lemma OrderedMissesNothing(profiles: map<string, Profile>, turns: seq<Turn>, p: string, a: nat, window: nat)
    requires Ordered(turns)
    ensures NothingMissed(Play(Fresh(profiles), turns).history, p, a, window)
  {
    hide Play;
    OrderedHistory(profiles, turns);
  }

  /** With time that never steps back, no window holds more automatic restarts than the limit,
      although exits older than the window of each decision are thrown away. */
  lemma OrderedRestartsAreBounded(profiles: map<string, Profile>, turns: seq<Turn>, p: string, a: nat)
    requires Ordered(turns) && p in profiles
    ensures RestartsIn(Play(Fresh(profiles), turns).history, p, a, a + profiles[p].window) <= profiles[p].maxRestarts
  {
    hide *;
    OrderedMissesNothing(profiles, turns, p, a, profiles[p].window);
    RestartsAreBounded(profiles, turns, p, a);
  }

  /** Under any clock: a profile that has reached its limit is never started again, by anyone;
      and the spawn counter counts the starts there were. */
  lemma StoppedForGood(profiles: map<string, Profile>, turns: seq<Turn>, i: nat, j: nat)
    ensures var d := Play(Fresh(profiles), turns);
            && (i < j < |d.history| && d.history[i].Exit? && d.history[i].verdict.LimitReached? && IsStart(d.history[j])
                ==> d.history[i].profileId != d.history[j].profileId)
            && (forall p :: SpawnsOf(d.spawns, p) == StartsOf(d.history, p))
  {
    hide Play, Decided, Remembered;
    RunKeeps(profiles, turns);
    var h := Play(Fresh(profiles), turns).history;
    if i < j < |h| && h[i].Exit? && h[i].verdict.LimitReached? && IsStart(h[j]) {
      assert h[..j][i] == h[i];
    }
  }

  // ---------------------------------------------------------------- the object

  class WorkerSupervisor {
    const profiles: map<string, Profile>
    var running: seq<Worker>
    var log: seq<Event>
    var spawns: map<string, nat>
    var crashes: map<string, seq<nat>>
    var stopped: seq<string>
    var lastModes: map<string, string>
    var shuttingDown: bool
    ghost var history: seq<Happening>

    ghost function Model(): Supervisor
      reads this
    {
      Supervisor(profiles, running, log, spawns, crashes, stopped, lastModes, shuttingDown, history)
    }

    constructor (profiles: map<string, Profile>)
      ensures Model() == Fresh(profiles)
    {
      this.profiles := profiles;
      running, log, spawns, crashes, stopped, lastModes, shuttingDown := [], [], map[], map[], [], map[], false;
      history := [];
    }

    /** The common part of a start by the caller and an automatic one. */
    method Spawn(p: string, mode: string, spawn: Result<nat>) returns (r: Result<nat>)
      modifies this
      ensures (Model(), r) == Launch(old(Model()), p, mode, spawn)
    {
      if p !in profiles {
        return Err(UnsupportedProfile);
      }
      if p in stopped {
        return Err(Busy);
      }
      if spawn.Err? {
        return spawn;
      }
      spawns := spawns[p := SpawnsOf(spawns, p) + 1];
      running := running + [Worker(p, spawn.value, mode)];
      lastModes := lastModes[p := mode];
      log := log + [Spawned(p, spawn.value, mode)];
      return spawn;
    }

    method StartWorker(p: string, mode: string, now: nat, spawn: Result<nat>) returns (r: Result<nat>)
      modifies this
      ensures (Model(), r) == Start(old(Model()), p, mode, now, spawn)
    {
      r := Spawn(p, mode, spawn);
      if r.Ok? {
        history := history + [Manual(p, now)];
      }
    }

    method RetainCrashes(times: seq<nat>, from: nat) returns (kept: seq<nat>)
      ensures kept == Retain(times, from)
    {
      kept := [];
      var i := 0;
      while i < |times|
        invariant i <= |times| && kept == Retain(times[..i], from)
      {
        assert times[..i + 1][..i] == times[..i];
        if times[i] >= from {
          kept := kept + [times[i]];
        } else {
          AppendNothing(kept);
        }
        i := i + 1;
      }
      assert times[..i] == times;
    }

    method DecideRestart(p: string, now: nat, spawn: Result<nat>) returns (ghost verdict: Verdict)
      modifies this
      ensures Model() == MaybeRestart(old(Model()), p, now, spawn)
    {
      hide Retain;
      if p !in profiles {
        return NotRestarted;
      }
      var profile := profiles[p];
      var recent := RetainCrashes(CrashesOf(crashes, p), SatSub(now, profile.window));
      recent := recent + [now];
      crashes := crashes[p := recent];
      if |recent| > profile.maxRestarts {
        stopped := stopped + [p];
        log := log + [RestartLimitReached(p, profile.maxRestarts, profile.window)];
        history := history + [Exit(p, now, LimitReached)];
        return LimitReached;
      }
      verdict := NotRestarted;
      if p in lastModes {
        var r := Spawn(p, lastModes[p], spawn);
        if r.Ok? {
          verdict := Restarted;
        }
      }
      history := history + [Exit(p, now, verdict)];
    }

    /** The exit loop of `poll`. The two functions are the answers of the operating system to
        the n-th question: has this worker exited, and does this spawn succeed. The loop ends
        whatever they answer, even if every new worker exits at once: each automatic restart
        uses up some of what the limiter has left at this moment. */
    method Poll(now: nat, waited: nat -> Option<Option<int>>, spawned: nat -> Result<nat>)
      returns (ghost turns: seq<Turn>)
      modifies this
      ensures Model() == Play(old(Model()), turns)
      ensures forall k :: 0 <= k < |turns| ==> turns[k].Found? && turns[k].now == now
      ensures |turns| <= old(|running|) + Budget(old(Model()), Listed(profiles.Keys), now)
    {
      hide ExitFound, Budget;
      turns := [];
      ghost var ids := Listed(profiles.Keys);
      var i, n := 0, 0;
      while i < |running|
        invariant Model() == Play(old(Model()), turns) && i <= |running|
        invariant forall k :: 0 <= k < |turns| ==> turns[k].Found? && turns[k].now == now
        invariant |turns| + |running| + Budget(Model(), ids, now) <= old(|running|) + Budget(old(Model()), ids, now)
        decreases Budget(Model(), ids, now), |running| - i
      {
        var status := waited(n);
        if status.Some? {
          ghost var was := Model();
          ExitUsesBudget(was, ids, i, status.value, now, spawned(n));
          OneExit(i, status.value, now, spawned(n));
          ghost var turn := Found(i, status.value, now, spawned(n));
          Split(turns, [turn]);
          turns := turns + [turn];
        } else {
          i := i + 1;
        }
        n := n + 1;
      }
    }

    method OneExit(i: nat, code: Option<int>, now: nat, spawn: Result<nat>)
      requires i < |running|
      modifies this
      ensures Model() == ExitFound(old(Model()), i, code, now, spawn)
    {
      hide MaybeRestart;
      var worker := running[i];
      running := running[..i] + running[i + 1..];
      log := log + [Exited(worker.profileId, code)];
      if !shuttingDown {
        ghost var _ := DecideRestart(worker.profileId, now, spawn);
      }
    }

    /** Waits for every worker, kills the slow ones, forgets them all, and collects the listener
        files that are left. */
    method ShutDownAll(ghost now: nat, slow: seq<bool>, left: seq<Option<string>>)
      returns (workers: nat, killed: nat, orphans: seq<string>)
      modifies this
      ensures workers == old(|running|) && killed == Killed(slow, workers) && orphans == Orphans(left, workers)
      ensures Model() == Step(old(Model()), ShutDown(now, slow, left))
    {
      shuttingDown := true;
      workers, killed, orphans := |running|, 0, [];
      for i := 0 to workers
        invariant killed == Killed(slow, i) && Model() == old(Model()).(shuttingDown := true)
      {
        if i < |slow| && slow[i] {
          killed := killed + 1;
        }
      }
      for i := 0 to workers
        invariant orphans == Orphans(left, i) && Model() == old(Model()).(shuttingDown := true)
      {
        if i < |left| && left[i].Some? {
          orphans := orphans + [left[i].value];
        } else {
          AppendNothing(orphans);
        }
      }
      running := [];
      log := log + [Shutdown(workers, killed, |orphans|)];
    }
  }

  // ---------------------------------------------------------------- the exit loop ends

  ghost function Listed(keys: set<string>): (ids: seq<string>)
    ensures forall k :: k in keys <==> k in ids
  {
    if keys == {} then []
    else
      var k :| k in keys;
      [k] + Listed(keys - {k})
  }

  /** How many more exits of `p` at this moment the limiter would answer with a restart. */
  function BudgetOf(s: Supervisor, p: string, now: nat): nat {
    if p !in s.profiles then 0
    else
      var left := s.profiles[p].maxRestarts - |Retain(CrashesOf(s.crashes, p), SatSub(now, s.profiles[p].window))|;
      if left < 0 then 0 else left
  }

  function Budget(s: Supervisor, ids: seq<string>, now: nat): nat {
    if ids == [] then 0 else BudgetOf(s, ids[0], now) + Budget(s, ids[1..], now)
  }

  lemma {:induction false} BudgetShrinks(s: Supervisor, s': Supervisor, ids: seq<string>, p: string, now: nat)
    requires forall q :: BudgetOf(s', q, now) <= BudgetOf(s, q, now)
    ensures Budget(s', ids, now) <= Budget(s, ids, now)
    ensures p in ids && BudgetOf(s', p, now) < BudgetOf(s, p, now) ==> Budget(s', ids, now) < Budget(s, ids, now)
  {
    hide BudgetOf;
    if ids == [] {
    } else {
      BudgetShrinks(s, s', ids[1..], p, now);
    }
  }

  /** What the limiter has left for the profile of the exited worker. */
  lemma OwnBudget(s: Supervisor, p: string, now: nat, spawn: Result<nat>)
    ensures var s' := MaybeRestart(s, p, now, spawn);
            && s'.profiles == s.profiles && |s.running| <= |s'.running| <= |s.running| + 1
            && BudgetOf(s', p, now) <= BudgetOf(s, p, now)
            && (|s'.running| > |s.running| ==> p in s.profiles && BudgetOf(s', p, now) < BudgetOf(s, p, now))
  {
    hide Retain;
    if p in s.profiles {
      var from := SatSub(now, s.profiles[p].window);
      RetainLater(CrashesOf(s.crashes, p), from, from);
      RetainAppended(Retain(CrashesOf(s.crashes, p), from), now, from);
    }
  }

  lemma OtherBudget(s: Supervisor, p: string, now: nat, spawn: Result<nat>, q: string)
    requires q != p
    ensures BudgetOf(MaybeRestart(s, p, now, spawn), q, now) == BudgetOf(s, q, now)
  {
    hide Retain;
  }

  lemma ExitBudget(s: Supervisor, i: nat, code: Option<int>, now: nat, spawn: Result<nat>, q: string)
    requires i < |s.running|
    ensures var s' := ExitFound(s, i, code, now, spawn);
            && s'.profiles == s.profiles && |s.running| - 1 <= |s'.running| <= |s.running|
            && BudgetOf(s', q, now) <= BudgetOf(s, q, now)
            && (|s'.running| == |s.running| && q == s.running[i].profileId ==>
                  q in s.profiles && BudgetOf(s', q, now) < BudgetOf(s, q, now))
  {
    hide Retain, MaybeRestart;
    var p := s.running[i].profileId;
    var gone := s.(running := s.running[..i] + s.running[i + 1..], log := s.log + [Exited(p, code)]);
    if !s.shuttingDown {
      OwnBudget(gone, p, now, spawn);
      if q != p {
        OtherBudget(gone, p, now, spawn, q);
      }
    }
  }

  /** Either nothing was started in the exited worker's place, or the limiter has less left. */
  lemma ExitUsesBudget(s: Supervisor, ids: seq<string>, i: nat, code: Option<int>, now: nat, spawn: Result<nat>)
    requires i < |s.running| && forall p :: p in s.profiles ==> p in ids
    ensures var s' := ExitFound(s, i, code, now, spawn);
            && s'.profiles == s.profiles && |s.running| - 1 <= |s'.running| <= |s.running|
            && Budget(s', ids, now) <= Budget(s, ids, now)
            && (|s'.running| == |s.running| ==> Budget(s', ids, now) < Budget(s, ids, now))
  {
    hide ExitFound, BudgetOf, Budget;
    var s', p := ExitFound(s, i, code, now, spawn), s.running[i].profileId;
    forall q ensures BudgetOf(s', q, now) <= BudgetOf(s, q, now) {
      ExitBudget(s, i, code, now, spawn, q);
    }
    ExitBudget(s, i, code, now, spawn, p);
    BudgetShrinks(s, s', ids, p, now);
  }

  // ---------------------------------------------------------------- why time must not step back

  lemma PlayOneMore(s: Supervisor, turns: seq<Turn>, t: Turn)
    ensures Play(s, turns + [t]) == Step(Play(s, turns), t)
  {
    hide Step;
    Split(turns, [t]);
  }

  /** One worker of `p`, under a limit of two in any ten, with its list and its history. */
  predicate Alone(s: Supervisor, p: string, crashes: seq<nat>, h: seq<Happening>) {
    && s.profiles == map[p := Profile(2, 10)] && s.stopped == [] && !s.shuttingDown && p in s.lastModes
    && |s.running| == 1 && s.running[0].profileId == p && CrashesOf(s.crashes, p) == crashes && s.history == h
  }

  lemma RestartedAlone(s: Supervisor, p: string, crashes: seq<nat>, h: seq<Happening>, now: nat, left: seq<nat>)
    requires Alone(s, p, crashes, h) && Retain(crashes, SatSub(now, 10)) == left && |left| <= 1
    ensures Alone(Step(s, Found(0, None, now, Ok(1))), p, left + [now], h + [Exit(p, now, Restarted)])
  {
    hide Retain;
  }

  lemma FourLists()
    ensures Retain([], 0) == [] && Retain([0], 0) == [0] && Retain([0, 0], 90) == [] && Retain([100], 0) == [100]
  {
    assert [0, 0][..1] == [0] && [0][..0] == [] && [100][..0] == [];
    assert Retain([0], 90) == [];
  }

  function FoundAt(now: nat): Turn {
    Found(0, None, now, Ok(1))
  }

  lemma FourRestarts(s: Supervisor, p: string, h: seq<Happening>)
    requires Alone(s, p, [], h)
    ensures Step(Step(Step(Step(s, FoundAt(0)), FoundAt(0)), FoundAt(100)), FoundAt(5)).history
         == h + [Exit(p, 0, Restarted)] + [Exit(p, 0, Restarted)] + [Exit(p, 100, Restarted)] + [Exit(p, 5, Restarted)]
  {
    FourLists();
    hide Step, Retain;
    var s1 := Step(s, FoundAt(0));
    var s2 := Step(s1, FoundAt(0));
    var s3 := Step(s2, FoundAt(100));
    var (h1, h2) := (h + [Exit(p, 0, Restarted)], h + [Exit(p, 0, Restarted)] + [Exit(p, 0, Restarted)]);
    assert [] + [0] == [0] && [0] + [0] == [0, 0] && [] + [100] == [100];
    RestartedAlone(s, p, [], h, 0, []);
    RestartedAlone(s1, p, [0], h1, 0, [0]);
    RestartedAlone(s2, p, [0, 0], h2, 100, []);
    RestartedAlone(s3, p, [100], h2 + [Exit(p, 100, Restarted)], 5, [100]);
  }

  lemma RestartsAppended(h: seq<Happening>, e: Happening, p: string, a: nat, b: nat)
    ensures RestartsIn(h + [e], p, a, b)
         == RestartsIn(h, p, a, b)
           + (if e.Exit? && e.profileId == p && e.verdict.Restarted? && a <= e.time <= b then 1 else 0)
  {
    Split(h, [e]);
  }

  /** With a clock that steps back the bound fails: two restarts at time 0, one at 100, which
      forgets them, and one more at 5, under a limit of two in any ten. */
  lemma ClockMustNotStepBack(p: string)
    ensures var turns := [Begin(p, "", 0, Ok(1))] + [FoundAt(0)] + [FoundAt(0)] + [FoundAt(100)] + [FoundAt(5)];
            RestartsIn(Play(Fresh(map[p := Profile(2, 10)]), turns).history, p, 0, 10) == 3
  {
    var s, t0 := Fresh(map[p := Profile(2, 10)]), Begin(p, "", 0, Ok(1));
    var s0 := Step(s, t0);
    assert Alone(s0, p, [], [Manual(p, 0)]);
    FourRestarts(s0, p, [Manual(p, 0)]);
    FiveTurns(s, t0, FoundAt(0), FoundAt(0), FoundAt(100), FoundAt(5));
    hide Step, Alone, RestartsIn, Play;
    ThreeCounted(p);
  }

  lemma FiveTurns(s: Supervisor, t0: Turn, t1: Turn, t2: Turn, t3: Turn, t4: Turn)
    ensures Play(s, [t0] + [t1] + [t2] + [t3] + [t4]) == Step(Step(Step(Step(Step(s, t0), t1), t2), t3), t4)
  {
    assert Play(s, []) == s;
    hide Step, Play;
    assert [] + [t0] == [t0];
    PlayOneMore(s, [], t0);
    PlayOneMore(s, [t0], t1);
    PlayOneMore(s, [t0] + [t1], t2);
    PlayOneMore(s, [t0] + [t1] + [t2], t3);
    PlayOneMore(s, [t0] + [t1] + [t2] + [t3], t4);
  }

  lemma ThreeCounted(p: string)
    ensures RestartsIn([Manual(p, 0)] + [Exit(p, 0, Restarted)] + [Exit(p, 0, Restarted)] + [Exit(p, 100, Restarted)]
            + [Exit(p, 5, Restarted)],
                       p, 0, 10) == 3
  {
    var e0, e1, e2 := Exit(p, 0, Restarted), Exit(p, 100, Restarted), Exit(p, 5, Restarted);
    assert RestartsIn([], p, 0, 10) == 0;
    hide RestartsIn;
    assert [] + [Manual(p, 0)] == [Manual(p, 0)];
    RestartsAppended([], Manual(p, 0), p, 0, 10);
    RestartsAppended([Manual(p, 0)], e0, p, 0, 10);
    RestartsAppended([Manual(p, 0)] + [e0], e0, p, 0, 10);
    RestartsAppended([Manual(p, 0)] + [e0] + [e0], e1, p, 0, 10);
    RestartsAppended([Manual(p, 0)] + [e0] + [e0] + [e1], e2, p, 0, 10);
  }
}
