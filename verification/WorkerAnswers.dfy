/** What each call on the supervisor is answered with and what it writes into the log, told from
    what happened before. */
module WorkerAnswers {
  import opened Prelude
  import opened Workers

  // ---------------------------------------------------------------- the log tells the modes

  /** The mode in which a profile was spawned last. */
  function LastMode(log: seq<Event>, p: string): Option<string> {
    if log == [] then None
    else
      var last := log[|log| - 1];
      if last.Spawned? && last.profileId == p then Some(last.mode) else LastMode(log[..|log| - 1], p)
  }

  predicate ShutDownAmong(log: seq<Event>) {
    exists i :: 0 <= i < |log| && log[i].Shutdown?
  }

  /** The modes a supervisor restarts in are those of its log, and whoever runs was spawned. */
  ghost predicate LogTells(s: Supervisor) {
    && (forall p :: LastMode(s.log, p) == if p in s.lastModes then Some(s.lastModes[p]) else None)
    && (forall i :: 0 <= i < |s.running| ==> s.running[i].profileId in s.lastModes)
    && (forall i :: 0 <= i < |s.running| ==> s.running[i].profileId in s.profiles)
    && (s.shuttingDown <==> ShutDownAmong(s.log))
  }

  lemma LastModeAppended(log: seq<Event>, e: Event, p: string)
    ensures LastMode(log + [e], p) ==
            if e.Spawned? && e.profileId == p then Some(e.mode) else LastMode(log, p)
  {
    Split(log, [e]);
  }

  lemma ShutDownAppended(log: seq<Event>, e: Event)
    ensures ShutDownAmong(log + [e]) <==> ShutDownAmong(log) || e.Shutdown?
  {
    var all := log + [e];
    assert all[|log|] == e;
    assert forall i :: 0 <= i < |log| ==> all[i] == log[i];
  }

  /** One more event in the log, and what has to follow in the rest of the state. */
  lemma LogAppended(s: Supervisor, s': Supervisor, e: Event)
    requires LogTells(s) && s'.log == s.log + [e] && s'.profiles == s.profiles
    requires s'.lastModes == if e.Spawned? then s.lastModes[e.profileId := e.mode] else s.lastModes
    requires s'.shuttingDown == (s.shuttingDown || e.Shutdown?)
    requires forall w :: w in s'.running ==>
               w in s.running || (e.Spawned? && w.profileId == e.profileId && e.profileId in s.profiles)
    ensures LogTells(s')
  {
    hide LastMode, ShutDownAmong;
    ShutDownAppended(s.log, e);
    forall p ensures LastMode(s'.log, p) == if p in s'.lastModes then Some(s'.lastModes[p]) else None {
      LastModeAppended(s.log, e, p);
    }
    forall i | 0 <= i < |s'.running|
      ensures s'.running[i].profileId in s'.lastModes && s'.running[i].profileId in s'.profiles
    {
      assert s'.running[i] in s'.running;
    }
  }

  lemma LaunchTells(s: Supervisor, p: string, mode: string, spawn: Result<nat>)
    requires LogTells(s)
    ensures LogTells(Launch(s, p, mode, spawn).0)
  {
    hide LogTells;
    if p in s.profiles && p !in s.stopped && spawn.Ok? {
      LogAppended(s, Launch(s, p, mode, spawn).0, Spawned(p, spawn.value, mode));
    }
  }

  /** What the log knows nothing of. */
  lemma TellsAlike(s: Supervisor, s': Supervisor)
    requires LogTells(s)
    requires s'.log == s.log && s'.lastModes == s.lastModes && s'.running == s.running && s'.profiles == s.profiles
    requires s'.shuttingDown == s.shuttingDown
    ensures LogTells(s')
  {
    hide LastMode, ShutDownAmong;
  }

  lemma RestartTells(s: Supervisor, p: string, now: nat, spawn: Result<nat>)
    requires LogTells(s)
    ensures LogTells(MaybeRestart(s, p, now, spawn))
  {
    hide LogTells, Retain;
    var s' := MaybeRestart(s, p, now, spawn);
    if p in s.profiles {
      var (max, window) := (s.profiles[p].maxRestarts, s.profiles[p].window);
      var recent := Retain(CrashesOf(s.crashes, p), SatSub(now, window)) + [now];
      var t := s.(crashes := s.crashes[p := recent]);
      TellsAlike(s, t);
      if |recent| > max {
        LogAppended(s, s', RestartLimitReached(p, max, window));
      } else if p in s.lastModes {
        LaunchTells(t, p, s.lastModes[p], spawn);
        TellsAlike(Launch(t, p, s.lastModes[p], spawn).0, s');
      } else {
        TellsAlike(s, s');
      }
    }
  }

  lemma StepTells(s: Supervisor, t: Turn)
    requires LogTells(s)
    ensures LogTells(Step(s, t))
  {
    hide LogTells, MaybeRestart, Launch, Killed, Orphans;
    match t
    case Begin(p, mode, now, spawn) =>
      LaunchTells(s, p, mode, spawn);
      TellsAlike(Launch(s, p, mode, spawn).0, Step(s, t));
    case Found(i, code, now, spawn) =>
      if i < |s.running| {
        var p := s.running[i].profileId;
        var gone := s.(running := s.running[..i] + s.running[i + 1..], log := s.log + [Exited(p, code)]);
        LogAppended(s, gone, Exited(p, code));
        RestartTells(gone, p, now, spawn);
      }
    case ShutDown(_, slow, left) =>
      var n := |s.running|;
      LogAppended(s, Step(s, t), Shutdown(n, Killed(slow, n), |Orphans(left, n)|));
  }

  lemma {:induction false} RunTells(profiles: map<string, Profile>, turns: seq<Turn>)
    ensures LogTells(Play(Fresh(profiles), turns))
    decreases |turns|
  {
    hide Step;
    if turns == [] {
    } else {
      hide LogTells;
      RunTells(profiles, turns[..|turns| - 1]);
      StepTells(Play(Fresh(profiles), turns[..|turns| - 1]), turns[|turns| - 1]);
    }
  }

  // ---------------------------------------------------------------- the answers

  /** What a start is answered with after any run. An unknown profile and one that has reached
      its limit are told apart, and are refused whatever the operating system would do; then the
      answer is the operating system's, and a worker that was started runs and is in the log. */
  lemma StartAnswer(profiles: map<string, Profile>, turns: seq<Turn>, p: string, mode: string, now: nat,
      spawn: Result<nat>)
    ensures var s := Play(Fresh(profiles), turns);
            var (t, r) := Start(s, p, mode, now, spawn);
            && r == (if p !in profiles then Err(UnsupportedProfile)
                     else if HasStopped(s.history, p) then Err(Busy) else spawn)
            && (r.Err? ==> t == s)
            && (r.Ok? ==>
                  && t.running == s.running + [Worker(p, r.value, mode)]
                  && t.log == s.log + [Spawned(p, r.value, mode)]
                  && t.history == s.history + [Manual(p, now)])
  {
    hide Play, HasStopped, Remembered, Decided, StoppedStay, StartsOf;
    RunKeeps(profiles, turns);
  }

  /** What the supervisor makes of an exit it found, after any run: that worker and no other is
      gone, and its exit is in the log. Once it is shutting down that is all. Before, the exit is
      counted; if it is one too many, so the log says, and nothing starts. Otherwise the profile
      starts again, in the mode in which it was spawned last - unless it had reached its limit
      earlier, or the operating system fails to spawn. */
  lemma ExitAnswer(profiles: map<string, Profile>, turns: seq<Turn>, i: nat, code: Option<int>, now: nat,
      spawn: Result<nat>)
    requires i < |Play(Fresh(profiles), turns).running|
    ensures var s := Play(Fresh(profiles), turns);
            var t := Step(s, Found(i, code, now, spawn));
            var p, others := s.running[i].profileId, s.running[..i] + s.running[i + 1..];
            && p in profiles && LastMode(s.log, p).Some?
            && (ShutDownAmong(s.log) ==>
                  t.running == others && t.log == s.log + [Exited(p, code)] && t.history == s.history)
            && (!ShutDownAmong(s.log) ==>
                  var kept := Remembered(s.history + [Exit(p, now, NotRestarted)], p, profiles[p].window);
                  var mode := LastMode(s.log, p).value;
                  if |kept| > profiles[p].maxRestarts then
                    && t.running == others && t.history == s.history + [Exit(p, now, LimitReached)]
                    && t.log == s.log + [Exited(p, code)]
                                + [RestartLimitReached(p, profiles[p].maxRestarts, profiles[p].window)]
                  else if HasStopped(s.history, p) || spawn.Err? then
                    && t.running == others && t.history == s.history + [Exit(p, now, NotRestarted)]
                    && t.log == s.log + [Exited(p, code)]
                  else
                    && t.running == others + [Worker(p, spawn.value, mode)]
                    && t.history == s.history + [Exit(p, now, Restarted)]
                    && t.log == s.log + [Exited(p, code)] + [Spawned(p, spawn.value, mode)])
  {
    hide Play, HasStopped, Decided, StoppedStay, StartsOf, LastMode, ShutDownAmong, Retain;
    RunKeeps(profiles, turns);
    RunTells(profiles, turns);
    var s := Play(Fresh(profiles), turns);
    Split(s.history, [Exit(s.running[i].profileId, now, NotRestarted)]);
  }

  // ---------------------------------------------------------------- shutting down

  lemma {:induction false} KilledAreSlow(slow: seq<bool>, n: nat)
    ensures Killed(slow, n) == |set k | 0 <= k < n && k < |slow| && slow[k]|
    decreases n
  {
    var those := set k | 0 <= k < n && k < |slow| && slow[k];
    if n == 0 {
      assert those == {};
    } else {
      var before := set k | 0 <= k < n - 1 && k < |slow| && slow[k];
      KilledAreSlow(slow, n - 1);
      if n <= |slow| && slow[n - 1] {
        assert those == before + {n - 1};
      } else {
        assert those == before;
      }
    }
  }

  /** Worker `k` left a listener file behind. */
  predicate Left(left: seq<Option<string>>, k: nat) {
    k < |left| && left[k].Some?
  }

  /** How many of the first `n` left one. */
  function LeftBehind(left: seq<Option<string>>, n: nat): nat {
    |set k: nat | k < n && Left(left, k)|
  }

  /** The file of worker `k` stands behind those of the workers before it, and there are no others. */
  ghost predicate InPlace(left: seq<Option<string>>, n: nat, paths: seq<string>) {
    && |paths| == LeftBehind(left, n)
    && forall k: nat :: k < n && Left(left, k) ==>
         LeftBehind(left, k) < |paths| && paths[LeftBehind(left, k)] == left[k].value
  }

  lemma InPlaceNext(left: seq<Option<string>>, n: nat, paths: seq<string>)
    requires InPlace(left, n, paths)
    ensures InPlace(left, n + 1, paths + if Left(left, n) then [left[n].value] else [])
  {
    LeftBehindNext(left, n);
    hide LeftBehind;
    var more := paths + if Left(left, n) then [left[n].value] else [];
    forall k: nat | k < n + 1 && Left(left, k)
      ensures LeftBehind(left, k) < |more| && more[LeftBehind(left, k)] == left[k].value
    {
      assert k < n ==> more[LeftBehind(left, k)] == paths[LeftBehind(left, k)];
    }
  }

  lemma NothingInPlace(left: seq<Option<string>>)
    ensures InPlace(left, 0, [])
  {
    assert (set k: nat | k < 0 && Left(left, k)) == {};
  }

  /** The listener files stand in the order of their workers. */
  lemma {:induction false} OrphansInOrder(left: seq<Option<string>>, n: nat)
    ensures InPlace(left, n, Orphans(left, n))
    decreases n
  {
    hide InPlace;
    if n == 0 {
      NothingInPlace(left);
    } else {
      OrphansInOrder(left, n - 1);
      InPlaceNext(left, n - 1, Orphans(left, n - 1));
    }
  }

  lemma LeftBehindNext(left: seq<Option<string>>, n: nat)
    ensures LeftBehind(left, n + 1) == LeftBehind(left, n) + if Left(left, n) then 1 else 0
  {
    var those, before := set k: nat | k < n + 1 && Left(left, k), set k: nat | k < n && Left(left, k);
    if Left(left, n) {
      assert those == before + {n};
    } else {
      assert those == before;
    }
  }

  /** Shutting down, after any run: nobody runs, and the log ends on how many did, how many of
      them had to be killed, and how many left a listener file. Nothing is restarted afterwards. */
  lemma ShutDownAnswer(profiles: map<string, Profile>, turns: seq<Turn>, now: nat, slow: seq<bool>,
      left: seq<Option<string>>)
    ensures var s := Play(Fresh(profiles), turns);
            var t := Step(s, ShutDown(now, slow, left));
            var n := |s.running|;
            && t.running == [] && t.history == s.history
            && t.log == s.log + [Shutdown(n, |set k | 0 <= k < n && k < |slow| && slow[k]|, LeftBehind(left, n))]
            && ShutDownAmong(t.log)
  {
    hide Play, LeftBehind, Killed, Orphans, LastMode, ShutDownAmong;
    var s := Play(Fresh(profiles), turns);
    KilledAreSlow(slow, |s.running|);
    OrphansInOrder(left, |s.running|);
    ShutDownAppended(s.log, Shutdown(|s.running|, Killed(slow, |s.running|), |Orphans(left, |s.running|)|));
  }
}
