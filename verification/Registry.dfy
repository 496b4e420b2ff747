/** The session registry of interop-runtime/src/session.rs: one place that decides offers,
    cancels, fails and recovers sessions. The order in which a hash map is walked is not
    fixed, so the list of cleanups is stated as a multiset. */
module Registry {
  import opened Prelude

  datatype DecisionState =
    | Pending
    | Accepted
    | Rejected
    | Expired
    | Active
    | Cancelling
    | Cancelled
    | Failed
    | Completed

  datatype SessionState = SActive | SCancelling | SCancelled | SFailed | SCompleted

  datatype Offer = Offer(deadline: nat, state: DecisionState)

  datatype Session = Session(
    profileId: string, providerId: string, state: SessionState,
    worker: Option<string>, deadline: Option<nat>, registeredAt: nat)

  datatype State = State(
    offers: map<string, Offer>, sessions: map<string, Session>, terminalDecisions: nat, cleanups: multiset<string>)

  const EMPTY := State(map[], map[], 0, multiset{})

  function AsDecision(s: SessionState): DecisionState {
    match s
    case SActive => Active case SCancelling => Cancelling case SCancelled => Cancelled
    case SFailed => Failed case SCompleted => Completed
  }

  /** `Pending` becomes `verdict`; whatever was decided before stays and is the answer. */
  function Decide(s: State, id: string, verdict: DecisionState): (State, DecisionState)
    requires id in s.offers
  {
    if s.offers[id].state.Pending? then
      (s.(offers := s.offers[id := s.offers[id].(state := verdict)], terminalDecisions := s.terminalDecisions + 1),
        verdict)
    else (s, s.offers[id].state)
  }

  function Accept(s: State, id: string, now: nat): (State, DecisionState) {
    if id !in s.offers then (s, Rejected)
    else Decide(s, id, if now > s.offers[id].deadline then Expired else Accepted)
  }

  function Expire(s: State, id: string): (State, DecisionState) {
    if id !in s.offers then (s, Expired) else Decide(s, id, Expired)
  }

  function Cancel(s: State, id: string): (State, DecisionState) {
    if id !in s.sessions then (s, Cancelled)
    else
      var r := s.sessions[id];
      if r.state.SActive? || r.state.SCancelling? then
        (s.(sessions := s.sessions[id := r.(state := SCancelled)],
            cleanups := if r.state.SActive? then s.cleanups + multiset{id} else s.cleanups), Cancelled)
      else (s, AsDecision(r.state))
  }

  /** The active sessions that hang on a worker. */
  function HostedBy(sessions: map<string, Session>, worker: string): set<string> {
    set id | id in sessions && sessions[id].worker == Some(worker) && sessions[id].state.SActive?
  }

  /** The active sessions whose deadline has passed. */
  function Overdue(sessions: map<string, Session>, now: nat): set<string> {
    set id | id in sessions && sessions[id].state.SActive? && sessions[id].deadline.Some?
      && now > sessions[id].deadline.value
  }

  function FailSessions(s: State, hit: set<string>): State {
    s.(sessions := map id | id in s.sessions :: if id in hit then s.sessions[id].(state := SFailed) else s.sessions[id],
       cleanups := s.cleanups + multiset(hit))
  }

  datatype Op =
    | RegisterOffer(id: string, deadline: nat)
    | DoAccept(id: string, now: nat)
    | DoExpire(id: string)
    | RegisterSession(id: string, profileId: string, providerId: string, now: nat)
    | SetDeadline(id: string, deadline: nat)
    | AttachWorker(id: string, worker: string)
    | DoCancel(id: string)
    | WorkerCrashed(worker: string)
    | Sweep(now: nat)

  function Apply(s: State, op: Op): State {
    match op
    case RegisterOffer(id, deadline) => s.(offers := s.offers[id := Offer(deadline, Pending)])
    case DoAccept(id, now) => Accept(s, id, now).0
    case DoExpire(id) => Expire(s, id).0
    case RegisterSession(id, profile, provider, now) =>
      s.(sessions := s.sessions[id := Session(profile, provider, SActive, None, None, now)])
    case SetDeadline(id, deadline) =>
      if id in s.sessions then s.(sessions := s.sessions[id := s.sessions[id].(deadline := Some(deadline))]) else s
    case AttachWorker(id, worker) =>
      if id in s.sessions then s.(sessions := s.sessions[id := s.sessions[id].(worker := Some(worker))]) else s
    case DoCancel(id) => Cancel(s, id).0
    case WorkerCrashed(worker) => FailSessions(s, HostedBy(s.sessions, worker))
    case Sweep(now) => FailSessions(s, Overdue(s.sessions, now))
  }

  function Run(s: State, ops: seq<Op>): State {
    if ops == [] then s else Apply(Run(s, ops[..|ops| - 1]), ops[|ops| - 1])
  }

  // ---------------------------------------------------------------- the order of the answers

  /** Character by character, the shorter first when one begins the other. */
  predicate AtMost(a: string, b: string)
    decreases |a|
  {
    a == "" || (b != "" && (a[0] < b[0] || (a[0] == b[0] && AtMost(a[1..], b[1..]))))
  }

  lemma {:induction false} AtMostTotal(a: string, b: string)
    ensures AtMost(a, b) || AtMost(b, a)
    decreases |a|
  {
    if a == "" || b == "" {
    } else {
      AtMostTotal(a[1..], b[1..]);
    }
  }

  lemma {:induction false} AtMostTransitive(a: string, b: string, c: string)
    requires AtMost(a, b) && AtMost(b, c)
    ensures AtMost(a, c)
    decreases |a|
  {
    if a == "" || b[0] < c[0] || a[0] < b[0] {
    } else {
      AtMostTransitive(a[1..], b[1..], c[1..]);
    }
  }

  lemma NothingInOrder()
    ensures InOrder([])
  {
  }

  predicate InOrder(ids: seq<string>) {
    forall i, j :: 0 <= i < j < |ids| ==> AtMost(ids[i], ids[j])
  }

  function Insert(ids: seq<string>, id: string): (r: seq<string>) {
    if ids == [] then [id]
    else if AtMost(id, ids[0]) then [id] + ids
    else [ids[0]] + Insert(ids[1..], id)
  }

  lemma {:induction false} InsertKeeps(ids: seq<string>, id: string)
    requires InOrder(ids)
    ensures InOrder(Insert(ids, id)) && multiset(Insert(ids, id)) == multiset(ids) + multiset{id}
    decreases |ids|
  {
    if ids == [] {
    } else if AtMost(id, ids[0]) {
      forall j | 0 <= j < |ids| ensures AtMost(id, ids[j]) {
        if j > 0 {
          AtMostTransitive(id, ids[0], ids[j]);
        }
      }
    } else {
      AtMostTotal(id, ids[0]);
      var tail := Insert(ids[1..], id);
      InsertKeeps(ids[1..], id);
      HeadTail(ids);
      forall j | 0 <= j < |tail| ensures AtMost(ids[0], tail[j]) {
        assert tail[j] in multiset(tail);
        assert tail[j] == id || tail[j] in ids[1..];
      }
    }
  }

  // ---------------------------------------------------------------- the object

  class SessionRegistry {
    var offers: map<string, Offer>
    var sessions: map<string, Session>
    var terminalDecisions: nat
    var cleanups: seq<string>

    ghost function Model(): State
      reads this
    {
      State(offers, sessions, terminalDecisions, multiset(cleanups))
    }

    constructor ()
      ensures Model() == EMPTY
    {
      offers, sessions, terminalDecisions, cleanups := map[], map[], 0, [];
    }

    method DecideAccept(id: string, now: nat) returns (answer: DecisionState)
      modifies this
      ensures (Model(), answer) == Accept(old(Model()), id, now)
    {
      if id !in offers {
        return Rejected;
      }
      var rec := offers[id];
      if !rec.state.Pending? {
        return rec.state;
      }
      answer := if now > rec.deadline then Expired else Accepted;
      offers := offers[id := rec.(state := answer)];
      terminalDecisions := terminalDecisions + 1;
    }

    method ExpireOffer(id: string) returns (answer: DecisionState)
      modifies this
      ensures (Model(), answer) == Expire(old(Model()), id)
    {
      if id !in offers {
        return Expired;
      }
      var rec := offers[id];
      if !rec.state.Pending? {
        return rec.state;
      }
      offers := offers[id := rec.(state := Expired)];
      terminalDecisions := terminalDecisions + 1;
      return Expired;
    }

    method AddOffer(id: string, deadline: nat)
      modifies `offers
      ensures Model() == Apply(old(Model()), RegisterOffer(id, deadline))
    {
      offers := offers[id := Offer(deadline, Pending)];
    }

    method AddSession(id: string, profileId: string, providerId: string, now: nat)
      modifies `sessions
      ensures Model() == Apply(old(Model()), RegisterSession(id, profileId, providerId, now))
    {
      sessions := sessions[id := Session(profileId, providerId, SActive, None, None, now)];
    }

    method SetSessionDeadline(id: string, deadline: nat)
      modifies `sessions
      ensures Model() == Apply(old(Model()), SetDeadline(id, deadline))
    {
      if id in sessions {
        sessions := sessions[id := sessions[id].(deadline := Some(deadline))];
      }
    }

    method AttachTo(id: string, worker: string)
      modifies `sessions
      ensures Model() == Apply(old(Model()), AttachWorker(id, worker))
    {
      if id in sessions {
        sessions := sessions[id := sessions[id].(worker := Some(worker))];
      }
    }

    method CancelSession(id: string) returns (answer: DecisionState)
      modifies this
      ensures (Model(), answer) == Cancel(old(Model()), id)
    {
      if id !in sessions {
        return Cancelled;
      }
      var rec := sessions[id];
      if rec.state.SActive? || rec.state.SCancelling? {
        sessions := sessions[id := rec.(state := SCancelled)];
        if rec.state.SActive? {
          cleanups := cleanups + [id];
        }
        return Cancelled;
      }
      return AsDecision(rec.state);
    }

    /** Every active session of the worker fails; the answer names them. */
    method CrashWorker(worker: string) returns (affected: seq<string>)
      modifies this
      ensures Model() == FailSessions(old(Model()), HostedBy(old(sessions), worker))
      ensures multiset(affected) == multiset(HostedBy(old(sessions), worker)) && InOrder(affected)
    {
      hide Progress, FailSessions;
      ghost var hit := HostedBy(sessions, worker);
      affected := [];
      var todo := sessions.Keys;
      WalkStarts(sessions, hit);
      while todo != {}
        invariant todo <= sessions.Keys == old(sessions).Keys && Progress(old(sessions), sessions, hit, todo, affected)
        invariant offers == old(offers) && terminalDecisions == old(terminalDecisions) && cleanups == old(cleanups)
        decreases |todo|
      {
        var id :| id in todo;
        Walked(old(sessions), sessions, hit, todo, affected, id);
        todo := todo - {id};
        if sessions[id].worker == Some(worker) && sessions[id].state.SActive? {
          sessions := sessions[id := sessions[id].(state := SFailed)];
          affected := affected + [id];
        }
      }
      WalkDone(old(Model()), sessions, hit, affected);
      CleanUp(affected);
      affected := SortIds(affected);
    }

    /** Every active session past its deadline fails; the answer names them. */
    method SweepDeadlines(now: nat) returns (expired: seq<string>)
      modifies this
      ensures Model() == FailSessions(old(Model()), Overdue(old(sessions), now))
      ensures multiset(expired) == multiset(Overdue(old(sessions), now)) && InOrder(expired)
    {
      hide Progress, FailSessions;
      ghost var hit := Overdue(sessions, now);
      expired := [];
      var todo := sessions.Keys;
      WalkStarts(sessions, hit);
      while todo != {}
        invariant todo <= sessions.Keys == old(sessions).Keys && Progress(old(sessions), sessions, hit, todo, expired)
        invariant offers == old(offers) && terminalDecisions == old(terminalDecisions) && cleanups == old(cleanups)
        decreases |todo|
      {
        var id :| id in todo;
        Walked(old(sessions), sessions, hit, todo, expired, id);
        todo := todo - {id};
        if sessions[id].state.SActive? {
          if sessions[id].deadline.Some? && now > sessions[id].deadline.value {
            sessions := sessions[id := sessions[id].(state := SFailed)];
            expired := expired + [id];
          }
        }
      }
      WalkDone(old(Model()), sessions, hit, expired);
      CleanUp(expired);
      expired := SortIds(expired);
    }

    method SortIds(ids: seq<string>) returns (sorted: seq<string>)
      ensures multiset(sorted) == multiset(ids) && InOrder(sorted)
    {
      hide InOrder, Insert;
      sorted := [];
      NothingInOrder();
      var i := 0;
      while i < |ids|
        invariant i <= |ids| && multiset(sorted) == multiset(ids[..i]) && InOrder(sorted)
      {
        InsertKeeps(sorted, ids[i]);
        sorted := Insert(sorted, ids[i]);
        assert ids[..i + 1] == ids[..i] + [ids[i]];
        i := i + 1;
      }
      assert ids[..i] == ids;
    }

    method CleanUp(ids: seq<string>)
      modifies `cleanups
      ensures multiset(cleanups) == multiset(old(cleanups)) + multiset(ids)
    {
      var i := 0;
      while i < |ids|
        invariant i <= |ids| && cleanups == old(cleanups) + ids[..i]
      {
        cleanups := cleanups + [ids[i]];
        i := i + 1;
      }
      assert ids[..i] == ids;
    }
  }

  /** The sessions walked so far have been treated, the others have not. */
  ghost predicate Progress(was: map<string, Session>, is_: map<string, Session>, hit: set<string>, todo: set<string>,
      found: seq<string>)
  {
    && is_.Keys == was.Keys
    && (forall id :: id in was ==>
          is_[id] == if id in hit && id !in todo then was[id].(state := SFailed) else was[id])
    && multiset(found) == multiset(hit - todo)
  }

  lemma WalkStarts(was: map<string, Session>, hit: set<string>)
    requires hit <= was.Keys
    ensures Progress(was, was, hit, was.Keys, [])
  {
    assert hit - was.Keys == {};
  }

  lemma Walked(was: map<string, Session>, is_: map<string, Session>, hit: set<string>, todo: set<string>,
      found: seq<string>, id: string)
    requires Progress(was, is_, hit, todo, found) && id in todo && id in was
    ensures id in is_ && is_[id] == was[id]
    ensures id in hit ==> Progress(was, is_[id := was[id].(state := SFailed)], hit, todo - {id}, found + [id])
    ensures id !in hit ==> Progress(was, is_, hit, todo - {id}, found)
  {
    if id in hit {
      assert hit - (todo - {id}) == (hit - todo) + {id};
      assert multiset((hit - todo) + {id}) == multiset(hit - todo) + multiset{id};
    } else {
      assert hit - (todo - {id}) == hit - todo;
    }
  }

  lemma WalkDone(was: State, is_: map<string, Session>, hit: set<string>, found: seq<string>)
    requires Progress(was.sessions, is_, hit, {}, found)
    ensures FailSessions(was, hit) == was.(sessions := is_, cleanups := was.cleanups + multiset(found))
    ensures multiset(found) == multiset(hit)
  {
    assert hit - {} == hit;
    assert is_ == FailSessions(was, hit).sessions;
  }

  // ---------------------------------------------------------------- what every step keeps

  /** The offers that have left `Pending`. */
  function Decided(offers: map<string, Offer>): set<string> {
    set id | id in offers && !offers[id].state.Pending?
  }

  predicate Finished(sessions: map<string, Session>, id: string) {
    id in sessions && (sessions[id].state.SCancelled? || sessions[id].state.SFailed?)
  }

  /** The counter counts the decided offers, and each cancelled or failed session has been
      cleaned up once, the others not at all. */
  ghost predicate Balanced(s: State) {
    s.terminalDecisions == |Decided(s.offers)| && CleanedOnce(s)
  }

  /** No operation leaves a session in `Cancelling`; one that were in it would be cancelled
      without being cleaned up. */
  ghost predicate CleanedOnce(s: State) {
    && (forall id :: s.cleanups[id] == if Finished(s.sessions, id) then 1 else 0)
    && (forall id :: id in s.sessions ==> !s.sessions[id].state.SCancelling?)
  }

  /** An operation that does not put a new record over a decided offer or a cleaned-up session. */
  predicate Fresh(s: State, op: Op) {
    match op
    case RegisterOffer(id, _) => id !in Decided(s.offers)
    case RegisterSession(id, _, _, _) => !Finished(s.sessions, id)
    case _ => true
  }

  lemma DecidedGrows(offers: map<string, Offer>, id: string, o: Offer)
    requires id !in Decided(offers)
    ensures Decided(offers[id := o]) == if o.state.Pending? then Decided(offers) else Decided(offers) + {id}
  {
  }

  lemma DecidedShrinks(offers: map<string, Offer>, id: string, o: Offer)
    requires id in Decided(offers) && o.state.Pending?
    ensures |Decided(offers[id := o])| == |Decided(offers)| - 1
  {
    assert Decided(offers[id := o]) == Decided(offers) - {id};
  }

  lemma DecideStep(s: State, id: string, verdict: DecisionState)
    requires id in s.offers && !verdict.Pending? && s.terminalDecisions == |Decided(s.offers)|
    ensures var s' := Decide(s, id, verdict).0; s'.terminalDecisions == |Decided(s'.offers)|
  {
    if s.offers[id].state.Pending? {
      DecidedGrows(s.offers, id, s.offers[id].(state := verdict));
    }
  }

  lemma OfferStep(s: State, op: Op)
    requires s.terminalDecisions == |Decided(s.offers)|
    ensures var s' := Apply(s, op);
            s'.terminalDecisions == |Decided(s'.offers)| <==> (op.RegisterOffer? ==> op.id !in Decided(s.offers))
  {
    hide Decided, Decide;
    match op
    case RegisterOffer(id, deadline) =>
      if id in Decided(s.offers) {
        DecidedShrinks(s.offers, id, Offer(deadline, Pending));
      } else {
        DecidedGrows(s.offers, id, Offer(deadline, Pending));
      }
    case DoAccept(id, now) =>
      if id in s.offers {
        DecideStep(s, id, if now > s.offers[id].deadline then Expired else Accepted);
      }
    case DoExpire(id) =>
      if id in s.offers {
        DecideStep(s, id, Expired);
      }
    case _ =>
  }

  lemma FailKeepsCleaned(s: State, hit: set<string>)
    requires CleanedOnce(s) && forall id :: id in hit ==> id in s.sessions && s.sessions[id].state.SActive?
    ensures CleanedOnce(FailSessions(s, hit))
  {
  }

  /** Replacing one record: the others count as before. */
  lemma RecordKeepsCleaned(s: State, id: string, r: Session, cleanups: multiset<string>)
    requires CleanedOnce(s)
    requires cleanups == s.cleanups || cleanups == s.cleanups + multiset{id}
    requires !r.state.SCancelling?
    ensures CleanedOnce(s.(sessions := s.sessions[id := r], cleanups := cleanups))
       <==> cleanups[id] == if r.state.SCancelled? || r.state.SFailed? then 1 else 0
  {
    var s' := s.(sessions := s.sessions[id := r], cleanups := cleanups);
    assert Finished(s'.sessions, id) <==> r.state.SCancelled? || r.state.SFailed?;
    assert forall o :: o != id ==> (Finished(s'.sessions, o) <==> Finished(s.sessions, o));
  }

  lemma SessionStep(s: State, op: Op)
    requires CleanedOnce(s)
    ensures CleanedOnce(Apply(s, op)) <==> (op.RegisterSession? ==> !Finished(s.sessions, op.id))
  {
    hide HostedBy, Overdue, FailSessions;
    match op
    case RegisterSession(id, profile, provider, now) =>
      RecordKeepsCleaned(s, id, Session(profile, provider, SActive, None, None, now), s.cleanups);
    case SetDeadline(id, deadline) =>
      if id in s.sessions {
        RecordKeepsCleaned(s, id, s.sessions[id].(deadline := Some(deadline)), s.cleanups);
      }
    case AttachWorker(id, worker) =>
      if id in s.sessions {
        RecordKeepsCleaned(s, id, s.sessions[id].(worker := Some(worker)), s.cleanups);
      }
    case DoCancel(id) =>
      if id in s.sessions && (s.sessions[id].state.SActive? || s.sessions[id].state.SCancelling?) {
        RecordKeepsCleaned(s, id, s.sessions[id].(state := SCancelled), Cancel(s, id).0.cleanups);
      }
    case WorkerCrashed(worker) =>
      HitsAreActive(s, worker, 0);
      FailKeepsCleaned(s, HostedBy(s.sessions, worker));
    case Sweep(now) =>
      HitsAreActive(s, "", now);
      FailKeepsCleaned(s, Overdue(s.sessions, now));
    case _ =>
  }

  lemma HitsAreActive(s: State, worker: string, now: nat)
    ensures forall id :: id in HostedBy(s.sessions, worker) ==> id in s.sessions && s.sessions[id].state.SActive?
    ensures forall id :: id in Overdue(s.sessions, now) ==> id in s.sessions && s.sessions[id].state.SActive?
  {
  }

  /** Every operation keeps the balance, except exactly those that register over a decided
      offer or over a cancelled or failed session: the registry does not look. */
  lemma StepKeepsBalanceIff(s: State, op: Op)
    requires Balanced(s)
    ensures Balanced(Apply(s, op)) <==> Fresh(s, op)
  {
    hide Apply, Decided, Finished, CleanedOnce;
    OfferStep(s, op);
    SessionStep(s, op);
  }

  lemma RunOneMore(s: State, ops: seq<Op>, op: Op)
    ensures Run(s, ops + [op]) == Apply(Run(s, ops), op)
  {
    hide Apply;
    Split(ops, [op]);
  }

  /** Three operations are enough: an offer is registered, decided and registered again, and the
      counter tells of a decision that no offer shows. Decided again, it has been counted twice. */
  lemma RegisteredAgainCountsTwice(id: string, deadline: nat, now: nat)
    requires now <= deadline
    ensures var again := [RegisterOffer(id, deadline)] + [DoAccept(id, now)] + [RegisterOffer(id, deadline)];
            var (s, t) := (Run(EMPTY, again), Run(EMPTY, again + [DoAccept(id, now)]));
            && !Balanced(s) && s.terminalDecisions == 1 && Decided(s.offers) == {}
            && !Balanced(t) && t.terminalDecisions == 2 && Decided(t.offers) == {id}
  {
    var (r, d) := (RegisterOffer(id, deadline), DoAccept(id, now));
    assert [] + [r] == [r] && Run(EMPTY, []) == EMPTY;
    RunOneMore(EMPTY, [], r);
    RunOneMore(EMPTY, [r], d);
    RunOneMore(EMPTY, [r] + [d], r);
    RunOneMore(EMPTY, [r] + [d] + [r], d);
    hide Run;
    var s, t := Run(EMPTY, [r] + [d] + [r]), Run(EMPTY, [r] + [d] + [r] + [d]);
    assert s.offers == map[id := Offer(deadline, Pending)] && s.terminalDecisions == 1;
    assert t.offers == map[id := Offer(deadline, Accepted)] && t.terminalDecisions == 2;
    assert Decided(s.offers) == {} && Decided(t.offers) == {id};
  }

  /** A session cancelled, registered again and cancelled again has been cleaned up twice. */
  lemma RegisteredAgainCleansTwice(id: string, profile: string, provider: string, now: nat)
    ensures var r := RegisterSession(id, profile, provider, now);
            var s := Run(EMPTY, [r] + [DoCancel(id)] + [r] + [DoCancel(id)]);
            !Balanced(s) && s.cleanups[id] == 2
  {
    var (r, d) := (RegisterSession(id, profile, provider, now), DoCancel(id));
    assert [] + [r] == [r] && Run(EMPTY, []) == EMPTY;
    RunOneMore(EMPTY, [], r);
    RunOneMore(EMPTY, [r], d);
    RunOneMore(EMPTY, [r] + [d], r);
    RunOneMore(EMPTY, [r] + [d] + [r], d);
    hide Run;
    var s1 := Run(EMPTY, [r] + [d]);
    assert s1.cleanups[id] == 1 && id in s1.sessions;
    var s2 := Run(EMPTY, [r] + [d] + [r]);
    assert s2.cleanups[id] == 1 && s2.sessions[id].state.SActive?;
    var s := Run(EMPTY, [r] + [d] + [r] + [d]);
    assert s.cleanups[id] == 2;
    assert !CleanedOnce(s);
  }

  predicate AllFresh(s: State, ops: seq<Op>) {
    ops == [] || (AllFresh(s, ops[..|ops| - 1]) && Fresh(Run(s, ops[..|ops| - 1]), ops[|ops| - 1]))
  }

  /** How often an offer has left `Pending` along a run. */
  function Departures(s: State, ops: seq<Op>, id: string): nat {
    if ops == [] then 0
    else
      var before := Run(s, ops[..|ops| - 1]);
      Departures(s, ops[..|ops| - 1], id)
      + (if id !in Decided(before.offers) && id in Decided(Apply(before, ops[|ops| - 1]).offers) then 1 else 0)
  }

  lemma DecidedStays(s: State, op: Op, id: string)
    requires Fresh(s, op) && id in Decided(s.offers)
    ensures id in Decided(Apply(s, op).offers) && Apply(s, op).offers[id] == s.offers[id]
  {
  }

  /** Under any interleaving with fresh ids: the counter is the number of decided offers,
      each offer has left `Pending` once if it is decided and never otherwise, and the
      cleanups hold each cancelled or failed session once and nothing else. */
  lemma {:induction false} RunsStayBalanced(ops: seq<Op>, id: string)
    requires AllFresh(EMPTY, ops)
    ensures Balanced(Run(EMPTY, ops))
    ensures Departures(EMPTY, ops, id) == if id in Decided(Run(EMPTY, ops).offers) then 1 else 0
    decreases |ops|
  {
    if ops == [] {
      assert Decided(EMPTY.offers) == {};
    } else {
      hide Apply, Balanced, Fresh, Decided;
      var s, op := Run(EMPTY, ops[..|ops| - 1]), ops[|ops| - 1];
      RunsStayBalanced(ops[..|ops| - 1], id);
      StepKeepsBalanceIff(s, op);
      if id in Decided(s.offers) {
        DecidedStays(s, op, id);
      }
    }
  }

  lemma FinishedStays(s: State, op: Op, id: string)
    requires Fresh(s, op) && Finished(s.sessions, id)
    ensures id in Apply(s, op).sessions && Apply(s, op).sessions[id].state == s.sessions[id].state
  {
  }

  /** A decision and an end are final: whatever comes later, the offer keeps its verdict and
      every later accept or expiry answers it; the session keeps its state and every later
      cancel answers that. */
  lemma {:induction false} FinalStaysFinal(s: State, ops: seq<Op>, id: string, now: nat)
    requires AllFresh(s, ops)
    ensures var d := Run(s, ops);
            && (id in Decided(s.offers) ==>
                  && id in d.offers && d.offers[id] == s.offers[id]
                  && Accept(d, id, now) == (d, s.offers[id].state) && Expire(d, id) == (d, s.offers[id].state))
            && (Finished(s.sessions, id) ==>
                  && id in d.sessions && d.sessions[id].state == s.sessions[id].state
                  && Cancel(d, id) == (d, AsDecision(s.sessions[id].state)))
    decreases |ops|
  {
    if ops == [] {
    } else {
      hide Apply, Fresh;
      var before, op := ops[..|ops| - 1], ops[|ops| - 1];
      FinalStaysFinal(s, before, id, now);
      if id in Decided(s.offers) {
        DecidedStays(Run(s, before), op, id);
      }
      if Finished(s.sessions, id) {
        FinishedStays(Run(s, before), op, id);
      }
    }
  }

  /** Whether an operation is about a session: it names it, or the worker it hangs on, or a
      moment past its deadline. */
  predicate Concerns(op: Op, id: string, r: Session) {
    match op
    case RegisterSession(i, _, _, _) => i == id
    case SetDeadline(i, _) => i == id
    case AttachWorker(i, _) => i == id
    case DoCancel(i) => i == id
    case WorkerCrashed(worker) => r.worker == Some(worker)
    case Sweep(now) => r.deadline.Some? && now > r.deadline.value
    case _ => false
  }

  lemma UnrelatedStep(s: State, op: Op, id: string)
    requires id in s.sessions && !Concerns(op, id, s.sessions[id])
    ensures id in Apply(s, op).sessions && Apply(s, op).sessions[id] == s.sessions[id]
  {
  }

  /** The failure of one worker, session or deadline does not reach the sessions it is not
      about, over any run. */
  lemma {:induction false} UnrelatedUntouched(s: State, ops: seq<Op>, id: string)
    requires id in s.sessions && forall i :: 0 <= i < |ops| ==> !Concerns(ops[i], id, s.sessions[id])
    ensures id in Run(s, ops).sessions && Run(s, ops).sessions[id] == s.sessions[id]
    decreases |ops|
  {
    if ops == [] {
    } else {
      hide Apply, Concerns;
      UnrelatedUntouched(s, ops[..|ops| - 1], id);
      UnrelatedStep(Run(s, ops[..|ops| - 1]), ops[|ops| - 1], id);
    }
  }

  // ---------------------------------------------------------------- every end has its cause

  /** The operation is a reason for the verdict the offer has. */
  predicate Decides(op: Op, id: string, o: Offer) {
    match o.state
    case Accepted => op.DoAccept? && op.id == id && op.now <= o.deadline
    case Expired => (op.DoAccept? && op.id == id && op.now > o.deadline) || (op.DoExpire? && op.id == id)
    case _ => false
  }

  /** The operation ends the active session `was` in the state `now`. */
  predicate Ends(op: Op, id: string, was: Session, state: SessionState) {
    match state
    case SCancelled => op.DoCancel? && op.id == id
    case SFailed =>
      (op.WorkerCrashed? && was.worker == Some(op.worker))
      || (op.Sweep? && was.deadline.Some? && op.now > was.deadline.value)
    case _ => false
  }

  lemma DecidedByStep(s: State, op: Op, id: string)
    requires id in Decided(Apply(s, op).offers)
    ensures var o := Apply(s, op).offers[id];
            (id in s.offers && s.offers[id] == o) || Decides(op, id, o)
  {
  }

  /** No offer is accepted after its deadline, and none is decided without somebody accepting
      it or letting it expire. */
  lemma {:induction false} DecisionHasCause(ops: seq<Op>, id: string)
    requires id in Decided(Run(EMPTY, ops).offers)
    ensures exists i :: 0 <= i < |ops| && Decides(ops[i], id, Run(EMPTY, ops).offers[id])
    decreases |ops|
  {
    if ops == [] {
    } else {
      hide Apply, Decides;
      var before, op := ops[..|ops| - 1], ops[|ops| - 1];
      DecidedByStep(Run(EMPTY, before), op, id);
      if Decides(op, id, Run(EMPTY, ops).offers[id]) {
        assert ops[|ops| - 1] == op;
      } else {
        DecisionHasCause(before, id);
        var i :| 0 <= i < |before| && Decides(before[i], id, Run(EMPTY, ops).offers[id]);
        assert ops[i] == before[i];
      }
    }
  }

  lemma EndedByStep(s: State, op: Op, id: string)
    requires CleanedOnce(s) && Finished(Apply(s, op).sessions, id)
    ensures var state := Apply(s, op).sessions[id].state;
            Finished(s.sessions, id)
            || (id in s.sessions && s.sessions[id].state.SActive? && Ends(op, id, s.sessions[id], state))
  {
  }

  /** A session is cancelled only by a call that names it, and fails only with its own worker
      or past its own deadline, and only while it is active. */
  lemma {:induction false} EndHasCause(ops: seq<Op>, id: string) returns (i: nat)
    requires AllFresh(EMPTY, ops) && Finished(Run(EMPTY, ops).sessions, id)
    ensures i < |ops|
    ensures var was := Run(EMPTY, ops[..i]).sessions;
            && id in was && was[id].state.SActive?
            && Ends(ops[i], id, was[id], Run(EMPTY, ops).sessions[id].state)
    decreases |ops|
  {
    if ops == [] {
      assert false;
    } else {
      hide Apply, Ends, CleanedOnce, Fresh;
      var before, op := ops[..|ops| - 1], ops[|ops| - 1];
      RunsStayBalanced(before, id);
      EndedByStep(Run(EMPTY, before), op, id);
      if Finished(Run(EMPTY, before).sessions, id) {
        FinishedStays(Run(EMPTY, before), op, id);
        i := EndHasCause(before, id);
        assert ops[..i] == before[..i] && ops[i] == before[i];
      } else {
        i := |ops| - 1;
      }
    }
  }
}
