/** One offer and one session at a time: what becomes of each is told by the calls that name it,
    the crashes of its worker and the sweeps past its deadline - nothing else in the registry. */
module RegistryLives {
  import opened Prelude
  import opened Registry

  // ---------------------------------------------------------------- one offer

  /** What one call makes of this offer. */
  function OfferNext(o: Option<Offer>, id: string, op: Op): Option<Offer> {
    match op
    case RegisterOffer(name, deadline) => if name == id then Some(Offer(deadline, Pending)) else o
    case DoAccept(name, now) =>
      if name != id || o.None? || o.value.state != Pending then o
      else Some(Offer(o.value.deadline, if now <= o.value.deadline then Accepted else Expired))
    case DoExpire(name) =>
      if name != id || o.None? || o.value.state != Pending then o else Some(Offer(o.value.deadline, Expired))
    case _ => o
  }

  function OfferLife(ops: seq<Op>, id: string): Option<Offer> {
    if ops == [] then None else OfferNext(OfferLife(ops[..|ops| - 1], id), id, ops[|ops| - 1])
  }

  function OfferIn(s: State, id: string): Option<Offer> {
    if id in s.offers then Some(s.offers[id]) else None
  }

  lemma OfferStepsAlone(s: State, id: string, op: Op)
    ensures OfferIn(Apply(s, op), id) == OfferNext(OfferIn(s, id), id, op)
  {
    hide HostedBy, Overdue;
  }

  lemma {:induction false} OfferLivesItsLife(ops: seq<Op>, id: string)
    ensures OfferIn(Run(EMPTY, ops), id) == OfferLife(ops, id)
    decreases |ops|
  {
    if ops == [] {
    } else {
      hide Apply, OfferNext;
      OfferLivesItsLife(ops[..|ops| - 1], id);
      OfferStepsAlone(Run(EMPTY, ops[..|ops| - 1]), id, ops[|ops| - 1]);
    }
  }

  /** What accepting and expiring answer after any run: for an offer there is none of, that it is
      rejected, and that it is expired; for one that is pending, the verdict; and for one that
      was decided, that decision. */
  lemma OfferAnswers(ops: seq<Op>, id: string, now: nat)
    ensures var s, o := Run(EMPTY, ops), OfferLife(ops, id);
            && Accept(s, id, now).1 == (if o.None? then Rejected
                                        else if o.value.state != Pending then o.value.state
                                        else if now <= o.value.deadline then Accepted else Expired)
            && Expire(s, id).1 == (if o.None? || o.value.state == Pending then Expired else o.value.state)
  {
    hide Run, OfferLife;
    OfferLivesItsLife(ops, id);
  }

  // ---------------------------------------------------------------- one session

  /** What one call makes of this session: a crash and a sweep end it only while it is active. */
  function SessionNext(r: Option<Session>, id: string, op: Op): Option<Session> {
    match op
    case RegisterSession(name, profile, provider, now) =>
      if name == id then Some(Session(profile, provider, SActive, None, None, now)) else r
    case SetDeadline(name, deadline) =>
      if name == id && r.Some? then Some(r.value.(deadline := Some(deadline))) else r
    case AttachWorker(name, worker) =>
      if name == id && r.Some? then Some(r.value.(worker := Some(worker))) else r
    case DoCancel(name) =>
      if name == id && r.Some? && (r.value.state == SActive || r.value.state == SCancelling)
        then Some(r.value.(state := SCancelled)) else r
    case WorkerCrashed(worker) =>
      if r.Some? && r.value.state == SActive && r.value.worker == Some(worker)
        then Some(r.value.(state := SFailed)) else r
    case Sweep(now) =>
      if r.Some? && r.value.state == SActive && r.value.deadline.Some? && r.value.deadline.value < now
        then Some(r.value.(state := SFailed)) else r
    case _ => r
  }

  function SessionLife(ops: seq<Op>, id: string): Option<Session> {
    if ops == [] then None else SessionNext(SessionLife(ops[..|ops| - 1], id), id, ops[|ops| - 1])
  }

  function SessionIn(s: State, id: string): Option<Session> {
    if id in s.sessions then Some(s.sessions[id]) else None
  }

  lemma SessionStepsAlone(s: State, id: string, op: Op)
    ensures SessionIn(Apply(s, op), id) == SessionNext(SessionIn(s, id), id, op)
  {
    match op
    case WorkerCrashed(worker) => FailsAlone(s, HostedBy(s.sessions, worker), id);
    case Sweep(now) => FailsAlone(s, Overdue(s.sessions, now), id);
    case _ =>
  }

  lemma FailsAlone(s: State, hit: set<string>, id: string)
    ensures SessionIn(FailSessions(s, hit), id) ==
            if id in hit && id in s.sessions then Some(s.sessions[id].(state := SFailed)) else SessionIn(s, id)
  {
  }

  lemma {:induction false} SessionLivesItsLife(ops: seq<Op>, id: string)
    ensures SessionIn(Run(EMPTY, ops), id) == SessionLife(ops, id)
    decreases |ops|
  {
    if ops == [] {
    } else {
      hide Apply, SessionNext;
      SessionLivesItsLife(ops[..|ops| - 1], id);
      SessionStepsAlone(Run(EMPTY, ops[..|ops| - 1]), id, ops[|ops| - 1]);
    }
  }

  /** What cancelling answers after any run, and whom a crash and a sweep name. A session that is
      unknown, or was cancelled, counts as cancelled; one that failed or completed says so. */
  lemma SessionAnswers(ops: seq<Op>, id: string, worker: string, now: nat)
    ensures var s, r := Run(EMPTY, ops), SessionLife(ops, id);
            && Cancel(s, id).1 == (if r.None? then Cancelled
                                   else if r.value.state == SFailed then Failed
                                   else if r.value.state == SCompleted then Completed
                                   else Cancelled)
            && (id in HostedBy(s.sessions, worker) <==>
                  r.Some? && r.value.state == SActive && r.value.worker == Some(worker))
            && (id in Overdue(s.sessions, now) <==>
                  r.Some? && r.value.state == SActive && r.value.deadline.Some? && r.value.deadline.value < now)
  {
    hide Run, SessionLife;
    SessionLivesItsLife(ops, id);
  }
}
