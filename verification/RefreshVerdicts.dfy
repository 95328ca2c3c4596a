/**
 What every call answers and writes, told from the history of its family alone
 (packages/auth-utils/src/refresh.ts and internal/refresh-state.ts).
 */
module RefreshVerdicts {
  import opened Options
  import opened RefreshState
  import opened FamilyHistory
  import opened RefreshStore
  import opened RefreshRuns
  import opened RefreshTheorems

  /** Call `p` has read a family, and that is the family's history as it read it. */
  ghost predicate HasRead(s: System, p: CallId, log: seq<Version>) {
    && p in s.calls && s.calls[p].phase.ToDecide? && s.calls[p].phase.seen.Some?
    && s.calls[p].family in s.log && log <= s.log[s.calls[p].family]
    && |log| == s.calls[p].phase.seen.value.revision
  }

  lemma ReadIsLineage(s: System, p: CallId, log: seq<Version>, cfg: Config)
    requires Inv(s, cfg) && HasRead(s, p, log)
    ensures Lineage(log, s.calls[p].family, cfg)
    ensures Last(log) == s.calls[p].phase.seen.value.family && Last(log).id == s.calls[p].family
    ensures log[0] == s.log[s.calls[p].family][0]
  {
    var c := s.calls[p];
    assert CallOk(s.log, c, cfg);
    LineagePrefix(s.log[c.family], |log|, c.family, cfg);
    assert log == s.log[c.family][..|log|];
  }

  /** Call `p` is done with that answer, and wrote nothing. */
  ghost predicate Answers(s: System, t: System, p: CallId, outcome: Outcome) {
    p in t.calls && t.calls[p].phase == Done(outcome) && t.log == s.log && t.store == s.store
  }

  /** What a call answers when the store fails it. */
  function Failing(goal: Goal): Outcome {
    if goal.Persisting? then Refused(Reused) else StoreFailed
  }

  /** Where a call is after losing its race: at its next attempt, or out of retries. */
  ghost predicate Loses(c: Call, after: Call, saw: bool, cfg: Config) {
    if c.attempt + 1 < cfg.maxRetries then
      after.phase.ToRead? && after.goal == c.goal && after.attempt == c.attempt + 1
    else if c.goal.Rotating? && saw then
      after.phase.ToRead? && after.goal == Persisting(c.goal.presented) && after.attempt == 0
    else after.phase == Done(if c.goal.Persisting? then Refused(Reused) else Contention)
  }

  /**
   Call `p` tries to add a version with that cause to the history it read. It succeeds exactly when nothing was added
   since and the family is still there; `saw` says whether it has seen a reuse by then.
   */
  ghost predicate Tries(s: System, t: System, p: CallId, heard: bool, cause: Cause, answer: Outcome, saw: bool,
                        cfg: Config)
    requires p in s.calls && s.calls[p].phase.ToDecide? && s.calls[p].phase.seen.Some? && s.calls[p].family in s.log
  {
    var c, id := s.calls[p], s.calls[p].family;
    && p in t.calls && t.calls[p].sawReuse == saw
    && if id in s.store && |s.log[id]| == c.phase.seen.value.revision then
         && id in t.log && t.log == s.log[id := t.log[id]]
         && |t.log[id]| == |s.log[id]| + 1 && s.log[id] <= t.log[id] && t.log[id][|s.log[id]|].cause == cause
         && t.calls[p].phase == Done(if heard then answer else Failing(c.goal))
       else
         && t.log == s.log && t.store == s.store
         && if heard then Loses(c, t.calls[p], saw, cfg) else t.calls[p].phase == Done(Failing(c.goal))
  }

  lemma StopAnswers(s: System, e: Event, outcome: Outcome, cfg: Config)
    requires e.Decide? && Enabled(s, e) && s.calls[e.call].phase.seen.Some?
    requires var c := s.calls[e.call];
             PlanFor(c.goal, c.phase.seen.value.family, e.minted, e.now, cfg) == Stop(outcome)
    ensures Answers(s, Next(s, e, cfg), e.call, outcome)
  {
  }

  lemma WriteTries(s: System, e: Event, plan: Plan, cfg: Config)
    requires Inv(s, cfg) && e.Decide? && Enabled(s, e) && s.calls[e.call].phase.seen.Some?
    requires s.calls[e.call].family in s.log && plan.Write? && plan.next.id == s.calls[e.call].family
    requires plan == PlanFor(s.calls[e.call].goal, s.calls[e.call].phase.seen.value.family, e.minted, e.now, cfg)
    ensures var c := s.calls[e.call];
            Tries(s, Next(s, e, cfg), e.call, e.heard, plan.cause, plan.onSuccess,
                  c.sawReuse || (c.goal.Rotating? && plan.cause.Revocation?), cfg)
  {
    assert CallOk(s.log, s.calls[e.call], cfg);
    CommitsIff(s.calls[e.call], s.store, e.minted, e.now, e.heard, cfg);
  }

  // ----- The verdicts -----

  /** Stop with an answer, or add a version with that cause and answer so once it is there. */
  datatype Verdict = Stops(outcome: Outcome) | Adds(cause: Cause, answer: Outcome)

  function Earlier(a: int, b: int): int {
    if a <= b then a else b
  }

  /** What presenting `h` ought to do to a family with that history. */
  ghost function RotateVerdict(log: seq<Version>, h: Hash, minted: Hash, now: int, cfg: Config): Verdict
    requires log != []
  {
    var first, last, deadline := log[0].family, Last(log), log[0].family.absoluteExpiresAt;
    if EndsRevoked(log) then Stops(Refused(FamilyRevoked))
    else if IsRecent(Hashes(log), h, cfg.maxChainLength) then Adds(Revocation(now, ReuseDetected), Refused(Reused))
    else if deadline <= now then Stops(Refused(FamilyExpired))
    else if !IsNewest(Hashes(log), h) then Stops(Refused(UnknownToken))
    else if last.current.None? || last.current.value.expiresAt <= now then Stops(Refused(Expired))
    else Adds(Rotation(minted, now),
              Granted(IssuedToken(minted, first.id, first.subject, Earlier(now + cfg.ttlMs, deadline), deadline)))
  }

  /** Without proof of possession, when proof is asked for, nothing is written and the caller cannot tell. */
  ghost function RevokeVerdict(log: seq<Version>, reason: RevocationReason, proof: Option<Hash>, now: int, cfg: Config)
    : Verdict
    requires log != []
  {
    if EndsRevoked(log) then Stops(Finished)
    else if proof.None? || IsNewest(Hashes(log), proof.value) || IsRecent(Hashes(log), proof.value, cfg.maxChainLength)
    then Adds(Revocation(now, reason), Finished)
    else Stops(Finished)
  }

  /** A rotation that is out of retries only has the reuse left to record. */
  ghost function PersistVerdict(log: seq<Version>, now: int): Verdict
    requires log != []
  {
    if EndsRevoked(log) then Stops(Refused(Reused)) else Adds(Revocation(now, ReuseDetected), Refused(Reused))
  }

  ghost function VerdictFor(log: seq<Version>, goal: Goal, minted: Hash, now: int, cfg: Config): Verdict
    requires log != []
  {
    match goal
    case Rotating(h) => RotateVerdict(log, h, minted, now, cfg)
    case Persisting(_) => PersistVerdict(log, now)
    case Revoking(reason, proof) => RevokeVerdict(log, reason, proof, now, cfg)
  }

  ghost predicate Plans(plan: Plan, verdict: Verdict) {
    match verdict
    case Stops(outcome) => plan == Stop(outcome)
    case Adds(cause, answer) => plan.Write? && plan.cause == cause && plan.onSuccess == answer
  }

  ghost predicate CarriesOut(s: System, t: System, e: Event, verdict: Verdict, cfg: Config)
    requires e.Decide? && e.call in s.calls && s.calls[e.call].phase.ToDecide? && s.calls[e.call].phase.seen.Some?
    requires s.calls[e.call].family in s.log
  {
    match verdict
    case Stops(outcome) => Answers(s, t, e.call, outcome)
    case Adds(cause, answer) =>
      var c := s.calls[e.call];
      Tries(s, t, e.call, e.heard, cause, answer, c.sawReuse || (c.goal.Rotating? && cause.Revocation?), cfg)
  }

  lemma RotationPlan(log: seq<Version>, h: Hash, minted: Hash, now: int, id: FamilyId, cfg: Config)
    requires Lineage(log, id, cfg)
    ensures Plans(PlanFor(Rotating(h), Last(log), minted, now, cfg), RotateVerdict(log, h, minted, now, cfg))
  {
    RefusalTable(log, h, minted, now, id, cfg);
    DeadlineIsFixed(log, |log| - 1, id, cfg);
  }

  lemma RevocationPlan(log: seq<Version>, goal: Goal, minted: Hash, now: int, id: FamilyId, cfg: Config)
    requires Lineage(log, id, cfg) && !goal.Rotating?
    ensures Plans(PlanFor(goal, Last(log), minted, now, cfg), VerdictFor(log, goal, minted, now, cfg))
  {
    RevocationIsLast(log, id, cfg);
    if !EndsRevoked(log) && goal.Revoking? && goal.proof.Some? {
      ProofTable(log, goal.proof.value, id, cfg);
    }
  }

  lemma PlanIsCarriedOut(s: System, e: Event, log: seq<Version>, verdict: Verdict, cfg: Config)
    requires Inv(s, cfg) && e.Decide? && Enabled(s, e) && HasRead(s, e.call, log) && log != []
    requires Plans(PlanFor(s.calls[e.call].goal, Last(log), e.minted, e.now, cfg), verdict)
    ensures CarriesOut(s, Next(s, e, cfg), e, verdict, cfg)
  {
    ReadIsLineage(s, e.call, log, cfg);
    var plan := PlanFor(s.calls[e.call].goal, Last(log), e.minted, e.now, cfg);
    if plan.Write? {
      PlanIsSound(s.calls[e.call].goal, Last(log), e.minted, e.now, cfg);
      WriteTries(s, e, plan, cfg);
    } else {
      StopAnswers(s, e, plan.outcome, cfg);
    }
  }

  /** For every history a call can have read, whatever its goal, it does and answers what the verdict says. */
  lemma CallsFollowVerdicts(events: seq<Event>, s: System, e: Event, log: seq<Version>, cfg: Config)
    requires Reachable(events, s, cfg) && e.Decide? && Enabled(s, e) && HasRead(s, e.call, log)
    ensures log != []
    ensures CarriesOut(s, Next(s, e, cfg), e, VerdictFor(log, s.calls[e.call].goal, e.minted, e.now, cfg), cfg)
  {
    ReachableInv(events, s, cfg);
    ReadIsLineage(s, e.call, log, cfg);
    GoalPlan(s, e, log, cfg);
    PlanIsCarriedOut(s, e, log, VerdictFor(log, s.calls[e.call].goal, e.minted, e.now, cfg), cfg);
  }

  /** Terminal states first: a rotation answers `revoked` exactly when the family was revoked as it last read it. */
  lemma RevokedReadAnswersIff(events: seq<Event>, s: System, e: Event, log: seq<Version>, cfg: Config)
    requires Reachable(events, s, cfg) && e.Decide? && Enabled(s, e) && HasRead(s, e.call, log)
    requires s.calls[e.call].goal.Rotating?
    ensures log != []
    ensures Answers(s, Next(s, e, cfg), e.call, Refused(FamilyRevoked)) <==> EndsRevoked(log)
  {
    CallsFollowVerdicts(events, s, e, log, cfg);
  }

  lemma GoalPlan(s: System, e: Event, log: seq<Version>, cfg: Config)
    requires e.Decide? && e.call in s.calls && Lineage(log, s.calls[e.call].family, cfg)
    ensures var goal := s.calls[e.call].goal;
            Plans(PlanFor(goal, Last(log), e.minted, e.now, cfg), VerdictFor(log, goal, e.minted, e.now, cfg))
  {
    var c := s.calls[e.call];
    if c.goal.Rotating? {
      RotationPlan(log, c.goal.presented, e.minted, e.now, c.family, cfg);
    } else {
      RevocationPlan(log, c.goal, e.minted, e.now, c.family, cfg);
    }
  }

  /** A family that is not there: unknown to `rotate`, and nothing left to do for whoever revokes. */
  lemma AbsentAnswers(s: System, e: Event, cfg: Config)
    requires e.Decide? && Enabled(s, e) && s.calls[e.call].phase.seen.None?
    ensures var goal, t := s.calls[e.call].goal, Next(s, e, cfg);
            && (goal.Rotating? ==> Answers(s, t, e.call, Refused(UnknownFamily)))
            && (goal.Persisting? ==> Answers(s, t, e.call, Refused(Reused)))
            && (goal.Revoking? ==> Answers(s, t, e.call, Finished))
  {
  }

  /** A store call that rejects ends the call, and only a rotation that has already seen a reuse still reports it. */
  lemma ThrowAnswers(s: System, e: Event, cfg: Config)
    requires e.Throw? && Enabled(s, e)
    ensures Answers(s, Next(s, e, cfg), e.call, Failing(s.calls[e.call].goal))
  {
  }

  /** A read returns the newest version of a family before its deadline; past it the family goes, and no other does. */
  lemma ReadSees(events: seq<Event>, s: System, p: CallId, now: int, cfg: Config)
    requires Reachable(events, s, cfg) && Enabled(s, Read(p, now))
    ensures var t, id := Next(s, Read(p, now), cfg), s.calls[p].family;
            && p in t.calls && t.calls[p].phase.ToDecide? && t.log == s.log
            && (if id in s.store && id in s.log && s.log[id] != [] && now < s.log[id][0].family.absoluteExpiresAt then
                  HasRead(t, p, s.log[id]) && t.store == s.store
                else t.calls[p].phase.seen.None? && t.store == s.store - {id})
  {
    ReachableInv(events, s, cfg);
    var id := s.calls[p].family;
    if id in s.store {
      StoredDeadline(s, id, cfg);
    }
  }

  // ----- After a revocation -----

  /** Revoked for good: stored or not, the history of the family has ended. */
  ghost predicate Barred(s: System, id: FamilyId) {
    id in s.log && s.log[id] != [] && EndsRevoked(s.log[id])
  }

  /** How far a rotation that began after that can have come. */
  ghost predicate Barring(s: System, c: Call) {
    && c.goal.Rotating? && !c.sawReuse && Barred(s, c.family)
    && (c.phase.ToDecide? && c.phase.seen.Some? ==> c.phase.seen.value.revision == |s.log[c.family]|)
    && (c.phase.Done? ==> c.phase.outcome in {Refused(FamilyRevoked), Refused(UnknownFamily), StoreFailed})
  }

  lemma BarredStays(s: System, e: Event, id: FamilyId, cfg: Config)
    requires Inv(s, cfg) && Enabled(s, e) && Barred(s, id)
    ensures id in Next(s, e, cfg).log && Next(s, e, cfg).log[id] == s.log[id]
  {
    var t := Next(s, e, cfg);
    StepKeeps(s, e, cfg);
    assert s.log[id] <= t.log[id];
    var n := |s.log[id]| - 1;
    assert t.log[id][n] == s.log[id][n];
    RevocationIsLast(t.log[id], id, cfg);
  }

  lemma BarringStays(s: System, e: Event, p: CallId, cfg: Config)
    requires Inv(s, cfg) && Enabled(s, e) && p in s.calls && Barring(s, s.calls[p])
    ensures var t := Next(s, e, cfg); p in t.calls && Barring(t, t.calls[p])
  {
    var c := s.calls[p];
    BarredStays(s, e, c.family, cfg);
    if e.Decide? && e.call == p && c.phase.seen.Some? {
      BarredDecides(s, e, p, cfg);
    } else {
      BarredElsewhere(s, e, p, cfg);
    }
  }

  lemma BarredDecides(s: System, e: Event, p: CallId, cfg: Config)
    requires Inv(s, cfg) && Enabled(s, e) && p in s.calls && Barring(s, s.calls[p])
    requires e.Decide? && e.call == p && s.calls[p].phase.seen.Some?
    ensures var t := Next(s, e, cfg);
            p in t.calls && t.calls[p] == s.calls[p].(phase := Done(Refused(FamilyRevoked)))
  {
    var c := s.calls[p];
    assert CallOk(s.log, c, cfg);
    assert HasRead(s, p, s.log[c.family]);
    ReadIsLineage(s, p, s.log[c.family], cfg);
    RotationPlan(s.log[c.family], c.goal.presented, e.minted, e.now, c.family, cfg);
  }

  /** A step that is not its decision moves the call on, if at all, to a read of what is stored now. */
  lemma BarredElsewhere(s: System, e: Event, p: CallId, cfg: Config)
    requires Inv(s, cfg) && Enabled(s, e) && p in s.calls && Barring(s, s.calls[p])
    requires e.Decide? && e.call == p ==> s.calls[p].phase.seen.None?
    ensures var c, t := s.calls[p], Next(s, e, cfg);
            && p in t.calls && t.calls[p].goal == c.goal && t.calls[p].family == c.family && !t.calls[p].sawReuse
            && (t.calls[p].phase == c.phase
                || (t.calls[p].phase.ToDecide?
                    && (t.calls[p].phase.seen.Some? ==> t.calls[p].phase.seen.value.revision == |s.log[c.family]|))
                || t.calls[p].phase == Done(StoreFailed) || t.calls[p].phase == Done(Refused(UnknownFamily)))
  {
  }

  lemma {:induction false} BarringRun(s: System, events: seq<Event>, t: System, p: CallId, id: FamilyId, cfg: Config)
    requires Inv(s, cfg) && Leads(s, events, t, cfg) && Barred(s, id) && p in t.calls && t.calls[p].family == id
    requires if p in s.calls then Barring(s, s.calls[p]) else t.calls[p].goal.Rotating? || t.calls[p].goal.Persisting?
    ensures Barring(t, t.calls[p])
    decreases |events|
  {
    if events != [] {
      var e, u := events[0], Next(s, events[0], cfg);
      StepKeeps(s, e, cfg);
      BarredStays(s, e, id, cfg);
      if p in s.calls {
        BarringStays(s, e, p, cfg);
      } else if p in u.calls {
        BeganRotating(u, events[1..], t, p, cfg);
      }
      BarringRun(u, events[1..], t, p, id, cfg);
    }
  }

  /** A call keeps its family, and a rotation never becomes a revoking call. */
  lemma {:induction false} BeganRotating(s: System, events: seq<Event>, t: System, p: CallId, cfg: Config)
    requires Leads(s, events, t, cfg) && p in s.calls
    ensures p in t.calls && t.calls[p].family == s.calls[p].family
    ensures t.calls[p].goal.Revoking? <==> s.calls[p].goal.Revoking?
    decreases |events|
  {
    if events != [] {
      CallsStay(s, events, t, p, cfg);
      BeganRotating(Next(s, events[0], cfg), events[1..], t, p, cfg);
    }
  }

  /**
   Once a family is revoked, for whatever reason, a `rotate` that begins later and is not failed by the store answers
   `revoked`, or that the family is unknown once it is gone from the store; whatever else runs, whatever it presents.
   */
  lemma RevokedFamilyRefuses(before: seq<Event>, s: System, after: seq<Event>, t: System, p: CallId, cfg: Config)
    requires Reachable(before, s, cfg) && Leads(s, after, t, cfg)
    requires p !in s.calls && p in t.calls && Barred(s, t.calls[p].family) && !t.calls[p].goal.Revoking?
    ensures t.calls[p].goal.Rotating? && !t.calls[p].sawReuse
    ensures t.calls[p].phase.Done? ==>
              t.calls[p].phase.outcome in {Refused(FamilyRevoked), Refused(UnknownFamily), StoreFailed}
  {
    ReachableInv(before, s, cfg);
    BarringRun(s, after, t, p, t.calls[p].family, cfg);
  }

  // ----- What `issue` records -----

  /** The first version of a family says what the `issue` that made it was given. */
  ghost predicate RecordsIssue(v: Version, id: FamilyId, e: Event, cfg: Config) {
    && e.Issue? && e.id == id && v.cause == Issued(e.minted)
    && v.family.id == id && v.family.subject == e.subject && v.family.createdAt == e.now
    && v.family.absoluteExpiresAt == e.now + cfg.absoluteTtlMs
    && v.family.current == Some(FamilyToken(e.minted, e.now, e.now + cfg.ttlMs))
  }

  lemma NewFamilyIsIssued(s: System, e: Event, id: FamilyId, cfg: Config)
    requires Inv(s, cfg) && Enabled(s, e) && id !in s.log && id in Next(s, e, cfg).log
    ensures Next(s, e, cfg).log[id] != [] && RecordsIssue(Next(s, e, cfg).log[id][0], id, e, cfg)
  {
    if e.Decide? {
      var v := DecideEffect(s, e, cfg);
    }
  }

  lemma {:induction false} IssueIsRecorded(s: System, events: seq<Event>, t: System, id: FamilyId, cfg: Config)
    returns (i: nat)
    requires Inv(s, cfg) && Leads(s, events, t, cfg) && id in t.log && id !in s.log
    ensures i < |events| && t.log[id] != [] && RecordsIssue(t.log[id][0], id, events[i], cfg)
    decreases |events|
  {
    var u := Next(s, events[0], cfg);
    StepKeeps(s, events[0], cfg);
    if id in u.log {
      NewFamilyIsIssued(s, events[0], id, cfg);
      RunKeeps(u, events[1..], t, cfg);
      assert u.log[id] <= t.log[id];
      i := 0;
    } else {
      var j := IssueIsRecorded(u, events[1..], t, id, cfg);
      i := j + 1;
    }
  }

  /** Every family of every run was issued, and its first version is what that `issue` asked for. */
  lemma FamiliesAreIssued(events: seq<Event>, t: System, id: FamilyId, cfg: Config) returns (i: nat)
    requires Reachable(events, t, cfg) && id in t.log
    ensures i < |events| && t.log[id] != [] && RecordsIssue(t.log[id][0], id, events[i], cfg)
  {
    i := IssueIsRecorded(EMPTY, events, t, id, cfg);
  }
}
