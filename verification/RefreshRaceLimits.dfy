/** Races that do not come out as the tally says, for every configuration with fewer than three retries. */
module RefreshRaceLimits {
  import opened Options
  import opened RefreshState
  import opened FamilyHistory
  import opened RefreshStore
  import opened RefreshRuns
  import opened RefreshTheorems
  import opened RefreshScripts
  import opened RefreshRace

  /** The tally of every race. */
  ghost predicate TallyHolds(cfg: Config) {
    forall before, s, race, t, id, h, racers ::
      RaceRun(before, s, race, t, id, h, racers, cfg) ==> Tally(t, id, racers)
  }

  lemma {:induction false} RaceAppend(
    s: System, race: seq<Event>, t: System, racers: set<CallId>, f: Family, e: Event, cfg: Config)
    requires f.current.Some? && RaceLeads(s, race, t, racers, f, cfg) && Enabled(t, e) && RaceStep(t, e, racers, f)
    ensures RaceLeads(s, race + [e], Next(t, e, cfg), racers, f, cfg)
    decreases |race|
  {
    if race == [] {
      assert RaceLeads(Next(s, e, cfg), [], Next(t, e, cfg), racers, f, cfg);
    } else {
      RaceAppend(Next(s, race[0], cfg), race[1..], t, racers, f, e, cfg);
      assert (race + [e])[1..] == race[1..] + [e];
    }
  }

  /** A race from `s`, where all racers hold the first token, has come to `t`. */
  ghost predicate Racing(
    events: seq<Event>, s: System, race: seq<Event>, t: System, k: nat, racers: set<CallId>, cfg: Config)
  {
    && Staged(events, t, k, cfg) && LiveAt(s, 1) && s.store[FAMILY].family.id == FAMILY
    && RaceLeads(s, race, t, racers, s.store[FAMILY].family, cfg)
    && racers <= t.calls.Keys && forall p | p in racers :: t.calls[p].family == FAMILY
  }

  lemma RacerReads(events: seq<Event>, s: System, race: seq<Event>, t: System, k: nat, racers: set<CallId>, p: CallId,
                   cfg: Config)
    returns (more: seq<Event>, longer: seq<Event>, u: System)
    requires Racing(events, s, race, t, k, racers, cfg) && p in racers && t.calls[p].phase.ToRead?
    ensures Racing(more, s, longer, u, k, racers, cfg) && u.store == t.store && u.log == t.log
    ensures u.calls == t.calls[p := AfterRead(t.calls[p], Some(t.store[FAMILY]))]
  {
    RaceAppend(s, race, t, racers, s.store[FAMILY].family, Read(p, 0), cfg);
    longer := race + [Read(p, 0)];
    more, u := ReadStep(events, t, k, p, cfg);
  }

  lemma RacerWrites(events: seq<Event>, s: System, race: seq<Event>, t: System, k: nat, racers: set<CallId>, p: CallId,
                    next: Family, cause: Cause, answer: Outcome, cfg: Config)
    returns (more: seq<Event>, longer: seq<Event>, u: System)
    requires Racing(events, s, race, t, k, racers, cfg) && p in racers
    requires t.calls[p].phase == ToDecide(Some(t.store[FAMILY]))
    requires PlanFor(t.calls[p].goal, t.store[FAMILY].family, Fresh(k + 1), 0, cfg) == Write(next, cause, answer)
    requires next.id == FAMILY && 0 < next.absoluteExpiresAt
    ensures Racing(more, s, longer, u, k + 1, racers, cfg)
    ensures u.store == t.store[FAMILY := Stored(next, t.store[FAMILY].revision + 1)]
    ensures u.calls.Keys == t.calls.Keys && u.calls[p].phase == Done(answer)
    ensures forall q :: q in t.calls && q != p ==> u.calls[q] == t.calls[q]
  {
    var e := Decide(p, Fresh(k + 1), 0, true);
    more, u := WriteStep(events, t, k, p, next, cause, answer, cfg);
    RaceAppend(s, race, t, racers, s.store[FAMILY].family, e, cfg);
    longer := race + [e];
  }

  lemma RacerLoses(events: seq<Event>, s: System, race: seq<Event>, t: System, k: nat, racers: set<CallId>, p: CallId,
                   seen: Stored, cause: Cause, cfg: Config)
    returns (more: seq<Event>, longer: seq<Event>, u: System)
    requires Racing(events, s, race, t, k, racers, cfg) && p in racers && seen.family.id == FAMILY
    requires t.calls[p].phase == ToDecide(Some(seen)) && seen.revision != t.store[FAMILY].revision
    requires var plan := PlanFor(t.calls[p].goal, seen.family, Fresh(k + 1), 0, cfg);
             plan.Write? && plan.next.id == FAMILY && plan.cause.Revocation? == cause.Revocation?
    ensures Racing(more, s, longer, u, k + 1, racers, cfg) && u.store == t.store && u.log == t.log
    ensures u.calls == t.calls[p := AfterLoss(Noted(t.calls[p], cause), cfg)]
  {
    var e := Decide(p, Fresh(k + 1), 0, true);
    more, u := LoseStep(events, t, k, p, seen, cfg);
    RaceAppend(s, race, t, racers, s.store[FAMILY].family, e, cfg);
    longer := race + [e];
  }

  const RACERS: set<CallId> := {1, 2, 3}

  /** Three calls are handed the first token. */
  lemma ThreeLined(cfg: Config) returns (before: seq<Event>, s: System)
    ensures Reachable(before, s, cfg) && Lined(s, FAMILY, FIRST, RACERS) && s.calls.Keys == RACERS
    ensures Racing(before, s, [], s, 3, RACERS, cfg)
  {
    before, s := IssueStep(cfg);
    before, s := BeginStep(before, s, 0, Rotating(FIRST), cfg);
    before, s := BeginStep(before, s, 1, Rotating(FIRST), cfg);
    before, s := BeginStep(before, s, 2, Rotating(FIRST), cfg);
  }

  /** What a racer is after it lost the first round. */
  function OutOfFirstRound(seen: Stored, cfg: Config): Call {
    AfterLoss(AfterRead(Start(FAMILY, Rotating(FIRST)), Some(seen)), cfg)
  }

  lemma AllRead(before: seq<Event>, s: System, cfg: Config)
    returns (events: seq<Event>, race: seq<Event>, t: System)
    requires Racing(before, s, [], s, 3, RACERS, cfg) && Lined(s, FAMILY, FIRST, RACERS) && s.calls.Keys == RACERS
    ensures Racing(events, s, race, t, 3, RACERS, cfg) && t.store == s.store && t.calls.Keys == RACERS
    ensures forall p | p in RACERS :: t.calls[p] == AfterRead(Start(FAMILY, Rotating(FIRST)), Some(s.store[FAMILY]))
  {
    events, race, t := RacerReads(before, s, [], s, 3, RACERS, 1, cfg);
    events, race, t := RacerReads(events, s, race, t, 3, RACERS, 2, cfg);
    events, race, t := RacerReads(events, s, race, t, 3, RACERS, 3, cfg);
  }

  /** What the first round leaves of a racer that read `seen`. */
  ghost predicate HasRead(t: System, p: CallId, seen: Stored) {
    p in t.calls && t.calls[p] == AfterRead(Start(FAMILY, Rotating(FIRST)), Some(seen))
  }

  lemma OneGranted(before: seq<Event>, s: System, cfg: Config)
    returns (events: seq<Event>, race: seq<Event>, t: System)
    requires Racing(before, s, [], s, 3, RACERS, cfg) && Lined(s, FAMILY, FIRST, RACERS) && s.calls.Keys == RACERS
    ensures Racing(events, s, race, t, 4, RACERS, cfg) && LiveAt(t, 2) && t.calls.Keys == RACERS
    ensures t.calls[1].phase.Done? && t.calls[1].phase.outcome.Granted?
    ensures HasRead(t, 2, s.store[FAMILY]) && HasRead(t, 3, s.store[FAMILY])
  {
    events, race, t := AllRead(before, s, cfg);
    var next, token := LivePlan(events, t, 3, 1, Fresh(4), cfg);
    events, race, t := RacerWrites(events, s, race, t, 3, RACERS, 1, next, Rotation(Fresh(4), 0), Granted(token), cfg);
  }

  /** A racer that read the first version, and finds the second stored. */
  lemma OneLoses(events: seq<Event>, s: System, race: seq<Event>, t: System, k: nat, p: CallId, cfg: Config)
    returns (more: seq<Event>, longer: seq<Event>, u: System)
    requires Racing(events, s, race, t, k, RACERS, cfg) && LiveAt(t, 2) && p in RACERS
    requires s.store[FAMILY].family.current.value.hash == FIRST && HasRead(t, p, s.store[FAMILY])
    requires forall minted ::
               var plan := PlanFor(Rotating(FIRST), s.store[FAMILY].family, minted, 0, cfg);
               plan.Write? && plan.next.id == FAMILY && plan.cause.Rotation?
    ensures Racing(more, s, longer, u, k + 1, RACERS, cfg) && LiveAt(u, 2)
    ensures u.calls == t.calls[p := OutOfFirstRound(s.store[FAMILY], cfg)]
  {
    more, longer, u := RacerLoses(events, s, race, t, k, RACERS, p, s.store[FAMILY], Rotation(FIRST, 0), cfg);
  }

  /** All read; the first is granted, and the others lose. */
  lemma FirstRound(before: seq<Event>, s: System, cfg: Config)
    returns (events: seq<Event>, race: seq<Event>, t: System)
    requires Racing(before, s, [], s, 3, RACERS, cfg) && Lined(s, FAMILY, FIRST, RACERS) && s.calls.Keys == RACERS
    ensures Racing(events, s, race, t, 6, RACERS, cfg) && LiveAt(t, 2) && t.calls.Keys == RACERS
    ensures t.calls[1].phase.Done? && t.calls[1].phase.outcome.Granted?
    ensures t.calls[2] == t.calls[3] == OutOfFirstRound(s.store[FAMILY], cfg)
  {
    forall minted
      ensures var plan := PlanFor(Rotating(FIRST), s.store[FAMILY].family, minted, 0, cfg);
              plan.Write? && plan.next.id == FAMILY && plan.cause.Rotation?
    {
      var next, token := LivePlan(before, s, 3, 1, minted, cfg);
    }
    events, race, t := OneGranted(before, s, cfg);
    events, race, t := OneLoses(events, s, race, t, 4, 2, cfg);
    events, race, t := OneLoses(events, s, race, t, 5, 3, cfg);
  }

  /** With one retry the losers end there, in the contention error. */
  lemma OneRetry(cfg: Config)
    requires cfg.maxRetries == 1
    ensures !TallyHolds(cfg)
  {
    var before, s := ThreeLined(cfg);
    var events, race, t := FirstRound(before, s, cfg);
    assert RaceRun(before, s, race, t, FAMILY, FIRST, RACERS, cfg);
    assert Answered(t.calls, RACERS, Refused(Reused)) == {};
  }

  lemma TwoAtLeast(answered: set<CallId>)
    requires {2, 3} <= answered
    ensures |answered| != 1
  {
    assert |answered - {2}| == |answered| - 1;
    assert 3 in answered - {2};
  }

  /** The losers read the winner's version. */
  lemma LosersRead(events: seq<Event>, s: System, race: seq<Event>, t: System, cfg: Config)
    returns (more: seq<Event>, longer: seq<Event>, u: System)
    requires Racing(events, s, race, t, 6, RACERS, cfg) && LiveAt(t, 2) && t.calls.Keys == RACERS && cfg.maxRetries == 2
    requires t.calls[2] == t.calls[3] == OutOfFirstRound(s.store[FAMILY], cfg)
    ensures Racing(more, s, longer, u, 6, RACERS, cfg) && u.store == t.store && u.calls.Keys == RACERS
    ensures u.calls[1] == t.calls[1]
    ensures AboutToRevoke(u, 2, t.store[FAMILY], 1, cfg) && AboutToRevoke(u, 3, t.store[FAMILY], 1, cfg)
  {
    more, longer, u := RacerReads(events, s, race, t, 6, RACERS, 2, cfg);
    more, longer, u := RacerReads(more, s, longer, u, 6, RACERS, 3, cfg);
    forall minted
      ensures PlanFor(Rotating(FIRST), t.store[FAMILY].family, minted, 0, cfg)
              == Write(Revoke(t.store[FAMILY].family, 0, ReuseDetected), Revocation(0, ReuseDetected), Refused(Reused))
    {
      StalePlan(more, u, 6, 2, minted, cfg);
    }
  }

  /** One of two calls about to revoke the family does so, and the other is out of retries. */
  lemma OneRevokes(events: seq<Event>, s: System, race: seq<Event>, t: System, cfg: Config)
    returns (more: seq<Event>, longer: seq<Event>, u: System)
    requires Racing(events, s, race, t, 6, RACERS, cfg) && LiveAt(t, 2) && t.calls.Keys == RACERS && cfg.maxRetries == 2
    requires AboutToRevoke(t, 2, t.store[FAMILY], 1, cfg) && AboutToRevoke(t, 3, t.store[FAMILY], 1, cfg)
    ensures Racing(more, s, longer, u, 8, RACERS, cfg) && u.calls.Keys == RACERS && u.calls[1] == t.calls[1]
    ensures u.store[FAMILY].family.revokedAt.Some? && u.calls[2].phase == Done(Refused(Reused))
    ensures u.calls[3].goal == Persisting(FIRST) && u.calls[3].phase.ToRead?
  {
    var seen, reused := t.store[FAMILY], Revocation(0, ReuseDetected);
    var dead := Revoke(seen.family, 0, ReuseDetected);
    more, longer, u := RacerWrites(events, s, race, t, 6, RACERS, 2, dead, reused, Refused(Reused), cfg);
    assert AboutToRevoke(u, 3, seen, 1, cfg);
    more, longer, u := RacerLoses(more, s, longer, u, 7, RACERS, 3, seen, reused, cfg);
  }

  /** It goes on to record the reuse, and finds it recorded. */
  lemma LastReports(events: seq<Event>, s: System, race: seq<Event>, t: System, cfg: Config)
    returns (longer: seq<Event>, u: System)
    requires Racing(events, s, race, t, 8, RACERS, cfg) && t.calls.Keys == RACERS
    requires t.store[FAMILY].family.revokedAt.Some?
    requires t.calls[3].goal == Persisting(FIRST) && t.calls[3].phase.ToRead?
    ensures RaceLeads(s, longer, u, RACERS, s.store[FAMILY].family, cfg) && u.calls.Keys == RACERS
    ensures u.calls[1] == t.calls[1] && u.calls[2] == t.calls[2] && u.calls[3].phase == Done(Refused(Reused))
  {
    var more;
    more, longer, u := RacerReads(events, s, race, t, 8, RACERS, 3, cfg);
    var e := Decide(3, Fresh(9), 0, true);
    var last, v := StopStep(more, u, 8, 3, u.store[FAMILY], Refused(Reused), cfg);
    RaceAppend(s, longer, u, RACERS, s.store[FAMILY].family, e, cfg);
    longer, u := longer + [e], v;
  }

  lemma SecondRound(events: seq<Event>, s: System, race: seq<Event>, t: System, cfg: Config)
    returns (longer: seq<Event>, u: System)
    requires Racing(events, s, race, t, 6, RACERS, cfg) && LiveAt(t, 2) && t.calls.Keys == RACERS && cfg.maxRetries == 2
    requires t.calls[1].phase.Done? && t.calls[2] == t.calls[3] == OutOfFirstRound(s.store[FAMILY], cfg)
    ensures RaceLeads(s, longer, u, RACERS, s.store[FAMILY].family, cfg) && u.calls.Keys == RACERS
    ensures u.calls[1].phase.Done? && u.calls[2].phase == u.calls[3].phase == Done(Refused(Reused))
  {
    var more;
    more, longer, u := LosersRead(events, s, race, t, cfg);
    more, longer, u := OneRevokes(more, s, longer, u, cfg);
    longer, u := LastReports(more, s, longer, u, cfg);
  }

  /** With two, both losers conclude reuse; one revokes the family, and the other is out of retries. */
  lemma TwoRetries(cfg: Config)
    requires cfg.maxRetries == 2
    ensures !TallyHolds(cfg)
  {
    var before, s := ThreeLined(cfg);
    var events, race, t := FirstRound(before, s, cfg);
    race, t := SecondRound(events, s, race, t, cfg);
    NotTallied(before, s, race, t, cfg);
  }

  lemma NotTallied(before: seq<Event>, s: System, race: seq<Event>, t: System, cfg: Config)
    requires Reachable(before, s, cfg) && Lined(s, FAMILY, FIRST, RACERS) && t.calls.Keys == RACERS
    requires RaceLeads(s, race, t, RACERS, s.store[FAMILY].family, cfg)
    requires t.calls[1].phase.Done? && t.calls[2].phase == t.calls[3].phase == Done(Refused(Reused))
    ensures !TallyHolds(cfg)
  {
    assert RaceRun(before, s, race, t, FAMILY, FIRST, RACERS, cfg);
    TwoAtLeast(Answered(t.calls, RACERS, Refused(Reused)));
  }

  /** Races come out as the tally says if and only if there are at least three retries. */
  lemma TallyHoldsIff(cfg: Config)
    ensures TallyHolds(cfg) <==> cfg.maxRetries >= 3
  {
    if cfg.maxRetries == 1 {
      OneRetry(cfg);
    } else if cfg.maxRetries == 2 {
      TwoRetries(cfg);
    } else {
      forall before, s, race, t, id, h, racers | RaceRun(before, s, race, t, id, h, racers, cfg)
        ensures Tally(t, id, racers)
      {
        RaceTally(before, s, race, t, id, h, racers, cfg);
      }
    }
  }
}
