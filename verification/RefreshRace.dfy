/**
 N rotations race for one token: whatever the interleaving, one is granted, one
 detects the reuse and revokes the family, and all the others find it revoked.
 */
module RefreshRace {
  import opened Options
  import opened RefreshState
  import opened FamilyHistory
  import opened RefreshStore
  import opened RefreshRuns
  import opened RefreshTheorems

  /** `racers` have all just been handed the live token `h` of family `id`. */
  ghost predicate Lined(s: System, id: FamilyId, h: Hash, racers: set<CallId>) {
    && id in s.store && IsLive(s.store[id].family, h)
    && racers <= s.calls.Keys
    && (forall p | p in racers :: s.calls[p] == Start(id, Rotating(h)))
  }

  /**
   A step while the race for family `f` is on: a racer reads or decides before its token has expired, or anything else
   happens that does not write to the family. Calls on other families do as they like.
   */
  predicate RaceStep(s: System, e: Event, racers: set<CallId>, f: Family)
    requires f.current.Some?
  {
    match e
    case Issue(_, _, _, _, _) => true
    case Begin(_, _, _) => true
    case Read(p, storeNow) => p in s.calls && s.calls[p].family == f.id ==> storeNow < f.current.value.expiresAt
    case Decide(p, _, now, heard) =>
      p in s.calls && s.calls[p].family == f.id ==> p in racers && now < f.current.value.expiresAt && heard
    case Throw(p) => p !in racers
    case Drop(id) => id != f.id
  }

  /** `events` lead from `s` to `t`, every one of them a step of the race. */
  ghost predicate RaceLeads(s: System, events: seq<Event>, t: System, racers: set<CallId>, f: Family, cfg: Config)
    requires f.current.Some?
    decreases |events|
  {
    if events == [] then s == t
    else
      && Enabled(s, events[0]) && RaceStep(s, events[0], racers, f)
      && RaceLeads(Next(s, events[0], cfg), events[1..], t, racers, f, cfg)
  }

  /** How the record looks `stage` commits into the race. */
  ghost predicate AtStage(f0: Family, f: Family, h: Hash, stage: int) {
    match stage
    case 0 => f == f0
    case 1 => f.revokedAt.None? && h in f.usedHashes && f.absoluteExpiresAt == f0.absoluteExpiresAt
    case 2 => f.revokedAt.Some? && f.revokedReason == Some(ReuseDetected) && f.absoluteExpiresAt == f0.absoluteExpiresAt
    case _ => false
  }

  ghost predicate RacerOk(c: Call, s0: Stored, h: Hash, stage: int) {
    && c.family == s0.family.id && c.goal == Rotating(h)
    && match c.phase
       case ToRead => c.attempt <= stage
       case ToDecide(seen) =>
         && seen.Some?
         && var k := seen.value.revision - s0.revision;
         0 <= k <= stage && c.attempt <= k && AtStage(s0.family, seen.value.family, h, k)
       case Done(outcome) =>
         || (outcome.Granted? && stage >= 1)
         || (outcome == Refused(Reused) && stage == 2)
         || (outcome == Refused(FamilyRevoked) && stage == 2)
  }

  function Winners(calls: map<CallId, Call>, racers: set<CallId>): set<CallId> {
    set p | p in racers && p in calls && calls[p].phase.Done? && calls[p].phase.outcome.Granted?
  }

  function Answered(calls: map<CallId, Call>, racers: set<CallId>, outcome: Outcome): set<CallId> {
    set p | p in racers && p in calls && calls[p].phase == Done(outcome)
  }

  function Indicator(b: bool): int {
    if b then 1 else 0
  }

  ghost predicate RaceInv(s: System, s0: Stored, h: Hash, racers: set<CallId>) {
    var id := s0.family.id;
    && id in s.store && racers <= s.calls.Keys
    && var stage := s.store[id].revision - s0.revision;
    && 0 <= stage <= 2 && AtStage(s0.family, s.store[id].family, h, stage)
    && (forall p | p in racers :: RacerOk(s.calls[p], s0, h, stage))
    && |Winners(s.calls, racers)| == Indicator(stage >= 1)
    && |Answered(s.calls, racers, Refused(Reused))| == Indicator(stage == 2)
  }

  /** A live, unexpired record and its token. */
  ghost predicate Live(s0: Stored, h: Hash) {
    && IsLive(s0.family, h) && s0.family.revokedAt.None? && h !in s0.family.usedHashes
    && s0.family.current.value.expiresAt <= s0.family.absoluteExpiresAt
  }

  /** One racer's decision: which stage it read fixes what it does. */
  lemma RacerDecides(c: Call, store: Families, s0: Stored, h: Hash, minted: Hash, now: int, cfg: Config)
    requires Live(s0, h) && now < s0.family.current.value.expiresAt && 3 <= cfg.maxRetries
    requires c.phase.ToDecide? && s0.family.id in store
    requires 0 <= store[s0.family.id].revision - s0.revision <= 2
    requires RacerOk(c, s0, h, store[s0.family.id].revision - s0.revision)
    requires AtStage(s0.family, store[s0.family.id].family, h, store[s0.family.id].revision - s0.revision)
    requires c.phase.seen.Some? ==> c.phase.seen.value.family.id == s0.family.id
    ensures var r := Resolve(c, store, minted, now, true, cfg);
            var stage := store[s0.family.id].revision - s0.revision;
            var k := c.phase.seen.value.revision - s0.revision;
            if k < 2 && k == stage then
              && s0.family.id in r.store && r.store[s0.family.id].revision == s0.revision + stage + 1
              && AtStage(s0.family, r.store[s0.family.id].family, h, stage + 1)
              && RacerOk(r.call, s0, h, stage + 1)
              && (if k == 0 then r.call.phase.Done? && r.call.phase.outcome.Granted?
                  else r.call.phase == Done(Refused(Reused)))
            else
              && r.store == store && RacerOk(r.call, s0, h, stage)
              && (r.call.phase.ToRead? || r.call.phase == Done(Refused(FamilyRevoked)))
  {
    var used := s0.family.usedHashes + [h];
    assert Newest(used, cfg.maxChainLength)[|Newest(used, cfg.maxChainLength)| - 1] == h;
  }

  /** Replacing an unfinished call changes the tallies by that call alone. */
  lemma WinnerStep(calls: map<CallId, Call>, racers: set<CallId>, p: CallId, c: Call)
    requires p in racers && p in calls && !calls[p].phase.Done?
    ensures |Winners(calls[p := c], racers)| ==
            |Winners(calls, racers)| + Indicator(c.phase.Done? && c.phase.outcome.Granted?)
  {
    var won := if c.phase.Done? && c.phase.outcome.Granted? then {p} else {};
    assert Winners(calls[p := c], racers) == Winners(calls, racers) + won;
  }

  lemma AnswerStep(calls: map<CallId, Call>, racers: set<CallId>, p: CallId, c: Call, outcome: Outcome)
    requires p in racers && p in calls && !calls[p].phase.Done?
    ensures |Answered(calls[p := c], racers, outcome)| ==
            |Answered(calls, racers, outcome)| + Indicator(c.phase == Done(outcome))
  {
    var answered := if c.phase == Done(outcome) then {p} else {};
    assert Answered(calls[p := c], racers, outcome) == Answered(calls, racers, outcome) + answered;
  }

  lemma ReadKeepsRace(s: System, e: Event, s0: Stored, h: Hash, racers: set<CallId>, cfg: Config)
    requires RaceInv(s, s0, h, racers) && Live(s0, h) && e.Read? && e.call in racers
    requires Enabled(s, e) && RaceStep(s, e, racers, s0.family)
    ensures RaceInv(Next(s, e, cfg), s0, h, racers)
  {
    var t := Next(s, e, cfg);
    assert t.store == s.store;
    WinnerStep(s.calls, racers, e.call, t.calls[e.call]);
    AnswerStep(s.calls, racers, e.call, t.calls[e.call], Refused(Reused));
    assert RacerOk(s.calls[e.call], s0, h, s.store[s0.family.id].revision - s0.revision);
  }

  lemma DecideKeepsRace(s: System, e: Event, s0: Stored, h: Hash, racers: set<CallId>, cfg: Config)
    requires Inv(s, cfg) && RaceInv(s, s0, h, racers) && Live(s0, h) && 3 <= cfg.maxRetries
    requires e.Decide? && e.call in racers && Enabled(s, e) && RaceStep(s, e, racers, s0.family)
    ensures RaceInv(Next(s, e, cfg), s0, h, racers)
  {
    var c, t := s.calls[e.call], Next(s, e, cfg);
    var id := s0.family.id;
    var stage := s.store[id].revision - s0.revision;
    assert CallOk(s.log, c, cfg) && RacerOk(c, s0, h, stage);
    RacerDecides(c, s.store, s0, h, e.minted, e.now, cfg);
    RaceEffect(s, t, e.call, s0, h, racers);
  }

  /** The race goes on however the step of racer `p` was computed. */
  lemma RaceEffect(s: System, t: System, p: CallId, s0: Stored, h: Hash, racers: set<CallId>)
    requires RaceInv(s, s0, h, racers)
    requires p in racers && !s.calls[p].phase.Done? && p in t.calls && t.calls == s.calls[p := t.calls[p]]
    requires s0.family.id in t.store
    requires var stage := s.store[s0.family.id].revision - s0.revision;
             var next := t.store[s0.family.id].revision - s0.revision;
             && AtStage(s0.family, t.store[s0.family.id].family, h, next)
             && RacerOk(t.calls[p], s0, h, next)
             && stage <= next <= stage + 1
             && (next == stage + 1 && stage == 0 ==> t.calls[p].phase.Done? && t.calls[p].phase.outcome.Granted?)
             && (next == stage + 1 && stage == 1 ==> t.calls[p].phase == Done(Refused(Reused)))
             && (next == stage ==> t.calls[p].phase.ToRead? || t.calls[p].phase == Done(Refused(FamilyRevoked)))
    ensures RaceInv(t, s0, h, racers)
  {
    WinnerStep(s.calls, racers, p, t.calls[p]);
    AnswerStep(s.calls, racers, p, t.calls[p], Refused(Reused));
    var stage := s.store[s0.family.id].revision - s0.revision;
    forall q | q in racers
      ensures RacerOk(t.calls[q], s0, h, t.store[s0.family.id].revision - s0.revision)
    {
      assert RacerOk(s.calls[q], s0, h, stage);
    }
  }

  /** A step that touches neither the family nor a racer. */
  lemma FrameKeepsRace(s: System, t: System, s0: Stored, h: Hash, racers: set<CallId>)
    requires RaceInv(s, s0, h, racers)
    requires s0.family.id in t.store && t.store[s0.family.id] == s.store[s0.family.id]
    requires forall p | p in racers :: p in t.calls && t.calls[p] == s.calls[p]
    ensures RaceInv(t, s0, h, racers)
  {
    assert Winners(t.calls, racers) == Winners(s.calls, racers);
    assert Answered(t.calls, racers, Refused(Reused)) == Answered(s.calls, racers, Refused(Reused));
  }

  lemma DecideElsewhere(s: System, e: Event, id: FamilyId, cfg: Config)
    requires Inv(s, cfg) && e.Decide? && Enabled(s, e) && s.calls[e.call].family != id && id in s.store
    ensures var t := Next(s, e, cfg);
            && id in t.store && t.store[id] == s.store[id]
            && e.call in t.calls && t.calls == s.calls[e.call := t.calls[e.call]]
  {
    var v := DecideEffect(s, e, cfg);
  }

  lemma StepElsewhere(s: System, e: Event, f: Family, racers: set<CallId>, cfg: Config)
    requires f.current.Some? && Enabled(s, e) && RaceStep(s, e, racers, f) && !e.Decide?
    requires f.id in s.store && f.current.value.expiresAt <= s.store[f.id].family.absoluteExpiresAt
    requires (e.Read? ==> e.call !in racers) && racers <= s.calls.Keys && (e.Issue? ==> f.id in s.log)
    ensures var t := Next(s, e, cfg);
            && f.id in t.store && t.store[f.id] == s.store[f.id]
            && forall p | p in racers :: p in t.calls && t.calls[p] == s.calls[p]
  {
  }

  lemma BystanderKeepsRace(s: System, e: Event, s0: Stored, h: Hash, racers: set<CallId>, cfg: Config)
    requires Inv(s, cfg) && RaceInv(s, s0, h, racers) && Live(s0, h) && Enabled(s, e)
    requires RaceStep(s, e, racers, s0.family) && (e.Read? || e.Decide? ==> e.call !in racers)
    ensures RaceInv(Next(s, e, cfg), s0, h, racers)
  {
    if e.Decide? {
      DecideElsewhere(s, e, s0.family.id, cfg);
    } else {
      StepElsewhere(s, e, s0.family, racers, cfg);
    }
    FrameKeepsRace(s, Next(s, e, cfg), s0, h, racers);
  }

  lemma StepKeepsRace(s: System, e: Event, s0: Stored, h: Hash, racers: set<CallId>, cfg: Config)
    requires Inv(s, cfg) && RaceInv(s, s0, h, racers) && Live(s0, h) && 3 <= cfg.maxRetries
    requires Enabled(s, e) && RaceStep(s, e, racers, s0.family)
    ensures RaceInv(Next(s, e, cfg), s0, h, racers)
  {
    if e.Decide? && e.call in racers {
      DecideKeepsRace(s, e, s0, h, racers, cfg);
    } else if e.Read? && e.call in racers {
      ReadKeepsRace(s, e, s0, h, racers, cfg);
    } else {
      BystanderKeepsRace(s, e, s0, h, racers, cfg);
    }
  }

  lemma {:induction false} RaceKeeps(
    s: System, events: seq<Event>, t: System, s0: Stored, h: Hash, racers: set<CallId>, cfg: Config)
    requires Inv(s, cfg) && RaceInv(s, s0, h, racers) && Live(s0, h) && 3 <= cfg.maxRetries
    requires RaceLeads(s, events, t, racers, s0.family, cfg)
    ensures RaceInv(t, s0, h, racers)
    decreases |events|
  {
    if events != [] {
      StepKeeps(s, events[0], cfg);
      StepKeepsRace(s, events[0], s0, h, racers, cfg);
      RaceKeeps(Next(s, events[0], cfg), events[1..], t, s0, h, racers, cfg);
    }
  }

  lemma RaceBegins(s: System, id: FamilyId, h: Hash, racers: set<CallId>, cfg: Config)
    requires Inv(s, cfg) && Lined(s, id, h, racers)
    ensures s.store[id].family.id == id && Live(s.store[id], h) && RaceInv(s, s.store[id], h, racers)
  {
    DeadlineIsFixed(s.log[id], |s.log[id]| - 1, id, cfg);
    UsedHashesMatchHistory(s.log[id], id, cfg);
    assert Winners(s.calls, racers) == {} && Answered(s.calls, racers, Refused(Reused)) == {};
  }

  lemma RaceEnds(t: System, s0: Stored, h: Hash, racers: set<CallId>)
    requires RaceInv(t, s0, h, racers) && 2 <= |racers|
    requires forall p | p in racers && p in t.calls :: t.calls[p].phase.Done?
    ensures |Winners(t.calls, racers)| == 1
    ensures |Answered(t.calls, racers, Refused(Reused))| == 1
    ensures |Answered(t.calls, racers, Refused(FamilyRevoked))| == |racers| - 2
    ensures s0.family.id in t.store && t.store[s0.family.id].family.revokedReason == Some(ReuseDetected)
  {
    var w, u := Winners(t.calls, racers), Answered(t.calls, racers, Refused(Reused));
    var r := Answered(t.calls, racers, Refused(FamilyRevoked));
    var stage := t.store[s0.family.id].revision - s0.revision;
    forall p | p in racers
      ensures p in w + u + r
      ensures stage < 2 ==> p in w
    {
      assert RacerOk(t.calls[p], s0, h, stage);
    }
    assert stage < 2 ==> racers <= w && w <= racers;
    assert w + u + r == racers;
    assert |w + u| == |w| + |u| && |w + u + r| == |w + u| + |r|;
  }

  /** N >= 2 calls race to rotate one live, unexpired token from a reachable state, and all have answered. */
  ghost predicate RaceRun(
    before: seq<Event>, s: System, race: seq<Event>, t: System,
    id: FamilyId, h: Hash, racers: set<CallId>, cfg: Config)
  {
    && Reachable(before, s, cfg) && Lined(s, id, h, racers) && 2 <= |racers|
    && RaceLeads(s, race, t, racers, s.store[id].family, cfg)
    && forall p | p in racers && p in t.calls :: t.calls[p].phase.Done?
  }

  /** One was granted, one reported the reuse, all others found the family revoked, and revoked it is. */
  ghost predicate Tally(t: System, id: FamilyId, racers: set<CallId>) {
    && |Winners(t.calls, racers)| == 1
    && |Answered(t.calls, racers, Refused(Reused))| == 1
    && |Answered(t.calls, racers, Refused(FamilyRevoked))| == |racers| - 2
    && id in t.store && t.store[id].family.revokedReason == Some(ReuseDetected)
  }

  /** The tally, for every number of racers and every interleaving, whatever else goes on. */
  lemma RaceTally(
    before: seq<Event>, s: System, race: seq<Event>, t: System,
    id: FamilyId, h: Hash, racers: set<CallId>, cfg: Config)
    requires RaceRun(before, s, race, t, id, h, racers, cfg) && 3 <= cfg.maxRetries
    ensures Tally(t, id, racers)
  {
    ReachableInv(before, s, cfg);
    RaceBegins(s, id, h, racers, cfg);
    RaceKeeps(s, race, t, s.store[id], h, racers, cfg);
    RaceEnds(t, s.store[id], h, racers);
  }
}
