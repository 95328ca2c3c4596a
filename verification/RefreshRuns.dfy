/**
 Concurrent `issue`, `rotate`, `revoke` and `revokeFamily` calls over one store
 (packages/auth-utils/src/refresh.ts). A call takes two atomic steps per attempt:
 it reads the family, and later, in one uninterrupted stretch, it decides and
 performs its compare-and-set. Any other call may step in between.
 */
module RefreshRuns {
  import opened Options
  import opened RefreshState
  import opened FamilyHistory
  import opened RefreshStore

  datatype IssuedToken = IssuedToken(
    hash: Hash, familyId: FamilyId, subject: string, expiresAt: int, familyExpiresAt: int)

  /** `Persisting` is a rotation out of retries that has seen a reuse and still has to record it. */
  datatype Goal =
    | Rotating(presented: Hash)
    | Persisting(presented: Hash)
    | Revoking(reason: RevocationReason, proof: Option<Hash>)

  datatype Outcome =
    | Granted(token: IssuedToken)
    | Refused(reason: FailureReason)
    | Finished
    | Contention
    | StoreFailed

  datatype Phase = ToRead | ToDecide(seen: Option<Stored>) | Done(outcome: Outcome)

  /** `readCount` and `wrote` only record what the call did: its reads so far, and the version it committed. */
  datatype Call = Call(
    family: FamilyId, goal: Goal, attempt: nat, sawReuse: bool, phase: Phase,
    readCount: nat, wrote: Option<nat>)

  datatype Plan =
    | Stop(outcome: Outcome)
    | Write(next: Family, cause: Cause, onSuccess: Outcome)

  function Start(id: FamilyId, goal: Goal): Call {
    Call(id, goal, 0, false, ToRead, 0, None)
  }

  /** What a call does about the family it read. */
  function PlanFor(goal: Goal, f: Family, minted: Hash, now: int, cfg: Config): Plan {
    match goal
    case Rotating(presented) => (
      match DecideRotation(f, presented, minted, now, cfg)
      case Rejected(reason) => Stop(Refused(reason))
      case Reuse(next) => Write(next, Revocation(now, ReuseDetected), Refused(Reused))
      case Rotated(next) =>
        if next.current.None? then Write(next, Rotation(minted, now), Refused(UnknownToken))
        else Write(next, Rotation(minted, now),
                   Granted(IssuedToken(minted, next.id, next.subject, next.current.value.expiresAt,
                                       next.absoluteExpiresAt))))
    case Persisting(_) =>
      if f.revokedAt.Some? then Stop(Refused(Reused))
      else Write(Revoke(f, now, ReuseDetected), Revocation(now, ReuseDetected), Refused(Reused))
    case Revoking(reason, proof) =>
      if f.revokedAt.Some? then Stop(Finished)
      else if proof.Some? && !FamilyIssued(f, proof.value) then Stop(Finished)
      else Write(Revoke(f, now, reason), Revocation(now, reason), Finished)
  }

  function Missing(goal: Goal): Outcome {
    match goal
    case Rotating(_) => Refused(UnknownFamily)
    case Persisting(_) => Refused(Reused)
    case Revoking(_, _) => Finished
  }

  function AfterRead(c: Call, seen: Option<Stored>): Call {
    c.(readCount := c.readCount + 1, phase := ToDecide(seen))
  }

  /** A store call threw. Only the best-effort revocation swallows that. */
  function AfterThrow(c: Call): Call {
    c.(phase := Done(if c.goal.Persisting? then Refused(Reused) else StoreFailed))
  }

  /** A compare-and-set was lost. */
  function AfterLoss(c: Call, cfg: Config): Call {
    if c.attempt + 1 < cfg.maxRetries then c.(attempt := c.attempt + 1, phase := ToRead)
    else
      match c.goal
      case Rotating(presented) =>
        if c.sawReuse then c.(goal := Persisting(presented), attempt := 0, phase := ToRead)
        else c.(phase := Done(Contention))
      case Persisting(_) => c.(phase := Done(Refused(Reused)))
      case Revoking(_, _) => c.(phase := Done(Contention))
  }

  /** A rotation that is about to revoke has seen a reuse. */
  function Noted(c: Call, cause: Cause): Call {
    c.(sawReuse := c.sawReuse || (c.goal.Rotating? && cause.Revocation?))
  }

  datatype Step = Step(call: Call, store: Families, committed: Option<Version>)

  /** Carry out a plan made for the record `seen`. `heard` is false when the store's answer is lost. */
  function Attempt(c: Call, seen: Stored, plan: Plan, store: Families, heard: bool, cfg: Config): Step {
    match plan
    case Stop(outcome) => Step(c.(phase := Done(outcome)), store, None)
    case Write(next, cause, onSuccess) =>
      var c1 := Noted(c, cause);
      var (store1, written) := Swapped(store, next, seen.revision);
      var c2 := if written then c1.(wrote := Some(seen.revision)) else c1;
      Step(if !heard then AfterThrow(c2)
           else if written then c2.(phase := Done(onSuccess))
           else AfterLoss(c2, cfg),
           store1,
           if written then Some(Version(next, cause)) else None)
  }

  /** The stretch after a read: decide, then compare-and-set. */
  function Resolve(c: Call, store: Families, minted: Hash, now: int, heard: bool, cfg: Config): Step
    requires c.phase.ToDecide?
  {
    match c.phase.seen
    case None => Step(c.(phase := Done(Missing(c.goal))), store, None)
    case Some(seen) => Attempt(c, seen, PlanFor(c.goal, seen.family, minted, now, cfg), store, heard, cfg)
  }

  type CallId = nat

  datatype System = System(
    store: Families,
    log: map<FamilyId, seq<Version>>,
    minted: set<Hash>,
    calls: map<CallId, Call>)

  datatype Event =
    | Issue(id: FamilyId, subject: string, minted: Hash, now: int, storeNow: int)
    | Begin(call: CallId, id: FamilyId, goal: Goal)
    | Read(call: CallId, storeNow: int)
    | Decide(call: CallId, minted: Hash, now: int, heard: bool)
    | Throw(call: CallId)
    | Drop(id: FamilyId)

  const EMPTY := System(map[], map[], {}, map[])

  /** Minted hashes and family ids are fresh; everything else may happen at any time. */
  predicate Enabled(s: System, e: Event) {
    match e
    case Issue(id, _, minted, _, _) => id !in s.log && minted !in s.minted
    case Begin(p, _, goal) => p !in s.calls && !goal.Persisting?
    case Read(p, _) => p in s.calls && s.calls[p].phase.ToRead?
    case Decide(p, minted, _, _) => p in s.calls && s.calls[p].phase.ToDecide? && minted !in s.minted
    case Throw(p) => p in s.calls && !s.calls[p].phase.Done?
    case Drop(_) => true
  }

  function LogOf(s: System, id: FamilyId): seq<Version> {
    if id in s.log then s.log[id] else []
  }

  function Next(s: System, e: Event, cfg: Config): System
    requires Enabled(s, e)
  {
    match e
    case Issue(id, subject, minted, now, storeNow) =>
      var f := NewFamily(id, subject, minted, now, cfg);
      var (store1, ok) := Created(s.store, f, storeNow);
      if ok then s.(store := store1, log := s.log[id := [Version(f, Issued(minted))]], minted := s.minted + {minted})
      else s.(store := store1, minted := s.minted + {minted})
    case Begin(p, id, goal) => s.(calls := s.calls[p := Start(id, goal)])
    case Read(p, storeNow) =>
      var c := s.calls[p];
      var store1 := Evicted(s.store, c.family, storeNow);
      s.(store := store1, calls := s.calls[p := AfterRead(c, Lookup(store1, c.family))])
    case Decide(p, minted, now, heard) =>
      var c := s.calls[p];
      var r := Resolve(c, s.store, minted, now, heard, cfg);
      System(r.store,
             if r.committed.Some? then s.log[c.family := LogOf(s, c.family) + [r.committed.value]] else s.log,
             s.minted + {minted},
             s.calls[p := r.call])
    case Throw(p) => s.(calls := s.calls[p := AfterThrow(s.calls[p])])
    case Drop(id) => s.(store := s.store - {id})
  }

  /** `events`, in that order, lead from `s` to `t`. */
  predicate Leads(s: System, events: seq<Event>, t: System, cfg: Config)
    decreases |events|
  {
    if events == [] then s == t
    else Enabled(s, events[0]) && Leads(Next(s, events[0], cfg), events[1..], t, cfg)
  }

  // ----- What every reachable state satisfies -----

  ghost predicate Saw(log: map<FamilyId, seq<Version>>, id: FamilyId, seen: Stored) {
    && id in log
    && 0 < seen.revision <= |log[id]|
    && log[id][seen.revision - 1].family == seen.family
  }

  /** `h` was the live token of a version that has been superseded. */
  ghost predicate Retired(log: seq<Version>, h: Hash) {
    exists i :: 0 <= i < |log| - 1 && IsLive(log[i].family, h)
  }

  predicate IsLive(f: Family, h: Hash) {
    f.current.Some? && f.current.value.hash == h
  }

  /** The version a call committed, and what its answer says about it. */
  ghost predicate AnswerMatches(log: seq<Version>, c: Call)
    requires c.phase.Done?
  {
    match c.phase.outcome
    case Granted(token) =>
      && c.goal.Rotating? && !c.sawReuse
      && c.wrote.Some? && 0 < c.wrote.value < |log|
      && IsLive(log[c.wrote.value - 1].family, c.goal.presented)
      && log[c.wrote.value].cause.Rotation?
      && log[c.wrote.value].cause.minted == token.hash
    case Refused(reason) =>
      && (c.goal.Persisting? ==> reason == Reused)
      && !c.goal.Revoking?
      && (reason == Reused && c.goal.Rotating? ==>
        && c.wrote.Some? && 0 < c.wrote.value < |log|
        && log[c.wrote.value].cause.Revocation? && log[c.wrote.value].cause.reason == ReuseDetected)
    case Contention => (c.goal.Rotating? && !c.sawReuse) || c.goal.Revoking?
    case Finished => c.goal.Revoking?
    case StoreFailed => !c.goal.Persisting?
  }

  ghost predicate CallOk(log: map<FamilyId, seq<Version>>, c: Call, cfg: Config) {
    && (c.phase.ToDecide? && c.phase.seen.Some? ==>
          c.phase.seen.value.family.id == c.family && Saw(log, c.family, c.phase.seen.value))
    && c.attempt < cfg.maxRetries
    && c.readCount <= c.attempt + (if c.phase.ToRead? then 0 else 1)
                      + (if c.goal.Persisting? then cfg.maxRetries else 0)
    && (c.goal.Persisting? ==> c.sawReuse)
    && (c.sawReuse ==> !c.goal.Revoking? && c.family in log && Retired(log[c.family], c.goal.presented))
    && (c.wrote.Some? ==> c.phase.Done? && c.family in log && 0 < c.wrote.value < |log[c.family]|)
    && (c.phase.Done? ==> AnswerMatches(if c.family in log then log[c.family] else [], c))
  }

  ghost predicate LogsOk(s: System, cfg: Config) {
    forall id | id in s.log ::
      && Lineage(s.log[id], id, cfg)
      && (forall i :: 0 <= i < |s.log[id]| && !s.log[id][i].cause.Revocation? ==> s.log[id][i].cause.minted in s.minted)
  }

  ghost predicate StoreOk(s: System) {
    forall id | id in s.store ::
      id in s.log && s.log[id] != [] && s.store[id] == Stored(Last(s.log[id]), |s.log[id]|)
  }

  ghost predicate WritersDiffer(s: System) {
    forall p, q | p in s.calls && q in s.calls && p != q && s.calls[p].family == s.calls[q].family
                  && s.calls[p].wrote.Some? && s.calls[q].wrote.Some? ::
      s.calls[p].wrote != s.calls[q].wrote
  }

  ghost predicate Inv(s: System, cfg: Config) {
    && LogsOk(s, cfg)
    && StoreOk(s)
    && (forall p | p in s.calls :: CallOk(s.log, s.calls[p], cfg))
    && WritersDiffer(s)
  }

  // ----- Preservation, one kind of event at a time -----

  ghost predicate Grows(a: map<FamilyId, seq<Version>>, b: map<FamilyId, seq<Version>>) {
    forall id | id in a :: id in b && a[id] <= b[id]
  }

  /** What is known about a call survives any growth of the histories. */
  lemma CallOkGrows(a: map<FamilyId, seq<Version>>, b: map<FamilyId, seq<Version>>, c: Call, cfg: Config)
    requires Grows(a, b) && CallOk(a, c, cfg)
    ensures CallOk(b, c, cfg)
  {
  }

  /** A token still listed as used was live once, and is no longer. */
  lemma UsedIsRetired(log: seq<Version>, n: nat, h: Hash, id: FamilyId, cfg: Config)
    requires Lineage(log, id, cfg) && 0 < n <= |log|
    requires log[n - 1].family.revokedAt.None? && h in log[n - 1].family.usedHashes
    ensures Retired(log, h)
  {
    var before := log[..n];
    LineagePrefix(log, n, id, cfg);
    LiveVersionShape(before, id, cfg);
    var i :| 0 <= i < n - 1 && Hashes(before)[i] == h;
    LineagePrefix(log, i + 1, id, cfg);
    RevocationIsLast(log, id, cfg);
    LiveVersionShape(log[..i + 1], id, cfg);
    CurrentIsMinted(log, i, id, cfg);
    assert IsLive(log[i].family, h);
  }

  /** A retired token is not the newest version's live one. */
  lemma RetiredIsNotLive(log: seq<Version>, h: Hash, id: FamilyId, cfg: Config)
    requires Lineage(log, id, cfg) && Retired(log, h)
    ensures !IsLive(Last(log), h)
  {
    var i :| 0 <= i < |log| - 1 && IsLive(log[i].family, h);
    if IsLive(Last(log), h) {
      TokenIsLiveOnce(log, i, |log| - 1, id, cfg);
    }
  }

  /** What can be said of a plan without knowing how it was made. */
  ghost predicate PlanSound(plan: Plan, goal: Goal, f: Family, minted: Hash, cfg: Config) {
    match plan
    case Stop(outcome) =>
      && (outcome == Finished <==> goal.Revoking?)
      && (outcome.Finished? || outcome.Refused?)
      && (outcome == Refused(Reused) <==> goal.Persisting?)
    case Write(next, cause, onSuccess) =>
      && Follows(f, Version(next, cause), cfg)
      && next.id == f.id
      && (cause.Rotation? ==> cause.minted == minted && goal.Rotating? && IsLive(f, goal.presented))
      && (cause.Revocation? && goal.Rotating? ==>
            f.revokedAt.None? && goal.presented in f.usedHashes && cause.reason == ReuseDetected)
      && (if cause.Rotation? then onSuccess.Granted? && onSuccess.token.hash == minted
          else onSuccess == if goal.Revoking? then Finished else Refused(Reused))
  }

  lemma PlanIsSound(goal: Goal, f: Family, minted: Hash, now: int, cfg: Config)
    ensures PlanSound(PlanFor(goal, f, minted, now, cfg), goal, f, minted, cfg)
  {
  }

  lemma LineageAppend(log: seq<Version>, v: Version, id: FamilyId, cfg: Config)
    requires Lineage(log, id, cfg) && Follows(Last(log), v, cfg)
    requires v.cause.Rotation? ==>
               forall i :: 0 <= i < |log| && !log[i].cause.Revocation? ==> log[i].cause.minted != v.cause.minted
    ensures Lineage(log + [v], id, cfg)
  {
  }

  /** A call that has read a record and made a sound plan for it. */
  ghost predicate Planned(s: System, c: Call, plan: Plan, minted: Hash, cfg: Config) {
    && c.phase.ToDecide? && c.phase.seen.Some? && CallOk(s.log, c, cfg)
    && PlanSound(plan, c.goal, c.phase.seen.value.family, minted, cfg)
    && minted !in s.minted
  }

  /** What an attempt commits, in terms of the history it extends. */
  lemma AttemptExtends(s: System, c: Call, plan: Plan, minted: Hash, heard: bool, cfg: Config)
    requires LogsOk(s, cfg) && StoreOk(s) && Planned(s, c, plan, minted, cfg)
    ensures var r := Attempt(c, c.phase.seen.value, plan, s.store, heard, cfg);
            if r.committed.Some? then
              && plan.Write? && r.committed.value == Version(plan.next, plan.cause)
              && c.family in s.log && Lineage(s.log[c.family] + [r.committed.value], c.family, cfg)
              && r.call.wrote == Some(|s.log[c.family]|)
              && c.phase.seen.value.revision == |s.log[c.family]|
              && r.store == s.store[c.family := Stored(plan.next, |s.log[c.family]| + 1)]
            else r.store == s.store && r.call.wrote == c.wrote
  {
    var r := Attempt(c, c.phase.seen.value, plan, s.store, heard, cfg);
    if r.committed.Some? {
      assert c.family in s.store;
      LineageAppend(s.log[c.family], r.committed.value, c.family, cfg);
    }
  }

  /** Losing the race, or losing the store's answer, leaves a call accountable. */
  lemma UnwrittenCallOk(log: map<FamilyId, seq<Version>>, c: Call, cfg: Config)
    requires CallOk(log, c, cfg) && c.phase.ToDecide?
    ensures CallOk(log, AfterLoss(c, cfg), cfg)
    ensures CallOk(log, AfterThrow(c), cfg)
  {
  }

  /** Concluding reuse is only possible for a token that has been superseded. */
  lemma NotedCallOk(s: System, c: Call, plan: Plan, minted: Hash, cfg: Config)
    requires LogsOk(s, cfg) && Planned(s, c, plan, minted, cfg) && plan.Write?
    ensures CallOk(s.log, Noted(c, plan.cause), cfg)
  {
    var seen := c.phase.seen.value;
    if c.goal.Rotating? && plan.cause.Revocation? {
      UsedIsRetired(s.log[c.family], seen.revision, c.goal.presented, c.family, cfg);
    }
  }

  /** A call whose compare-and-set went through answers for the version it wrote. */
  lemma WrittenCallOk(log: map<FamilyId, seq<Version>>, c: Call, plan: Plan, minted: Hash, heard: bool, cfg: Config)
    requires CallOk(log, c, cfg) && c.phase.ToDecide? && c.phase.seen.Some?
    requires PlanSound(plan, c.goal, c.phase.seen.value.family, minted, cfg) && plan.Write?
    requires c.phase.seen.value.revision == |log[c.family]| - 1
    requires log[c.family][|log[c.family]| - 1] == Version(plan.next, plan.cause)
    requires plan.cause.Rotation? ==> !c.sawReuse
    ensures var done := c.(wrote := Some(c.phase.seen.value.revision));
            CallOk(log, if heard then done.(phase := Done(plan.onSuccess)) else AfterThrow(done), cfg)
  {
  }

  lemma WriterCallOk(
    s: System, log: map<FamilyId, seq<Version>>, c: Call, plan: Plan, minted: Hash, heard: bool, cfg: Config)
    requires LogsOk(s, cfg) && Planned(s, c, plan, minted, cfg) && plan.Write?
    requires c.family in s.log && c.phase.seen.value.revision == |s.log[c.family]|
    requires log == s.log[c.family := s.log[c.family] + [Version(plan.next, plan.cause)]]
    ensures var done := Noted(c, plan.cause).(wrote := Some(c.phase.seen.value.revision));
            CallOk(log, if heard then done.(phase := Done(plan.onSuccess)) else AfterThrow(done), cfg)
  {
    NotedCallOk(s, c, plan, minted, cfg);
    if plan.cause.Rotation? && c.sawReuse {
      RetiredIsNotLive(s.log[c.family], c.goal.presented, c.family, cfg);
    }
    CallOkGrows(s.log, log, Noted(c, plan.cause), cfg);
    WrittenCallOk(log, Noted(c, plan.cause), plan, minted, heard, cfg);
  }

  /** The call that took the step still answers for what it did. */
  lemma AttemptCallOk(s: System, c: Call, plan: Plan, minted: Hash, heard: bool, cfg: Config)
    requires LogsOk(s, cfg) && StoreOk(s) && Planned(s, c, plan, minted, cfg)
    ensures var r := Attempt(c, c.phase.seen.value, plan, s.store, heard, cfg);
            if r.committed.None? then CallOk(s.log, r.call, cfg)
            else c.family in s.log && CallOk(s.log[c.family := s.log[c.family] + [r.committed.value]], r.call, cfg)
  {
    AttemptExtends(s, c, plan, minted, heard, cfg);
    if plan.Write? {
      NotedCallOk(s, c, plan, minted, cfg);
      UnwrittenCallOk(s.log, Noted(c, plan.cause), cfg);
      if Attempt(c, c.phase.seen.value, plan, s.store, heard, cfg).committed.Some? {
        var log := s.log[c.family := s.log[c.family] + [Version(plan.next, plan.cause)]];
        WriterCallOk(s, log, c, plan, minted, heard, cfg);
      }
    }
  }

  lemma IssueKeeps(s: System, e: Event, cfg: Config)
    requires Inv(s, cfg) && e.Issue? && Enabled(s, e)
    ensures Inv(Next(s, e, cfg), cfg)
  {
    var t := Next(s, e, cfg);
    assert Grows(s.log, t.log);
    forall p | p in t.calls
      ensures CallOk(t.log, t.calls[p], cfg)
    {
      CallOkGrows(s.log, t.log, s.calls[p], cfg);
    }
  }

  /** `t` is `s` after call `p` appended version `v` to its family. */
  ghost predicate Commits(s: System, t: System, p: CallId, v: Version, minted: Hash, cfg: Config) {
    && p in s.calls && p in t.calls
    && var id := s.calls[p].family;
    && id in s.log && s.log[id] != []
    && t.log == s.log[id := s.log[id] + [v]]
    && Lineage(t.log[id], id, cfg)
    && (!v.cause.Revocation? ==> v.cause.minted == minted)
    && t.minted == s.minted + {minted}
    && t.store == s.store[id := Stored(v.family, |s.log[id]| + 1)]
    && t.calls == s.calls[p := t.calls[p]]
    && t.calls[p].family == id
    && t.calls[p].wrote == Some(|s.log[id]|)
  }

  /** `t` is `s` after call `p` took a step that committed nothing. */
  ghost predicate CommitsNothing(s: System, t: System, p: CallId, minted: Hash) {
    && p in s.calls && p in t.calls
    && t.log == s.log
    && t.minted == s.minted + {minted}
    && t.store == s.store
    && t.calls == s.calls[p := t.calls[p]]
    && t.calls[p].family == s.calls[p].family
    && t.calls[p].wrote == s.calls[p].wrote
  }

  lemma DecideEffect(s: System, e: Event, cfg: Config) returns (v: Option<Version>)
    requires Inv(s, cfg) && e.Decide? && Enabled(s, e)
    ensures var t := Next(s, e, cfg);
            && e.call in t.calls && CallOk(t.log, t.calls[e.call], cfg)
            && if v.Some? then Commits(s, t, e.call, v.value, e.minted, cfg) else CommitsNothing(s, t, e.call, e.minted)
  {
    var c := s.calls[e.call];
    assert CallOk(s.log, c, cfg);
    v := None;
    ResolveKeepsFamily(c, s.store, e.minted, e.now, e.heard, cfg);
    if c.phase.seen.Some? {
      var f := c.phase.seen.value.family;
      var plan := PlanFor(c.goal, f, e.minted, e.now, cfg);
      PlanIsSound(c.goal, f, e.minted, e.now, cfg);
      AttemptExtends(s, c, plan, e.minted, e.heard, cfg);
      AttemptCallOk(s, c, plan, e.minted, e.heard, cfg);
      v := Resolve(c, s.store, e.minted, e.now, e.heard, cfg).committed;
    }
  }

  lemma CommitKeepsHistories(s: System, t: System, p: CallId, v: Version, minted: Hash, cfg: Config)
    requires LogsOk(s, cfg) && StoreOk(s) && Commits(s, t, p, v, minted, cfg)
    ensures Grows(s.log, t.log) && LogsOk(t, cfg) && StoreOk(t)
  {
  }

  lemma CommitKeepsWriters(s: System, t: System, p: CallId, v: Version, minted: Hash, cfg: Config)
    requires WritersDiffer(s) && Commits(s, t, p, v, minted, cfg)
    requires forall q | q in s.calls :: CallOk(s.log, s.calls[q], cfg)
    ensures WritersDiffer(t)
  {
  }

  lemma DecideKeeps(s: System, e: Event, cfg: Config)
    requires Inv(s, cfg) && e.Decide? && Enabled(s, e)
    ensures Inv(Next(s, e, cfg), cfg)
    ensures Grows(s.log, Next(s, e, cfg).log)
  {
    var t := Next(s, e, cfg);
    var v := DecideEffect(s, e, cfg);
    EffectKeeps(s, t, e.call, v, e.minted, cfg);
  }

  lemma EffectKeeps(s: System, t: System, p: CallId, v: Option<Version>, minted: Hash, cfg: Config)
    requires Inv(s, cfg)
    requires if v.Some? then Commits(s, t, p, v.value, minted, cfg) else CommitsNothing(s, t, p, minted)
    requires CallOk(t.log, t.calls[p], cfg)
    ensures Inv(t, cfg) && Grows(s.log, t.log)
  {
    if v.Some? {
      CommitKeepsHistories(s, t, p, v.value, minted, cfg);
      CommitKeepsWriters(s, t, p, v.value, minted, cfg);
    }
    forall q | q in t.calls
      ensures CallOk(t.log, t.calls[q], cfg)
    {
      if q != p {
        CallOkGrows(s.log, t.log, s.calls[q], cfg);
      }
    }
  }

  /** Any step that leaves the histories alone, at most removing families from the store. */
  lemma QuietKeeps(s: System, t: System, p: CallId, cfg: Config)
    requires Inv(s, cfg) && t.log == s.log && t.minted == s.minted
    requires forall id | id in t.store :: id in s.store && t.store[id] == s.store[id]
    requires forall q | q in t.calls && q != p :: q in s.calls && t.calls[q] == s.calls[q]
    requires p in t.calls ==> CallOk(s.log, t.calls[p], cfg)
    requires p in t.calls ==> t.calls[p].wrote.None?
    ensures Inv(t, cfg)
  {
  }

  lemma ReadKeeps(s: System, e: Event, cfg: Config)
    requires Inv(s, cfg) && e.Read? && Enabled(s, e)
    ensures Inv(Next(s, e, cfg), cfg)
  {
    var c := s.calls[e.call];
    assert CallOk(s.log, c, cfg);
    if c.family in s.store {
      DeadlineIsFixed(s.log[c.family], |s.log[c.family]| - 1, c.family, cfg);
    }
    QuietKeeps(s, Next(s, e, cfg), e.call, cfg);
  }

  lemma OtherKeeps(s: System, e: Event, cfg: Config)
    requires Inv(s, cfg) && (e.Begin? || e.Throw?) && Enabled(s, e)
    ensures Inv(Next(s, e, cfg), cfg)
  {
    if e.Throw? {
      assert CallOk(s.log, s.calls[e.call], cfg);
    }
    QuietKeeps(s, Next(s, e, cfg), e.call, cfg);
  }

  lemma DropKeeps(s: System, e: Event, cfg: Config)
    requires Inv(s, cfg) && e.Drop? && Enabled(s, e)
    ensures Inv(Next(s, e, cfg), cfg)
  {
  }

  lemma StepKeeps(s: System, e: Event, cfg: Config)
    requires Inv(s, cfg) && Enabled(s, e)
    ensures Inv(Next(s, e, cfg), cfg)
    ensures Grows(s.log, Next(s, e, cfg).log)
  {
    if e.Issue? {
      IssueKeeps(s, e, cfg);
    } else if e.Decide? {
      DecideKeeps(s, e, cfg);
    } else if e.Read? {
      ReadKeeps(s, e, cfg);
    } else if e.Drop? {
      DropKeeps(s, e, cfg);
    } else {
      OtherKeeps(s, e, cfg);
    }
  }

  lemma {:induction false} RunKeeps(s: System, events: seq<Event>, t: System, cfg: Config)
    requires Inv(s, cfg) && Leads(s, events, t, cfg)
    ensures Inv(t, cfg)
    ensures Grows(s.log, t.log)
    decreases |events|
  {
    if events != [] {
      StepKeeps(s, events[0], cfg);
      RunKeeps(Next(s, events[0], cfg), events[1..], t, cfg);
    }
  }

  lemma {:induction false} CallsStay(s: System, events: seq<Event>, t: System, p: CallId, cfg: Config)
    requires Leads(s, events, t, cfg) && p in s.calls
    ensures p in t.calls && t.calls[p].family == s.calls[p].family
    decreases |events|
  {
    if events != [] {
      var e := events[0];
      var u := Next(s, e, cfg);
      if e.Decide? && e.call == p {
        ResolveKeepsFamily(s.calls[p], s.store, e.minted, e.now, e.heard, cfg);
      }
      CallsStay(u, events[1..], t, p, cfg);
    }
  }

  lemma ResolveKeepsFamily(c: Call, store: Families, minted: Hash, now: int, heard: bool, cfg: Config)
    requires c.phase.ToDecide?
    ensures Resolve(c, store, minted, now, heard, cfg).call.family == c.family
  {
  }
}
