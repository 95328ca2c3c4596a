/**
 When a `reused` answer can be trusted (packages/auth-utils/src/refresh.ts, lines 165-169): it is documented to fire
 once per family, and to mean that the family has just been revoked. Both hold exactly when the retry budget outlasts
 the reuse-detection index.
 */
module RefreshReports {
  import opened Options
  import opened RefreshState
  import opened FamilyHistory
  import opened RefreshStore
  import opened RefreshRuns
  import opened RefreshTheorems
  import opened RefreshScripts

  /** A call that keeps losing sees its token age with every read; the index forgets it before the budget ends. */
  predicate OutlastsIndex(cfg: Config) {
    cfg.maxRetries > cfg.maxChainLength + 1
  }

  /** Of any two calls that report the reuse of one family's tokens, in any run, both are the same call. */
  ghost predicate ReportsOnce(cfg: Config) {
    forall events, t, p, q ::
      Reachable(events, t, cfg) && p in t.calls && q in t.calls && t.calls[p].family == t.calls[q].family
      && t.calls[p].phase == Done(Refused(Reused)) && t.calls[q].phase == Done(Refused(Reused))
      ==> p == q
  }

  /** Whenever some call has answered `reused`, its family is revoked, or gone from the store. */
  ghost predicate ReportsMeanRevoked(cfg: Config) {
    forall events, t, p ::
      Reachable(events, t, cfg) && p in t.calls && t.calls[p].phase == Done(Refused(Reused))
      ==> Ended(t, t.calls[p].family)
  }

  predicate Ended(s: System, id: FamilyId) {
    id in s.store ==> s.store[id].family.revokedAt.Some?
  }

  // ----- Above the threshold no call runs out of retries with a reuse to record -----

  /** `h` was the live token of a version at least `age` versions older than the `n`-th. */
  ghost predicate OlderThan(log: seq<Version>, h: Hash, n: nat, age: nat) {
    exists i :: 0 <= i < |log| && IsLive(log[i].family, h) && i + age < n
  }

  /** After `attempt` lost races the token presented is at least that many versions old. */
  ghost predicate Aged(s: System, c: Call) {
    c.goal.Rotating? && c.attempt > 0 && !c.phase.Done? ==>
      && c.family in s.log
      && (c.phase.ToRead? && c.family in s.store ==>
            OlderThan(s.log[c.family], c.goal.presented, |s.log[c.family]|, c.attempt))
      && (c.phase.ToDecide? && c.phase.seen.Some? ==>
            OlderThan(s.log[c.family], c.goal.presented, c.phase.seen.value.revision, c.attempt))
  }

  ghost predicate NoneGivesUp(s: System) {
    forall p :: p in s.calls ==> Aged(s, s.calls[p]) && !s.calls[p].goal.Persisting?
  }

  /** What a plan to write says about the age of the token presented. */
  lemma PlannedAge(log: seq<Version>, n: nat, plan: Plan, goal: Goal, minted: Hash, id: FamilyId, cfg: Config)
    returns (i: nat)
    requires Lineage(log, id, cfg) && 0 < n <= |log|
    requires goal.Rotating? && plan.Write? && PlanSound(plan, goal, log[n - 1].family, minted, cfg)
    ensures i < n && IsLive(log[i].family, goal.presented)
    ensures if plan.cause.Revocation? then 0 < n - 1 - i <= cfg.maxChainLength else i == n - 1
  {
    i := n - 1;
    if plan.cause.Revocation? {
      var before := log[..n];
      LineagePrefix(log, n, id, cfg);
      LiveVersionShape(before, id, cfg);
      i :| 0 <= i < n - 1 && Hashes(before)[i] == goal.presented;
      IndexHoldsRecent(before, n - 1 - i, id, cfg);
      LineagePrefix(log, i + 1, id, cfg);
      RevocationIsLast(log, id, cfg);
      LiveVersionShape(log[..i + 1], id, cfg);
      CurrentIsMinted(log, i, id, cfg);
    }
  }

  /** A lost attempt that was not the last one. */
  lemma LossAges(s: System, c: Call, i: nat, n: nat, cfg: Config)
    requires c.goal.Rotating? && c.attempt + 1 < cfg.maxRetries && c.phase.ToDecide?
    requires c.family in s.log && i < |s.log[c.family]| && IsLive(s.log[c.family][i].family, c.goal.presented)
    requires i + c.attempt < n && (c.family in s.store ==> n < |s.log[c.family]|)
    ensures AfterLoss(c, cfg).goal.Rotating? && Aged(s, AfterLoss(c, cfg))
  {
  }

  /** The token is at least as old as the attempts already lost, and the last attempt is still to come. */
  lemma AttemptsLeft(s: System, c: Call, plan: Plan, minted: Hash, cfg: Config) returns (i: nat)
    requires LogsOk(s, cfg) && Planned(s, c, plan, minted, cfg) && c.goal.Rotating? && plan.Write?
    requires Aged(s, c) && OutlastsIndex(cfg)
    ensures c.family in s.log && i < |s.log[c.family]| && IsLive(s.log[c.family][i].family, c.goal.presented)
    ensures i + c.attempt < c.phase.seen.value.revision && c.attempt + 1 < cfg.maxRetries
  {
    var log, n := s.log[c.family], c.phase.seen.value.revision;
    i := PlannedAge(log, n, plan, c.goal, minted, c.family, cfg);
    if c.attempt > 0 {
      var j :| 0 <= j < |log| && IsLive(log[j].family, c.goal.presented) && j + c.attempt < n;
      TokenIsLiveOnce(log, i, j, c.family, cfg);
    }
  }

  /** An attempt ends the call, or leaves it one attempt and at least one version further on. */
  lemma LosingAges(s: System, c: Call, plan: Plan, minted: Hash, heard: bool, cfg: Config)
    requires LogsOk(s, cfg) && StoreOk(s) && Planned(s, c, plan, minted, cfg) && c.goal.Rotating?
    requires Aged(s, c) && OutlastsIndex(cfg)
    ensures var r := Attempt(c, c.phase.seen.value, plan, s.store, heard, cfg);
            !r.call.goal.Persisting? && (r.call.phase.Done? || (r.committed.None? && Aged(s, r.call)))
  {
    if plan.Write? {
      var i := AttemptsLeft(s, c, plan, minted, cfg);
      var n := c.phase.seen.value.revision;
      if c.family in s.store && s.store[c.family].revision != n {
        assert n < |s.log[c.family]|;
      }
      assert plan.next.id == c.family;
      if c.family !in s.store || s.store[c.family].revision != n {
        LossAges(s, Noted(c, plan.cause), i, n, cfg);
      }
    }
  }

  /** What the other calls were owed is still so after a step that grew histories and shrank the store. */
  lemma AgedStays(s: System, t: System, c: Call)
    requires Aged(s, c) && Grows(s.log, t.log)
    requires forall id | id in t.store && id in s.log :: id in s.store
    ensures Aged(t, c)
  {
    if c.goal.Rotating? && c.attempt > 0 && !c.phase.Done? {
      assert s.log[c.family] <= t.log[c.family];
    }
  }

  lemma DecideAges(s: System, e: Event, cfg: Config)
    requires Inv(s, cfg) && NoneGivesUp(s) && OutlastsIndex(cfg) && e.Decide? && Enabled(s, e)
    ensures var c := Next(s, e, cfg).calls[e.call];
            !c.goal.Persisting? && (c.phase.Done? || (Next(s, e, cfg).log == s.log && Aged(s, c)))
  {
    var c := s.calls[e.call];
    assert CallOk(s.log, c, cfg);
    if c.phase.seen.Some? {
      var plan := PlanFor(c.goal, c.phase.seen.value.family, e.minted, e.now, cfg);
      PlanIsSound(c.goal, c.phase.seen.value.family, e.minted, e.now, cfg);
      if c.goal.Rotating? {
        LosingAges(s, c, plan, e.minted, e.heard, cfg);
      }
    }
  }

  lemma DecideKeepsFamilies(s: System, e: Event, cfg: Config)
    requires e.Decide? && Enabled(s, e)
    ensures Next(s, e, cfg).store.Keys == s.store.Keys
  {
  }

  /** A step of call `p` leaves the others as they were. */
  lemma OneGivesUpNot(s: System, t: System, p: CallId)
    requires NoneGivesUp(s) && Grows(s.log, t.log)
    requires forall id | id in t.store && id in s.log :: id in s.store
    requires forall q | q in t.calls && q != p :: q in s.calls && t.calls[q] == s.calls[q]
    requires p in t.calls ==> Aged(t, t.calls[p]) && !t.calls[p].goal.Persisting?
    ensures NoneGivesUp(t)
  {
    forall q | q in t.calls
      ensures Aged(t, t.calls[q]) && !t.calls[q].goal.Persisting?
    {
      if q != p {
        AgedStays(s, t, s.calls[q]);
      }
    }
  }

  lemma DecideFrame(s: System, e: Event, cfg: Config)
    requires Inv(s, cfg) && e.Decide? && Enabled(s, e)
    ensures var t := Next(s, e, cfg);
            && t.calls == s.calls[e.call := t.calls[e.call]]
            && t.store.Keys == s.store.Keys && Grows(s.log, t.log)
  {
    DecideKeepsFamilies(s, e, cfg);
    DecideKeeps(s, e, cfg);
  }

  lemma CallMovesOn(s: System, t: System, p: CallId)
    requires NoneGivesUp(s) && Grows(s.log, t.log) && t.store.Keys == s.store.Keys
    requires p in t.calls && t.calls == s.calls[p := t.calls[p]] && !t.calls[p].goal.Persisting?
    requires t.calls[p].phase.Done? || (t.log == s.log && Aged(s, t.calls[p]))
    ensures NoneGivesUp(t)
  {
    if !t.calls[p].phase.Done? {
      SameCallAged(s, t, t.calls[p]);
    }
    OneGivesUpNot(s, t, p);
  }

  lemma DecideGivesUpNot(s: System, e: Event, cfg: Config)
    requires Inv(s, cfg) && NoneGivesUp(s) && OutlastsIndex(cfg) && e.Decide? && Enabled(s, e)
    ensures NoneGivesUp(Next(s, e, cfg))
  {
    DecideFrame(s, e, cfg);
    DecideAges(s, e, cfg);
    CallMovesOn(s, Next(s, e, cfg), e.call);
  }

  lemma SameCallAged(s: System, t: System, c: Call)
    requires Aged(s, c) && t.log == s.log && t.store.Keys <= s.store.Keys
    ensures Aged(t, c)
  {
  }

  lemma ReadGivesUpNot(s: System, e: Event, cfg: Config)
    requires Inv(s, cfg) && NoneGivesUp(s) && e.Read? && Enabled(s, e)
    ensures NoneGivesUp(Next(s, e, cfg))
  {
    var c, t := s.calls[e.call], Next(s, e, cfg);
    assert Aged(s, c);
    assert Aged(t, t.calls[e.call]);
    OneGivesUpNot(s, t, e.call);
  }

  /** Steps that are no part of a retry loop. */
  lemma OtherGivesUpNot(s: System, e: Event, cfg: Config)
    requires NoneGivesUp(s) && Enabled(s, e) && !e.Decide? && !e.Read? && Grows(s.log, Next(s, e, cfg).log)
    ensures NoneGivesUp(Next(s, e, cfg))
  {
    OneGivesUpNot(s, Next(s, e, cfg), if e.Begin? || e.Throw? then e.call else 0);
  }

  lemma NoneGivesUpStep(s: System, e: Event, cfg: Config)
    requires Inv(s, cfg) && NoneGivesUp(s) && OutlastsIndex(cfg) && Enabled(s, e)
    ensures NoneGivesUp(Next(s, e, cfg))
  {
    if e.Decide? {
      DecideGivesUpNot(s, e, cfg);
    } else if e.Read? {
      ReadGivesUpNot(s, e, cfg);
    } else {
      StepKeeps(s, e, cfg);
      OtherGivesUpNot(s, e, cfg);
    }
  }

  lemma {:induction false} NoneGivesUpRun(s: System, events: seq<Event>, t: System, cfg: Config)
    requires Inv(s, cfg) && NoneGivesUp(s) && OutlastsIndex(cfg) && Leads(s, events, t, cfg)
    ensures NoneGivesUp(t)
    decreases |events|
  {
    if events != [] {
      StepKeeps(s, events[0], cfg);
      NoneGivesUpStep(s, events[0], cfg);
      NoneGivesUpRun(Next(s, events[0], cfg), events[1..], t, cfg);
    }
  }

  /** A report made from within the retry loop is made by the call that revoked the family. */
  lemma LoopReportRevokes(events: seq<Event>, t: System, p: CallId, cfg: Config)
    requires Reachable(events, t, cfg) && p in t.calls && t.calls[p].goal.Rotating?
    requires t.calls[p].phase == Done(Refused(Reused))
    ensures Ended(t, t.calls[p].family)
    ensures t.calls[p].family in t.log && t.calls[p].wrote == Some(|t.log[t.calls[p].family]| - 1)
  {
    ReachableInv(events, t, cfg);
    var c := t.calls[p];
    assert CallOk(t.log, c, cfg);
    RevocationIsLast(t.log[c.family], c.family, cfg);
  }

  lemma OutlastingReports(cfg: Config)
    requires OutlastsIndex(cfg)
    ensures ReportsOnce(cfg) && ReportsMeanRevoked(cfg)
  {
    forall events, t, p |
      Reachable(events, t, cfg) && p in t.calls && t.calls[p].phase == Done(Refused(Reused))
      ensures t.calls[p].goal.Rotating? && Ended(t, t.calls[p].family)
      ensures t.calls[p].family in t.log && t.calls[p].wrote == Some(|t.log[t.calls[p].family]| - 1)
    {
      ReachableInv(events, t, cfg);
      NoneGivesUpRun(EMPTY, events, t, cfg);
      assert CallOk(t.log, t.calls[p], cfg);
      LoopReportRevokes(events, t, p, cfg);
    }
    forall events, t, p, q |
      Reachable(events, t, cfg) && p in t.calls && q in t.calls && t.calls[p].family == t.calls[q].family
      && t.calls[p].phase == Done(Refused(Reused)) && t.calls[q].phase == Done(Refused(Reused))
      ensures p == q
    {
      ReachableInv(events, t, cfg);
    }
  }

  // ----- At the threshold and below it, runs in which neither holds -----

  lemma StaleWrites(events: seq<Event>, s: System, k: nat, n: nat, p: CallId, attempt: nat, cfg: Config)
    requires Staged(events, s, k, cfg) && LiveAt(s, n) && Stale(s, p, attempt) && 1 <= n <= cfg.maxChainLength + 1
    ensures Writes(s, p, n > 1, cfg)
  {
    forall minted
      ensures var plan := PlanFor(s.calls[p].goal, s.store[FAMILY].family, minted, 0, cfg);
              plan.Write? && plan.next.id == FAMILY && plan.cause.Revocation? == (n > 1)
    {
      if n > 1 {
        StalePlan(events, s, k, n, minted, cfg);
      } else {
        FirstIsLive(events, s, k, cfg);
        var next, token := LivePlan(events, s, k, n, minted, cfg);
      }
    }
  }

  /** Such a call loses every race but the last. */
  lemma {:induction false} StaleRounds(
    events: seq<Event>, s: System, k: nat, n: nat, p: CallId, attempt: nat, cfg: Config)
    returns (more: seq<Event>, t: System, k': nat)
    requires Staged(events, s, k, cfg) && LiveAt(s, n) && Stale(s, p, attempt) && 1 <= n
    requires attempt < cfg.maxRetries && n + (cfg.maxRetries - 1 - attempt) <= cfg.maxChainLength + 1
    ensures Staged(more, t, k', cfg) && LiveAt(t, n + (cfg.maxRetries - 1 - attempt)) && Stale(t, p, cfg.maxRetries - 1)
    decreases cfg.maxRetries - attempt
  {
    if attempt + 1 == cfg.maxRetries {
      more, t, k' := events, s, k;
    } else {
      StaleWrites(events, s, k, n, p, attempt, cfg);
      more, t := LosesToClient(events, s, k, n, p, n > 1, cfg);
      more, t, k' := StaleRounds(more, t, k + 3, n + 1, p, attempt + 1, cfg);
    }
  }

  /** It stands before its last attempt while the index still holds its token. */
  lemma LastAttempt(cfg: Config) returns (events: seq<Event>, s: System, k: nat, n: nat, p: CallId)
    requires !OutlastsIndex(cfg)
    ensures Staged(events, s, k, cfg) && LiveAt(s, n) && 1 < n <= cfg.maxChainLength + 1
    ensures Stale(s, p, cfg.maxRetries - 1)
  {
    events, s := IssueStep(cfg);
    if cfg.maxRetries == 1 {
      events, s := ClientRotates(events, s, 0, 1, cfg);
      events, s := BeginStep(events, s, 2, Rotating(FIRST), cfg);
      k, n, p := 3, 2, 3;
    } else {
      events, s := BeginStep(events, s, 0, Rotating(FIRST), cfg);
      p, n := 1, cfg.maxRetries;
      events, s, k := StaleRounds(events, s, 1, 1, p, 0, cfg);
    }
  }

  /** Losing the last attempt to the revocation itself, a call goes on to record the reuse, and finds it recorded. */
  lemma ReportsAgain(events: seq<Event>, s: System, k: nat, p: CallId, seen: Stored, cfg: Config)
    returns (more: seq<Event>, t: System)
    requires Staged(events, s, k, cfg) && AboutToRevoke(s, p, seen, cfg.maxRetries - 1, cfg)
    requires s.store[FAMILY].revision != seen.revision && s.store[FAMILY].family.revokedAt.Some?
    ensures Reachable(more, t, cfg) && p in t.calls && t.calls[p].family == FAMILY
    ensures t.calls[p].phase == Done(Refused(Reused))
    ensures forall q :: q in s.calls && q != p ==> q in t.calls && t.calls[q] == s.calls[q]
  {
    more, t := LoseStep(events, s, k, p, seen, cfg);
    assert t.calls[p].goal == Persisting(FIRST) && t.calls[p].phase.ToRead?;
    more, t := ReadStep(more, t, k + 1, p, cfg);
    more, t := StopStep(more, t, k + 1, p, s.store[FAMILY], Refused(Reused), cfg);
  }

  /** Two calls present a token rotated away; one revokes the family, the other runs out of retries: both report it. */
  lemma TwoReports(cfg: Config) returns (events: seq<Event>, t: System, p: CallId, q: CallId)
    requires !OutlastsIndex(cfg)
    ensures Reachable(events, t, cfg) && p in t.calls && q in t.calls && p != q
    ensures t.calls[p].family == t.calls[q].family
    ensures t.calls[p].phase == Done(Refused(Reused)) && t.calls[q].phase == Done(Refused(Reused))
  {
    var k, n;
    events, t, k, n, p := LastAttempt(cfg);
    var seen := t.store[FAMILY];
    q := k + 1;
    events, t := StaleReads(events, t, k, n, p, cfg.maxRetries - 1, cfg);
    events, t := BeginStep(events, t, k, Rotating(FIRST), cfg);
    events, t := StaleReads(events, t, k + 1, n, q, 0, cfg);
    events, t := WriteStep(events, t, k + 1, q, Revoke(seen.family, 0, ReuseDetected), Revocation(0, ReuseDetected),
                           Refused(Reused), cfg);
    events, t := ReportsAgain(events, t, k + 2, p, seen, cfg);
  }

  /** A call out of retries that still has the reuse to record loses those races too, and reports all the same. */
  lemma {:induction false} PersistingRounds(events: seq<Event>, s: System, k: nat, n: nat, p: CallId, cfg: Config)
    returns (more: seq<Event>, t: System)
    requires Staged(events, s, k, cfg) && LiveAt(s, n) && p in s.calls && s.calls[p].family == FAMILY
    requires s.calls[p].goal.Persisting? && s.calls[p].phase.ToRead? && s.calls[p].attempt < cfg.maxRetries
    ensures Reachable(more, t, cfg) && p in t.calls && t.calls[p].family == FAMILY
    ensures t.calls[p].phase == Done(Refused(Reused))
    ensures FAMILY in t.store && t.store[FAMILY].family.revokedAt.None?
    decreases cfg.maxRetries - s.calls[p].attempt
  {
    assert Writes(s, p, true, cfg);
    more, t := LosesToClient(events, s, k, n, p, true, cfg);
    if s.calls[p].attempt + 1 < cfg.maxRetries {
      more, t := PersistingRounds(more, t, k + 3, n + 1, p, cfg);
    }
  }

  /** One call presents a token rotated away and loses every race to a client's rotations: it reports a live family. */
  lemma ReportedAlive(cfg: Config) returns (events: seq<Event>, t: System, p: CallId)
    requires !OutlastsIndex(cfg)
    ensures Reachable(events, t, cfg) && p in t.calls && t.calls[p].phase == Done(Refused(Reused))
    ensures !Ended(t, t.calls[p].family)
  {
    var k, n;
    events, t, k, n, p := LastAttempt(cfg);
    StaleWrites(events, t, k, n, p, cfg.maxRetries - 1, cfg);
    events, t := LosesToClient(events, t, k, n, p, true, cfg);
    events, t := PersistingRounds(events, t, k + 3, n + 1, p, cfg);
  }

  /**
   `reused` is answered at most once per family in every run, if and only if the retry budget outlasts the index: with
   the defaults of 3 and 100 it does not.
   */
  lemma ReportsOnceIff(cfg: Config)
    ensures ReportsOnce(cfg) <==> cfg.maxRetries > cfg.maxChainLength + 1
  {
    if OutlastsIndex(cfg) {
      OutlastingReports(cfg);
    } else {
      var events, t, p, q := TwoReports(cfg);
      assert !ReportsOnce(cfg);
    }
  }

  /** `reused` means in every run that the family is revoked or gone, under the very same condition. */
  lemma ReportsMeanRevokedIff(cfg: Config)
    ensures ReportsMeanRevoked(cfg) <==> cfg.maxRetries > cfg.maxChainLength + 1
  {
    if OutlastsIndex(cfg) {
      OutlastingReports(cfg);
    } else {
      var events, t, p := ReportedAlive(cfg);
      assert !ReportsMeanRevoked(cfg);
    }
  }
}
