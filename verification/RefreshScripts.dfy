/** Steps from which concrete runs of the refresh-token service are put together, for any configuration, at time 0. */
module RefreshScripts {
  import opened Options
  import opened RefreshState
  import opened FamilyHistory
  import opened RefreshStore
  import opened RefreshRuns
  import opened RefreshTheorems

  const FAMILY := "f"
  /** The family's first token. */
  const FIRST: Hash := ""

  /** A hash no run has minted that minted only shorter ones. */
  function Fresh(k: nat): Hash {
    seq(k, i => 'x')
  }

  /** A run to `s`, in which no hash is longer than `k` and no call is numbered above `k`. */
  ghost predicate Staged(events: seq<Event>, s: System, k: nat, cfg: Config) {
    && Reachable(events, s, cfg)
    && FAMILY in s.store && s.store[FAMILY].family.id == FAMILY && 0 < s.store[FAMILY].family.absoluteExpiresAt
    && FAMILY in s.log && s.log[FAMILY] != [] && s.log[FAMILY][0].cause == Issued(FIRST)
    && (forall h :: h in s.minted ==> |h| <= k) && (forall p :: p in s.calls ==> p <= k)
  }

  /** The family is live, and this is its `n`-th version. */
  ghost predicate LiveAt(s: System, n: nat) {
    && FAMILY in s.store && s.store[FAMILY].revision == n
    && s.store[FAMILY].family.revokedAt.None? && s.store[FAMILY].family.current.Some?
    && 0 < s.store[FAMILY].family.current.value.expiresAt
  }

  lemma {:induction false} LeadsAppend(s: System, events: seq<Event>, t: System, e: Event, cfg: Config)
    requires Leads(s, events, t, cfg) && Enabled(t, e)
    ensures Leads(s, events + [e], Next(t, e, cfg), cfg)
    decreases |events|
  {
    if events == [] {
      assert Leads(Next(s, e, cfg), [], Next(t, e, cfg), cfg);
    } else {
      LeadsAppend(Next(s, events[0], cfg), events[1..], t, e, cfg);
      assert (events + [e])[1..] == events[1..] + [e];
    }
  }

  lemma IssueStep(cfg: Config) returns (events: seq<Event>, s: System)
    ensures Staged(events, s, 0, cfg) && LiveAt(s, 1) && s.calls == map[]
    ensures s.store[FAMILY].family.current.value.hash == FIRST
  {
    var e := Issue(FAMILY, "u", FIRST, 0, 0);
    LeadsAppend(EMPTY, [], EMPTY, e, cfg);
    events, s := [] + [e], Next(EMPTY, e, cfg);
  }

  lemma BeginStep(events: seq<Event>, s: System, k: nat, goal: Goal, cfg: Config)
    returns (more: seq<Event>, t: System)
    requires Staged(events, s, k, cfg) && !goal.Persisting?
    ensures Staged(more, t, k + 1, cfg)
    ensures t == s.(calls := s.calls[k + 1 := Start(FAMILY, goal)])
  {
    var e := Begin(k + 1, FAMILY, goal);
    LeadsAppend(EMPTY, events, s, e, cfg);
    more, t := events + [e], Next(s, e, cfg);
  }

  lemma ReadStep(events: seq<Event>, s: System, k: nat, p: CallId, cfg: Config)
    returns (more: seq<Event>, t: System)
    requires Staged(events, s, k, cfg) && p in s.calls && s.calls[p].family == FAMILY && s.calls[p].phase.ToRead?
    ensures Staged(more, t, k, cfg)
    ensures Enabled(s, Read(p, 0)) && more == events + [Read(p, 0)] && t == Next(s, Read(p, 0), cfg)
    ensures t == s.(calls := s.calls[p := AfterRead(s.calls[p], Some(s.store[FAMILY]))])
  {
    var e := Read(p, 0);
    LeadsAppend(EMPTY, events, s, e, cfg);
    more, t := events + [e], Next(s, e, cfg);
  }

  /** A call that read the record still stored carries out its plan. */
  lemma WriteStep(
    events: seq<Event>, s: System, k: nat, p: CallId, next: Family, cause: Cause, answer: Outcome, cfg: Config)
    returns (more: seq<Event>, t: System)
    requires Staged(events, s, k, cfg) && p in s.calls && s.calls[p].family == FAMILY
    requires s.calls[p].phase == ToDecide(Some(s.store[FAMILY]))
    requires PlanFor(s.calls[p].goal, s.store[FAMILY].family, Fresh(k + 1), 0, cfg) == Write(next, cause, answer)
    requires next.id == FAMILY && 0 < next.absoluteExpiresAt
    ensures var e := Decide(p, Fresh(k + 1), 0, true);
            Enabled(s, e) && more == events + [e] && t == Next(s, e, cfg)
    ensures Staged(more, t, k + 1, cfg)
    ensures t.store == s.store[FAMILY := Stored(next, s.store[FAMILY].revision + 1)]
    ensures t.calls.Keys == s.calls.Keys && t.calls[p].family == FAMILY && t.calls[p].phase == Done(answer)
    ensures forall q :: q in s.calls && q != p ==> t.calls[q] == s.calls[q]
  {
    var e := Decide(p, Fresh(k + 1), 0, true);
    LeadsAppend(EMPTY, events, s, e, cfg);
    more, t := events + [e], Next(s, e, cfg);
  }

  /** A call that read an older record loses its race. */
  lemma LoseStep(events: seq<Event>, s: System, k: nat, p: CallId, seen: Stored, cfg: Config)
    returns (more: seq<Event>, t: System)
    requires Staged(events, s, k, cfg) && p in s.calls && s.calls[p].family == FAMILY
    requires s.calls[p].phase == ToDecide(Some(seen)) && seen.family.id == FAMILY
    requires seen.revision != s.store[FAMILY].revision
    requires PlanFor(s.calls[p].goal, seen.family, Fresh(k + 1), 0, cfg).Write?
    requires PlanFor(s.calls[p].goal, seen.family, Fresh(k + 1), 0, cfg).next.id == FAMILY
    ensures var e := Decide(p, Fresh(k + 1), 0, true);
            Enabled(s, e) && more == events + [e] && t == Next(s, e, cfg)
    ensures Staged(more, t, k + 1, cfg) && t.store == s.store && t.log == s.log
    ensures var cause := PlanFor(s.calls[p].goal, seen.family, Fresh(k + 1), 0, cfg).cause;
            t.calls == s.calls[p := AfterLoss(Noted(s.calls[p], cause), cfg)]
  {
    var e := Decide(p, Fresh(k + 1), 0, true);
    LeadsAppend(EMPTY, events, s, e, cfg);
    more, t := events + [e], Next(s, e, cfg);
  }

  /** A call that has nothing to write answers. */
  lemma StopStep(events: seq<Event>, s: System, k: nat, p: CallId, seen: Stored, answer: Outcome, cfg: Config)
    returns (more: seq<Event>, t: System)
    requires Staged(events, s, k, cfg) && p in s.calls && s.calls[p].phase == ToDecide(Some(seen))
    requires PlanFor(s.calls[p].goal, seen.family, Fresh(k + 1), 0, cfg) == Stop(answer)
    ensures var e := Decide(p, Fresh(k + 1), 0, true);
            Enabled(s, e) && more == events + [e] && t == Next(s, e, cfg)
    ensures Staged(more, t, k + 1, cfg) && t.store == s.store && t.log == s.log
    ensures t.calls == s.calls[p := s.calls[p].(phase := Done(answer))]
  {
    var e := Decide(p, Fresh(k + 1), 0, true);
    LeadsAppend(EMPTY, events, s, e, cfg);
    more, t := events + [e], Next(s, e, cfg);
  }

  // ----- Plans -----

  /** Presenting the live token plans a rotation. */
  lemma LivePlan(events: seq<Event>, s: System, k: nat, n: nat, minted: Hash, cfg: Config)
    returns (next: Family, token: IssuedToken)
    requires Staged(events, s, k, cfg) && LiveAt(s, n)
    ensures var f := s.store[FAMILY].family;
            && PlanFor(Rotating(f.current.value.hash), f, minted, 0, cfg)
               == Write(next, Rotation(minted, 0), Granted(token))
            && next.id == FAMILY && next.absoluteExpiresAt == f.absoluteExpiresAt
            && next.revokedAt.None? && next.current.Some? && 0 < next.current.value.expiresAt
  {
    ReachableInv(events, s, cfg);
    UsedHashesMatchHistory(s.log[FAMILY], FAMILY, cfg);
    DeadlineIsFixed(s.log[FAMILY], n - 1, FAMILY, cfg);
    var f := s.store[FAMILY].family;
    var plan := PlanFor(Rotating(f.current.value.hash), f, minted, 0, cfg);
    next, token := plan.next, plan.onSuccess.token;
  }

  /** Presenting the first token at a later version plans a revocation, as long as the index holds it. */
  lemma StalePlan(events: seq<Event>, s: System, k: nat, n: nat, minted: Hash, cfg: Config)
    requires Staged(events, s, k, cfg) && LiveAt(s, n) && 1 <= n - 1 <= cfg.maxChainLength
    ensures var f := s.store[FAMILY].family;
            PlanFor(Rotating(FIRST), f, minted, 0, cfg)
            == Write(Revoke(f, 0, ReuseDetected), Revocation(0, ReuseDetected), Refused(Reused))
  {
    ReachableInv(events, s, cfg);
    var log := s.log[FAMILY];
    IndexHoldsRecent(log, n - 1, FAMILY, cfg);
    LiveVersionShape(log, FAMILY, cfg);
    assert Hashes(log)[0] == log[0].cause.minted;
  }

  lemma FirstIsLive(events: seq<Event>, s: System, k: nat, cfg: Config)
    requires Staged(events, s, k, cfg) && LiveAt(s, 1)
    ensures s.store[FAMILY].family.current.value.hash == FIRST
  {
    ReachableInv(events, s, cfg);
  }

  // ----- Whole calls -----

  /** A client presents the live token and is granted the next one; no other call moves. */
  lemma ClientRotates(events: seq<Event>, s: System, k: nat, n: nat, cfg: Config)
    returns (more: seq<Event>, t: System)
    requires Staged(events, s, k, cfg) && LiveAt(s, n)
    ensures Staged(more, t, k + 2, cfg) && LiveAt(t, n + 1)
    ensures forall p :: p in s.calls ==> p in t.calls && t.calls[p] == s.calls[p]
  {
    var f := s.store[FAMILY].family;
    more, t := BeginStep(events, s, k, Rotating(f.current.value.hash), cfg);
    more, t := ReadStep(more, t, k + 1, k + 1, cfg);
    var next, token := LivePlan(more, t, k + 1, n, Fresh(k + 2), cfg);
    more, t := WriteStep(more, t, k + 1, k + 1, next, Rotation(Fresh(k + 2), 0), Granted(token), cfg);
  }

  /** What call `p` plans about the record stored, whatever it mints: a write, and whether that is a revocation. */
  ghost predicate Writes(s: System, p: CallId, revokes: bool, cfg: Config) {
    && p in s.calls && s.calls[p].family == FAMILY && s.calls[p].phase.ToRead? && FAMILY in s.store
    && forall minted ::
         var plan := PlanFor(s.calls[p].goal, s.store[FAMILY].family, minted, 0, cfg);
         plan.Write? && plan.next.id == FAMILY && plan.cause.Revocation? == revokes
  }

  /** The call after losing an attempt. */
  function Lost(c: Call, revokes: bool, seen: Stored, cfg: Config): Call {
    AfterLoss(c.(readCount := c.readCount + 1, phase := ToDecide(Some(seen)),
                 sawReuse := c.sawReuse || (c.goal.Rotating? && revokes)), cfg)
  }

  lemma LossIsLost(c: Call, cause: Cause, revokes: bool, seen: Stored, cfg: Config)
    requires cause.Revocation? == revokes
    ensures AfterLoss(Noted(AfterRead(c, Some(seen)), cause), cfg) == Lost(c, revokes, seen, cfg)
  {
  }

  /** Call `p` reads, a client rotates, and `p` loses its race to the client. */
  lemma LosesToClient(events: seq<Event>, s: System, k: nat, n: nat, p: CallId, revokes: bool, cfg: Config)
    returns (more: seq<Event>, t: System)
    requires Staged(events, s, k, cfg) && LiveAt(s, n) && Writes(s, p, revokes, cfg)
    ensures Staged(more, t, k + 3, cfg) && LiveAt(t, n + 1)
    ensures forall q :: q in s.calls ==> q in t.calls && (q != p ==> t.calls[q] == s.calls[q])
    ensures t.calls[p] == Lost(s.calls[p], revokes, s.store[FAMILY], cfg)
  {
    var seen := s.store[FAMILY];
    more, t := ReadStep(events, s, k, p, cfg);
    more, t := ClientRotates(more, t, k, n, cfg);
    var plan := PlanFor(s.calls[p].goal, seen.family, Fresh(k + 3), 0, cfg);
    assert t.calls[p] == AfterRead(s.calls[p], Some(seen)) && plan.Write? && plan.next.id == FAMILY;
    LossIsLost(s.calls[p], plan.cause, revokes, seen, cfg);
    more, t := LoseStep(more, t, k + 2, p, seen, cfg);
  }

  /** A rotation of the family's first token that has lost `attempt` races. */
  ghost predicate Stale(s: System, p: CallId, attempt: nat) {
    && p in s.calls && s.calls[p].family == FAMILY && s.calls[p].goal == Rotating(FIRST)
    && s.calls[p].attempt == attempt && s.calls[p].phase.ToRead?
  }

  /** A call presenting the first token has read `seen`, which it will want to revoke. */
  ghost predicate AboutToRevoke(s: System, p: CallId, seen: Stored, attempt: nat, cfg: Config) {
    && p in s.calls && s.calls[p].family == FAMILY && s.calls[p].goal == Rotating(FIRST)
    && s.calls[p].attempt == attempt && s.calls[p].phase == ToDecide(Some(seen)) && seen.family.id == FAMILY
    && forall minted :: PlanFor(Rotating(FIRST), seen.family, minted, 0, cfg)
                        == Write(Revoke(seen.family, 0, ReuseDetected), Revocation(0, ReuseDetected), Refused(Reused))
  }

  lemma StaleReads(events: seq<Event>, s: System, k: nat, n: nat, p: CallId, attempt: nat, cfg: Config)
    returns (more: seq<Event>, t: System)
    requires Staged(events, s, k, cfg) && LiveAt(s, n) && Stale(s, p, attempt) && 1 < n <= cfg.maxChainLength + 1
    ensures Staged(more, t, k, cfg) && t.store == s.store && AboutToRevoke(t, p, s.store[FAMILY], attempt, cfg)
    ensures t.calls == s.calls[p := t.calls[p]]
  {
    more, t := ReadStep(events, s, k, p, cfg);
    forall minted
      ensures PlanFor(Rotating(FIRST), s.store[FAMILY].family, minted, 0, cfg)
              == Write(Revoke(s.store[FAMILY].family, 0, ReuseDetected), Revocation(0, ReuseDetected), Refused(Reused))
    {
      StalePlan(events, s, k, n, minted, cfg);
    }
  }
}
