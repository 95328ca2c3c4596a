/**
 What the refresh-token service guarantees over every run: any number of calls,
 interleaved at their atomic steps in any order, with any clock readings, with
 families evicted or dropped and store calls failing at any moment.
 */
module RefreshTheorems {
  import opened Options
  import opened RefreshState
  import opened FamilyHistory
  import opened RefreshStore
  import opened RefreshRuns

  ghost predicate Reachable(events: seq<Event>, t: System, cfg: Config) {
    Leads(EMPTY, events, t, cfg)
  }

  lemma ReachableInv(events: seq<Event>, t: System, cfg: Config)
    requires Reachable(events, t, cfg)
    ensures Inv(t, cfg)
  {
    RunKeeps(EMPTY, events, t, cfg);
  }

  /** No token is ever exchanged twice, not even after its hash was trimmed from the index. */
  lemma SingleUse(events: seq<Event>, t: System, p: CallId, q: CallId, cfg: Config)
    requires Reachable(events, t, cfg) && p in t.calls && q in t.calls
    requires t.calls[p].phase.Done? && t.calls[p].phase.outcome.Granted?
    requires t.calls[q].phase.Done? && t.calls[q].phase.outcome.Granted?
    requires t.calls[p].family == t.calls[q].family && t.calls[p].goal == t.calls[q].goal
    ensures p == q
  {
    ReachableInv(events, t, cfg);
    var c, d := t.calls[p], t.calls[q];
    assert CallOk(t.log, c, cfg) && CallOk(t.log, d, cfg);
    TokenIsLiveOnce(t.log[c.family], c.wrote.value - 1, d.wrote.value - 1, c.family, cfg);
  }

  /** Per family at most one revoking version is ever committed, and nothing is committed after it. */
  lemma RevokedOnce(events: seq<Event>, t: System, id: FamilyId, i: nat, cfg: Config)
    requires Reachable(events, t, cfg) && id in t.log && i < |t.log[id]|
    requires t.log[id][i].cause.Revocation?
    ensures i == |t.log[id]| - 1
    ensures t.log[id][i].family.current.None?
    ensures t.log[id][i].family.revokedAt == Some(t.log[id][i].cause.now)
    ensures t.log[id][i].family.revokedReason == Some(t.log[id][i].cause.reason)
    ensures id in t.store ==> t.store[id].family == t.log[id][i].family
  {
    ReachableInv(events, t, cfg);
    RevocationIsLast(t.log[id], id, cfg);
    assert i > 0 && Follows(t.log[id][i - 1].family, t.log[id][i], cfg);
  }

  /** Once revoked, a family's record is frozen for the rest of the run. */
  lemma RevocationIsTerminal(before: seq<Event>, s: System, after: seq<Event>, t: System, id: FamilyId, cfg: Config)
    requires Reachable(before, s, cfg) && Leads(s, after, t, cfg)
    requires id in s.store && s.store[id].family.revokedAt.Some?
    ensures id in t.store ==> t.store[id] == s.store[id]
    ensures id in s.log && id in t.log && t.log[id] == s.log[id]
  {
    ReachableInv(before, s, cfg);
    RunKeeps(s, after, t, cfg);
    assert s.log[id] <= t.log[id];
    var n := |s.log[id]| - 1;
    assert t.log[id][n] == s.log[id][n];
    RevocationIsLast(t.log[id], id, cfg);
  }

  lemma StoredDeadline(s: System, id: FamilyId, cfg: Config)
    requires Inv(s, cfg) && id in s.store
    ensures id in s.log && s.log[id] != []
    ensures var f, first := s.store[id].family, s.log[id][0].family;
            && f.absoluteExpiresAt == first.absoluteExpiresAt && f.subject == first.subject
            && (f.current.Some? ==> f.current.value.expiresAt <= f.absoluteExpiresAt)
  {
    DeadlineIsFixed(s.log[id], |s.log[id]| - 1, id, cfg);
  }

  /** No write moves a family's deadline, changes its subject, or lets a token outlive the deadline. */
  lemma DeadlineNeverMoves(before: seq<Event>, s: System, after: seq<Event>, t: System, id: FamilyId, cfg: Config)
    requires Reachable(before, s, cfg) && Leads(s, after, t, cfg) && id in s.store && id in t.store
    ensures t.store[id].family.absoluteExpiresAt == s.store[id].family.absoluteExpiresAt
    ensures t.store[id].family.subject == s.store[id].family.subject
    ensures t.store[id].family.current.Some? ==>
              t.store[id].family.current.value.expiresAt <= t.store[id].family.absoluteExpiresAt
  {
    ReachableInv(before, s, cfg);
    RunKeeps(s, after, t, cfg);
    StoredDeadline(s, id, cfg);
    StoredDeadline(t, id, cfg);
    assert s.log[id] <= t.log[id] && t.log[id][0] == s.log[id][0];
  }

  /** The stored index of used hashes is the newest stretch of the family's full history. */
  lemma StoredIndexMatchesHistory(events: seq<Event>, t: System, id: FamilyId, cfg: Config)
    requires Reachable(events, t, cfg) && id in t.store
    ensures id in t.log
    ensures var f, h := t.store[id].family, Hashes(t.log[id]);
            if f.revokedAt.None? then
              h != [] && f.current.Some? && f.current.value.hash == h[|h| - 1]
              && f.usedHashes == Newest(h[..|h| - 1], cfg.maxChainLength)
            else
              h != [] && f.current.None?
              && f.usedHashes == Newest(h[..|h| - 1], cfg.maxChainLength) + [h[|h| - 1]]
    ensures forall i, j :: 0 <= i < j < |Hashes(t.log[id])| ==> Hashes(t.log[id])[i] != Hashes(t.log[id])[j]
  {
    ReachableInv(events, t, cfg);
    UsedHashesMatchHistory(t.log[id], id, cfg);
    HashesAreDistinct(t.log[id], id, cfg);
  }

  /** A call that concluded reuse on any attempt is never granted and never ends in the contention error. */
  lemma ReuseVerdictSurvives(events: seq<Event>, t: System, p: CallId, cfg: Config)
    requires Reachable(events, t, cfg) && p in t.calls && t.calls[p].phase.Done? && t.calls[p].sawReuse
    ensures t.calls[p].phase.outcome.Refused? || t.calls[p].phase.outcome.StoreFailed?
    ensures t.calls[p].goal.Persisting? ==> t.calls[p].phase.outcome == Refused(Reused)
  {
    ReachableInv(events, t, cfg);
    assert CallOk(t.log, t.calls[p], cfg);
  }

  /** No call reads more than twice its retry budget, and only one that saw reuse goes past the budget. */
  lemma ReadsAreBounded(events: seq<Event>, t: System, p: CallId, cfg: Config)
    requires Reachable(events, t, cfg) && p in t.calls
    ensures t.calls[p].readCount <= 2 * cfg.maxRetries
    ensures t.calls[p].readCount > cfg.maxRetries ==> t.calls[p].sawReuse
  {
    ReachableInv(events, t, cfg);
    assert CallOk(t.log, t.calls[p], cfg);
  }

  /**
   A compare-and-set is lost only to another write: between the read in `s` and
   the attempt in `t` some other call committed a version, or the family is gone.
   */
  lemma LostRaceHasWinner(
    before: seq<Event>, s: System, storeNow: int, after: seq<Event>, t: System, e: Event, p: CallId, cfg: Config)
    requires Reachable(before, s, cfg) && Enabled(s, Read(p, storeNow))
    requires Leads(Next(s, Read(p, storeNow), cfg), after, t, cfg)
    requires e.Decide? && e.call == p && Enabled(t, e)
    requires t.calls[p].phase == Next(s, Read(p, storeNow), cfg).calls[p].phase && t.calls[p].phase.seen.Some?
    requires PlanFor(t.calls[p].goal, t.calls[p].phase.seen.value.family, e.minted, e.now, cfg).Write?
    ensures var id := s.calls[p].family;
            && id in s.log && id in t.log && s.log[id] <= t.log[id]
            && (Resolve(t.calls[p], t.store, e.minted, e.now, e.heard, cfg).committed.None? <==>
                id !in t.store || |s.log[id]| < |t.log[id]|)
  {
    ReachableInv(before, s, cfg);
    var u := Next(s, Read(p, storeNow), cfg);
    StepKeeps(s, Read(p, storeNow), cfg);
    RunKeeps(u, after, t, cfg);
    CallsStay(u, after, t, p, cfg);
    LostIffMoved(s, t, e, p, cfg);
  }

  /** What a write needs in order to land. */
  lemma CommitsIff(c: Call, store: Families, minted: Hash, now: int, heard: bool, cfg: Config)
    requires c.phase.ToDecide? && c.phase.seen.Some?
    requires PlanFor(c.goal, c.phase.seen.value.family, minted, now, cfg).Write?
    ensures var next := PlanFor(c.goal, c.phase.seen.value.family, minted, now, cfg).next;
            Resolve(c, store, minted, now, heard, cfg).committed.Some? <==>
            next.id in store && store[next.id].revision == c.phase.seen.value.revision
  {
  }

  lemma LostIffMoved(s: System, t: System, e: Event, p: CallId, cfg: Config)
    requires Inv(s, cfg) && Inv(t, cfg) && Grows(s.log, t.log)
    requires p in s.calls && e.Decide? && e.call == p && Enabled(t, e) && t.calls[p].family == s.calls[p].family
    requires t.calls[p].phase.seen.Some? && s.calls[p].family in s.store
    requires t.calls[p].phase.seen.value == s.store[s.calls[p].family]
    requires PlanFor(t.calls[p].goal, t.calls[p].phase.seen.value.family, e.minted, e.now, cfg).Write?
    ensures var id := s.calls[p].family;
            && id in s.log && id in t.log && s.log[id] <= t.log[id]
            && (Resolve(t.calls[p], t.store, e.minted, e.now, e.heard, cfg).committed.None? <==>
                id !in t.store || |s.log[id]| < |t.log[id]|)
  {
    assert CallOk(t.log, t.calls[p], cfg);
    PlanIsSound(t.calls[p].goal, t.calls[p].phase.seen.value.family, e.minted, e.now, cfg);
    CommitsIff(t.calls[p], t.store, e.minted, e.now, e.heard, cfg);
  }

  /**
   `reused` is reported from within the retry budget by at most one call per
   family; a second report can only come from a call that ran out of retries.
   */
  lemma SecondReportIsExhausted(events: seq<Event>, t: System, p: CallId, q: CallId, cfg: Config)
    requires Reachable(events, t, cfg) && p in t.calls && q in t.calls && p != q
    requires t.calls[p].family == t.calls[q].family
    requires t.calls[p].phase == Done(Refused(Reused)) && t.calls[q].phase == Done(Refused(Reused))
    ensures t.calls[p].goal.Persisting? || t.calls[q].goal.Persisting?
  {
    ReachableInv(events, t, cfg);
    var c, d := t.calls[p], t.calls[q];
    assert CallOk(t.log, c, cfg) && CallOk(t.log, d, cfg);
    if c.goal.Rotating? && d.goal.Rotating? {
      RevocationIsLast(t.log[c.family], c.family, cfg);
    }
  }
}
