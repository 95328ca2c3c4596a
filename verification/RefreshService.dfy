/**
 The retry loops of the refresh-token service as they are written, and the proof
 that each runs the call it stands for in the concurrent model, step by step.

 While a call waits for the store, other calls run: `turns` says what the store
 holds, what the clocks read and what the random source yields when it resumes.
 */
module RefreshService {
  import opened Options
  import opened RefreshState
  import opened FamilyHistory
  import opened RefreshStore
  import opened RefreshRuns

  /** What becomes of the store call: its answer comes back, it rejects although it took effect, or it just rejects. */
  datatype Answer = Heard | Lost | Failed

  datatype Turn = Turn(store: Families, storeNow: int, now: int, minted: Hash, answer: Answer)

  /** One atomic step of a call: the call afterwards, and the store it leaves behind. */
  function TakeTurn(c: Call, turn: Turn, cfg: Config): (Call, Families)
    requires !c.phase.Done?
  {
    if c.phase.ToRead? then
      if turn.answer.Heard? then
        var kept := Evicted(turn.store, c.family, turn.storeNow);
        (AfterRead(c, Lookup(kept, c.family)), kept)
      else (AfterThrow(c), turn.store)
    else if turn.answer.Failed? && WantsToWrite(c, turn, cfg) then (AfterThrow(c), turn.store)
    else
      var r := Resolve(c, turn.store, turn.minted, turn.now, turn.answer.Heard?, cfg);
      (r.call, r.store)
  }

  /** Whether the stretch after a read gets as far as a compare-and-set. */
  predicate WantsToWrite(c: Call, turn: Turn, cfg: Config)
    requires c.phase.ToDecide?
  {
    c.phase.seen.Some? && PlanFor(c.goal, c.phase.seen.value.family, turn.minted, turn.now, cfg).Write?
  }

  /** Resume a call at each of `turns` until it is done. */
  function Drive(c: Call, turns: seq<Turn>, cfg: Config): (r: (Call, seq<Families>))
    decreases |turns|
  {
    if c.phase.Done? || turns == [] then (c, [])
    else
      var (next, left) := TakeTurn(c, turns[0], cfg);
      var (last, rest) := Drive(next, turns[1..], cfg);
      (last, [left] + rest)
  }

  /** The event of the concurrent model that a turn stands for. */
  function EventOf(p: CallId, c: Call, turn: Turn, cfg: Config): Event
    requires !c.phase.Done?
  {
    if c.phase.ToRead? then if turn.answer.Heard? then Read(p, turn.storeNow) else Throw(p)
    else if turn.answer.Failed? && WantsToWrite(c, turn, cfg) then Throw(p)
    else Decide(p, turn.minted, turn.now, turn.answer.Heard?)
  }

  /** A turn of the loop is a step of the concurrent model, store failures included. */
  lemma TurnIsEvent(s: System, p: CallId, turn: Turn, cfg: Config)
    requires p in s.calls && !s.calls[p].phase.Done? && s.store == turn.store && turn.minted !in s.minted
    ensures var e := EventOf(p, s.calls[p], turn, cfg);
            && Enabled(s, e)
            && Next(s, e, cfg).calls == s.calls[p := TakeTurn(s.calls[p], turn, cfg).0]
            && Next(s, e, cfg).store == TakeTurn(s.calls[p], turn, cfg).1
  {
  }

  /** `start` is at `c` after `i` turns, having left the stores `left`. */
  ghost predicate Reaches(start: Call, turns: seq<Turn>, i: nat, c: Call, left: seq<Families>, cfg: Config) {
    && i <= |turns|
    && Drive(start, turns, cfg).0 == Drive(c, turns[i..], cfg).0
    && Drive(start, turns, cfg).1 == left + Drive(c, turns[i..], cfg).1
  }

  /** The call after a whole attempt, and the stores it leaves: a read and, if that came back, the stretch after it. */
  function AfterAttempt(c: Call, read: Turn, resumed: Turn, cfg: Config): (r: (Call, seq<Families>))
    requires c.phase.ToRead?
    ensures 1 <= |r.1| <= 2 && (|r.1| == 1 ==> r.0.phase.Done?)
  {
    var (first, left) := TakeTurn(c, read, cfg);
    if first.phase.Done? then (first, [left])
    else
      var (second, last) := TakeTurn(first, resumed, cfg);
      (second, [left, last])
  }

  lemma ReachesStart(start: Call, turns: seq<Turn>, cfg: Config)
    ensures Reaches(start, turns, 0, start, [], cfg)
  {
  }

  lemma ReachesTurn(start: Call, turns: seq<Turn>, i: nat, c: Call, left: seq<Families>, cfg: Config)
    requires Reaches(start, turns, i, c, left, cfg) && !c.phase.Done? && i < |turns|
    ensures var (next, store) := TakeTurn(c, turns[i], cfg);
            Reaches(start, turns, i + 1, next, left + [store], cfg)
  {
    var (next, store) := TakeTurn(c, turns[i], cfg);
    assert turns[i..][1..] == turns[i + 1..];
    var rest := Drive(next, turns[i + 1..], cfg);
    assert left + ([store] + rest.1) == left + [store] + rest.1;
  }

  lemma ReachesAttempt(start: Call, turns: seq<Turn>, i: nat, c: Call, left: seq<Families>, cfg: Config)
    requires Reaches(start, turns, i, c, left, cfg) && c.phase.ToRead? && i + 2 <= |turns|
    ensures var (next, stores) := AfterAttempt(c, turns[i], turns[i + 1], cfg);
            Reaches(start, turns, i + |stores|, next, left + stores, cfg)
  {
    ReachesTurn(start, turns, i, c, left, cfg);
    var (first, store) := TakeTurn(c, turns[i], cfg);
    if !first.phase.Done? {
      ReachesTurn(start, turns, i + 1, first, left + [store], cfg);
      var last := TakeTurn(first, turns[i + 1], cfg).1;
      assert left + [store] + [last] == left + [store, last];
    }
  }

  /** A call that is done takes no further turns. */
  lemma ReachesEnd(start: Call, turns: seq<Turn>, i: nat, c: Call, left: seq<Families>, cfg: Config)
    requires Reaches(start, turns, i, c, left, cfg) && c.phase.Done?
    ensures Drive(start, turns, cfg) == (c, left)
  {
    assert left + [] == left;
  }

  /** Where the loop in `Rotate` stands after `attempt` lost races. */
  ghost predicate RotatingAt(c: Call, id: FamilyId, presented: Hash, attempt: nat, sawReuse: bool, cfg: Config) {
    if attempt < cfg.maxRetries then c == Call(id, Rotating(presented), attempt, sawReuse, ToRead, attempt, None)
    else
      && c.family == id && c.sawReuse == sawReuse
      && if sawReuse then c.goal == Persisting(presented) && c.attempt == 0 && c.phase.ToRead?
         else c.phase == Done(Contention)
  }

  lemma RotationLost(c: Call, next: Call, id: FamilyId, presented: Hash, attempt: nat, sawReuse: bool, reuse: bool,
                     cfg: Config)
    requires attempt < cfg.maxRetries && RotatingAt(c, id, presented, attempt, sawReuse, cfg)
    requires next == AfterLoss(c.(sawReuse := sawReuse || reuse, readCount := c.readCount + 1), cfg)
    ensures RotatingAt(next, id, presented, attempt + 1, sawReuse || reuse, cfg)
  {
  }

  class RefreshTokenService {
    const store: MemoryRefreshTokenStore
    const cfg: Config

    constructor (store: MemoryRefreshTokenStore, cfg: Config)
      ensures this.store == store && this.cfg == cfg
    {
      this.store := store;
      this.cfg := cfg;
    }

    /** `None` where the original throws: the subject is empty, the id is taken, or the store call rejects. */
    method Issue(subject: string, id: FamilyId, minted: Hash, now: int, storeNow: int, answer: Answer)
      returns (issued: Option<IssuedToken>)
      modifies store
      ensures subject == "" || answer.Failed? ==> issued.None? && store.families == old(store.families)
      ensures subject != "" && !answer.Failed? ==>
                var f := NewFamily(id, subject, minted, now, cfg);
                && store.families == Created(old(store.families), f, storeNow).0
                && (issued.Some? <==> answer.Heard? && Created(old(store.families), f, storeNow).1)
                && (issued.Some? ==>
                      issued.value == IssuedToken(minted, id, subject, f.current.value.expiresAt, f.absoluteExpiresAt))
    {
      if subject == "" || answer.Failed? {
        return None;
      }
      var deadline := now + cfg.absoluteTtlMs;
      var expiresAt := Min(now + cfg.ttlMs, deadline);
      var created := store.Create(
        Family(id, subject, now, deadline, Some(FamilyToken(minted, now, expiresAt)), [], None, None), storeNow);
      if answer.Lost? || !created {
        return None;
      }
      issued := Some(IssuedToken(minted, id, subject, expiresAt, deadline));
    }

    /** `await store.read`: the inner `None` is a missing family, the outer one a rejection. */
    method AwaitRead(id: FamilyId, turn: Turn) returns (stored: Option<Option<Stored>>)
      modifies store
      ensures if turn.answer.Heard? then
                store.families == Evicted(turn.store, id, turn.storeNow) && stored == Some(Lookup(store.families, id))
              else store.families == turn.store && stored == None
    {
      store.families := turn.store;
      if !turn.answer.Heard? {
        return None;
      }
      var entry := store.Read(id, turn.storeNow);
      return Some(entry);
    }

    /** `await store.compareAndSet`: `None` is a rejection, whether or not the write landed. */
    method AwaitSwap(family: Family, revision: nat, answer: Answer) returns (written: Option<bool>)
      modifies store
      ensures store.families == if answer.Failed? then old(store.families)
                                else Swapped(old(store.families), family, revision).0
      ensures written == if answer.Heard? then Some(Swapped(old(store.families), family, revision).1) else None
    {
      if answer.Failed? {
        return None;
      }
      var swapped := store.CompareAndSet(family, revision);
      return if answer.Lost? then None else Some(swapped);
    }

    /** One turn of the loop in `Rotate`; `None` means the race was lost. A rejected store call is thrown on. */
    method TryRotate(id: FamilyId, presented: Hash, read: Turn, resumed: Turn, ghost c: Call)
      returns (answer: Option<Outcome>, sawReuse: bool, ghost left: seq<Families>)
      requires c.family == id && c.goal == Rotating(presented) && c.phase.ToRead?
      modifies store
      ensures var r := AfterAttempt(c, read, resumed, cfg);
              && left == r.1
              && (answer.Some? ==> r.0.phase == Done(answer.value))
              && (answer.None? ==>
                    && |r.1| == 2
                    && r.0 == AfterLoss(c.(sawReuse := c.sawReuse || sawReuse, readCount := c.readCount + 1), cfg))
    {
      sawReuse := false;
      var stored := AwaitRead(id, read);
      left := [store.families];
      if stored.None? {
        return Some(StoreFailed), false, left;
      }
      store.families := resumed.store;
      if stored.value.None? {
        return Some(Refused(UnknownFamily)), false, left + [store.families];
      }
      var seen := stored.value.value;
      var decision := DecideRotation(seen.family, presented, resumed.minted, resumed.now, cfg);
      if decision.Rejected? {
        return Some(Refused(decision.reason)), false, left + [store.families];
      }
      if decision.Reuse? {
        sawReuse := true;
      }
      var written := AwaitSwap(decision.family, seen.revision, resumed.answer);
      left := left + [store.families];
      if written.None? {
        return Some(StoreFailed), sawReuse, left;
      }
      if !written.value {
        return None, sawReuse, left;
      }
      if decision.Reuse? {
        return Some(Refused(Reused)), sawReuse, left;
      }
      if decision.family.current.None? {
        return Some(Refused(UnknownToken)), sawReuse, left;
      }
      var current := decision.family.current.value;
      answer := Some(Granted(IssuedToken(resumed.minted, decision.family.id, decision.family.subject,
                                         current.expiresAt, decision.family.absoluteExpiresAt)));
    }

    /** The loop in `Rotate`; `None` means that every race was lost. */
    method RotateLoop(id: FamilyId, presented: Hash, turns: seq<Turn>)
      returns (answer: Option<Outcome>, sawReuse: bool, ghost left: seq<Families>, ghost c: Call)
      requires 2 * cfg.maxRetries <= |turns|
      modifies store
      ensures answer.Some? ==>
                c.phase == Done(answer.value) && Drive(Start(id, Rotating(presented)), turns, cfg) == (c, left)
      ensures answer.None? ==>
                && RotatingAt(c, id, presented, cfg.maxRetries, sawReuse, cfg)
                && Reaches(Start(id, Rotating(presented)), turns, 2 * cfg.maxRetries, c, left, cfg)
    {
      ghost var start := Start(id, Rotating(presented));
      left := [];
      c := start;
      ReachesStart(start, turns, cfg);
      sawReuse := false;
      var attempt := 0;
      while attempt < cfg.maxRetries
        invariant 0 <= attempt <= cfg.maxRetries
        invariant RotatingAt(c, id, presented, attempt, sawReuse, cfg)
        invariant Reaches(start, turns, 2 * attempt, c, left, cfg)
      {
        var at := 2 * attempt;
        ReachesAttempt(start, turns, at, c, left, cfg);
        var reuse;
        ghost var step: seq<Families>;
        answer, reuse, step := TryRotate(id, presented, turns[at], turns[at + 1], c);
        ghost var next := AfterAttempt(c, turns[at], turns[at + 1], cfg).0;
        left := left + step;
        if answer.Some? {
          ReachesEnd(start, turns, at + |step|, next, left, cfg);
          c := next;
          return;
        }
        RotationLost(c, next, id, presented, attempt, sawReuse, reuse, cfg);
        sawReuse := sawReuse || reuse;
        c := next;
        attempt := attempt + 1;
      }
      answer := None;
    }

    /** Exchange a token; `None` is a string that does not parse as one. */
    method Rotate(token: Option<(FamilyId, Hash)>, turns: seq<Turn>)
      returns (outcome: Outcome, ghost left: seq<Families>)
      requires 4 * cfg.maxRetries <= |turns|
      modifies store
      ensures token.None? ==> outcome == Refused(Malformed) && left == [] && store.families == old(store.families)
      ensures token.Some? ==>
                var done := Drive(Start(token.value.0, Rotating(token.value.1)), turns, cfg);
                done.0.phase == Done(outcome) && left == done.1
    {
      left := [];
      if token.None? {
        return Refused(Malformed), [];
      }
      var (id, presented) := token.value;
      ghost var c: Call;
      var answer, sawReuse;
      answer, sawReuse, left, c := RotateLoop(id, presented, turns);
      if answer.Some? {
        return answer.value, left;
      }
      if sawReuse {
        // Whatever becomes of this revocation, even its store calls rejecting, the answer stands.
        ghost var rest: seq<Families>;
        var recorded;
        recorded, rest := RevokeById(id, ReuseDetected, None, turns[2 * cfg.maxRetries..], c);
        left := left + rest;
        return Refused(Reused), left;
      }
      ReachesEnd(Start(id, Rotating(presented)), turns, 2 * cfg.maxRetries, c, left, cfg);
      outcome := Contention;
    }

    /** Revoke by token: the caller must hold a token the family issued. Other outcomes than `Finished` are thrown. */
    method Revoke(token: Option<(FamilyId, Hash)>, turns: seq<Turn>)
      returns (outcome: Outcome, ghost left: seq<Families>)
      requires 2 * cfg.maxRetries <= |turns|
      modifies store
      ensures outcome.Finished? || outcome.Contention? || outcome.StoreFailed?
      ensures token.None? ==> outcome == Finished && store.families == old(store.families)
      ensures token.Some? ==>
                var done := Drive(Start(token.value.0, Revoking(Requested, Some(token.value.1))), turns, cfg);
                done.0.phase == Done(outcome) && left == done.1
    {
      if token.None? {
        return Finished, [];
      }
      var (id, presented) := token.value;
      outcome, left :=
        RevokeById(id, Requested, Some(presented), turns, Start(id, Revoking(Requested, Some(presented))));
    }

    method RevokeFamily(id: FamilyId, reason: RevocationReason, turns: seq<Turn>)
      returns (outcome: Outcome, ghost left: seq<Families>)
      requires 2 * cfg.maxRetries <= |turns|
      modifies store
      ensures outcome.Finished? || outcome.Contention? || outcome.StoreFailed?
      ensures var done := Drive(Start(id, Revoking(reason, None)), turns, cfg);
              done.0.phase == Done(outcome) && left == done.1
    {
      outcome, left := RevokeById(id, reason, None, turns, Start(id, Revoking(reason, None)));
    }

    /** What the caller of a call with this goal gets to see of how `RevokeById` ended. */
    static function Seen(goal: Goal, outcome: Outcome): Outcome {
      if goal.Persisting? then Refused(Reused) else outcome
    }

    /** What a revoking call plans, whichever of the two goals it has. */
    static lemma RevocationPlan(goal: Goal, f: Family, reason: RevocationReason, proof: Option<Hash>, minted: Hash,
                                now: int, cfg: Config)
      requires goal == Revoking(reason, proof) || (goal.Persisting? && reason == ReuseDetected && proof.None?)
      ensures PlanFor(goal, f, minted, now, cfg)
              == if f.revokedAt.Some? || (proof.Some? && !FamilyIssued(f, proof.value)) then Stop(Seen(goal, Finished))
                 else Write(RefreshState.Revoke(f, now, reason), Revocation(now, reason), Seen(goal, Finished))
    {
    }

    /** One turn of the loop in `RevokeById`; `None` means the race was lost. A rejected store call is thrown on. */
    method TryRevoke(
      id: FamilyId, reason: RevocationReason, proof: Option<Hash>, read: Turn, resumed: Turn, ghost c: Call)
      returns (outcome: Option<Outcome>, ghost left: seq<Families>)
      requires c.family == id && c.phase.ToRead?
      requires c.goal == Revoking(reason, proof) || (c.goal.Persisting? && reason == ReuseDetected && proof.None?)
      modifies store
      ensures outcome.Some? ==> outcome.value.Finished? || outcome.value.StoreFailed?
      ensures var r := AfterAttempt(c, read, resumed, cfg);
              && left == r.1
              && (outcome.Some? ==> r.0.phase == Done(Seen(c.goal, outcome.value)))
              && (outcome.None? ==> |r.1| == 2 && r.0 == AfterLoss(c.(readCount := c.readCount + 1), cfg))
    {
      var stored := AwaitRead(id, read);
      left := [store.families];
      if stored.None? {
        return Some(StoreFailed), left;
      }
      store.families := resumed.store;
      if stored.value.None? {
        return Some(Finished), left + [store.families];
      }
      var seen := stored.value.value;
      RevocationPlan(c.goal, seen.family, reason, proof, resumed.minted, resumed.now, cfg);
      if seen.family.revokedAt.Some? {
        return Some(Finished), left + [store.families];
      }
      if proof.Some? && !FamilyIssued(seen.family, proof.value) {
        return Some(Finished), left + [store.families];
      }
      var next := RefreshState.Revoke(seen.family, resumed.now, reason);
      var written := AwaitSwap(next, seen.revision, resumed.answer);
      left := left + [store.families];
      if written.None? {
        return Some(StoreFailed), left;
      }
      outcome := if written.value then Some(Finished) else None;
    }

    method RevokeById(id: FamilyId, reason: RevocationReason, proof: Option<Hash>, turns: seq<Turn>, ghost start: Call)
      returns (outcome: Outcome, ghost left: seq<Families>)
      requires 2 * cfg.maxRetries <= |turns|
      requires start.family == id && start.attempt == 0 && start.phase.ToRead?
      requires start.goal == Revoking(reason, proof)
               || (start.goal.Persisting? && reason == ReuseDetected && proof.None?)
      modifies store
      ensures outcome.Finished? || outcome.Contention? || outcome.StoreFailed?
      ensures var done := Drive(start, turns, cfg);
              left == done.1 && done.0.phase == Done(Seen(start.goal, outcome))
    {
      left := [];
      ghost var c := start;
      ReachesStart(start, turns, cfg);
      var attempt := 0;
      while attempt < cfg.maxRetries
        invariant 0 <= attempt <= cfg.maxRetries
        invariant attempt < cfg.maxRetries ==>
                    c == start.(attempt := attempt, readCount := start.readCount + attempt)
        invariant attempt == cfg.maxRetries ==> c.phase == Done(Seen(start.goal, Contention))
        invariant Reaches(start, turns, 2 * attempt, c, left, cfg)
      {
        var at := 2 * attempt;
        ReachesAttempt(start, turns, at, c, left, cfg);
        ghost var step: seq<Families>;
        var ended;
        ended, step := TryRevoke(id, reason, proof, turns[at], turns[at + 1], c);
        c := AfterAttempt(c, turns[at], turns[at + 1], cfg).0;
        left := left + step;
        if ended.Some? {
          ReachesEnd(start, turns, at + |step|, c, left, cfg);
          return ended.value, left;
        }
        attempt := attempt + 1;
      }
      ReachesEnd(start, turns, 2 * cfg.maxRetries, c, left, cfg);
      outcome := Contention;
    }
  }
}
