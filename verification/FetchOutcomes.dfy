/**
 What callers of `wrap` are given and what starts and settles a fetch, told from the events alone
 (packages/cache-kit/src/client.ts).
 */
module FetchOutcomes {
  import opened Options
  import opened SingleFlight

  // ----- One lookup -----

  /** The caller got `outcome` at once; nothing was fetched, joined or registered. */
  ghost predicate ReturnsAtOnce<V, E>(s: Client<V, E>, t: Client<V, E>, c: CallerId, outcome: Outcome<V, E>) {
    && t.fetches == s.fetches && t.inFlight == s.inFlight
    && c in s.callers && t.callers == s.callers[c := s.callers[c].(phase := Returned(outcome))]
  }

  /**
   What each answer of the cache lookup leads to: a hit is returned without a fetch, an error of any other kind is
   thrown, and a miss or a backend error joins the fetch registered for the key, or starts one and registers it.
   */
  lemma LookupLeadsTo<V(!new), E(!new)>(s: Client<V, E>, e: Event<V, E>)
    requires e.LookedUp? && Enabled(s, e)
    ensures var t, c, key := Next(s, e), e.caller, s.callers[e.caller].key;
            && (e.answer.Hit? ==> ReturnsAtOnce(s, t, c, Value(e.answer.value)))
            && (e.answer.OtherError? ==> ReturnsAtOnce(s, t, c, Failure(e.answer.error)))
            && (e.answer.Miss? || e.answer.BackendError? ==>
                  && key in t.inFlight && c in t.callers && t.callers[c].phase.Awaiting? && t.callers[c].key == key
                  && t.callers[c].joined == Some(t.inFlight[key])
                  && (if key in s.inFlight then t.fetches == s.fetches && t.inFlight == s.inFlight
                      else
                        && t.inFlight == s.inFlight[key := e.fetch]
                        && t.fetches == s.fetches[e.fetch := t.fetches[e.fetch]]
                        && t.fetches[e.fetch].key == key
                        && t.fetches[e.fetch].stage
                           == if e.threw.Some? then Settled(Failure(e.threw.value)) else Fetching))
  {
    var key := s.callers[e.caller].key;
    if key !in s.inFlight && (e.answer.Miss? || e.answer.BackendError?) {
      var t := Next(s, e);
      assert s.inFlight - {key} == s.inFlight;
      assert t.fetches == s.fetches[e.fetch := t.fetches[e.fetch]];
    }
  }

  // ----- What the events tell -----

  /** Why a caller that was given no fetch has returned: a hit, or an error that is not the backend's. */
  ghost predicate ReturnTold<V(!new), E(!new)>(past: seq<Event<V, E>>, c: CallerId, outcome: Outcome<V, E>) {
    exists i :: 0 <= i < |past| && past[i].LookedUp? && past[i].caller == c
      && match past[i].answer
         case Hit(v) => outcome == Value(v)
         case OtherError(error) => outcome == Failure(error)
         case _ => false
  }

  /** The fetcher resolved with `v`. */
  ghost predicate FetchTold<V(!new), E(!new)>(past: seq<Event<V, E>>, f: FetchId, v: V) {
    Fetched(f, Value(v)) in past
  }

  /**
   Why a fetch has settled so: its fetcher threw or rejected, or its value was stored, a backend error swallowed, or
   storing it failed with another error.
   */
  ghost predicate SettlementTold<V(!new), E(!new)>(past: seq<Event<V, E>>, f: FetchId, outcome: Outcome<V, E>) {
    match outcome
    case Value(v) => FetchTold(past, f, v) && Stored(f, None) in past
    case Failure(error) =>
      || (exists i :: 0 <= i < |past| && past[i].LookedUp? && past[i].fetch == f && past[i].threw == Some(error))
      || Fetched(f, Failure(error)) in past
      || Stored(f, Some(error)) in past
  }

  ghost predicate CallerTold<V(!new), E(!new)>(past: seq<Event<V, E>>, s: Client<V, E>, c: CallerId)
    requires c in s.callers
  {
    var caller := s.callers[c];
    && (caller.phase.Awaiting? ==> caller.joined.Some?)
    && (caller.phase.Returned? && caller.joined.None? ==> ReturnTold(past, c, caller.phase.outcome))
  }

  ghost predicate FetchIsTold<V(!new), E(!new)>(past: seq<Event<V, E>>, f: FetchId, fetch: Fetch<V, E>) {
    match fetch.stage
    case Fetching => true
    case Storing(v) => FetchTold(past, f, v)
    case Settled(outcome) => SettlementTold(past, f, outcome)
  }

  ghost predicate Told<V(!new), E(!new)>(past: seq<Event<V, E>>, s: Client<V, E>) {
    && (forall c | c in s.callers :: CallerTold(past, s, c))
    && (forall f | f in s.fetches :: FetchIsTold(past, f, s.fetches[f]))
  }

  /** What was told stays told. */
  lemma ToldLater<V(!new), E(!new)>(past: seq<Event<V, E>>, e: Event<V, E>, f: FetchId, fetch: Fetch<V, E>)
    requires FetchIsTold(past, f, fetch)
    ensures FetchIsTold(past + [e], f, fetch)
  {
    assert forall i :: 0 <= i < |past| ==> (past + [e])[i] == past[i];
  }

  lemma ReturnToldLater<V(!new), E(!new)>(past: seq<Event<V, E>>, e: Event<V, E>, c: CallerId, outcome: Outcome<V, E>)
    requires ReturnTold(past, c, outcome)
    ensures ReturnTold(past + [e], c, outcome)
  {
    assert forall i :: 0 <= i < |past| ==> (past + [e])[i] == past[i];
  }

  lemma FetchStepTold<V(!new), E(!new)>(past: seq<Event<V, E>>, s: Client<V, E>, e: Event<V, E>, f: FetchId)
    requires Told(past, s) && Enabled(s, e) && f in Next(s, e).fetches
    ensures FetchIsTold(past + [e], f, Next(s, e).fetches[f])
  {
    assert (past + [e])[|past|] == e && e in past + [e];
    if f in s.fetches {
      ToldLater(past, e, f, s.fetches[f]);
    }
  }

  lemma CallerStepTold<V(!new), E(!new)>(past: seq<Event<V, E>>, s: Client<V, E>, e: Event<V, E>, c: CallerId)
    requires Told(past, s) && Enabled(s, e) && c in Next(s, e).callers
    ensures CallerTold(past + [e], Next(s, e), c)
  {
    assert (past + [e])[|past|] == e;
    if c in s.callers && s.callers[c].phase.Returned? && s.callers[c].joined.None? {
      ReturnToldLater(past, e, c, s.callers[c].phase.outcome);
    }
  }

  lemma {:induction false} RunIsTold<V(!new), E(!new)>(
    past: seq<Event<V, E>>, s: Client<V, E>, events: seq<Event<V, E>>, t: Client<V, E>)
    requires Told(past, s) && Leads(s, events, t)
    ensures Told(past + events, t)
    decreases |events|
  {
    if events == [] {
      assert past + events == past;
    } else {
      var e, u := events[0], Next(s, events[0]);
      forall c | c in u.callers
        ensures CallerTold(past + [e], u, c)
      {
        CallerStepTold(past, s, e, c);
      }
      forall f | f in u.fetches
        ensures FetchIsTold(past + [e], f, u.fetches[f])
      {
        FetchStepTold(past, s, e, f);
      }
      RunIsTold(past + [e], u, events[1..], t);
      assert past + [e] + events[1..] == past + events;
    }
  }

  // ----- The theorems -----

  /** Over every run, a caller that returned without a fetch returned the hit it read, or the error it read. */
  lemma UnjoinedCallersReadIt<V(!new), E(!new)>(events: seq<Event<V, E>>, t: Client<V, E>, c: CallerId)
    requires Reachable(events, t) && c in t.callers && t.callers[c].phase.Returned? && t.callers[c].joined.None?
    ensures ReturnTold(events, c, t.callers[c].phase.outcome)
  {
    RunIsTold([], Client(map[], map[], map[]), events, t);
    assert [] + events == events;
    assert CallerTold(events, t, c);
  }

  /** Over every run, a fetch settles with what its fetcher and the store made of it. */
  lemma FetchesSettleAsTold<V(!new), E(!new)>(events: seq<Event<V, E>>, t: Client<V, E>, f: FetchId)
    requires Reachable(events, t) && f in t.fetches && t.fetches[f].stage.Settled?
    ensures SettlementTold(events, f, t.fetches[f].stage.outcome)
  {
    RunIsTold([], Client(map[], map[], map[]), events, t);
    assert [] + events == events;
    assert FetchIsTold(events, f, t.fetches[f]);
  }

  /** A hit stays returned: nothing that happens later changes what the caller got. */
  lemma {:induction false} ReturnsAreFinal<V(!new), E(!new)>(
    s: Client<V, E>, events: seq<Event<V, E>>, t: Client<V, E>, c: CallerId)
    requires Leads(s, events, t) && c in s.callers && s.callers[c].phase.Returned?
    ensures c in t.callers && t.callers[c] == s.callers[c]
    decreases |events|
  {
    if events != [] {
      ReturnsAreFinal(Next(s, events[0]), events[1..], t, c);
    }
  }

  /** Every fetch was started by a lookup that missed, or met a backend error, while none was registered for its key. */
  lemma {:induction false} FetchesNeedAMiss<V(!new), E(!new)>(
    s: Client<V, E>, events: seq<Event<V, E>>, t: Client<V, E>, f: FetchId)
    returns (i: nat, u: Client<V, E>)
    requires Leads(s, events, t) && f in t.fetches && f !in s.fetches
    ensures i < |events| && Leads(s, events[..i], u) && Enabled(u, events[i])
    ensures var e := events[i];
            && e.LookedUp? && e.fetch == f && (e.answer.Miss? || e.answer.BackendError?)
            && u.callers[e.caller].key !in u.inFlight && t.fetches[f].key == u.callers[e.caller].key
    decreases |events|
  {
    var e, v := events[0], Next(s, events[0]);
    if f in v.fetches {
      i, u := 0, s;
      KeysStay(v, events[1..], t, f);
    } else {
      var j;
      j, u := FetchesNeedAMiss(v, events[1..], t, f);
      i := j + 1;
      assert events[..i][0] == e && events[..i][1..] == events[1..][..j];
    }
  }

  lemma {:induction false} KeysStay<V(!new), E(!new)>(
    s: Client<V, E>, events: seq<Event<V, E>>, t: Client<V, E>, f: FetchId)
    requires Leads(s, events, t) && f in s.fetches
    ensures f in t.fetches && t.fetches[f].key == s.fetches[f].key
    decreases |events|
  {
    if events != [] {
      KeysStay(Next(s, events[0]), events[1..], t, f);
    }
  }

  /**
   Over every run nobody is stuck for want of a step: a lookup can end in any way, a fetch that is running can go on
   whatever its fetcher and the store answer, and a caller whose fetch has settled is given its outcome.
   */
  lemma NobodyIsStuck<V(!new), E(!new)>(events: seq<Event<V, E>>, t: Client<V, E>, c: CallerId)
    requires Reachable(events, t) && c in t.callers && !t.callers[c].phase.Returned?
    ensures t.callers[c].phase.Looking? ==>
              forall answer, f, threw :: f !in t.fetches ==> Enabled(t, LookedUp(c, answer, f, threw))
    ensures t.callers[c].phase.Awaiting? ==>
              && t.callers[c].joined.Some? && t.callers[c].joined.value in t.fetches
              && var f := t.callers[c].joined.value;
                 match t.fetches[f].stage
                 case Fetching => forall outcome :: Enabled(t, Fetched(f, outcome))
                 case Storing(_) => forall error :: Enabled(t, Stored(f, error))
                 case Settled(outcome) =>
                   && Enabled(t, Delivered(c)) && c in Next(t, Delivered(c)).callers
                   && Next(t, Delivered(c)).callers[c].phase == Returned(outcome)
  {
    RunKeeps(Client(map[], map[], map[]), events, t);
    assert CallerOk(t, t.callers[c]);
  }
}
