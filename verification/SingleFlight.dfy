/**
 Stampede protection: `wrap` of packages/cache-kit/src/client.ts. The atomic unit
 is the stretch between two awaits; lookups, fetches and stores settle in any
 order, and any number of callers may be anywhere in between.
 */
module SingleFlight {
  import opened Options

  type Key = string
  type CallerId = nat
  type FetchId = nat

  datatype Outcome<V, E> = Value(value: V) | Failure(error: E)

  /** How a backend call settles; only a backend error is swallowed. */
  datatype Lookup<V, E> = Hit(value: V) | Miss | BackendError | OtherError(error: E)

  datatype Stage<V, E> = Fetching | Storing(value: V) | Settled(outcome: Outcome<V, E>)

  /** `threw` marks a fetcher that threw instead of returning a promise. */
  datatype Fetch<V, E> = Fetch(key: Key, stage: Stage<V, E>, threw: bool)

  datatype Phase<V, E> = Looking | Awaiting | Returned(outcome: Outcome<V, E>)

  /** `joined` is the fetch whose promise this caller was given. */
  datatype Caller<V, E> = Caller(key: Key, phase: Phase<V, E>, joined: Option<FetchId>)

  datatype Client<V, E> = Client(
    inFlight: map<Key, FetchId>,
    fetches: map<FetchId, Fetch<V, E>>,
    callers: map<CallerId, Caller<V, E>>)

  datatype Event<V, E> =
    | Begin(caller: CallerId, key: Key)
    /** The cache lookup settled. If a fetch is started it is `fetch`, and `threw` is what its fetcher threw. */
    | LookedUp(caller: CallerId, answer: Lookup<V, E>, fetch: FetchId, threw: Option<E>)
    | Fetched(fetch: FetchId, outcome: Outcome<V, E>)
    /** Storing the fetched value settled: well, with a swallowed backend error, or with another error. */
    | Stored(fetch: FetchId, error: Option<E>)
    | Delivered(caller: CallerId)

  predicate Running<V, E>(f: Fetch<V, E>) {
    !f.stage.Settled?
  }

  predicate Enabled<V(!new), E(!new)>(s: Client<V, E>, e: Event<V, E>) {
    match e
    case Begin(c, _) => c !in s.callers
    case LookedUp(c, _, f, _) => c in s.callers && s.callers[c].phase.Looking? && f !in s.fetches
    case Fetched(f, _) => f in s.fetches && s.fetches[f].stage.Fetching?
    case Stored(f, _) => f in s.fetches && s.fetches[f].stage.Storing?
    case Delivered(c) =>
      && c in s.callers && s.callers[c].phase.Awaiting? && s.callers[c].joined.Some?
      && s.callers[c].joined.value in s.fetches && !Running(s.fetches[s.callers[c].joined.value])
  }

  /** The `finally`: the fetch settles and takes its key out of `inFlight`. */
  function Finish<V, E>(s: Client<V, E>, f: FetchId, outcome: Outcome<V, E>): Client<V, E>
    requires f in s.fetches
  {
    s.(inFlight := s.inFlight - {s.fetches[f].key}, fetches := s.fetches[f := s.fetches[f].(stage := Settled(outcome))])
  }

  function Join<V, E>(s: Client<V, E>, c: CallerId, f: FetchId): Client<V, E>
    requires c in s.callers
  {
    s.(callers := s.callers[c := s.callers[c].(phase := Awaiting, joined := Some(f))])
  }

  function Return<V, E>(s: Client<V, E>, c: CallerId, outcome: Outcome<V, E>): Client<V, E>
    requires c in s.callers
  {
    s.(callers := s.callers[c := s.callers[c].(phase := Returned(outcome))])
  }

  /**
   The uninterrupted stretch from the lookup's answer to registering the promise.
   A fetcher that throws runs the `finally` before the promise is registered.
   */
  function Continue<V, E>(
    s: Client<V, E>, c: CallerId, answer: Lookup<V, E>, f: FetchId, threw: Option<E>): Client<V, E>
    requires c in s.callers
  {
    var key := s.callers[c].key;
    match answer
    case Hit(v) => Return(s, c, Value(v))
    case OtherError(e) => Return(s, c, Failure(e))
    case _ =>
      if key in s.inFlight then Join(s, c, s.inFlight[key])
      else
        var started := s.(fetches := s.fetches[f := Fetch(key, Fetching, threw.Some?)]);
        var ran := if threw.Some? then Finish(started, f, Failure(threw.value)) else started;
        Join(ran.(inFlight := ran.inFlight[key := f]), c, f)
  }

  function Next<V(!new), E(!new)>(s: Client<V, E>, e: Event<V, E>): Client<V, E>
    requires Enabled(s, e)
  {
    match e
    case Begin(c, key) => s.(callers := s.callers[c := Caller(key, Looking, None)])
    case LookedUp(c, answer, f, threw) => Continue(s, c, answer, f, threw)
    case Fetched(f, Value(v)) => s.(fetches := s.fetches[f := s.fetches[f].(stage := Storing(v))])
    case Fetched(f, Failure(error)) => Finish(s, f, Failure(error))
    case Stored(f, None) => Finish(s, f, Value(s.fetches[f].stage.value))
    case Stored(f, Some(error)) => Finish(s, f, Failure(error))
    case Delivered(c) => Return(s, c, s.fetches[s.callers[c].joined.value].stage.outcome)
  }

  ghost predicate Leads<V(!new), E(!new)>(s: Client<V, E>, events: seq<Event<V, E>>, t: Client<V, E>)
    decreases |events|
  {
    if events == [] then s == t
    else Enabled(s, events[0]) && Leads(Next(s, events[0]), events[1..], t)
  }

  ghost predicate CallerOk<V, E>(s: Client<V, E>, c: Caller<V, E>) {
    && (c.phase.Awaiting? ==> c.joined.Some?)
    && (c.phase.Looking? ==> c.joined.None?)
    && (c.joined.Some? ==> c.joined.value in s.fetches && s.fetches[c.joined.value].key == c.key)
    && (c.phase.Returned? && c.joined.Some? ==> s.fetches[c.joined.value].stage == Settled(c.phase.outcome))
  }

  /** A running fetch is registered, and what is registered is running or threw at once. */
  ghost predicate RegistryOk<V, E>(inFlight: map<Key, FetchId>, fetches: map<FetchId, Fetch<V, E>>) {
    && (forall f | f in fetches && (Running(fetches[f]) || fetches[f].threw) ::
          fetches[f].key in inFlight && inFlight[fetches[f].key] == f)
    && (forall f | f in fetches :: !(Running(fetches[f]) && fetches[f].threw))
    && (forall key | key in inFlight ::
          && inFlight[key] in fetches && fetches[inFlight[key]].key == key
          && (Running(fetches[inFlight[key]]) || fetches[inFlight[key]].threw))
  }

  ghost predicate CallersOk<V, E>(s: Client<V, E>) {
    forall c | c in s.callers :: CallerOk(s, s.callers[c])
  }

  ghost predicate Inv<V, E>(s: Client<V, E>) {
    RegistryOk(s.inFlight, s.fetches) && CallersOk(s)
  }

  lemma FinishKeeps<V, E>(s: Client<V, E>, f: FetchId, outcome: Outcome<V, E>)
    requires Inv(s) && f in s.fetches && Running(s.fetches[f])
    ensures Inv(Finish(s, f, outcome))
  {
  }

  /** A fetch that is started and registered for a key nobody is fetching. */
  lemma StartKeeps<V, E>(s: Client<V, E>, key: Key, f: FetchId, stage: Stage<V, E>, threw: bool)
    requires Inv(s) && key !in s.inFlight && f !in s.fetches && (threw <==> stage.Settled?)
    ensures Inv(s.(fetches := s.fetches[f := Fetch(key, stage, threw)], inFlight := s.inFlight[key := f]))
  {
  }

  lemma JoinKeeps<V, E>(s: Client<V, E>, c: CallerId, f: FetchId)
    requires Inv(s) && c in s.callers && s.callers[c].phase.Looking?
    requires f in s.fetches && s.fetches[f].key == s.callers[c].key
    ensures Inv(Join(s, c, f))
  {
  }

  lemma ReturnKeeps<V, E>(s: Client<V, E>, c: CallerId, outcome: Outcome<V, E>)
    requires Inv(s) && c in s.callers
    requires s.callers[c].joined.Some? ==> s.fetches[s.callers[c].joined.value].stage == Settled(outcome)
    ensures Inv(Return(s, c, outcome))
  {
  }

  lemma ContinueKeeps<V(!new), E(!new)>(s: Client<V, E>, e: Event<V, E>)
    requires Inv(s) && e.LookedUp? && Enabled(s, e)
    ensures Inv(Next(s, e))
  {
    var c, f, key := e.caller, e.fetch, s.callers[e.caller].key;
    assert CallerOk(s, s.callers[c]);
    match e.answer
    case Hit(v) => ReturnKeeps(s, c, Value(v));
    case OtherError(error) => ReturnKeeps(s, c, Failure(error));
    case _ =>
      if key in s.inFlight {
        JoinKeeps(s, c, s.inFlight[key]);
      } else {
        var stage := if e.threw.Some? then Settled(Failure(e.threw.value)) else Fetching;
        StartKeeps(s, key, f, stage, e.threw.Some?);
        var fetches := s.fetches[f := Fetch(key, stage, e.threw.Some?)];
        var started := s.(fetches := fetches, inFlight := s.inFlight[key := f]);
        JoinKeeps(started, c, f);
        assert s.inFlight - {key} == s.inFlight;
        assert s.fetches[f := Fetch(key, Fetching, e.threw.Some?)][f := Fetch(key, stage, e.threw.Some?)]
            == s.fetches[f := Fetch(key, stage, e.threw.Some?)];
      }
  }

  lemma StepKeeps<V(!new), E(!new)>(s: Client<V, E>, e: Event<V, E>)
    requires Inv(s) && Enabled(s, e)
    ensures Inv(Next(s, e))
  {
    match e
    case Begin(_, _) =>
    case LookedUp(_, _, _, _) => ContinueKeeps(s, e);
    case Fetched(f, Value(v)) =>
    case Fetched(f, Failure(error)) => FinishKeeps(s, f, Failure(error));
    case Stored(f, None) => FinishKeeps(s, f, Value(s.fetches[f].stage.value));
    case Stored(f, Some(error)) => FinishKeeps(s, f, Failure(error));
    case Delivered(c) => ReturnKeeps(s, c, s.fetches[s.callers[c].joined.value].stage.outcome);
  }

  lemma {:induction false} RunKeeps<V(!new), E(!new)>(s: Client<V, E>, events: seq<Event<V, E>>, t: Client<V, E>)
    requires Inv(s) && Leads(s, events, t)
    ensures Inv(t)
    decreases |events|
  {
    if events != [] {
      StepKeeps(s, events[0]);
      RunKeeps(Next(s, events[0]), events[1..], t);
    }
  }

  ghost predicate Reachable<V(!new), E(!new)>(events: seq<Event<V, E>>, t: Client<V, E>) {
    Leads(Client(map[], map[], map[]), events, t)
  }

  /** At most one fetch per key is running at any moment. */
  lemma OneFetchPerKey<V(!new), E(!new)>(events: seq<Event<V, E>>, t: Client<V, E>, f: FetchId, g: FetchId)
    requires Reachable(events, t) && f in t.fetches && g in t.fetches
    requires Running(t.fetches[f]) && Running(t.fetches[g]) && t.fetches[f].key == t.fetches[g].key
    ensures f == g
  {
    RunKeeps(Client(map[], map[], map[]), events, t);
  }

  /** A caller that was given a fetch's promise settles with that fetch's outcome, and only with it. */
  lemma JoinersShareOutcome<V(!new), E(!new)>(events: seq<Event<V, E>>, t: Client<V, E>, c: CallerId)
    requires Reachable(events, t) && c in t.callers && t.callers[c].joined.Some?
    ensures var f := t.callers[c].joined.value;
            && f in t.fetches && t.fetches[f].key == t.callers[c].key
            && (t.callers[c].phase.Returned? ==> t.fetches[f].stage == Settled(t.callers[c].phase.outcome))
  {
    RunKeeps(Client(map[], map[], map[]), events, t);
    assert CallerOk(t, t.callers[c]);
  }

  /**
   `inFlight` holds a key exactly while a fetch for it runs, if and only if no
   fetcher for that key has ever thrown instead of returning a promise.
   */
  lemma RegisteredWhileRunning<V(!new), E(!new)>(events: seq<Event<V, E>>, t: Client<V, E>, key: Key)
    requires Reachable(events, t)
    ensures (key in t.inFlight <==> exists f :: f in t.fetches && Running(t.fetches[f]) && t.fetches[f].key == key) <==>
            (forall f :: f in t.fetches && t.fetches[f].key == key ==> !t.fetches[f].threw)
  {
    RunKeeps(Client(map[], map[], map[]), events, t);
    if key in t.inFlight {
      assert t.inFlight[key] in t.fetches;
    }
  }

  /** After a fetcher throws, its key is never fetched again: every later miss is given the same failure. */
  lemma {:induction false} ThrowingFetcherSticks<V(!new), E(!new)>(
    s: Client<V, E>, events: seq<Event<V, E>>, t: Client<V, E>, f: FetchId, g: FetchId)
    requires Inv(s) && Leads(s, events, t) && f in s.fetches && s.fetches[f].threw
    requires g in t.fetches && t.fetches[g].key == s.fetches[f].key
    ensures g in s.fetches && s.fetches[g].key == t.fetches[g].key
    ensures f in t.fetches && t.fetches[f] == s.fetches[f]
    ensures t.fetches[f].key in t.inFlight && t.inFlight[t.fetches[f].key] == f
    decreases |events|
  {
    if events != [] {
      StepKeeps(s, events[0]);
      ThrewStays(s, events[0], f);
      ThrowingFetcherSticks(Next(s, events[0]), events[1..], t, f, g);
    }
  }

  lemma OnlyLookupsStart<V(!new), E(!new)>(s: Client<V, E>, e: Event<V, E>)
    requires Enabled(s, e) && !e.LookedUp?
    ensures Next(s, e).fetches.Keys == s.fetches.Keys
    ensures forall g :: g in s.fetches ==> Next(s, e).fetches[g].key == s.fetches[g].key
    ensures forall g :: g in s.fetches && !Running(s.fetches[g]) ==> Next(s, e).fetches[g] == s.fetches[g]
  {
  }

  lemma ThrewStays<V(!new), E(!new)>(s: Client<V, E>, e: Event<V, E>, f: FetchId)
    requires Inv(s) && Enabled(s, e) && f in s.fetches && s.fetches[f].threw
    ensures f in Next(s, e).fetches && Next(s, e).fetches[f] == s.fetches[f]
    ensures forall g :: g in Next(s, e).fetches && Next(s, e).fetches[g].key == s.fetches[f].key ==>
              g in s.fetches && s.fetches[g].key == s.fetches[f].key
  {
    if !e.LookedUp? {
      OnlyLookupsStart(s, e);
    }
  }

  /** A fetcher that throws, seen from any state in which nobody is fetching its key. */
  function ThrowingRun<V(!new), E(!new)>(c: CallerId, key: Key, f: FetchId, error: E): seq<Event<V, E>> {
    [Begin(c, key), LookedUp(c, Miss, f, Some(error))]
  }

  /** A caller that misses later, with a fetcher of its own that does not throw. */
  function LaterRun<V(!new), E(!new)>(c: CallerId, key: Key, f: FetchId): seq<Event<V, E>> {
    [Begin(c, key), LookedUp(c, Miss, f, None), Delivered(c)]
  }

  lemma ThrowRegisters<V(!new), E(!new)>(s: Client<V, E>, c: CallerId, key: Key, f: FetchId, error: E)
    returns (t: Client<V, E>)
    requires Inv(s) && c !in s.callers && f !in s.fetches && key !in s.inFlight
    ensures Leads(s, ThrowingRun(c, key, f, error), t)
    ensures t.callers.Keys == s.callers.Keys + {c} && t.fetches.Keys == s.fetches.Keys + {f}
    ensures key in t.inFlight && t.inFlight[key] == f
    ensures t.fetches[f] == Fetch(key, Settled(Failure(error)), true)
  {
    var events := ThrowingRun<V, E>(c, key, f, error);
    var u := Next(s, events[0]);
    t := Next(u, events[1]);
    assert Leads(t, events[1..][1..], t);
    assert Leads(u, events[1..], t);
  }

  lemma LaterIsGivenTheFailure<V(!new), E(!new)>(
    s: Client<V, E>, c: CallerId, key: Key, f: FetchId, g: FetchId, error: E)
    returns (t: Client<V, E>)
    requires Inv(s) && c !in s.callers && g !in s.fetches && f in s.fetches && key in s.inFlight && s.inFlight[key] == f
    requires s.fetches[f] == Fetch(key, Settled(Failure(error)), true)
    ensures Leads(s, LaterRun(c, key, g), t)
    ensures t.fetches == s.fetches && t.inFlight == s.inFlight
    ensures c in t.callers && t.callers[c].phase == Returned(Failure(error))
  {
    var events := LaterRun<V, E>(c, key, g);
    var u := Next(s, events[0]);
    var v := Next(u, events[1]);
    t := Next(v, events[2]);
    assert events[1..][1..][0] == events[2];
    assert Leads(t, events[1..][1..][1..], t);
    assert Leads(v, events[1..][1..], t);
    assert Leads(u, events[1..], t);
  }

  /**
   Such a fetcher can be called in every state in which its key is not being fetched. It leaves the key registered with
   no fetch running, and the next caller that misses is given its failure, although its own fetcher would not throw.
   */
  lemma ThrowingFetcherReached<V(!new), E(!new)>(
    s: Client<V, E>, key: Key, c: CallerId, d: CallerId, f: FetchId, g: FetchId, error: E)
    returns (t: Client<V, E>, u: Client<V, E>)
    requires Inv(s) && c !in s.callers && d !in s.callers && c != d
    requires f !in s.fetches && g !in s.fetches && f != g && key !in s.inFlight
    ensures Leads(s, ThrowingRun(c, key, f, error), t) && Leads(t, LaterRun(d, key, g), u)
    ensures key in t.inFlight && forall h :: h in t.fetches && t.fetches[h].key == key ==> !Running(t.fetches[h])
    ensures d in u.callers && u.callers[d].phase == Returned(Failure(error)) && u.fetches == t.fetches
  {
    t := ThrowRegisters(s, c, key, f, error);
    RunKeeps(s, ThrowingRun(c, key, f, error), t);
    u := LaterIsGivenTheFailure(t, d, key, f, g, error);
  }

  /** The client's mutable table, and the stretches of code that update it. */
  class CacheClient<V(==,!new), E(==,!new)> {
    var inFlight: map<Key, FetchId>
    var fetches: map<FetchId, Fetch<V, E>>
    var callers: map<CallerId, Caller<V, E>>

    function State(): Client<V, E>
      reads this
    {
      Client(inFlight, fetches, callers)
    }

    constructor ()
      ensures State() == Client(map[], map[], map[]) && Inv(State())
    {
      inFlight, fetches, callers := map[], map[], map[];
    }

    /** `runFetcherOnce`, up to its first await; a throw runs the `finally` at once. */
    method RunFetcherOnce(key: Key, id: FetchId, threw: Option<E>)
      modifies this`inFlight, this`fetches
      ensures threw.None? ==> inFlight == old(inFlight) && fetches == old(fetches)[id := Fetch(key, Fetching, false)]
      ensures threw.Some? ==>
                inFlight == old(inFlight) - {key}
                && fetches == old(fetches)[id := Fetch(key, Settled(Failure(threw.value)), true)]
    {
      fetches := fetches[id := Fetch(key, Fetching, threw.Some?)];
      if threw.Some? {
        fetches := fetches[id := Fetch(key, Settled(Failure(threw.value)), true)];
        inFlight := inFlight - {key};
      }
    }

    /** `wrap`, from the answer of the cache lookup to its return. */
    method ContinueWrap(caller: CallerId, answer: Lookup<V, E>, id: FetchId, threw: Option<E>)
      requires Inv(State()) && Enabled(State(), LookedUp(caller, answer, id, threw))
      modifies this
      ensures State() == Next(old(State()), LookedUp(caller, answer, id, threw)) && Inv(State())
    {
      StepKeeps(State(), LookedUp(caller, answer, id, threw));
      var me := callers[caller];
      if answer.Hit? {
        callers := callers[caller := me.(phase := Returned(Value(answer.value)))];
        return;
      }
      if answer.OtherError? {
        callers := callers[caller := me.(phase := Returned(Failure(answer.error)))];
        return;
      }
      if me.key in inFlight {
        callers := callers[caller := me.(phase := Awaiting, joined := Some(inFlight[me.key]))];
        return;
      }
      RunFetcherOnce(me.key, id, threw);
      inFlight := inFlight[me.key := id];
      callers := callers[caller := me.(phase := Awaiting, joined := Some(id))];
    }

    /** The rest of a fetch: `outcome` is what its last await settled with. */
    method FinallySettle(id: FetchId, outcome: Outcome<V, E>)
      requires Inv(State()) && id in fetches && Running(fetches[id])
      modifies this`inFlight, this`fetches
      ensures State() == Finish(old(State()), id, outcome) && Inv(State())
      ensures fetches[id].key !in inFlight && inFlight == old(inFlight) - {fetches[id].key}
      ensures old(inFlight)[old(fetches)[id].key] == id
    {
      FinishKeeps(State(), id, outcome);
      inFlight := inFlight - {fetches[id].key};
      fetches := fetches[id := fetches[id].(stage := Settled(outcome))];
    }
  }
}
