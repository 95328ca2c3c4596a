/**
 The login-attempt limiter and its fixed windows (packages/auth-utils/src/rate-limit.ts and the
 attempt store of packages/auth-utils/src/stores.ts).
 */
module LoginLimiter {
  import opened Options

  type Key = string

  datatype Counter = Counter(count: nat, resetAt: int)

  type Counters = map<Key, Counter>

  datatype Limits = Limits(maxAttempts: int, windowMs: int)

  /** What `createLoginRateLimiter` accepts. */
  type Config = l: Limits | l.maxAttempts > 0 && l.windowMs > 0 witness Limits(1, 1)

  function Find(counters: Counters, key: Key): Option<Counter> {
    if key in counters then Some(counters[key]) else None
  }

  /** Reading a counter whose window has ended removes it. */
  function Swept(counters: Counters, key: Key, now: int): Counters {
    if key in counters && now >= counters[key].resetAt then counters - {key} else counters
  }

  /** One more failure, at `now`; `later` is the second clock reading, used only to open a window. */
  function Bumped(counters: Counters, key: Key, windowMs: int, now: int, later: int): Counters {
    var kept := Swept(counters, key, now);
    kept[key := if key in kept then Counter(kept[key].count + 1, kept[key].resetAt) else Counter(1, later + windowMs)]
  }

  class MemoryAttemptStore {
    var counters: Counters

    constructor ()
      ensures counters == map[]
    {
      counters := map[];
    }

    method Live(key: Key, now: int) returns (counter: Option<Counter>)
      modifies this
      ensures counters == Swept(old(counters), key, now)
      ensures counter == Find(counters, key)
    {
      if key !in counters {
        return None;
      }
      if now >= counters[key].resetAt {
        counters := counters - {key};
        return None;
      }
      return Some(counters[key]);
    }

    method Increment(key: Key, windowMs: int, now: int, later: int) returns (next: Counter)
      modifies this
      ensures counters == Bumped(old(counters), key, windowMs, now, later)
      ensures next == counters[key]
    {
      var existing := Live(key, now);
      next := if existing.None? then Counter(1, later + windowMs)
              else Counter(existing.value.count + 1, existing.value.resetAt);
      counters := counters[key := next];
    }

    method Get(key: Key, now: int) returns (counter: Option<Counter>)
      modifies this
      ensures counters == Swept(old(counters), key, now)
      ensures counter == Find(counters, key)
    {
      counter := Live(key, now);
    }

    method Reset(key: Key)
      modifies this
      ensures counters == old(counters) - {key}
    {
      counters := counters - {key};
    }
  }

  datatype Decision = Decision(allowed: bool, count: nat, remaining: nat, resetAt: int)

  datatype OnStoreError = Deny | Allow

  datatype Outcome<T> = Done(value: T) | BadKey | StoreError

  /** An absent counter decides like one that has counted nothing yet. */
  function Decide(config: Config, counter: Option<Counter>, later: int): (d: Decision)
    ensures d.allowed <==> d.remaining > 0
    ensures d.count + d.remaining == if d.count < config.maxAttempts then config.maxAttempts else d.count
  {
    match counter
    case None => Decision(true, 0, config.maxAttempts, later + config.windowMs)
    case Some(c) =>
      Decision(c.count < config.maxAttempts, c.count,
               if config.maxAttempts > c.count then config.maxAttempts - c.count else 0, c.resetAt)
  }

  class LoginRateLimiter {
    const store: MemoryAttemptStore
    const config: Config
    const onStoreError: OnStoreError

    constructor (store: MemoryAttemptStore, config: Config, onStoreError: OnStoreError)
      ensures this.store == store && this.config == config && this.onStoreError == onStoreError
    {
      this.store := store;
      this.config := config;
      this.onStoreError := onStoreError;
    }

    /** The answer when the store failed without doing anything; `later` is a fresh clock reading. */
    method OnFailure(later: int) returns (r: Outcome<Decision>)
      ensures r == if onStoreError.Deny? then StoreError else Done(Decide(config, None, later))
    {
      if onStoreError.Deny? {
        return StoreError;
      }
      return Done(Decision(true, 0, config.maxAttempts, later + config.windowMs));
    }

    method Check(key: Key, storeFails: bool, now: int, later: int) returns (r: Outcome<Decision>)
      modifies store
      ensures key == "" ==> r == BadKey
      ensures key != "" && storeFails ==>
                r == if onStoreError.Deny? then StoreError else Done(Decide(config, None, later))
      ensures key == "" || storeFails ==> store.counters == old(store.counters)
      ensures key != "" && !storeFails ==>
                store.counters == Swept(old(store.counters), key, now)
                && r == Done(Decide(config, Find(store.counters, key), later))
    {
      if key == "" {
        return BadKey;
      }
      if storeFails {
        r := OnFailure(later);
        return;
      }
      var counter := store.Get(key, now);
      return Done(Decide(config, counter, later));
    }

    method RecordFailure(key: Key, storeFails: bool, now: int, later: int) returns (r: Outcome<Decision>)
      modifies store
      ensures key == "" ==> r == BadKey
      ensures key != "" && storeFails ==>
                r == if onStoreError.Deny? then StoreError else Done(Decide(config, None, later))
      ensures key == "" || storeFails ==> store.counters == old(store.counters)
      ensures key != "" && !storeFails ==>
                store.counters == Bumped(old(store.counters), key, config.windowMs, now, later)
                && r == Done(Decide(config, Find(store.counters, key), later))
    {
      if key == "" {
        return BadKey;
      }
      if storeFails {
        r := OnFailure(later);
        return;
      }
      var counter := store.Increment(key, config.windowMs, now, later);
      return Done(Decide(config, Some(counter), later));
    }

    method RecordSuccess(key: Key, storeFails: bool) returns (r: Outcome<()>)
      modifies store
      ensures r == if key == "" then BadKey else if storeFails && onStoreError.Deny? then StoreError else Done(())
      ensures store.counters == if key == "" || storeFails then old(store.counters) else old(store.counters) - {key}
    {
      if key == "" {
        return BadKey;
      }
      if storeFails {
        return if onStoreError.Deny? then StoreError else Done(());
      }
      store.Reset(key);
      return Done(());
    }
  }
}
