/** Runs that reach the bounds of `GuessingBound`, for every configuration. */
module GuessingReached {
  import opened LoginLimiter
  import opened GuessingBound

  /** The failures counted against `key` at `now`. */
  function Count(s: State, key: Key, now: int): nat {
    if key in Swept(s.counters, key, now) then s.counters[key].count else 0
  }

  lemma Push(config: Config, start: int, trace: seq<Event>, e: Event, key: Key, overlap: nat, from: int, to: int)
    ensures Run(config, start, trace + [e]) == Next(config, Run(config, start, trace), e)
    ensures Failures(trace + [e], key, from, to)
            == Failures(trace, key, from, to) + if e.Failure? && e.key == key && from <= e.now < to then 1 else 0
    ensures Feasible(config, start, trace, key, overlap) && Enabled(Run(config, start, trace), e) && e != Success(key)
            && Pending(Next(config, Run(config, start, trace), e), key) <= overlap
            ==> Feasible(config, start, trace + [e], key, overlap)
  {
  }

  /** A feasible run that stands at `now` with `pending` attempts and `count` failures against `key`. */
  ghost predicate Stands(config: Config, trace: seq<Event>, key: Key, overlap: nat, now: int, pending: nat, count: nat,
                         resetAt: int)
  {
    var s := Run(config, 0, trace);
    && Feasible(config, 0, trace, key, overlap)
    && s.clock <= now && Pending(s, key) == pending && Count(s, key, now) == count
    && (count > 0 <==> key in Swept(s.counters, key, now))
    && (count > 0 ==> s.counters[key].resetAt == resetAt)
  }

  lemma {:induction false} Checks(config: Config, trace: seq<Event>, key: Key, overlap: nat, now: int, n: nat,
                                  count: nat, resetAt: int, from: int, to: int)
    returns (longer: seq<Event>)
    requires Stands(config, trace, key, overlap, now, 0, count, resetAt)
    requires n <= overlap && count < config.maxAttempts
    ensures Stands(config, longer, key, overlap, now, n, count, resetAt)
    ensures Failures(longer, key, from, to) == Failures(trace, key, from, to)
  {
    if n == 0 {
      longer := trace;
    } else {
      var shorter := Checks(config, trace, key, overlap, now, n - 1, count, resetAt, from, to);
      longer := shorter + [Check(key, now)];
      Push(config, 0, shorter, Check(key, now), key, overlap, from, to);
    }
  }

  lemma {:induction false} Volley(config: Config, trace: seq<Event>, key: Key, overlap: nat, now: int, n: nat,
                                  count: nat, resetAt: int, from: int, to: int)
    returns (longer: seq<Event>)
    requires Stands(config, trace, key, overlap, now, n, count, resetAt)
    requires count == 0 ==> resetAt == now + config.windowMs
    ensures Stands(config, longer, key, overlap, now, 0, count + n, resetAt)
    ensures Failures(longer, key, from, to) == Failures(trace, key, from, to) + if from <= now < to then n else 0
    decreases n
  {
    if n == 0 {
      longer := trace;
    } else {
      var e := Failure(key, now, now);
      Push(config, 0, trace, e, key, overlap, from, to);
      longer := Volley(config, trace + [e], key, overlap, now, n - 1, count + 1, resetAt, from, to);
    }
  }

  /** `n` attempts one after the other, each checked and then failed. */
  lemma {:induction false} Guesses(config: Config, trace: seq<Event>, key: Key, overlap: nat, now: int, n: nat,
                                   count: nat, resetAt: int, from: int, to: int)
    returns (longer: seq<Event>)
    requires overlap > 0 && Stands(config, trace, key, overlap, now, 0, count, resetAt)
    requires count + n <= config.maxAttempts
    requires count == 0 ==> resetAt == now + config.windowMs
    ensures Stands(config, longer, key, overlap, now, 0, count + n, resetAt)
    ensures Failures(longer, key, from, to) == Failures(trace, key, from, to) + if from <= now < to then n else 0
    decreases n
  {
    if n == 0 {
      longer := trace;
    } else {
      var checked := Checks(config, trace, key, overlap, now, 1, count, resetAt, from, to);
      var once := Volley(config, checked, key, overlap, now, 1, count, resetAt, from, to);
      longer := Guesses(config, once, key, overlap, now, n - 1, count + 1, resetAt, from, to);
    }
  }

  /** Attempts made one at a time do reach one short of twice `maxAttempts` within the length of a window. */
  lemma WindowLengthBoundIsReached(config: Config, key: Key) returns (trace: seq<Event>)
    requires config.windowMs > 1
    ensures Feasible(config, 0, trace, key, 1)
    ensures Failures(trace, key, 1, 1 + config.windowMs) == 2 * config.maxAttempts - 1
  {
    var w, max := config.windowMs, config.maxAttempts;
    var first := Guesses(config, [], key, 1, 0, 1, 0, w, 1, 1 + w);
    var filled := Guesses(config, first, key, 1, 1, max - 1, 1, w, 1, 1 + w);
    trace := Guesses(config, filled, key, 1, w, max, 0, w + w, 1, 1 + w);
  }

  /**
   With `overlap` attempts pending at once, a single window takes `overlap - 1` failures more than `maxAttempts`: the
   bound documented at rate-limit.ts lines 71-75 is the one for attempts that do not overlap.
   */
  lemma OverlapBoundIsReached(config: Config, key: Key, overlap: nat) returns (trace: seq<Event>)
    requires overlap > 0
    ensures Feasible(config, 0, trace, key, overlap)
    ensures Failures(trace, key, 0, 1) == config.maxAttempts + overlap - 1
  {
    var w, max := config.windowMs, config.maxAttempts;
    var filled := Guesses(config, [], key, overlap, 0, max - 1, 0, w, 0, 1);
    var checked := Checks(config, filled, key, overlap, 0, overlap, max - 1, w, 0, 1);
    trace := Volley(config, checked, key, overlap, 0, overlap, max - 1, w, 0, 1);
  }
}
