/**
 How many failed logins a limiter lets through: any number of callers, interleaved at will, with at most
 `overlap` attempts per key between their `check` and their `recordFailure` at any moment.
 */
module GuessingBound {
  import opened Options
  import opened LoginLimiter

  datatype Event =
    | Check(key: Key, now: int)
    | Failure(key: Key, now: int, later: int)
    /** A permitted attempt that records nothing. */
    | Abandon(key: Key)
    | Success(key: Key)

  /** `pending` counts the attempts permitted and not yet recorded; `clock` is the latest reading. */
  datatype State = State(counters: Counters, pending: map<Key, nat>, clock: int)

  function Pending(s: State, key: Key): nat {
    if key in s.pending then s.pending[key] else 0
  }

  function Next(config: Config, s: State, e: Event): State {
    match e
    case Check(key, now) =>
      var swept := Swept(s.counters, key, now);
      var allowed := Decide(config, Find(swept, key), now).allowed;
      State(swept, if allowed then s.pending[key := Pending(s, key) + 1] else s.pending, now)
    case Failure(key, now, later) =>
      State(Bumped(s.counters, key, config.windowMs, now, later), Settled(s, key), later)
    case Abandon(key) => s.(pending := Settled(s, key))
    case Success(key) => State(s.counters - {key}, Settled(s, key), s.clock)
  }

  function Settled(s: State, key: Key): map<Key, nat> {
    if Pending(s, key) > 0 then s.pending[key := Pending(s, key) - 1] else s.pending
  }

  /** The clock does not run backwards, and only a permitted attempt has an outcome. */
  predicate Enabled(s: State, e: Event) {
    match e
    case Check(_, now) => s.clock <= now
    case Failure(key, now, later) => s.clock <= now <= later && Pending(s, key) > 0
    case Abandon(key) => Pending(s, key) > 0
    case Success(key) => Pending(s, key) > 0
  }

  function Run(config: Config, start: int, trace: seq<Event>): State {
    if trace == [] then State(map[], map[], start)
    else Next(config, Run(config, start, trace[..|trace| - 1]), trace[|trace| - 1])
  }

  /** A run in which no more than `overlap` attempts on `key` are ever pending at once, and none succeeds. */
  predicate Feasible(config: Config, start: int, trace: seq<Event>, key: Key, overlap: nat) {
    trace == [] ||
    (var earlier, last := trace[..|trace| - 1], trace[|trace| - 1];
     && Feasible(config, start, earlier, key, overlap)
     && Enabled(Run(config, start, earlier), last)
     && last != Success(key)
     && Pending(Run(config, start, trace), key) <= overlap)
  }

  /** The failures recorded on `key` at a time in `[from, to)`. */
  function Failures(trace: seq<Event>, key: Key, from: int, to: int): nat {
    if trace == [] then 0
    else
      var last := trace[|trace| - 1];
      Failures(trace[..|trace| - 1], key, from, to)
      + if last.Failure? && last.key == key && from <= last.now < to then 1 else 0
  }

  /** The most failures one window can hold. */
  function PerWindow(config: Config, overlap: nat): nat {
    config.maxAttempts + overlap - 1
  }

  function CeilDiv(t: int, w: int): int
    requires w > 0
  {
    (t + w - 1) / w
  }

  /** A counter and the attempts that may still raise it never exceed what one window can hold. */
  predicate WithinWindow(config: Config, s: State, key: Key, overlap: nat) {
    && Pending(s, key) <= overlap
    && (key in s.counters ==>
          1 <= s.counters[key].count && s.counters[key].count + Pending(s, key) <= PerWindow(config, overlap))
  }

  lemma {:induction false} EveryWindowIsBounded(config: Config, start: int, trace: seq<Event>, key: Key, overlap: nat)
    requires overlap > 0 && Feasible(config, start, trace, key, overlap)
    ensures WithinWindow(config, Run(config, start, trace), key, overlap)
  {
    if trace != [] {
      EveryWindowIsBounded(config, start, trace[..|trace| - 1], key, overlap);
    }
  }

  /**
   `windows` windows were opened inside `[from, to)` so far: they lie a window apart, and each of them, like the one
   that was open before, holds only so many failures.
   */
  ghost predicate Counted(
    config: Config, s: State, key: Key, most: nat, from: int, to: int, failures: nat, windows: nat) {
    && failures <= windows * most + most - 1
    && (s.clock < to && key in s.counters ==> failures <= windows * most + s.counters[key].count - 1)
    && (s.clock < from ==> failures == 0 && windows == 0)
    && (windows > 0 ==> from + (windows - 1) * config.windowMs < to)
    && (windows > 0 ==>
          from + windows * config.windowMs <= if key in s.counters then s.counters[key].resetAt else s.clock)
  }

  lemma CheckCounts(config: Config, s: State, e: Event, key: Key, overlap: nat, from: int, to: int, failures: nat,
                    windows: nat)
    requires e.Check? && Enabled(s, e)
    requires WithinWindow(config, s, key, overlap)
    requires Counted(config, s, key, PerWindow(config, overlap), from, to, failures, windows)
    ensures Counted(config, Next(config, s, e), key, PerWindow(config, overlap), from, to, failures, windows)
  {
  }

  lemma JoiningCounts(config: Config, s: State, e: Event, key: Key, overlap: nat, from: int, to: int, failures: nat,
                      windows: nat)
    requires e.Failure? && e.key == key && Enabled(s, e) && from <= to
    requires key in Swept(s.counters, key, e.now)
    requires WithinWindow(config, s, key, overlap) && WithinWindow(config, Next(config, s, e), key, overlap)
    requires Counted(config, s, key, PerWindow(config, overlap), from, to, failures, windows)
    ensures Counted(config, Next(config, s, e), key, PerWindow(config, overlap), from, to,
                    failures + if from <= e.now < to then 1 else 0, windows)
  {
  }

  lemma OpeningInsideCounts(config: Config, s: State, e: Event, key: Key, overlap: nat, from: int, to: int,
                            failures: nat, windows: nat)
    requires e.Failure? && e.key == key && Enabled(s, e) && from <= e.now < to
    requires key !in Swept(s.counters, key, e.now)
    requires WithinWindow(config, s, key, overlap)
    requires Counted(config, s, key, PerWindow(config, overlap), from, to, failures, windows)
    ensures Counted(config, Next(config, s, e), key, PerWindow(config, overlap), from, to, failures + 1, windows + 1)
  {
  }

  lemma OpeningOutsideCounts(config: Config, s: State, e: Event, key: Key, overlap: nat, from: int, to: int,
                             failures: nat, windows: nat)
    requires e.Failure? && e.key == key && Enabled(s, e) && !(from <= e.now < to)
    requires key !in Swept(s.counters, key, e.now)
    requires Counted(config, s, key, PerWindow(config, overlap), from, to, failures, windows)
    ensures Counted(config, Next(config, s, e), key, PerWindow(config, overlap), from, to, failures, windows)
  {
  }

  /** Every other step leaves the count alone. */
  lemma OtherCounts(config: Config, s: State, e: Event, key: Key, most: nat, from: int, to: int, failures: nat,
                    windows: nat)
    requires !e.Check? && Enabled(s, e) && (e.Failure? ==> e.key != key) && e != Success(key)
    requires Counted(config, s, key, most, from, to, failures, windows)
    ensures Counted(config, Next(config, s, e), key, most, from, to, failures, windows)
  {
  }

  lemma {:induction false} FailuresAreCounted(config: Config, start: int, trace: seq<Event>, key: Key, overlap: nat,
                                              from: int, to: int)
    returns (windows: nat)
    requires overlap > 0 && from <= to && Feasible(config, start, trace, key, overlap)
    ensures Counted(config, Run(config, start, trace), key, PerWindow(config, overlap), from, to,
                    Failures(trace, key, from, to), windows)
  {
    if trace == [] {
      windows := 0;
    } else {
      var earlier, e := trace[..|trace| - 1], trace[|trace| - 1];
      var s, failures := Run(config, start, earlier), Failures(earlier, key, from, to);
      windows := FailuresAreCounted(config, start, earlier, key, overlap, from, to);
      EveryWindowIsBounded(config, start, earlier, key, overlap);
      EveryWindowIsBounded(config, start, trace, key, overlap);
      if e.Check? {
        CheckCounts(config, s, e, key, overlap, from, to, failures, windows);
      } else if e.Failure? && e.key == key {
        if key in Swept(s.counters, key, e.now) {
          JoiningCounts(config, s, e, key, overlap, from, to, failures, windows);
        } else if from <= e.now < to {
          OpeningInsideCounts(config, s, e, key, overlap, from, to, failures, windows);
          windows := windows + 1;
        } else {
          OpeningOutsideCounts(config, s, e, key, overlap, from, to, failures, windows);
        }
      } else {
        OtherCounts(config, s, e, key, PerWindow(config, overlap), from, to, failures, windows);
      }
    }
  }

  lemma FewWindowsFit(windows: nat, w: int, t: int)
    requires w > 0 && t >= 0 && (windows > 0 ==> (windows - 1) * w < t)
    ensures windows <= CeilDiv(t, w)
  {
    if windows > 0 {
      var d := CeilDiv(t, w);
      assert d * w >= t by {
        assert d * w + (t + w - 1) % w == t + w - 1;
      }
      assert windows - 1 >= d ==> (windows - 1) * w >= d * w;
    }
  }

  /**
   Over any half-open interval of length `t`, the failures recorded on a key number at most what ceil(t / w) windows
   hold, and one short of what one more holds.
   */
  lemma GuessesAreBounded(config: Config, start: int, trace: seq<Event>, key: Key, overlap: nat, from: int, t: nat)
    requires overlap > 0 && Feasible(config, start, trace, key, overlap)
    ensures Failures(trace, key, from, from + t)
            <= CeilDiv(t, config.windowMs) * PerWindow(config, overlap) + PerWindow(config, overlap) - 1
  {
    var windows := FailuresAreCounted(config, start, trace, key, overlap, from, from + t);
    FewWindowsFit(windows, config.windowMs, t);
    TimesKeepsOrder(windows, CeilDiv(t, config.windowMs), PerWindow(config, overlap));
  }

  lemma TimesKeepsOrder(a: int, b: int, c: nat)
    requires a <= b
    ensures a * c <= b * c
  {
  }

  /** One attempt at a time: fewer than twice `maxAttempts` failures in any interval as long as a window. */
  lemma OneWindowLength(config: Config, start: int, trace: seq<Event>, key: Key, from: int)
    requires Feasible(config, start, trace, key, 1)
    ensures Failures(trace, key, from, from + config.windowMs) < 2 * config.maxAttempts
  {
    GuessesAreBounded(config, start, trace, key, 1, from, config.windowMs);
    var w := config.windowMs;
    assert (w + w - 1) / w == 1 by {
      assert w + w - 1 == 1 * w + (w - 1);
    }
  }

  // ----- The window and the lockout -----

  /** The window open on `key` in `s` is still open in `t`, ends when it did, and has counted no less. */
  ghost predicate SameWindow(s: State, t: State, key: Key) {
    key in s.counters && key in t.counters
    && t.counters[key].resetAt == s.counters[key].resetAt && s.counters[key].count <= t.counters[key].count
  }

  lemma StepKeepsWindow(config: Config, s: State, t: State, e: Event, key: Key)
    requires SameWindow(s, t, key) && Enabled(t, e) && e != Success(key)
    requires Next(config, t, e).clock < s.counters[key].resetAt
    ensures SameWindow(s, Next(config, t, e), key)
    ensures s.counters[key].count >= config.maxAttempts ==> Pending(Next(config, t, e), key) <= Pending(t, key)
  {
  }

  lemma ClockAdvances(config: Config, s: State, e: Event)
    requires Enabled(s, e)
    ensures s.clock <= Next(config, s, e).clock
  {
  }

  /**
   Until a window ends nothing moves its end, however many failures are recorded; and once it has counted
   `maxAttempts` of them no further attempt is permitted, so the attempts pending only ever become fewer.
   */
  lemma {:induction false} LockedForTheWindow(config: Config, start: int, trace: seq<Event>, more: seq<Event>, key: Key,
                                              overlap: nat)
    requires Feasible(config, start, trace + more, key, overlap)
    requires var s := Run(config, start, trace);
             key in s.counters && Run(config, start, trace + more).clock < s.counters[key].resetAt
    ensures var s, t := Run(config, start, trace), Run(config, start, trace + more);
            && SameWindow(s, t, key)
            && (s.counters[key].count >= config.maxAttempts ==> Pending(t, key) <= Pending(s, key))
    decreases |more|
  {
    if more == [] {
      assert trace + more == trace;
    } else {
      var fewer, e := more[..|more| - 1], more[|more| - 1];
      assert (trace + more)[..|trace + more| - 1] == trace + fewer;
      var t := Run(config, start, trace + fewer);
      ClockAdvances(config, t, e);
      LockedForTheWindow(config, start, trace, fewer, key, overlap);
      StepKeepsWindow(config, Run(config, start, trace), t, e, key);
    }
  }

  // ----- What counters and decisions say -----

  function FailuresOn(trace: seq<Event>, key: Key): nat {
    if trace == [] then 0
    else FailuresOn(trace[..|trace| - 1], key) + if IsFailure(trace[|trace| - 1], key) then 1 else 0
  }

  predicate IsFailure(e: Event, key: Key) {
    e.Failure? && e.key == key
  }

  /** The counter was opened by the failure at `i`, and by what came later it was neither ended nor cleared. */
  ghost predicate OpenedAt(config: Config, trace: seq<Event>, key: Key, i: nat, resetAt: int) {
    && i < |trace| && IsFailure(trace[i], key) && resetAt == trace[i].later + config.windowMs
    && (forall j :: i < j < |trace| && (trace[j].Check? || trace[j].Failure?) && trace[j].key == key ==>
          trace[j].now < resetAt)
    && (forall j :: i < j < |trace| ==> trace[j] != Success(key))
  }

  /** A step that leaves a counter it did not open. */
  lemma CounterStep(config: Config, s: State, e: Event, key: Key)
    requires key in Next(config, s, e).counters && (IsFailure(e, key) ==> key in Swept(s.counters, key, e.now))
    ensures key in s.counters && e != Success(key)
    ensures var before, after := s.counters[key], Next(config, s, e).counters[key];
            && after.resetAt == before.resetAt && after.count == before.count + (if IsFailure(e, key) then 1 else 0)
            && ((e.Check? || e.Failure?) && e.key == key ==> e.now < before.resetAt)
  {
  }

  lemma OpenedLater(config: Config, trace: seq<Event>, e: Event, key: Key, i: nat, resetAt: int)
    requires OpenedAt(config, trace, key, i, resetAt) && e != Success(key)
    requires (e.Check? || e.Failure?) && e.key == key ==> e.now < resetAt
    ensures OpenedAt(config, trace + [e], key, i, resetAt)
    ensures FailuresOn((trace + [e])[i..], key) == FailuresOn(trace[i..], key) + if IsFailure(e, key) then 1 else 0
  {
    assert (trace + [e])[i..] == trace[i..] + [e];
    assert (trace[i..] + [e])[..|trace[i..]|] == trace[i..];
  }

  lemma OpenedNow(config: Config, trace: seq<Event>, e: Event, key: Key)
    requires IsFailure(e, key)
    ensures OpenedAt(config, trace + [e], key, |trace|, e.later + config.windowMs)
    ensures FailuresOn((trace + [e])[|trace|..], key) == 1
  {
    assert (trace + [e])[|trace|..] == [e] && [e][..0] == [];
  }

  /** A counter ends a window after the failure that opened it, and counts that and every later failure on its key. */
  lemma {:induction false} CountersTellFailures(config: Config, start: int, trace: seq<Event>, key: Key)
    returns (i: nat)
    requires key in Run(config, start, trace).counters
    ensures var counter := Run(config, start, trace).counters[key];
            && OpenedAt(config, trace, key, i, counter.resetAt)
            && counter.count == FailuresOn(trace[i..], key)
  {
    var earlier, last := trace[..|trace| - 1], trace[|trace| - 1];
    var s := Run(config, start, earlier);
    assert trace == earlier + [last];
    if IsFailure(last, key) && key !in Swept(s.counters, key, last.now) {
      i := |trace| - 1;
      OpenedNow(config, earlier, last, key);
    } else {
      CounterStep(config, s, last, key);
      i := CountersTellFailures(config, start, earlier, key);
      OpenedLater(config, earlier, last, key, i, s.counters[key].resetAt);
    }
  }

  /**
   `resetAt` is when the caller may try again: as long as nothing else happens to the key, a check before it finds the
   counter decided on, and one from it on finds none, so that all attempts are free again.
   */
  lemma ResetAtEndsTheWindow(config: Config, counters: Counters, key: Key, now: int, later: int, time: int,
                             afterwards: int)
    ensures var bumped := Bumped(counters, key, config.windowMs, now, later);
            var decision := Decide(config, Find(bumped, key), later);
            var next := Decide(config, Find(Swept(bumped, key, time), key), afterwards);
            if time < decision.resetAt then next == decision
            else next.allowed && next.count == 0 && next.remaining == config.maxAttempts
                 && next.resetAt == afterwards + config.windowMs
  {
  }

  /** Without a counter, `resetAt` is the end of the window that a failure at that very moment would open. */
  lemma FreshResetAt(config: Config, counters: Counters, key: Key, now: int, later: int)
    requires key !in counters
    ensures var before := Decide(config, None, later);
            var after := Decide(config, Find(Bumped(counters, key, config.windowMs, now, later), key), later);
            && before.allowed && before.count == 0 && after.count == 1
            && before.resetAt == after.resetAt == later + config.windowMs
  {
  }
}
