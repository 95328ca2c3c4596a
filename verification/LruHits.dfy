/**
 When the in-memory backend answers with a hit, told from the operations alone
 (packages/cache-kit/src/backends/memory.ts): their times, times to live, tags and order.
 */
module LruHits {
  import opened Options
  import opened OrderedMap
  import opened CacheContract
  import opened LruCache

  /** What the `set` wrote has run out at `now`. */
  predicate RunOut<V>(op: Op<V>, now: int)
    requires op.Set?
  {
    op.ttlMs.Some? && op.now + op.ttlMs.value <= now
  }

  /** The `set` at `j` is of a key not cached, the cache is full, and `k` is the key used longest ago. */
  predicate PushedOut<V>(ops: seq<Op<V>>, j: nat, k: Key, maxEntries: nat)
    requires j < |ops|
  {
    var keys := After(ops[..j], maxEntries).keys;
    ops[j].Set? && ops[j].key !in keys && |keys| == maxEntries > 0 && keys[0] == k
  }

  /** Operation `j` does away with what the `set` of `k` at `i` wrote. */
  predicate Ends<V>(ops: seq<Op<V>>, i: nat, j: nat, k: Key, maxEntries: nat)
    requires i < j < |ops| && ops[i].Set?
  {
    match ops[j]
    case Get(key, now) => key == k && RunOut(ops[i], now)
    case Set(key, _, _, _, _) => key == k || PushedOut(ops, j, k, maxEntries)
    case Delete(key) => key == k
    case InvalidateTag(tag) => tag in ops[i].tags
  }

  /** The `set` at `i` wrote `k`, and nothing has done away with that. */
  ghost predicate Holds<V>(ops: seq<Op<V>>, i: nat, k: Key, maxEntries: nat) {
    && i < |ops| && ops[i].Set? && ops[i].key == k
    && forall j | i < j < |ops| :: !Ends(ops, i, j, k, maxEntries)
  }

  ghost predicate WrittenBy<V>(entry: Entry<V>, op: Op<V>)
    requires op.Set?
  {
    && entry.value == op.value && entry.tags == op.tags
    && (entry.expiresAt.None? <==> op.ttlMs.None?)
    && (op.ttlMs.Some? ==> entry.expiresAt == Some(op.now + op.ttlMs.value))
  }

  /** A `set` of another key takes `k` out only when it has to, and only if `k` is the oldest. */
  lemma OthersPushOut<V>(c: Cache<V>, op: Op<V>, k: Key, maxEntries: nat)
    requires WellFormed(c) && |c.keys| <= maxEntries && 0 < maxEntries
    requires op.Set? && op.key != k && k in c.vals
    ensures k in Apply(c, op, maxEntries).vals <==>
            !(op.key !in c.keys && |c.keys| == maxEntries && c.keys[0] == k)
    ensures k in Apply(c, op, maxEntries).vals ==> Apply(c, op, maxEntries).vals[k] == c.vals[k]
  {
    if op.key in c.vals {
      WithoutOne(c.keys, op.key);
    } else {
      WithoutNothing(c.keys, {op.key});
    }
  }

  /** What the operations that store nothing take out. */
  lemma OthersTakeOut<V>(c: Cache<V>, op: Op<V>, writer: Op<V>, k: Key, maxEntries: nat)
    requires !op.Set? && writer.Set? && k in c.vals && WrittenBy(c.vals[k], writer)
    ensures k in Apply(c, op, maxEntries).vals <==>
            match op
            case Get(key, now) => !(key == k && RunOut(writer, now))
            case Delete(key) => key != k
            case InvalidateTag(tag) => tag !in writer.tags
            case Set(_, _, _, _, _) => true
    ensures k in Apply(c, op, maxEntries).vals ==> Apply(c, op, maxEntries).vals[k] == c.vals[k]
  {
  }

  lemma EndsEarlier<V>(ops: seq<Op<V>>, i: nat, j: nat, k: Key, maxEntries: nat)
    requires i < j < |ops| - 1 && ops[i].Set?
    ensures Ends(ops[..|ops| - 1], i, j, k, maxEntries) <==> Ends(ops, i, j, k, maxEntries)
  {
    assert ops[..|ops| - 1][..j] == ops[..j];
  }

  /** The last operation keeps what is there, or ends it. */
  lemma LastEnds<V>(ops: seq<Op<V>>, i: nat, k: Key, maxEntries: nat)
    requires 0 < maxEntries && i < |ops| - 1 && ops[i].Set?
    requires var before := After(ops[..|ops| - 1], maxEntries); k in before.vals && WrittenBy(before.vals[k], ops[i])
    requires !(ops[|ops| - 1].Set? && ops[|ops| - 1].key == k)
    ensures var before, after := After(ops[..|ops| - 1], maxEntries), After(ops, maxEntries);
            && (k in after.vals <==> !Ends(ops, i, |ops| - 1, k, maxEntries))
            && (k in after.vals ==> after.vals[k] == before.vals[k])
  {
    var op, before := ops[|ops| - 1], After(ops[..|ops| - 1], maxEntries);
    AfterValid(ops[..|ops| - 1], maxEntries);
    assert After(ops, maxEntries) == Apply(before, op, maxEntries);
    if op.Set? {
      OthersPushOut(before, op, k, maxEntries);
    } else {
      OthersTakeOut(before, op, ops[i], k, maxEntries);
    }
  }

  lemma {:induction false} HeldIsWritten<V>(ops: seq<Op<V>>, k: Key, maxEntries: nat) returns (i: nat)
    requires 0 < maxEntries && k in After(ops, maxEntries).vals
    ensures Holds(ops, i, k, maxEntries) && WrittenBy(After(ops, maxEntries).vals[k], ops[i])
  {
    var before, op := ops[..|ops| - 1], ops[|ops| - 1];
    if op.Set? && op.key == k {
      i := |ops| - 1;
      JustSet(After(before, maxEntries), op, maxEntries);
    } else {
      NothingAppears(After(before, maxEntries), op, k, maxEntries);
      i := HeldIsWritten(before, k, maxEntries);
      LastEnds(ops, i, k, maxEntries);
      forall j | i < j < |ops|
        ensures !Ends(ops, i, j, k, maxEntries)
      {
        if j < |ops| - 1 {
          EndsEarlier(ops, i, j, k, maxEntries);
        }
      }
    }
  }

  lemma JustSet<V>(c: Cache<V>, op: Op<V>, maxEntries: nat)
    requires op.Set? && 0 < maxEntries && op.key in Apply(c, op, maxEntries).vals
    ensures WrittenBy(Apply(c, op, maxEntries).vals[op.key], op)
  {
  }

  lemma NothingAppears<V>(c: Cache<V>, op: Op<V>, k: Key, maxEntries: nat)
    requires k in Apply(c, op, maxEntries).vals && !(op.Set? && op.key == k)
    ensures k in c.vals
  {
  }

  lemma {:induction false} WrittenIsHeld<V>(ops: seq<Op<V>>, i: nat, k: Key, maxEntries: nat)
    requires 0 < maxEntries && Holds(ops, i, k, maxEntries)
    ensures k in After(ops, maxEntries).vals && WrittenBy(After(ops, maxEntries).vals[k], ops[i])
    decreases |ops|
  {
    var before, op := ops[..|ops| - 1], ops[|ops| - 1];
    if i == |ops| - 1 {
      AfterValid(before, maxEntries);
      JustSetIsCached(After(before, maxEntries), op, maxEntries);
      JustSet(After(before, maxEntries), op, maxEntries);
    } else {
      assert !Ends(ops, i, |ops| - 1, k, maxEntries);
      forall j | i < j < |before|
        ensures !Ends(before, i, j, k, maxEntries)
      {
        EndsEarlier(ops, i, j, k, maxEntries);
      }
      WrittenIsHeld(before, i, k, maxEntries);
      LastEnds(ops, i, k, maxEntries);
    }
  }

  /**
   A `get` of `k` at `now` hits, and returns `v`, if and only if some `set` of `k` wrote `v` with no time to live or one
   that has not run out, and since then `k` was not set again, deleted, invalidated by one of its tags, read too late,
   or pushed out as the oldest of a full cache.
   */
  lemma HitIff<V>(ops: seq<Op<V>>, k: Key, now: int, v: V, maxEntries: nat)
    requires 0 < maxEntries
    ensures Found(After(ops, maxEntries), k, now) == Some(v) <==>
            exists i :: 0 <= i < |ops| && Holds(ops, i, k, maxEntries) && !RunOut(ops[i], now) && ops[i].value == v
  {
    if k in After(ops, maxEntries).vals {
      var i := HeldIsWritten(ops, k, maxEntries);
    }
    forall i | 0 <= i < |ops| && Holds(ops, i, k, maxEntries)
      ensures k in After(ops, maxEntries).vals && WrittenBy(After(ops, maxEntries).vals[k], ops[i])
    {
      WrittenIsHeld(ops, i, k, maxEntries);
    }
  }
}
