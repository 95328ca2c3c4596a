/**
 The meaning of the in-memory backend (packages/cache-kit/src/backends/memory.ts)
 as a function of the ordered map it keeps, and what holds of it over every trace.
 */
module LruCache {
  import opened Options
  import opened OrderedMap
  import opened CacheContract

  type Cache<V> = OrderedMap<Entry<V>>

  function Touched<V>(c: Cache<V>, k: Key): Cache<V>
    requires k in c.vals
  {
    Put(RemoveAll(c, {k}), k, c.vals[k])
  }

  /** What `get` answers. */
  function Found<V>(c: Cache<V>, k: Key, now: int): Option<V> {
    if k in c.vals && !Expired(c.vals[k], now) then Some(c.vals[k].value) else None
  }

  function TaggedKeys<V>(c: Cache<V>, tag: Tag): set<Key> {
    set k | k in c.vals && tag in c.vals[k].tags
  }

  /** Drop the least recently used entry when there are too many. */
  function Trimmed<V>(c: Cache<V>, maxEntries: nat): Cache<V> {
    if |c.keys| > maxEntries then RemoveAll(c, {c.keys[0]}) else c
  }

  function Apply<V>(c: Cache<V>, op: Op<V>, maxEntries: nat): Cache<V> {
    match op
    case Get(k, now) =>
      if k !in c.vals then c
      else if Expired(c.vals[k], now) then RemoveAll(c, {k})
      else Touched(c, k)
    case Set(k, _, _, _, _) => Trimmed(Put(RemoveAll(c, {k}), k, EntryOf(op)), maxEntries)
    case Delete(k) => RemoveAll(c, {k})
    case InvalidateTag(tag) => RemoveAll(c, TaggedKeys(c, tag))
  }

  function After<V>(ops: seq<Op<V>>, maxEntries: nat): Cache<V> {
    if ops == [] then OrderedMap([], map[])
    else Apply(After(ops[..|ops| - 1], maxEntries), ops[|ops| - 1], maxEntries)
  }

  lemma ApplyValid<V>(c: Cache<V>, op: Op<V>, maxEntries: nat)
    requires WellFormed(c) && |c.keys| <= maxEntries && 0 < maxEntries
    ensures WellFormed(Apply(c, op, maxEntries)) && |Apply(c, op, maxEntries).keys| <= maxEntries
  {
    match op
    case Get(k, _) =>
      RemoveAllValid(c, {k});
      if k in c.vals {
        WithoutOne(c.keys, k);
        PutValid(RemoveAll(c, {k}), k, c.vals[k]);
      }
    case Set(k, _, _, _, _) =>
      RemoveAllValid(c, {k});
      var put := Put(RemoveAll(c, {k}), k, EntryOf(op));
      PutValid(RemoveAll(c, {k}), k, EntryOf(op));
      if |put.keys| > maxEntries {
        RemoveAllValid(put, {put.keys[0]});
        WithoutOne(put.keys, put.keys[0]);
      }
    case Delete(k) => RemoveAllValid(c, {k});
    case InvalidateTag(tag) => RemoveAllValid(c, TaggedKeys(c, tag));
  }

  lemma {:induction false} AfterValid<V>(ops: seq<Op<V>>, maxEntries: nat)
    requires 0 < maxEntries
    ensures WellFormed(After(ops, maxEntries)) && |After(ops, maxEntries).keys| <= maxEntries
  {
    if ops != [] {
      AfterValid(ops[..|ops| - 1], maxEntries);
      ApplyValid(After(ops[..|ops| - 1], maxEntries), ops[|ops| - 1], maxEntries);
    }
  }

  // ----- Every hit is the last set -----

  /** The cache holds nothing but entries the trace says are current. */
  lemma {:induction false} EntriesAreLastSets<V>(ops: seq<Op<V>>, maxEntries: nat)
    requires 0 < maxEntries
    ensures forall k :: k in After(ops, maxEntries).vals ==> LastSet(ops, k) == Some(After(ops, maxEntries).vals[k])
  {
    if ops != [] {
      EntriesAreLastSets(ops[..|ops| - 1], maxEntries);
    }
  }

  /** A hit returns the value of the last set that has not expired, been deleted or been invalidated. */
  lemma HitIsLastSet<V>(ops: seq<Op<V>>, maxEntries: nat, k: Key, now: int)
    requires 0 < maxEntries && Found(After(ops, maxEntries), k, now).Some?
    ensures LastSet(ops, k).Some? && !Expired(LastSet(ops, k).value, now)
    ensures Found(After(ops, maxEntries), k, now).value == LastSet(ops, k).value.value
  {
    EntriesAreLastSets(ops, maxEntries);
  }

  // ----- Map order is last-use order -----

  /** The key an operation uses: one that is written, or read with a hit. */
  function Used<V>(c: Cache<V>, op: Op<V>): Option<Key> {
    match op
    case Set(k, _, _, _, _) => Some(k)
    case Get(k, now) => if Found(c, k, now).Some? then Some(k) else None
    case _ => None
  }

  /** The keys used since `k` itself was last used. */
  function UsedSince<V>(ops: seq<Op<V>>, k: Key, maxEntries: nat): set<Key> {
    if ops == [] then {}
    else
      var before := ops[..|ops| - 1];
      var used := Used(After(before, maxEntries), ops[|ops| - 1]);
      if used == Some(k) then {}
      else UsedSince(before, k, maxEntries) + (if used.Some? then {used.value} else {})
  }

  lemma {:induction false} NotUsedSinceItself<V>(ops: seq<Op<V>>, k: Key, maxEntries: nat)
    ensures k !in UsedSince(ops, k, maxEntries)
  {
    if ops != [] {
      NotUsedSinceItself(ops[..|ops| - 1], k, maxEntries);
    }
  }

  /** `a` comes before `b` in `s`. */
  ghost predicate Precedes(s: seq<Key>, a: Key, b: Key) {
    exists i, j :: 0 <= i < j < |s| && s[i] == a && s[j] == b
  }

  /** Taking elements out creates no new precedence. */
  lemma {:induction false} WithoutPrecedes(s: seq<Key>, gone: set<Key>, a: Key, b: Key)
    requires Precedes(Without(s, gone), a, b)
    ensures Precedes(s, a, b)
  {
    var r := Without(s, gone);
    var i, j :| 0 <= i < j < |r| && r[i] == a && r[j] == b;
    var rest := Without(s[1..], gone);
    if s[0] in gone {
      WithoutPrecedes(s[1..], gone, a, b);
      var p, q :| 0 <= p < q < |s[1..]| && s[1..][p] == a && s[1..][q] == b;
      assert s[p + 1] == a && s[q + 1] == b;
    } else if i == 0 {
      assert b in rest && b in s[1..];
      var q :| 0 <= q < |s[1..]| && s[1..][q] == b;
      assert s[0] == a && s[q + 1] == b;
    } else {
      assert rest[i - 1] == a && rest[j - 1] == b;
      WithoutPrecedes(s[1..], gone, a, b);
      var p, q :| 0 <= p < q < |s[1..]| && s[1..][p] == a && s[1..][q] == b;
      assert s[p + 1] == a && s[q + 1] == b;
    }
  }

  lemma AppendPrecedes(s: seq<Key>, k: Key, a: Key, b: Key)
    requires Precedes(s + [k], a, b)
    ensures a in s && (b == k || Precedes(s, a, b))
  {
  }

  /** Whatever comes after a key has been used since it was. */
  lemma {:induction false} LaterIsUsedSince<V>(ops: seq<Op<V>>, a: Key, b: Key, maxEntries: nat)
    requires 0 < maxEntries && Precedes(After(ops, maxEntries).keys, a, b)
    ensures b in UsedSince(ops, a, maxEntries)
    decreases |ops|, 0
  {
    var before, op := ops[..|ops| - 1], ops[|ops| - 1];
    var c := After(before, maxEntries);
    if op.Set? {
      var put := Put(RemoveAll(c, {op.key}), op.key, EntryOf(op));
      if |put.keys| > maxEntries {
        WithoutPrecedes(put.keys, {put.keys[0]}, a, b);
      }
      MovedToEnd(before, op.key, a, b, maxEntries);
    } else if Used(c, op).Some? {
      MovedToEnd(before, op.key, a, b, maxEntries);
    } else {
      var gone := Removed(c, op);
      WithoutPrecedes(c.keys, gone, a, b);
      LaterIsUsedSince(before, a, b, maxEntries);
    }
  }

  /** The keys taken out by an operation that uses none. */
  ghost function Removed<V>(c: Cache<V>, op: Op<V>): (gone: set<Key>)
    requires Used(c, op).None?
    ensures forall maxEntries :: Apply(c, op, maxEntries).keys == Without(c.keys, gone)
  {
    match op
    case Get(k, _) => if k in c.vals then {k} else WithoutNothing(c.keys, {}); {}
    case Delete(k) => {k}
    case InvalidateTag(tag) => TaggedKeys(c, tag)
  }

  lemma MovedToEnd<V>(before: seq<Op<V>>, k: Key, a: Key, b: Key, maxEntries: nat)
    requires 0 < maxEntries
    requires Precedes(Without(After(before, maxEntries).keys, {k}) + [k], a, b)
    ensures a != k && (b == k || b in UsedSince(before, a, maxEntries))
    decreases |before|, 1
  {
    var keys := After(before, maxEntries).keys;
    AppendPrecedes(Without(keys, {k}), k, a, b);
    if b != k {
      WithoutPrecedes(keys, {k}, a, b);
      LaterIsUsedSince(before, a, b, maxEntries);
    }
  }

  /** Of two keys only one has been used since the other was. */
  lemma {:induction false} NotBothUsedSince<V>(ops: seq<Op<V>>, a: Key, b: Key, maxEntries: nat)
    ensures !(a in UsedSince(ops, b, maxEntries) && b in UsedSince(ops, a, maxEntries))
  {
    if ops != [] {
      NotBothUsedSince(ops[..|ops| - 1], a, b, maxEntries);
      NotUsedSinceItself(ops, a, maxEntries);
    }
  }

  /** Map order is last-use order: of two cached keys one comes after the other exactly when it was used since. */
  lemma OrderIsLastUse<V>(ops: seq<Op<V>>, a: Key, b: Key, maxEntries: nat)
    requires 0 < maxEntries && a in After(ops, maxEntries).vals && b in After(ops, maxEntries).vals
    ensures Precedes(After(ops, maxEntries).keys, a, b) <==> b in UsedSince(ops, a, maxEntries)
  {
    var keys := After(ops, maxEntries).keys;
    AfterValid(ops, maxEntries);
    NotBothUsedSince(ops, a, b, maxEntries);
    if Precedes(keys, a, b) {
      LaterIsUsedSince(ops, a, b, maxEntries);
    } else if a == b {
      NotUsedSinceItself(ops, a, maxEntries);
    } else {
      var i :| 0 <= i < |keys| && keys[i] == a;
      var j :| 0 <= j < |keys| && keys[j] == b;
      assert j < i;
      LaterIsUsedSince(ops, b, a, maxEntries);
    }
  }

  lemma {:induction false} DistinctCount(s: seq<Key>, all: set<Key>)
    requires Distinct(s) && (forall k :: k in s ==> k in all)
    ensures |s| <= |all|
  {
    if s != [] {
      assert s[0] !in s[1..];
      DistinctCount(s[1..], all - {s[0]});
    }
  }

  /** When a `set` pushes out `k`, every key it leaves behind has been used since. */
  lemma PushedOutLast<V>(ops: seq<Op<V>>, op: Op<V>, k: Key, maxEntries: nat, put: Cache<V>)
    requires 0 < maxEntries && op.Set? && op.key != k && WellFormed(put)
    requires put == Put(RemoveAll(After(ops, maxEntries), {op.key}), op.key, EntryOf(op))
    requires |put.keys| > maxEntries && put.keys[0] == k
    ensures maxEntries <= |UsedSince(ops + [op], k, maxEntries)|
  {
    assert (ops + [op])[..|ops|] == ops;
    var later := put.keys[1..];
    forall b | b in later
      ensures b in UsedSince(ops + [op], k, maxEntries)
    {
      var j :| 0 <= j < |later| && later[j] == b;
      assert put.keys[j + 1] == b;
      MovedToEnd(ops, op.key, k, b, maxEntries);
    }
    assert Distinct(later);
    DistinctCount(later, UsedSince(ops + [op], k, maxEntries));
  }

  /** Which key a `set` takes out. */
  lemma PushedOutFirst<V>(c: Cache<V>, op: Op<V>, k: Key, maxEntries: nat)
    requires op.Set? && WellFormed(c) && 0 < maxEntries && k in c.vals && k !in Apply(c, op, maxEntries).vals
    ensures var put := Put(RemoveAll(c, {op.key}), op.key, EntryOf(op));
            WellFormed(put) && op.key != k && |put.keys| > maxEntries && put.keys[0] == k
  {
    JustSetIsCached(c, op, maxEntries);
    RemoveAllValid(c, {op.key});
    PutValid(RemoveAll(c, {op.key}), op.key, EntryOf(op));
    assert k in RemoveAll(c, {op.key}).vals;
  }

  /**
   Capacity alone never evicts a recently used key: a key leaves the cache only
   because it was deleted, invalidated or found expired, or because at least
   `maxEntries` distinct other keys have been used since its own last use.
   */
  lemma EvictionNeedsPressure<V>(ops: seq<Op<V>>, op: Op<V>, k: Key, maxEntries: nat)
    requires 0 < maxEntries
    requires k in After(ops, maxEntries).vals && k !in After(ops + [op], maxEntries).vals
    ensures
      || op == Delete(k)
      || (op.InvalidateTag? && op.tag in After(ops, maxEntries).vals[k].tags)
      || (op.Get? && op.key == k && Expired(After(ops, maxEntries).vals[k], op.now))
      || (op.Set? && op.key != k && k !in UsedSince(ops + [op], k, maxEntries)
          && maxEntries <= |UsedSince(ops + [op], k, maxEntries)|)
  {
    assert (ops + [op])[..|ops|] == ops;
    AfterValid(ops, maxEntries);
    if op.Set? {
      var c := After(ops, maxEntries);
      NotUsedSinceItself(ops + [op], k, maxEntries);
      PushedOutFirst(c, op, k, maxEntries);
      PushedOutLast(ops, op, k, maxEntries, Put(RemoveAll(c, {op.key}), op.key, EntryOf(op)));
    }
  }

  /** No `get` since the last `set` of `k` came after its expiry. */
  ghost predicate ReadInTime<V>(ops: seq<Op<V>>, k: Key) {
    ops == [] ||
    var before, op := ops[..|ops| - 1], ops[|ops| - 1];
    || (op.Set? && op.key == k)
    || (ReadInTime(before, k)
        && (op.Get? && op.key == k && LastSet(before, k).Some? ==> !Expired(LastSet(before, k).value, op.now)))
  }

  lemma JustSetIsCached<V>(c: Cache<V>, op: Op<V>, maxEntries: nat)
    requires op.Set? && WellFormed(c) && 0 < maxEntries
    ensures op.key in Apply(c, op, maxEntries).vals
  {
  }

  /** The converse: until that many other keys have been used, the key is there. */
  lemma {:induction false} RecentKeyIsCached<V>(ops: seq<Op<V>>, k: Key, maxEntries: nat)
    requires 0 < maxEntries && LastSet(ops, k).Some? && ReadInTime(ops, k)
    requires |UsedSince(ops, k, maxEntries)| < maxEntries
    ensures k in After(ops, maxEntries).vals
  {
    var before, op := ops[..|ops| - 1], ops[|ops| - 1];
    var c := After(before, maxEntries);
    assert before + [op] == ops;
    AfterValid(before, maxEntries);
    EntriesAreLastSets(before, maxEntries);
    if op.Set? && op.key == k {
      JustSetIsCached(c, op, maxEntries);
    } else {
      if k !in c.vals {
        assert UsedSince(before, k, maxEntries) <= UsedSince(ops, k, maxEntries);
        SubsetSize(UsedSince(before, k, maxEntries), UsedSince(ops, k, maxEntries));
        RecentKeyIsCached(before, k, maxEntries);
      }
      if k !in After(ops, maxEntries).vals {
        EvictionNeedsPressure(before, op, k, maxEntries);
      }
    }
  }

  lemma SubsetSize(a: set<Key>, b: set<Key>)
    requires a <= b
    ensures |a| <= |b|
  {
    assert a + (b - a) == b;
  }
}
