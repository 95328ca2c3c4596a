/**
 Fed the same operations, a smaller cache is always the larger one with some
 entries missing: giving the backend more room never loses a hit.
 */
module LruInclusion {
  import opened OrderedMap
  import opened CacheContract
  import opened LruCache

  function Extra<V>(small: Cache<V>, large: Cache<V>): set<Key> {
    large.vals.Keys - small.vals.Keys
  }

  /** `small` is an order-preserving sublist of `large`, with the same contents. */
  ghost predicate Included<V>(small: Cache<V>, large: Cache<V>) {
    && small.keys == Without(large.keys, Extra(small, large))
    && (forall k :: k in small.vals ==> k in large.vals && small.vals[k] == large.vals[k])
  }

  lemma ExtraRemoved<V>(small: Cache<V>, large: Cache<V>, gone: set<Key>)
    requires small.vals.Keys <= large.vals.Keys
    ensures Extra(RemoveAll(small, gone), RemoveAll(large, gone)) == Extra(small, large) - gone
  {
  }

  lemma RemoveFromBoth<V>(small: Cache<V>, large: Cache<V>, gone: set<Key>)
    requires WellFormed(large) && Included(small, large)
    ensures Included(RemoveAll(small, gone), RemoveAll(large, gone))
    ensures Extra(RemoveAll(small, gone), RemoveAll(large, gone)) <= Extra(small, large)
  {
    var extra := Extra(small, large);
    ExtraRemoved(small, large, gone);
    WithoutTwice(large.keys, extra, gone);
    WithoutTwice(large.keys, gone, extra - gone);
    assert extra + gone == gone + (extra - gone);
  }

  lemma RemoveFromSmall<V>(small: Cache<V>, large: Cache<V>, gone: set<Key>)
    requires WellFormed(large) && Included(small, large)
    ensures Included(RemoveAll(small, gone), large)
  {
    var s := RemoveAll(small, gone);
    WithoutTwice(large.keys, Extra(small, large), gone);
    WithoutSame(large.keys, Extra(small, large) + gone, Extra(s, large));
  }

  lemma RemoveFromLarge<V>(small: Cache<V>, large: Cache<V>, gone: set<Key>)
    requires WellFormed(large) && Included(small, large) && gone !! small.vals.Keys
    ensures Included(small, RemoveAll(large, gone))
  {
    var l := RemoveAll(large, gone);
    WithoutTwice(large.keys, gone, Extra(small, l));
    WithoutSame(large.keys, Extra(small, large), gone + Extra(small, l));
  }

  lemma WithoutAppend(s: seq<Key>, k: Key, gone: set<Key>)
    requires k !in gone
    ensures Without(s + [k], gone) == Without(s, gone) + [k]
  {
    WithoutConcat(s, [k], gone);
    WithoutNothing([k], gone);
  }

  lemma AppendToBoth<V>(small: Cache<V>, large: Cache<V>, k: Key, e: Entry<V>)
    requires WellFormed(large) && Included(small, large) && k !in large.vals
    ensures Included(Put(small, k, e), Put(large, k, e))
    ensures Extra(Put(small, k, e), Put(large, k, e)) == Extra(small, large)
  {
    var extra := Extra(small, large);
    assert k !in small.vals && k !in extra;
    WithoutAppend(large.keys, k, extra);
    var s, l := Put(small, k, e), Put(large, k, e);
    assert s.keys == Without(l.keys, extra);
    assert Extra(s, l) == extra by {
      assert forall x :: x in Extra(s, l) <==> x in extra;
    }
  }

  lemma AppendToLarge<V>(small: Cache<V>, large: Cache<V>, k: Key, e: Entry<V>)
    requires WellFormed(large) && Included(small, large) && k !in large.vals
    ensures Included(small, Put(large, k, e))
  {
    WithoutConcat(large.keys, [k], Extra(small, Put(large, k, e)));
    WithoutSame(large.keys, Extra(small, large), Extra(small, Put(large, k, e)));
  }

  lemma Counts<V>(small: Cache<V>, large: Cache<V>)
    requires WellFormed(small) && WellFormed(large) && Included(small, large)
    ensures |Extra(small, large)| == |large.keys| - |small.keys|
  {
    SeqCount(small.keys, small.vals.Keys);
    SeqCount(large.keys, large.vals.Keys);
    DifferenceSize(small.vals.Keys, large.vals.Keys);
  }

  lemma DifferenceSize(a: set<Key>, b: set<Key>)
    requires a <= b
    ensures |b - a| == |b| - |a|
  {
  }

  lemma {:induction false} SeqCount(s: seq<Key>, all: set<Key>)
    requires Distinct(s) && (forall k :: k in s <==> k in all)
    ensures |s| == |all|
  {
    if s == [] {
      assert all == {};
    } else {
      assert s[0] !in s[1..];
      SeqCount(s[1..], all - {s[0]});
    }
  }

  /** The trimming step, where the capacities differ. */
  lemma TrimKeepsInclusion<V>(small: Cache<V>, large: Cache<V>, n: nat, m: nat)
    requires WellFormed(small) && WellFormed(large) && Included(small, large)
    requires n <= m && |small.keys| <= n + 1 && |large.keys| <= m + 1 && |Extra(small, large)| <= m - n
    ensures Included(Trimmed(small, n), Trimmed(large, m))
    ensures |Extra(Trimmed(small, n), Trimmed(large, m))| <= m - n
  {
    Counts(small, large);
    if |large.keys| > m {
      var first := large.keys[0];
      if first in small.vals {
        assert small.keys[0] == first;
        RemoveFromBoth(small, large, {first});
      } else {
        RemoveFromLarge(small, large, {first});
        if |small.keys| > n {
          RemoveAllValid(large, {first});
          RemoveFromSmall(small, RemoveAll(large, {first}), {small.keys[0]});
        }
      }
    } else if |small.keys| > n {
      RemoveFromSmall(small, large, {small.keys[0]});
    }
    TrimmedValid(small, n);
    TrimmedValid(large, m);
    Counts(Trimmed(small, n), Trimmed(large, m));
  }

  lemma TrimmedValid<V>(c: Cache<V>, maxEntries: nat)
    requires WellFormed(c) && |c.keys| <= maxEntries + 1
    ensures WellFormed(Trimmed(c, maxEntries))
    ensures |Trimmed(c, maxEntries).keys| == if |c.keys| > maxEntries then maxEntries else |c.keys|
  {
    if |c.keys| > maxEntries {
      RemoveAllValid(c, {c.keys[0]});
      WithoutOne(c.keys, c.keys[0]);
    }
  }

  /** What makes inclusion last: the larger cache is ahead by no more than the difference in capacity. */
  ghost predicate Ahead<V>(small: Cache<V>, large: Cache<V>, n: nat, m: nat) {
    && WellFormed(small) && |small.keys| <= n
    && WellFormed(large) && |large.keys| <= m
    && Included(small, large)
    && |Extra(small, large)| <= m - n
  }

  lemma SetKeepsInclusion<V>(small: Cache<V>, large: Cache<V>, op: Op<V>, n: nat, m: nat)
    requires Ahead(small, large, n, m) && op.Set?
    ensures Included(Apply(small, op, n), Apply(large, op, m))
    ensures |Extra(Apply(small, op, n), Apply(large, op, m))| <= m - n
  {
    var k, e := op.key, EntryOf(op);
    RemoveFromBoth(small, large, {k});
    SubsetSize(Extra(RemoveAll(small, {k}), RemoveAll(large, {k})), Extra(small, large));
    RemoveAllValid(small, {k});
    RemoveAllValid(large, {k});
    AppendToBoth(RemoveAll(small, {k}), RemoveAll(large, {k}), k, e);
    PutValid(RemoveAll(small, {k}), k, e);
    PutValid(RemoveAll(large, {k}), k, e);
    TrimKeepsInclusion(Put(RemoveAll(small, {k}), k, e), Put(RemoveAll(large, {k}), k, e), n, m);
  }

  lemma TouchBoth<V>(small: Cache<V>, large: Cache<V>, k: Key)
    requires WellFormed(large) && Included(small, large) && k in small.vals
    ensures Included(Touched(small, k), Touched(large, k))
    ensures Extra(Touched(small, k), Touched(large, k)) <= Extra(small, large)
  {
    RemoveAllValid(large, {k});
    RemoveFromBoth(small, large, {k});
    AppendToBoth(RemoveAll(small, {k}), RemoveAll(large, {k}), k, large.vals[k]);
  }

  lemma TouchLarge<V>(small: Cache<V>, large: Cache<V>, k: Key)
    requires WellFormed(large) && Included(small, large) && k !in small.vals && k in large.vals
    ensures Included(small, Touched(large, k))
    ensures Extra(small, Touched(large, k)) <= Extra(small, large)
  {
    RemoveAllValid(large, {k});
    RemoveFromLarge(small, large, {k});
    AppendToLarge(small, RemoveAll(large, {k}), k, large.vals[k]);
  }

  lemma GetKeepsInclusion<V>(small: Cache<V>, large: Cache<V>, op: Op<V>, n: nat, m: nat)
    requires Ahead(small, large, n, m) && op.Get?
    ensures Included(Apply(small, op, n), Apply(large, op, m))
    ensures |Extra(Apply(small, op, n), Apply(large, op, m))| <= m - n
  {
    var k := op.key;
    if k in large.vals {
      if Expired(large.vals[k], op.now) {
        if k in small.vals {
          RemoveFromBoth(small, large, {k});
        } else {
          RemoveFromLarge(small, large, {k});
        }
      } else if k in small.vals {
        TouchBoth(small, large, k);
      } else {
        TouchLarge(small, large, k);
      }
    }
    SubsetSize(Extra(Apply(small, op, n), Apply(large, op, m)), Extra(small, large));
  }

  lemma InvalidateKeepsInclusion<V>(small: Cache<V>, large: Cache<V>, tag: Tag)
    requires WellFormed(small) && WellFormed(large) && Included(small, large)
    ensures Included(RemoveAll(small, TaggedKeys(small, tag)), RemoveAll(large, TaggedKeys(large, tag)))
    ensures Extra(RemoveAll(small, TaggedKeys(small, tag)), RemoveAll(large, TaggedKeys(large, tag)))
            <= Extra(small, large)
  {
    var gone := TaggedKeys(large, tag);
    RemoveFromBoth(small, large, gone);
    WithoutSame(small.keys, TaggedKeys(small, tag), gone);
    assert small.vals - TaggedKeys(small, tag) == small.vals - gone;
  }

  lemma StepKeepsInclusion<V>(small: Cache<V>, large: Cache<V>, op: Op<V>, n: nat, m: nat)
    requires Ahead(small, large, n, m)
    ensures Included(Apply(small, op, n), Apply(large, op, m))
    ensures |Extra(Apply(small, op, n), Apply(large, op, m))| <= m - n
  {
    match op
    case Get(_, _) => GetKeepsInclusion(small, large, op, n, m);
    case Set(_, _, _, _, _) => SetKeepsInclusion(small, large, op, n, m);
    case Delete(k) =>
      RemoveFromBoth(small, large, {k});
      SubsetSize(Extra(RemoveAll(small, {k}), RemoveAll(large, {k})), Extra(small, large));
    case InvalidateTag(tag) =>
      InvalidateKeepsInclusion(small, large, tag);
      SubsetSize(Extra(Apply(small, op, n), Apply(large, op, m)), Extra(small, large));
  }

  lemma {:induction false} RunsStayIncluded<V>(ops: seq<Op<V>>, n: nat, m: nat)
    requires 0 < n <= m
    ensures Ahead(After(ops, n), After(ops, m), n, m)
  {
    AfterValid(ops, n);
    AfterValid(ops, m);
    if ops != [] {
      var before, op := ops[..|ops| - 1], ops[|ops| - 1];
      RunsStayIncluded(before, n, m);
      StepKeepsInclusion(After(before, n), After(before, m), op, n, m);
    }
  }

  /**
   After any trace, the entries of the cache of capacity `n` are an
   order-preserving sublist of those of the cache of capacity `m`, and every hit
   in the smaller one is the same hit in the larger one.
   */
  lemma MoreRoomLosesNoHit<V>(ops: seq<Op<V>>, n: nat, m: nat, k: Key, now: int)
    requires 0 < n <= m
    ensures Included(After(ops, n), After(ops, m))
    ensures Found(After(ops, n), k, now).Some? ==> Found(After(ops, m), k, now) == Found(After(ops, n), k, now)
  {
    RunsStayIncluded(ops, n, m);
  }
}
