/**
 The Redis backend (packages/cache-kit/src/backends/redis.ts): values, a set of
 keys per tag, and a set of tags per key, any of whose timed entries Redis may
 drop at any moment. Each pipeline is one atomic update.
 */
module RedisBackend {
  import opened Options
  import opened OrderedMap
  import opened CacheContract
  import LruCache

  /** `mortal` are the keys whose value was last written with a time to live. */
  datatype Keyspace<V> = Keyspace(
    values: map<Key, V>,
    mortal: set<Key>,
    tagSets: TagIndex,
    keyTags: map<Key, set<Tag>>)

  /** `kt:<key>`; a missing Redis set reads as empty. */
  function Listed(keyTags: map<Key, set<Tag>>, k: Key): set<Tag> {
    if k in keyTags then keyTags[k] else {}
  }

  function TagsOf<V>(r: Keyspace<V>, k: Key): set<Tag> {
    Listed(r.keyTags, k)
  }

  function SetOf<T(==)>(s: seq<T>): set<T> {
    set x | x in s
  }

  /** The index whose sets are `members(tag)`, empty ones left out. */
  function IndexOf(tags: set<Tag>, members: Tag -> set<Key>): (index: TagIndex)
    ensures NoEmptySets(index)
  {
    map tag | tag in tags && members(tag) != {} :: members(tag)
  }

  function WithKeyTags(keyTags: map<Key, set<Tag>>, k: Key, tags: set<Tag>): map<Key, set<Tag>> {
    if tags == {} then keyTags - {k} else keyTags[k := tags]
  }

  function AfterSet<V>(r: Keyspace<V>, k: Key, value: V, ttl: bool, tags: set<Tag>): Keyspace<V> {
    Keyspace(
      r.values[k := value],
      if ttl then r.mortal + {k} else r.mortal - {k},
      IndexOf(r.tagSets.Keys + tags,
              tag => if tag in tags then Members(r.tagSets, tag) + {k}
                     else if tag in TagsOf(r, k) then Members(r.tagSets, tag) - {k}
                     else Members(r.tagSets, tag)),
      WithKeyTags(r.keyTags, k, tags))
  }

  function AfterDelete<V>(r: Keyspace<V>, k: Key): Keyspace<V> {
    Keyspace(
      r.values - {k},
      r.mortal - {k},
      IndexOf(r.tagSets.Keys,
              tag => if tag in TagsOf(r, k) then Members(r.tagSets, tag) - {k} else Members(r.tagSets, tag)),
      r.keyTags - {k})
  }

  function AfterInvalidate<V>(r: Keyspace<V>, tag: Tag): Keyspace<V> {
    var gone := Members(r.tagSets, tag);
    if gone == {} then r
    else
      Keyspace(
        r.values - gone,
        r.mortal - gone,
        IndexOf(r.tagSets.Keys - {tag},
                t => set k | k in Members(r.tagSets, t) && !(k in gone && t in TagsOf(r, k))),
        r.keyTags - gone)
  }

  /** A call on the backend, or Redis dropping a value or a key's tag list that had a time to live. */
  datatype Event<V> =
    | Call(op: Op<V>)
    | ValueExpires(key: Key)
    | TagsExpire(key: Key)

  predicate Possible<V>(r: Keyspace<V>, e: Event<V>) {
    e.Call? || e.key in r.mortal
  }

  function Apply<V>(r: Keyspace<V>, e: Event<V>): Keyspace<V> {
    match e
    case Call(Get(_, _)) => r
    case Call(Set(k, value, ttl, tags, _)) => AfterSet(r, k, value, ttl.Some?, SetOf(tags))
    case Call(Delete(k)) => AfterDelete(r, k)
    case Call(InvalidateTag(tag)) => AfterInvalidate(r, tag)
    case ValueExpires(k) => r.(values := r.values - {k})
    case TagsExpire(k) => r.(keyTags := r.keyTags - {k})
  }

  function After<V>(events: seq<Event<V>>): Keyspace<V> {
    if events == [] then Keyspace(map[], {}, map[], map[])
    else Apply(After(events[..|events| - 1]), events[|events| - 1])
  }

  predicate Trace<V>(events: seq<Event<V>>) {
    events == [] ||
    (Trace(events[..|events| - 1]) && Possible(After(events[..|events| - 1]), events[|events| - 1]))
  }

  /** The calls of a trace, without Redis's own expiries. */
  function Ops<V>(events: seq<Event<V>>): seq<Op<V>> {
    if events == [] then []
    else
      var e := events[|events| - 1];
      Ops(events[..|events| - 1]) + (if e.Call? then [e.op] else [])
  }

  function Found<V>(r: Keyspace<V>, k: Key): Option<V> {
    if k in r.values then Some(r.values[k]) else None
  }

  lemma SetMembers<V>(r: Keyspace<V>, k: Key, value: V, ttl: bool, tags: set<Tag>, tag: Tag)
    ensures Members(AfterSet(r, k, value, ttl, tags).tagSets, tag) ==
            if tag in tags then Members(r.tagSets, tag) + {k}
            else if tag in TagsOf(r, k) then Members(r.tagSets, tag) - {k}
            else Members(r.tagSets, tag)
  {
  }

  lemma DeleteMembers<V>(r: Keyspace<V>, k: Key, tag: Tag)
    ensures Members(AfterDelete(r, k).tagSets, tag) ==
            if tag in TagsOf(r, k) then Members(r.tagSets, tag) - {k} else Members(r.tagSets, tag)
  {
  }

  /** `k` is a member of `tag` even after `gone` is invalidated. */
  predicate Survives<V>(r: Keyspace<V>, gone: Tag, tag: Tag, k: Key) {
    tag != gone && k in Members(r.tagSets, tag) && !(k in Members(r.tagSets, gone) && tag in TagsOf(r, k))
  }

  lemma InvalidateMembers<V>(r: Keyspace<V>, gone: Tag, tag: Tag, k: Key)
    ensures k in Members(AfterInvalidate(r, gone).tagSets, tag) <==> Survives(r, gone, tag, k)
  {
  }

  // ----- Tag safety -----

  /** What the trace says `k` holds is what is stored for it, and `k` is in the set of each of its tags. */
  ghost predicate KeySafe<V>(r: Keyspace<V>, last: Option<Entry<V>>, k: Key) {
    && (k in r.values || k in r.keyTags ==>
          last.Some? && forall tag :: tag in last.value.tags ==> k in Members(r.tagSets, tag))
    && (k in r.values ==> r.values[k] == last.value.value)
    && (k in r.keyTags ==> r.keyTags[k] == SetOf(last.value.tags))
  }

  lemma CallKeepsKeySafe<V>(r: Keyspace<V>, ops: seq<Op<V>>, op: Op<V>, k: Key)
    requires KeySafe(r, LastSet(ops, k), k)
    ensures KeySafe(Apply(r, Call(op)), LastSet(ops + [op], k), k)
  {
    assert (ops + [op])[..|ops|] == ops;
    var t := Apply(r, Call(op));
    match op
    case Get(_, _) =>
    case Set(key, value, ttl, tags, _) =>
      forall tag
        ensures tag in tags && key == k ==> k in Members(t.tagSets, tag)
        ensures key != k && k in Members(r.tagSets, tag) ==> k in Members(t.tagSets, tag)
      {
        SetMembers(r, key, value, ttl.Some?, SetOf(tags), tag);
      }
    case Delete(key) =>
      forall tag
        ensures key != k && k in Members(r.tagSets, tag) ==> k in Members(t.tagSets, tag)
      {
        DeleteMembers(r, key, tag);
      }
    case InvalidateTag(gone) =>
      forall tag
        ensures tag != gone && k !in Members(r.tagSets, gone) && k in Members(r.tagSets, tag) ==>
                  k in Members(t.tagSets, tag)
      {
        InvalidateMembers(r, gone, tag, k);
      }
  }

  lemma {:induction false} TraceIsSafe<V>(events: seq<Event<V>>, k: Key)
    ensures KeySafe(After(events), LastSet(Ops(events), k), k)
  {
    if events != [] {
      var before, e := events[..|events| - 1], events[|events| - 1];
      TraceIsSafe(before, k);
      if e.Call? {
        CallKeepsKeySafe(After(before), Ops(before), e.op, k);
      } else {
        assert Ops(events) == Ops(before);
      }
    }
  }

  /** Every hit returns the last value set and not deleted or invalidated since, whatever expired meanwhile. */
  lemma HitIsLastSet<V>(events: seq<Event<V>>, k: Key)
    requires Found(After(events), k).Some?
    ensures LastSet(Ops(events), k).Some? && LastSet(Ops(events), k).value.value == Found(After(events), k).value
  {
    TraceIsSafe(events, k);
  }

  /** `invalidateTag` leaves no live value that was written with the tag. */
  lemma InvalidateLeavesNone<V>(events: seq<Event<V>>, tag: Tag, k: Key)
    requires LastSet(Ops(events), k).Some? && tag in LastSet(Ops(events), k).value.tags
    ensures Found(Apply(After(events), Call(InvalidateTag(tag))), k).None?
  {
    TraceIsSafe(events, k);
  }

  // ----- Exactness: both indexes agree with the trace when nothing expires -----

  ghost predicate KeyExact<V>(r: Keyspace<V>, last: Option<Entry<V>>, k: Key) {
    && (k in r.values <==> last.Some?)
    && (last.Some? ==> r.values[k] == last.value.value)
    && TagsOf(r, k) == (if last.Some? then SetOf(last.value.tags) else {})
    && (forall tag :: k in Members(r.tagSets, tag) <==> tag in TagsOf(r, k))
    && k !in r.mortal
  }

  lemma SetKeepsKeyExact<V>(r: Keyspace<V>, key: Key, value: V, tags: seq<Tag>, last: Option<Entry<V>>, k: Key)
    requires KeyExact(r, last, k)
    ensures KeyExact(AfterSet(r, key, value, false, SetOf(tags)),
                     if key == k then Some(Entry(value, None, tags)) else last, k)
  {
    var t := AfterSet(r, key, value, false, SetOf(tags));
    assert TagsOf(t, k) == if key == k then SetOf(tags) else TagsOf(r, k);
    forall tag
      ensures k in Members(t.tagSets, tag) <==> tag in TagsOf(t, k)
    {
      SetMembers(r, key, value, false, SetOf(tags), tag);
    }
  }

  lemma DeleteKeepsKeyExact<V>(r: Keyspace<V>, key: Key, last: Option<Entry<V>>, k: Key)
    requires KeyExact(r, last, k)
    ensures KeyExact(AfterDelete(r, key), if key == k then None else last, k)
  {
  }

  lemma InvalidateKeepsKeyExact<V>(r: Keyspace<V>, gone: Tag, last: Option<Entry<V>>, k: Key)
    requires KeyExact(r, last, k)
    ensures KeyExact(AfterInvalidate(r, gone), if last.Some? && gone in last.value.tags then None else last, k)
  {
  }

  lemma CallKeepsKeyExact<V>(r: Keyspace<V>, ops: seq<Op<V>>, op: Op<V>, k: Key)
    requires KeyExact(r, LastSet(ops, k), k) && (op.Set? ==> op.ttlMs.None?)
    ensures KeyExact(Apply(r, Call(op)), LastSet(ops + [op], k), k)
  {
    assert (ops + [op])[..|ops|] == ops;
    match op
    case Get(_, _) =>
    case Set(key, value, _, tags, _) => SetKeepsKeyExact(r, key, value, tags, LastSet(ops, k), k);
    case Delete(key) => DeleteKeepsKeyExact(r, key, LastSet(ops, k), k);
    case InvalidateTag(gone) => InvalidateKeepsKeyExact(r, gone, LastSet(ops, k), k);
  }

  ghost predicate Timeless<V>(events: seq<Event<V>>) {
    forall e :: e in events && e.Call? && e.op.Set? ==> e.op.ttlMs.None?
  }

  /**
   On a trace without times to live, a key is readable exactly when the trace
   says so, and `t:` and `kt:` are exact inverses of each other.
   */
  lemma {:induction false} TimelessIsExact<V>(events: seq<Event<V>>, k: Key)
    requires Trace(events) && Timeless(events)
    ensures KeyExact(After(events), LastSet(Ops(events), k), k)
  {
    if events != [] {
      var before, e := events[..|events| - 1], events[|events| - 1];
      assert forall x :: x in before ==> x in events;
      if e.Call? {
        TimelessIsExact(before, k);
        CallKeepsKeyExact(After(before), Ops(before), e.op, k);
      } else {
        TimelessIsExact(before, e.key);
      }
    }
  }

  /** Such a trace reads the same from a memory backend that has not run out of room. */
  lemma AgreesWithMemory<V>(events: seq<Event<V>>, k: Key, now: int, maxEntries: nat)
    requires Trace(events) && Timeless(events) && 0 < maxEntries
    requires |LruCache.UsedSince(Ops(events), k, maxEntries)| < maxEntries
    ensures Found(After(events), k) == LruCache.Found(LruCache.After(Ops(events), maxEntries), k, now)
  {
    TimelessIsExact(events, k);
    LruCache.EntriesAreLastSets(Ops(events), maxEntries);
    TimelessReads(events, k);
    if LastSet(Ops(events), k).Some? {
      LruCache.RecentKeyIsCached(Ops(events), k, maxEntries);
    }
  }

  lemma TimelessRead<V>(ops: seq<Op<V>>, op: Op<V>, k: Key)
    requires LruCache.ReadInTime(ops, k) && (op.Set? ==> op.ttlMs.None?)
    requires LastSet(ops, k).Some? ==> LastSet(ops, k).value.expiresAt.None?
    ensures LruCache.ReadInTime(ops + [op], k)
    ensures LastSet(ops + [op], k).Some? ==> LastSet(ops + [op], k).value.expiresAt.None?
  {
    assert (ops + [op])[..|ops|] == ops && (ops + [op])[|ops|] == op;
  }

  lemma {:induction false} TimelessReads<V>(events: seq<Event<V>>, k: Key)
    requires Timeless(events)
    ensures LruCache.ReadInTime(Ops(events), k)
    ensures LastSet(Ops(events), k).Some? ==> LastSet(Ops(events), k).value.expiresAt.None?
  {
    if events != [] {
      var before, e := events[..|events| - 1], events[|events| - 1];
      assert forall x :: x in before ==> x in events;
      TimelessReads(before, k);
      assert e in events;
      if e.Call? {
        TimelessRead(Ops(before), e.op, k);
        assert Ops(events) == Ops(before) + [e.op];
      } else {
        assert Ops(events) == Ops(before);
      }
    }
  }

  // ----- Where expiry does leave a trace -----

  /**
   Setting a key leaves it in exactly the sets of its new tags if and only if
   every other set it was in is still listed in its own tag list.
   */
  lemma SetCleansIffListed<V>(r: Keyspace<V>, k: Key, value: V, ttl: bool, tags: set<Tag>)
    ensures (forall tag :: k in Members(AfterSet(r, k, value, ttl, tags).tagSets, tag) <==> tag in tags) <==>
            (forall tag :: k in Members(r.tagSets, tag) && tag !in tags ==> tag in TagsOf(r, k))
  {
  }

  lemma Extend<V>(events: seq<Event<V>>, e: Event<V>)
    ensures After(events + [e]) == Apply(After(events), e)
    ensures Trace(events + [e]) <==> Trace(events) && Possible(After(events), e)
    ensures Ops(events + [e]) == Ops(events) + (if e.Call? then [e.op] else [])
    ensures e.Call? ==> forall k :: LastSet(Ops(events + [e]), k) == LastSet(Ops(events) + [e.op], k)
  {
  }

  /** It happens: a tagged value expires, its key is set again untagged, and the old tag still deletes it. */
  lemma StaleMembershipDeletes() returns (events: seq<Event<int>>)
    ensures Trace(events)
    ensures LastSet(Ops(events), "k") == Some(Entry(2, None, []))
    ensures Found(After(events), "k") == Some(2)
    ensures Found(Apply(After(events), Call(InvalidateTag("t"))), "k").None?
  {
    var none: seq<Event<int>> := [];
    var e1 := Call(Set("k", 1, Some(5), ["t"], 0));
    Extend(none, e1);
    var r1 := After(none + [e1]);
    SetMembers(After(none), "k", 1, true, SetOf(["t"]), "t");
    assert "t" in SetOf(["t"]);
    assert "k" in Members(r1.tagSets, "t") && "k" in r1.mortal;
    Extend(none + [e1], ValueExpires("k"));
    var two := none + [e1] + [ValueExpires("k")];
    Extend(two, TagsExpire("k"));
    var three := two + [TagsExpire("k")];
    var r3 := After(three);
    assert r3.tagSets == r1.tagSets && TagsOf(r3, "k") == {};
    var e4 := Call(Set("k", 2, None, [], 9));
    Extend(three, e4);
    SetMembers(r3, "k", 2, false, SetOf([]), "t");
    events := three + [e4];
    assert Ops(events)[|Ops(events)| - 1] == e4.op;
  }

  // ----- The backend as it is written -----

  lemma SetIndex<V>(
    r: Keyspace<V>, k: Key, value: V, ttl: bool, tags: seq<Tag>, cleaned: TagIndex, index: TagIndex)
    requires NoEmptySets(index)
    requires forall tag :: Members(cleaned, tag) ==
                           if tag in TagsOf(r, k) && tag !in tags then Members(r.tagSets, tag) - {k}
                           else Members(r.tagSets, tag)
    requires forall tag :: Members(index, tag) ==
                           if tag in tags then Members(cleaned, tag) + {k} else Members(cleaned, tag)
    ensures index == AfterSet(r, k, value, ttl, SetOf(tags)).tagSets
  {
    var t := AfterSet(r, k, value, ttl, SetOf(tags));
    forall tag
      ensures Members(index, tag) == Members(t.tagSets, tag)
    {
      SetMembers(r, k, value, ttl, SetOf(tags), tag);
    }
    SameMembers(index, t.tagSets);
  }

  lemma InvalidateIndex<V>(r: Keyspace<V>, tag: Tag, index: TagIndex)
    requires NoEmptySets(index) && NoEmptySets(r.tagSets) && Members(r.tagSets, tag) != {}
    requires forall t, k :: k in Members(index, t) <==> Survives(r, tag, t, k)
    ensures index == AfterInvalidate(r, tag).tagSets
  {
    var after := AfterInvalidate(r, tag).tagSets;
    forall t
      ensures Members(index, t) == Members(after, t)
    {
      InvalidateSet(r, tag, t, Members(index, t));
    }
    SameMembers(index, after);
  }

  /** What the queued removals leave of the sets, and the deletion of the set itself. */
  lemma QueuedSurvive<V>(r: Keyspace<V>, gone: Tag, queued: TagIndex)
    requires forall t, k :: k in Members(queued, t) <==>
                            k in Members(r.tagSets, t) && !(k in Members(r.tagSets, gone) && t in Listed(r.keyTags, k))
    ensures forall t, k :: k in Members(queued - {gone}, t) <==> Survives(r, gone, t, k)
  {
    forall t, k
      ensures k in Members(queued - {gone}, t) <==> Survives(r, gone, t, k)
    {
      assert Members(queued - {gone}, t) == if t == gone then {} else Members(queued, t);
      assert TagsOf(r, k) == Listed(r.keyTags, k);
    }
  }

  lemma InvalidateSet<V>(r: Keyspace<V>, gone: Tag, tag: Tag, members: set<Key>)
    requires forall k :: k in members <==> Survives(r, gone, tag, k)
    ensures members == Members(AfterInvalidate(r, gone).tagSets, tag)
  {
    forall k
      ensures k in members <==> k in Members(AfterInvalidate(r, gone).tagSets, tag)
    {
      InvalidateMembers(r, gone, tag, k);
    }
  }

  class RedisBackend<V> {
    var values: map<Key, V>
    var mortal: set<Key>
    var tagSets: TagIndex
    var keyTags: map<Key, set<Tag>>

    function Space(): Keyspace<V>
      reads this
    {
      Keyspace(values, mortal, tagSets, keyTags)
    }

    constructor ()
      ensures Space() == After([]) && NoEmptySets(tagSets)
    {
      values, mortal, tagSets, keyTags := map[], {}, map[], map[];
    }

    /** Queue an SREM of `key` for each of `tags`; `queued` are the tag sets the pipeline will leave. */
    method QueueRemovals(key: Key, tags: set<Tag>, index: TagIndex) returns (queued: TagIndex)
      requires NoEmptySets(index)
      ensures NoEmptySets(queued)
      ensures forall tag :: Members(queued, tag) ==
                            if tag in tags then Members(index, tag) - {key} else Members(index, tag)
    {
      queued := index;
      var todo := tags;
      while todo != {}
        invariant todo <= tags && NoEmptySets(queued)
        invariant forall tag :: Members(queued, tag) ==
                                if tag in tags - todo then Members(index, tag) - {key} else Members(index, tag)
        decreases todo
      {
        var tag :| tag in todo;
        queued := Dropped(queued, tag, key);
        todo := todo - {tag};
      }
    }

    /** Queue an SADD of `key` for each of `tags`. */
    method QueueAdditions(key: Key, tags: seq<Tag>, index: TagIndex) returns (queued: TagIndex)
      requires NoEmptySets(index)
      ensures NoEmptySets(queued)
      ensures forall tag :: Members(queued, tag) ==
                            if tag in tags then Members(index, tag) + {key} else Members(index, tag)
    {
      queued := index;
      for i := 0 to |tags|
        invariant NoEmptySets(queued)
        invariant forall tag :: Members(queued, tag) ==
                                if tag in tags[..i] then Members(index, tag) + {key} else Members(index, tag)
      {
        queued := Added(queued, tags[i], key);
      }
    }

    /** The tag sets a `set` leaves: out of the tags no longer carried, into the new ones. */
    method QueueTags(key: Key, value: V, ttl: bool, tags: seq<Tag>) returns (queued: TagIndex)
      requires NoEmptySets(tagSets)
      ensures queued == AfterSet(Space(), key, value, ttl, SetOf(tags)).tagSets
    {
      var previous := TagsOf(Space(), key);
      var stale := set tag | tag in previous && tag !in tags;
      var cleaned := QueueRemovals(key, stale, tagSets);
      queued := QueueAdditions(key, tags, cleaned);
      SetIndex(Space(), key, value, ttl, tags, cleaned, queued);
    }

    method Set(key: Key, value: V, ttlMs: Option<int>, tags: seq<Tag>)
      requires NoEmptySets(tagSets)
      modifies this
      ensures NoEmptySets(tagSets)
      ensures Space() == AfterSet(old(Space()), key, value, ttlMs.Some?, SetOf(tags))
    {
      var queued := QueueTags(key, value, ttlMs.Some?, tags);
      values := values[key := value];
      mortal := if ttlMs.Some? then mortal + {key} else mortal - {key};
      keyTags := keyTags - {key};
      if |tags| > 0 {
        assert tags[0] in SetOf(tags);
        keyTags := keyTags[key := SetOf(tags)];
      }
      tagSets := queued;
      assert keyTags == WithKeyTags(old(keyTags), key, SetOf(tags));
    }

    method Delete(key: Key)
      requires NoEmptySets(tagSets)
      modifies this
      ensures NoEmptySets(tagSets)
      ensures Space() == AfterDelete(old(Space()), key)
    {
      var queued := QueueRemovals(key, TagsOf(Space(), key), tagSets);
      forall tag
        ensures Members(queued, tag) == Members(AfterDelete(Space(), key).tagSets, tag)
      {
        DeleteMembers(Space(), key, tag);
      }
      SameMembers(queued, AfterDelete(Space(), key).tagSets);
      values, mortal, keyTags, tagSets := values - {key}, mortal - {key}, keyTags - {key}, queued;
    }

    /** Queue, for each of `members`, its removal from every tag it lists. */
    method QueueMembers(members: set<Key>, lists: map<Key, set<Tag>>, index: TagIndex) returns (queued: TagIndex)
      requires NoEmptySets(index)
      ensures NoEmptySets(queued)
      ensures forall t, k :: k in Members(queued, t) <==>
                             k in Members(index, t) && !(k in members && t in Listed(lists, k))
    {
      queued := index;
      var todo := members;
      while todo != {}
        invariant todo <= members && NoEmptySets(queued)
        invariant forall t, k {:trigger k in Members(queued, t)} :: k in Members(queued, t) <==>
                                 k in Members(index, t) && !(k in members && k !in todo && t in Listed(lists, k))
        decreases todo
      {
        var key :| key in todo;
        queued := QueueRemovals(key, Listed(lists, key), queued);
        todo := todo - {key};
      }
    }

    method InvalidateTag(tag: Tag)
      requires NoEmptySets(tagSets)
      modifies this
      ensures NoEmptySets(tagSets)
      ensures Space() == AfterInvalidate(old(Space()), tag)
    {
      var members := Members(tagSets, tag);
      if members == {} {
        return;
      }
      var queued := QueueMembers(members, keyTags, tagSets);
      QueuedSurvive(Space(), tag, queued);
      queued := queued - {tag};
      InvalidateIndex(Space(), tag, queued);
      values, mortal, keyTags, tagSets := values - members, mortal - members, keyTags - members, queued;
    }
  }
}
