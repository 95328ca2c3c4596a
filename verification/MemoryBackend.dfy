/**
 The in-memory backend as it is written (packages/cache-kit/src/backends/memory.ts):
 an ordered map of entries, and a reverse index from each tag to the keys carrying it.
 */
module MemoryBackend {
  import opened Options
  import opened OrderedMap
  import opened CacheContract
  import opened LruCache

  /** The index is exactly the inverse of the entries' tags. */
  ghost predicate Inverse<V>(index: TagIndex, vals: map<Key, Entry<V>>) {
    forall tag, k :: k in Members(index, tag) <==> k in vals && tag in vals[k].tags
  }

  lemma InvalidatedTagIsGone<V>(index: TagIndex, c: Cache<V>, tag: Tag)
    requires Inverse(index, RemoveAll(c, TaggedKeys(c, tag)).vals)
    ensures Members(index, tag) == {}
  {
    var left := RemoveAll(c, TaggedKeys(c, tag)).vals;
    assert Members(index, tag) <= TaggedKeys(RemoveAll(c, TaggedKeys(c, tag)), tag) == {};
  }

  class MemoryBackend<V> {
    const maxEntries: nat
    var keys: seq<Key>
    var vals: map<Key, Entry<V>>
    var tagIndex: TagIndex

    ghost predicate Valid()
      reads this
    {
      && 0 < maxEntries
      && WellFormed(Store()) && |keys| <= maxEntries
      && NoEmptySets(tagIndex) && Inverse(tagIndex, vals)
    }

    ghost function Store(): Cache<V>
      reads this
    {
      OrderedMap(keys, vals)
    }

    /** The original refuses a capacity below one. */
    constructor (maxEntries: nat := 500)
      requires 0 < maxEntries
      ensures Valid() && this.maxEntries == maxEntries && Store() == After([], maxEntries)
    {
      this.maxEntries := maxEntries;
      keys, vals, tagIndex := [], map[], map[];
    }

    method Untag(key: Key, tags: seq<Tag>)
      requires NoEmptySets(tagIndex)
      modifies this`tagIndex
      ensures NoEmptySets(tagIndex)
      ensures forall tag :: Members(tagIndex, tag) ==
                            if tag in tags then Members(old(tagIndex), tag) - {key} else Members(old(tagIndex), tag)
    {
      for i := 0 to |tags|
        invariant NoEmptySets(tagIndex)
        invariant forall tag :: Members(tagIndex, tag) ==
                                 if tag in tags[..i] then Members(old(tagIndex), tag) - {key}
                                 else Members(old(tagIndex), tag)
      {
        // A repeated tag may already have emptied and removed its set.
        tagIndex := Dropped(tagIndex, tags[i], key);
      }
    }

    method RemoveKey(key: Key)
      requires WellFormed(Store()) && NoEmptySets(tagIndex) && Inverse(tagIndex, vals)
      modifies this`keys, this`vals, this`tagIndex
      ensures WellFormed(Store()) && NoEmptySets(tagIndex) && Inverse(tagIndex, vals)
      ensures Store() == RemoveAll(old(Store()), {key})
    {
      if key !in vals {
        WithoutNothing(keys, {key});
        return;
      }
      var entry := vals[key];
      RemoveAllValid(Store(), {key});
      keys, vals := Without(keys, {key}), vals - {key};
      Untag(key, entry.tags);
    }

    method Touch(key: Key, entry: Entry<V>)
      requires WellFormed(Store()) && key in vals && vals[key] == entry
      modifies this`keys, this`vals
      ensures WellFormed(Store()) && Store() == Touched(old(Store()), key) && vals == old(vals)
    {
      RemoveAllValid(Store(), {key});
      keys, vals := Without(keys, {key}), vals - {key};
      keys, vals := keys + [key], vals[key := entry];
    }

    method Get(key: Key, now: int) returns (hit: Option<V>)
      requires Valid()
      modifies this`keys, this`vals, this`tagIndex
      ensures Valid()
      ensures hit == Found(old(Store()), key, now)
      ensures Store() == Apply(old(Store()), CacheContract.Get(key, now), maxEntries)
    {
      ApplyValid(Store(), CacheContract.Get(key, now), maxEntries);
      if key !in vals {
        return None;
      }
      var entry := vals[key];
      if Expired(entry, now) {
        RemoveKey(key);
        return None;
      }
      Touch(key, entry);
      hit := Some(entry.value);
    }

    method AddTags(key: Key, tags: seq<Tag>)
      requires NoEmptySets(tagIndex)
      modifies this`tagIndex
      ensures NoEmptySets(tagIndex)
      ensures forall tag :: Members(tagIndex, tag) ==
                            if tag in tags then Members(old(tagIndex), tag) + {key} else Members(old(tagIndex), tag)
    {
      for i := 0 to |tags|
        invariant NoEmptySets(tagIndex)
        invariant forall tag :: Members(tagIndex, tag) ==
                                 if tag in tags[..i] then Members(old(tagIndex), tag) + {key}
                                 else Members(old(tagIndex), tag)
      {
        tagIndex := Added(tagIndex, tags[i], key);
      }
    }

    /** Store a key that is not there, last, and index its tags. */
    method Insert(key: Key, entry: Entry<V>)
      requires WellFormed(Store()) && NoEmptySets(tagIndex) && Inverse(tagIndex, vals) && key !in vals
      modifies this`keys, this`vals, this`tagIndex
      ensures WellFormed(Store()) && NoEmptySets(tagIndex) && Inverse(tagIndex, vals)
      ensures Store() == Put(old(Store()), key, entry)
    {
      PutValid(Store(), key, entry);
      keys, vals := keys + [key], vals[key := entry];
      AddTags(key, entry.tags);
    }

    method Set(key: Key, value: V, ttlMs: Option<int>, tags: seq<Tag>, now: int)
      requires Valid()
      modifies this`keys, this`vals, this`tagIndex
      ensures Valid()
      ensures Store() == Apply(old(Store()), CacheContract.Set(key, value, ttlMs, tags, now), maxEntries)
    {
      ghost var before, op := Store(), CacheContract.Set(key, value, ttlMs, tags, now);
      ApplyValid(before, op, maxEntries);
      RemoveKey(key);
      var entry := Entry(value, if ttlMs.None? then None else Some(now + ttlMs.value), tags);
      assert entry == EntryOf(op);
      Insert(key, entry);
      ghost var put := Store();
      assert put == Put(RemoveAll(before, {key}), key, EntryOf(op));
      if |keys| > maxEntries {
        RemoveKey(keys[0]);
      }
      assert Store() == Trimmed(put, maxEntries);
    }

    method Delete(key: Key)
      requires Valid()
      modifies this`keys, this`vals, this`tagIndex
      ensures Valid()
      ensures Store() == Apply(old(Store()), CacheContract.Delete(key), maxEntries)
    {
      ApplyValid(Store(), CacheContract.Delete(key), maxEntries);
      RemoveKey(key);
    }

    /** The loop of `invalidateTag`, over a copy: removing a key shrinks the indexed set itself. */
    method RemoveMembers(members: set<Key>)
      requires WellFormed(Store()) && NoEmptySets(tagIndex) && Inverse(tagIndex, vals)
      modifies this`keys, this`vals, this`tagIndex
      ensures WellFormed(Store()) && NoEmptySets(tagIndex) && Inverse(tagIndex, vals)
      ensures Store() == RemoveAll(old(Store()), members)
    {
      var todo := members;
      RemoveNothing(Store());
      assert members - todo == {};
      while todo != {}
        invariant WellFormed(Store()) && NoEmptySets(tagIndex) && Inverse(tagIndex, vals)
        invariant todo <= members && Store() == RemoveAll(old(Store()), members - todo)
        decreases todo
      {
        var key :| key in todo;
        RemoveAllTwice(old(Store()), members - todo, {key});
        assert (members - todo) + {key} == members - (todo - {key});
        RemoveKey(key);
        todo := todo - {key};
      }
      assert members - todo == members;
    }

    method InvalidateTag(tag: Tag)
      requires Valid()
      modifies this`keys, this`vals, this`tagIndex
      ensures Valid()
      ensures Store() == Apply(old(Store()), CacheContract.InvalidateTag(tag), maxEntries)
      ensures tag !in tagIndex
    {
      ApplyValid(Store(), CacheContract.InvalidateTag(tag), maxEntries);
      ghost var tagged := TaggedKeys(Store(), tag);
      assert tagged == Members(tagIndex, tag);
      if tag !in tagIndex {
        RemoveNothing(Store());
        return;
      }
      RemoveMembers(tagIndex[tag]);
      InvalidatedTagIsGone(tagIndex, old(Store()), tag);
    }
  }
}
