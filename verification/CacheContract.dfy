/**
 What a cache backend is for, told from the trace of operations alone: which
 entry a key ought to have after it (packages/cache-kit/src/types.ts).
 */
module CacheContract {
  import opened Options
  import opened OrderedMap

  type Tag = string

  datatype Entry<V> = Entry(value: V, expiresAt: Option<int>, tags: seq<Tag>)

  /** One call on a backend; `now` is what the clock read during it. */
  datatype Op<V> =
    | Get(key: Key, now: int)
    | Set(key: Key, value: V, ttlMs: Option<int>, tags: seq<Tag>, now: int)
    | Delete(key: Key)
    | InvalidateTag(tag: Tag)

  predicate Expired<V>(e: Entry<V>, now: int) {
    e.expiresAt.Some? && now >= e.expiresAt.value
  }

  function EntryOf<V>(op: Op<V>): Entry<V>
    requires op.Set?
  {
    Entry(op.value, if op.ttlMs.None? then None else Some(op.now + op.ttlMs.value), op.tags)
  }

  /** The entry of the last `set` of `k`, unless it was deleted or invalidated since. */
  function LastSet<V>(ops: seq<Op<V>>, k: Key): Option<Entry<V>> {
    if ops == [] then None
    else
      var before, op := LastSet(ops[..|ops| - 1], k), ops[|ops| - 1];
      match op
      case Get(_, _) => before
      case Set(key, _, _, _, _) => if key == k then Some(EntryOf(op)) else before
      case Delete(key) => if key == k then None else before
      case InvalidateTag(tag) => if before.Some? && tag in before.value.tags then None else before
  }

  /** Which keys carry a tag. A set that empties is removed. */
  type TagIndex = map<Tag, set<Key>>

  function Members(index: TagIndex, tag: Tag): set<Key> {
    if tag in index then index[tag] else {}
  }

  ghost predicate NoEmptySets(index: TagIndex) {
    forall tag | tag in index :: index[tag] != {}
  }

  function Added(index: TagIndex, tag: Tag, key: Key): TagIndex {
    index[tag := Members(index, tag) + {key}]
  }

  function Dropped(index: TagIndex, tag: Tag, key: Key): TagIndex {
    if tag !in index then index
    else
      var members := index[tag] - {key};
      if members == {} then index - {tag} else index[tag := members]
  }

  lemma SameMembers(a: TagIndex, b: TagIndex)
    requires NoEmptySets(a) && NoEmptySets(b) && (forall tag :: Members(a, tag) == Members(b, tag))
    ensures a == b
  {
    forall tag
      ensures tag in a <==> tag in b
    {
      assert Members(a, tag) == Members(b, tag);
    }
    forall tag | tag in a
      ensures a[tag] == b[tag]
    {
      assert Members(a, tag) == Members(b, tag);
    }
  }
}
