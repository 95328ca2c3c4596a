/**
 Which tag memberships outlive their key's tag list, told from the trace alone
 (packages/cache-kit/src/backends/redis.ts, lines 95-104).
 */
module RedisStaleness {
  import opened Options
  import opened OrderedMap
  import opened CacheContract
  import opened RedisBackend

  /** A `set` of `k` that carries `tag`. */
  predicate SetsWith<V>(e: Event<V>, k: Key, tag: Tag) {
    e.Call? && e.op.Set? && e.op.key == k && tag in e.op.tags
  }

  /** Event `l` ends the tag list the `set` at `i` wrote for `k`: it replaces, deletes, invalidates or expires it. */
  ghost predicate Ends<V(!new)>(events: seq<Event<V>>, i: nat, l: nat, k: Key)
    requires i < l < |events| && events[i].Call? && events[i].op.Set?
    decreases |events|, 0
  {
    match events[l]
    case Call(Get(_, _)) => false
    case Call(Set(key, _, _, _, _)) => key == k
    case Call(Delete(key)) => key == k
    case Call(InvalidateTag(gone)) => gone in events[i].op.tags || Stale(events[..l], gone, k)
    case ValueExpires(_) => false
    case TagsExpire(key) => key == k
  }

  ghost predicate Kept<V(!new)>(events: seq<Event<V>>, i: nat, j: nat, k: Key)
    requires i < |events| && j <= |events| && events[i].Call? && events[i].op.Set?
    decreases |events|, 1
  {
    forall l | i < l < j :: !Ends(events, i, l, k)
  }

  /** The tag list of `k` names `tag`: some `set` wrote it so, and nothing has ended that list since. */
  ghost predicate Named<V(!new)>(events: seq<Event<V>>, tag: Tag, k: Key) {
    exists i :: 0 <= i < |events| && SetsWith(events[i], k, tag) && Kept(events, i, |events|, k)
  }

  /** A tag list naming `tag` expired before anything cleaned it up, and neither the tag nor such a `set` came since. */
  ghost predicate StaleSince<V(!new)>(events: seq<Event<V>>, tag: Tag, k: Key, i: nat, j: nat)
    requires i < j < |events|
    decreases |events|, 2
  {
    && SetsWith(events[i], k, tag) && events[j] == TagsExpire(k) && Kept(events, i, j, k)
    && forall l | j < l < |events| :: events[l] != Call(InvalidateTag(tag)) && !SetsWith(events[l], k, tag)
  }

  ghost predicate Stale<V(!new)>(events: seq<Event<V>>, tag: Tag, k: Key)
    decreases |events|, 3
  {
    exists i, j :: 0 <= i < j < |events| && StaleSince(events, tag, k, i, j)
  }

  // ----- One event more -----

  lemma EndsBefore<V(!new)>(events: seq<Event<V>>, e: Event<V>, i: nat, l: nat, k: Key)
    requires i < l < |events| && events[i].Call? && events[i].op.Set?
    ensures Ends(events + [e], i, l, k) == Ends(events, i, l, k)
  {
    assert (events + [e])[..l] == events[..l];
  }

  lemma KeptBefore<V(!new)>(events: seq<Event<V>>, e: Event<V>, i: nat, j: nat, k: Key)
    requires i < |events| && j <= |events| && events[i].Call? && events[i].op.Set?
    ensures Kept(events + [e], i, j, k) == Kept(events, i, j, k)
  {
    forall l | i < l < j
      ensures Ends(events + [e], i, l, k) == Ends(events, i, l, k)
    {
      EndsBefore(events, e, i, l, k);
    }
  }

  lemma StaleStep<V(!new)>(events: seq<Event<V>>, e: Event<V>, tag: Tag, k: Key)
    ensures Stale(events + [e], tag, k) <==>
            || (e == TagsExpire(k) && Named(events, tag, k))
            || (Stale(events, tag, k) && e != Call(InvalidateTag(tag)) && !SetsWith(e, k, tag))
  {
    var longer, n := events + [e], |events|;
    if i, j :| 0 <= i < j < |longer| && StaleSince(longer, tag, k, i, j) {
      KeptBefore(events, e, i, j, k);
      if j < n {
        assert forall l | j < l < n :: longer[l] == events[l];
        assert StaleSince(events, tag, k, i, j);
        assert longer[n] == e;
      }
    }
    if e == TagsExpire(k) && Named(events, tag, k) {
      var i :| 0 <= i < n && SetsWith(events[i], k, tag) && Kept(events, i, n, k);
      KeptBefore(events, e, i, n, k);
      assert StaleSince(longer, tag, k, i, n);
    }
    if i, j :| 0 <= i < j < n && StaleSince(events, tag, k, i, j) {
      KeptBefore(events, e, i, j, k);
      if e != Call(InvalidateTag(tag)) && !SetsWith(e, k, tag) {
        assert StaleSince(longer, tag, k, i, j);
      }
    }
  }

  /** The list is there in one writing only. */
  lemma NamedOnce<V(!new)>(events: seq<Event<V>>, tag: Tag, other: Tag, k: Key, i: nat)
    requires i < |events| && SetsWith(events[i], k, tag) && Kept(events, i, |events|, k)
    ensures Named(events, other, k) <==> other in events[i].op.tags
  {
    if other in events[i].op.tags {
      assert SetsWith(events[i], k, other);
    }
    if j :| 0 <= j < |events| && SetsWith(events[j], k, other) && Kept(events, j, |events|, k) {
      assert i < j ==> Ends(events, i, j, k);
      assert j < i ==> Ends(events, j, i, k);
    }
  }

  /** No list names a tag whose membership is stale. */
  lemma NamedIsNotStale<V(!new)>(events: seq<Event<V>>, tag: Tag, k: Key)
    requires Named(events, tag, k)
    ensures !Stale(events, tag, k)
  {
    var i :| 0 <= i < |events| && SetsWith(events[i], k, tag) && Kept(events, i, |events|, k);
    forall i', j | 0 <= i' < j < |events|
      ensures !StaleSince(events, tag, k, i', j)
    {
      assert i < j && events[j] == TagsExpire(k) ==> Ends(events, i, j, k);
    }
  }

  /** What the last event does to the list. */
  predicate Carries<V>(e: Event<V>, k: Key) {
    match e
    case Call(Get(_, _)) => true
    case Call(Set(key, _, _, _, _)) => key != k
    case Call(Delete(key)) => key != k
    case Call(InvalidateTag(_)) => true
    case ValueExpires(_) => true
    case TagsExpire(key) => key != k
  }

  lemma NamedStep<V(!new)>(events: seq<Event<V>>, e: Event<V>, tag: Tag, k: Key)
    ensures Named(events + [e], tag, k) <==>
            || SetsWith(e, k, tag)
            || (Named(events, tag, k) && Carries(e, k)
                && (e.Call? && e.op.InvalidateTag? ==>
                      !Named(events, e.op.tag, k) && !Stale(events, e.op.tag, k)))
  {
    var longer, n := events + [e], |events|;
    assert longer[..n] == events;
    if i :| 0 <= i < |longer| && SetsWith(longer[i], k, tag) && Kept(longer, i, |longer|, k) {
      if i < n {
        KeptBefore(events, e, i, n, k);
        NamedLast(events, e, tag, k, i);
      }
    }
    if SetsWith(e, k, tag) {
      assert Kept(longer, n, n + 1, k);
    }
    if i :| 0 <= i < n && SetsWith(events[i], k, tag) && Kept(events, i, n, k) {
      KeptBefore(events, e, i, n, k);
      NamedLast(events, e, tag, k, i);
    }
  }

  lemma NamedLast<V(!new)>(events: seq<Event<V>>, e: Event<V>, tag: Tag, k: Key, i: nat)
    requires i < |events| && SetsWith(events[i], k, tag) && Kept(events, i, |events|, k)
    ensures Ends(events + [e], i, |events|, k) <==>
            !Carries(e, k)
            || (e.Call? && e.op.InvalidateTag? && (Named(events, e.op.tag, k) || Stale(events, e.op.tag, k)))
  {
    assert (events + [e])[..|events|] == events;
    if e.Call? && e.op.InvalidateTag? {
      NamedOnce(events, tag, e.op.tag, k, i);
    }
  }

  // ----- What the trace says of the sets -----

  /** The tag list and the tag's set as the trace has them. */
  ghost predicate AsTold<V(!new)>(r: Keyspace<V>, events: seq<Event<V>>, tag: Tag, k: Key) {
    && (tag in TagsOf(r, k) <==> Named(events, tag, k))
    && (k in Members(r.tagSets, tag) <==> Named(events, tag, k) || Stale(events, tag, k))
  }

  lemma SetTells<V(!new)>(r: Keyspace<V>, events: seq<Event<V>>, e: Event<V>, tag: Tag, k: Key)
    requires AsTold(r, events, tag, k) && e.Call? && e.op.Set?
    ensures AsTold(Apply(r, e), events + [e], tag, k)
  {
    NamedStep(events, e, tag, k);
    StaleStep(events, e, tag, k);
    SetMembers(r, e.op.key, e.op.value, e.op.ttlMs.Some?, SetOf(e.op.tags), tag);
    if Named(events, tag, k) {
      NamedIsNotStale(events, tag, k);
    }
  }

  lemma DeleteTells<V(!new)>(r: Keyspace<V>, events: seq<Event<V>>, e: Event<V>, tag: Tag, k: Key)
    requires AsTold(r, events, tag, k) && e.Call? && e.op.Delete?
    ensures AsTold(Apply(r, e), events + [e], tag, k)
  {
    NamedStep(events, e, tag, k);
    StaleStep(events, e, tag, k);
    DeleteMembers(r, e.op.key, tag);
    if Named(events, tag, k) {
      NamedIsNotStale(events, tag, k);
    }
  }

  lemma InvalidateTells<V(!new)>(r: Keyspace<V>, events: seq<Event<V>>, e: Event<V>, tag: Tag, k: Key)
    requires e.Call? && e.op.InvalidateTag?
    requires AsTold(r, events, tag, k) && AsTold(r, events, e.op.tag, k)
    ensures AsTold(Apply(r, e), events + [e], tag, k)
  {
    NamedStep(events, e, tag, k);
    StaleStep(events, e, tag, k);
    InvalidateMembers(r, e.op.tag, tag, k);
    if Named(events, tag, k) {
      NamedIsNotStale(events, tag, k);
    }
  }

  lemma {:induction false} TraceTells<V(!new)>(events: seq<Event<V>>, tag: Tag, k: Key)
    ensures AsTold(After(events), events, tag, k)
  {
    if events != [] {
      var before, e := events[..|events| - 1], events[|events| - 1];
      assert events == before + [e];
      TraceTells(before, tag, k);
      if e.Call? && e.op.Set? {
        SetTells(After(before), before, e, tag, k);
      } else if e.Call? && e.op.Delete? {
        DeleteTells(After(before), before, e, tag, k);
      } else if e.Call? && e.op.InvalidateTag? {
        TraceTells(before, e.op.tag, k);
        InvalidateTells(After(before), before, e, tag, k);
      } else {
        NamedStep(before, e, tag, k);
        StaleStep(before, e, tag, k);
      }
    }
  }

  /**
   A live value whose last `set` does not carry a tag is nevertheless deleted by invalidating it, exactly when an
   earlier `set` of its key did carry it, the tag list written then expired before anything cleaned it up, and since
   then neither the tag was invalidated nor a `set` carrying it came.
   */
  lemma WronglyDeletedIffStale<V(!new)>(events: seq<Event<V>>, tag: Tag, k: Key)
    requires Found(After(events), k).Some?
    ensures LastSet(Ops(events), k).Some?
    ensures var untagged := tag !in LastSet(Ops(events), k).value.tags;
            untagged && Found(Apply(After(events), Call(InvalidateTag(tag))), k).None?
            <==> untagged && Stale(events, tag, k)
  {
    TraceIsSafe(events, k);
    TraceTells(events, tag, k);
  }
}
