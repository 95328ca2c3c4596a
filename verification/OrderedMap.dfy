/** The JavaScript `Map`: keys in insertion order, and what each maps to. */
module OrderedMap {
  type Key = string

  datatype OrderedMap<V> = OrderedMap(keys: seq<Key>, vals: map<Key, V>)

  ghost predicate Distinct(s: seq<Key>) {
    forall i, j :: 0 <= i < j < |s| ==> s[i] != s[j]
  }

  ghost predicate WellFormed<V>(m: OrderedMap<V>) {
    && Distinct(m.keys)
    && (forall k :: k in m.keys <==> k in m.vals)
  }

  /** `s` with every element of `gone` taken out, the rest in their order. */
  function Without(s: seq<Key>, gone: set<Key>): (r: seq<Key>)
    ensures forall x :: x in r <==> x in s && x !in gone
    ensures |r| <= |s|
  {
    if s == [] then [] else (if s[0] in gone then [] else [s[0]]) + Without(s[1..], gone)
  }

  function RemoveAll<V>(m: OrderedMap<V>, gone: set<Key>): OrderedMap<V> {
    OrderedMap(Without(m.keys, gone), m.vals - gone)
  }

  /** `Map.set`: an existing key keeps its place, a new one goes last. */
  function Put<V>(m: OrderedMap<V>, k: Key, v: V): OrderedMap<V> {
    OrderedMap(if k in m.vals then m.keys else m.keys + [k], m.vals[k := v])
  }

  lemma {:induction false} WithoutConcat(a: seq<Key>, b: seq<Key>, gone: set<Key>)
    ensures Without(a + b, gone) == Without(a, gone) + Without(b, gone)
  {
    if a == [] {
      assert a + b == b;
    } else {
      assert (a + b)[1..] == a[1..] + b;
      WithoutConcat(a[1..], b, gone);
    }
  }

  /** Only the elements that occur matter. */
  lemma {:induction false} WithoutSame(s: seq<Key>, a: set<Key>, b: set<Key>)
    requires forall x :: x in s ==> (x in a <==> x in b)
    ensures Without(s, a) == Without(s, b)
  {
    if s != [] {
      WithoutSame(s[1..], a, b);
    }
  }

  lemma {:induction false} WithoutNothing(s: seq<Key>, gone: set<Key>)
    requires forall x :: x in s ==> x !in gone
    ensures Without(s, gone) == s
  {
    if s != [] {
      WithoutNothing(s[1..], gone);
    }
  }

  lemma {:induction false} WithoutTwice(s: seq<Key>, a: set<Key>, b: set<Key>)
    ensures Without(Without(s, a), b) == Without(s, a + b)
  {
    if s != [] {
      WithoutTwice(s[1..], a, b);
      WithoutConcat(if s[0] in a then [] else [s[0]], Without(s[1..], a), b);
    }
  }

  lemma {:induction false} WithoutDistinct(s: seq<Key>, gone: set<Key>)
    requires Distinct(s)
    ensures Distinct(Without(s, gone))
  {
    if s != [] {
      WithoutDistinct(s[1..], gone);
    }
  }

  /** Taking one element out of a sequence without repetition shortens it by one. */
  lemma {:induction false} WithoutOne(s: seq<Key>, x: Key)
    requires Distinct(s) && x in s
    ensures |Without(s, {x})| == |s| - 1
  {
    if s[0] == x {
      WithoutNothing(s[1..], {x});
    } else {
      WithoutOne(s[1..], x);
    }
  }

  lemma RemoveAllValid<V>(m: OrderedMap<V>, gone: set<Key>)
    requires WellFormed(m)
    ensures WellFormed(RemoveAll(m, gone))
  {
    WithoutDistinct(m.keys, gone);
  }

  lemma PutValid<V>(m: OrderedMap<V>, k: Key, v: V)
    requires WellFormed(m)
    ensures WellFormed(Put(m, k, v))
  {
  }

  lemma RemoveAllTwice<V>(m: OrderedMap<V>, a: set<Key>, b: set<Key>)
    ensures RemoveAll(RemoveAll(m, a), b) == RemoveAll(m, a + b)
  {
    WithoutTwice(m.keys, a, b);
  }

  lemma RemoveNothing<V>(m: OrderedMap<V>)
    ensures RemoveAll(m, {}) == m
  {
    WithoutNothing(m.keys, {});
  }
}
