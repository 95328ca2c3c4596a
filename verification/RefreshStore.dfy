/** The in-process token-family store (packages/auth-utils/src/stores.ts). */
module RefreshStore {
  import opened Options
  import opened RefreshState

  datatype Stored = Stored(family: Family, revision: nat)

  type Families = map<FamilyId, Stored>

  function Lookup(families: Families, id: FamilyId): Option<Stored> {
    if id in families then Some(families[id]) else None
  }

  /** Lazy eviction: touching a family past its deadline removes it. */
  function Evicted(families: Families, id: FamilyId, now: int): Families {
    if id in families && now >= families[id].family.absoluteExpiresAt then families - {id} else families
  }

  function Created(families: Families, family: Family, now: int): (r: (Families, bool)) {
    var kept := Evicted(families, family.id, now);
    if family.id in kept then (kept, false) else (kept[family.id := Stored(family, 1)], true)
  }

  /** The one operation that has to be atomic: write only over the revision that was read. */
  function Swapped(families: Families, family: Family, expected: nat): (r: (Families, bool)) {
    if family.id !in families || families[family.id].revision != expected then (families, false)
    else (families[family.id := Stored(family, expected + 1)], true)
  }

  class MemoryRefreshTokenStore {
    var families: Families

    constructor ()
      ensures families == map[]
    {
      families := map[];
    }

    method Live(id: FamilyId, now: int) returns (entry: Option<Stored>)
      modifies this
      ensures families == Evicted(old(families), id, now)
      ensures entry == Lookup(families, id)
    {
      if id !in families {
        return None;
      }
      if now >= families[id].family.absoluteExpiresAt {
        families := families - {id};
        return None;
      }
      entry := Some(families[id]);
    }

    method Read(id: FamilyId, now: int) returns (entry: Option<Stored>)
      modifies this
      ensures families == Evicted(old(families), id, now)
      ensures entry == Lookup(families, id)
      ensures entry.Some? <==> id in old(families) && now < old(families)[id].family.absoluteExpiresAt
      ensures families == if entry.Some? then old(families) else old(families) - {id}
      ensures entry.Some? ==> entry.value == old(families)[id]
    {
      entry := Live(id, now);
    }

    method Create(family: Family, now: int) returns (ok: bool)
      modifies this
      ensures (families, ok) == Created(old(families), family, now)
      ensures ok <==> family.id !in old(families) || old(families)[family.id].family.absoluteExpiresAt <= now
      ensures families == if ok then old(families)[family.id := Stored(family, 1)] else old(families)
    {
      var entry := Live(family.id, now);
      if entry.Some? {
        return false;
      }
      families := families[family.id := Stored(family, 1)];
      ok := true;
    }

    method CompareAndSet(family: Family, expected: nat) returns (ok: bool)
      modifies this
      ensures (families, ok) == Swapped(old(families), family, expected)
      ensures ok <==> family.id in old(families) && old(families)[family.id].revision == expected
      ensures families == if ok then old(families)[family.id := Stored(family, expected + 1)] else old(families)
    {
      if family.id !in families || families[family.id].revision != expected {
        return false;
      }
      families := families[family.id := Stored(family, families[family.id].revision + 1)];
      ok := true;
    }

    method Delete(id: FamilyId)
      modifies this
      ensures families == old(families) - {id}
    {
      families := families - {id};
    }
  }
}
