/**
 What one family looks like over its whole life: the sequence of versions that
 were ever committed for it, and what each version says about the tokens that
 were issued before.
 */
module FamilyHistory {
  import opened RefreshState

  /** How a version came to be written. */
  datatype Cause =
    | Issued(minted: Hash)
    | Rotation(minted: Hash, now: int)
    | Revocation(now: int, reason: RevocationReason)

  datatype Version = Version(family: Family, cause: Cause)

  predicate Initial(v: Version) {
    && v.cause.Issued?
    && v.family.current.Some?
    && v.family.current.value.hash == v.cause.minted
    && v.family.current.value.expiresAt <= v.family.absoluteExpiresAt
    && v.family.usedHashes == []
    && v.family.revokedAt.None?
    && v.family.revokedReason.None?
  }

  /** `v` is what one committed write can make of `f`. */
  predicate Follows(f: Family, v: Version, cfg: Config) {
    match v.cause
    case Issued(_) => false
    case Rotation(minted, now) =>
      && f.current.Some?
      && DecideRotation(f, f.current.value.hash, minted, now, cfg) == Rotated(v.family)
    case Revocation(now, reason) => f.revokedAt.None? && v.family == Revoke(f, now, reason)
  }

  predicate Lineage(log: seq<Version>, id: FamilyId, cfg: Config) {
    && log != []
    && Initial(log[0])
    && log[0].family.id == id
    && (forall i :: 0 < i < |log| ==> Follows(log[i - 1].family, log[i], cfg))
    && (forall i, j :: 0 <= i < j < |log| && !log[i].cause.Revocation? && !log[j].cause.Revocation? ==>
          log[i].cause.minted != log[j].cause.minted)
  }

  function Last(log: seq<Version>): Family
    requires log != []
  {
    log[|log| - 1].family
  }

  /** The hashes issued by the versions of `log`, oldest first. */
  function Hashes(log: seq<Version>): seq<Hash> {
    if log == [] then []
    else
      var v := log[|log| - 1];
      Hashes(log[..|log| - 1]) + (if v.cause.Revocation? then [] else [v.cause.minted])
  }

  /** How a family that was never revoked must look after its versions `log`. */
  ghost predicate LiveShape(log: seq<Version>, cfg: Config)
    requires log != []
  {
    var f, n := Last(log), |log| - 1;
    && f.revokedAt.None?
    && f.revokedReason.None?
    && f.current.Some?
    && |Hashes(log)| == |log|
    && (forall i :: 0 <= i < |log| ==> !log[i].cause.Revocation? && Hashes(log)[i] == log[i].cause.minted)
    && f.current.value.hash == Hashes(log)[n]
    && f.usedHashes == Newest(Hashes(log)[..n], cfg.maxChainLength)
  }

  lemma LineagePrefix(log: seq<Version>, n: nat, id: FamilyId, cfg: Config)
    requires Lineage(log, id, cfg) && 0 < n <= |log|
    ensures Lineage(log[..n], id, cfg)
  {
  }

  /** One rotation, seen from the hashes issued so far. */
  lemma RotationExtendsShape(log: seq<Version>, v: Version, cfg: Config)
    requires log != [] && LiveShape(log, cfg)
    requires Follows(Last(log), v, cfg) && v.cause.Rotation?
    ensures LiveShape(log + [v], cfg)
  {
    var all := log + [v];
    var h := Hashes(log);
    var n := |log|;
    assert all[..n] == log;
    assert Hashes(all) == h + [v.cause.minted];
    assert Hashes(all)[..n] == h == h[..n - 1] + [h[n - 1]];
    assert v.family.usedHashes == Newest(Hashes(all)[..n], cfg.maxChainLength) by {
      NewestOfNewest(h[..n - 1], h[n - 1], cfg.maxChainLength);
    }
  }

  /** A live version's fields are a function of what was issued before it. */
  lemma {:induction false} LiveVersionShape(log: seq<Version>, id: FamilyId, cfg: Config)
    requires Lineage(log, id, cfg)
    requires Last(log).revokedAt.None?
    ensures LiveShape(log, cfg)
    decreases |log|
  {
    var n := |log| - 1;
    if n == 0 {
      assert log[..0] == [];
      assert Hashes(log) == [log[0].cause.minted];
    } else {
      var before := log[..n];
      assert log == before + [log[n]];
      assert Follows(log[n - 1].family, log[n], cfg);
      LineagePrefix(log, n, id, cfg);
      LiveVersionShape(before, id, cfg);
      RotationExtendsShape(before, log[n], cfg);
    }
  }

  /** Trimming after every append keeps the same elements as trimming once. */
  lemma NewestOfNewest<T>(s: seq<T>, x: T, limit: int)
    requires 0 < limit
    ensures Newest(Newest(s, limit) + [x], limit) == Newest(s + [x], limit)
  {
  }

  /** The live token of a version is the one that version issued. */
  lemma CurrentIsMinted(log: seq<Version>, i: nat, id: FamilyId, cfg: Config)
    requires Lineage(log, id, cfg) && i < |log| && log[i].family.current.Some?
    ensures !log[i].cause.Revocation? && log[i].family.current.value.hash == log[i].cause.minted
  {
    if i > 0 {
      assert Follows(log[i - 1].family, log[i], cfg);
    }
  }

  /** A token is live in one version only, so at most one write can rotate it away. */
  lemma TokenIsLiveOnce(log: seq<Version>, i: nat, j: nat, id: FamilyId, cfg: Config)
    requires Lineage(log, id, cfg) && i < |log| && j < |log|
    requires log[i].family.current.Some? && log[j].family.current.Some?
    requires log[i].family.current.value.hash == log[j].family.current.value.hash
    ensures i == j
  {
    CurrentIsMinted(log, i, id, cfg);
    CurrentIsMinted(log, j, id, cfg);
  }

  /** Revoking again changes nothing: the first time and the first reason stay. */
  lemma RevokingAgain(family: Family, now: int, reason: RevocationReason, later: int, other: RevocationReason)
    ensures Revoke(Revoke(family, now, reason), later, other) == Revoke(family, now, reason)
  {
  }

  /** Revocation is terminal: only the newest version of a family can be a revoking one. */
  lemma RevocationIsLast(log: seq<Version>, id: FamilyId, cfg: Config)
    requires Lineage(log, id, cfg)
    ensures forall i :: 0 <= i < |log| && log[i].family.revokedAt.Some? ==> i == |log| - 1
    ensures forall i :: 0 <= i < |log| ==> (log[i].cause.Revocation? <==> log[i].family.revokedAt.Some?)
  {
    forall i | 0 <= i < |log|
      ensures log[i].family.revokedAt.Some? ==> i == |log| - 1
      ensures log[i].cause.Revocation? <==> log[i].family.revokedAt.Some?
    {
      if i > 0 {
        assert Follows(log[i - 1].family, log[i], cfg);
      }
      if i < |log| - 1 {
        assert Follows(log[i].family, log[i + 1], cfg);
      }
    }
  }

  lemma HashesAreDistinct(log: seq<Version>, id: FamilyId, cfg: Config)
    requires Lineage(log, id, cfg)
    ensures forall i, j :: 0 <= i < j < |Hashes(log)| ==> Hashes(log)[i] != Hashes(log)[j]
  {
    var n := |log| - 1;
    RevocationIsLast(log, id, cfg);
    if Last(log).revokedAt.None? {
      LiveVersionShape(log, id, cfg);
    } else {
      assert n > 0 && Follows(log[n - 1].family, log[n], cfg);
      LineagePrefix(log, n, id, cfg);
      LiveVersionShape(log[..n], id, cfg);
    }
  }

  /**
   The reuse-detection index never loses or invents a token: it holds the newest
   `maxChainLength` hashes rotated away, in order and without repetition, and
   one more once the family is revoked.
   */
  lemma UsedHashesMatchHistory(log: seq<Version>, id: FamilyId, cfg: Config)
    requires Lineage(log, id, cfg)
    ensures var f, h := Last(log), Hashes(log);
            if f.revokedAt.None? then
              && |h| == |log|
              && f.current.Some? && f.current.value.hash == h[|h| - 1]
              && f.current.value.hash !in f.usedHashes
              && f.usedHashes == Newest(h[..|h| - 1], cfg.maxChainLength)
            else
              && |h| == |log| - 1 > 0
              && f.current.None?
              && f.usedHashes == Newest(h[..|h| - 1], cfg.maxChainLength) + [h[|h| - 1]]
  {
    var n := |log| - 1;
    RevocationIsLast(log, id, cfg);
    if Last(log).revokedAt.None? {
      LiveVersionShape(log, id, cfg);
      HashesAreDistinct(log, id, cfg);
      LastIsNotNewest(Hashes(log), cfg.maxChainLength);
    } else {
      assert n > 0 && Follows(log[n - 1].family, log[n], cfg);
      LineagePrefix(log, n, id, cfg);
      LiveVersionShape(log[..n], id, cfg);
      assert Hashes(log) == Hashes(log[..n]);
    }
  }

  /** In a sequence without repetition, the last element is not among the ones before it. */
  lemma LastIsNotNewest<T>(h: seq<T>, limit: nat)
    requires h != [] && forall i, j :: 0 <= i < j < |h| ==> h[i] != h[j]
    ensures h[|h| - 1] !in Newest(h[..|h| - 1], limit)
  {
  }

  /** Which elements trimming keeps, counted from the end of a sequence without repetition. */
  lemma NewestHolds<T>(h: seq<T>, age: nat, limit: nat)
    requires age < |h| && forall i, j :: 0 <= i < j < |h| ==> h[i] != h[j]
    ensures h[|h| - 1 - age] in Newest(h[..|h| - 1], limit) <==> 0 < age <= limit
  {
  }

  /** Which of the issued tokens the reuse-detection index still holds. */
  lemma IndexHoldsRecent(log: seq<Version>, age: nat, id: FamilyId, cfg: Config)
    requires Lineage(log, id, cfg) && Last(log).revokedAt.None? && age < |log|
    ensures |Hashes(log)| == |log|
    ensures Hashes(log)[|log| - 1 - age] in Last(log).usedHashes <==> 0 < age <= cfg.maxChainLength
  {
    UsedHashesMatchHistory(log, id, cfg);
    HashesAreDistinct(log, id, cfg);
    NewestHolds(Hashes(log), age, cfg.maxChainLength);
  }

  /**
   What presenting a token to the newest version means, told by the token's age
   alone: `age` 0 is the live token, 1 the one it replaced, and so on.
   */
  lemma VerdictByAge(log: seq<Version>, age: nat, minted: Hash, now: int, id: FamilyId, cfg: Config)
    requires Lineage(log, id, cfg) && Last(log).revokedAt.None? && age < |log|
    ensures |Hashes(log)| == |log| && Last(log).current.Some?
    ensures var f := Last(log);
            var d := DecideRotation(f, Hashes(log)[|log| - 1 - age], minted, now, cfg);
            && (d.Reuse? <==> 0 < age <= cfg.maxChainLength)
            && (d.Rotated? <==> age == 0 && now < f.current.value.expiresAt)
            && (d.Rejected? && now >= f.absoluteExpiresAt ==> d.reason == FamilyExpired)
            && (d.Rejected? && now < f.absoluteExpiresAt ==> d.reason == if age == 0 then Expired else UnknownToken)
  {
    IndexHoldsRecent(log, age, id, cfg);
    UsedHashesMatchHistory(log, id, cfg);
    HashesAreDistinct(log, id, cfg);
    DeadlineIsFixed(log, |log| - 1, id, cfg);
    var h := Hashes(log);
    assert age > 0 ==> h[|log| - 1 - age] != h[|log| - 1];
  }

  /** The newest of `hashes`. */
  predicate IsNewest(hashes: seq<Hash>, h: Hash) {
    hashes != [] && hashes[|hashes| - 1] == h
  }

  /** One of the `limit` hashes before the newest. */
  ghost predicate IsRecent(hashes: seq<Hash>, h: Hash, limit: int) {
    exists i :: 0 <= i < |hashes| - 1 && |hashes| - 1 - i <= limit && hashes[i] == h
  }

  /** The newest version was written by a revocation. */
  predicate EndsRevoked(log: seq<Version>)
    requires log != []
  {
    log[|log| - 1].cause.Revocation?
  }

  lemma NewestAreRecent(h: seq<Hash>, x: Hash, limit: nat)
    requires h != []
    ensures x in Newest(h[..|h| - 1], limit) <==> IsRecent(h, x, limit)
  {
    var kept := Newest(h[..|h| - 1], limit);
    var cut := |h| - 1 - |kept|;
    if x in kept {
      var i :| 0 <= i < |kept| && kept[i] == x;
      assert h[cut + i] == x;
    }
    if IsRecent(h, x, limit) {
      var i :| 0 <= i < |h| - 1 && |h| - 1 - i <= limit && h[i] == x;
      assert kept[i - cut] == x;
    }
  }

  /**
   What presenting a hash decides, whatever the hash: the documented order of the refusals. A revoked family answers
   `revoked` whoever asks and however it was revoked; then a recent token is a reuse even past its expiry; then the
   deadline of the family comes before everything about the token.
   */
  lemma RefusalTable(log: seq<Version>, h: Hash, minted: Hash, now: int, id: FamilyId, cfg: Config)
    requires Lineage(log, id, cfg)
    ensures !EndsRevoked(log) ==> Last(log).current.Some?
    ensures var d, hashes := DecideRotation(Last(log), h, minted, now, cfg), Hashes(log);
            var deadline, recent := log[0].family.absoluteExpiresAt, IsRecent(hashes, h, cfg.maxChainLength);
            && (d == Rejected(FamilyRevoked) <==> EndsRevoked(log))
            && (d.Reuse? <==> !EndsRevoked(log) && recent)
            && (d == Rejected(FamilyExpired) <==> !EndsRevoked(log) && !recent && deadline <= now)
            && (d == Rejected(UnknownToken) <==>
                  !EndsRevoked(log) && !recent && now < deadline && !IsNewest(hashes, h))
            && (d == Rejected(Expired) <==>
                  !EndsRevoked(log) && IsNewest(hashes, h) && Last(log).current.value.expiresAt <= now < deadline)
            && (d.Rotated? <==>
                  !EndsRevoked(log) && IsNewest(hashes, h) && now < Last(log).current.value.expiresAt)
  {
    RevocationIsLast(log, id, cfg);
    UsedHashesMatchHistory(log, id, cfg);
    DeadlineIsFixed(log, |log| - 1, id, cfg);
    if !EndsRevoked(log) {
      NewestAreRecent(Hashes(log), h, cfg.maxChainLength);
    }
  }

  /** The tokens that prove possession of a live family, whatever is presented. */
  lemma ProofTable(log: seq<Version>, h: Hash, id: FamilyId, cfg: Config)
    requires Lineage(log, id, cfg) && !EndsRevoked(log)
    ensures FamilyIssued(Last(log), h) <==> IsNewest(Hashes(log), h) || IsRecent(Hashes(log), h, cfg.maxChainLength)
  {
    RevocationIsLast(log, id, cfg);
    UsedHashesMatchHistory(log, id, cfg);
    NewestAreRecent(Hashes(log), h, cfg.maxChainLength);
  }

  /** Which issued tokens prove possession of a live family: the live one, and those the index still holds. */
  lemma ProofByAge(log: seq<Version>, age: nat, id: FamilyId, cfg: Config)
    requires Lineage(log, id, cfg) && Last(log).revokedAt.None? && age < |log|
    ensures |Hashes(log)| == |log|
    ensures FamilyIssued(Last(log), Hashes(log)[|log| - 1 - age]) <==> age <= cfg.maxChainLength
  {
    IndexHoldsRecent(log, age, id, cfg);
    UsedHashesMatchHistory(log, id, cfg);
    HashesAreDistinct(log, id, cfg);
  }

  /** A token is rotated before it expires, and its successor lives for the sliding lifetime or up to the deadline. */
  lemma RotationTimes(log: seq<Version>, i: nat, id: FamilyId, cfg: Config)
    requires Lineage(log, id, cfg) && 0 < i < |log| && log[i].cause.Rotation?
    ensures var f, t, now := log[i - 1].family, log[i].family, log[i].cause.now;
            && f.current.Some? && t.current.Some?
            && now < f.current.value.expiresAt && now < f.absoluteExpiresAt
            && t.current.value.issuedAt == now < t.current.value.expiresAt
            && t.current.value.expiresAt <= now + cfg.ttlMs
            && (t.current.value.expiresAt < now + cfg.ttlMs ==> t.current.value.expiresAt == t.absoluteExpiresAt)
  {
    assert Follows(log[i - 1].family, log[i], cfg);
    DeadlineIsFixed(log, i, id, cfg);
  }

  /** A value the family never issued can neither rotate it nor revoke it. */
  lemma GuessIsInert(log: seq<Version>, presented: Hash, minted: Hash, now: int, id: FamilyId, cfg: Config)
    requires Lineage(log, id, cfg) && presented !in Hashes(log)
    ensures DecideRotation(Last(log), presented, minted, now, cfg).Rejected?
    ensures !FamilyIssued(Last(log), presented)
  {
    UsedHashesMatchHistory(log, id, cfg);
    var h := Hashes(log);
    assert forall x :: x in h[..|h| - 1] ==> x in h;
  }

  /** No version moves the deadline, and a live token never outlives it. */
  lemma DeadlineIsFixed(log: seq<Version>, i: nat, id: FamilyId, cfg: Config)
    requires Lineage(log, id, cfg) && i < |log|
    ensures var f := log[i].family;
            && f.id == id
            && f.subject == log[0].family.subject
            && f.createdAt == log[0].family.createdAt
            && f.absoluteExpiresAt == log[0].family.absoluteExpiresAt
            && (f.current.Some? ==> f.current.value.expiresAt <= f.absoluteExpiresAt)
    decreases i
  {
    if i > 0 {
      assert Follows(log[i - 1].family, log[i], cfg);
      DeadlineIsFixed(log, i - 1, id, cfg);
    }
  }
}
