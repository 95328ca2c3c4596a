/**
 The rotation state machine of one refresh-token family
 (packages/auth-utils/src/internal/refresh-state.ts). A token is a family id
 and the hash of its secret; hashes are compared by equality.
 */
module RefreshState {
  import opened Options

  type Hash = string
  type FamilyId = string

  datatype RevocationReason = ReuseDetected | Requested

  datatype FamilyToken = FamilyToken(hash: Hash, issuedAt: int, expiresAt: int)

  datatype Family = Family(
    id: FamilyId,
    subject: string,
    createdAt: int,
    absoluteExpiresAt: int,
    current: Option<FamilyToken>,
    usedHashes: seq<Hash>,
    revokedAt: Option<int>,
    revokedReason: Option<RevocationReason>)

  datatype FailureReason =
    | Malformed | UnknownFamily | UnknownToken | Expired | FamilyExpired | FamilyRevoked | Reused

  datatype Decision =
    | Rotated(family: Family)
    | Reuse(family: Family)
    | Rejected(reason: FailureReason)

  datatype Settings = Settings(ttlMs: int, absoluteTtlMs: int, maxChainLength: int, maxRetries: int)

  /** What `createRefreshTokenService` checks before it returns a service. */
  predicate Usable(s: Settings) {
    0 < s.ttlMs <= s.absoluteTtlMs && 0 < s.maxChainLength && 0 < s.maxRetries
  }

  type Config = s: Settings | Usable(s) witness Settings(1, 1, 1, 1)

  function Min(a: int, b: int): int {
    if a < b then a else b
  }

  /** The last `limit` elements of `s`, or all of it when it is no longer than that. */
  function Newest<T>(s: seq<T>, limit: int): seq<T>
    requires 0 <= limit
  {
    if |s| > limit then s[|s| - limit..] else s
  }

  function Revoke(family: Family, now: int, reason: RevocationReason): Family {
    if family.revokedAt.Some? then family
    else family.(
           current := None,
           usedHashes := if family.current.None? then family.usedHashes
                         else family.usedHashes + [family.current.value.hash],
           revokedAt := Some(now),
           revokedReason := Some(reason))
  }

  predicate FamilyIssued(family: Family, presented: Hash) {
    || (family.current.Some? && family.current.value.hash == presented)
    || presented in family.usedHashes
  }

  function DecideRotation(family: Family, presented: Hash, minted: Hash, now: int, cfg: Config): Decision {
    if family.revokedAt.Some? then Rejected(FamilyRevoked)
    else if presented in family.usedHashes then Reuse(Revoke(family, now, ReuseDetected))
    else if now >= family.absoluteExpiresAt then Rejected(FamilyExpired)
    else if family.current.None? then Rejected(UnknownToken)
    else if family.current.value.hash != presented then Rejected(UnknownToken)
    else if now >= family.current.value.expiresAt then Rejected(Expired)
    else Rotated(family.(
                   current := Some(FamilyToken(minted, now, Min(now + cfg.ttlMs, family.absoluteExpiresAt))),
                   usedHashes := Newest(family.usedHashes + [family.current.value.hash], cfg.maxChainLength)))
  }

  /** The record `issue` creates. */
  function NewFamily(id: FamilyId, subject: string, minted: Hash, now: int, cfg: Config): Family {
    var deadline := now + cfg.absoluteTtlMs;
    Family(id, subject, now, deadline,
           Some(FamilyToken(minted, now, Min(now + cfg.ttlMs, deadline))), [], None, None)
  }
}
