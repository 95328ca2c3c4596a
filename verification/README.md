# Verification of the firstprinciples packages

A Dafny model of the stateful cores of the repository, with proofs of what they promise over every input, every run
and every interleaving. `dafny verify dfyconfig.toml` verifies all of it.

Each component has a specification in functions, the theorems about that specification, and, where the program changes
state, classes and methods that are proved to compute the specification. What a specification answers is itself proved
from outside it: from the history of a family, the operations on a cache, the events of a run, the words of a policy,
the letters of a key.

- **Refresh tokens** (`RefreshState`, `FamilyHistory`, `RefreshStore`, `RefreshRuns`, `RefreshTheorems`,
  `RefreshVerdicts`, `RefreshScripts`, `RefreshReports`, `RefreshRace`, `RefreshRaceLimits`, `RefreshService`). Calls
  to `issue`, `rotate`, `revoke` and `revokeFamily` are processes whose atomic steps are the read and the stretch that
  ends in the compare-and-set, as the recommendation on refresh token rotation in section 4.14.2 of RFC 9700 needs
  them to be. They interleave in any order, with any clock readings; families may be evicted or dropped, and store
  calls may fail, with or without their write landing.
- **Login limiter** (`LoginLimiter`, `GuessingBound`, `GuessingReached`). Checks and recorded failures of any number
  of callers, in any order, on a clock that does not run backwards.
- **Cache** (`OrderedMap`, `CacheContract`, `LruCache`, `LruHits`, `LruInclusion`, `MemoryBackend`, `RedisBackend`,
  `RedisStaleness`, `SingleFlight`, `FetchOutcomes`). A JavaScript `Map` is a sequence of keys and a map. In the
  single-flight protocol the atomic unit is the stretch between two awaits.
- **Access control** (`JsValue`, `Truth`, `Conditions`, `OperatorLaws`, `Roles`, `Policy`, `Engine`, `DecisionLaws`,
  `Validation`, `PolicyReader`, `PolicyFormat`, `PolicyExact`, `PolicyWire`). Attribute values are trees of own
  properties, with a variant for a read that throws and one for a hole in an array.
- **Error serialisation** (`ErrorChains`). Errors are nodes of a cause graph, which may be cyclic.
- **Service lifecycle** (`StopAll`, `Lifecycle`, `LifecycleTheorems`, `LifecycleOutcomes`, `ServiceObject`). Startup,
  rollback, shutdown and signals interleave at every await, with every pattern of stop outcomes.
- **Log redaction** (`Redaction`, `RedactionTheorems`, `KeyMatching`). Values are nodes of a graph; key sensitivity is
  computed, and secret shape is an arbitrary predicate.

## Where the code and its documentation disagree

The model follows the code, and the members named here say when the documented behaviour holds and when it does not.

- `reused` is documented to fire exactly once per family, and to mean that the family has just been revoked
  (`refresh.ts` lines 166-169, `refresh-state.ts` lines 122-127). A call that has spent its retries reports it again, or
  reports it although every attempt to revoke was lost. Each half holds in every run if and only if `maxRetries` exceeds
  `maxChainLength + 1`, so neither holds with the defaults of 3 and 100 (`RefreshReports.ReportsOnceIff`,
  `RefreshReports.ReportsMeanRevokedIff`). Among calls that race on one live token it fires once if and only if there
  are at least three retries (`RefreshRace.RaceTally`, `RefreshRaceLimits.TallyHoldsIff`).
- Stale members of a Redis tag set are documented to be harmless (`redis.ts` lines 95-104). A key whose tag list expired
  and that was set again without the tag is deleted by invalidating it (`RedisStaleness.WronglyDeletedIffStale`,
  `RedisBackend.StaleMembershipDeletes`).
- A fetcher that throws instead of returning a promise leaves its key registered for good
  (`SingleFlight.RegisteredWhileRunning`, `SingleFlight.ThrowingFetcherSticks`, `SingleFlight.ThrowingFetcherReached`).
- The limit of `maxAttempts` per window (`rate-limit.ts` lines 71-75) is for attempts that do not overlap; the boundary
  case is `2 * maxAttempts - 1`, one less than documented (`GuessingBound.GuessesAreBounded`, `GuessingReached`).
- Validation passes over the holes of an array, as `forEach`, `map` and `every` do, so the check for empty lists misses
  arrays of holes. `actions: [,]` is accepted and names nothing, and `when: { all: [,] }` is accepted and true of
  everything, which makes a conditional rule unconditional. A validated policy is what it is meant to be if and only if
  no list of names consists of holes and no condition has one (`Validation.AcceptedPolicyIsNormal`,
  `Validation.VacuousIffOnlyHoles`, `Validation.HolesAreAccepted`).
- Literals that do not survive JSON are refused, but not inside `in` and `nin` lists (`PolicyWire.PolicyCrossesIff`).
- Serialised errors are documented to round-trip losslessly (`errors.ts` lines 319-322). A kind the registry does not
  know becomes `AppError` (`ErrorChains.RoundTripIffKindsAreBuiltIn`).
- Custom key fragments are documented as case-insensitive (`types.ts` of the logger, lines 27-32). One with an
  upper-case letter matches nothing (`KeyMatching.FragmentsMatchAsDocumentedIff`).
- Every string leaf is documented to be checked against the secret patterns (`redact.ts` lines 29-30). The name and
  message of a logged `Error` are not, nor is what dates, regular expressions and big integers print as; no secret comes
  out if and only if none of these is reached (`RedactionTheorems.NothingSecretIff`,
  `RedactionTheorems.ErrorMessageLeaks`). Non-interference therefore holds for strings that are values of their own.

## Model

| member | source | states |
|---|---|---|
| `FamilyHistory.UsedHashesMatchHistory` | packages/auth-utils/src/internal/refresh-state.ts:193-209 | In every version of a live family `current` is the newest hash issued and `usedHashes` is the newest `maxChainLength` of the hashes before it, in order; a revoked family holds one more and no `current`. |
| `FamilyHistory.HashesAreDistinct` | packages/auth-utils/src/internal/refresh-state.ts:160-162 | The hashes a family has issued, all through its history, are pairwise different, so the used ones never include the live one. |
| `FamilyHistory.NewestOfNewest` | packages/auth-utils/src/internal/refresh-state.ts:205-208 | Trimming to the cap after every append keeps the same elements as trimming the whole history once. |
| `FamilyHistory.TokenIsLiveOnce` | packages/auth-utils/src/internal/refresh-state.ts:169-186 | A token is `current` in one version of its family only, so only one write can rotate it away. |
| `FamilyHistory.RevocationIsLast` | packages/auth-utils/src/internal/refresh-state.ts:154-156 | Only the newest version of a family can be a revoked one, and a version is revoked exactly when a revocation wrote it. |
| `FamilyHistory.RevokingAgain` | packages/auth-utils/src/internal/refresh-state.ts:243-257 | Revoking a revoked family changes nothing: the first time and reason stay. |
| `FamilyHistory.IndexHoldsRecent` | packages/auth-utils/src/internal/refresh-state.ts:160-162 | Of the tokens issued, `usedHashes` holds exactly those replaced at most `maxChainLength` rotations ago. |
| `FamilyHistory.VerdictByAge` | packages/auth-utils/src/internal/refresh-state.ts:150-211 | What presenting an issued token to a live family decides, by its age and the clock alone: reuse if and only if it was replaced at most `maxChainLength` rotations ago, a rotation if and only if it is the live one before its expiry, and exactly which refusal otherwise. |
| `FamilyHistory.RefusalTable` | packages/auth-utils/src/internal/refresh-state.ts:150-211 | The whole table, for every history, revoked ones included, and every hash, issued or not, as if-and-only-ifs: `revoked` when the newest version is a revocation of whatever reason, whatever is presented; then reuse; then the deadline of the family; then an unknown token; then the expiry of the token itself; otherwise a rotation. |
| `FamilyHistory.ProofByAge` | packages/auth-utils/src/internal/refresh-state.ts:235-240 | Of the tokens a live family issued, exactly the live one and those replaced at most `maxChainLength` rotations ago prove possession of it. |
| `FamilyHistory.ProofTable` | packages/auth-utils/src/internal/refresh-state.ts:235-240 | For every history and every hash: it proves possession if and only if it is the newest one issued or one replaced at most `maxChainLength` rotations ago. |
| `FamilyHistory.GuessIsInert` | packages/auth-utils/src/internal/refresh-state.ts:178-185 | A hash the family never issued neither rotates nor revokes it, nor counts as proof of possession. |
| `FamilyHistory.DeadlineIsFixed` | packages/auth-utils/src/internal/refresh-state.ts:201-204 | No version changes id, subject, creation or `absoluteExpiresAt`, and a live token never expires after the family. |
| `FamilyHistory.RotationTimes` | packages/auth-utils/src/internal/refresh-state.ts:187-204 | A token is rotated only before its own expiry and the deadline of the family, and its successor lives from then for the sliding lifetime or up to the deadline, whichever ends first. |
| `RefreshStore.MemoryRefreshTokenStore.Read` | packages/auth-utils/src/stores.ts:48-53 | Reading evicts a family past its deadline, changes nothing else, and returns what is left with its revision. |
| `RefreshStore.MemoryRefreshTokenStore.Create` | packages/auth-utils/src/stores.ts:55-59 | Creating succeeds, at revision 1, exactly when no live family has the id; otherwise the live one is untouched. |
| `RefreshStore.MemoryRefreshTokenStore.CompareAndSet` | packages/auth-utils/src/stores.ts:61-68 | The write lands, with the next revision, exactly when the stored revision is the expected one; otherwise nothing changes. |
| `RefreshStore.MemoryRefreshTokenStore.Delete` | packages/auth-utils/src/stores.ts:70-73 | Deleting removes that family and no other. |
| `RefreshTheorems.SingleUse` | packages/auth-utils/src/refresh.ts:264-308 | Over every run of concurrent calls, with families evicted or dropped, store calls failing and writes landing unheard, at most one `rotate` is ever granted for a token, even after its hash left `usedHashes`. |
| `RefreshTheorems.RevokedOnce` | packages/auth-utils/src/internal/refresh-state.ts:243-257 | Per family at most one revoking version is ever committed; nothing is committed after it, and it carries the time and reason of its cause. |
| `RefreshTheorems.RevocationIsTerminal` | packages/auth-utils/src/internal/refresh-state.ts:122-127 | From the moment a family is revoked its stored record and its history stay the same for the rest of every run. |
| `RefreshTheorems.DeadlineNeverMoves` | packages/auth-utils/src/refresh.ts:235-247 | Between any two points of a run a stored family keeps its deadline and subject, and its live token expires no later than it. |
| `RefreshTheorems.StoredIndexMatchesHistory` | packages/auth-utils/src/internal/refresh-state.ts:193-209 | At every point of every run the stored `usedHashes` is the newest stretch of the full history of that family, in order and without repetition. |
| `RefreshTheorems.ReuseVerdictSurvives` | packages/auth-utils/src/refresh.ts:310-328 | A call that concluded reuse on any attempt is never granted and never ends in the contention error; once its retries are spent it answers `reused`. |
| `RefreshTheorems.ReadsAreBounded` | packages/auth-utils/src/refresh.ts:360-388 | No call reads more than `2 * maxRetries` times, and only one that saw reuse goes past `maxRetries`. |
| `RefreshTheorems.LostRaceHasWinner` | packages/auth-utils/src/refresh.ts:292-293 | A compare-and-set fails if and only if another version of the family was committed since the read, or the family is gone. |
| `RefreshTheorems.SecondReportIsExhausted` | packages/auth-utils/src/internal/refresh-state.ts:122-127 | `reused` is answered from within the retry loop at most once per family, under every configuration: of two such answers one came from a call that had spent its retries. |
| `RefreshVerdicts.CallsFollowVerdicts` | packages/auth-utils/src/refresh.ts:270-388 | In every run, whatever a call has read: it stops with the refusal, or tries to add exactly the version, that the history of the family it read calls for; the write lands if and only if nothing was added since and the family is still there, and a lost race leads to the next attempt, to recording the reuse, or to the contention error. |
| `RefreshVerdicts.RevokedReadAnswersIff` | packages/auth-utils/src/internal/refresh-state.ts:154-156 | In every run a rotation whose last read is decided answers `revoked` if and only if the family was revoked as it was read, for whatever reason. |
| `RefreshVerdicts.RevokedFamilyRefuses` | packages/auth-utils/src/internal/refresh-state.ts:154-156 | Over every run, a `rotate` that begins after a family was revoked and is not failed by the store answers `revoked`, or that the family is unknown once it is gone; no such call writes or reports reuse. |
| `RefreshVerdicts.AbsentAnswers` | packages/auth-utils/src/refresh.ts:271-272 | A missing family is unknown to `rotate`; for a revoking call nothing is left to do, and a reuse already seen is still answered. |
| `RefreshVerdicts.ThrowAnswers` | packages/auth-utils/src/refresh.ts:318-328 | A rejecting store call ends the call with that failure, except that a reuse already seen is still answered; nothing is written. |
| `RefreshVerdicts.ReadSees` | packages/auth-utils/src/stores.ts:48-53 | In every run a read returns the newest version of a stored family before the deadline it was issued with; past it the family is evicted and nothing else is. |
| `RefreshVerdicts.FamiliesAreIssued` | packages/auth-utils/src/refresh.ts:235-262 | Every family of every run goes back to one `issue`, and its first version records the id, subject, clock reading, deadline and token of that call. |
| `RefreshReports.LoopReportRevokes` | packages/auth-utils/src/refresh.ts:278-308 | A call that answers `reused` from within its retry loop is the one that revoked the family. |
| `RefreshReports.ReportsOnceIff` | packages/auth-utils/src/refresh.ts:165-169 | In every run `reused` is answered at most once per family, if and only if `maxRetries` exceeds `maxChainLength + 1`; for every other configuration a run with two such answers is built. |
| `RefreshReports.ReportsMeanRevokedIff` | packages/auth-utils/src/refresh.ts:165-169 | In every run `reused` means that the family is revoked or gone, if and only if `maxRetries` exceeds `maxChainLength + 1`; for every other configuration a run is built in which the family stays alive. |
| `RefreshRace.RaceTally` | packages/auth-utils/src/refresh.ts:264-328 | N >= 2 calls race to rotate one live, unexpired token from any reachable state, with `maxRetries` >= 3, every interleaving of their reads and writes, and anything going on meanwhile that does not write to the family: when all have answered, exactly one was granted, one answered `reused`, N - 2 answered `revoked`, and the family is revoked for reuse. |
| `RefreshRaceLimits.TallyHoldsIff` | packages/auth-utils/src/refresh.ts:264-328 | Every race comes out so if and only if there are at least three retries: with one or two, races that come out otherwise are built for every other setting. |
| `RefreshRuns.PlanIsSound` | packages/auth-utils/src/internal/refresh-state.ts:137-257 | Every write a call plans is a legal next version of the family it read. |
| `RefreshRuns.StepKeeps` | packages/auth-utils/src/refresh.ts:264-388 | Every atomic step of every call keeps the invariant that ties stored families, histories, minted hashes and calls together. |
| `RefreshRuns.RunKeeps` | packages/auth-utils/src/refresh.ts:264-388 | So does every run, and histories only grow. |
| `RefreshService.TurnIsEvent` | packages/auth-utils/src/refresh.ts:270-308 | One turn of a retry loop, its store call answered, rejected, or landing unheard, is one step of the concurrent model. |
| `RefreshService.RefreshTokenService.Issue` | packages/auth-utils/src/refresh.ts:227-262 | An empty subject is refused; otherwise a fresh family is created once unless the store rejects, and what is returned describes it. |
| `RefreshService.RefreshTokenService.TryRotate` | packages/auth-utils/src/refresh.ts:271-307 | One attempt of `rotate`: what it answers, what it leaves in the store, whether it saw reuse and when it throws are those of the model step. |
| `RefreshService.RefreshTokenService.RotateLoop` | packages/auth-utils/src/refresh.ts:268-308 | The retry loop, whatever the store holds and answers each time it resumes, runs the call of the model attempt by attempt. |
| `RefreshService.RefreshTokenService.Rotate` | packages/auth-utils/src/refresh.ts:264-338 | `rotate` answers, and writes at every turn, exactly what the call of the concurrent model does, store failures and the swallowed one of the last revocation included; a malformed token touches nothing. |
| `RefreshService.RefreshTokenService.Revoke` | packages/auth-utils/src/refresh.ts:340-346 | `revoke` runs the revoking call of the model that demands proof of possession and ends as it does, a rejecting store included; a malformed token does nothing. |
| `RefreshService.RefreshTokenService.RevokeFamily` | packages/auth-utils/src/refresh.ts:348-350 | `revokeFamily` runs the revoking call of the model that demands no proof and ends as it does. |
| `RefreshService.RefreshTokenService.TryRevoke` | packages/auth-utils/src/refresh.ts:369-382 | One attempt of `revokeById`: missing, already revoked and unproven families end it without a write, and a rejected store call ends it with that failure. |
| `RefreshService.RefreshTokenService.RevokeById` | packages/auth-utils/src/refresh.ts:360-388 | The revoking loop ends as the call of the model does: finished, failed with the store, or with the contention error exactly when every attempt lost its race. |
| `LoginLimiter.MemoryAttemptStore.Increment` | packages/auth-utils/src/stores.ts:106-119 | A failure joins the open window without moving its end, or opens one that ends `windowMs` after the second clock reading. |
| `LoginLimiter.MemoryAttemptStore.Get` | packages/auth-utils/src/stores.ts:121-123 | Reading removes a counter whose window has ended and changes nothing else. |
| `LoginLimiter.MemoryAttemptStore.Reset` | packages/auth-utils/src/stores.ts:125-128 | Resetting removes that counter and no other. |
| `LoginLimiter.Decide` | packages/auth-utils/src/rate-limit.ts:172-180 | An attempt is allowed exactly when some remain, and counted and remaining attempts add up to `maxAttempts` until it is passed. |
| `LoginLimiter.LoginRateLimiter.Check` | packages/auth-utils/src/rate-limit.ts:197-207 | The decision for the counter as read; an empty key is refused, and a failing store denies or allows as configured, leaving the counters alone. |
| `LoginLimiter.LoginRateLimiter.RecordFailure` | packages/auth-utils/src/rate-limit.ts:209-216 | The counter after one more failure, and the decision for the next attempt, with the same error cases. |
| `LoginLimiter.LoginRateLimiter.RecordSuccess` | packages/auth-utils/src/rate-limit.ts:218-235 | The counter is cleared; a failing store is reported only when configured to deny. |
| `GuessingBound.CountersTellFailures` | packages/auth-utils/src/stores.ts:106-123 | Over every run the counter of a key says how many failures were recorded since the one that opened its window, without a reset in between, and its end is when that one was recorded plus the window. |
| `GuessingBound.ResetAtEndsTheWindow` | packages/auth-utils/src/rate-limit.ts:172-180 | `resetAt` is when attempts are free again: as long as nothing else happens to the key, a check before it repeats the decision, and one from then on allows all `maxAttempts`, with a window that would begin with the check. |
| `GuessingBound.FreshResetAt` | packages/auth-utils/src/rate-limit.ts:197-207 | Without a counter the decision already reports the end of the window that a failure at that moment opens. |
| `GuessingBound.EveryWindowIsBounded` | packages/auth-utils/src/rate-limit.ts:71-75 | In every interleaving with at most `overlap` attempts pending per key, a counter and the attempts still pending never exceed `maxAttempts + overlap - 1`. |
| `GuessingBound.GuessesAreBounded` | packages/auth-utils/src/rate-limit.ts:71-75 | Over every half-open interval of length T the failures recorded on a key number at most ceil(T / W) windows of `maxAttempts + overlap - 1`, and one short of one more, for every monotone clock and every interleaving without a success on the key. |
| `GuessingBound.OneWindowLength` | packages/auth-utils/src/rate-limit.ts:71-75 | With attempts made one at a time, fewer than `2 * maxAttempts` failures fall in any interval as long as a window. |
| `GuessingBound.LockedForTheWindow` | packages/auth-utils/src/rate-limit.ts:20-23 | Until a window ends nothing moves its end, however many failures are recorded, and once `maxAttempts` are counted no further attempt is permitted. |
| `GuessingReached.WindowLengthBoundIsReached` | packages/auth-utils/src/rate-limit.ts:71-75 | For every configuration some run reaches `2 * maxAttempts - 1` failures within the length of a window: the bound is exact. |
| `GuessingReached.OverlapBoundIsReached` | packages/auth-utils/src/rate-limit.ts:71-75 | For every configuration and every overlap some run puts `maxAttempts + overlap - 1` failures into one window: the documented bound is the one for attempts that do not overlap. |
| `LruCache.AfterValid` | packages/cache-kit/src/backends/memory.ts:126-132 | Over every trace the map order lists each key once and at most `maxEntries` of them. |
| `LruCache.EntriesAreLastSets` | packages/cache-kit/src/backends/memory.ts:105-137 | Whatever the cache holds for a key is the last set of it not yet deleted, invalidated or read after expiry. |
| `LruCache.HitIsLastSet` | packages/cache-kit/src/backends/memory.ts:94-103 | Every hit returns the value of the last set that has not since expired, been deleted or been invalidated by tag. |
| `LruHits.HitIff` | packages/cache-kit/src/backends/memory.ts:94-148 | Over every trace, told from the operations alone: a `get` of k at `now` hits with v if and only if some `set` of k wrote v without `ttlMs` or with one that `now` has not reached, and none of the operations since set k again, deleted it, invalidated one of the tags it was set with, read it after it ran out, or pushed it out as the key used longest ago of a full cache. |
| `LruCache.OrderIsLastUse` | packages/cache-kit/src/backends/memory.ts:55-59 | Of two cached keys one stands before the other in the map if and only if the other was used since its own last use: map order is last-use order. |
| `LruCache.EvictionNeedsPressure` | packages/cache-kit/src/backends/memory.ts:126-132 | A key leaves the cache only because it was deleted, invalidated or found expired, or because at least `maxEntries` distinct other keys were used since its own last use. |
| `LruCache.RecentKeyIsCached` | packages/cache-kit/src/backends/memory.ts:94-137 | Conversely, a key set and not lost to expiry is there as long as fewer than `maxEntries` other keys were used since. |
| `LruInclusion.RunsStayIncluded` | packages/cache-kit/src/backends/memory.ts:81-148 | Fed the same trace, the entries of the smaller backend are an order-preserving sublist of those of the larger, with the same contents, after every step. |
| `LruInclusion.MoreRoomLosesNoHit` | packages/cache-kit/src/backends/memory.ts:81-148 | So every hit of the smaller backend is the same hit in the larger one: more room never loses a hit. |
| `MemoryBackend.MemoryBackend.constructor` | packages/cache-kit/src/backends/memory.ts:49-60 | A backend starts empty and valid. |
| `MemoryBackend.MemoryBackend.Untag` | packages/cache-kit/src/backends/memory.ts:66-78 | The key leaves the set of each listed tag, repeated tags included, other sets keep theirs, and no empty set stays behind. |
| `MemoryBackend.MemoryBackend.RemoveKey` | packages/cache-kit/src/backends/memory.ts:80-86 | A key goes with its tag memberships; the index stays the exact inverse of the entries. |
| `MemoryBackend.MemoryBackend.Get` | packages/cache-kit/src/backends/memory.ts:94-103 | The answer and the new order are those of the LRU specification, and the invariant is kept. |
| `MemoryBackend.MemoryBackend.Set` | packages/cache-kit/src/backends/memory.ts:105-133 | The new map is that of the LRU specification, eviction included, and the tag index stays its exact inverse. |
| `MemoryBackend.MemoryBackend.Delete` | packages/cache-kit/src/backends/memory.ts:135-137 | The key goes, nothing else does, and the invariant is kept. |
| `MemoryBackend.MemoryBackend.InvalidateTag` | packages/cache-kit/src/backends/memory.ts:139-148 | Exactly the entries carrying the tag go, though the set iterated shrinks meanwhile, and the tag leaves the index. |
| `RedisBackend.TraceIsSafe` | packages/cache-kit/src/backends/redis.ts:142-222 | Over every trace of operations with values and tag lists expiring at any moment, each live value is the last one set, and is a member of the set of every tag it was written with. |
| `RedisBackend.HitIsLastSet` | packages/cache-kit/src/backends/redis.ts:124-140 | Every hit returns the last value set and not deleted or invalidated since. |
| `RedisBackend.InvalidateLeavesNone` | packages/cache-kit/src/backends/redis.ts:185-222 | `invalidateTag` leaves no live value that was written with the tag. |
| `RedisBackend.TimelessIsExact` | packages/cache-kit/src/backends/redis.ts:83-93 | On traces without `ttlMs`, a key is readable exactly when the trace says so, and tag sets and tag lists are exact inverses. |
| `RedisBackend.AgreesWithMemory` | packages/cache-kit/src/backends/redis.ts:124-222 | On such traces every read agrees with a memory backend that has not run out of room. |
| `RedisBackend.SetCleansIffListed` | packages/cache-kit/src/backends/redis.ts:147-164 | A `set` leaves the key in the sets of exactly its new tags if and only if every other set it was in is still listed in its tag list. |
| `RedisStaleness.TraceTells` | packages/cache-kit/src/backends/redis.ts:142-222 | The trace alone tells which tags the list of a key names and which sets still hold it unlisted, under any expiry. |
| `RedisStaleness.WronglyDeletedIffStale` | packages/cache-kit/src/backends/redis.ts:95-104 | A live value whose last `set` does not carry a tag is deleted by invalidating it if and only if an earlier `set` carried it, the tag list written then expired before anything cleaned it up, and neither the tag was invalidated nor a `set` carrying it came since. |
| `RedisBackend.StaleMembershipDeletes` | packages/cache-kit/src/backends/redis.ts:95-104 | A run where this happens: a tagged value expires, its key is set again without the tag, and invalidating the tag deletes it; the gap is not harmless. |
| `RedisBackend.RedisBackend.Set` | packages/cache-kit/src/backends/redis.ts:142-169 | The queued commands, applied as one, change the three key families as specified. |
| `RedisBackend.RedisBackend.Delete` | packages/cache-kit/src/backends/redis.ts:171-183 | Value and tag list go, and the key leaves every set it lists. |
| `RedisBackend.RedisBackend.InvalidateTag` | packages/cache-kit/src/backends/redis.ts:185-222 | Every member of the set goes with its tag list and all its memberships, and the set itself goes. |
| `SingleFlight.OneFetchPerKey` | packages/cache-kit/src/client.ts:72-93 | Under every interleaving of lookups, fetches and stores at most one fetch per key is running. |
| `SingleFlight.JoinersShareOutcome` | packages/cache-kit/src/client.ts:76-77 | Every caller handed a promise settles with the outcome of that fetch, for its own key. |
| `FetchOutcomes.LookupLeadsTo` | packages/cache-kit/src/client.ts:72-93 | A hit is returned at once and starts, joins and registers nothing; so is an error that is not the backend's, as a failure; a miss or a backend error joins the fetch registered for the key or starts the one it registers. |
| `FetchOutcomes.UnjoinedCallersReadIt` | packages/cache-kit/src/client.ts:73-74 | Over every run a caller that returned without a fetch got the hit its own lookup read, or the error that lookup ended with. |
| `FetchOutcomes.FetchesNeedAMiss` | packages/cache-kit/src/client.ts:73-92 | Every fetch of every run was started by a lookup that missed, or met a backend error, at a point where no fetch was registered for its key. |
| `FetchOutcomes.FetchesSettleAsTold` | packages/cache-kit/src/client.ts:39-53 | Over every run a fetch settles with the error its fetcher threw or rejected with, with the value it resolved to once storing that went well or met a swallowed backend error, or with the other error storing met. |
| `FetchOutcomes.ReturnsAreFinal` | packages/cache-kit/src/client.ts:72-93 | What a caller was given never changes for the rest of the run. |
| `FetchOutcomes.NobodyIsStuck` | packages/cache-kit/src/client.ts:72-93 | Over every run a caller that has not returned has a step to come: its lookup, a step of the fetch it joined, or the delivery of the outcome that fetch has. |
| `SingleFlight.RegisteredWhileRunning` | packages/cache-kit/src/client.ts:39-53 | `inFlight` holds a key exactly while a fetch for it runs, if and only if no fetcher of that key ever threw instead of returning a promise. |
| `SingleFlight.ThrowingFetcherSticks` | packages/cache-kit/src/client.ts:45-52 | After a fetcher of a key throws synchronously, no fetch for that key is ever started again and its registration never goes away. |
| `SingleFlight.ThrowingFetcherReached` | packages/cache-kit/src/client.ts:39-53 | This happens: from every state in which nobody is fetching a key, a fetcher that throws leaves it registered with no fetch running, and the next caller that misses is given its failure. |
| `SingleFlight.CacheClient.RunFetcherOnce` | packages/cache-kit/src/client.ts:39-53 | The stretch up to the first await: a throw runs the `finally` before the promise is registered. |
| `SingleFlight.CacheClient.ContinueWrap` | packages/cache-kit/src/client.ts:72-93 | From the answer of the lookup on, `wrap` makes exactly the step of the protocol, keeping its invariant. |
| `SingleFlight.CacheClient.FinallySettle` | packages/cache-kit/src/client.ts:45-52 | The `finally` takes out its own registration and no other. |
| `Truth.All` | packages/access-control/src/internal/truth.ts:31-38 | The loop computes the Kleene conjunction. |
| `Truth.Any` | packages/access-control/src/internal/truth.ts:46-53 | The loop computes the Kleene disjunction. |
| `Truth.ConnectivesAreMonotone` | packages/access-control/src/internal/truth.ts:31-53 | More information never changes a verdict a connective has reached. |
| `OperatorLaws.ConnectivesAreDual` | packages/access-control/src/internal/truth.ts:31-68 | A conjunction is true when all operands are and false when one is, and negation turns it into the disjunction of the negations. |
| `Conditions.ResolvePath` | packages/access-control/src/internal/resolve.ts:130-152 | The loop walks own properties segment by segment, stopping at the first that is not a value. |
| `OperatorLaws.SplitJoins` | packages/access-control/src/internal/resolve.ts:131-132 | Splitting a path loses nothing and leaves no dot inside a segment. |
| `OperatorLaws.PathsReadTheirRoot` | packages/access-control/src/internal/resolve.ts:130-152 | `principal.`, `resource.` and `env.` before a key without a dot read that own property of the principal, the resource and the environment respectively, when it was supplied as an object. |
| `OperatorLaws.OtherPathsAreOpen` | packages/access-control/src/internal/resolve.ts:130-145 | A path without a dot, one that starts from anything but the three roots, and one into a root that was not supplied as an object are unresolved. |
| `OperatorLaws.PathExtends` | packages/access-control/src/internal/resolve.ts:147-151 | A path one segment longer reads one more own property of what the shorter one reached, or ends where it ended. |
| `OperatorLaws.PresenceAlongPath` | packages/access-control/src/internal/evaluate.ts:183-190 | `exists` on a path one segment longer: true exactly of an own property that JSON could carry, unknown exactly when the read throws or the shorter path was unknown, false past anything that is missing or no object. |
| `OperatorLaws.OrderIsTotal` | packages/access-control/src/internal/evaluate.ts:69-88 | For two numbers or two strings, NaN aside, exactly one of lt, eq and gt holds, and gte and lte are the complements. |
| `OperatorLaws.OrderIsTransitive` | packages/access-control/src/internal/evaluate.ts:69-88 | The order is transitive. |
| `OperatorLaws.OrderIsTheUsualOne` | packages/access-control/src/internal/evaluate.ts:69-88 | It is the usual order on numbers, puts a proper prefix first, and holds of nothing with NaN. |
| `OperatorLaws.NegationNeedsOperands` | packages/access-control/src/internal/evaluate.ts:91-126 | `nin` and `ne` hold exactly when both operands are there, of the shapes they are for, and `in` or `eq` does not hold: a missing attribute satisfies neither. |
| `OperatorLaws.MembershipIsEquality` | packages/access-control/src/internal/evaluate.ts:96-105 | A value is in an array exactly when it equals a member, whatever else the array holds; NaN equals nothing. |
| `OperatorLaws.ReferencesAreLiterals` | packages/access-control/src/internal/evaluate.ts:192-199 | A reference decides like a literal with the same value or the same items, on the same side of the operator. |
| `Conditions.FuseIsInvisible` | packages/access-control/src/internal/evaluate.ts:156-158 | On conditions nested no deeper than the limit the evaluator equals the unbounded Kleene semantics, in every environment. |
| `Conditions.EvaluateIsMonotone` | packages/access-control/src/internal/evaluate.ts:156-204 | Supplying roots that were left out turns an unknown verdict into a known one at most. |
| `OperatorLaws.UnmentionedRootsDoNotMatter` | packages/access-control/src/internal/evaluate.ts:156-204 | The verdict of a condition does not change with a root that none of its paths and references goes into. |
| `Roles.Closure` | packages/access-control/src/internal/roles.ts:23-40 | The worklist ends on every graph, cyclic or not, with exactly the roles reachable by inheritance. |
| `Roles.BuildRoleClosures` | packages/access-control/src/internal/roles.ts:19-42 | Every declared role gets the set of exactly what it reaches. |
| `Roles.ResolveEffectiveRoles` | packages/access-control/src/internal/roles.ts:78-109 | A principal holds exactly the roles its declared claims reach, and its undeclared claims are listed once each, in order. |
| `Roles.ClaimsAreTexts` | packages/access-control/src/internal/roles.ts:99-101 | The claims are exactly the strings of the list, whatever else it holds. |
| `Roles.UndeclaredInOrder` | packages/access-control/src/internal/roles.ts:102-105 | Undeclared claims are listed in the order in which they are first made. |
| `Engine.AllowedIff` | packages/access-control/src/engine.ts:249-294 | Fail closed: a question is allowed exactly when its names are declared, some applicable allow rule certainly holds, and every applicable deny rule certainly does not. |
| `DecisionLaws.DecisionTable` | packages/access-control/src/engine.ts:249-294 | When each of the six reasons is given, over all rules: undeclared names first, then a certain denial, then one that cannot be evaluated, then a certain grant, then nothing. |
| `DecisionLaws.ReportedRuleIsFirst` | packages/access-control/src/engine.ts:269-291 | The id in a decision is that of the first rule of the policy that gives its reason, and of no later one. |
| `DecisionLaws.UnmentionedRootsDoNotDecide` | packages/access-control/src/engine.ts:259-293 | A decision does not depend on a root that no condition of the policy goes into. |
| `DecisionLaws.OwnersOnly` | packages/access-control/src/engine.ts:235-294 | From the policy down to the data: under one rule that allows when an attribute of the resource equals one of the principal, a question is allowed if and only if `context.resource` and the principal are objects that have the two as own properties with the same usable value. |
| `Engine.RuleOrderIsIrrelevant` | packages/access-control/src/engine.ts:235-294 | Permuting or repeating rules changes neither outcome nor reason. |
| `Engine.GrantsAreMonotone` | packages/access-control/src/engine.ts:259-293 | A grant made without some attributes stands whatever is supplied later. |
| `Engine.OmissionNeverGrants` | packages/access-control/src/engine.ts:259-293 | Leaving a root out never turns a denial into a grant. |
| `Engine.SelectKeepsFirst` | packages/access-control/src/engine.ts:214-224 | A bucket finds the same first rule that scanning the whole policy finds. |
| `Engine.AccessControl.constructor` | packages/access-control/src/engine.ts:200-224 | Compilation yields exact role closures, and per declared subject exactly the deny and allow rules that cover it, in policy order. |
| `Engine.AccessControl.For` | packages/access-control/src/engine.ts:228-233 | Binding a principal expands its roles once, exactly as reachability says. |
| `Engine.AccessControl.MatchesRoles` | packages/access-control/src/engine.ts:128-135 | A rule without roles is for everyone, and otherwise for those holding one of its roles. |
| `Engine.AccessControl.ScanDenies` | packages/access-control/src/engine.ts:269-281 | The scan finds a certain denial if there is one, and otherwise whether one could not be evaluated, with the id of the first. |
| `Engine.AccessControl.ScanAllows` | packages/access-control/src/engine.ts:286-290 | The scan grants exactly when an allow rule is certain, with the id of the first. |
| `Engine.AccessControl.Decide` | packages/access-control/src/engine.ts:235-294 | Over buckets and closures `decide` gives the outcome, reason, rule id and unknown roles that scanning all rules over the inheritance graph gives. |
| `Engine.AccessControl.Explain` | packages/access-control/src/engine.ts:228-300 | `for(principal)` and then `explain`: roles come from the principal's own `roles`, and the roots are the principal and the own `resource` and `env` of the context. |
| `Validation.AcceptedConditionsMeanWhatTheySay` | packages/access-control/src/internal/evaluate.ts:149-157 | The bounded evaluation of every accepted condition equals the unbounded semantics in every environment; both pass over the holes among operands. |
| `Validation.VacuousIffOnlyHoles` | packages/access-control/src/internal/validate.ts:182-207 | An accepted `all` or `any` is decided without any operand if and only if its array holds nothing but holes; the `all` is then true and the `any` false, whatever the attributes. |
| `Validation.AcceptedIsNormal` | packages/access-control/src/internal/validate.ts:145-296 | Every accepted condition is within the limit, over walkable paths and with literals that fit their operators, and every operand and literal is there if and only if no array in it had a hole. |
| `Validation.ConditionRoundTrip` | packages/access-control/src/internal/validate.ts:145-296 | A normal condition, written out, is accepted and read back unchanged. |
| `Validation.RuleRoundTrip` | packages/access-control/src/internal/validate.ts:299-442 | So is a normal rule. |
| `Validation.AcceptedPolicyIsNormal` | packages/access-control/src/internal/validate.ts:527-581 | Every accepted policy has declared, distinct names, rules over declared names, closed roles, conditions within the limit and unique ids; every list names something and every operand is there if and only if no list of names consists of holes and no condition has one. |
| `Validation.HolesAreAccepted` | packages/access-control/src/internal/validate.ts:77-105 | Lists of one hole are accepted as `actions` and `subjects`, and the policy that comes out is refused when it is validated again. |
| `PolicyFormat.PathAcceptedIff` | packages/access-control/src/internal/validate.ts:108-132 | A text is accepted as a path if and only if it is one of the three roots and at least one more segment, none empty or reserved, joined by dots. |
| `PolicyFormat.AcceptedSays` | packages/access-control/src/internal/validate.ts:145-296 | An accepted condition is what was written, read against the words of the format: combinator, operator, path, literal and reference. |
| `PolicyFormat.AcceptedPolicySays` | packages/access-control/src/internal/validate.ts:527-581 | So is an accepted policy: no field beside the known ones, the names, roles and inheritance written, and rule by rule the effect, names, roles, condition, id and description. |
| `PolicyFormat.NamesAreInOrder` | packages/access-control/src/internal/validate.ts:77-105 | The names of a list come out in the order in which they are first written. |
| `PolicyFormat.NameListAcceptedIff` | packages/access-control/src/internal/validate.ts:77-105 | `actions` and `subjects` are accepted if and only if they are arrays with something in them, of strings that are not empty and not `*`. |
| `PolicyFormat.RolesAcceptedIff` | packages/access-control/src/internal/validate.ts:445-518 | Roles are accepted if and only if they are left out, an array of usable names, or a map from usable names to arrays of names that are declared in it. |
| `PolicyFormat.RulesAcceptedIff` | packages/access-control/src/internal/validate.ts:540-561 | Rules are accepted one by one, and holes among them are passed over. |
| `PolicyFormat.IdsAcceptedIff` | packages/access-control/src/internal/validate.ts:540-561 | Rules that are normal one by one are accepted together if and only if no two carry the same id. |
| `PolicyFormat.NestingAcceptedIff` | packages/access-control/src/internal/validate.ts:145-156 | A condition under any number of negations is accepted if and only if the nesting is at most 32 levels deep. |
| `PolicyFormat.DeepNestingIsUndecided` | packages/access-control/src/internal/evaluate.ts:156-158 | Evaluated all the same, anything under so many negations that the limit is passed is unknown, whatever it says. |
| `Validation.NormalPolicyIsAccepted` | packages/access-control/src/internal/validate.ts:527-581 | Every normal policy, written out, is accepted as it is. |
| `Validation.ValidationIsIdempotent` | packages/access-control/src/internal/validate.ts:527-581 | Validating the result of a validation succeeds and returns an equal policy if and only if every list of names in it names something and no list of literals has `undefined` where a hole was; without holes it always does. |
| `PolicyExact.ConditionAcceptedIff` | packages/access-control/src/internal/validate.ts:145-296 | A value without holes is accepted as a condition if and only if it is how that condition is written and the condition is normal. |
| `PolicyExact.AcceptedPolicyIsWritten` | packages/access-control/src/internal/validate.ts:527-581 | An accepted policy that repeats no name, has no holes and has its roles in map form is exactly the written form of what is returned: validation drops duplicates and holes and nothing else. |
| `PolicyWire.PolicyCrossesIff` | packages/access-control/src/internal/validate.ts:284-290 | A validated policy sent as JSON is accepted again, and is then the same policy, if and only if every list names something, no operand is missing and no `in` or `nin` list holds anything but finite numbers, strings and booleans; otherwise it is refused. |
| `PolicyWire.SomePolicyDoesNotCross` | packages/access-control/src/internal/validate.ts:265-275 | A condition with NaN in a list is accepted here and refused after the crossing. |
| `PolicyReader.CollectNames` | packages/access-control/src/internal/validate.ts:338-352 | The shared loop keeps each allowed name once, in order, and records an issue for anything else. |
| `PolicyReader.ReadNameList` | packages/access-control/src/internal/validate.ts:77-105 | A name list comes back, each name once, exactly when no issue was recorded. |
| `PolicyReader.CheckPath` | packages/access-control/src/internal/validate.ts:108-132 | An issue is recorded exactly for a path that cannot be walked. |
| `PolicyReader.ReadCondition` | packages/access-control/src/internal/validate.ts:145-209 | Reading a condition records no issue exactly when it is acceptable, and then returns it; whenever nothing comes back an issue was recorded. |
| `PolicyReader.ReadLeaf` | packages/access-control/src/internal/validate.ts:211-296 | The same for a leaf, although a condition can come back beside an issue. |
| `PolicyReader.ReadSelector` | packages/access-control/src/internal/validate.ts:321-354 | The same for a selector. |
| `PolicyReader.ReadRule` | packages/access-control/src/internal/validate.ts:299-442 | A rule comes back exactly when reading it recorded no issue. |
| `PolicyReader.ReadRoleList` | packages/access-control/src/internal/validate.ts:450-471 | The array form of roles gives each name an empty list. |
| `PolicyReader.ReadRoleMap` | packages/access-control/src/internal/validate.ts:481-517 | The two passes over the map form: usable names first, then what each inherits among them. |
| `PolicyReader.ReadRoleGraph` | packages/access-control/src/internal/validate.ts:445-518 | Either form, or none, is read into the same graph, exactly when no issue was recorded. |
| `PolicyReader.ReadRules` | packages/access-control/src/internal/validate.ts:540-561 | Rules are read in order, and a repeated id is an issue of its own. |
| `PolicyReader.ValidatePolicy` | packages/access-control/src/internal/validate.ts:527-581 | A policy comes back exactly when no issue was collected, and it is the specified one. |
| `ErrorChains.SerializeUnknownError` | packages/core/src/errors.ts:140-173 | The walk with its growing seen-set computes the specified chain. |
| `ErrorChains.ToJsonFollowsCauses` | packages/core/src/errors.ts:330-332 | On every graph, cyclic or not, `toJSON` lists the objects along the causes, in order, each once and at most 17, up to the first that is missing or already listed. |
| `ErrorChains.FieldsWritten` | packages/core/src/errors.ts:160-172 | A serialised link has its name and message, the fields of an `AppError` when it is one, and `details` and `cause` only when there are any, and nothing else. |
| `ErrorChains.FromJson` | packages/core/src/errors.ts:357-368 | A value is accepted exactly when name, message and code are strings and httpStatus is a number; anything else is an error result, never a throw. |
| `ErrorChains.RevivedSerializes` | packages/core/src/errors.ts:584-648 | What a chain is revived into serialises to that chain, link by link, unknown kinds replaced by `AppError`. |
| `ErrorChains.AcceptedIsRebuilt` | packages/core/src/errors.ts:584-648 | Whatever is accepted, each link of the rebuilt chain has the name, message, code, status and details written in the corresponding link of the input, the built-in class its `kind` names or `AppError`, and a cause where one could be read within the limit. |
| `ErrorChains.RoundTripIffKindsAreBuiltIn` | packages/core/src/errors.ts:319-322 | toJSON(fromJSON(toJSON(e))) equals toJSON(e) if and only if every kind in the chain is a built-in one; custom kinds fall back to `AppError`, everything else is kept. |
| `ErrorChains.AcceptedInputIsStable` | packages/core/src/errors.ts:603-648 | Whatever untrusted value is accepted, the error built from it survives every further round trip unchanged. |
| `StopAll.StopOrderIsRight` | packages/bootstrap/src/service.ts:181-186 | The order lists each resource once, by `stopOrder` ascending and by registration descending. |
| `StopAll.StopOrderIsUnique` | packages/bootstrap/src/service.ts:181-186 | No other order does, so this is what any correct sort returns. |
| `StopAll.OutcomeOfTurns` | packages/bootstrap/src/service.ts:206-234 | Whatever each stop does, `failed` lists exactly those that threw before the deadline was noticed and `pending` exactly those not settled by then. |
| `StopAll.StopAll` | packages/bootstrap/src/service.ts:177-247 | The loop gives that outcome; the order is what settled followed by `pending`, `failed` is a subsequence of what settled, and `timedOut` holds exactly when `pending` is not empty. |
| `LifecycleTheorems.StepKeeps` | packages/bootstrap/src/service.ts:279-368 | Every stretch of `start`, `shutdown`, signals and stops keeps the lifecycle invariant. |
| `LifecycleTheorems.ModesFollowEdges` | packages/bootstrap/src/service.ts:286-355 | Under every interleaving the state moves only along the declared edges. |
| `LifecycleTheorems.StoppedAtMostOnce` | packages/bootstrap/src/service.ts:298-354 | In the whole life of a service each resource is stopped at most once, rollback and shutdown together, in stop order, and only those that had started, as counted over the run. |
| `LifecycleTheorems.ResultAccountsForAll` | packages/bootstrap/src/service.ts:354-367 | The shutdown result of a started service accounts for every resource, and `ok` means that each was stopped and returned in time. |
| `LifecycleTheorems.ResultIsFinal` | packages/bootstrap/src/service.ts:328-330 | Once there is a result no event changes it, the state, the registrations or the stops. |
| `LifecycleTheorems.ResultIsShared` | packages/bootstrap/src/service.ts:328-330 | Every later call and signal of a run shares that one result. |
| `LifecycleTheorems.ReasonIsTheFirst` | packages/bootstrap/src/service.ts:328-330 | Over every run the result of a shutdown gives the reason of the call or signal that began it, and of no later one. |
| `LifecycleTheorems.ExitsOnce` | packages/bootstrap/src/service.ts:157-163 | Each signal that begins a shutdown attaches its own call of `exit`: called or still pending there is exactly one if a signal began the shutdown and none otherwise, and it is called with 0 exactly when the result is ok. |
| `LifecycleOutcomes.RegisteredIff` | packages/bootstrap/src/service.ts:257-266 | Over every run a service has exactly the resources registered before anything but registering was done, the first of each name. |
| `LifecycleOutcomes.StartupIsTold` | packages/bootstrap/src/service.ts:279-324 | Over every run, told from the events: the startup begins if and only if `start` was called before anything but registering, waits for the resource after those that have started, is over once all have, and is rolled back if and only if one failed to start. |
| `LifecycleOutcomes.SignalsAreHeard` | packages/bootstrap/src/service.ts:286-311 | Signals are heard exactly while the service is starting, running or stopping; `addResource`, `start` and `shutdown` can be called at any time. |
| `LifecycleOutcomes.ShutdownLeadsTo` | packages/bootstrap/src/service.ts:328-354 | The first call or signal waits for a startup under way; with nothing running it is over at once, and `ok` unless the startup failed; otherwise it drains for the lesser of delay and budget, if that is positive, or goes on to stop the resources. Later ones change nothing. |
| `LifecycleOutcomes.ShutdownLeadsOn` | packages/bootstrap/src/service.ts:331-354 | So it goes on after the startup it waited for, and after draining it stops the resources. |
| `LifecycleOutcomes.ResultIsTold` | packages/bootstrap/src/service.ts:177-247 | Over every run of a started service, from how the races of its stops ended and when stopping began: `failed` are those whose stop threw before the deadline was noticed, `pending` those from there on, nothing else was stopped, and a budget that draining or waiting has used up stops nothing. |
| `LifecycleOutcomes.RollbackIsTold` | packages/bootstrap/src/service.ts:303-311 | Over every run a failed startup has stopped those that had started, in stop order, up to a deadline that is the whole budget. |
| `LifecycleOutcomes.ShutdownGoesOn` | packages/bootstrap/src/service.ts:328-368 | Over every run a shutdown that has begun and not ended has a step of the service itself to take. |
| `LifecycleOutcomes.ShutdownEnds` | packages/bootstrap/src/service.ts:328-368 | And it takes at most `3 n + 5` of them for n resources, however often it is called or signalled meanwhile: every shutdown ends. |
| `LifecycleOutcomes.ExitIsDue` | packages/bootstrap/src/service.ts:157-163 | After a shutdown that a signal began, the call of `exit` with the code of the result is due until it has been made. |
| `ServiceObject.Service.OnSignal` | packages/bootstrap/src/service.ts:157-163 | A signal begins a shutdown and attaches a call of `exit` to it, or is ignored when one is under way. |
| `ServiceObject.Service.Shutdown` | packages/bootstrap/src/service.ts:328-331 | The first call begins the shutdown, waiting for a startup in progress; every other call changes nothing. |
| `ServiceObject.Service.ShutdownStarted` | packages/bootstrap/src/service.ts:333-354 | What follows the wait: nothing to stop, or stopping with the drain delay capped by the budget. |
| `ServiceObject.Service.RaceSettled` | packages/bootstrap/src/service.ts:213-234 | What follows the race for one resource is the step of the model, and calls the next stop at most. |
| `Redaction.RedactValue` | packages/logger/src/internal/redact.ts:84-132 | The walk ends on every finite graph, with or without a depth limit, leaves `ancestors` as it found it, and renders the specified value. |
| `Redaction.RedactFields` | packages/logger/src/internal/redact.ts:135-142 | Redaction starts at depth 0 with no ancestors. |
| `RedactionTheorems.SecretsDoNotInterfere` | packages/logger/src/internal/redact.ts:84-132 | Two graphs, matched object by object, that differ only under sensitive keys and in which secret-shaped string stands in a position are rendered alike. |
| `RedactionTheorems.NothingSecretIff` | packages/logger/src/internal/redact.ts:84-132 | With markers that are not secret-shaped themselves, no secret-shaped string comes out if and only if no path without a sensitive key leads, within the limit, to an error, date, regular expression or big integer that prints one. |
| `RedactionTheorems.ErrorMessageLeaks` | packages/logger/src/internal/redact.ts:103 | A secret-shaped message of an error logged under any key that is not sensitive comes out as it is. |
| `RedactionTheorems.PathIsRendered` | packages/logger/src/internal/redact.ts:109-131 | What stands in the output at a path is the rendering of what the path leads to, with exactly the objects on the way as ancestors. |
| `RedactionTheorems.OutputMirrorsInput` | packages/logger/src/internal/redact.ts:79-83 | Below the depth limit `[Circular]` stands exactly where an object is its own ancestor; otherwise containers keep their kind, length and keys, and leaves survive unless secret-shaped. |
| `RedactionTheorems.SensitiveFieldsAreReplaced` | packages/logger/src/internal/redact.ts:122-129 | Under a sensitive key stands the replacement, however deep it is. |
| `RedactionTheorems.LimitIsMarked` | packages/logger/src/internal/redact.ts:90 | Whatever lies one level past the limit is the depth marker. |
| `RedactionTheorems.SummariesAreRendered` | packages/logger/src/internal/redact.ts:93-107 | Of a function, a symbol, a map or a set nothing comes out but its kind and, in decimal, its size; a big integer comes out as its digits. |
| `KeyMatching.FieldIsReplacedIff` | packages/logger/src/internal/redact.ts:122-129 | Wherever an object is rendered, a field comes out as the replacement if its key spells a configured fragment: its letters and digits one after the other, in any case, with any other characters in between. Any other field comes out as its value is rendered. |
| `KeyMatching.FragmentInAnyCase` | packages/logger/src/internal/redact.ts:67-70 | So a key with a fragment anywhere in it, in whatever case, is replaced. |
| `KeyMatching.DefaultsHideCredentials` | packages/logger/src/internal/redact.ts:9-25 | With the default fragments, and whatever is added to them, `Authorization`, `apiKey` and `dbPassword` are replaced. |
| `KeyMatching.OptionsOnlyAdd` | packages/logger/src/internal/redact.ts:54-65 | With options a key is sensitive exactly when it spells a default fragment or an added one, and a string is secret-shaped exactly when a default pattern or an added one says so: options only add. Without them the replacement is `[REDACTED]` and the limit 20. |
| `KeyMatching.FragmentsMatchAsDocumentedIff` | packages/logger/src/internal/redact.ts:67-70 | With one fragment, and a limit that lets fields be rendered, exactly the fields whose keys spell its lower-cased form are replaced, as documented, if and only if lower-casing leaves the fragment as it is or gives it a character no stripped key can contain. |

## Left out

- Token format, hashing, random bytes and password handling: a token is a family id and a hash, minted hashes are fresh, and comparing hashes is equality. The text a token is sent as is not part of this model.
- Clocks, timers and promises: every clock reading is an input, and only which step runs next is modelled, not the microtask queue.
- RefreshRace.RaceTally: it is about races in which no other call writes to the family and no store call fails; runs with other writers are covered by the theorems of `RefreshTheorems` and `RefreshReports`.
- Configuration errors of the constructors: the configurations accepted are subset types, and the refusals themselves are not modelled.
- GuessingBound.GuessesAreBounded: failures of the attempt store and successes on the key itself are excluded, since each of them resets or bypasses the count.
- Redis transport, partial pipelines and operations that overlap: each operation takes effect as one, values are not encoded, and expiry may happen between any two operations.
- MemoryBackend.MemoryBackend.constructor: a capacity that is not a whole number of at least one is excluded, and time to live is a whole number.
- Re-entrant callbacks: a fetcher that calls the cache back synchronously, or a resource whose `start` or `stop` calls the service.
- StopAll.StopAll: a `stop` that resolves to the very text the deadline uses would be taken for the deadline; stops are taken to return nothing.
- Health checks, probes, HTTP draining, environment parsing, log lines and transports: settled by reading one branch, or input and output.
- Prototype pollution, getters with side effects, frozen objects and branding: values are data with own properties, and a read that throws is one variant. A throwing read inside a policy makes the validator throw; here it counts as an issue. An array element whose read throws is not modelled, and a logged array has no holes.
- Issue texts and their paths in the validator: only whether there are issues and what is returned. An unknown operator that cannot be printed makes the validator throw, and here it is an issue.
- The order of object keys: role graphs are maps, and rules name roles as sets.
- Engine.AccessControl.Decide: policies are taken as validated, so the branches for forged selectors are not modelled.
- Engine.AccessControl.Explain: values have own properties only, so a `roles` that a principal inherits is not modelled; nor is a check that throws because reading `roles`, `resource` or `env` does.
- Characters: text is ordered character by character, so strings with surrogate pairs may be ordered differently in JavaScript; a key is lower-cased character by character, so lower-casing that depends on the neighbours is excluded. `KeyMatching` takes ASCII to be lower-cased as usual and any other character to leave at most one ASCII letter or digit, as every character of Unicode does.
- Numbers: real numbers with NaN and the infinities, without rounding and without negative zero.
- Regular expressions of the redactor: arbitrary predicates without state, so patterns with the global or sticky flag are excluded. Dates that cannot be printed are excluded too.
- HTTP client, API kit, framework guards, React bindings and branded strings: wrappers around what is modelled, or single-branch code.
