# A model of the authentication, rate-limiting and outbox core

This project models, in Dafny, the parts of the service whose correctness depends on
several statements, calls or processes working together, and proves what they promise.
Protocols are state machines: a step function over one explicit state, where an action
that is not enabled changes nothing, so that every list of actions is a run. Code that
changes objects, maps or tables in place is a class with the same fields, and its
methods are proved against functions of the old state.

- **Refresh-token sessions** (`SessionRows`, `SessionProtocol`, `SessionSafety`,
  `SessionCredentials`, `SessionUsers`, `SessionCleanup`, `SessionCleanupRuns`): rows
  changed by guarded statements, and any number of login, refresh, logout, validation,
  update and cleanup calls interleaved at every statement, each of which can also fail
  before or after it took effect.
- **The rate limiter** (`RateLimit`, `Gcra`, `Expiry`, `RatePromise`, `Redis`,
  `MemcachedExpiry`, `Memcached`, `MemcachedSafety`, `MemcachedClient`): the
  virtual-scheduling algorithm of ITU-T I.371 Annex A, its equality with a token bucket,
  what expiry does to it, and its two distributed forms.
- **The transactional outbox** (`Outbox`, `OutboxPublisher`, `Backoff`, `OldestFirst`,
  `OutboxDrain`, `OutboxProtocol`, `OutboxSafety`, `OutboxDelivery`, `AuthEvents`,
  `OutboxCleanup`, `BoundedPublisher`): one publisher run, concurrent runs with row locks,
  a broker that may accept what it reports as failed, redelivery, the history consumer,
  cleanup, and the publisher's slots.
- **Canonical tokens** (`Base64Url`, `Tokens`): section 5 of RFC 4648 with the canonical
  encoding of its section 3.5, and the compact serialization of section 7.1 of RFC 7515.
- **In-memory structures** (`StableSort`, `PriorityQueue`, `Interceptors`, `Metrics`,
  `MetricsInjective`, `LastUsed`, `UserRoles`, `UserPermissions`).

Times are integers in the unit the code uses at that place: nanoseconds for durations,
microseconds for rate-limit clocks. Widths are written out where the code guards them.

## Where the code and its promise differ

The model follows the code. Seven promises hold only under a condition. Each condition is
proved exact and comes with an input that fails without it.

- Replacing a vanished memcached item linearizes iff the add's sample is not before that
  item's stored time. The padding second does not ensure this for a get that comes later
  than its sample: with the limiters whose TTL is just one refill, two requests can pass
  within one interval (`MemcachedSafety.LinearizesIff`,
  `MemcachedSafety.LateAddOverAdmits`).
- A Redis key lives for the retention truncated to milliseconds, so a bucket can be
  forgotten up to a millisecond before it has refilled (`Redis.LifetimeSufficesIff`,
  `Redis.TruncatedLifetimeOverAdmits`).
- The interval is truncated to microseconds, so more tokens than the configured rate can
  be refilled in a window (`RatePromise.KeepsRateIff`,
  `RatePromise.TruncatedIntervalBreaksRate`).
- A delay of 1 ns is jittered to zero, so a failed message stays due
  (`OutboxDrain.RetryIsLaterIff`, `OutboxDrain.DrainsAllIff`).
- Deleting expired sessions is noticed iff a rotation or a token validation, whose clock
  is then behind a cutoff, finds its session deleted that it would still have accepted
  (`SessionCleanupRuns.CallersNoticeIff`, `SessionCleanupRuns.SlowRotationNotices`,
  `SessionCleanupRuns.SlowValidationNotices`).
- Deactivating a user ends its sessions until it is activated again. The user itself stays
  inactive iff no update that had read the earlier status commits afterwards, because an
  update writes the status it read (`SessionUsers.StaysInactiveIff`,
  `SessionUsers.StaleUpdateReactivates`).
- Names and label keys of metrics are printed as they are and can forge labels. Distinct
  metrics print differently iff the characters allowed in names and in keys rule out four
  ways to do so (`MetricsInjective.InjectiveIff`); names without `{` and keys without `=`
  are one choice that does (`Metrics.PrintsInjective`).

## Model

| member | source | states |
|---|---|---|
| `SessionRows.SessionRepository.ValidateToken` | internal/auth/auth.go:470-496 | accepts iff the session exists, is neither revoked nor expired, its owner is the subject, active, not deleted and at the session's version, and a refresh token is the current one; so a refresh token validates iff it would rotate |
| `SessionRows.SessionRepository.LogIn` | internal/auth/auth.go:358-379 | from a current read of the user, exactly the new refresh token rotates, for that user, until its expiry; from a read whose version has moved on the session is never active; no other session is touched |
| `SessionRows.SessionRepository.RotateSession` | internal/auth/repository/repository.go:282-292 | succeeds iff the session is active and carries the presented ID; then at every time exactly the next ID rotates, until its expiry, so the presented one is spent; no other session is touched |
| `SessionRows.SessionRepository.RevokeSession` | internal/auth/repository/repository.go:294-302 | afterwards the subject has no active session of that ID at any time, a second revocation changes nothing, and no other session is touched |
| `SessionRows.SessionRepository.UpdateUser` | internal/auth/repository/repository.go:53-77 | succeeds iff the version is the one the caller read; afterwards no session of that or an older version is active for anyone at any time |
| `SessionRows.SessionRepository.Refresh` | internal/auth/auth.go:388-433 | an undisturbed refresh either hands over to a pair that can rotate again, or leaves the session inactive at every time |
| `SessionProtocol.StepKeepsInv` | internal/auth/auth.go:358-455 | every statement of every call keeps: refresh histories are duplicate-free and apart, the row carries the last ID of its history, issued tokens belong to their session and owner, a refused refresh has a dead family |
| `SessionProtocol.RunKeepsInv` | internal/auth/auth.go:358-455 | the same over runs of any length |
| `SessionSafety.ReplayEndsFamily` | internal/auth/auth.go:413-433 | once a refresh that reached the rotation was answered invalid-token, no token of its session validates again, at any time in any continuation |
| `SessionSafety.RaceLoserEndsFamily` | internal/auth/auth.go:413-433 | of two calls racing on one token the loser never rotates, and when it is refused the winner's new pair is dead too |
| `SessionSafety.LogoutEndsFamily` | internal/auth/auth.go:435-455 | the same after a logout with any unexpired refresh token of the session, consumed ones included |
| `SessionSafety.ConsumedNeverRotates` | internal/auth/repository/repository.go:282-292 | a refresh call presenting a consumed token never rotates, in any continuation |
| `SessionSafety.SingleUse` | internal/auth/repository/repository.go:282-292 | no refresh ID is consumed by two successful rotations |
| `SessionSafety.NoIdReturns` | internal/auth/auth.go:413-419 | the refresh IDs sessions ever held are pairwise distinct, within one session and between sessions (no ABA) |
| `SessionSafety.OneCurrentToken` | internal/auth/auth.go:470-496 | in a reachable state at most one refresh token of a session validates |
| `SessionSafety.RotationHandsOver` | internal/auth/auth.go:413-432 | a successful rotation makes the new pair valid and the presented token invalid for ever |
| `SessionSafety.DeletedWasExpired` | internal/auth/repository/repository.go:304-325 | in every run a session leaves the table only by a cleanup delete at whose time its current expiry, after all rotations, is not past the cutoff |
| `SessionCleanupRuns.RunsAlikeIff` | internal/auth/repository/repository.go:304-325 | a run with cleanup deletes and the same run without them stay alike at every step - same users, tokens, histories and calls, and only expired rows missing - iff no rotation or validation finds its session deleted that it would otherwise still accept |
| `SessionCleanupRuns.CallersNoticeIff` | internal/auth/repository/repository.go:258-325 | the calls of the two runs, validations included, with their outcomes, never differ iff the same holds, when no rotation's answer is lost after its effect |
| `SessionCleanupRuns.CleanupUnobservable` | internal/auth/repository/repository.go:304-325 | under that condition every call ends in the same state, the same tokens are issued, and at any clock a further validation is answered alike iff it too finds no such session deleted - from the last cutoff on, always |
| `SessionCleanupRuns.InOrderIsUnnoticed` | internal/auth/repository/repository.go:304-325 | the condition holds when no rotation or validation reads a clock behind an executed delete's cutoff |
| `SessionCleanupRuns.SlowRotationNotices` | internal/auth/repository/repository.go:282-325 | a reachable run that breaks it: login, refresh, cleanup at the expiry, then a rotation whose clock is behind; it is refused with the cleanup and succeeds without |
| `SessionCleanupRuns.SlowValidationNotices` | internal/auth/auth.go:482-495 | the same run with a validation at the end, refused with the cleanup and accepted without |
| `SessionCredentials.VersionCountsUpdates` | internal/auth/auth.go:736-765 | in every run a user's version is 1 plus its committed user.update messages, which carry 2, 3, ... in order, so each version is committed once |
| `SessionCredentials.CredentialChangeKillsSessions` | internal/auth/repository/repository.go:53-77 | after a committed update no token of any older session validates, including sessions of logins that read before and insert after the commit |
| `SessionCredentials.RunKeepsVersions` | internal/auth/auth.go:719-770 | versions of rows and calls in flight are never ahead of the user, and at most one uncommitted update holds a user |
| `SessionUsers.ValidTokenFacts` | internal/auth/auth.go:470-496 | in every run a validating token was issued, is unexpired, and its session is unrevoked, unexpired and owned by the active, undeleted user it names, at the session's version; a refresh token is the last of its session's history |
| `SessionUsers.DeletionEndsSessions` | internal/auth/repository/repository.go:258-265 | after a user is deleted no token of any of its sessions validates in any continuation, sessions of pending and later logins included |
| `SessionUsers.DeactivationEndsSessions` | internal/auth/repository/repository.go:258-265 | while a user is not activated again none of the sessions that it had when inactive validates in any continuation, pending logins included, even when an update writes the old status back |
| `SessionUsers.StaysInactiveIff` | internal/auth/repository/repository.go:53-62 | a deactivated user stays inactive iff no operator activates it and no update that had read it as active commits |
| `SessionUsers.StaleUpdateReactivates` | internal/auth/repository/repository.go:53-62 | a reachable run in which such an update makes the user active again |
| `SessionUsers.LoginReadsActive` | internal/auth/auth.go:268-300 | a login goes on only for a user that was active and not deleted when read, with its version |
| `SessionUsers.LoginHandsOver` | internal/auth/auth.go:358-379 | while that read is current, the insert makes both of its tokens valid |
| `SessionUsers.RefreshParsesGenuine` | internal/auth/auth.go:401-406 | a refresh goes on only with an issued, unexpired refresh token |
| `RateLimit.IntervalIsLeast` | internal/tools/rate_limit.go:89-92 | the interval is the least one at which `rate` tokens fill the window |
| `RateLimit.RetentionCoversRefill` | internal/tools/rate_limit.go:104-112 | accepted iff all settings are positive and the refill time fits 64 bits; the result covers both the TTL and a full refill and is one of them |
| `RateLimit.RetentionIdempotent` | internal/tools/rate_limit.go:93-111 | applying the retention a second time, as the stores do, changes nothing |
| `Gcra.RefinesTokenBucket` | internal/cache/cache.go:27-30 | on every request list with non-decreasing times the arrival-time form decides like a token bucket of capacity burst with one token per interval |
| `Gcra.TatIsWindowEnd` | internal/cache/memcached/memcached.go:169-181 | the stored time is the latest end of the windows that start at granted requests |
| `Gcra.AllowsIffWindowsFit` | internal/cache/memcached/memcached.go:173-178 | a request is allowed iff every window from an earlier granted request to it holds at most burst + elapsed / interval requests; no stored state is mentioned and clocks may run backwards |
| `Gcra.MemoryOfGranted` | internal/cache/memcached/memcached.go:176-181 | denied requests leave no trace in the stored time |
| `Gcra.WindowBound` | internal/cache/memcached/memcached.go:136-181 | between any two granted requests, in commit order, at most burst + elapsed / interval are granted |
| `Gcra.WindowBoundTight` | internal/cache/memcached/memcached.go:136-181 | that bound is attained for every span |
| `Expiry.RunsAgree` | internal/tools/rate_limit.go:103-111 | with a retention of at least burst intervals an expiring store decides like one that never forgets |
| `Expiry.ExpiryUnobservableIff` | internal/tools/rate_limit.go:103-111 | it does so on all request lists iff the retention is at least burst intervals |
| `Expiry.EarlyExpiryOverAdmits` | internal/tools/rate_limit.go:103-111 | for every shorter retention, two bursts that both pass although no bucket allows them |
| `RatePromise.KeepsRateIff` | internal/tools/rate_limit.go:89-92 | the interval in microseconds keeps `burst + rate` per window iff it fits the window at most `rate` times |
| `RatePromise.WholeMicrosKeepRate` | internal/cache/memcached/memcached.go:137-138 | an interval of whole microseconds keeps the promise |
| `RatePromise.TruncatedIntervalBreaksRate` | internal/cache/memcached/memcached.go:137-138 | 999999 requests per second give 1001 ns, truncated to 1 us, and break it |
| `Redis.RedisLimiter.AllowRateLimit` | internal/cache/redis/redis.go:23-43 | the script is one step of the arrival-time algorithm on a cell that expires, renewed also by denials; errors and other keys leave the store as it was |
| `Redis.LifetimeSufficesIff` | internal/cache/redis/redis.go:149-156 | with the lifetime truncated to milliseconds the script decides like a store that never forgets iff that lifetime covers a refill |
| `Redis.WholeMillisSufficeIff` | internal/cache/redis/redis.go:149-156 | a retention of whole milliseconds is enough iff the interval is at least a microsecond or the retention covers a refill at one microsecond per token |
| `Redis.TruncatedLifetimeOverAdmits` | internal/cache/redis/redis.go:149-156 | a 1.5 ms interval with burst one admits a request the bucket refuses |
| `MemcachedExpiry.ExpirationSeconds` | internal/cache/memcached/memcached.go:221-235 | the seconds, or an error beyond 32 bits; an entry stored with them stays visible for more than its TTL less one second plus the padding after the sample, whenever it is stored and in either mode |
| `MemcachedExpiry.ModesAgree` | internal/cache/memcached/memcached.go:226-230 | the server reads back the relative or absolute mode that the client chose |
| `MemcachedExpiry.PaddingCoversTtl` | internal/cache/memcached/memcached.go:195-199 | rounding costs less than a second and each padding second adds one, so with a padding of one an entry is visible for more than its TTL after its client's sample |
| `MemcachedExpiry.UnpaddedVanishesEarly` | internal/cache/memcached/memcached.go:209-216 | without padding a one-second entry can vanish after a microsecond |
| `MemcachedExpiry.StoredTimesFit` | internal/tools/rate_limit.go:108-111 | the tolerance fits 64 bits and a stored time is at most one refill ahead of the clock; that refill takes at most a thousandth of the 64-bit range for intervals of at least 1 us, and fits it for all |
| `Memcached.RunFaithfulIff` | internal/cache/memcached/memcached.go:140-192 | from any consistent state, an interleaving of sample, get, add and compare-and-swap steps logs at every step the decisions of a sequential run of the pure step, with the item holding its state, iff each add that replaces a vanished item samples no earlier than that item's stored time |
| `MemcachedSafety.LinearizesIff` | internal/cache/memcached/memcached.go:140-192 | the same for runs from the empty store |
| `MemcachedSafety.Linearizes` | internal/cache/memcached/memcached.go:140-192 | so decides every run in which a miss on an item is sampled at least one TTL, or one complete refill, after that item's sample, whatever the delays before its add |
| `MemcachedSafety.LateAddOverAdmits` | internal/cache/memcached/memcached.go:146-160 | a reachable run that does not: one request per second, a sample just before the token is back and a get just after the item has vanished; two requests pass within a second |
| `MemcachedSafety.PromptIsTimely` | internal/cache/memcached/memcached.go:195-199 | with the padding second an add is timely when its delay since the sample is within what the TTL adds to a complete refill |
| `MemcachedSafety.UndisturbedDecides` | internal/cache/memcached/memcached.go:141-184 | an attempt that nothing comes between answers by the value that is visible at its one sample, and logs just that |
| `MemcachedSafety.ConflictRetries` | internal/cache/memcached/memcached.go:140-188 | a conflict changes nothing and is retried; the sixteenth ends the call |
| `MemcachedExpiry.CeilIsLeast` | internal/cache/memcached/memcached.go:222-225 | the seconds are the fewest that cover the TTL |
| `MemcachedSafety.CommitWindowBound` | internal/cache/memcached/memcached.go:125-193 | for any two allowed requests of a run with timely adds, in commit order, the number allowed from the first to the second is at most burst + elapsed / interval |
| `MemcachedSafety.OnlyGrantsChangeItem` | internal/cache/memcached/memcached.go:160-192 | only a step that logs an allowed request changes the item: denials, conflicts and exhausted attempts do not |
| `MemcachedSafety.AnswersAreLogged` | internal/cache/memcached/memcached.go:140-192 | each answer a caller saw is that call's one decision in the log; a failed call has at most one, an allowed one |
| `MemcachedClient.MemcachedKey.AllowRateLimit` | internal/cache/memcached/memcached.go:125-193 | under arbitrary interference at each step, allowed means exactly one store, of the step applied to the very value it replaced; any other answer stored nothing; a denial was due on a value the key had during the call; contention is reported only when others stored before every one of 16 stores, and each other error has its own cause |
| `MemcachedClient.MemcachedKey.Add` | internal/cache/memcached/memcached.go:152-163 | stores iff the key is missing |
| `MemcachedClient.MemcachedKey.CompareAndSwap` | internal/cache/memcached/memcached.go:180-189 | stores iff the token is current; missing and conflict are told apart |
| `Backoff.RetryDelay` | internal/outbox/workers/publisher.go:194-203 | the loop, over 64-bit durations, computes min(initial * 2^(n-1), maximum); its doublings are logarithmic: initial * 2^doublings never exceeds the maximum |
| `Backoff.CappedDoubles` | internal/outbox/workers/publisher.go:194-203 | the delay starts at the initial backoff and doubles until the maximum cuts it off |
| `Backoff.CappedMonotone` | internal/outbox/workers/publisher.go:194-203 | the delay never decreases with the attempt |
| `Backoff.JitterRange` | internal/outbox/workers/publisher.go:204-205 | the jittered delay lies between half the delay and the delay, and is positive iff the delay is at least 2 ns |
| `OldestFirst.Page` | internal/outbox/repository/outbox.go:44-47 | ORDER BY time, id LIMIT n: the least keys in order, as many as the limit allows |
| `OldestFirst.PageUnique` | internal/outbox/repository/outbox.go:44-47 | that answer is determined by the table |
| `Outbox.OutboxTable.WithTransaction` | internal/database/repository.go:83-120 | all of the callback's changes become visible or none; success means all; an error means none unless the commit took effect and its answer was lost; a nested call is refused and leaves the open transaction alone |
| `Outbox.OutboxTable.GetUnprocessedMessages` | internal/outbox/repository/outbox.go:35-52 | the due, unlocked rows, oldest first, up to the limit |
| `Outbox.OutboxTable.SaveProcessedMessages` | internal/outbox/repository/outbox.go:54-70 | exactly the listed rows become processed; all others are untouched |
| `Outbox.OutboxTable.SaveFailedMessages` | internal/outbox/repository/outbox.go:126-140 | each listed row is overwritten whole; all others are untouched |
| `OutboxPublisher.PublishBatch` | internal/outbox/workers/publisher.go:99-177 | the loop with its five outcomes ends by the stated plan; processed and failed are the accepted and refused messages of the handled prefix, with their new fields |
| `Outbox.CommitsIff` | internal/outbox/workers/publisher.go:99-177 | the loop commits a prefix iff nothing in it failed to marshal, was canceled or lacked a slot, nothing before its last message timed out, and it is the whole batch, or its last message timed out, or the next one found no slot |
| `Outbox.AbortsIff` | internal/outbox/workers/publisher.go:99-134 | it rolls back iff a message failed to marshal or was canceled before anything stopped the loop |
| `Outbox.NewRowFields` | internal/outbox/workers/publisher.go:135-170 | what success, a transient and a permanent failure write to each field, and that event and topic stay |
| `Outbox.BatchIsOldest` | internal/outbox/repository/outbox.go:35-52 | a batch lists pending, due, unlocked messages by creation time and ID, and those it leaves out are younger and only there when it is full |
| `OutboxPublisher.PartitionSizes` | internal/outbox/workers/publisher.go:99-177 | processed and failed together are exactly the handled prefix |
| `OutboxPublisher.OutboxMessagePublisher.Save` | internal/outbox/workers/publisher.go:179-191 | the two save statements leave exactly the new row of every handled message and no other change |
| `OutboxPublisher.OutboxMessagePublisher.Run` | internal/outbox/workers/publisher.go:79-191 | an aborted run changes nothing; a committed one settles exactly a prefix of the selected batch |
| `OutboxSafety.SettledUnique` | internal/outbox/workers/publisher.go:99-191 | that contract determines the table after a run |
| `OutboxDrain.CommittedRunDrains` | internal/outbox/workers/publisher.go:94-191 | at a fixed time a committed run takes out of the due rows exactly the handled messages that are settled, back off by at least 2 ns or were retried later; every other row is as due as before |
| `OutboxDrain.DrainsAllIff` | internal/outbox/workers/publisher.go:94-191 | the number of due rows drops by exactly processed plus failed iff every handled message is one of those - always, when both backoff settings are at least 2 ns |
| `OutboxDrain.RetryIsLaterIff` | internal/outbox/workers/publisher.go:139-143 | a retried message is next due strictly after the attempt iff its delay before jitter is at least 2 ns, whatever the jitter |
| `OutboxDrain.EveryRetryIsLaterIff` | internal/outbox/workers/publisher.go:194-206 | every retry is later iff both backoff settings are at least 2 ns |
| `OutboxSafety.StepKeepsInv` | internal/outbox/workers/publisher.go:79-191 | every step keeps: rows are what was enqueued, processed rows are at the broker, workers' copies are the locked pending rows, history is a function of what was enqueued |
| `OutboxSafety.HistoryOncePerEvent` | internal/auth/workers/auth_events_subscriber.go:67-86 | history has at most one record per event ID, the one determined by the enqueued message, under retries, rollbacks, accepted-but-failed publishes and redelivery |
| `OutboxSafety.NothingLost` | internal/outbox/repository/outbox.go:35-140 | every enqueued message is still a row with its content or was deleted; a processed or deleted one is at the broker |
| `OutboxSafety.DeliveryRecords` | internal/auth/workers/auth_events_subscriber.go:89-104 | a broker entry that is handled without a fault has its record in history: what producers may enqueue the consumer accepts |
| `OutboxSafety.BatchesDisjoint` | internal/outbox/repository/outbox.go:35-43 | open batches of concurrent workers never share a row |
| `OutboxSafety.ProcessedIsFinal` | internal/outbox/workers/publisher.go:94-191 | a processed row never changes again until it is deleted |
| `OutboxSafety.DeliverKeepsInv` | internal/auth/repository/repository.go:422-428 | the insert that ignores a known ID keeps history one-per-event |
| `OutboxDelivery.EnqueueStoresIff` | internal/outbox/outbox.go:42-60 | a producer's message is stored iff its data is valid, as a pending row never attempted |
| `OutboxDelivery.PublishReaches` | internal/outbox/workers/publisher.go:111-134 | a nil result means that the broker took the event; without a slot it is never called; after any other error the event was taken or may still be |
| `OutboxDelivery.GoingIff` | internal/outbox/workers/publisher.go:99-160 | a worker publishes on iff messages are left and none broke off, lacked a slot or timed out |
| `OutboxDelivery.UndisturbedDelivery` | internal/outbox/workers/publisher.go:79-191 | from any reachable state a message that is stored, selected, accepted, committed and handled ends up processed and in history |
| `AuthEvents.AuthEventSubscriber.HandleEvent` | internal/auth/workers/auth_events_subscriber.go:44-104 | drops for good exactly what does not decode or misses a field; any other event leaves one record of its ID with the event's own data, and handling it again changes nothing |
| `OutboxCleanup.OutboxMessageCleaner.DeleteProcessedMessages` | internal/outbox/repository/outbox.go:74-107 | an error on a non-positive limit; otherwise exactly the oldest min(eligible, limit) rows go |
| `OutboxCleanup.OutboxMessageCleaner.GetOldestProcessedMessageTime` | internal/outbox/repository/outbox.go:111-124 | the least eligible time, or none iff no row is eligible |
| `OutboxCleanup.OutboxMessageCleaner.Run` | internal/outbox/workers/cleaner.go:77-124 | one cycle deletes exactly the oldest min(eligible, budget) rows, also when it is canceled, and reports zero lag iff none is left |
| `OutboxCleanup.PageIsOldest` | internal/outbox/repository/outbox.go:79-99 | deleting a page removes exactly its keys, each before every key that stays |
| `OutboxCleanup.RemovedOldestMeans` | internal/outbox/repository/outbox.go:79-99 | in terms of rows: what went was processed before the cutoff, nothing else went or changed, and what is still past retention was processed no earlier |
| `OutboxCleanup.OldestCompose` | internal/outbox/workers/cleaner.go:79-101 | an oldest part followed by an oldest part of the rest is an oldest part |
| `SessionCleanup.SessionCleaner.DeleteExpiredSessions` | internal/auth/repository/repository.go:307-325 | one batch deletes min(expired, 1000) rows, all expired at its cutoff and none expiring later than one that stays |
| `SessionCleanup.SessionCleaner.Drain` | internal/auth/workers/session_cleaner.go:28-40 | the drain loop ends and leaves exactly the sessions that outlive its last cutoff, unchanged |
| `BoundedPublisher.SlotsConserved` | internal/events/publisher.go:39-67 | free slots plus unfinished background publishes equal the limit in every reachable state, and active broker calls never exceed it |
| `BoundedPublisher.ReleasedOnce` | internal/events/publisher.go:51-59 | each slot is released at most once, and exactly when its task is done |
| `BoundedPublisher.NilMeansAccepted` | internal/events/publisher.go:58-66 | a nil result implies that the broker accepted |
| `BoundedPublisher.CapacityMeansNotCalled` | internal/events/publisher.go:41-43 | a capacity error implies that the broker is never called for that message, then or later |
| `BoundedPublisher.InvokedOnce` | internal/events/publisher.go:51-59 | one call reaches the broker at most once |
| `BoundedPublisher.AnswerIsBrokers` | internal/events/publisher.go:58-66 | while its caller waits, the broker's answer is the one the caller receives, whatever other calls do in between |
| `BoundedPublisher.ResultIsBrokers` | internal/events/publisher.go:58-66 | over runs, a nil result or a broker error was the broker's answer to that very call |
| `BoundedPublisher.ContextErrorsNeedCancel` | internal/events/publisher.go:41-66 | over runs, a context or capacity error needs a canceled context |
| `BoundedPublisher.UndisturbedCall` | internal/events/publisher.go:39-67 | with a free slot a call invokes the broker once, returns its answer and gives the slot back |
| `BoundedPublisher.FullPublisherWaits` | internal/events/publisher.go:41-43 | without a free slot a call waits, and once canceled returns the capacity error and changes nothing else |
| `BoundedPublisher.CanceledCallKeepsSlot` | internal/events/publisher.go:51-66 | a canceled caller returns at once, its slot stays occupied until the broker answers, and a task that has not called the broker does not |
| `Base64Url.RoundTrip` | internal/auth/auth.go:561-564 | decoding inverts encoding on every byte string |
| `Base64Url.EncodesBits` | internal/auth/auth.go:561-564 | the j-th character stands for the j-th six bits of the byte string, most significant first, filled up with zeros |
| `Base64Url.Alphabet` | internal/auth/auth.go:561-564 | the URL-safe alphabet in order of value |
| `Base64Url.DecodedIsEncoded` | internal/auth/auth.go:561-564 | a string that decodes strictly is, up to line breaks, the encoding of its bytes |
| `Base64Url.BreaksAreInvisible` | internal/auth/auth.go:562-563 | strict decoding alone does not see CR or LF |
| `Tokens.CanonicalJWT` | internal/auth/auth.go:555-569 | accepts a string iff it is the dot-join of the encodings of three nonempty byte strings |
| `Tokens.CanonicalIffCompact` | internal/auth/auth.go:555-569 | the loop's test on the parts says the same |
| `Tokens.CompactInjective` | internal/auth/auth.go:555-569 | two such forms are equal iff their byte strings are |
| `Tokens.APITokenIffEncoded` | internal/auth/auth.go:921-941 | accepted iff it is the prefix followed by the encoding of 32 bytes, although the decoder skips line breaks |
| `Tokens.APITokenInjective` | internal/auth/auth.go:921-941 | accepted API tokens with the same bytes are the same string |
| `PriorityQueue.PriorityQueue.Enqueue` | internal/tools/priority.go:18-24 | appends to the waiting items and keeps queues and priorities consistent |
| `PriorityQueue.PriorityQueue.Dequeue` | internal/tools/priority.go:26-44 | returns the first item of the stable sort of the waiting items; the rest is its tail; empty iff nothing waits |
| `PriorityQueue.PriorityQueue.DequeueAll` | internal/tools/priority.go:26-56 | repeated Dequeue yields exactly what Extract would have and leaves nothing |
| `PriorityQueue.PriorityQueue.Extract` | internal/tools/priority.go:50-56 | the values of the stable sort by priority of the waiting items |
| `PriorityQueue.PriorityQueue.IsEmpty` | internal/tools/priority.go:46-48 | true iff nothing waits |
| `StableSort.StableSortUnique` | internal/tools/priority.go:5-9 | there is only one stable sort |
| `StableSort.SortPeels` | internal/tools/priority.go:31-42 | removing the next item from the waiting list removes the head of its sort |
| `Interceptors.BuildChain` | internal/api/grpc/server.go:99-152 | ascending by priority, within one priority the built-in interceptors before the extra ones, each in their given order |
| `Interceptors.ChainUnique` | internal/api/grpc/server.go:137-152 | that determines the chain, so map iteration order cannot matter |
| `Interceptors.ChainShape` | internal/api/grpc/server.go:31-36 | extra interceptors of priorities 2 and 3 run between the five that preprocess and validation, in that order |
| `Metrics.ConstructMetric` | internal/metrics/metrics.go:54-120 | the printed form of the name and the effective labels, call labels over global ones |
| `Metrics.PrintsUnique` | internal/metrics/metrics.go:49-53 | the printed form depends only on the name and the effective labels |
| `Metrics.PrintsInjective` | internal/metrics/metrics.go:94-117 | for names without { and keys without = distinct metrics print differently |
| `MetricsInjective.InjectiveIff` | internal/metrics/metrics.go:54-125 | for names and keys drawn from all strings over two sets of characters, distinct metrics print differently iff the keys lack an equals sign, a quote or a comma; the names lack an opening or closing brace, an equals sign or a quote; not both have an opening brace; and it is not so that the names have an opening brace, an equals sign and a quote while the keys have a quote and a comma |
| `MetricsInjective.JoinedUnique` | internal/metrics/metrics.go:98-115 | labels whose keys do not have both a comma and a quote are determined by their text |
| `MetricsInjective.NoShift` | internal/metrics/metrics.go:94-115 | with such keys, and without braces in the first, no brace inside one metric's labels starts another metric's labels |
| `MetricsInjective.AmbiguousCollides` | internal/metrics/metrics.go:94-117 | otherwise two metrics over these characters print alike |
| `Metrics.ParsePrinted` | internal/metrics/metrics.go:94-117 | a reader of the text recovers the name and the labels in order |
| `Metrics.EscapeRoundTrip` | internal/metrics/metrics.go:122-125 | unescaping inverts escaping up to the closing quote, so no bare quote is left inside |
| `Metrics.EscapedHasNoNewline` | internal/metrics/metrics.go:122-125 | no newline is left in an escaped value |
| `Metrics.EqualsInKeyCollides` | internal/metrics/metrics.go:98-104 | any two labels print like one label whose key contains = |
| `Metrics.BraceInNameCollides` | internal/metrics/metrics.go:94-96 | any labeled metric prints like a bare name that contains { |
| `LastUsed.TokenLastUsedUpdater.Receive` | internal/auth/workers/token_last_used_updater.go:57-63 | the noted time becomes the least bound of the old and the received one; other tokens keep theirs |
| `LastUsed.TokenLastUsedUpdater.UpdateTokenLastUsed` | internal/auth/repository/repository.go:395-420 | fails iff the token does not exist; otherwise its stored time becomes the least bound of the old and the new one, so an older one is a successful no-op; other tokens keep theirs |
| `LastUsed.TokenLastUsedUpdater.Run` | internal/auth/workers/token_last_used_updater.go:78-101 | an undisturbed run moves every collected time into the table, as the later of both, and empties the buffers |
| `LastUsed.MergeIsJoin` | internal/auth/workers/token_last_used_updater.go:49-101 | in every interleaving of several instances the latest time held in table, buffers or failed writes is the latest of the initial and all received times |
| `LastUsed.FlushedIsLatest` | internal/auth/workers/token_last_used_updater.go:78-101 | once flushed without failure, the stored time is that maximum |
| `LastUsed.FlushMovesAll` | internal/auth/workers/token_last_used_updater.go:78-101 | an instance that swaps, writes every collected token in any order and clears moves all collected times into the table and ends with empty buffers |
| `LastUsed.StoredNeverDecreases` | internal/auth/repository/repository.go:395-401 | a stored time never decreases, however instances' writes are ordered |
| `UserRoles.ListUsers` | internal/auth/repository/repository.go:102-166 | the indexed join over shared role objects gives each user of the page exactly the nested-loop join's roles with all their permissions, in order |
| `UserRoles.PageMeans` | internal/auth/repository/repository.go:105 | the i-th user of a page is the live one with exactly offset + i live users of smaller ID, and the page is as long as limit and table allow |
| `UserRoles.AttachPermissions` | internal/auth/repository/repository.go:152-156 | each shared role object collects exactly its permissions |
| `UserPermissions.GetUser` | internal/auth/repository/repository.go:192-240 | found iff a live user has the ID; its roles are the listed ones, each once |
| `UserPermissions.DistinctCommutes` | internal/auth/repository/repository.go:203-236 | making roles distinct before or after attaching permissions is the same |
| `UserPermissions.ListedIffGranted` | internal/auth/repository/repository.go:121-163 | a listed user has a permission iff the tables assign it a role, not expired and not deleted, that is granted it |
| `UserPermissions.RoleListedIff` | internal/auth/repository/repository.go:121-129 | a listed user has a role iff an assignment of it has not expired and the role is not deleted |
| `UserPermissions.LookupAgreesWithListing` | internal/auth/repository/repository.go:192-240 | lookup and listing yield the same permission set, in whatever order the queries return their rows |
| `UserPermissions.KeyedLookupIsListing` | internal/auth/repository/repository.go:203-210 | under the primary key on (user, role) they yield the very same roles |
| `UserPermissions.UserPermissionList` | internal/auth/models/models.go:70-80 | the names of all roles' permissions, first occurrences only, in order |
| `UserPermissions.TokenPermissionList` | internal/auth/models/models.go:143-151 | the same for a token's permissions |
| `UserPermissions.FirstOccurrencesKeep` | internal/auth/models/models.go:70-80 | such a list has no repetition and the same members |
| `UserPermissions.FirstOccurrencesExtend` | internal/auth/models/models.go:70-80 | names come in the order in which they first occur |
| `UserPermissions.RoleList` | internal/auth/models/models.go:62-68 | one name per role, in order |

## Left out

- Passwords, hashes, signatures and JWT parsing: a signed token is its claims, and only issued claims can be presented.
- JSON and gob: an encoded event or row reads back as itself.
- SQL engines, the ORM, replicas and migrations: each statement is one atomic read-check-write, including the owner subquery of the session statements; stored times are not rounded to a column's precision.
- Row locks of the session tables, except the user row that an update holds from its write to its commit.
- Random UUIDs are drawn fresh; clocks, jitter, broker outcomes and faults are parameters of the steps, of any value.
- Operators changing a user's status or deleting a user are steps of the environment; password, e-mail and signup rules would only add easy members.
- Authentication rate limits in front of login and refresh: a limited call does not start.
- SessionCleanupRuns.CallersNoticeIff: leaves out rotations that took effect but reported an error, whose caller sees an error either way.
- SessionCleanup.SessionCleaner.DeleteExpiredSessions: sessions with equal expiry are taken in order of their ID, where the query leaves the order open; the contract does not depend on it.
- Memcached: clients and server read one clock.
- MemcachedExpiry.StoredTimesFit: whether the sum of clock and refill fits 64 bits depends on the clock, which the code does not test.
- Items in memcached that do not parse as a number are not modelled, and a swap on a vanished item ends the call with an error.
- Redis: a key expires exactly at its deadline, the earliest time allowed; Lua numbers are integers.
- The local cache, whose limiter is a library outside the repository.
- OutboxSafety.DeliveryRecords: does not model the foreign key from history to users or a failing database beyond the delivery's own fault.
- OutboxPublisher.OutboxMessagePublisher.Run: what the broker and the clock do during the run is given beforehand, one attempt per message; settings are positive, as the configuration enforces.
- OutboxCleanup.OutboxMessageCleaner.Run: database errors other than the rejected batch size are not modelled; they end the cycle after whole batches.
- Trace propagation metadata of outbox messages and the retry and poison-message middleware of the broker library.
- Metrics: a label value is the text that formatting gives it; sorting keys and priorities is modelled as insertion into the sorted list.
- LastUsed: the channel and its drops when full; every time taken from it counts as received.
- UserRoles.ListUsers: queries return rows in the stored order of one snapshot, read at one time; `LookupAgreesWithListing` covers differing orders.
- HTTP and gRPC adapters, server lifecycle, health monitors, configuration, logging, tracing and metrics emission.
