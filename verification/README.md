# RelayKey verification model

RelayKey is an API gateway. What is hard about it is a handful of shared values - Redis counters and
Postgres tables - that many concurrent requests step through. This project models those values and the
code that changes them, and proves what holds over every input, every run or every interleaving.

Conventions used throughout:

- One Lua script, one Redis command or one SQL statement is one step.
- Times are milliseconds; tokens are counted in thousandths, so the refill is exact integer arithmetic.
- A component that changes state in place is a class or a method. Its contract ties the new state to a
  function of the old one, and the theorems are about runs of that function.
- `Run`, `Schedule` and `Inv` mean in every module: the state after a list of actions, each action being
  enabled in turn, and what every reachable state satisfies.

## Components and main results

- `TokenBucket` (rate limit). For every rate, burst, TTL and clock the bucket level is the least window
  allowance (min-plus form), where a window earns its forward clock steps, and a whole burst when the key
  expires in it; a call is admitted exactly when no window it closes is exceeded, and no schedule within the
  windows has admitted more after any number of calls. For clocks in order the deployed key keeps the familiar
  bound, burst + rate * duration, if and only if a week refills a burst; the 7-day TTL is unobservable under
  the same condition. Refused calls leave no trace if and only if a week refills a burst or the rate is a
  token a millisecond. For clocks in any order, bursts of calls stay within the spread of their timestamps if
  and only if no stretch of the clock climbs further than it spreads, a step counting up to the TTL.
- `UtcCalendar`, `MonthlyQuota`. Up to a second before its end a month admits exactly the smaller of its calls
  and the limit; over the whole month at most twice the limit. The limit is a cap for the whole month if and
  only if the month's first call leaves no fraction of a second in the TTL, or comes in its last minute.
- `Allowlist`. The greedy wildcard scan is complete: it accepts exactly when some placement of the pieces
  exists. It is an anchored wildcard match if and only if the pattern is open at both ends. The middleware's
  matcher implies the handler's.
- `PaymentIntents`, `X402Atomic`, `X402Interleaved`, `RequestHash`. The x402 protocol twice: each request as
  one step, and each statement as a step. Atomically: rows change only while pending, a proof belongs to one
  row for good, replays for another request are refused, an accepted proof is forwarded on a waiting intent
  if and only if no row carries it and the key has not paid for the hash, and repeated proofs are forwarded
  again if and only if no intent is waiting. Interleaved: single use holds when no two requests hold the same
  looked-up intent; two that do are both forwarded if and only if both proofs are on no other row and no other
  row is verified for the key and hash. In any state a verified or failed row changes if and only if a request
  that holds it overwrites it. The atomic model is one schedule of the interleaved one.
- `Migration0016`. After the three ranked updates all three unique indexes hold, nothing but duplicates is
  cleared, every value survives on its greatest row, and a table that satisfies the indexes is not changed.
- `RetryLoop`, `RetryBudget`. The loop of one handler is bounded in passes and time. Over all interleavings
  sends are at most one per handler plus one per allowed decision, a life of a counter allows at most its
  limit, and a minute at most twice that. Counted by when the answers come, that holds over all runs if and
  only if interval and delay together stay within a minute (two, for a limit of one).
- `Rollup`, `RollupQueries`, `UsageMerge`. Each day's rows are the direct group-by of the log as of that day's
  last rollup; the usage and error tables balance; the report merges x402 counts without regard to order, and
  counts exactly the intents that have a usage event of the same day and key.
- `PolicyCache`. A returned policy is less than 300 s plus the fill delay old, and that is tight to the millisecond.

## Where the code differs from what is written about it

The model follows the code; each difference but the one about the customer column has a lemma.

- Proofs are to be "single-use or scoped to a narrow window" (docs/security.md:206-207). They are neither. A
  proof that has paid is forwarded again, after any run, exactly when the hash is the one it paid for and no
  intent is waiting; the code compares hashes only, so another virtual key that presents it for the same
  method, target and body is served too (`PaidRepeatsExactly`, from an empty table `PaidRepeatIsReachable`).
  An accepted proof that never paid is forwarded as often and as late as it comes (`UnpaidRepeats`). What does
  hold is that a proof pays for one intent at most (`SpentProofNeverPays`).
- Two requests that looked up one intent are both forwarded on it unless the unique indexes stop them, and
  exactly then (`SharedHoldExactly`). One payment id submitted twice pays twice; of two the first is erased
  (`SharedHoldPaysTwice`, reached from an empty gateway by `RaceIsReachable`). If the second proof is rejected,
  the paid intent turns to failed and takes the rejected proof (`RejectionUndoesPayment`,
  `UndoingIsReachable`; exactly which steps change such a row, `ClosedRowChangesExactly`).
- A mark has no guard on the status: an intent that is held when it expires can still be verified
  (`ExpiredRowChangesExactly`, `OutlivingIsReachable`).
- Monthly caps are called hard (README.md:33-34). A truncated TTL can drop the counter within the last second
  of the month (`LimitIsCapExactly`).
- The script stores a smaller timestamp as it comes, so after a step back time is credited again: timestamps
  0, 1, 0, 1 at a token a millisecond and a burst of one admit three calls within one millisecond
  (`TimeCreditedTwice`; exactly when, with and without the TTL, `SpreadBoundExactly`).
- A key idle for its 7 days is full again, so a burst larger than a week's refill is admitted twice, 7 days
  apart, above burst + rate * duration (`RateWindowsExactly`).
- A refused call re-arms the 7-day expiry; for slow rates with large bursts that keeps a key that would
  otherwise have expired and been full again (`RefusedCallsLeaveNoTraceExactly`).
- Retry counters bound what is taken per minute, not what is answered: an answer may come arbitrarily long
  after its INCR (`AnswersPerMinuteExactly`, `LateAnswersUnbounded`).
- The wildcard scan is described as prefix and contains matching (crates/relaykey_app/src/proxy.rs:45-48); it
  is anchored at neither end (`InnerWildcardIsUnanchored`), which matters exactly for patterns that are not
  open at both ends (`AnchoredExactly`).
- The migration keeps a duplicated payment id or token on the newest row whatever its status, so a verified
  row can lose its proof (`NewerRowTakesBinding`; exactly when, `BindingSurvivesExactly`).
- An empty allowlist allows everything in the handler (crates/relaykey_app/src/proxy.rs:45-57) and nothing in
  the middleware before it (`EmptyAllowlist`).
- A comment says usage events hold no customer (crates/relaykey-db/src/queries/metrics.rs:41-42) although
  migrations/0008_customers.sql adds the column; the rollup takes the customer from the joined key, and so
  does the model.
- Requests answered 402 write no usage event, so the usage report misses intents without other traffic of
  the same day and key (`ReportLosesNothingExactly`, `UnpaidRequestIsLost`).

## Model

| member | source | states |
|---|---|---|
| TokenBucket.LimiterKey.TokenBucketAllow | crates/relaykey_app/src/limits/mod.rs:44-90 | the script's effect on the stored fields and its answer, including the key's expiry |
| TokenBucket.MinPlusForm | crates/relaykey_app/src/limits/mod.rs:56-75 | for any clock and TTL the level is the minimum over all windows of burst + earned - admitted, an expiry earning a burst |
| TokenBucket.MinPlusByTheClock | crates/relaykey_app/src/limits/mod.rs:56-75 | with a clock that never steps back, and a key that never expires or that a week refills, the minimum over all windows of burst + rate * duration - admitted |
| TokenBucket.AdmitExactly | crates/relaykey_app/src/limits/mod.rs:66-70 | for any clock and TTL, admitted exactly when every window closed by the call stays within burst + earned |
| TokenBucket.RunWithinWindows | crates/relaykey_app/src/limits/mod.rs:56-75 | no window of a run exceeds burst + earned, for any clock and TTL |
| TokenBucket.GreedyIsOptimal | crates/relaykey_app/src/limits/mod.rs:56-75 | no schedule within those windows admits more in any prefix, for any clock and TTL |
| TokenBucket.DeployedLimiterIsOptimal | crates/relaykey_app/src/limits/mod.rs:56-75 | for clocks in order and a key that a week refills: within burst + rate * duration, and no schedule within that admits more in any prefix |
| TokenBucket.RateWindowsExactly | crates/relaykey_app/src/limits/mod.rs:73 | for clocks in order the deployed key stays within burst + rate * duration iff rate * 604800 >= burst |
| TokenBucket.LevelStaysInRange | crates/relaykey_app/src/limits/mod.rs:60-72 | stored tokens stay between 0 and the burst for clocks in any order |
| TokenBucket.AnyClockBound | crates/relaykey_app/src/limits/mod.rs:60-73 | any stretch of calls admits at most a burst plus what it earned, whatever the clock and the TTL |
| TokenBucket.SpreadBoundExactly | crates/relaykey_app/src/limits/mod.rs:61-73 | for the key with its TTL, and for one without: bursts of calls along a clock stay within burst + rate * spread of their timestamps, for all rates, refillable bursts and stretches, iff no stretch climbs further than it spreads, each step counting up to the TTL |
| TokenBucket.MonotoneSpread | crates/relaykey_app/src/limits/mod.rs:63-64 | a clock that never steps back climbs no further than its spread |
| TokenBucket.TimeCreditedTwice | crates/relaykey_app/src/limits/mod.rs:61-72 | timestamps 0, 1, 0, 1 at a token a millisecond and a burst of one: three calls admitted where the spread allows two |
| TokenBucket.NoTraceWhileKept | crates/relaykey_app/src/limits/mod.rs:60-72 | while the key does not expire, deleting refused calls changes no other decision |
| TokenBucket.RefusedCallsLeaveNoTraceExactly | crates/relaykey_app/src/limits/mod.rs:60-73 | for the key with its TTL, deleting refused calls never changes another answer iff rate * 604800 >= burst or rate >= 1000 |
| TokenBucket.LateRefusalShows | crates/relaykey_app/src/limits/mod.rs:72-73 | otherwise a refused call at 1 ms keeps the key that a burst 7 days after the first would have found expired and full |
| TokenBucket.ExpiryUnobservable | crates/relaykey_app/src/limits/mod.rs:73 | with a week's refill covering the burst, runs with and without the TTL coincide |
| TokenBucket.ExpiryUnobservableExactly | crates/relaykey_app/src/limits/mod.rs:73 | the TTL never changes a decision iff rate * 604800 >= burst |
| UtcCalendar.MonthIndex | crates/relaykey_app/src/limits/mod.rs:36-40 | the month that contains an instant |
| UtcCalendar.MonthNames | crates/relaykey_app/src/limits/mod.rs:22-25 | the next-month step numbers months without gaps, and key names of two months differ |
| UtcCalendar.MonthStartExactly | crates/relaykey_app/src/limits/mod.rs:20-30 | month starts in closed form: 365 days a year, the leap days by 4, 100 and 400, and the days before the month |
| UtcCalendar.SecondsUntilEnd | crates/relaykey_app/src/limits/mod.rs:14-34 | the computed TTL is the time to the end of the current month, truncated, at least 60 s |
| UtcCalendar.TtlUndershoot | crates/relaykey_app/src/limits/mod.rs:32-33 | the TTL undershoots the month by less than a second, and exactly when |
| MonthlyQuota.QuotaKeys.MonthlyQuotaAllowAndIncr | crates/relaykey_app/src/limits/mod.rs:92-132 | the script's effect on the month's counter and its answer |
| MonthlyQuota.InvariantHolds | crates/relaykey_app/src/limits/mod.rs:99-131 | over any run a month's counter is absent, in its first life or in its second, with the matching counts |
| MonthlyQuota.QuotaExactBeforeLastSecond | crates/relaykey_app/src/limits/mod.rs:99-131 | until one second before its end a month admits exactly min(calls, limit) |
| MonthlyQuota.QuotaAtMostTwice | crates/relaykey_app/src/limits/mod.rs:99-131 | a month admits at most twice the limit |
| MonthlyQuota.LimitIsCapExactly | crates/relaykey_app/src/limits/mod.rs:32-33 | the limit caps the whole month iff the first call leaves a whole number of seconds or comes in the last minute |
| Allowlist.MatchOne | crates/relaykey_app/src/proxy.rs:58-89 | the scan accepts iff the pattern equals the path, its prefix covers it, or a placement of all pieces exists |
| Allowlist.LeftmostSuffices | crates/relaykey_app/src/proxy.rs:80-87 | taking the leftmost occurrence of a piece loses no placement |
| Allowlist.SplitJoin | crates/relaykey_app/src/proxy.rs:75 | splitting at the wildcard loses nothing and leaves no wildcard in a piece |
| Allowlist.InnerWildcardIsUnanchored | crates/relaykey_app/src/proxy.rs:80-87 | text before and after an accepted path does not change the answer |
| Allowlist.AnchoredExactly | crates/relaykey_app/src/proxy.rs:73-88 | the scan agrees with an anchored wildcard match on every path iff nothing but a leading slash precedes the first wildcard and nothing follows the last |
| Allowlist.MatchesImpliesAccepts | crates/relaykey_app/src/policies/allowlist.rs:8-16 | the middleware's matcher implies the handler's; equal unless the wildcard is inside the pattern |
| Allowlist.TailOfProxyUrl | crates/relaykey_app/src/policies/allowlist.rs:31-37 | the path tested by the middleware is the tail the router captures |
| Allowlist.MatchesExactly | crates/relaykey_app/src/policies/allowlist.rs:8-16 | the middleware takes a wildcard only as the last path segment, and any other pattern literally |
| Allowlist.RootPaths | crates/relaykey_app/src/proxy.rs:58-61 | a URL without a tail and a path without a leading slash count as the root |
| Allowlist.MiddlewareImpliesHandler | crates/relaykey_app/src/proxy.rs:242-251 | a request the middleware lets through passes the handler's check |
| Allowlist.ChecksAgree | crates/relaykey_app/src/policies/allowlist.rs:39-42 | on a non-empty allowlist without inner wildcards the middleware lets through exactly what the handler does |
| Allowlist.EmptyAllowlist | crates/relaykey_app/src/policies/allowlist.rs:39-48 | the middleware refuses everything on an empty allowlist, where the handler alone would allow it |
| Allowlist.AllowlistParts | crates/relaykey_app/src/policies/allowlist.rs:39-42 | both checks allow what any of the patterns allows |
| RequestHash.ComputeRequestHash | crates/relaykey_app/src/x402/hash.rs:5-14 | what is fed to the hasher, in order |
| RequestHash.FrameInjective | crates/relaykey_app/src/x402/hash.rs:7-11 | requests differing in method, target or body are never framed alike |
| PaymentIntents.IntentStore.InsertPaymentIntent | crates/relaykey-db/src/queries/payment_intents.rs:27-73 | inserts a pending intent that expires in 15 minutes |
| PaymentIntents.IntentStore.MarkPaymentIntent | crates/relaykey-db/src/queries/payment_intents.rs:75-121 | update by id with COALESCE, which fails and changes nothing if an index would break |
| PaymentIntents.MarkExactly | migrations/0016_payment_intents.sql:61-71 | an update by id succeeds iff no other row carries the proof and, to verify, no other row is verified for the key and hash |
| PaymentIntents.MarkNothing | crates/relaykey-db/src/queries/payment_intents.rs:75-121 | an update that finds no row succeeds and changes nothing |
| PaymentIntents.IntentStore.ExpireStalePaymentIntents | crates/relaykey-db/src/queries/payment_intents.rs:123-139 | expires exactly the pending rows past their time |
| PaymentIntents.IntentStore.FindVerifiedIntent | crates/relaykey-db/src/queries/payment_intents.rs:176-220 | finds a verified row carrying the proof, if there is one |
| PaymentIntents.IntentStore.FindLatestPendingIntent | crates/relaykey-db/src/queries/payment_intents.rs:141-174 | finds a newest pending row for the request's target, if there is one |
| X402Atomic.EnforceX402 | crates/relaykey_app/src/x402/middleware.rs:120-496 | the whole request: table afterwards and answer, for every verdict and early return; what these mean is in the rows below |
| X402Atomic.UnpaidIsRecorded | crates/relaykey_app/src/x402/middleware.rs:420-496 | requests without a proof, and only they, are answered 402 with a pending intent for their own columns, good for 15 minutes |
| X402Atomic.PickIsNewest | crates/relaykey-db/src/queries/payment_intents.rs:141-174 | the intent a proof is matched with is a newest pending one of its key, partner, path and hash, at most 15 minutes old; none is picked only if there is none |
| X402Atomic.ReplayBlockedExactly | crates/relaykey_app/src/x402/middleware.rs:166-258 | a proof is refused as a replay iff a verified row of another hash carries its id or token |
| X402Atomic.RefusedProofExactly | crates/relaykey_app/src/x402/middleware.rs:334-416 | a rejected proof is answered not verified, or db error iff an intent waits and the proof is on a row; a provider error always verify failed; a waiting intent turns to failed with the proof iff no row carries it |
| X402Atomic.Lifecycle | crates/relaykey-db/src/queries/payment_intents.rs:54-174 | over any run no row is lost, only pending rows change, pending and expired rows carry no proof, the indexes hold |
| X402Atomic.ProofStaysOnOneRow | crates/relaykey-db/src/queries/payment_intents.rs:75-121 | a proof once written stays on its row and is on no other |
| X402Atomic.StatusChange | crates/relaykey_app/src/x402/middleware.rs:120-378 | what each status change takes; an intent is verified within 15 minutes of its creation, with the request's own proof |
| X402Atomic.ReplayBlockedOverRuns | crates/relaykey_app/src/x402/middleware.rs:166-258 | a proof on a verified intent of another hash is answered 402 whatever the provider says, changing nothing but stale rows |
| X402Atomic.ReplayBlockedForOtherRequest | crates/relaykey_app/src/x402/middleware.rs:163-258 | the same for requests that differ in method, target or body |
| X402Atomic.AcceptedForwardExactly | crates/relaykey_app/src/x402/middleware.rs:260-333 | what an accepted proof gets: with an intent waiting, forwarded and recorded iff no row carries it and the key has not paid for the hash; with none, forwarded unrecorded unless bound to another request |
| X402Atomic.PaidRepeatsExactly | crates/relaykey_app/src/x402/middleware.rs:166-333 | after any run a proof that has paid, presented by any key: refused with another hash, forwarded again iff no intent is waiting, and otherwise the mark fails |
| X402Atomic.PaidRepeatIsReachable | crates/relaykey_app/src/x402/middleware.rs:291-333 | from an empty table a payment and a second forward on it, for any key |
| X402Atomic.SpentProofNeverPays | crates/relaykey_app/src/x402/middleware.rs:291-319 | a proof on any row, verified or failed, is never again forwarded on an intent |
| X402Atomic.PaidHashNeverPaysAgain | migrations/0016_payment_intents.sql:69-71 | once a key has paid for a hash, an accepted proof with a waiting intent of the two is refused or fails, and nothing is recorded |
| X402Atomic.UnpaidRepeats | crates/relaykey_app/src/x402/middleware.rs:321-332 | with no intent waiting, an accepted proof is forwarded at every later time it is presented, and nothing records it |
| X402Interleaved.RunKeepsInv | crates/relaykey_app/src/x402/middleware.rs:120-496 | the protocol invariant over every interleaving without a shared hold |
| X402Interleaved.PaymentSingleUse | crates/relaykey_app/src/x402/middleware.rs:166-333 | no intent is marked twice; no intent, payment id or token pays for two forwards |
| X402Interleaved.MarkInstant | migrations/0016_payment_intents.sql:61-71 | at its mark a paid forward's row is the only verified one for its key and hash, with its proof |
| X402Interleaved.ClosedRowsAreFinal | crates/relaykey-db/src/queries/payment_intents.rs:75-121 | without a shared hold verified and failed rows never change again |
| X402Interleaved.SharedHoldExactly | crates/relaykey-db/src/queries/payment_intents.rs:83-87 | two accepted requests that looked up one intent are both forwarded iff no other row carries either proof and no other row is verified for its key and hash; the second proof overwrites the first |
| X402Interleaved.SharedHoldPaysTwice | crates/relaykey-db/src/queries/payment_intents.rs:83-87 | with unused payment ids both are forwarded, one id submitted twice included; of two ids the first is erased |
| X402Interleaved.RaceIsReachable | crates/relaykey_app/src/x402/middleware.rs:260-280 | any target and any two payment ids, equal or not, lead to that situation from an empty gateway |
| X402Interleaved.ClosedRowChangesExactly | crates/relaykey-db/src/queries/payment_intents.rs:75-121 | in any state a verified or failed row changes in a step iff a request holding it marks it, successfully, with another status or a proof it did not carry |
| X402Interleaved.RejectionUndoesPayment | crates/relaykey-db/src/queries/payment_intents.rs:99-121 | with a shared hold a rejected proof turns a paid intent to failed and overwrites its proof |
| X402Interleaved.UndoingIsReachable | crates/relaykey_app/src/x402/middleware.rs:335-378 | any target and two payment ids lead there from an empty gateway |
| X402Interleaved.ExpiredRowChangesExactly | crates/relaykey-db/src/queries/payment_intents.rs:83-87 | without a shared hold an expired row changes in a step iff the step is its holder's successful mark |
| X402Interleaved.HeldIntentOutlivesExpiry | crates/relaykey-db/src/queries/payment_intents.rs:83-87 | any held intent whose proof can be marked expires and is verified all the same if the mark comes late |
| X402Interleaved.OutlivingIsReachable | crates/relaykey_app/src/x402/middleware.rs:260-333 | any target and payment id lead to such an intent from an empty gateway |
| X402Interleaved.AtomicIsASchedule | crates/relaykey_app/src/x402/middleware.rs:120-496 | a request run without interference does and answers what the atomic model says |
| Migration0016.Migrate | migrations/0016_payment_intents.sql:4-71 | the three updates in order, after which all three unique indexes can be created |
| Migration0016.RankOne | migrations/0016_payment_intents.sql:9-12 | row number one is the newest of its partition, and of equally old rows that with the greatest id |
| Migration0016.MigrationKeepsRows | migrations/0016_payment_intents.sql:16-59 | no row is lost and only duplicated values or statuses are cleared |
| Migration0016.MigrationKeepsPaymentIds | migrations/0016_payment_intents.sql:4-20 | every payment id survives, on the newest row that carried it (by ts, then id) and no other |
| Migration0016.MigrationKeepsPaymentTokens | migrations/0016_payment_intents.sql:22-38 | every payment token survives, on the newest row that carried it (by ts, then id) and no other |
| Migration0016.MigrationKeepsVerifiedGroups | migrations/0016_payment_intents.sql:40-59 | every verified (key, hash) group keeps one verified row, its newest (by ts, then id) |
| Migration0016.BindingSurvivesExactly | migrations/0016_payment_intents.sql:5-59 | a payment id or token stays bound to a verified intent iff its newest row is the greatest verified row of its group |
| Migration0016.NewerRowTakesBinding | migrations/0016_payment_intents.sql:5-38 | two rows of which the older, verified one loses its proof to the newer one |
| Migration0016.MigrationIdempotent | migrations/0016_payment_intents.sql:5-59 | a table that satisfies the indexes is left alone; running the updates twice is running them once |
| RetryLoop.BackoffExact | crates/relaykey_app/src/proxy.rs:91-96 | the saturating backoff is min(cap, base * 2^min(attempt-1, 10)) and never shrinks |
| RetryLoop.Pow2Doubles | crates/relaykey_app/src/proxy.rs:91-96 | the powers in the backoff |
| RetryLoop.CheapJitterMs | crates/relaykey_app/src/proxy.rs:98-101 | the jitter is at most 22 ms |
| RetryLoop.RunAttempts | crates/relaykey_app/src/proxy.rs:341-579 | the number of passes, sends and retries, the end time and the answer, for any policy, upstream and gate; the end is at most deadline + the last gate's time + max backoff + 22 ms |
| RetryLoop.LoopBounds | crates/relaykey_app/src/proxy.rs:341-579 | at most max(1, max_attempts) passes, one for methods that are not idempotent, the last begun by deadline + the last gate's time + max backoff + 22 ms |
| RetryLoop.WaitExactly | crates/relaykey_app/src/proxy.rs:432-450 | between a pass and the next lie its send, its gate and exactly min(cap, base * 2^min(k, 10)) plus a jitter of 0 to 22 ms |
| RetryLoop.RetriedOutcomes | crates/relaykey_app/src/retry/classify.rs:9-29 | which outcomes are retried, by status, and that none other is; a retryable one is returned only when the attempts are used up or the gate refuses |
| RetryBudget.BudgetStore.TakeOneWithTtl | crates/relaykey_app/src/retry/budget.rs:27-49 | INCR, EXPIRE on first use, and what remains |
| RetryBudget.BudgetStore.AllowRetryDualBudget | crates/relaykey_app/src/retry/budget.rs:51-124 | both counters are taken whatever the answer; allowed iff both counts are within their limits |
| RetryBudget.RetryAmplification | crates/relaykey_app/src/proxy.rs:404-452 | in every interleaving sends are at most handlers plus allowed decisions |
| RetryBudget.AmplificationReached | crates/relaykey_app/src/proxy.rs:404-452 | the bound is reached for any number of retries within the limits |
| RetryBudget.FinishedForGood | crates/relaykey_app/src/proxy.rs:385-579 | a handler that has given up, been answered or been refused a retry takes no further step in any run |
| RetryBudget.LimitPerLife | crates/relaykey_app/src/retry/budget.rs:31-49 | within one life of a counter at most its limit is allowed |
| RetryBudget.TwiceTheLimitPerMinute | crates/relaykey_app/src/retry/budget.rs:31-49 | INCRs within 60 s (two windows less a millisecond for a limit of one) earn at most twice the limit |
| RetryBudget.AnswersPerMinute | crates/relaykey_app/src/retry/budget.rs:51-124 | the same for answers, when interval and delay together stay within that threshold |
| RetryBudget.AnswersPerMinuteExactly | crates/relaykey_app/src/retry/budget.rs:51-124 | over all runs answers in an interval are at most twice the limit iff the interval is empty, a limit is zero, or interval and delay stay within the threshold |
| RetryBudget.GateLimitsOverRuns | crates/relaykey_app/src/retry/budget.rs:51-124 | the three bounds over every run from an empty store |
| RetryBudget.LateAnswersUnbounded | crates/relaykey_app/src/retry/budget.rs:77-124 | with unbounded delays any number of retries on either kind of counter can be allowed at one instant |
| RetryBudget.GateIsASchedule | crates/relaykey_app/src/retry/budget.rs:51-124 | a gate without interference does and answers what the sequential code does |
| Rollup.RollupTable.RollUpDays | crates/relaykey-db/src/queries/metrics.rs:51-97 | after the upserts each day in the range has its direct group-by over its old rows, and every other day is untouched |
| Rollup.AlignedRange | crates/relaykey-db/src/queries/metrics.rs:67-86 | a range of whole days computes for each day its direct group-by |
| Rollup.RollupAgreesWithLog | crates/relaykey-db/src/queries/metrics.rs:51-97 | over any run each day's rows are the direct group-by of the log at its last rollup, none stale |
| Rollup.RollupFromEmptyTable | crates/relaykey-db/src/queries/metrics.rs:51-97 | the same from an empty table: every day holds exactly its group-by, and days never rolled up hold nothing |
| Rollup.RollupShowsLatestLog | crates/relaykey-db/src/queries/metrics.rs:51-97 | a day rolled up after the log has grown shows the grown log |
| Rollup.RollupSplits | crates/relaykey-db/src/queries/metrics.rs:85-96 | a range rolled up in two parts, or twice, gives the same table |
| RollupQueries.UsageRowExists | crates/relaykey-db/src/queries/metrics.rs:67-86 | a usage row exists iff its key has events of its partner and day in range, and is filed under the key's owner |
| RollupQueries.UsageRowMeaning | crates/relaykey-db/src/queries/metrics.rs:73-82 | every column is the number of the key's events of the day and partner that qualify, on the raw columns |
| RollupQueries.ErrorRowMeaning | crates/relaykey-db/src/queries/metrics.rs:134-158 | an error row exists iff there are such errors, under the key's owner, and is their number |
| RollupQueries.X402RowMeaning | crates/relaykey-db/src/queries/x402_metrics.rs:87-106 | an x402 row exists iff the key has intents of its partner, provider and day, and each column is their number by status |
| RollupQueries.BucketMeaning | crates/relaykey-db/src/queries/metrics.rs:140-147 | which recorded errors each bucket name stands for, both ways |
| RollupQueries.TwoKindsRecorded | crates/relaykey_app/src/usage.rs:41-75 | the events the balances are about: forwarded with a status, or blocked with a reason |
| RollupQueries.UsageRowBalanced | crates/relaykey-db/src/queries/metrics.rs:73-82 | total = forwarded + blocked, and forwarded = its status classes plus statuses outside 200..599 |
| RollupQueries.X402RowBalanced | crates/relaykey-db/src/queries/x402_metrics.rs:93-97 | created = verified + failed + expired + unpaid |
| RollupQueries.X402ErrorRowMeaning | crates/relaykey-db/src/queries/x402_metrics.rs:138-148 | an error row exists iff there are events of its type, day and key, and is their number, on the raw columns |
| RollupQueries.CrossTableConservation | crates/relaykey-db/src/queries/metrics.rs:140-158 | the error buckets of a key add up to its blocked, 4xx and 5xx requests, but for statuses from 600 |
| RollupQueries.WholeDaysExactly | crates/relaykey_app/src/bin/rollup.rs:32-34 | a rollup shows only whole days iff its range is midnight-aligned or empty |
| UsageMerge.AdminUsage | crates/relaykey_app/src/admin/usage.rs:111-173 | each usage row with the sums of the x402 rows of its key |
| UsageMerge.MergeIgnoresOrder | crates/relaykey_app/src/admin/usage.rs:116-130 | the sums do not depend on the order of the x402 rows |
| UsageMerge.MergeBalanced | crates/relaykey_app/src/admin/usage.rs:124-129 | created = verified + unpaid + failed + expired in every report row over a rolled-up table |
| UsageMerge.ReportTotals | crates/relaykey_app/src/admin/usage.rs:132-173 | the report's totals are those of exactly the x402 rows whose key has a usage row |
| UsageMerge.ReportCountsIntents | crates/relaykey_app/src/admin/usage.rs:111-173 | from the raw rows: the report counts exactly the intents in range with a usage event of the same day, key and partner, in all and by status |
| UsageMerge.ReportLosesNothingExactly | crates/relaykey_app/src/admin/usage.rs:132-173 | the report counts every intent in range iff each has such a usage event |
| UsageMerge.UnpaidRequestIsLost | crates/relaykey_app/src/admin/usage.rs:132-152 | an intent without a usage event is counted nowhere in the report |
| PolicyCache.CacheKey.LoadPolicyBundle | crates/relaykey_app/src/policies/cache.rs:23-63 | a hit returns the cached policy; a miss returns the database's and caches it if found |
| PolicyCache.StalenessBound | crates/relaykey_app/src/policies/cache.rs:23-63 | a policy returned at t was the database's at an instant after t - 300 s - delay, up to t |
| PolicyCache.StalenessReached | crates/relaykey_app/src/policies/cache.rs:47-60 | that age is reached, to the millisecond |
| PolicyCache.LoadIsASchedule | crates/relaykey_app/src/policies/cache.rs:23-63 | a load without interference is one schedule of the interleaved readers |

## Left out

- HTTP, routing, header filtering, URL joining and tracing: an upstream send is an outcome with a duration, chosen freely.
- Redis and Postgres errors and the paths that fail open on them: all bounds are for runs without such faults. A failed update on a unique index is modelled.
- Floating point: Lua doubles become scaled integers, and `avg_latency_ms` is dropped from the usage rows.
- SHA-256 and base64: the digest is taken to be injective, so a request hash is the framed bytes themselves.
- Configuration overrides, unregistered providers and body-read errors of the x402 middleware: they answer before the protocol touches an intent, or after the sweep alone.
- Provider implementations: a verdict is any of accepted, rejected or error.
- x402 event rows written by the middleware: they feed the x402 error rollup and nothing in the protocol reads them.
- Negative rates and changes of a key's limits between calls: the limiter's theorems take a fixed rate of at least 0 and a burst of at least 1.
- Clock skew between application and Redis: expiry and timestamps read one clock.
- TailOfProxyUrl: does not model the router's percent-decoding of the captured tail; it holds for URLs without escapes.
- MiddlewareImpliesHandler: holds for URLs without percent-escapes, because the middleware tests the raw path and the handler the decoded tail.
- NoTraceWhileKept: a key that never expires; the deployed key is the subject of RefusedCallsLeaveNoTraceExactly.
- SpreadBoundExactly: bursts that the key's life does not refill are left out; for them AnyClockBound gives the bound.
- Bookkeeping between attempts: logging and usage-event inserts take no time in the retry loop; sends, gates and sleeps do.
- Cascading deletes of virtual keys and edits to a key's customer: the rollup theorems take rows that are only added or keep what they are grouped by.
- 64-bit overflow of counters and of report sums: counts are unbounded; only the backoff arithmetic is modelled at its width.
- Bytes of a path: paths are sequences of characters, on which the matchers agree with the byte positions of the original.
- Query functions with optional filters and ordering: each is one filtered read.
