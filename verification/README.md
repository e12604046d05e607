# API traffic platform: admission control and the protocols around it

A Dafny model of the gateway's rate limiters and quotas, the telemetry outbox, refresh-token
families, API keys, the request log with its rollups, and the slug loop, with proofs about all their
runs. `dafny verify dfyconfig.toml` checks everything.

## How it is laid out

| file | what it is about |
|---|---|
| `RateLimit.dfy`, `Options.dfy`, `Logs.dfy`, `Sums.dfy`, `Sets.dfy`, `Seqs.dfy`, `Numbers.dfy` | replies and results of the limiters, key expiry, event logs, sums over table rows, and small tools |
| `Envelope.dfy`, `TokenBucket.dfy` | the token bucket: why one level enforces a bound on every span of time, and the script on its Redis key |
| `SlidingWindow.dfy` | the sliding-window log, refined to a specification over the full history |
| `RedisCounter.dfy`, `FixedWindow.dfy` | the expiring counter, and the fixed-window limiter on it |
| `Calendar.dfy`, `Quota.dfy` | quota buckets, their TTL, and what a bucket lets through over its counter's lifetimes |
| `GatewayQuota.dfy`, `QuotaSafety.dfy` | interleaved consume, check and give-back of many gateway calls; when the limit of a counter is safe |
| `Enforcement.dfy`, `QuotaRuns.dfy` | the quota code on its expiring Redis keys; runs of all calls on those keys and one clock |
| `Outbox.dfy` | drain workers with locks, a failing sink, commit and rollback |
| `RefreshTokens.dfy` | token families under login, rotation, replay, expiry, logout and password reset |
| `Rollup.dfy`, `Ledger.dfy` | the daily rollup and the series read from it; recording of requests, usage counters and tenancy |
| `ApiKeys.dfy`, `Slugs.dfy` | key validity under revocation and rotation; slugs |

Objects whose methods change rows or Redis keys are classes here (`BucketKey`, `LogKey`,
`CounterKey`, `Enforcer`, `Session`, `AuthService`, `Analytics`, `Recorder`, `ApiKeyService`,
`Namespace`). Each method is proved equal to a step function or a stated result, and the lemmas are
about runs of those steps. Every operation of `Enforcer` on a key is one more step of the run of all
calls, and what a `Session` does is shown to be a step of all workers' protocol (`BatchIsStep`,
`CommitIsStep`). A run is a list of steps in which a step that is not possible changes nothing, so
the results hold for every sequence of steps.

## Assumptions

- Rule values are positive, as the request schemas demand, and a rule does not change during a run.
- One clock that does not go back serves a key; the token bucket reads it in seconds, its Redis key
  in truncated milliseconds. Redis may drop a key at its deadline or only after it: results about
  expiry hold for both rules (`Boundary`).
- Members of the sliding-window set are distinct (`Proper`).
- An API's quotas, one per period, come in the same order for every call; the query that lists them
  names no order.
- UUIDs, refresh tokens and password hashes are fresh when made, and hashing is injective; the
  shortened fingerprint in a reset token stands for the whole hash.
- An operation on the database that fails may or may not leave its effects in the session, which a
  request rolls back (`get_session`) and the refresh-token runs allow for either way.

## What the code does that its documentation does not say

- A unit that is given back after midnight, or after the key it was taken from has expired, is taken
  from another counter, which then starts at -1 and admits one call too many
  (`MidnightGiveBackOverruns`). Under every interleaving a give-back is such a stray unless it falls
  into the same bucket and every operation since has found the key (`QuotaRuns.GiveBackFindsIt`). A
  stray can cost no more than that: the calls admitted on a counter exceed its limit by at most the
  strays it got (`NeverOverQuota`), and those admitted on a calendar day or month exceed three
  times, or twice, the limit by at most the strays it got (`CalendarBudget`). As long as keys lead
  to the counters they lead to now, whatever calls come, fail and give back, the calls past the
  check of a counter (admitted or not, and holding their unit still) keep its limit if and only if
  they keep it now, and its key does not lead to it any more, or it covers the units held of it and
  those that calls under way took elsewhere and may still give back into it, or not enough calls can
  get to its check, because the quota that is checked first is full (`SafeFromIff`). The counters
  equal the units held throughout a run if and only if there is no stray at all
  (`ConservedIffAligned`); summed over all counters of a period they always do (`TotalConserved`).
- The cap on a calendar day or month can fail even without give-backs, because a daily counter can
  expire up to 2 s before its day ends, and a counter that expires early is created anew. For every
  limit the cap is kept if and only if there are no more calls than the limit, or the counter that the
  first of them created has not expired by the last one (`CapIffFirstCounterLasts`); so it is always
  kept until 2 s before the end of a day and 1 s before the end of a month (`CapKeptUntilTheEnd`). In
  any case a day lets no more than three times the limit through and a month no more than twice
  (`BucketBudget`), and for every limit and date a run reaches that (`LivesAreSharp`).
- `attempts` of an outbox row does not count delivery failures, as the comment in the publisher
  intends: the failure rolls the bump back, and a row has exactly one attempt once published and none
  before (`AttemptsAreCommits`).
- The publisher promises that concurrent workers drain without double delivery. Locks do keep two open
  transactions from sharing a row, but the sink accepts a row once for every transaction that stamped
  it, those that were rolled back for a later failure included (`AcceptedPerStamp`). A row is accepted
  more than once if and only if such a transaction was rolled back and the row was accepted again
  (`DoubleDeliveryIff`), and that happens (`DeliveredTwice`): a worker leaves delivered rows to be
  delivered again if and only if its sink took the first batch and fails on a later one that there are
  rows for (`PublishTelemetry`).
- Replaying a refresh token is documented to revoke its family. On the request path the error rolls
  the revocation back: the family is dead afterwards if and only if the revocation was kept or it was
  dead before, and if it was not kept the family's live token still rotates (`ReplayKillsIffKept`,
  `RotatesIff`).
- A fixed window admits at most 2 * limit - 1 calls in any span one window long, one less than two
  full windows, and that many do occur (`WindowLaw`, `WindowLawIsSharp`); only a span that counts
  both its ends can hold 2 * limit.

## Model

| member | source | states |
|---|---|---|
| RateLimit.MsToSecondsCeil | backend/app/services/rate_limit/strategies.py:95-96 | waiting that many whole seconds covers the hint and exceeds it by less than one second; never negative |
| TokenBucket.TruncatedTtlOutlasts | backend/app/services/rate_limit/strategies.py:135-139 | the truncated TTL plus one second outlasts a refill from empty, with a millisecond to spare |
| TokenBucket.BucketKey.Eval | backend/app/services/rate_limit/strategies.py:66-92 | the script, statement by statement, on a key that may have expired: what it stores, its verdict and its reply |
| TokenBucket.BucketKey.Check | backend/app/services/rate_limit/strategies.py:133-148 | next key and result are those of the step `Checked`, which the `Check` laws below are about: the rule becomes capacity, rate and TTL, the script runs, the hint is rounded |
| TokenBucket.ExpiredIsFull | backend/app/services/rate_limit/strategies.py:75-80 | a key old enough to have expired behaves like a missing one, because its bucket would be full |
| TokenBucket.ExpiryChangesNothing | backend/app/services/rate_limit/strategies.py:66-92 | every run with PEXPIRE has the verdicts and the stored tokens, and so the replies, of a run whose key never expires, by either boundary rule |
| Envelope.LevelIsLeast | backend/app/services/rate_limit/strategies.py:79-84 | the refilled and capped level is the least room left by any span that starts at an admission |
| Envelope.AdmittedIffRoom | backend/app/services/rate_limit/strategies.py:81-88 | at least one token is left exactly when one more admission keeps the bound on all spans ending now |
| Envelope.AdmittedRespects | backend/app/services/rate_limit/strategies.py:79-84 | greedy admission keeps the bound on every span |
| Envelope.NeverBehind | backend/app/services/rate_limit/strategies.py:79-84 | exchange argument: a selection of the same calls that keeps the bound has never admitted more |
| TokenBucket.ScriptIsGreedy | backend/app/services/rate_limit/strategies.py:72-91 | the stored tokens are the envelope's level after every call, and decide every call |
| TokenBucket.AdmittedIffWithinRate | backend/app/services/rate_limit/strategies.py:66-92 | a call is refused exactly when admitting it would break capacity + rate * (now - s) for some span ending now |
| TokenBucket.AdmittedWithinRate | backend/app/services/rate_limit/strategies.py:66-92 | from a fresh key every span [s, t] admits at most capacity + rate * (t - s) calls |
| TokenBucket.MostPermissive | backend/app/services/rate_limit/strategies.py:66-92 | no selection of the same calls that keeps the bound admits more of them |
| TokenBucket.RemainingIsExact | backend/app/services/rate_limit/strategies.py:79-91 | `remaining` is the number of further calls at the same instant admitted before the first refusal |
| TokenBucket.RetryHintIsExact | backend/app/services/rate_limit/strategies.py:79-91 | calls up to the millisecond before the hint are refused, a call at the hint or later is admitted, whatever was polled in between |
| TokenBucket.RoundedHint | backend/app/services/rate_limit/strategies.py:86-96 | a refusal hints at least 1 ms; in seconds the hint stays sufficient and adds less than a second |
| TokenBucket.CheckAdmitsIff | backend/app/services/rate_limit/strategies.py:133-148 | over every run of `check` on a rule: the result lets a call through iff, with cap the burst if it is given and not 0 and else `requests`, every span [s, now] keeps count * window_seconds <= cap * window_seconds + requests * (now - s) |
| TokenBucket.CheckKeepsRate | backend/app/services/rate_limit/strategies.py:133-148 | no span of such a run lets more calls through than that |
| TokenBucket.CheckRemaining | backend/app/services/rate_limit/strategies.py:143-148 | the result's `limit` is that cap, and its `remaining` the exact number of further calls let through at the same instant |
| TokenBucket.CheckRetryAfter | backend/app/services/rate_limit/strategies.py:143-148 | `retry_after` is 0 iff the call was let through; else it is the least number of whole seconds to wait: polls up to a second before it are refused, any call from it on is let through |
| TokenBucket.KeyOutlivesRefill | backend/app/services/rate_limit/strategies.py:138-139 | after every call the key has left to live what a refill of the cap from empty takes by the rule, cut to milliseconds, and one second |
| TokenBucket.ClockBackEarnsNothing | backend/app/services/rate_limit/strategies.py:79-91 | a call whose clock lies before that of the call before it is let through iff that one left something, and takes one of it |
| SlidingWindow.LogKey.Eval | backend/app/services/rate_limit/strategies.py:40-60 | the script on the sorted set, statement by statement |
| SlidingWindow.LogKey.Check | backend/app/services/rate_limit/strategies.py:112-130 | next key and result are those of the step `Checked`, which the `Check` laws below are about |
| SlidingWindow.RefinesHistory | backend/app/services/rate_limit/strategies.py:40-60 | every reply is the specification's reply over the full history of admissions, with and without expiry |
| SlidingWindow.KeyHoldsWindow | backend/app/services/rate_limit/strategies.py:46-50 | after a call the pruned set is exactly the admissions of the last window |
| SlidingWindow.AdmittedIffWindowHasRoom | backend/app/services/rate_limit/strategies.py:46-52 | admitted iff fewer than `limit` calls were admitted in the window that ends now |
| SlidingWindow.WindowLaw | backend/app/services/rate_limit/strategies.py:40-60 | no span of one window length holds more than `limit` admissions |
| SlidingWindow.ExpiryChangesNothing | backend/app/services/rate_limit/strategies.py:46-51 | expiry changes no reply and no admission, by either boundary rule |
| SlidingWindow.RemainingIsExact | backend/app/services/rate_limit/strategies.py:46-59 | `remaining` is the number of further calls at the same instant admitted before the first refusal |
| SlidingWindow.RetryHintIsExact | backend/app/services/rate_limit/strategies.py:53-59 | after a refusal a call is admitted iff it comes at the hinted millisecond or later, however many were polled before the hint |
| SlidingWindow.RoundedHint | backend/app/services/rate_limit/strategies.py:53-59 | the hint is positive, at most a window, and loses less than a second to rounding |
| SlidingWindow.CheckReturns | backend/app/services/rate_limit/strategies.py:112-130 | call after call `check` returns the result that the laws below are about; clamping `remaining` at 0 never changes it |
| SlidingWindow.CheckAllowsIff | backend/app/services/rate_limit/strategies.py:112-130 | over every run of `check` on a rule: the result lets a call through iff fewer than `requests` calls were let through in the 1000 * window_seconds ms that end with it |
| SlidingWindow.CheckKeepsWindow | backend/app/services/rate_limit/strategies.py:112-130 | no span of that length lets more than `requests` calls through |
| SlidingWindow.CheckRemaining | backend/app/services/rate_limit/strategies.py:125-130 | the result's `limit` is `requests`, and its `remaining` the exact number of further calls let through at the same instant |
| SlidingWindow.CheckRetryAfter | backend/app/services/rate_limit/strategies.py:125-130 | `retry_after` is 0 iff the call was let through |
| SlidingWindow.CheckWaitIsExact | backend/app/services/rate_limit/strategies.py:125-130 | after a refusal it is the least number of whole seconds to wait, however often was polled up to a second before: a call a second or more too early is refused, one at that time or later is let through |
| RedisCounter.ValueIsPlace | backend/app/services/rate_limit/strategies.py:25-28 | INCR returns the place of the call in its counter lifetime, so each lifetime keeps exactly its first `limit` calls within the limit |
| FixedWindow.CounterKey.Check | backend/app/services/rate_limit/strategies.py:99-109 | next counter and result are those of the step `Checked`, which the `Check` laws below are about |
| FixedWindow.LifetimeAdmitsFirstLimit | backend/app/services/rate_limit/strategies.py:25-33 | each counter lifetime admits exactly its first `limit` calls |
| FixedWindow.RefusedNeverProlong | backend/app/services/rate_limit/strategies.py:26-31 | however many refused calls come, the key keeps its deadline |
| FixedWindow.WindowLaw | backend/app/services/rate_limit/strategies.py:21-34 | any span one window long holds at most 2 * limit - 1 admissions, and at most 2 * limit if both its ends count |
| FixedWindow.WindowLawIsSharp | backend/app/services/rate_limit/strategies.py:3-5 | for every rule the burst at a window edge reaches that number |
| FixedWindow.RemainingIsExact | backend/app/services/rate_limit/strategies.py:30-33 | `remaining` is the number of further calls at the same instant admitted before the first refusal |
| FixedWindow.CheckAllowsIff | backend/app/services/rate_limit/strategies.py:99-109 | over every run of `check` on a rule: the result lets a call through iff it is one of the first `requests` calls of its counter lifetime |
| FixedWindow.CheckKeepsDeadline | backend/app/services/rate_limit/strategies.py:25-28 | a lifetime begins with the first call that finds none, lasts 1000 * window_seconds ms from there, and no call changes that |
| FixedWindow.CheckKeepsWindow | backend/app/services/rate_limit/strategies.py:99-109 | no span of that length lets more than 2 * requests - 1 calls through, and none that counts both its ends more than 2 * requests |
| FixedWindow.CheckRemaining | backend/app/services/rate_limit/strategies.py:104-109 | the result's `limit` is `requests`, and its `remaining` the exact number of further calls let through at the same instant |
| FixedWindow.CheckRetryAfter | backend/app/services/rate_limit/strategies.py:104-109 | after a refusal `retry_after` covers what is left of the lifetime, by less than a second; it is 0 for a call let through |
| Calendar.DayNumberIsOrdinal | backend/app/services/quota.py:37-38 | the days are numbered as a closed form says that has no table of months and no sum over years |
| Calendar.DatesByOrdinal | backend/app/services/quota.py:33-38 | the valid dates are those before the first of the next month, and instants count microseconds of 24-hour days, both by that closed form |
| Quota.BucketIsInterval | backend/app/services/quota.py:31-35 | two moments share a bucket exactly when one lies between the true start and end, by the closed form, of the other's day or month |
| Quota.ExpiryNearEnd | backend/app/services/quota.py:30-40 | a counter expires strictly between 2 s before and 1 s after the end of its day, within 1 s of the end of its month, for every date; the ends are those of the closed form |
| Quota.TtlIsSecondsLeft | backend/app/services/quota.py:33-39 | the TTL is the exact number of whole seconds left to the end of the month, or to one second before the end of the day, and 1 if none is left |
| Quota.ExpiryBoundsAreSharp | backend/app/services/quota.py:33-39 | both bounds are met to the microsecond in every day and month |
| Quota.BucketBudget | backend/app/services/quota.py:47-62 | consume alone, in one bucket: at most three lifetimes a day and two a month, each yielding its first `limit` results as not exceeded |
| Quota.CapIffFirstCounterLasts | backend/app/services/quota.py:3-5 | for every limit: the cap of a day or month is kept iff there are no more consumes than the limit, or the counter the first of them created has not expired by the last |
| Quota.EveryCapIffFirstCounterLasts | backend/app/services/quota.py:3-5 | the caps of all limits at once are kept iff that counter has not expired |
| Quota.CapKeptUntilTheEnd | backend/app/services/quota.py:3-5 | so the cap is kept until 2 s before the end of every day and 1 s before the end of every month |
| Quota.BucketsAreIndependent | backend/app/services/quota.py:57-59 | in a run over any days and months a bucket's counter is what the consumes of that bucket alone make of it |
| Quota.EveryBucketKeepsBudget | backend/app/services/quota.py:47-62 | over every such run every day and month keeps the budget of its lifetimes, and its cap under exactly that condition |
| Quota.LivesAreSharp | backend/app/services/quota.py:56-61 | for every limit and at the end of every day and month a run spends the budget to the last unit |
| GatewayQuota.CounterAccounts | backend/app/services/quota.py:57-75 | under every interleaving: a counter plus the strays it got equals the units held of it plus the strays it lost |
| GatewayQuota.ConservedIffAligned | backend/app/services/quota.py:47-75 | every counter equals the units held throughout the run iff each give-back finds the counter of its consume |
| GatewayQuota.NeverOverQuota | backend/app/services/gateway.py:192-211 | under every interleaving, in every lifetime of every counter: calls past a check that hold their unit, and so admitted calls, exceed `max_requests` by at most the strays the counter got |
| QuotaSafety.SafeIff | backend/app/services/gateway.py:192-206 | from any reachable state on, over everything that can happen while keys lead to given counters: the calls past the check of a counter keep its limit iff they keep it now, and no key leads to it, or it covers the units held of it and those astray that may come back into it, or not enough calls can get to its check |
| QuotaSafety.ShortCounterOverruns | backend/app/services/quota.py:64-75 | a counter below the units held of it, that a key leads to and that enough calls can get to, is overrun by a continuation on the present counters |
| QuotaSafety.UncoveredOverruns | backend/app/services/quota.py:64-75 | so is one that only the units astray will make short |
| GatewayQuota.TotalConserved | backend/app/services/quota.py:64-75 | over all buckets of a period together the counters equal the units held, wherever give-backs land |
| GatewayQuota.NetIsHeld | backend/app/services/gateway.py:192-211 | what a call has added to a period's counters is what it still holds of it |
| GatewayQuota.FailedCallLeavesNothing | backend/app/services/gateway.py:144-151 | a call that ends in a quota or upstream error leaves every period net unchanged, and every counter iff its own give-backs found their counters |
| GatewayQuota.MidnightGiveBackOverruns | backend/app/services/quota.py:72-75 | the bound on strays is reached: one give-back after midnight, or after expiry, lets limit + 1 calls through |
| Enforcement.Enforcer.Consume | backend/app/services/quota.py:47-62 | for a call that no other call interrupts: INCR on the bucket's key, EXPIRE if that created it; reports the new value; one consume step of the run |
| Enforcement.Enforcer.Rollback | backend/app/services/quota.py:64-75 | DECR in the bucket of its own clock reading, which creates a key without expiry if there is none; one give-back step of the run |
| Enforcement.ConsumedKey | backend/app/services/quota.py:58-62 | a consume that finds its key adds one and keeps its deadline, unless give-backs had left it at 0; else the key is created with the value 1 for the TTL; no other key changes |
| Enforcement.GivenBackKey | backend/app/services/quota.py:72-75 | a give-back that finds its key takes one and keeps its deadline; else the key is created with the value -1 and no deadline; no other key changes |
| Enforcement.BumpedIsIncr | backend/app/services/quota.py:54-61 | without give-backs the key is the expiring counter of the budget, with its bucket, deadline and value |
| Enforcement.ShownIsCounter | backend/app/services/quota.py:58-75 | the value an operation finds in Redis is that of the run's counter for the key's present lifetime |
| Enforcement.OwnGiveBackFindsIt | backend/app/services/quota.py:72-75 | for a call that no other call interrupts: a give-back finds the counter of its unit iff it falls into the same bucket and the key has not expired since |
| Enforcement.Enforcer.RollbackQuota | backend/app/services/gateway.py:208-211 | for a call that no other call interrupts: one give-back for each consumed period, wherever its key leads now |
| Enforcement.GivingBack | backend/app/services/gateway.py:208-211 | what that loop leaves: one unit less of each counter found, no other key touched, the call so much nearer its end |
| Enforcement.Enforcer.EnforceQuota | backend/app/services/gateway.py:192-206 | for a call that no other call interrupts: fails iff some quota shows no unit left, at the first such one |
| Enforcement.AllPassed | backend/app/services/gateway.py:192-206 | such a call past all checks holds one unit of every quota, and that is all it changed |
| Enforcement.Exceeding | backend/app/services/gateway.py:198-205 | such a call that exceeds a quota has failed, with one give-back for each unit it took |
| Enforcement.Enforcer.Handle | backend/app/services/gateway.py:141-151 | for a call that no other call interrupts: served with one unit of each quota, or failed with as many given back of each period as were taken |
| Enforcement.FailureLeavesNothing | backend/app/services/gateway.py:144-151 | such a call that failed leaves every counter as it was iff each key it took a unit of was still there when it gave back |
| QuotaRuns.IncrementThenExpire | backend/app/services/quota.py:58-61 | INCR and EXPIRE sent with nothing in between are the `consume` of an undisturbed call |
| QuotaRuns.AfterIsRun | backend/app/services/gateway.py:141-151 | what all calls do on one clock and on the keys, interleaved down to the single Redis command, is a run of the steps that the results of `GatewayQuota` are about |
| QuotaRuns.AfterIsSynced | backend/app/services/quota.py:58-75 | under every interleaving each key shows the value of the counter of its present lifetime |
| QuotaRuns.LivesAreFew | backend/app/services/quota.py:30-40 | under every interleaving of INCR, EXPIRE and DECR, however late an EXPIRE comes, the key of a day is created at most three times, that of a month at most twice |
| QuotaRuns.CalendarBudget | backend/app/services/quota.py:3-5 | under every interleaving: calls admitted and not given back on a day or month exceed three times, or twice, its limit by at most the strays it got |
| QuotaRuns.GiveBackFindsIt | backend/app/services/quota.py:72-75 | under every interleaving: a give-back finds the counter of its unit iff it falls into the same bucket and every operation on the key since has found it |
| QuotaRuns.SafeFromIff | backend/app/services/gateway.py:192-206 | the exact condition of `SafeIff` for every reachable state of keys and calls, at every instant, over everything that can go on on the clock while keys lead where they lead now, give-backs of units taken elsewhere included |
| Outbox.HandedOnceAndPerRollback | backend/app/services/telemetry/publisher.py:30-57 | deliveries of a row: one for its committed or open handing transaction, plus one per rolled-back one |
| Outbox.AcceptedPerStamp | backend/app/services/telemetry/publisher.py:40-55 | the sink accepts a row once for every transaction that stamped it: committed, open or rolled back |
| Outbox.DoubleDeliveryIff | backend/app/services/telemetry/publisher.py:3-6 | a row is accepted more than once iff a transaction that had delivered it was rolled back and it was delivered again |
| Outbox.DeliveredTwice | backend/app/workers/tasks.py:23-29 | a run of workers with the task's batches in which a later batch fails and the sink accepts a row twice |
| Outbox.LocksAreExclusive | backend/app/services/telemetry/publisher.py:30-37 | open transactions hold disjoint rows, all of them still pending |
| Outbox.PublishedForever | backend/app/services/telemetry/publisher.py:51-55 | a row stays with its time of creation, and a committed published row never becomes pending again |
| Outbox.AttemptsAreCommits | backend/app/services/telemetry/publisher.py:43-54 | a pending row has no attempts, a published row exactly one |
| Outbox.BatchesAreNotEmpty | backend/app/services/telemetry/publisher.py:37-41 | the sink is never called without rows |
| Outbox.Session.Select | backend/app/services/telemetry/publisher.py:30-37 | a full batch of the pending rows no one else holds, or all of them, oldest first and in order |
| Outbox.Session.MarkAll | backend/app/services/telemetry/publisher.py:45-54 | the loop changes exactly the rows of the batch, each once |
| Outbox.Session.DrainOutbox | backend/app/services/telemetry/publisher.py:22-57 | raises iff the sink fails on a non-empty batch, whose attempts are bumped; else the batch is stamped and counted |
| Outbox.BatchIsStep | backend/app/services/telemetry/publisher.py:30-57 | what `drain_outbox` does in a session is a step of the protocol of all workers |
| Outbox.CommitIsStep | backend/app/db/session.py:54-65 | committing the session's view is the commit of the protocol |
| Outbox.OneMoreRound | backend/app/workers/tasks.py:25-29 | batch after batch the oldest rows are taken; a batch is empty iff none are left |
| Outbox.Session.DrainBatches | backend/app/workers/tasks.py:23-29 | for a worker whom no other disturbs between its batches: fails iff the sink fails on a batch that there are rows for, and then with all batches before it delivered; else drains the 10000 oldest rows or all there are |
| Outbox.Session.PublishTelemetry | backend/app/workers/tasks.py:19-30 | for such a worker with n pending rows no one else holds: fails iff the sink fails on one of 50 batches of 200 that n rows make, and then leaves the table unchanged with 200 delivered rows for every batch before; else the oldest min(n, 10000) are published and counted |
| RefreshTokens.AuthService.RevokeFamily | backend/app/repositories/user.py:31-37 | revokes the unrevoked tokens of the family and nothing else |
| RefreshTokens.AuthService.RotateToken | backend/app/services/auth.py:128-156 | next state and outcome are those of the step `Rotate`, which `RotatesIff`, `RotationReplaces` and `ReplayExpiryLogoutKill` say the meaning of |
| RefreshTokens.AuthService.LogoutToken | backend/app/services/auth.py:158-161 | revokes the presented token if it is live |
| RefreshTokens.AuthService.ResetPassword | backend/app/services/auth.py:209-233 | a reset with a current token changes the hash and revokes the user's live tokens; otherwise nothing changes |
| RefreshTokens.FamiliesAreChains | backend/app/services/auth.py:104-156 | each family is one linear `rotated_to` chain of one user, with at most one live token, the chain's last |
| RefreshTokens.NeverRotatedTwice | backend/app/services/auth.py:128-156 | a raw token once rotated is rejected as revoked in every later state |
| RefreshTokens.DeadStaysDead | backend/app/services/auth.py:128-161 | a family without a live token never regains one, and every later rotation in it fails |
| RefreshTokens.ReplayExpiryLogoutKill | backend/app/services/auth.py:133-161 | presenting a token that is revoked or past its expiry, and logging out with a live one, leave the whole family without a live token; no other family is touched, and a live token of a disabled account is left as it is |
| RefreshTokens.ReplayKillsIffKept | backend/app/models/user.py:31-36 | after a replay the family is dead iff the revocation was kept or it was dead before; not kept, nothing has changed |
| RefreshTokens.RotatesIff | backend/app/services/auth.py:128-156 | in every run a token that was issued rotates iff it is unrevoked, now < expires_at, and its user exists and is active |
| RefreshTokens.UnknownIsInvalid | backend/app/services/auth.py:129-131 | what was never issued is invalid, and presenting it or logging out with it changes nothing |
| RefreshTokens.RotationReplaces | backend/app/services/auth.py:151-156 | such a rotation revokes the token presented at its instant, links it to one new live token of the same user and family that lasts `ttl` from then, and changes nothing else |
| RefreshTokens.LifetimeIsTtl | backend/app/services/auth.py:104-145 | a token issued at t with `ttl`, by a login or a rotation, rotates at no instant from t + ttl on in any later state, and presenting it then leaves its family dead |
| RefreshTokens.LoginStartsFamily | backend/app/services/auth.py:104-114 | a login appends one token of a new family, which rotates until t + ttl while the account is active and not while it is disabled |
| RefreshTokens.RevokedWhen | backend/app/services/auth.py:143-155 | what a step revokes it revokes at its own instant |
| RefreshTokens.LogoutIsOwn | backend/app/services/auth.py:158-161 | logging out changes no token but the one presented, and revokes it if it is live |
| RefreshTokens.ResetKillsAllOfUser | backend/app/services/auth.py:219-223 | a reset kills all families of its user and touches no other user's tokens |
| RefreshTokens.ResetWorksIffHashIsOld | backend/app/services/auth.py:206-218 | in every later state a reset token works iff the user still has the password hash it was made with; it then sets the new hash and changes no other user |
| RefreshTokens.RehashVoidsResets | backend/app/services/auth.py:97-99 | a login that upgrades the hash voids the reset tokens made before, and changes no token |
| RefreshTokens.ResetTokenIsSingleUse | backend/app/services/auth.py:194-218 | a used reset token fails in every later state and changes nothing |
| Rollup.DaysPartitionTime | backend/app/repositories/analytics.py:196-198 | the inclusive microsecond bounds put every instant into exactly one day |
| Rollup.GroupsAreAggregates | backend/app/repositories/analytics.py:202-216 | one grouping pass yields every group's direct aggregate, and no empty group |
| Rollup.Analytics.RollupDaily | backend/app/repositories/analytics.py:194-231 | the day's rows become the direct aggregates of its logs, other days are unchanged; raises iff the unique constraint breaks |
| Rollup.Analytics.RollupTask | backend/app/workers/tasks.py:39-49 | yesterday and today rolled up in one transaction, rolled back iff an API was logged under two organizations in a day |
| Rollup.RollupIsIdempotent | backend/app/repositories/analytics.py:195-201 | rolling a day up again changes nothing |
| Rollup.UniqueIffOneOwner | backend/app/models/analytics.py:22-24 | the insert keeps (api, day) unique exactly when no API was logged under two organizations that day |
| Rollup.Analytics.DailySeries | backend/app/repositories/analytics.py:128-167 | one entry per day with a row in scope, oldest first, each with the sums over these rows and the average latency |
| Rollup.SeriesIsCount | backend/app/repositories/analytics.py:135-153 | on a rolled-up day the sums of requests, errors, latency and bytes over the rows are those of the log, and there is an entry iff something was logged in scope |
| Rollup.EntryIsLogged | backend/app/repositories/analytics.py:154-166 | on a rolled-up day the entry has the requests, errors and average latency of the raw log |
| Rollup.EntriesAddUp | backend/app/repositories/analytics.py:151-167 | the entries add up to the day sums of the range: days without an entry have nothing to add |
| Rollup.SeriesTotalIsCount | backend/app/repositories/analytics.py:128-167 | after rolling each day of a range, the request and error totals of the series equal direct counts over the raw log |
| Ledger.Recorder.Upsert | backend/app/repositories/telemetry.py:81-104 | inserts the key's counter for the day or adds one to it |
| Ledger.Recorder.Record | backend/app/services/request_log.py:24-64 | the three writes of one served call |
| Ledger.FullRecord | backend/app/services/request_log.py:24-64 | a session that has made all three writes commits the record of its call and nothing else |
| Ledger.CommittedOnce | backend/app/services/request_log.py:24-64 | in every run, a call that is recorded and committed leaves one log row, one event, one request more in the usage row of its key and day, one error more iff its status is at least 500, and nothing else |
| Ledger.RolledBackLeavesNothing | backend/app/services/request_log.py:3-5 | rolled back, however far its writes have got, it leaves nothing |
| Ledger.KeyServesWhileActive | backend/app/services/gateway.py:117-125 | a new key serves calls while its API is active, which it is at first, and is gone with it |
| Ledger.RollupNeverConflicts | backend/app/services/gateway.py:153-157 | over every run of API, key and traffic steps, no API is logged under two organizations in a day, so a rollup keeps (api, day) unique and never raises |
| Ledger.UsageMatchesLog | backend/app/services/request_log.py:24-64 | for each existing key: summed request count = log rows = request-log events, summed error count = rows with status at least 500 |
| Ledger.UsageByDay | backend/app/repositories/telemetry.py:81-104 | for each existing key and each day: the usage row has the number of log rows of that day and of those with status at least 500, there is none without any, and keys that are gone have no usage rows |
| ApiKeys.ApiKeyService.RevokeKey | backend/app/services/api_key.py:79-85 | sets `revoked_at` once, or reports a missing key |
| ApiKeys.ApiKeyService.RotateKey | backend/app/services/api_key.py:87-122 | issues the successor and cuts the old key to the grace window, or rejects a missing or revoked key |
| ApiKeys.ValidIffPermitted | backend/app/models/api_key.py:51-55 | a key is valid at t iff its creation, every revocation and every rotation each permits it at t |
| ApiKeys.InvalidForever | backend/app/models/api_key.py:51-55 | a key once invalid is invalid at all later times in all later states |
| ApiKeys.GraceIsTheLimit | backend/app/services/api_key.py:107-113 | invalid at every instant from now + grace on; before that the rotation takes nothing away |
| ApiKeys.RevokedOnce | backend/app/services/api_key.py:83-111 | `revoked_at` is the instant of the first revocation or rotation without grace, and is never changed |
| ApiKeys.RotationLeadsToSuccessor | backend/app/services/api_key.py:100-114 | following `rotated_to` from the old key ends at the new, valid one |
| ApiKeys.Newest | backend/app/services/api_key.py:114 | following `rotated_to` always ends, at a key that was never rotated |
| Slugs.SlugifyIsWellFormed | backend/app/services/organization.py:27-32 | every text yields a well-formed slug |
| Slugs.SlugKeepsLettersAndDigits | backend/app/services/organization.py:27-32 | for every text: with the places of its letters and digits (and the two characters outside ASCII whose lower case has one), the slug is those characters in order, A to Z as a to z, with a dash between two of them iff something stood between them; "org" if there are none |
| Slugs.DecimalReads | backend/app/services/organization.py:60 | a suffix is the decimal numeral of its number, without leading zeros |
| Slugs.SlugifyKeepsWellFormed | backend/app/services/organization.py:30-32 | a well-formed slug is left alone |
| Slugs.UniqueSlug | backend/app/services/organization.py:55-62 | ends for every finite set of taken slugs, with the base slug or the smallest free suffix from 2 |
| Slugs.Namespace.Create | backend/app/services/api_catalog.py:65-85 | an explicit slug in use is a conflict; otherwise the first free slug is stored, an explicit well-formed one unchanged; no slug is stored twice |

## Left out

- Quota.BucketBudget: covers `consume` alone, as `QuotaRuns.CalendarBudget` covers give-backs; deadlines are exact microseconds, not the milliseconds Redis keeps.
- QuotaSafety.SafeIff: is about the time in which keys lead to the same counters; when one expires or its bucket ends, it applies anew. It counts all calls past one check, not only those that pass the other and are served.
- Enforcement.Enforcer.Consume: sends EXPIRE right after INCR; in `QuotaRuns` other calls may come between the two.
- Enforcement.Enforcer.RollbackQuota: is about a call that no other call interrupts; what every interleaving keeps is proved about runs in `GatewayQuota` and `QuotaRuns`.
- Enforcement.Enforcer.EnforceQuota: is about a call that no other call interrupts; what every interleaving keeps is proved about runs in `GatewayQuota` and `QuotaRuns`.
- Enforcement.Enforcer.Handle: is about a call that no other call interrupts; what every interleaving keeps is proved about runs in `GatewayQuota` and `QuotaRuns`.
- Enforcement.GivingBack: is about a call that no other call interrupts; what every interleaving keeps is proved about runs in `GatewayQuota` and `QuotaRuns`.
- Enforcement.AllPassed: is about a call that no other call interrupts; what every interleaving keeps is proved about runs in `GatewayQuota` and `QuotaRuns`.
- Enforcement.Exceeding: is about a call that no other call interrupts; what every interleaving keeps is proved about runs in `GatewayQuota` and `QuotaRuns`.
- Enforcement.OwnGiveBackFindsIt: is about a call that no other call interrupts; what every interleaving keeps is proved about runs in `GatewayQuota` and `QuotaRuns`.
- Enforcement.FailureLeavesNothing: is about a call that no other call interrupts; what every interleaving keeps is proved about runs in `GatewayQuota` and `QuotaRuns`.
- Outbox.Session.DrainBatches: excludes inserts and lock changes by other workers between the batches; the protocol of all workers allows them.
- Outbox.Session.PublishTelemetry: excludes them, likewise.
- FixedWindow: says nothing about the call at the hinted instant, which depends on the Redis rule for the deadline itself.
- RefreshTokens: operations are serial, because the code takes no row lock; JWT signing, password checking and email are not modelled.
- Outbox: selecting and locking a batch is one step on the latest committed rows; the payload and the sink's own behaviour are not modelled.
- Ledger: a session's writes become visible together at commit; row locks of the upsert are not modelled.
- Rollup: rounding of averages to two decimals, percentiles, and the queries that read the raw log directly.
- Slugs: the column's length limit, and lower-casing outside ASCII beyond the two characters that yield a letter a to z.
- Calendar: `datetime` ends with year 9999, where the next month of December cannot be computed.
- Floating point: token levels and averages are exact reals, latencies whole numbers of a fine unit.
- The rate-limit check before the quota check, authentication of the key and the version lookup in `handle`: they consume no quota.
- Redis errors and cancelled tasks inside `handle`: a call that stops half way is one that takes no further step and keeps its units.
- Routers, permissions, the last-owner guard, audit records, notifications, the auth throttle and HTTP forwarding.
