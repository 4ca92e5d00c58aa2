# A verified model of the LLM router's accounting, routing and statistics

The router forwards chat requests to a pool of upstream endpoints. Around that it keeps seven
pieces of state, each of which is modelled here and proved correct for all inputs, runs or
interleavings:

| module | repository file | what it is |
|---|---|---|
| `TokenBucket`, `BucketRuns`, `BucketTiming`, `BucketLedger` | `src/ratelimit/limiter.rs` | the tokens-per-minute (TPM) bucket: an object with a signed balance, and theorems about whole runs of calls on it |
| `RateLimiterStore` | `src/ratelimit/limiter.rs` | the keyed store of limiters with its cleanup |
| `RetryLoop`, `RequestCharges`, `ProxyHandler`, `Endpoints` | `src/proxy/handler.rs` | one request: ban snapshot, sticky choice, limits, retry loop, TPM charges |
| `RouterLedger` | `src/proxy/handler.rs`, `src/ratelimit/limiter.rs` | any number of concurrent requests, the store calls they make, and the buckets those calls reach |
| `Balancer` | `src/router/balancer.rs` | round-robin counters, the scan that skips endpoints, the weighted pick |
| `Breaker` | `src/fail2ban/breaker.rs` | the circuit breaker whose read also writes |
| `SharedLimiter` | `src/sync/redis_sync.rs` | the fixed-window limiter shared through Redis by many instances |
| `Aggregation` | `src/stats/pg.rs` | hourly roll-up of request rows with a cursor |
| `SseUsage` | `src/proxy/handler.rs` | cutting a byte stream into events and extracting its usage |
| `Template` | `src/config/loader.rs` | `${VAR:-default}` expansion in the config file |

Conventions. Values carry the specification (`Bucket`, `EndpointState`, `Db`, ...); classes
(`TpmLimiter`, `Store`, `Fail2ban`, `RoundRobinCounters`, `ModelRouter`, `StatsWriter`) are the
router's objects, and their methods are proved to do to their fields what the specification
functions do to values, so that every lemma about runs of those functions is about the objects.
Monotonic instants are nanoseconds, and the truncation to milliseconds in the refill is written
out. Every call on a mutex-protected object is one atomic step. Everything a request shares with
others (round-robin counter, limiter verdicts, upstream answers) is an arbitrary oracle, so the
results about a request hold under every interleaving.

## Main results

* A bucket cannot be overspent for long: between any call and any later admission, everything
  deducted stays under one capacity plus the linear refill (`BucketRuns.SustainedRate`), where the
  truncation of the clock adds a millisecond unless the capacity divides 60000
  (`BucketRuns.SlackFreeExactly`).
* Whatever the endpoints are called, however often requests are retried, however they interleave
  and wherever each of them stands, the lifetime deductions of a bucket in the store are
  max(1, usage) per settled admission and one token per other admission
  (`RequestCharges.RequestLedger`, `RouterLedger.InterleavedLedger`, `RouterLedger.BucketOfRouter`).
* A bucket never falls below what unsettled requests can overdraw
  (`BucketLedger.OverdraftBound`, `RouterLedger.OverdraftOfRouter`), and that bound is reached
  (`BucketLedger.OverdraftReached`).
* The retry loop ends and never visits a banned name or a name twice if and only if handler and
  balancer give every endpoint the same name (`RetryLoop.RetryLoopCorrect`,
  `RetryLoop.AlwaysSafeExactly`). It then gives up only when every name was banned or visited, and
  that means every endpoint if and only if no two endpoints share a name
  (`RetryLoop.AlwaysExhaustiveExactly`).
* "Banned" is exactly a predicate over the history of events that mentions no counter and no
  deadline (`Breaker.BanMatchesHistory`).
* Any minute sees at most 2 * limit - 1 allowed checks of the shared limiter, however late an
  EXPIRE runs, and that bound is reached for every limit (`SharedLimiter.AnyMinute`,
  `SharedLimiter.EdgeBurst`).
* The hourly tables equal the one-shot group-by after any interleaving of inserts, commits,
  crashes and aborts (`Aggregation.ExactlyOnce`), and one more request before a run adds exactly
  its own tokens, cost and active token to them (`Aggregation.RequestIsCounted`).
* A contacted endpoint was allowed by every limiter it has, a skipped one refused by one of them
  (`RetryLoop.VerdictsRespected`); a check on the store is allowed exactly when it took its tokens
  (`RateLimiterStore.CheckVerdict`).
* The usage of a stream does not depend on how its bytes were cut into chunks
  (`SseUsage.StreamTask`, `SseUsage.SplitUnique`).
* Template expansion inverts printing (`Template.RoundTrip`); a set variable wins over its default,
  and an unset one gives the default stripped (`Template.SetVariableWins`,
  `Template.DefaultIsStripped`).

## Where the code differs from what its documentation says

The model follows the code. Each difference is a theorem.

* The handler masks an API key as 4+4 characters (`src/proxy/handler.rs:935-940`), the balancer as
  3+3 (`src/router/balancer.rs:171-176`). The names differ exactly for keys longer than six bytes
  (`Endpoints.NamesAgreeExactly`). For such keys the balancer recognises neither banned nor tried
  endpoints, and the retry loop can contact one failing endpoint for ever
  (`RetryLoop.EndlessRetry`, `RetryLoop.SafeExactlyForShortKeys`). Keys of at most six bytes all mask
  to the same text, so two of them at one URL share a name, and a request that has tried one
  never tries the other (`RetryLoop.OneLeftOut`). Requests are always safe and exhaustive exactly for models with short
  keys and pairwise different URLs (`RetryLoop.SafeAndExhaustiveExactly`).
* "The refill rate is linear" (`README.md:191`): every refill floors the elapsed time to
  milliseconds and the tokens to integers but restarts the clock, so intermediate calls lose tokens.
  A run of reads costs nothing exactly when its floorings lose nothing or the bucket is full anyway
  (`BucketTiming.PollingFreeExactly`, `BucketTiming.OnePollFreeExactly`), which holds for all runs
  only if the clock is read in whole milliseconds and the capacity is a multiple of 60000
  (`BucketTiming.PollingIsFreeExactly`). Frequent reads can cost half of the refill and more
  (`BucketTiming.RegularPolling`, `BucketTiming.PollingHalvesRefill`).
* Waiting out the advertised retry delay to the nanosecond is enough for every bucket exactly when
  the whole milliseconds of that delay earn the deficit, for instance when the capacity divides
  60000 times the deficit (`BucketTiming.RetryDelayExactly`, `BucketTiming.WholeDelaySuffices`);
  for 7 tokens a minute it is not (`BucketTiming.RetryAfterTruncation`).
* The 64-bit arithmetic of the bucket is exact only while balance plus earned tokens fit an i64: a
  full bucket of capacity 2^62 or more, which the configuration admits, has wrapped one minute later
  (`BucketLedger.MachineRefillExactly`, `BucketLedger.FullMinute`). Amounts from 2^63 on
  can be admitted because their cast is negative (`BucketLedger.MachineAdmitsExactly`).
* "Capacity minus consumed in the last 60 seconds" (`src/ratelimit/limiter.rs:123-124`): the
  reported balance is never too low, and it is that value exactly when no deduction of the last
  minute precedes the last reopening of the window (`BucketLedger.WindowReport`,
  `BucketLedger.WindowForgets`).
* Cleaning up an idle limiter forgives a debt of more than nine capacities
  (`BucketTiming.CleanupForgivesDebt`). With a debt of at most eight it is invisible when the next
  call refills the bucket (`BucketTiming.CleanupTransparent`). A check refused for its request rate or
  a read of the statistics recreates the limiter without a refill; then it is invisible if and only if
  the first refill after that happens at once or earns tokens (`BucketTiming.CleanupInvisibleExactly`) -
  otherwise the recreated bucket yields a token too early.
* "Crash-safe, no double-counting" (`README.md:393`) holds, but a row that becomes visible after
  the cursor has passed it is never counted (`Aggregation.CountsAllExactly`), and aggregation can
  get past the end of an hour exactly when no token names two teams within one hour among the rows
  up to there that are still to be processed (`Aggregation.CanPassExactly`); otherwise it has stopped
  for good (`Aggregation.ClashStopsAggregation`). Two requests recorded without a token hash, of two
  teams in one hour, are enough (`Aggregation.HashlessRequestsClash`); `src/proxy/handler.rs:1462`
  records such requests.
* A used-up shared counter allows a check again exactly after it was removed
  (`SharedLimiter.UsedUpExactly`). Without a deadline that can still happen if and only if some
  instance is still to send its EXPIRE (`SharedLimiter.RecoversExactly`). The reply to EXPIRE is
  ignored and an instance can die before sending it, so for every limit there is a reachable counter
  that refuses for ever (`SharedLimiter.LockOutReachable`, `SharedLimiter.LostExpireLocksOut`).
* "Endpoint with weight 2 gets roughly 2x traffic" (`README.md:253`): the round robin gives every
  eligible endpoint the same share, so traffic is proportional to the weights exactly when all
  weights are equal (`Balancer.WeightsIgnoredExactly`); weights count only in the sticky pick.
* An empty default counts as none, so a template with empty defaults is expanded as written exactly
  when they do not change the first missing variable (`Template.RoundTripExactly`,
  `Template.EmptyDefaultExactly`), and an unclosed `${X` is accepted (`Template.UnclosedReference`).
* "The router parses usage and consumes the remaining tokens" (`README.md:185`): a streamed response
  is free whatever usage it reports if and only if no line of a complete event starts with "data: "
  (`SseUsage.FreeExactly`). A stream framed with CR LF has no complete event at all, and a last event
  without its blank line is not charged (`SseUsage.CrLfStreamIsFree`,
  `SseUsage.UnterminatedEventIgnored`). The code handles the LF-only subset of the event-stream format
  (sections 9.2.5 and 9.2.6 of the WHATWG HTML Standard).
* A ban query at or after a ban's expiry forgives the failures so far; without the query they still
  count (`Breaker.QueryForgives`).
* The reported ban reason is the code of the last failure. It is that of the trigger, whatever the
  codes, if and only if no failure followed the trigger (`Breaker.ReasonExactly`); while the trigger's
  ban runs that can only happen after a success (`Breaker.ReasonIsTrigger`), and then the reason
  misleads (`Breaker.ReasonMisleads`).
* The "all endpoints banned" answer is given exactly when every endpoint is banned and no two share
  a name, because the code compares the size of a set of names with the number of endpoints
  (`ProxyHandler.AllBannedExactly`).

## Model

| member | source | states |
|---|---|---|
| TokenBucket.TpmLimiter.constructor | src/ratelimit/limiter.rs:46-58 | a new bucket is full (one token if the capacity is zero) with an empty window |
| TokenBucket.TpmLimiter.DoRefill | src/ratelimit/limiter.rs:61-71 | the refill the run theorems speak about: capped at the capacity, clock restarted only when tokens were added |
| TokenBucket.TpmLimiter.TrackWindow | src/ratelimit/limiter.rs:80-87 | an amount is added to the window, or opens a new one after 60 s; balance and refill clock are untouched |
| TokenBucket.TpmLimiter.CheckN | src/ratelimit/limiter.rs:74-98 | admits exactly when the refilled balance suffices, deducts atomically, a refusal keeps the refill and carries the delay for the deficit |
| TokenBucket.TpmLimiter.ConsumeN | src/ratelimit/limiter.rs:102-114 | a post-fact deduction always takes the whole amount, also below zero |
| TokenBucket.TpmLimiter.Remaining | src/ratelimit/limiter.rs:117-121 | the balance after a refill that it writes back |
| TokenBucket.TpmLimiter.WindowRemaining | src/ratelimit/limiter.rs:125-134 | capacity minus the window's count, after expiring an old window |
| BucketRuns.MinuteEarns | src/ratelimit/limiter.rs:60-66 | 60000000000 nanoseconds earn exactly the capacity, any time its linear share up to one flooring of tokens and one of milliseconds |
| BucketRuns.OneCall | src/ratelimit/limiter.rs:61-134 | one call, with what it took out added back, raises the potential by no more than the passing of time does, and leaves it under a ceiling unless it is a window read |
| BucketRuns.RunPotential | src/ratelimit/limiter.rs:61-134 | over every run, deductions plus the final balance are paid by the initial potential and the refill of the interval |
| BucketRuns.WindowedBound | src/ratelimit/limiter.rs:61-134 | the same bound with a full bucket in place of the initial potential, from every reachable bucket |
| BucketRuns.SustainedRate | src/ratelimit/limiter.rs:61-114 | for every run and calls i <= j where j is an admission: deductions from i to j, times a minute, are below (capacity + 1) minutes plus elapsed time times capacity; unless readings are whole milliseconds or the capacity divides 60000, the elapsed time counts one millisecond more |
| BucketRuns.SlackFreeExactly | src/ratelimit/limiter.rs:63-65 | the rate holds without the extra millisecond for all nanosecond readings if and only if the capacity divides 60000 |
| BucketTiming.RetryExact | src/ratelimit/limiter.rs:61-98 | after a refusal, the exact condition on the elapsed time under which the next check is admitted |
| BucketTiming.WaitIs | src/ratelimit/limiter.rs:90-96 | the advertised wait times the capacity is 60 times the deficit; it is 60 seconds without a capacity |
| BucketTiming.RetryAfterSuffices | src/ratelimit/limiter.rs:90-96 | a retry after the advertised delay in whole milliseconds is admitted |
| BucketTiming.DelayIsWait | src/ratelimit/limiter.rs:90-96 | the delay in nanoseconds is the least whole number that is at least the advertised wait |
| BucketTiming.RetryDelayExactly | src/ratelimit/limiter.rs:63-96 | waiting the advertised delay to the nanosecond is enough for every refused bucket if and only if the whole milliseconds of that delay earn the deficit |
| BucketTiming.WholeDelaySuffices | src/ratelimit/limiter.rs:90-96 | it is enough whenever the capacity divides 60000 times the deficit |
| BucketTiming.RetryAfterTruncation | src/ratelimit/limiter.rs:63-65 | a capacity and deficit for which it is not enough |
| BucketTiming.RetryAfterTight | src/ratelimit/limiter.rs:90-96 | no admission comes more than one token's refill time early (plus one millisecond unless readings are whole milliseconds or the capacity divides 60000) |
| BucketTiming.OversizeNeverAdmitted | src/ratelimit/limiter.rs:67-78 | a check for more than the capacity is refused in every reachable bucket |
| BucketTiming.PollingCost | src/ratelimit/limiter.rs:117-121 | against one direct refill k intervening reads never gain tokens and cost at most k; with readings off whole milliseconds each costs the tokens of one millisecond more |
| BucketTiming.PollsEarn | src/ratelimit/limiter.rs:117-121 | after any run of reads the balance is the capped sum of what each interval between effective reads earns |
| BucketTiming.PollingFreeExactly | src/ratelimit/limiter.rs:117-121 | a run of reads costs nothing if and only if the floored earnings add up to the direct ones or fill the bucket |
| BucketTiming.OnePollFreeExactly | src/ratelimit/limiter.rs:61-71 | one intermediate read costs nothing if and only if it earned nothing, or the two earnings add up, or they fill the bucket |
| BucketTiming.PollingIsFreeExactly | src/ratelimit/limiter.rs:61-71 | reads are free for every bucket and every run if and only if the clock is read in whole milliseconds and the capacity is a multiple of 60000 |
| BucketTiming.RegularPolling | src/ratelimit/limiter.rs:61-71 | k reads at any regular interval earn k floored amounts, where the direct refill earns the linear amount up to one flooring |
| BucketTiming.PollingHalvesRefill | src/ratelimit/limiter.rs:61-71 | read just under every two milliseconds, any capacity from 60000 on earns one floored millisecond a read, for any number of reads |
| BucketTiming.CleanupExact | src/ratelimit/limiter.rs:438-455 | dropping an idle limiter is invisible to the balance if and only if its due refill would have filled it |
| BucketTiming.CleanupTransparent | src/ratelimit/limiter.rs:438-455 | with a debt of at most eight capacities, every later run that begins with a refilling call deducts and leaves the same |
| BucketTiming.RecreatedExactly | src/ratelimit/limiter.rs:187-217 | recreated without a refill at t1 and first refilled at t2, the balance is the kept one if and only if t1 = t2 or the time between earns tokens |
| BucketTiming.CleanupInvisibleExactly | src/ratelimit/limiter.rs:438-455 | and under exactly that condition every later run deducts the same |
| BucketTiming.CleanupForgivesDebt | src/ratelimit/limiter.rs:446-449 | with a debt above nine capacities the recreated limiter admits a whole capacity that the kept one refuses |
| BucketLedger.WindowAccumulates | src/ratelimit/limiter.rs:80-87 | over a run the window stays and adds up, or was reopened more than a minute later and holds what was taken since |
| BucketLedger.WindowLedger | src/ratelimit/limiter.rs:80-113 | in every reachable state the window count is the saturating sum of everything deducted since the window opened |
| BucketLedger.WindowReport | src/ratelimit/limiter.rs:123-134 | at a read the window is at most 60 s old, the report is never below capacity minus the last minute's consumption, and equals it if and only if no deduction of the last minute precedes the last reopening (and the consumption fits 64 bits) |
| BucketLedger.WindowForgets | src/ratelimit/limiter.rs:129-132 | for any capacity and amounts, a deduction two seconds old can be missing from the report |
| BucketLedger.OverdraftBound | src/ratelimit/limiter.rs:74-114 | with at most K requests in flight of at most M tokens each the balance is at least -(K - inflight) * (M - 1) and at most the capacity |
| BucketLedger.OverdraftReached | src/ratelimit/limiter.rs:100-105 | the bound -K * (M - 1) is reached for every K and M |
| BucketLedger.TwoPhaseLedger | src/ratelimit/limiter.rs:100-105 | in every legal history of the two-phase protocol on one bucket, deductions are max(1, usage) per settled admission plus one per other admission (RouterLedger.ActsLegal shows that requests follow the protocol) |
| BucketLedger.ActsAreCalls | src/ratelimit/limiter.rs:74-134 | every history of the protocol is a run of bucket calls, with the same bucket and deductions |
| BucketLedger.MachineRefillExactly | src/ratelimit/limiter.rs:61-71 | for capacities and instants below 2^63 the refill in u64, u128 and i64 with every cast wrapped is the exact one if and only if balance plus earned tokens fit an i64, or the cast earnings happen to fill the bucket |
| BucketLedger.FullMinute | src/ratelimit/limiter.rs:65-67 | a full bucket survives a minute's refill without wrapping if and only if its capacity is below 2^62 |
| BucketLedger.MachineDeductExactly | src/ratelimit/limiter.rs:79-105 | a deduction of any u64 amount is exact if and only if the result is at least -2^63 |
| BucketLedger.MachineAdmitsExactly | src/ratelimit/limiter.rs:77-78 | the admission test on the cast amount is right if and only if the amount is below 2^63 or the balance below its negative cast |
| BucketLedger.MachineReportExactly | src/ratelimit/limiter.rs:133 | the reported balance with its casts is capacity minus count if and only if the count is below 2^63 |
| BucketLedger.MachineDeficitExactly | src/ratelimit/limiter.rs:90 | the deficit of a refused check is exact if and only if it is below 2^63 |
| BucketLedger.ProtocolNeverOverflows | src/ratelimit/limiter.rs:61-105 | under the protocol no refill, deduction or deficit overflows as long as capacity plus earned tokens, and the worst debt plus the next amount, fit an i64 |
| BucketLedger.MachineFollowsProtocol | src/ratelimit/limiter.rs:46-134 | along every legal history of the protocol the bucket of the wrapped arithmetic is the exact one, if the worst debt, and the capacity plus the refill of the whole uptime, fit an i64 |
| RateLimiterStore.Store.GetOrCreate | src/ratelimit/limiter.rs:187-192 | the stored limiter of the key, or a full new one that is stored |
| RateLimiterStore.Store.Check | src/ratelimit/limiter.rs:195-238 | verdict, limit and delay of the RPM-then-TPM check, and the whole new store; an RPM refusal charges no TPM |
| RateLimiterStore.CheckVerdict | src/ratelimit/limiter.rs:195-238 | a check that counts tokens is allowed if and only if it deducted them all, one that counts none if and only if its request rate does not refuse it; a refused one deducts nothing; limit and delay are those of whoever refused |
| RateLimiterStore.DelayAdmits | src/ratelimit/limiter.rs:219-227 | after the delay of a TPM refusal, in whole milliseconds, the same check is allowed |
| RateLimiterStore.StoreSane | src/ratelimit/limiter.rs:187-249 | every bucket the store can hold meets the condition of that result |
| RateLimiterStore.Store.ConsumeTpm | src/ratelimit/limiter.rs:242-249 | a post-fact deduction on one key; nothing happens without a limit or an amount |
| RateLimiterStore.Store.GetTpmState | src/ratelimit/limiter.rs:255-262 | limit and window report; reading is not use |
| RateLimiterStore.Store.Cleanup | src/ratelimit/limiter.rs:446-449 | keeps exactly the limiters used less than 600 whole seconds ago |
| RateLimiterStore.CleanupKeeps | src/ratelimit/limiter.rs:446-449 | a limiter is kept, unchanged, if and only if its last use is less than 600 whole seconds ago |
| RateLimiterStore.UseIsStamped | src/ratelimit/limiter.rs:163-248 | a check that meets the limiter and a consumption stamp it, a read does not, and no call touches another key |
| RateLimiterStore.CleanupThenCheck | src/ratelimit/limiter.rs:438-455 | after a cleanup the next check on a dropped key that owed at most eight capacities answers the same; if it refills it leaves the same balance, if not it recreates a full bucket |
| RateLimiterStore.CleanupThenRead | src/ratelimit/limiter.rs:255-262 | a read of the statistics after a cleanup recreates a full bucket, where the kept one keeps its balance |
| RateLimiterStore.KeyRunsAlone | src/ratelimit/limiter.rs:187-262 | however calls on different keys interleave, each key's bucket is what its own calls make of a full bucket |
| RetryLoop.RoundGood | src/proxy/handler.rs:327-776 | if the names agree, a round keeps the visits distinct and unbanned, keeps the tried set equal to the visited names, and strictly shrinks the endpoints left |
| RetryLoop.RetryLoopCorrect | src/proxy/handler.rs:321-778 | if the names agree, the loop ends within as many rounds as there are unbanned endpoints, visits no banned name and none twice, and gives up only when the name of every endpoint was banned or visited |
| RetryLoop.ExitExplained | src/proxy/handler.rs:521-776 | in any world, all contacts but a final one failed retryably, and the exit reports the last event: its status, its limit, or its error |
| RetryLoop.RefusedExactly | src/proxy/handler.rs:331-379 | a round refuses its endpoint if and only if a limiter the endpoint has refuses it; otherwise it reserves a token if there is a token budget, and contacts it |
| RetryLoop.FailureExactly | src/fail2ban/breaker.rs:66-74 | a status is a failure if and only if it lies in a configured range or equals a configured code |
| RetryLoop.ContactEnds | src/proxy/handler.rs:411-420 | a contact ends the loop with its answer if and only if the status is below 400, retry is off or no pattern matches; a transport error if and only if the request streams or retry is off |
| RetryLoop.NextIsNearest | src/proxy/handler.rs:759-761 | the next endpoint is the one nearest to the counter's slot that is neither banned nor tried |
| RetryLoop.VerdictsRespected | src/proxy/handler.rs:327-379 | along every loop each contacted endpoint was allowed in its round by each limiter it has and got that round's outcome, and each skipped one was refused by one of its limiters |
| RetryLoop.EndlessRetry | src/proxy/handler.rs:759-761 | if the names of one endpoint differ the loop can contact that endpoint in every round, for any number of rounds |
| RetryLoop.AlwaysSafeExactly | src/proxy/handler.rs:321-778 | no request ever visits a banned name or a name twice if and only if both name every endpoint alike |
| RetryLoop.SafeExactlyForShortKeys | src/proxy/handler.rs:935-940 | with the two masks of the code that is the case exactly when all API keys have at most six bytes |
| RetryLoop.DistinctVisits | src/proxy/handler.rs:321-778 | if the names agree and differ, a loop that gives up has itself visited every unbanned endpoint |
| RetryLoop.OneLeftOut | src/proxy/handler.rs:717 | if two endpoints share a name, a loop can give up after one of them without trying the other |
| RetryLoop.AlwaysExhaustiveExactly | src/proxy/handler.rs:759-776 | where the names agree, giving up always means that every unbanned endpoint was visited if and only if no two endpoints share a name |
| RetryLoop.SafeAndExhaustiveExactly | src/router/balancer.rs:171-176 | with the two masks of the code requests are always safe and exhaustive exactly when all keys have at most six bytes and all URLs differ |
| Endpoints.NamesAgreeExactly | src/router/balancer.rs:171-176 | the two names of an endpoint agree exactly for keys of at most six bytes |
| Endpoints.SameMask | src/proxy/handler.rs:935-940 | two keys mask alike if and only if both are short, or both long with equal ends |
| Endpoints.MaskHides | src/router/balancer.rs:171-176 | a mask is three stars for a short key and otherwise its ends around three dots |
| ProxyHandler.RunRound | src/proxy/handler.rs:327-776 | the body of the loop does what one specified round does |
| ProxyHandler.RunRetryLoop | src/proxy/handler.rs:321-778 | whenever the loop ends, under whatever names, its exit and variables are those of the specified rounds |
| ProxyHandler.CheckAllRateLimits | src/proxy/handler.rs:1581-1627 | admits exactly when team and token both admit; a team token reserved before the token limit refuses stays taken |
| RequestCharges.StreamSettlement | src/proxy/handler.rs:478-491 | the deductions of the streaming task are the settlement of the request whose response reported prompt plus completion tokens, saturating at 64 bits |
| RequestCharges.AdmissionExactly | src/proxy/handler.rs:1581-1627 | admission takes one token of the team if its limiters allow it and one of the token if both do, and nothing else |
| RequestCharges.TeamCharge | src/proxy/handler.rs:424-646 | a request costs its team the usage of its answer if that is above one and, for a stream, the status a success, else the reserved token |
| RequestCharges.ReservationsAre | src/proxy/handler.rs:354-360 | the reservations at a name are the log's reservations of endpoints with that name |
| RequestCharges.LoopTally | src/proxy/handler.rs:331-379 | the loop charges each endpoint budget one token per reservation there and no other budget |
| RequestCharges.SafeReserves | src/proxy/handler.rs:331-379 | a loop that visits no name twice reserves at most once at each, and only where it visited |
| RequestCharges.AnsweredWasReserved | src/proxy/handler.rs:354-360 | an endpoint with a token budget had a token reserved before it could answer |
| RequestCharges.RequestLedger | src/proxy/handler.rs:312-646 | whatever the names, an admitted request whose loop ended charges team and token budget once, max(1, usage) if settled and one token if not, and each endpoint budget one token per reservation plus the rest of the usage where it answered |
| RequestCharges.AgreedLedger | src/proxy/handler.rs:312-646 | if the names agree, each endpoint budget too is charged max(1, usage), one token, or nothing |
| RouterLedger.PrefixLedger | src/proxy/handler.rs:312-646 | at every point of its life a request has charged each budget max(1, usage) if it settled there plus one per other admission, and settles at most once and only where admitted |
| RouterLedger.InterleavedLedger | src/proxy/handler.rs:312-646 | for every interleaving of requests, each having made any first part of its takes, the tokens charged to a budget are max(1, usage) per settled admission plus one per other admission |
| RouterLedger.KeyDeducts | src/ratelimit/limiter.rs:195-249 | the run of a key's own calls deducts exactly what the admitted checks and consumptions on that key amount to |
| RouterLedger.SharedKeyExactly | src/proxy/handler.rs:480-488 | two budgets share a key if and only if they are one, or a token spells the prefixed key of a team or an endpoint |
| RouterLedger.BucketOfRouter | src/ratelimit/limiter.rs:195-249 | if the store calls make the takes of the requests, the lifetime deductions of a budget's bucket are max(1, usage) per settled admission plus one per other admission |
| RouterLedger.ActsLegal | src/proxy/handler.rs:478-491 | the store calls that make the requests' takes follow the two-phase protocol, with as many requests in flight as admissions are open |
| RouterLedger.OverdraftOfRouter | src/ratelimit/limiter.rs:100-105 | with at most K admissions to a budget unsettled at any time and at most M tokens per response, its bucket stays between -K * (M - 1) and the limit |
| ProxyHandler.TakeSnapshot | src/proxy/handler.rs:224-234 | the ban snapshot holds exactly the handler's names of the banned endpoints |
| ProxyHandler.AllBannedExactly | src/proxy/handler.rs:236-239 | the snapshot is as large as the model exactly when every endpoint is banned and no two share a name |
| ProxyHandler.InitialNotBanned | src/proxy/handler.rs:255-293 | the first endpoint, sticky or selected, exists, and is not banned if the names agree |
| ProxyHandler.InitialExactly | src/proxy/handler.rs:255-293 | a sticky endpoint that exists and is not banned is kept; otherwise the nearest to the counter's slot that is not banned, none if and only if all are |
| ProxyHandler.AgreedLoopEnds | src/proxy/handler.rs:224-321 | if the names agree, a request that reaches its retry loop gets out of it |
| ProxyHandler.ServeRequest | src/proxy/handler.rs:224-319 | which of the four answers a request gets, and all token charges it makes, whenever its loop ends if it is reached |
| Balancer.RoundRobinCounters.Next | src/router/balancer.rs:33-36 | the slot of this call, and the wrapping increment of this model's counter only |
| Balancer.ScanRing | src/router/balancer.rs:84-105 | one pass over the ring selects the first eligible endpoint from the start slot |
| Balancer.ScanFinds | src/router/balancer.rs:84-103 | the selected slot is the eligible one at the least cyclic distance |
| Balancer.PickFailsExactly | src/router/balancer.rs:84-105 | nothing is selected if and only if nothing is eligible, and only eligible endpoints are |
| Balancer.PickNearest | src/router/balancer.rs:82-105 | the selection is the nearest endpoint in ring order whose name is neither banned nor tried, none if and only if there is none |
| Balancer.ShareUnderSkipping | src/router/balancer.rs:82-105 | over any full cycle of counter values an eligible endpoint is chosen once plus once for each ineligible one just before it |
| Balancer.ShareOfCalls | src/router/balancer.rs:82-105 | the same of consecutive calls of select_available while the counter does not wrap |
| Balancer.ModelRouter.SelectAvailable | src/router/balancer.rs:67-106 | selection and counter change for known models; unknown or empty models select nothing and leave the counter |
| Balancer.ModelRouter.SelectEndpoint | src/router/balancer.rs:55-64 | the "weighted" selection is the counter's slot |
| Balancer.AllOpenPick | src/router/balancer.rs:82-125 | with all endpoints eligible select_available selects what select_endpoint does, the counter's slot |
| Balancer.WeightsIgnoredExactly | src/router/balancer.rs:82-125 | with all endpoints eligible, round-robin traffic is proportional to the effective weights if and only if these are all equal |
| Balancer.PickWeightedWithOffset | src/router/balancer.rs:128-154 | selects the endpoint whose stretch holds the offset; the fallback after the loop is unreachable |
| Balancer.StretchOf | src/router/balancer.rs:144-151 | an endpoint is selected exactly for the offsets between the weights before it and its own end |
| Balancer.WeightedShare | src/router/balancer.rs:134-154 | any block of total-weight consecutive offsets selects each endpoint exactly its weight times |
| Breaker.MachineMatches | src/fail2ban/breaker.rs:49-132 | consecutive, failed and total counts and the deadline are the history's, and consecutive <= failures <= requests |
| Breaker.FailuresAre | src/fail2ban/breaker.rs:92 | the failure count is the number of failures in the history |
| Breaker.RequestsAre | src/fail2ban/breaker.rs:79-91 | the request count is the number of failures and successes |
| Breaker.TrailingAre | src/fail2ban/breaker.rs:57-95 | the trailing failures are those since the last success, reset, or query that saw a ban run out |
| Breaker.TriggersInNumbers | src/fail2ban/breaker.rs:97-111 | a failure bans if and only if it completes a streak of the maximum, or is at least the tenth request and lifts the failure share above the threshold |
| Breaker.BanMatchesHistory | src/fail2ban/breaker.rs:49-125 | banned at an instant if and only if some triggering failure is younger than the ban duration and no reset followed it |
| Breaker.QueryForgives | src/fail2ban/breaker.rs:57-59 | after a query that saw a ban expire the next failure counts as the first; without it, on top of all earlier ones |
| Breaker.CodeMatches | src/fail2ban/breaker.rs:93 | the stored code is that of the last failure |
| Breaker.BanHasTrigger | src/fail2ban/breaker.rs:97-121 | every ban is that of a last trigger that no reset followed |
| Breaker.ReasonIsTrigger | src/fail2ban/breaker.rs:146-161 | while the last trigger's ban runs and no success or reset followed it, no failure followed and the reported code is the trigger's |
| Breaker.RelabelledBans | src/fail2ban/breaker.rs:89-125 | which failures trigger does not depend on their codes |
| Breaker.ReasonExactly | src/fail2ban/breaker.rs:155-160 | the reported code is that of a failure, whatever the codes, if and only if no failure followed it |
| Breaker.ReasonMisleads | src/fail2ban/breaker.rs:155-160 | a banned endpoint whose reported code is that of a failure that banned nothing |
| Breaker.FailureTriggers | src/fail2ban/breaker.rs:95-124 | a failure bans exactly when trailing failures reach the limit or the lifetime error rate over at least ten requests exceeds the threshold |
| Breaker.Fail2ban.IsBanned | src/fail2ban/breaker.rs:49-63 | answers the history predicate, and records the query in the endpoint's history only |
| Breaker.Fail2ban.RecordSuccess | src/fail2ban/breaker.rs:77-81 | appends a success to this endpoint's history and changes no other |
| Breaker.Fail2ban.RecordFailureWithCode | src/fail2ban/breaker.rs:89-125 | appends a failure and answers whether the history says it triggers a ban |
| Breaker.Fail2ban.Reset | src/fail2ban/breaker.rs:127-132 | appends a reset if the endpoint is known |
| Breaker.Fail2ban.BannedCount | src/fail2ban/breaker.rs:135-143 | the number of endpoints whose history says banned at this instant |
| Breaker.Fail2ban.BanReason | src/fail2ban/breaker.rs:146-161 | present exactly when banned, and names the last failure's code |
| SharedLimiter.InvAlways | src/sync/redis_sync.rs:91-122 | in every reachable state verdicts are numbered within their counter lifetime, lifetimes are at least a window apart, and an EXPIRE is outstanding only while there is no deadline, and then at most one |
| SharedLimiter.DuringAre | src/sync/redis_sync.rs:102-115 | the checks counted in an interval are the allowed verdicts of 60000 milliseconds |
| SharedLimiter.IncrsAre | src/sync/redis_sync.rs:104 | the INCRs of a lifetime are its verdicts |
| SharedLimiter.AllowedAre | src/sync/redis_sync.rs:115 | the allowed checks of a lifetime are its allowed verdicts |
| SharedLimiter.LifetimeQuota | src/sync/redis_sync.rs:104-115 | in every run each lifetime of the counter allows exactly min(limit, number of INCRs) checks |
| SharedLimiter.AnyMinute | src/sync/redis_sync.rs:101-122 | no interval of 60 s holds more than 2 * limit - 1 allowed checks, however late each EXPIRE |
| SharedLimiter.EdgeBurst | src/sync/redis_sync.rs:102-115 | for every limit a state that reaches that bound is reachable |
| SharedLimiter.UsedUpExactly | src/sync/redis_sync.rs:104-115 | after a counter is used up, a later check is allowed if and only if the counter was removed before it and fewer than limit checks ran since, whatever EXPIREs arrive |
| SharedLimiter.RecoversExactly | src/sync/redis_sync.rs:111-113 | a used-up counter without a deadline can allow a check again if and only if some call still owes its EXPIRE |
| SharedLimiter.LostExpireLocksOut | src/sync/redis_sync.rs:111-113 | without an EXPIRE it refuses every later check |
| SharedLimiter.LockOutReachable | src/sync/redis_sync.rs:111-113 | for every limit a used-up counter that can never allow a check again is reachable |
| Aggregation.GroupAtBoundary | src/stats/pg.rs:315-342 | cutting a range at an hour boundary cuts no group in two |
| Aggregation.RunExact | src/stats/pg.rs:286-416 | a run, committed or not, keeps the tables equal to the group-by up to the cursor and never moves the cursor back |
| Aggregation.ExactlyOnce | src/stats/pg.rs:284-416 | after any interleaving of inserts, committed, crashed and aborted runs both hourly tables equal the one-shot group-by of the rows in [initial cursor, cursor) that were visible in time, distinct tokens included |
| Aggregation.RowAdds | src/stats/pg.rs:330-378 | a counted row adds one request, its tokens and its cost to the entry of its hour and token and to that of its hour and team, there one active token exactly if its token is new, and changes no other entry |
| Aggregation.RequestIsCounted | src/stats/pg.rs:286-416 | recording one more request before a clean committed run adds exactly that to both tables |
| Aggregation.RunFails | src/stats/pg.rs:321-416 | a run that crashes, clashes or comes before the next full hour changes nothing |
| Aggregation.UpsertsAdd | src/stats/pg.rs:343-385 | on conflict the upserts add field by field |
| Aggregation.NeverConflicts | src/stats/pg.rs:343-347 | the conflict branches never fire: each hour is written by one committed run |
| Aggregation.CursorNeverBack | src/stats/pg.rs:404-408 | the cursor never goes back over any history |
| Aggregation.CountsAllExactly | src/stats/pg.rs:339-378 | each hourly table counts every row up to the cursor if and only if no such row became visible after the cursor had passed it |
| Aggregation.ClashStopsAggregation | src/stats/pg.rs:342-343 | once one token has two teams within an unprocessed hour no later run ever passes that hour |
| Aggregation.PassesExactly | src/stats/pg.rs:286-416 | along any history the cursor passes an instant if and only if some committed run reaches it whose rows hold no token with two teams in an hour |
| Aggregation.CanPassExactly | src/stats/pg.rs:342-343 | some history takes the cursor past the end of an hour if and only if no token has two teams within an hour among the visible unprocessed rows up to there |
| Aggregation.ClashMeans | src/stats/pg.rs:342-343 | a run fails if and only if rows of one hour and token in its range name two teams |
| Aggregation.HashlessRequestsClash | src/stats/pg.rs:165 | two requests without a token hash, of two teams in one hour, bar the cursor from the end of that hour for good |
| Aggregation.StatsWriter.RecordRequest | src/stats/pg.rs:148-186 | appends one row with its approximate cost and touches nothing else |
| Aggregation.CostIs | src/stats/pg.rs:167-168 | a million tokens of a kind cost its price |
| Aggregation.StatsWriter.RunAggregation | src/stats/pg.rs:286-416 | the object's run is the specified one: all of it or nothing |
| SseUsage.FindDoubleNewline | src/proxy/handler.rs:943-950 | the position found is the first LF LF, none if there is none |
| SseUsage.FirstBreakSound | src/proxy/handler.rs:943-950 | the first break is a break, no earlier position is, and none means no position is |
| SseUsage.SplitUnique | src/proxy/handler.rs:450-454 | the split of an input is the one and only way to write it as framed events and a remainder without LF LF |
| SseUsage.FramingRoundTrip | src/proxy/handler.rs:942-950 | a list of events survives framing if and only if no event holds LF LF or ends in LF |
| SseUsage.SplitAppend | src/proxy/handler.rs:449-454 | splitting a buffer and then the leftover with more bytes is splitting all at once |
| SseUsage.FoldLines | src/proxy/handler.rs:457-470 | the last-seen fold over the lines of an event gives the last count reported |
| SseUsage.ReportsInOrder | src/proxy/handler.rs:451-470 | events report one after the other |
| SseUsage.OneEventReports | src/proxy/handler.rs:457-470 | an event has one report per line, in line order |
| SseUsage.ReportExactly | src/proxy/handler.rs:458-459 | only what follows "data: " at the start of a line is decoded |
| SseUsage.LastPromptIs | src/proxy/handler.rs:461-463 | the last reported prompt count stands |
| SseUsage.LastCompletionIs | src/proxy/handler.rs:464-466 | the last reported completion count stands |
| SseUsage.NeverReported | src/proxy/handler.rs:443-444 | a count that is never reported is zero |
| SseUsage.LinesRoundTrip | src/proxy/handler.rs:457 | reading lines inverts writing them with LF or CR LF, and an unfinished last line counts unless it is empty |
| SseUsage.Drain | src/proxy/handler.rs:451-471 | the drain loop consumes exactly the complete events and leaves the remainder |
| SseUsage.StreamTask | src/proxy/handler.rs:442-492 | for every chunking, leftover, usage and settlements are functions of the concatenated bytes, and chunks are forwarded unchanged |
| SseUsage.SettlementsExactly | src/proxy/handler.rs:478-491 | a stream of at most one token costs nothing more; any other costs prompt plus completion tokens, saturating, less one, once for each limit above zero, in the order team, token, endpoint |
| SseUsage.PayloadInOrder | src/proxy/handler.rs:448-451 | the bytes of a stream are those of its chunks in order |
| SseUsage.FreeExactly | src/proxy/handler.rs:451-479 | a stream is free whatever usage it reports if and only if no line of a complete event starts with "data: " |
| SseUsage.CrLfStreamIsFree | src/proxy/handler.rs:943-950 | a stream with CR LF line ends has no complete event and is free |
| SseUsage.UnterminatedEventIgnored | src/proxy/handler.rs:448-479 | with or without a last event that lacks its blank line the charge is the same |
| Template.ReadReference | src/config/loader.rs:39-53 | the inner loop reads exactly the reference the scanner function reads |
| Template.ExpandEnvVars | src/config/loader.rs:28-79 | the scanner loop computes the scanner function, errors included |
| Template.RoundTrip | src/config/loader.rs:26-79 | for every well-formed template and environment, expanding its printed form is evaluating it with empty defaults read as none; substituted text is not expanded again |
| Template.RoundTripExactly | src/config/loader.rs:26-79 | expanding the printed form is evaluating the template as written if and only if empty defaults do not change the first missing variable |
| Template.SetVariableWins | src/config/loader.rs:60-61 | a reference to a set variable gives its value whatever the default, between any text before it and whatever follows |
| Template.DefaultIsStripped | src/config/loader.rs:62-64 | an unset variable gives its default without the white space at its ends |
| Template.NameIsStripped | src/config/loader.rs:55-71 | a name counts without the white space at its ends; a blank one is an error, and an unset one names itself in the error |
| Template.SpaceCodes | src/config/loader.rs:55-64 | white space is that of str::trim, by code point |
| Template.StrippedUnique | src/config/loader.rs:55-64 | there is one way to strip a text |
| Template.FailsExactlyWhenUnset | src/config/loader.rs:60-71 | expansion fails if and only if some variable without default, or with an empty one, is unset |
| Template.EmptyDefaultExactly | src/config/loader.rs:36-49 | for any name and default, a reference is expanded as written if and only if its default is not empty or its variable is set |
| Template.UnclosedReference | src/config/loader.rs:39-53 | any reference that is never closed, with or without a default, expands as if it were closed at the end |

## Left out

- RateLimiterStore.Store: limiter pairs are values in a map, so a request that holds a clone of a pair across a cleanup (and keeps charging the dropped one) is not captured; every store call is one atomic step.
- RateLimiterStore.Store.Check: the verdict and delay of the governor library's RPM limiter are arguments, since that library is not part of this model.
- RateLimiterStore.Store.Cleanup: the wall clock that stamps use and the monotonic clock of the buckets are one clock; jumps of the wall clock are not captured. A new bucket's creation instant is the instant of the call that creates it.
- RateLimiterStore.KeyRunsAlone: the limit of a key stays the same; a config reload that changes it is not modelled.
- TokenBucket.TpmLimiter.CheckN: the delay is a real number, so the rounding of 64-bit floating point is not captured.
- TokenBucket.TpmLimiter.WindowRemaining: computes in unbounded integers, like the other methods of the bucket; where the casts of the machine agree with that is stated by the Machine lemmas of BucketLedger.
- Breaker.Fail2ban: counters are unbounded and the error rate is an exact quotient; each call is one atomic step, although the source updates several atomics one after the other.
- Breaker.Fail2ban.constructor: the parsing of status patterns is left out; patterns are given as ranges and exact codes.
- SharedLimiter.AnyMinute: verdicts allowed without counting (no connection, limit zero, a Redis error) and eviction of keys are left out; INCR and EXPIRE are atomic.
- Aggregation.StatsWriter.RunAggregation: transactions are all-or-nothing and one aggregator runs at a time; a failing read of the cursor or of the connection is an aborted run. Both statements see one state of the requests table; under the default isolation each has its own snapshot, so a late row that appears between them is counted by team and not by token.
- Aggregation.ExactlyOnce: costs are reals, so the rounding of sums of 64-bit floating point is not captured; timestamps are UTC.
- SseUsage.StreamTask: JSON decoding and lossy UTF-8 decoding of a line are one parameter; a client that stops reading is not modelled, since the source ignores it as well.
- RouterLedger.BucketOfRouter: stated for configurations that stay fixed, without cleanup between the calls, and for a budget whose key no other budget of the history shares; where keys are shared (RouterLedger.SharedKeyExactly) a bucket gets the sum of both.
- RouterLedger.OverdraftOfRouter: an admission that is never settled, because its request failed or reported no usage, counts as open for ever.
- ProxyHandler.ServeRequest: what the request does to the breaker, the sticky store, the statistics and the metrics is left out; the ban answers of breaker and Redis are one parameter per endpoint. A request whose retry loop does not end has no answer to state.
- Balancer.WeightsIgnoredExactly: stated while the shared counter does not wrap at 2^64, where a cycle can be cut short.
- RetryLoop.RetryLoopCorrect: the exit for a streaming request whose body is not JSON is left out; usage of a response is part of the upstream's answer.
- Endpoints.NamesAgreeExactly: a character stands for a byte; slicing a key inside a multi-byte character, which panics in the source, is not modelled.
- Template.ExpandEnvVars: an environment variable that is not valid Unicode counts as unset, as in the source, and is simply absent from the environment here.
- proxy_generic, Anthropic translation, response normalization, URL and multipart handling: shallow edits without state.
- Model aliases, token and team inheritance, the time-to-live of sticky sessions, health probes, cleanup of old statistics, dashboards, Kubernetes and Docker files: easy lookups, presentation or I/O.
