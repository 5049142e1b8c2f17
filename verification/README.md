# Traffic control of the API gateway

A Dafny model of the part of the gateway that decides where each request goes, and of what that
part leaves behind: the per-instance circuit breaker, the round-robin registry over stateful
breakers, the load-balanced proxy handler that closes the loop between them, the fixed-window rate
limiter, the ring buffer of recent requests, and the parsing of instance lists.

`dafny verify dfyconfig.toml` checks the whole project.

## How it is built

- `CircuitBreaker.dfy`: the breaker as a class updated in place, each locked method tied to a
  function of its fields. `BreakerRuns.dfy` proves what holds over any sequence of locked calls
  (stale completions included), `Introspection.dfy` when a look at a breaker is harmless.
- `Registry.dfy`: instances and the registry as classes; `Next` loops over the mutating `Allow` and
  is proved against `NextPick`. `Rotation.dfy` proves when a scan over the wrapping `uint64` cursor
  is complete, and how often the cursor points at whom. `HealthCheck.dfy` is one round of the health checker.
- `Gateway.dfy`: the whole as a concurrent system. A handler's scan holds the registry's lock but
  not the instances', so it is split into one action per lock taken on an instance, and health
  flips, completions of other requests, panics, dashboard looks and the clock may come in between.
  An action that is not enabled does nothing, so a theorem about every sequence of actions is a
  theorem about every run. `GatewaySafety.dfy` proves the invariant; `ProbeSlot.dfy`,
  `BoundedBypass.dfy`, `Fairness.dfy`, `Refusals.dfy` and `Dashboard.dfy` prove the main results about
  runs.
- `Proxy.dfy`: the handler as methods over the real registry and breaker objects. `Answers.dfy`: what
  runs of answers, by their status, do to a breaker and to the counters.
- `RateLimit.dfy`: store, script, limiter and middleware; `RateLimitBounds.dfy`: their runs.
- `Telemetry.dfy`, `Config.dfy`: ring buffer and list parser. `Arithmetic.dfy`: division facts.
  `Sequences.dfy`: histories, and histories with something inserted. `Wrappers.dfy`: optional values.

## Where the code and its comments part

- `internal/router/router.go:66-68` says that the introspection endpoints do not alter gateway
  behaviour. `State()` moves a breaker from OPEN to HALF-OPEN, and a completion that arrives in
  OPEN is ignored while one that arrives in HALF-OPEN is not. Looks added to a run, which has looks
  of its own after each record, are harmless exactly if no completion is recorded on a breaker that
  is OPEN with its timeout elapsed: `PollsAreInvisibleIff` for one breaker, `UnseenIff` for the
  gateway. `TwoInFlightAreSeen` is a run of two requests that meets the opposite,
  `WatchingIsHarmless` gives a condition on traffic that excludes it.
- `internal/circuitbreaker/circuitbreaker.go:111-114` says that other requests are rejected until
  the probe completes. A request admitted while CLOSED may complete in HALF-OPEN and end the episode
  over the head of its probe. The statement holds of a probe exactly if nothing else is outstanding
  when it is admitted (`OthersAreRefusedIff`); an outstanding probe is without its slot exactly if
  another request was recorded while it held it (`SlotlessIff`); and `TwoProbesAtOnce` is a run from
  the start to two outstanding probes. What does hold always is one admission per half-open episode
  and one per recovery timeout (`ProbesAreApart`).
- A taken probe slot can be lost only by a handler that unwinds (the reverse proxy panics to abort a
  response, and the engine's recovery handler swallows it). Until then outstanding requests may still
  free it with their records; once nothing else is outstanding the instance never serves again
  (`CanServeAgainIff`), and such a state is reached (`WedgedIsReached`). The early return for an
  address that does not parse loses no slot: such an instance records nothing, so its breaker stays
  CLOSED for ever, and keeps drawing traffic (`SlotIsLostIff`, `UnparseableNeverTrips`).
- `internal/registry/registry.go:103-104` says that `Next` returns nil if no instance is currently
  available. A scan holds the registry's lock only, so what it finds of one instance may be over when
  it comes to the next: `TurnedAwayBetweenTwo` is a run in which somebody is available all the time and
  a call is turned away. While one and the same instance stays up, no call is, under any interleaving
  (`NobodyIsTurnedAway`), except in the one lap in which the cursor wraps around 2^64, unless the number
  of instances divides 2^64; that is the exact condition for a call (`CallsAreHonestIff`), and for a scan
  that nothing interrupts it is also the exact condition for nil to mean nobody (`NilIsHonestIff`).
- A window of the rate limiter lives through the whole millisecond at which it is due. What an
  interval of any length may see at most is known exactly (`SlidingBound`, `SlidingBoundIsTight`); for
  one window length it is 2 * limit - 1 (`OneWindowLength`), not the limit.

## Model

| member | source | states |
|---|---|---|
| CircuitBreaker.Normalize | internal/circuitbreaker/circuitbreaker.go:66-74 | a usable threshold or timeout is kept; a threshold below 1 becomes 1, a timeout of 0 or less becomes 30 seconds, each without regard to the other |
| CircuitBreaker.RefusalChangesNothing | internal/circuitbreaker/circuitbreaker.go:101-133 | a refusing `Allow` leaves every field as it was; an admission outside CLOSED ends in HALF-OPEN with the slot taken, so the next one is refused |
| CircuitBreaker.Breaker.constructor | internal/circuitbreaker/circuitbreaker.go:66-74 | a new breaker is CLOSED, with corrected options |
| CircuitBreaker.Breaker.MaybeTransitionToHalfOpen | internal/circuitbreaker/circuitbreaker.go:103-109 | exactly the OPEN breakers whose timeout has elapsed become HALF-OPEN with a free slot |
| CircuitBreaker.Breaker.CurrentState | internal/circuitbreaker/circuitbreaker.go:94-99 | answers the state after resolving an elapsed timeout, which it carries out |
| CircuitBreaker.Breaker.Allow | internal/circuitbreaker/circuitbreaker.go:115-133 | who is admitted and what the breaker becomes; a refusal changes nothing; the invariant is kept |
| CircuitBreaker.Breaker.RecordSuccess | internal/circuitbreaker/circuitbreaker.go:138-151 | effect of a success in each state; the invariant is kept |
| CircuitBreaker.Breaker.RecordFailure | internal/circuitbreaker/circuitbreaker.go:157-179 | effect of a failure in each state; the invariant is kept |
| BreakerRuns.StreakGovernsState | internal/circuitbreaker/circuitbreaker.go:53-62 | in every reachable state the count is the number of failures recorded while not OPEN since the last success so recorded, the breaker is CLOSED iff that is below the threshold, and a taken slot means HALF-OPEN |
| BreakerRuns.StampsAreHonest | internal/circuitbreaker/circuitbreaker.go:84-89 | `lastStateChange` is the time of the latest transition, and so is `openedAt` while OPEN |
| BreakerRuns.FailureLedger | internal/circuitbreaker/circuitbreaker.go:157-179 | every failure counted while not OPEN is behind a trip, behind a re-open, forgiven by a success, or in the current streak |
| BreakerRuns.TripCost | internal/circuitbreaker/circuitbreaker.go:157-179 | over any run, trips times the threshold plus re-opens is at most the failures recorded |
| BreakerRuns.ProbesAreApart | internal/circuitbreaker/circuitbreaker.go:101-133 | two half-open admissions are in different episodes and at least the recovery timeout apart, stale records notwithstanding |
| BreakerRuns.ProbeRate | internal/circuitbreaker/circuitbreaker.go:101-133 | an interval of length L sees at most floor(L / timeout) + 1 probes, and that many admissions if the breaker is never found CLOSED in it |
| Introspection.PollsAreInvisibleIff | internal/circuitbreaker/circuitbreaker.go:91-109 | in any run, with looks of its own or without: no insertion of further `State()` calls changes any later answer, at any point of the run, iff no completion is recorded on an OPEN breaker whose timeout has elapsed |
| Introspection.LookBeforeRecord | internal/circuitbreaker/circuitbreaker.go:91-109 | one look just before such a record changes the next answer |
| Introspection.OneAtATimeIsTransparent | internal/router/router.go:66-70 | with at most one request in flight per breaker, looking changes nothing |
| Introspection.TwoInFlightAreSeen | internal/proxy/proxy.go:129-144 | a run of the handler with two requests in flight, each followed by its own look, that tells whether anybody else looked |
| Introspection.OwnLooksCount | internal/proxy/proxy.go:142-144 | a run that looks cannot disturb, though they can once its own are taken away |
| Registry.FirstAvailable | internal/registry/registry.go:116-123 | the least place of the scan whose candidate is available, or the number of instances if none is |
| Registry.NextTouchesOnlyItsPick | internal/registry/registry.go:107-125 | a scan changes no instance but the one returned, nothing if it returns nil, and a slot it hands out is taken for the next caller |
| Registry.Instance.constructor | internal/registry/registry.go:84-88 | an instance starts healthy with a CLOSED breaker of its own |
| Registry.Instance.SetHealthy | internal/registry/registry.go:38-42 | changes the health flag and nothing else |
| Registry.Instance.IsAvailable | internal/registry/registry.go:48-53 | true iff healthy and the breaker allows; an unhealthy instance's breaker is not asked; false changes nothing |
| Registry.Registry.constructor | internal/registry/registry.go:81-91 | one healthy CLOSED instance per address, in order, all distinct |
| Registry.Registry.Examine | internal/registry/registry.go:117-122 | one turn of the scan: the cursor moves by one modulo 2^64, one instance is asked, the others keep their state |
| Registry.Registry.Next | internal/registry/registry.go:107-125 | returns the first available instance in cyclic order from the cursor or nil, moves the cursor by the number of candidates examined, and changes only the instance returned |
| HealthCheck.ProbeOnce | internal/healthcheck/healthcheck.go:47-75 | the flag is set iff a status of 200..299 came back; the breaker is untouched; a change is reported iff there is one |
| Rotation.ScanCompleteIff | internal/registry/registry.go:116-124 | a full scan examines every instance iff the cursor does not wrap during it or the number of instances divides 2^64 |
| Rotation.ScanRepeatsNothing | internal/registry/registry.go:116-124 | and then it examines none of them twice |
| Rotation.NilIsHonestIff | internal/registry/registry.go:116-124 | nil from a scan that nothing interrupts means that no instance was available, for all states of the instances, iff that condition holds |
| Rotation.FrozenCall | internal/registry/registry.go:116-123 | with a standing set of available instances, a call picks the first of them that the cursor points at, wrapping or not, stops just past it, and changes no instance; it finds none only if the cursor wraps on the way to somebody's detriment |
| Rotation.PassesSpread | internal/registry/registry.go:117-118 | from any cursor on, no index is pointed at more often than another by more than one, and one more for each wrap that matters |
| Rotation.NextOnRota | internal/registry/registry.go:116-123 | what it means to go in cyclic order: after one serving index comes the first serving one after it that the cursor points at |
| Gateway.AcquireKeeps | internal/proxy/proxy.go:71-88 | asking an instance, and admitting or answering 502, keeps the instance's invariant |
| Gateway.ActKeeps | internal/proxy/proxy.go:129-144 | so do recording, unwinding, health flips and looks |
| Gateway.ActHandlesAsMany | internal/proxy/proxy.go:129-144 | and none of these loses or invents a request |
| GatewaySafety.Always | internal/proxy/proxy.go:70-145 | the system invariant holds in every state of every run, with every interleaving of scans, completions, panics, health flips, looks and clock ticks |
| ProbeSlot.NoSlotIsLost | internal/proxy/proxy.go:127-140 | if no handler unwinds, a taken slot belongs to an outstanding request admitted in that same half-open episode, so with nothing outstanding no slot is taken |
| ProbeSlot.SlotIsLostIff | internal/proxy/proxy.go:81-127 | an action leaves the slot taken with no outstanding request holding it iff it was so before and is still taken, or the action is the unwinding of the very handler that holds it |
| ProbeSlot.WedgedForever | internal/circuitbreaker/circuitbreaker.go:124-129 | a taken slot with nothing outstanding stays taken, and the instance unserved, whatever happens |
| ProbeSlot.CanServeAgainIff | internal/circuitbreaker/circuitbreaker.go:115-151 | in every reachable state, some continuation lets the breaker admit again iff it is not wedged so; with a lost slot, iff some request is still outstanding |
| ProbeSlot.WedgedIsReached | internal/proxy/proxy.go:127-140 | a run from the start to a lost slot, and on to a wedged instance |
| ProbeSlot.OthersAreRefusedIff | internal/circuitbreaker/circuitbreaker.go:111-114 | in every reachable state, with a request outstanding: in every continuation all others are refused until it completes iff the slot is taken and nothing else is outstanding |
| ProbeSlot.ProbeLosesSlotIff | internal/circuitbreaker/circuitbreaker.go:138-170 | an action takes the slot from an outstanding probe iff it is the record of another request |
| ProbeSlot.SlotlessIff | internal/circuitbreaker/circuitbreaker.go:138-170 | in every reachable state, an outstanding probe is without the slot iff at some point of the run another request was recorded while it held it |
| ProbeSlot.OneProbeUnlessTakenOver | internal/circuitbreaker/circuitbreaker.go:111-114 | an outstanding probe that was never taken over so holds the slot, and any other outstanding probe was taken over |
| ProbeSlot.TakeoverAdmitsSecond | internal/circuitbreaker/circuitbreaker.go:138-170 | whenever another request is recorded while a probe holds the slot, the breaker admits beside the probe: at once after a success, one timeout later after a failure |
| ProbeSlot.TwoProbesAtOnce | internal/circuitbreaker/circuitbreaker.go:111-114 | a run from the start to two outstanding probes of one instance |
| ProbeSlot.ProbeIsAlone | internal/circuitbreaker/circuitbreaker.go:124-129 | if nothing admitted earlier is outstanding at some point of an episode, the probe is the only outstanding request for the rest of it |
| ProbeSlot.TripsArePaidFor | internal/proxy/proxy.go:133-136 | trips times the threshold plus re-opens never exceeds the instance's failure counter |
| ProbeSlot.RecoveringInstanceIsSpared | internal/circuitbreaker/circuitbreaker.go:101-133 | over an interval in which its breaker is never found CLOSED, an instance is sent at most one request per recovery timeout and one more |
| ProbeSlot.UnparseableNeverTrips | internal/proxy/proxy.go:81-88 | an instance whose address does not parse answers every request with 502 and never leaves CLOSED |
| ProbeSlot.CallsAreConserved | internal/proxy/proxy.go:71-144 | calls are rejections, plus the scan in progress, plus what the instances account for as success, failure, refused, unwound or outstanding; and the outcome counters count the records |
| BoundedBypass.UpMeansServed | internal/registry/registry.go:107-125 | while an instance stays healthy and CLOSED, as many completed calls of `Next` as there are instances (one more from the middle of a scan) send it a request, whatever happens to the others; if wrapping in that lap skips somebody, as many as the way to the wrap and one lap, which is less than twice as many |
| BoundedBypass.LoneScanIsNext | internal/registry/registry.go:107-125 | a scan that nothing interrupts picks, changes and advances exactly as one atomic `Next` |
| Fairness.PicksAreTheAccount | internal/proxy/proxy.go:71-90 | the picks of a run, counted, are what the instances' accounts grow by |
| Fairness.OncePerPass | internal/registry/registry.go:107-125 | in any run between calls and in the middle of scans: while an instance stays up it is handed exactly one request each time the cursor passes it, whatever happens to the others |
| Fairness.FairWithinOne | internal/registry/registry.go:107-125 | so of two instances that stay up neither gets ahead by more than one, and one more for each wrap that matters, whatever is recorded, looked at or flipped meanwhile |
| Fairness.CyclicOrder | internal/registry/registry.go:116-123 | while the set of instances that are up stands still, the sequence of picks of a run is that set in cyclic order from the cursor, wrapping or not |
| Fairness.WholeRoundsAreExact | internal/registry/registry.go:107-125 | and k rounds of as many completed calls as there are such instances hand each of them exactly k requests and the others none |
| Fairness.NobodyIsTurnedAway | internal/registry/registry.go:102-125 | while some instance stays up no call is answered 503, under any interleaving, except once for each wrap that matters |
| Refusals.CallsAreHonestIff | internal/registry/registry.go:102-125 | from a given cursor, a call is never turned away while an instance stays up, in any run, iff the cursor does not wrap within one lap or the number of instances divides 2^64 |
| Refusals.TurnedAwayBetweenTwo | internal/registry/registry.go:102-125 | a run in which somebody is available in every state, and a call is turned away |
| Dashboard.RunsAreTwins | internal/router/router.go:66-70 | the gateway with the dashboard watched stays in step with the gateway and only the looks of its own handlers, while no completion is recorded on an OPEN breaker whose timeout has elapsed |
| Dashboard.UnseenIff | internal/router/router.go:66-70 | in every state of a run, however the dashboard was watched before, traffic so far and every next answer of a breaker are the same, iff that holds |
| Dashboard.WatchingIsHarmless | internal/router/router.go:66-70 | with at most one request under way per instance, looks change nothing that traffic depends on or leaves behind |
| Proxy.LoadBalancedProxy.constructor | internal/proxy/proxy.go:67-70 | all counters start at zero |
| Proxy.LoadBalancedProxy.Admit | internal/proxy/proxy.go:71-90 | 503 and a counted rejection iff no instance was picked; 502 without any record if the address does not parse; else forward to the pick |
| Proxy.LoadBalancedProxy.Finish | internal/proxy/proxy.go:129-144 | the one record it leads to, the two failure counters staying equal, and the state shown; with the error handler run or a status of 500 or more the failure counter of that address goes up by one, else its success counter, and nothing else is counted |
| Proxy.LoadBalancedProxy.Handle | internal/proxy/proxy.go:70-145 | a request from end to end, for each way out of the handler: reply, every instance, the counters of each address, the gauge |
| Proxy.AnsweredProbeFreesTheSlot | internal/proxy/proxy.go:133-144 | an admitted and answered request leaves the slot free, and the breaker CLOSED iff it succeeded or the streak is still short |
| Answers.EveryAnswerCounts | internal/proxy/proxy.go:129-140 | over any run of answers of an address its failures grow by the answers with an error or a status of 500 or more, its successes by the others, and no other address is touched |
| Answers.GoodAnswersKeepClosed | internal/proxy/proxy.go:129-139 | answers below 500 without an error keep a CLOSED breaker CLOSED with streak 0 and count no failure |
| Answers.ServerErrorsOpen | internal/proxy/proxy.go:129-136 | each server error adds one to the streak; the one that brings it to the threshold opens the breaker |
| Answers.LeavesClosedIff | internal/proxy/proxy.go:129-139 | a CLOSED breaker without a streak leaves CLOSED iff as many answers in a row as the threshold are server errors |
| RateLimit.WindowSeconds | internal/ratelimit/ratelimit.go:67-70 | the whole seconds of the configured window, and one second for anything shorter than that |
| RateLimit.Redis.RunScript | internal/ratelimit/ratelimit.go:19-26 | the script is one atomic step of the store |
| RateLimit.Limiter.Allow | internal/ratelimit/ratelimit.go:65-107 | the verdict and the store after one check, which touches one key; an error yields no verdict, whether or not the script ran before it |
| RateLimit.Middleware.RateLimit | internal/middleware/ratelimit.go:18-51 | the decision on a call, and the counter of denials, are those of the run of all calls so far |
| RateLimitBounds.KeysAreDistinct | internal/ratelimit/ratelimit.go:66 | two clients share a key iff they are the same client |
| RateLimitBounds.ClientsDoNotInterfere | internal/ratelimit/ratelimit.go:65-75 | in any interleaving, with calls failing before or after the script, a client gets the verdicts of a run of its own counted calls alone |
| RateLimitBounds.EveryCounterExpires | internal/ratelimit/ratelimit.go:20-24 | every counter the script leaves behind carries an expiry |
| RateLimitBounds.FallbackIsNeverTaken | internal/ratelimit/ratelimit.go:96-99 | so the reply never has a negative TTL |
| RateLimitBounds.WindowAccounting | internal/ratelimit/ratelimit.go:62-106 | the k-th call of a window is allowed iff k is within the limit, and reports max(0, limit - k) remaining |
| RateLimitBounds.OpeningIsRecent | internal/ratelimit/ratelimit.go:19-26 | a call lies less than one period (the window and one millisecond) after the call that opened its window |
| RateLimitBounds.RetryAfterIsUseful | internal/middleware/ratelimit.go:34-39 | a denied client is told 1..W seconds, and half a second after that its window is over |
| RateLimitBounds.WindowsOf | internal/ratelimit/ratelimit.go:19-26 | with a window of k seconds: all calls no later than 1000 k milliseconds after the one that opened the window share it, and the first one later opens the next |
| RateLimitBounds.AnswerByRank | internal/middleware/ratelimit.go:19-50 | in terms of the configured window and limit alone: the k-th call of a window passes with limit - k remaining if k is within the limit, and is denied with nothing remaining and the advice to wait 1..W seconds otherwise; both report the limit; with an error the request passes unchecked |
| RateLimitBounds.DenialsAreBeyondLimit | internal/middleware/ratelimit.go:34-42 | the calls counted as limited are exactly the answered ones beyond the limit of their window |
| RateLimitBounds.WithoutExpiryWaitTheWindow | internal/ratelimit/ratelimit.go:96-99 | a counter that lacks an expiry yields the whole window as the time to wait |
| RateLimitBounds.SlidingBound | internal/ratelimit/ratelimit.go:62-106 | any half-open interval of length L sees at most ceil(L/P) * limit + limit - 1 allowed requests of a client, P being the window and one millisecond; limit - 1 fewer if L is 1 modulo P; calls that fail included |
| RateLimitBounds.SlidingBoundIsTight | internal/ratelimit/ratelimit.go:62-64 | for every limit, window and length some run attains that |
| RateLimitBounds.SlidingBoundAsConfigured | internal/ratelimit/ratelimit.go:62-75 | the same bound in terms of the configured window alone |
| RateLimitBounds.MostByWindows | internal/ratelimit/ratelimit.go:62-64 | that is at most (ceil(L/W) + 1) * limit |
| RateLimitBounds.OneWindowLength | internal/ratelimit/ratelimit.go:62-64 | an interval no longer than P sees at most 2 * limit - 1, which is the exact maximum if it is longer than a millisecond |
| Telemetry.RecentRequests.constructor | internal/telemetry/recent.go:35-40 | an empty buffer of the given capacity, at least one |
| Telemetry.RecentRequests.Add | internal/telemetry/recent.go:43-52 | the buffer keeps representing the full history, now longer by this request |
| Telemetry.RecentRequests.Snapshot | internal/telemetry/recent.go:55-74 | exactly the latest entries of the full history, newest first: as many as a positive limit asks for, if the buffer holds more, and all it holds otherwise, which is min(total, capacity) |
| Telemetry.NewestIsReversedSuffix | internal/telemetry/recent.go:54-74 | newest first is the reverse of the last m additions |
| Telemetry.LargerLimitShowsMore | internal/telemetry/recent.go:59-61 | a snapshot with a smaller positive limit is a prefix of one with a larger limit, and that of one without |
| Config.TrimCutsSpace | internal/config/config.go:78 | trimming removes only white space, and all of it, from both ends |
| Config.JoinOfSplit | internal/config/config.go:75 | splitting loses nothing: joining the parts gives the value back, and no part has a comma |
| Config.SplitOfJoin | internal/config/config.go:75 | splitting the join of comma-free parts gives those parts |
| Config.GetEnvList | internal/config/config.go:73-87 | however the value (or the fallback, if unset or empty) is described as addresses padded with white space and blank parts, with commas between, the result is those addresses in order, or the fallback alone if there are none |
| Config.ReadingIsDescribed | internal/config/config.go:62-87 | the same of the function that specifies it |
| Config.EveryValueIsDescribed | internal/config/config.go:75-82 | every value whatever has such a description |
| Config.UntidyListIsRead | internal/config/config.go:77-82 | a list with a space after its comma has both its addresses |
| Config.ItemsAreClean | internal/config/config.go:76-82 | every item is non-empty, comma-free and trimmed, whatever the value |
| Config.RoundTrip | internal/config/config.go:73-87 | reading the join of a non-empty list of clean addresses gives that list |
| Config.RereadingIsStableIff | internal/config/config.go:73-87 | reading back the join of what was read gives the same, iff the value had items or the fallback is clean or has none |
| Config.LoadedListsAreClean | internal/config/config.go:47-49 | with a clean fallback every list read is non-empty, clean and stable |
| Config.OwnFallbacksAreClean | internal/config/config.go:47-49 | the three fallbacks of the gateway are clean |
| Config.BuildRegistry | internal/router/router.go:48-52 | every registry the router builds has the listed addresses in order, and at least one |

## Left out

- Fairness.WholeRoundsAreExact: for stretches in which the cursor does not wrap around 2^64, or any stretch if the number of instances divides 2^64; otherwise only what `FairWithinOne` says holds.
- Fairness.NobodyIsTurnedAway: the stretch begins between two scans; the scan in progress may already have come by the instance before it was up.
- Clock readings: each locked method reads the clock once, where the code may read it two or three times within one critical section; time does not go backwards.
- Machine widths: the cursor is an exact `uint64`; failure counts, request counters and the store's counters are unbounded.
- Registry.Registry.Next: reads one clock value and meets no interleaving; the system in `Gateway.dfy` splits the scan and lets time and other actions pass between its steps, and `LoneScanIsNext` ties the two.
- Gateway.ActKeeps: recording a completion and counting it are one action there, though the code does them one after the other.
- RateLimit.Middleware.RateLimit: the clauses about runs are for a store that starts empty and that nothing but the script writes.
- RateLimitBounds.SlidingBound: counts verdicts; requests that pass unchecked because of a Redis error come on top.
- RateLimit.Redis.RunScript: expiry (a key is gone once the millisecond at which it is due is past) and the rounding of TTL to the nearest second are Redis's, not the repository's; the counting theorems do not depend on the rounding. Malformed script replies are not modelled.
- RateLimit.WindowSeconds: whole seconds by integer division, where the code goes through a floating-point number of seconds.
- Forwarding, path rewriting and URL parsing: known only by their outcome, that is, error handler run or not, status written, panic, and whether an address parses.
- Counters by label: the system counts per instance; the handler class counts by address, as the metrics do, so instances listed twice share counters there.
- Waiting for the registry's lock: a call begins in the model when it has the lock.
- `Failures`, `LastStateChange`, `Instances`, `New` with default options, and the other one-line accessors.
- Topology and telemetry JSON, metrics export, logging, the plain reverse proxy, mock services, the load generator, the front end, and deployment files.
- Invalid UTF-8 in environment values: strings are sequences of Unicode scalar values.
- `getEnvInt`, `getEnvSeconds`: number parsing with a fallback.
