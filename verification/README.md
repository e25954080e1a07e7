# Adaptive admission controller: a verified model

This project models how the admission controller admits, queues, dispatches and scores requests for
one backend, and proves what its parts guarantee together. It has two layers.

**Components, updated in place.** The capacity controllers, their rolling windows and condition
variable (`Controllers`, `Windows`), the load balancer (`LoadBalancer`), the priority queue
(`Scheduling`), `dispatch_queued` and the request handler (`Dispatcher`), the penalty store
(`PenaltyStore`), the scoring engine (`Scoring`), configuration checks (`Config`) and the GeoIP cache
(`GeoIP`) are classes and methods. A method is one section of code that no other coroutine can
interrupt, and is proved equal to a function on values (`Capacity`, `Balancing`, …). Two methods run
through a wait: `dispatch_queued` with nothing else in between, the request handler with whatever other
coroutines do to the queue and the counters meanwhile. `BalancerRuns` and `AdaptiveRuns` prove what
whole sequences of sections do. `RequestLog` proves what a history of requests scored one after the other
leaves in the penalty store and how its scores compare with true sliding windows; `Interleavings` proves
the same of requests scored at the same time, whose hits interleave and whose commands may fail.

**The protocol between them.** `Pipeline` composes the request handlers, the one scheduler worker, the
detached dispatches, the controller, the load balancer, the health check and the adjust loop into one
transition system with one step per `await`. `PipelineInvariant` proves its inductive invariant,
`PipelineSafety`, `PipelineHistory` and `PipelineLiveness` the guarantees over every run, and
`PipelineShrink` builds the run that shows where one of them ends. The environment chooses
arrivals, backend outcomes, latencies, clock readings, client disconnects and when a handler's wait
expires; nothing relates a step's clock readings to another step's unless a theorem says so.

## How values are modelled

Counts and limits are unbounded integers, times and latencies are reals. `int(limit * 0.70)` in double
precision can be one below the exact floor (90 gives 62), so every shrink takes an error of 0 or 1 and
the theorems hold for both; the growth step has no such case and uses the exact floor. A request costs
one slot, as everywhere in the program. Dictionaries keep their insertion order where it decides a tie.
A waiter of a condition variable is asleep or notified; `asyncio` wakes notified waiters in order.

## Where the code and its documentation differ

- `docs/architecture.md:80-82` says a queue timeout means the request was never popped. The wait in
  `app/main.py:195` also covers the backend, so a request can be dispatched and still be rejected with
  `queue_timeout` (`PipelineLiveness.TimeoutAfterDispatch`). The exact condition is
  `PipelineSafety.TimeoutMeansUndispatchedIff`.
- `docs/architecture.md:116` says a healthy backend's limit grows by 5%. Below 20 that rounds down to the
  same limit, so it never recovers (`AdaptiveRuns.RecoveryBoundary`, `AdaptiveRuns.BelowTwentyIsForever`),
  which any fresh backend below 20 shows after ten fast requests (`AdaptiveRuns.RecoveryStalls`).
- `docs/architecture.md:193-194` gives every dimension, value, backend and window its own counter. A
  backend name may contain colons, and then two counters can share a key, exactly when one name ends with
  a colon and the other (`KeyFormat.KeysApartIff`); two windows of one dimension share a counter exactly
  when their lengths are equal (`Scoring.OncePerWindowIff`).
- `docs/architecture.md:193` calls the counters rolling windows. They are fixed windows, and the exact
  conditions are `PenaltyStore.RollingCountIff`: a count is the rolling one if and only if the hit that
  began the counter is recent and no hit before it is. It is too low if and only if a hit before it is
  recent, too (`PenaltyStore.ThirdHitMissesSecond` is the smallest case), and too high if and only if the
  hit that began it lost its `EXPIRE` and has grown old; such a counter never ends
  (`PenaltyStore.WindowEndsIff`).

## Worth knowing

- A latency sample of a connection failure or of a cancelled queue entry enters the latency window as a
  good one, because it is released with status 0 (`Controllers.FixedController.Release`).
- An idle worker holds a slot, so a quiet backend has one slot in use, not none
  (`PipelineLiveness.SettledMeansServed`).

## Model

| member | source | states |
|---|---|---|
| Windows.PushKeepsLastN | app/capacity.py:27-32 | appending to a window of the last n samples gives the last n of the longer history |
| Windows.LastNIsSuffix | app/capacity.py:29-32 | the last n samples are the end of the history, in order, and all of it while it is no longer than n |
| Windows.LatencyWindow.Record | app/capacity.py:31-32 | the deque is always exactly the last 100 of all accepted samples |
| Windows.LatencyWindow.ReadMean | app/capacity.py:34-37 | no mean below ten samples; from ten on, mean times count is their sum |
| Windows.LatencyWindow.ReadP95 | app/capacity.py:39-43 | no percentile below ten samples; from ten on it exceeds a threshold exactly when at least one sample in twenty does, and lies below it exactly when more than nineteen in twenty do |
| Windows.P95ByCounting | app/capacity.py:39-43 | the same for the percentile as a function of the window |
| Windows.P95ByCountingBelow | app/capacity.py:39-43 | it lies below a threshold exactly when more than nineteen samples in twenty do, in any order |
| Windows.RateWindow.Record | app/capacity.py:98-99 | the outcome window is exactly the last 100 outcomes |
| Windows.RateWindow.ReadRate | app/capacity.py:101-104 | rate times count is the number of matched outcomes; the rate is 0 when there are none |
| Capacity.StepKeepsInv | app/capacity.py:57-77 | every atomic section keeps the limit in range, the slots within the ceiling and no wake-up lost |
| Capacity.RunKeepsInv | app/capacity.py:132-218 | every reachable state: limit in [min, max], slots within the maximum, and a free slot always has a notified waiter or a pending notify_all on its way while anybody sleeps |
| Capacity.SettleAdmits | app/capacity.py:57-60 | letting notified waiters run admits exactly the first ones in line, as many as there is room and notification for |
| Capacity.NotifyOneAdmitsWhatNotifyAllWould | app/capacity.py:69-77 | waking one waiter per release admits the same waiters in the same order as waking all of them |
| Capacity.RunNotifiesInOrder | app/capacity.py:146-154 | that comparison holds at every point of every run |
| Capacity.AdjustByOutcomes | app/capacity.py:170-194 | what one adjustment does, from the outcomes alone: below ten samples nothing; too many timeouts cut the limit to 60% with a cooldown of 60 seconds, else too many errors to 75% with 30, else one sample in twenty above twice the target to 70% with 30, else one in twenty above it to 85%; more than nineteen in twenty below half of it grow it by 5% |
| Controllers.ConditionVariable.NotifyUpTo | app/capacity.py:77 | notify(n) marks the first n waiters not yet notified |
| Controllers.FixedController.Acquire | app/capacity.py:57-60 | takes a slot exactly when one is below the limit, else joins the waiters |
| Controllers.FixedController.Resume | app/capacity.py:57-60 | a notified waiter leaves the line and checks the limit again |
| Controllers.FixedController.Release | app/capacity.py:62-77 | gives one slot back, wakes one waiter, and records the latency unless timed out or 5xx |
| Controllers.AdaptiveController.Acquire | app/capacity.py:132-135 | as for the fixed controller, against the moving limit |
| Controllers.AdaptiveController.Resume | app/capacity.py:132-135 | a notified waiter checks the moving limit again |
| Controllers.AdaptiveController.Release | app/capacity.py:137-154 | also records the timeout and error outcomes in their windows' histories |
| Controllers.AdaptiveController.AdjustLimit | app/capacity.py:170-195 | nothing below ten samples, else the limit and cooldown of the branch the windows select; a raise is left to be broadcast |
| Controllers.AdaptiveController.AdjustTurn | app/capacity.py:162-168 | one turn of the loop: nothing in a cooldown, else what the outcomes in the windows demand |
| Controllers.AdaptiveController.NotifyAllWaiters | app/capacity.py:212-218 | a raise notifies every waiter |
| AdaptiveRuns.AdmissionOnlyBelowLimit | app/capacity.py:132-135 | over every run the slots grow one at a time and only below the limit of that moment, never past the maximum |
| AdaptiveRuns.CooldownFreezesLimit | app/capacity.py:166-190 | after a cut for too many timeouts the limit stays put for the full 60 seconds, after one for too many errors or slow responses for the full 30 |
| AdaptiveRuns.RecoveryBoundary | app/capacity.py:193-194 | after enough healthy turns the limit is the maximum if and only if it started at 20 or more, or there already |
| AdaptiveRuns.RecoveryStalls | app/capacity.py:170-194 | from any fresh controller below 20 and below its maximum, ten fast requests and any number of healthy turns leave the limit where it was |
| AdaptiveRuns.GrowthReachesMax | app/capacity.py:193-194 | from 20 up every growth step adds at least one slot until the maximum |
| AdaptiveRuns.BelowTwentyIsForever | app/capacity.py:182-194 | once below 20 the limit never grows again, whatever happens |
| AdaptiveRuns.BranchByCounting | app/capacity.py:172-194 | exactly when each branch is taken, by counting outcomes and samples in any order |
| Balancing.PoolMembers | app/load_balancer.py:102-122 | who may be chosen: healthy primaries, else healthy backups, else everybody |
| Balancing.PoolInOrder | app/load_balancer.py:102-122 | the pool keeps the configured order |
| Balancing.PrimariesFirst | app/load_balancer.py:102-122 | a backup serves nobody, pinned or not, while a primary is healthy |
| Balancing.PinHonoured | app/load_balancer.py:124-147 | a pin in the pool used within the time to live is kept if and only if its instance is below its fair share or everybody else is at or above it |
| Balancing.PinOrLeastLoaded | app/load_balancer.py:83-147 | whom select takes: the pinned instance where there is a pin to keep; otherwise, be the pin missing, expired, outside the pool or evicted, a candidate with the least load and the earliest configured of those |
| Balancing.ChoiceBelowShareIff | app/load_balancer.py:83-100 | the chosen instance is below its fair share exactly when the pool has one that is |
| Balancing.ChoiceBelowShare | app/load_balancer.py:141-147 | with total load below the hint, nobody at or above its fair share is chosen |
| Balancing.ReleaseUndoesSelect | app/load_balancer.py:149-160 | releasing what was selected restores every load; a connection failure costs only the chosen instance its health |
| LoadBalancer.LeastLoadedLoadBalancer.constructor | app/load_balancer.py:47-75 | every instance starts healthy and idle, primaries before backups |
| LoadBalancer.LeastLoadedLoadBalancer.ReadActivePool | app/load_balancer.py:102-122 | computes the pool, in configured order |
| LoadBalancer.LeastLoadedLoadBalancer.LeastLoaded | app/load_balancer.py:96 | finds the first of the least loaded candidates |
| LoadBalancer.LeastLoadedLoadBalancer.ShouldEvictPin | app/load_balancer.py:141-147 | evicts exactly when the pin is at its fair share and another candidate is below it |
| LoadBalancer.LeastLoadedLoadBalancer.SelectInstance | app/load_balancer.py:83-100 | picks the pinned instance or the first of the least loaded, counts the request on it and renews the pin, and nothing else |
| LoadBalancer.LeastLoadedLoadBalancer.ReleaseInstance | app/load_balancer.py:149-160 | uncounts a request unless that would go below zero, and marks an instance down on a connection failure |
| LoadBalancer.LeastLoadedLoadBalancer.DownInstances | app/load_balancer.py:202-204 | lists exactly the instances that are down |
| LoadBalancer.LeastLoadedLoadBalancer.MarkRecovered | app/load_balancer.py:205-211 | brings a down instance back and forgets since when it was down |
| LoadBalancer.LeastLoadedLoadBalancer.SweepExpiredStickyEntries | app/load_balancer.py:192-200 | a pin stays, as it was, if and only if it was used within the time to live |
| BalancerRuns.SweepsAreInvisible | app/load_balancer.py:192-200 | with clocks that never go back, a run selects the same instances as the run without its sweeps, even from states that differ in expired pins |
| BalancerRuns.RunsDifferingInSweepsAgree | app/load_balancer.py:178-200 | when and how often pins are swept changes no selection and no load |
| BalancerRuns.ClientReturns | app/load_balancer.py:87-99 | whatever other clients, releases, probes and sweeps do in between: within the time to live of its pin a client returns to its instance if and only if that is still a candidate and below its fair share, or nobody else is below it; after it the client gets the first of the least loaded |
| BalancerRuns.LeastLoadedIsRoundRobin | app/load_balancer.py:96-100 | without pins, from equal loads, the n-th selection is candidate n mod size in configured order |
| BalancerRuns.SpreadNeverWidens | app/load_balancer.py:96-100 | selecting never widens the spread of loads beyond what it was, or beyond one |
| Scheduling.ProjectionWithinOneService | app/scheduler.py:25-34 | with constant service time the projected wait is right within one service time |
| Scheduling.WaitRejectionIff | app/scheduler.py:25-34 | a request is rejected for its wait if and only if there are samples and the work ahead exceeds what the slots serve within the timeout; a cold start and an empty queue fail open |
| Scheduling.Compare | app/scheduler.py:63-69 | of two distinct queued entries exactly one comes first |
| Scheduling.BestUnique | app/scheduler.py:86 | there is only one entry that comes before all others |
| Scheduling.PriorityScheduler.Enqueue | app/scheduler.py:53-75 | rejects for the projected wait first, then for the full queue, and otherwise adds exactly this entry |
| Scheduling.PriorityScheduler.Pop | app/scheduler.py:86 | takes the entry with the highest score, and of those with the same score the earliest |
| PipelineInvariant.StepKeepsInv | app/dispatcher.py:119-239 | every step of every part keeps the invariant of slots, worker, instances, requests and counters |
| PipelineInvariant.RunKeepsInv | app/main.py:85-127 | every reachable state of the composed pipeline satisfies it |
| PipelineSafety.SlotsAndInstancesConserved | app/dispatcher.py:141-220 | slots in use are the dispatches not past their release plus the worker's; each instance's load is the dispatches between select and release; no double release |
| PipelineSafety.WorkerNeverStranded | app/scheduler.py:85 | the worker never sleeps unnotified beside a free slot, unless a notify_all is pending |
| PipelineSafety.OutcomesExactlyOnce | app/dispatcher.py:168-239 | no future is resolved twice, every response received is handed over or closed, every request is accounted for |
| PipelineSafety.SelectBelowFairShare | app/load_balancer.py:83-147 | every select under a fixed limit takes an instance whose load times the number of candidates is below the limit, so no pin is kept for saturation |
| PipelineShrink.ShrinkBreaksShare | app/capacity.py:188-190 | on any fresh two-slot adaptive backend of one instance, ten slow requests and a shrink let a later select take the instance at its share |
| PipelineSafety.InstanceNeverAboveShare | app/main.py:95-106 | no instance ever carries more than ceil(limit / smallest pool seen), which is also stated without dividing |
| PipelineSafety.NoPriorityInversion | app/scheduler.py:79-86 | no request is popped twice; one popped while another is queued has the higher score, or the same and the earlier arrival; the queue keeps its bound |
| PipelineSafety.OvertakenByBetterOnly | app/scheduler.py:79-86 | while a request stays queued, the pops are exactly the entries with a higher score, or the same and an earlier arrival, queued before minus those left, plus such arrivals accepted since |
| PipelineSafety.AnsweredNotQueued | app/dispatcher.py:234-239 | a request whose handler was answered has left the queue |
| PipelineSafety.DrainsInOrder | app/scheduler.py:77-101 | without arrivals what is popped descends in score, ascends in arrival among equal scores, and is exactly what the queue lost |
| PipelineSafety.TimeoutMeansUndispatchedIff | app/main.py:194-213 | a timed-out request is never dispatched, before or after, if and only if it was still queued when its wait expired |
| PipelineHistory.CountersCountEvents | app/main.py:165-219 | after every run each counter equals the number of its own events: requests, each rejection, admissions, clients leaving, responses opened, handed over and closed |
| PipelineHistory.WindowsHoldLastOutcomes | app/dispatcher.py:152-220 | the controller's windows are exactly the last 100 outcomes of the run's releases; discarded entries and connection failures count as good samples |
| PipelineHistory.DownIffFailedSince | app/load_balancer.py:157-211 | an instance is down if and only if a dispatch failed to connect to it and no probe has succeeded since |
| PipelineLiveness.WorkShrinks | app/scheduler.py:77-101 | every step of worker, dispatches and handlers giving up shrinks the work left; probes and sweeps leave it alone |
| PipelineLiveness.BoundedWork | app/dispatcher.py:119-239 | on every run, adjust loop included: steps taken are paid for by the work left, 14 per accepted arrival and 2 per raise, and raises by the state and the arrivals; once arrivals stop, the steps left are at most a number computed from the state |
| PipelineLiveness.SettledMeansServed | app/scheduler.py:77-101 | a reachable state in which nothing can move has an empty queue, no waiting handler, no load, and one slot held by the idle worker |
| PipelineLiveness.CanAlwaysFinish | app/scheduler.py:77-101 | from every state of the invariant the pipeline's own steps lead to everybody being served |
| PipelineLiveness.TimeoutAfterDispatch | app/main.py:194-213 | from any start a request can be dispatched and still be rejected with queue_timeout |
| Dispatcher.BackendDispatcher.DispatchQueued | app/dispatcher.py:119-239 | under either controller and whatever the outcome, loads are restored, the slot is released once, and the future is resolved once, with the response or 502 or 503, or an open response closed |
| Dispatcher.StartRequest | app/main.py:165-191 | counts the request, and either rejects it with its own counter or queues exactly this entry and raises the gauge, counter by counter |
| Dispatcher.FinishRequest | app/main.py:193-219 | counts how the wait ended, once, takes the gauge back down, and answers with the response or 503 |
| Dispatcher.ProxyHandler | app/main.py:144-219 | whatever others do meanwhile, one request adds one request and at most one outcome to the counters and nothing to the gauge, and the client sees 429, 503 or the response accordingly |
| PenaltyStore.RedisPenaltyStore.IncrementAndGetKey | app/penalty_store.py:20-27 | increments, and sets the expiry on a key's first hit only; either command may fail |
| PenaltyStore.CounterAgainstLog | app/penalty_store.py:20-27 | a counter is at most the hits of the last ttl seconds, misses less than the previous window's final count, and misses none if and only if every hit before it is older |
| PenaltyStore.StoreAgainstLog | app/penalty_store.py:20-27 | the same for every key of the store, over any interleaved log of hits |
| PenaltyStore.AttemptsMatchLog | app/penalty_store.py:20-27 | over any log of attempts whose connections may fail, a key counts exactly the attempts that got through since the one that began its counter, and expires when that one says |
| PenaltyStore.WindowEndsIff | app/penalty_store.py:21-26 | a counter's window ends if and only if the attempt that began it got its EXPIRE through; otherwise every later attempt keeps counting |
| PenaltyStore.RollingCountIff | app/penalty_store.py:20-27 | whatever failed: exactly when a count equals the true hits of the last ttl seconds, exactly when it is too low and exactly when it is too high |
| PenaltyStore.ThirdHitMissesSecond | app/penalty_store.py:20-27 | of three hits half a window apart the third counts one although two are recent |
| KeyFormat.KeysApartIff | app/scoring.py:65 | keys keep all counters apart if and only if no backend name ends with a colon and another backend's name |
| KeyFormat.Collision | app/scoring.py:65 | where one does, two users with non-empty names share the counter of every window the two backends have in common |
| KeyFormat.PlainNamesNeverCollide | app/scoring.py:65 | names without colons never collide, whatever the values contain |
| KeyFormat.KeySpelledOut | app/scoring.py:65-104 | the key of each of the six dimensions, spelled out |
| KeyFormat.DecimalReadsBack | app/scoring.py:65 | reading the window length printed at the end of a key gives it back |
| Scoring.PenaltySumUpdate | app/scoring.py:63-68 | one count enters a dimension's penalty through its own window's step only |
| Scoring.BelowThresholdsIsFree | app/scoring.py:46-51 | counts below every soft threshold cost nothing |
| Scoring.CrossingThresholds | app/scoring.py:46-51 | reaching the soft threshold adds the soft penalty, reaching the hard one replaces it by the hard penalty, and moving within one range adds nothing |
| Scoring.PenaltyByDimension | app/scoring.py:136-138 | every dimension is charged in full, but an exempt request pays only for its address and user |
| Scoring.DimensionCosts | app/scoring.py:119-138 | other counts of one dimension change the total by the difference of that dimension's penalty, or not at all where the country is exempt and the dimension neither address nor user |
| Scoring.PartIsSum | app/scoring.py:119-134 | the breakdown shows each dimension's own penalty |
| Scoring.ScoreClamped | app/scoring.py:107-140 | the score is base less penalties within floor and ceiling, the floor below, the ceiling above; failing open scores as no penalties do |
| Scoring.FailsInOrder | app/scoring.py:119-134 | a failing store fails at one dimension, from address to user: those before it are charged, those after it untouched |
| Scoring.ScoreOrder | app/scoring.py:111-151 | the score never rises with a counter, exempt requests score no lower, the floor holds, and failing open scores no lower |
| RequestLog.HitsAreRequests | app/scoring.py:64-66 | over a log of scored requests each counter is hit once by every request of its backend with its value, and by no other |
| RequestLog.IsForFields | app/scoring.py:119-134 | which field of a request each dimension counts |
| RequestLog.CountsFitRequests | app/scoring.py:54-68 | every count a request reads is at most the requests of its backend with the same value in the last window_seconds, and misses less than the window before it counted |
| RequestLog.ScoredAtLeastSliding | app/scoring.py:111-151 | no request is charged more in any dimension, or scored lower, than with true sliding windows over the requests so far |
| RequestLog.EnoughCommands | app/scoring.py:63-67 | twelve commands for each window a dimension may have let every request through, whatever the store holds |
| Interleavings.VisitorsAreHits | app/scoring.py:63-67 | however requests interleave, the hits on a counter are different requests of its backend with its value, one each |
| Interleavings.HitAgainstRequests | app/scoring.py:63-67 | after every hit, whatever interleaves and fails: exactly when the counter equals the number of such requests in the sliding window, is below or is above it |
| Interleavings.ReadAtMostSlidingIff | app/scoring.py:63-67 | a count read is at most the sliding one if and only if its counter is not stale |
| Interleavings.ScoredAtLeastSliding | app/scoring.py:111-151 | a request that met no stale counter is charged no more in any dimension, and scored no lower, than with sliding windows at the moments of its hits |
| Interleavings.ScoredInOnePiece | app/scoring.py:119-134 | scoring a request in one piece is one of the interleavings: same store, same counts |
| Scoring.ReadCountsExact | app/scoring.py:63-67 | the count read for a window is its counter's old count plus one for every window of the same length so far |
| Scoring.OncePerWindowIff | app/scoring.py:63-67 | a request counts once in every window of a dimension if and only if no two windows have the same length |
| Scoring.EqualWindowsCountTwice | app/scoring.py:64-66 | its smallest instance: of two windows of equal length the second always reads one more |
| Scoring.ScoreEngine.DimensionPenalty | app/scoring.py:54-68 | hits every window's counter and sums their penalties, stopping at the store's failure |
| Scoring.ScoreEngine.CalculateScore | app/scoring.py:111-169 | charges all six dimensions, applies four of them unless exempt, and stores the breakdown; the store afterwards is the same under any other exemptions |
| Scoring.ScoreEngine.Score | app/scoring.py:183-217 | between the floor and the fail-open score always; the fail-open score when the store fails, else the score of the counts charged, with the breakdown stored |
| Config.MergeLaws | app/config.py:280-283 | each field an override names takes its value and every other field stays as it was |
| Config.RStrip | app/config.py:203-213 | strips every trailing slash and nothing else |
| Config.ResolveScoringConfig | app/config.py:263-293 | succeeds exactly when every window is valid after the overrides; an override changes its dimension's first window and nothing else, and only validated configurations result |
| Config.CheckUniqueUpstreams | app/config.py:203-213 | accepts exactly the lists whose URLs differ in more than trailing slashes |
| Config.UniqueUpstreamsAreDistinct | app/config.py:203-213 | an accepted list has the distinct URLs the load balancer needs |
| GeoIP.GeoIPLookup.Lookup | app/geoip.py:46-75 | country and network are the two databases' own answers; an answer younger than 300 seconds leaves the cache alone, any other is stored anew; a full cache loses an oldest entry |

## Left out

- Sending and streaming over HTTP, the TCP probe and the Redis transport: a backend outcome, a probe
  result and a command's success are choices of the environment.
- Any exception in a dispatch outside the four modelled outcomes, for example a client disconnect while
  the request body is read (app/dispatcher.py:96): the code then skips both releases.
- Scheduling.PriorityScheduler.Enqueue: an arrival that ties a queued entry in (score, arrival_time) is
  excluded, because comparing the two would reach the request context, which has no order.
- Dispatcher.StartRequest: the same arrivals are excluded.
- Dispatcher.ProxyHandler: the same arrivals are excluded; what other coroutines do to the queue meanwhile is
  any set of entries within its bound, the real ones being `Pipeline`'s (`PipelineSafety.AnsweredNotQueued`).
- RequestLog.CountsFitRequests: requests scored one after the other with every command getting through;
  `Interleavings` covers hits that interleave and commands that fail.
- RequestLog.ScoredAtLeastSliding: likewise; `Interleavings.ScoredAtLeastSliding` covers them.
- The internals of the heap, of `asyncio.Condition` and of `sorted`: modelled by what they specify.
- Cancellation of the worker at shutdown, and a wait that expires between resolving a future and waking
  its handler.
- How long a handler waits: a wait may expire at any time.
- `min <= initial <= max` of an adaptive backend, which the configuration does not check, is assumed.
- The clock inside one score calculation of `Scoring` and `RequestLog`: its hits share one instant. In
  `Interleavings` each hit has its own, and EXPIRE takes effect at the instant of its INCR.
- PipelineSafety.SelectBelowFairShare: for an adaptive limit it needs the slots in use to be within the
  limit at that moment; without it the exact condition is `Balancing.ChoiceBelowShareIff`, that some
  candidate is below its share, which a shrink can break (`PipelineShrink.ShrinkBreaksShare`).
- GeoIP.GeoIPLookup.Lookup: among equally old entries the model does not say which one is evicted.
- `snapshot`, the admin, health and metrics endpoints, logging, debug headers and header filtering.
- JWT verification, trusted proxies, classification and path matching: they only choose the inputs of
  scoring and queueing.
- YAML and pydantic parsing beyond the checks modelled in `Config`; unknown override fields are ignored
  by the program and cannot be written in the model.
