# Verified models of Alcyoneus OS

This project models the parts of Alcyoneus OS that keep state and make numeric, graph or ordering
promises, and proves those promises with Dafny. `dafny verify dfyconfig.toml` checks everything.

Objects whose methods update fields are classes; each method is proved against a pure function (or a
direct property) of its old state, and the promises are lemmas about whole runs of those functions.
What runs concurrently is a state machine over its uninterrupted stretches of code. Clocks, failures of
the environment, the outcomes of node attempts and the moments at which signals or other callers come in
are parameters. Clock readings and rates are reals.

| file | models |
|---|---|
| `TokenBucket.dfy`, `FixedWindow.dfy`, `SlidingWindow.dfy` | the three limiters over a store whose keys expire |
| `SlidingInterleaved.dfy` | the sliding window under concurrent callers, late rollbacks, usage queries and key expiry |
| `Quota.dfy` | tenant usage, periods and the quota enforcer |
| `QuotaFront.dfy` | the quota in front of a limiter, with requests in flight between the two |
| `SlidingBehindQuota.dfy` | the interleaved sliding window behind the quota |
| `Distributed.dfy` | the limiters behind the quota, tenant keys, priorities |
| `TenantNamespace.dfy` | per-tenant wrappers over one shared key-value store |
| `Lineage.dfy` | the lineage graph and its depth-limited search |
| `KafkaSink.dfy` | the buffering audit sink |
| `TaskManager.dfy` | the background task manager and its shutdown |
| `Retry.dfy`, `NodePolicy.dfy` | the retry loop, the node cache and policy execution |
| `PersistentDict.dfy` | the dictionary kept in a file |
| `ProtectedSections.dfy` | nested sections protected from signals |
| `StrictSchema.dfy` | tightening of JSON schemas |
| `Prelude.dfy` | shared facts |

## Findings

Where the code keeps a promise only under a condition, the condition is proved exact:

- Key expiry is invisible to the token bucket, and the rate bound holds over expiring keys, exactly when
  the burst refills within `int(window) + 1` seconds less the time by which clock readings may lag behind
  their scripts. A configured `burst` above that breaks both; with burst and rate unset the lag may be
  `int(window) + 1 - window` seconds, as for the other limiters.
- The sliding window never over-admits exactly when no clock reading on a key lags behind its step by more
  than `int(window) + 1 - window` seconds and pipelines run in the order of their timestamps, with no usage
  query of a later reading before them; or when timestamps are distinct and no reading lags at all. A check
  or query that overtakes a check with an older timestamp purges what that one should still count, and the
  rollback of a refused call, which removes by score, wipes out an admitted one with the same timestamp:
  either way the limit can be admitted twice in one window.
- The fixed window keeps each window within the limit exactly when clock readings lag behind their
  pipelines by no more than the same margin; a later one may find its window's counter gone.
- Of two priorities the higher is never charged more, for any cost that is not negative, exactly when both
  are on the same side of 11: 11 itself divides by zero, and 12 or more is charged one unit for any such cost.
- From a reset to the next, a tenant's quota bounds what is admitted in every run exactly when none of its
  cost is in flight at the reset; across the end of a period twice the limit is admitted.
- Tenants are isolated exactly when no tenant id continues another past a colon. Limiter keys also meet when
  one request names no tenant and spells out a tenant's key.
- The audit sink loses nothing exactly when flushes never overlap; `write` and the periodic flush do not
  prevent that.
- A shutdown leaves only tasks created after it began exactly when, as it gathered, some tracked task still
  ran or all that was tracked came late. If every tracked task has just finished, there is nothing to wait
  for, and it counts tasks whose callbacks have not run.
- The node cache is transparent exactly when inputs that share a key are answered alike; with the default
  key and thread ids without a bar, when answers depend on nothing but the serialised state and the thread
  id. The documentation puts the node's name into that key; it selects the cache instead, which all nodes
  of one name share.
- A saved dictionary is safe from a power loss exactly when the file has held its contents ever since the
  directory was last synced. No save syncs the directory, so none secures contents it changes; what a power
  loss brings back is always something the dictionary once held.
- A lineage query returns exactly what can be reached once `max_depth` is the vertex count less one, and
  no smaller bound will do; below it, stages within `max_depth` edges may be missed.
- The handler replaced by a protected section is called with the delayed signal exactly when it is a
  function; under a default disposition (usual for SIGTERM) the call raises and the signal is lost.
  Section objects must be fresh: entered twice, they never restore the handlers or repeat a signal.

## Model

| member | source | states |
|---|---|---|
| TokenBucket.Exactness | alcyoneus/core/ratelimit.py:230-249 | on every run the level a decision finds is exactly the least of the burst and, over all earlier calls, burst plus refill since that call less the cost admitted since it |
| TokenBucket.RefusedExactly | alcyoneus/core/ratelimit.py:240-246 | a call is refused iff it exceeds the burst or would break the bound of some stretch ending in it |
| TokenBucket.RefusedIff | alcyoneus/core/ratelimit.py:219-257 | with expiring keys and a burst that refills in time a call is refused iff it exceeds the burst or, with it, more than burst plus refill would be admitted since some earlier call, in numbers |
| TokenBucket.RateBound | alcyoneus/core/ratelimit.py:230-249 | over any stretch that ends with an admission the admitted cost is at most burst plus rate times the stretch's length, in whatever order clock readings come |
| TokenBucket.ExpiryInvisibleIff | alcyoneus/core/ratelimit.py:219-257 | key expiry changes no decision of any run iff the burst refills within the key's lifetime less the lag of the clock readings |
| TokenBucket.RateBoundedIff | alcyoneus/core/ratelimit.py:219-257 | with expiring keys the rate bound holds on all runs iff the burst refills within the key's lifetime less the lag |
| TokenBucket.StretchRateBound | alcyoneus/core/ratelimit.py:219-257 | then any stretch of calls, however it ends, admits at most burst plus the refill of its length |
| TokenBucket.IntervalBound | alcyoneus/core/ratelimit.py:219-257 | then the cost admitted in any interval of time is at most burst plus the interval's refill |
| TokenBucket.DefaultsHideExpiryIff | alcyoneus/core/ratelimit.py:214-257 | with burst and rate unset expiry is invisible, for whole and fractional windows, iff the limit is zero or the lag is at most floor(window) + 1 - window seconds |
| TokenBucket.DefaultsAreBounded | alcyoneus/core/ratelimit.py:214-257 | with everything but the limit unset, any stretch that ends with an admission admits at most limit plus limit/window per second, for every window |
| TokenBucket.ConfiguredBoundIff | alcyoneus/core/ratelimit.py:214-257 | whatever is configured, an absent or zero burst or rate meaning the default, the bound of that burst and rate holds on all runs iff the rate brings the burst back within floor(window) + 1 seconds less the lag |
| TokenBucket.FreshBucket | alcyoneus/core/ratelimit.py:214-251 | a key without a bucket gives the configured burst at once and reports it as the limit |
| TokenBucket.RemainingIsExact | alcyoneus/core/ratelimit.py:240-251 | the reported remaining is exactly what the bucket still gives at that moment |
| TokenBucket.ResetIsFull | alcyoneus/core/ratelimit.py:263-267 | at the reset time reported with an admission the bucket is full, with or without expiry, if no call came between |
| TokenBucket.ResetAtIs | alcyoneus/core/ratelimit.py:263-267 | the reset time in units of the refill: what the reported remaining is short of the burst after an admission, or of the cost after a refusal; without a refill there is none |
| TokenBucket.TokenBucketRateLimiter.CheckLimit | alcyoneus/core/ratelimit.py:217-284 | one check is one run of the script on the key's live bucket; no other key changes |
| TokenBucket.TokenBucketRateLimiter.Reset | alcyoneus/core/ratelimit.py:292-295 | deleting the key gives a full bucket at every later moment and reports whether a live key was there |
| FixedWindow.CounterSurvivesItsWindow | alcyoneus/core/ratelimit.py:102-111 | to a pipeline whose clock reading lags within the margin, its window's counter is never lost to expiry and holds every cost asked for, refused or not |
| FixedWindow.DecisionIsExact | alcyoneus/core/ratelimit.py:111-131 | a call is admitted iff everything asked for in its window, itself included, fits the limit |
| FixedWindow.WindowIff | alcyoneus/core/ratelimit.py:98-100 | a moment is in window w iff it lies from w windows after the epoch up to the next |
| FixedWindow.WindowBound | alcyoneus/core/ratelimit.py:106-131 | in each window the admitted cost is at most the limit |
| FixedWindow.WindowBoundedIff | alcyoneus/core/ratelimit.py:98-111 | the window bound holds on all runs iff clock readings lag behind their pipelines by at most the margin of the expiry over the window |
| FixedWindow.LateCallerOverAdmits | alcyoneus/core/ratelimit.py:98-111 | with a longer lag a second caller finds its window's counter expired, and twice the limit is admitted in one window |
| FixedWindow.IntervalBound | alcyoneus/core/ratelimit.py:98-131 | any half-open interval as long as the window admits at most twice the limit |
| FixedWindow.IntervalBoundIsTight | alcyoneus/core/ratelimit.py:98-131 | twice the limit is reached on the two sides of a window's edge |
| FixedWindow.ResetGivesFreshWindow | alcyoneus/core/ratelimit.py:114-124 | the reported reset is after the call and at most a window away, and at that moment any cost within the limit is admitted |
| FixedWindow.ResetIsEarliest | alcyoneus/core/ratelimit.py:98-114 | no earlier moment is fresh: until the reported reset calls count on the same counter |
| FixedWindow.VerdictNumbers | alcyoneus/core/ratelimit.py:112-131 | the reported limit is the configured one, remaining is never negative, and zero with a refusal |
| FixedWindow.RemainingIsExact | alcyoneus/core/ratelimit.py:113-131 | after an admission, any cost up to the reported remaining is admitted at that moment and none above |
| FixedWindow.FixedWindowRateLimiter.CheckLimit | alcyoneus/core/ratelimit.py:102-131 | one check raises and compares only the current window's counter under its key |
| FixedWindow.FixedWindowRateLimiter.CurrentUsage | alcyoneus/core/ratelimit.py:133-136 | usage is the live counter of the current window |
| SlidingWindow.SetIsAdmittedLog | alcyoneus/core/ratelimit.py:151-193 | in sequential runs with distinct timestamps the set holds exactly the units admitted in the last window, in order, and the key outlives them |
| SlidingWindow.Refinement | alcyoneus/core/ratelimit.py:168-193 | every verdict, remaining included, is that of a limiter that keeps its whole admitted log and counts it |
| SlidingWindow.WindowBound | alcyoneus/core/ratelimit.py:151-193 | over a whole sequential run no window admits more than the limit, whatever the costs |
| SlidingWindow.DecisionIsExact | alcyoneus/core/ratelimit.py:151-193 | a check is admitted iff what was admitted in the window before it leaves room for its cost; limit and remaining follow from the same sum |
| SlidingWindow.QueryIsInvisible | alcyoneus/core/ratelimit.py:195-200 | the purge a usage query makes changes the outcome of no check or query that reads its clock at the same or a later moment |
| SlidingWindow.UsageIsRecent | alcyoneus/core/ratelimit.py:195-200 | a usage query counts exactly the units admitted in the last window |
| SlidingWindow.RollbackKeepsAdmittedIff | alcyoneus/core/ratelimit.py:173-175 | taking back a refused call leaves the admitted units alone iff none carries its timestamp |
| SlidingWindow.SharedStampOverAdmits | alcyoneus/core/ratelimit.py:173-175 | three calls at one moment admit twice the limit |
| SlidingWindow.RemainingIsExact | alcyoneus/core/ratelimit.py:168-193 | after an admission, any cost up to the reported remaining is admitted at that moment and none above |
| SlidingWindow.ResetEmptiesWindow | alcyoneus/core/ratelimit.py:171-193 | at the reported reset time nothing of the past counts, and any cost within the limit is admitted |
| SlidingWindow.SlidingWindowRateLimiter.CheckLimit | alcyoneus/core/ratelimit.py:151-193 | purge, count, add one entry per unit, renew the expiry, and on refusal roll back, on this key's set only |
| SlidingWindow.SlidingWindowRateLimiter.CurrentUsage | alcyoneus/core/ratelimit.py:195-200 | the query purges what left the window and counts the rest, leaving expiry and other keys alone |
| SlidingInterleaved.UninterruptedIsSequential | alcyoneus/core/ratelimit.py:156-175 | pipeline then rollback, undisturbed, is the sequential check |
| SlidingInterleaved.PipelineKeepsBound | alcyoneus/core/ratelimit.py:156-173 | an admitted check keeps every window within the limit whatever rollbacks are outstanding |
| SlidingInterleaved.SafeIff | alcyoneus/core/ratelimit.py:151-200 | on every interleaving with late or missing rollbacks, usage queries and key expiry no window exceeds the limit, iff checks run in timestamp order, no query of a later reading comes before them and no reading lags past the margin of the expiry over the window, or timestamps are distinct and nothing lags |
| SlidingInterleaved.ExpiryDropsOnlyDead | alcyoneus/core/ratelimit.py:158-165 | when the store drops the key, every entry is one that any later check would purge itself |
| SlidingInterleaved.StepCounts | alcyoneus/core/ratelimit.py:156-200 | how many entries with a given timestamp each step leaves: purges, checks, rollbacks by score and expiry; only a check renews the expiry |
| SlidingInterleaved.PendingIff | alcyoneus/core/ratelimit.py:156-175 | on every run a rollback is still to come exactly for the timestamps of refused checks not taken back since |
| SlidingInterleaved.LateCallerOverAdmits | alcyoneus/core/ratelimit.py:153-165 | with a longer lag an explicit legal run admits one unit more than the limit in one window |
| SlidingInterleaved.OvertakenCallerOverAdmits | alcyoneus/core/ratelimit.py:153-173 | under any lag, distinct timestamps whose pipelines run out of order admit twice the limit in one window while the key is alive |
| SlidingInterleaved.QueryOverAdmits | alcyoneus/core/ratelimit.py:151-200 | under any lag a usage query between two checks in timestamp order lets them admit twice the limit in one window |
| SlidingInterleaved.SharedStampOverAdmits | alcyoneus/core/ratelimit.py:153-175 | even without a lag a shared timestamp admits twice the limit |
| Quota.UsageIsAccepted | alcyoneus/core/multitenancy.py:278-300 | usage equals the amounts accepted since the last reset; refusals charge nothing |
| Quota.AcceptedIff | alcyoneus/core/multitenancy.py:100-129 | a request is accepted iff what was accepted since the last reset and its amount are within the limit configured for the resource, zero without an entry, and always if that limit is negative |
| Quota.FindLastReset | alcyoneus/core/multitenancy.py:131-140 | every history has a last reset or none, so the accounting covers every run |
| Quota.UsageWithinLimit | alcyoneus/core/multitenancy.py:123-129 | usage is never negative and never above a finite limit |
| Quota.ResetsApart | alcyoneus/core/multitenancy.py:131-140 | two resets are more than a period apart |
| Quota.ResetsIff | alcyoneus/core/multitenancy.py:131-140 | a request resets iff more than 3600 seconds, a day or thirty days have passed since the last reset, as the period is named; under any other name none does |
| Quota.TwiceTheLimit | alcyoneus/core/multitenancy.py:131-140 | any interval no longer than a period accepts at most twice a finite limit |
| Quota.WithinConfiguredLimit | alcyoneus/core/multitenancy.py:100-140 | the bounds on the configured number itself: usage is within it, and any interval no longer than a period accepts at most twice it |
| Quota.TwiceTheLimitIsTight | alcyoneus/core/multitenancy.py:131-140 | twice the limit is reached across the end of a period |
| Quota.TenantUsage.ResetIfNeeded | alcyoneus/core/multitenancy.py:131-140 | clears every counter and restarts the period iff the named period is over |
| Quota.TenantUsage.Increment | alcyoneus/core/multitenancy.py:119-121 | adds the amount to one counter and returns the new total |
| Quota.QuotaEnforcer.CheckAndIncrement | alcyoneus/core/multitenancy.py:278-300 | charges only the named tenant's account, after a due reset; unknown tenants and excess amounts are refused |
| QuotaFront.Conservation | alcyoneus/core/ratelimit.py:349-363 | in every interleaving a tenant's API usage plus what was in flight at its last reset is the cost the limiter has since admitted, the cost it refused after the quota took it, and what is in flight now |
| QuotaFront.AdmittedWithinQuota | alcyoneus/core/ratelimit.py:349-363 | what the limiter admits for a tenant since the last reset stays within its finite quota plus what was in flight at the reset |
| QuotaFront.BoundsAdmissionsIff | alcyoneus/core/ratelimit.py:349-363 | from a reset on no run admits more than the tenant's limit until the next, iff none of its cost is in flight at the reset |
| Distributed.LimiterSeesPassedCalls | alcyoneus/core/ratelimit.py:349-363 | in every interleaving of charges and executions the limiter's state is that of a limiter that only ever saw the calls the quota let through |
| Distributed.FrontIsRun | alcyoneus/core/ratelimit.py:349-363 | the quota's state is that of the quota alone, given the limiter's verdicts |
| Distributed.TwiceTheQuota | alcyoneus/core/ratelimit.py:349-363 | an explicit run from nothing in flight admits twice a tenant's limit between one reset and the next |
| Distributed.AdmitsAsAlone | alcyoneus/core/ratelimit.py:349-363 | behind the quota the limiter admits, on any selection of calls, exactly what it would admit alone |
| Distributed.BothBounds | alcyoneus/core/ratelimit.py:318-363 | under every algorithm and any interleaving of charges and executions the admitted cost obeys the tenant's quota and the limiter's own bound on each key at once, in numbers: the configured limit in a fixed window, the configured burst plus rate in an interval for the token bucket, the configured limit in a sliding window |
| SlidingBehindQuota.KeyIsRun | alcyoneus/core/ratelimit.py:349-363 | behind the quota each key's set is that of a limiter that only ever took this key's own checks, rollbacks, queries and expiries |
| SlidingBehindQuota.BothBounds | alcyoneus/core/ratelimit.py:151-200 | with lagging pipelines, late rollbacks, queries and expiry interleaved too, the quota and the limit in every sliding window hold at once, if the key's callers keep the order SafeIff asks for |
| Distributed.BucketsAreIndependent | alcyoneus/core/ratelimit.py:343-347 | each key's bucket is that of a limiter used for that key alone |
| Distributed.SetsAreIndependent | alcyoneus/core/ratelimit.py:343-347 | each key's sorted set is that of a limiter used for that key alone |
| Distributed.VerdictIsSingleKey | alcyoneus/core/ratelimit.py:343-363 | every verdict past the quota, limit and remaining included, is that of a token bucket or sliding window serving that key alone on the calls the quota let through |
| Distributed.FixedDecision | alcyoneus/core/ratelimit.py:318-363 | behind the quota the fixed window admits a call iff all that was asked for on its key in that window leaves room for it; limit and remaining follow from the same sum |
| Distributed.SlidingDecision | alcyoneus/core/ratelimit.py:318-363 | behind the quota the sliding window admits a call iff what was admitted on its key in the window up to it leaves room for it |
| Distributed.BucketDecision | alcyoneus/core/ratelimit.py:318-363 | behind the quota the token bucket refuses a call iff it exceeds the configured burst or would overdraw it since some earlier call on its key |
| Distributed.ExecutionIsCall | alcyoneus/core/ratelimit.py:343-363 | exactly the executed requests reach the limiter, each at its own cost and under the key that names its tenant, and the quota's run goes on with the limiter's verdict |
| Distributed.TenantsHaveOwnKeys | alcyoneus/core/ratelimit.py:343-347 | tenants with colon-free ids never share a limiter key |
| Distributed.LimiterKeysMeetIff | alcyoneus/core/ratelimit.py:343-347 | two tenants can meet under one limiter key iff one id continues the other past a colon or one of them is empty |
| Distributed.UnnamedKeyMeetsIff | alcyoneus/core/ratelimit.py:343-347 | a request that names no tenant meets some tenant's limiter key iff its key is spelt like one |
| Distributed.HigherPriorityCostsLess | alcyoneus/core/ratelimit.py:365-379 | up to priority 10 a higher priority is never charged more, priority 1 is charged the plain cost and priority 10 ten times that |
| Distributed.CostBracket | alcyoneus/core/ratelimit.py:375-377 | up to priority 10 the cost charged is the whole part of ten times the cost over 11 less the priority, and never below one |
| Distributed.DefaultCost | alcyoneus/core/ratelimit.py:365-377 | the default call, cost 1 at priority 5, is charged one unit |
| Distributed.BeyondLowestIsCheapest | alcyoneus/core/ratelimit.py:375-377 | a priority of 12 or more is charged one unit for any cost |
| Distributed.PriorityOrderIff | alcyoneus/core/ratelimit.py:365-379 | of two priorities the higher is never charged more, for any cost that is not negative, iff both are at most 10 or both at least 12 |
| Distributed.PriorityIsLenient | alcyoneus/core/ratelimit.py:365-379 | raising a request's priority never turns an admission into a refusal, under any algorithm |
| Distributed.DistributedRateLimiter.RunLimiter | alcyoneus/core/ratelimit.py:318-330 | the algorithm selects the limiter, the sliding window being the default, and only its keys change |
| Distributed.DistributedRateLimiter.ChargeQuota | alcyoneus/core/ratelimit.py:349-361 | a request naming a tenant is charged to it, unknown tenants and excess amounts are refused, and no limiter is touched |
| Distributed.DistributedRateLimiter.CheckLimit | alcyoneus/core/ratelimit.py:332-363 | the quota is charged first, and the limiter, which may have served any other calls meanwhile, is asked at a later clock reading; a request the quota refuses leaves the limiters untouched |
| TenantNamespace.MeetIff | alcyoneus/core/multitenancy.py:327-328 | two tenants can meet under one stored key iff one id continues the other past a colon |
| TenantNamespace.KeyIsInjective | alcyoneus/core/multitenancy.py:327-328 | for colon-free ids the stored key determines tenant and key |
| TenantNamespace.Isolation | alcyoneus/core/multitenancy.py:330-337 | any interleaving over the shared base shows each tenant its own private map |
| TenantNamespace.IsolatedIff | alcyoneus/core/multitenancy.py:327-337 | every read of every run is answered from the tenant's own past iff no two ids are nested |
| TenantNamespace.ColonFreeTenantsAreIsolated | alcyoneus/core/multitenancy.py:327-337 | colon-free tenants are isolated |
| TenantNamespace.ListingIsOwnKeys | alcyoneus/core/multitenancy.py:339-340 | a listing is exactly the tenant's own keys with the prefix, in stored form |
| TenantNamespace.TenantAwareCheckpointer.Put | alcyoneus/core/multitenancy.py:330-331 | writes the base under the tenant's key and nowhere else |
| TenantNamespace.TenantAwareCheckpointer.Get | alcyoneus/core/multitenancy.py:333-334 | answers with the base's value under the tenant's key |
| TenantNamespace.TenantAwareCheckpointer.Delete | alcyoneus/core/multitenancy.py:336-337 | removes the tenant's key from the base and nothing else |
| TenantNamespace.TenantAwareCheckpointer.List | alcyoneus/core/multitenancy.py:339-340 | lists the base keys under the tenant's prefix |
| Lineage.Search.Visit | alcyoneus/core/audit.py:600-607 | for any order in which sets iterate, the shared search visits exactly what the recursion says, within depth, lists registered nodes once, and closes over successors when the depth allows |
| Lineage.Search.Mark | alcyoneus/core/audit.py:603-605 | a first visit marks the vertex and appends its node iff it is registered |
| Lineage.DataLineageTracker.Query | alcyoneus/core/audit.py:618-632 | on any tracker, results are registered, distinct and within max_depth edges; with enough depth exactly the reachable registered nodes, cycles included |
| Lineage.DataLineageTracker.GetDownstream | alcyoneus/core/audit.py:618-632 | the same on the edges as they are |
| Lineage.DataLineageTracker.GetUpstream | alcyoneus/core/audit.py:596-616 | the same on the transposed edges, which it rebuilds |
| Lineage.DataLineageTracker.BuildReverseEdges | alcyoneus/core/audit.py:609-613 | the loops build exactly the transpose |
| Lineage.DataLineageTracker.AddEdge | alcyoneus/core/audit.py:589-594 | one edge is added and noted on its registered end points; what nodes list stays edges of the graph |
| Lineage.DataLineageTracker.RegisterNode | alcyoneus/core/audit.py:586-587 | files the node under its id; one without edges of its own keeps what nodes list edges of the graph |
| Lineage.VertexCountIsDeepEnough | alcyoneus/core/audit.py:596-632 | a max_depth of the vertex count less one is deep enough |
| Lineage.DepthConditionIsTight | alcyoneus/core/audit.py:600-607 | on a chain one edge less of depth makes every sound answer inexact |
| Lineage.DepthLimitMissesNearNodes | alcyoneus/core/audit.py:600-607 | short of that depth a stage within max_depth edges is missed or found depending on how a set iterates |
| Lineage.UpstreamIffDownstream | alcyoneus/core/audit.py:596-632 | for registered stages and deep enough queries a is upstream of b iff b is downstream of a |
| Lineage.TransposedReach | alcyoneus/core/audit.py:609-613 | reachability over the transposed edges is reachability backwards |
| KafkaSink.AtLeastOnceInOrder | alcyoneus/core/audit.py:364-383 | in every reachable state each written event is buffered or delivered, and first deliveries follow write order |
| KafkaSink.FinishCoversAll | alcyoneus/core/audit.py:374-381 | a flush that completes has delivered everything written before it clears |
| KafkaSink.StepKeepsInv | alcyoneus/core/audit.py:364-383 | every step keeps the broker's log a prefix of the writes, up to repetitions, that covers all that left the buffer |
| KafkaSink.LosesNothingIff | alcyoneus/core/audit.py:359-383 | no run loses an event iff flushes never overlap |
| KafkaSink.OverlapLosesAnEvent | alcyoneus/core/audit.py:375-381 | two overlapping flushes and one write between their clears lose that write |
| KafkaSink.KafkaAuditSink.Flush | alcyoneus/core/audit.py:369-383 | under any schedule of writes and failures a flush takes only steps of the model, ends in an emptied buffer unless a send raised, keeps the buffer then, and loses nothing |
| KafkaSink.KafkaAuditSink.SendOne | alcyoneus/core/audit.py:375-380 | one send moves the cursor or ends the flush, and the buffer keeps the event either way |
| KafkaSink.KafkaAuditSink.WriteEvent | alcyoneus/core/audit.py:364-367 | a write appends, and flushes iff it fills the batch |
| TaskManager.Bookkeeping | alcyoneus/utils/background_task_manager.py:77-157 | in every interleaving both registries agree, created = completed + cancelled + failed + tracked, and each counter counts exactly the tasks that ended its way |
| TaskManager.StepKeepsInv | alcyoneus/utils/background_task_manager.py:77-310 | every step keeps the books, the queued callbacks and the coverage of the shutdown |
| TaskManager.NothingLeaks | alcyoneus/utils/background_task_manager.py:123-131 | once nothing runs and no callback is left, nothing is tracked |
| TaskManager.TrackedIff | alcyoneus/utils/background_task_manager.py:77-131 | a task keeps the record it was created with and is tracked exactly until the manager's callback on it runs |
| TaskManager.OutcomeStands | alcyoneus/utils/background_task_manager.py:84-90 | a task ends once, and the way it ended stands |
| TaskManager.TimerIff | alcyoneus/utils/background_task_manager.py:89-116 | a task has a timer iff it was created with a timeout other than zero and the timer has not fired |
| TaskManager.TimeoutStopsTask | alcyoneus/utils/background_task_manager.py:104-116 | a timer that fires on a running task asks it to stop for good and is counted, and changes nothing else if the task has ended |
| TaskManager.TimeoutsAreCounted | alcyoneus/utils/background_task_manager.py:104-116 | the timeout counter counts exactly the timers that fired on tasks that still ran |
| TaskManager.AskedIff | alcyoneus/utils/background_task_manager.py:104-176 | a task was asked to stop iff some step did so while it ran: its timer, a cancellation, or a shutdown as it begins, when its wait times out or as it reports that |
| TaskManager.ShutdownLeaves | alcyoneus/utils/background_task_manager.py:245-310 | what a shutdown still tracks as it reports was created after it began, or has finished with its callback queued, and its count is right; after a timeout only the former |
| TaskManager.ShutdownLeavesOnlyLateIff | alcyoneus/utils/background_task_manager.py:245-310 | it leaves only tasks created after it began iff, at the gather, some tracked task still ran or all that was tracked came late |
| TaskManager.ShutdownLeavesNothingIff | alcyoneus/utils/background_task_manager.py:245-310 | with no task created after it began it leaves zero tasks iff, at the gather, nothing was tracked or some task still ran |
| TaskManager.ReportsIff | alcyoneus/utils/background_task_manager.py:245-310 | a shutdown reports iff nothing is tracked as it begins, nothing runs as it gathers, or all it waited for has ended, and reports completion iff its wait has not timed out |
| TaskManager.WaitEnds | alcyoneus/utils/background_task_manager.py:264-310 | a shutdown cannot be stuck: once what it awaits has ended and the callbacks have run it can report |
| TaskManager.FinishedTaskIsLeft | alcyoneus/utils/background_task_manager.py:261-287 | a task that ends in the loop turn in which the shutdown wakes is still tracked when completion is reported |
| TaskManager.ShutdownCancelsEverything | alcyoneus/utils/background_task_manager.py:159-173 | from the moment a shutdown begins, whatever still runs was asked to stop or came later |
| TaskManager.LaterShutdownsChangeNothing | alcyoneus/utils/background_task_manager.py:245-248 | from the report on, for the rest of every run, the report stands and later shutdowns change nothing |
| TaskManager.BackgroundTaskManager.CreateTask | alcyoneus/utils/background_task_manager.py:77-99 | registers, counts and, with a timeout, arms a timer |
| TaskManager.BackgroundTaskManager.FinishTask | alcyoneus/utils/background_task_manager.py:84-90 | queues the manager's callback ahead of the shutdown's |
| TaskManager.BackgroundTaskManager.TaskDoneCallback | alcyoneus/utils/background_task_manager.py:123-157 | drops the task from both registries and counts its outcome once |
| TaskManager.BackgroundTaskManager.RunNextCallback | alcyoneus/utils/background_task_manager.py:123-131 | runs the oldest queued callback |
| TaskManager.BackgroundTaskManager.TimeoutFires | alcyoneus/utils/background_task_manager.py:104-116 | cancels and counts a task that still runs, and does nothing otherwise |
| TaskManager.BackgroundTaskManager.RequestAll | alcyoneus/utils/background_task_manager.py:159-173 | asks exactly the tracked tasks that have not finished to stop |
| TaskManager.BackgroundTaskManager.CancelAll | alcyoneus/utils/background_task_manager.py:159-176 | asks what runs to stop and changes nothing else |
| TaskManager.BackgroundTaskManager.StartShutdown | alcyoneus/utils/background_task_manager.py:166-262 | the first shutdown marks the manager and cancels, or reports zero at once if nothing is tracked; a later one changes nothing |
| TaskManager.BackgroundTaskManager.GatherTasks | alcyoneus/utils/background_task_manager.py:264-269 | waits for exactly the tracked tasks that still run, and reports at once if there are none |
| TaskManager.BackgroundTaskManager.WaitTimesOut | alcyoneus/utils/background_task_manager.py:266-269 | the timeout of the wait asks the awaited tasks that still run to stop, and does not end the wait |
| TaskManager.BackgroundTaskManager.EndShutdown | alcyoneus/utils/background_task_manager.py:270-310 | once all awaited tasks have ended, reports the tracked tasks, and after a timeout asks those left to stop |
| Retry.RunWithRetries | alcyoneus/core/graph/node_execution_policy.py:191-218 | the loop's outcome is that of the first attempt that succeeds or may not be retried, after exactly the waits min(initial*factor^k, cap), and it never falls out at the end |
| Retry.Settled | alcyoneus/core/graph/node_execution_policy.py:201-207 | the settling attempt is the first that succeeds, fails unretryably or exhausts the retries |
| Retry.RetriedIff | alcyoneus/core/graph/node_execution_policy.py:196-207 | a further attempt is made iff all so far have failed, retries are left, and each failure is of a class listed as retryable or none is listed |
| Retry.WaitsGrow | alcyoneus/core/graph/node_execution_policy.py:208-217 | the first wait is the initial delay and each further one the last times the factor, until the cap is reached and kept |
| Retry.AttemptsAreBounded | alcyoneus/core/graph/node_execution_policy.py:196-201 | at most max_retries + 1 attempts, and one if retries are not positive |
| Retry.FirstSuccessWins | alcyoneus/core/graph/node_execution_policy.py:201-207 | the first success within the allowed retries is returned |
| Retry.RaisesOnlyWhenDone | alcyoneus/core/graph/node_execution_policy.py:204-207 | what is raised is the first unretryable failure or the last one allowed |
| Retry.TotalWaitIsBounded | alcyoneus/core/graph/node_execution_policy.py:208-217 | the waits add up to at most max_retries times the cap |
| NodePolicy.CacheInvariant | alcyoneus/core/graph/node_execution_policy.py:246-266 | on every interleaving the cache stays within max_entries and every entry is a stored successful output |
| NodePolicy.SetKeepsBound | alcyoneus/core/graph/node_execution_policy.py:261-266 | storing, overwrites included, never exceeds max_entries |
| NodePolicy.OldestGoesFirst | alcyoneus/core/graph/node_execution_policy.py:263-266 | eviction takes the oldest first: the entry at place p outlives the next p stores, whatever they store |
| NodePolicy.HitsAreFreshSuccesses | alcyoneus/core/graph/node_execution_policy.py:251-259 | every hit is a successful output for the same key stored no longer than ttl ago; handler results are never served |
| NodePolicy.TransparentIff | alcyoneus/core/graph/node_execution_policy.py:168-188 | the cache, shared by all nodes of one name, changes no answer of any interleaving iff inputs that share a key are answered alike without it |
| NodePolicy.DefaultKeyIff | alcyoneus/core/graph/node_execution_policy.py:291-298 | under a digest without collisions, executions with bar-free thread ids share a default key iff serialised state and thread id agree |
| NodePolicy.BarsCollide | alcyoneus/core/graph/node_execution_policy.py:291-298 | with a bar in a thread id two different executions share a default key |
| NodePolicy.DefaultKeyTransparentIff | alcyoneus/core/graph/node_execution_policy.py:168-188 | with the default key the cache is transparent iff answers depend on nothing but serialised state and thread id, neither on which node of the name runs nor on the rest of the configuration |
| NodePolicy.ExecuteWithPolicy | alcyoneus/core/graph/node_execution_policy.py:123-188 | a hit is returned as it is; otherwise the settling attempt decides: its value is returned and stored, its failure goes to the handler or is raised, and nothing is stored then |
| NodePolicy.MissRunsNode | alcyoneus/core/graph/node_execution_policy.py:168-238 | on every interleaving a miss is answered by the settling attempt: its value, what the handler makes of its failure, or the failure if there is none |
| NodePolicy.StoredIsFound | alcyoneus/core/graph/node_execution_policy.py:251-266 | until another output is stored a stored one is found by its key up to its time to live, whatever lookups come between |
| NodePolicy.LookupKeepsOthers | alcyoneus/core/graph/node_execution_policy.py:251-259 | a lookup removes nothing but an expired entry of its own key |
| NodePolicy.NodeCache.Lookup | alcyoneus/core/graph/node_execution_policy.py:251-259 | returns the entry unless it has expired, in which case it is dropped |
| NodePolicy.NodeCache.Put | alcyoneus/core/graph/node_execution_policy.py:261-266 | a full cache gives up its oldest entry, then the entry is written with its expiry |
| PersistentDict.WholeTargetRecovers | alcyoneus/storage/persistent_dict.py:75-97 | a power loss that falls back on any moment at which the target was whole recovers what the target held then, whatever texts not synced it loses |
| PersistentDict.PersistentDict.PowerLossRecoversPast | alcyoneus/storage/persistent_dict.py:75-97 | whatever a power loss leaves, a new dictionary holds something this one once held |
| PersistentDict.PersistentDict.SecuredIff | alcyoneus/storage/persistent_dict.py:85-97 | no power loss can lose the contents iff the file has held them at every moment since names were last synced |
| PersistentDict.PersistentDict.SettledIsSecured | alcyoneus/storage/persistent_dict.py:85-97 | a saved dictionary is secured once the directory is synced as well |
| PersistentDict.PersistentDict.AtomicWrite | alcyoneus/storage/persistent_dict.py:85-97 | every disk state of a save has the old target or the complete new one, its text synced and never written to in place; a failed save leaves the disk as it was, temporary file included |
| PersistentDict.PersistentDict.Save | alcyoneus/storage/persistent_dict.py:104-106 | memory and disk agree after a save iff it succeeded or the disk already held the contents; a save never secures contents the file did not hold before |
| PersistentDict.PersistentDict.Commit | alcyoneus/storage/persistent_dict.py:127-149 | memory changes first; a process stopped anywhere leaves the contents before or after, and after success they agree; changed contents are not secured |
| PersistentDict.PersistentDict.SetItem | alcyoneus/storage/persistent_dict.py:127-130 | sets one key and, with autosave, brings the disk along |
| PersistentDict.PersistentDict.DelItem | alcyoneus/storage/persistent_dict.py:132-135 | a missing key raises before anything is touched |
| PersistentDict.PersistentDict.ADelete | alcyoneus/storage/persistent_dict.py:166-171 | a missing key is ignored and the dictionary saved all the same |
| PersistentDict.PersistentDict.AUpdate | alcyoneus/storage/persistent_dict.py:193-200 | merges another mapping and, with autosave, brings the disk along |
| PersistentDict.PersistentDict.Clear | alcyoneus/storage/persistent_dict.py:146-149 | empties the dictionary and, with autosave, the disk |
| PersistentDict.PersistentDict.Load | alcyoneus/storage/persistent_dict.py:75-83 | reloading brings memory and disk together unless the file is missing or holds no object; on a file that is not text it raises and changes nothing |
| ProtectedSections.BodyOnlyRemembers | alcyoneus/utils/shutdown.py:62-90 | code inside a section changes nothing but what the section remembers, which becomes the last signal |
| ProtectedSections.InnerSectionHandsOn | alcyoneus/utils/shutdown.py:67-79 | an inner section hands its last signal to the enclosing one and restores the handlers |
| ProtectedSections.OutermostSection | alcyoneus/utils/shutdown.py:62-90 | leaving the outermost section restores the table and calls the original handler once, for the last signal, or not at all if none came |
| ProtectedSections.OriginalRunsIffCallable | alcyoneus/utils/shutdown.py:73-77 | the original handler runs iff it is a function; otherwise the call fails |
| ProtectedSections.ReentryNeverRestores | alcyoneus/utils/shutdown.py:62-71 | a section entered twice never restores the handlers |
| ProtectedSections.ReuseRepeatsSignal | alcyoneus/utils/shutdown.py:73-84 | a section used again repeats the signal of its first use |
| ProtectedSections.SignalRuntime.EnterSection | alcyoneus/utils/shutdown.py:62-65 | saves both handlers and installs the section's own |
| ProtectedSections.SignalRuntime.ExitSection | alcyoneus/utils/shutdown.py:67-79 | restores both handlers, then passes a remembered signal on |
| ProtectedSections.SignalRuntime.Call | alcyoneus/utils/shutdown.py:77-84 | a section's handler only remembers the signal and its frame |
| ProtectedSections.SignalRuntime.Execute | alcyoneus/utils/shutdown.py:240-247 | a protected section is a new object entered and left around its code |
| StrictSchema.StrictAcceptsIff | alcyoneus/utils/schema.py:24-33 | the strict schema accepts exactly the documents the original accepts that have no undeclared key at an object position reached through properties |
| StrictSchema.StrictOnlyNarrows | alcyoneus/utils/schema.py:24-33 | every document the strict schema accepts is accepted by the original |
| StrictSchema.StrictIsStrict | alcyoneus/utils/schema.py:27-32 | every object schema reached through properties forbids undeclared keys afterwards |
| StrictSchema.UnchangedIffStrict | alcyoneus/utils/schema.py:24-33 | a schema is left as it is iff it is strict already |
| StrictSchema.StrictIsIdempotent | alcyoneus/utils/schema.py:24-33 | the transformation is idempotent |
| StrictSchema.LeftoverIsStillGood | alcyoneus/utils/schema.py:26-32 | the caller's partly rewritten schema gives the same strict schema again |
| StrictSchema.LeftoverAcceptsIff | alcyoneus/utils/schema.py:26-32 | the caller's partly rewritten schema accepts exactly what the original accepts that has no undeclared keys below its properties; at the root it is as open as before |
| StrictSchema.ObjectSchemasAcceptObjects | alcyoneus/utils/schema.py:27-29 | what an object schema accepts is an object, so nothing else is tightened |
| StrictSchema.EnsureStrict | alcyoneus/utils/schema.py:24-33 | the loop over the properties computes the strict schema and, through the shallow copy, rewrites the caller's properties mapping |

## Left out

- `retry_after`, and the meaning of `reset_at` where the token bucket refuses (TokenBucket.ResetAtIs gives its number): estimates that may be negative.
- The limiter cache of `DistributedRateLimiter`: one configuration per limiter; its key ignores burst and refill rate.
- Negative costs and amounts in the fixed window, quota and two-layer bounds, and in TokenBucket.IntervalBound, which are stated for costs that are not negative; the other sliding window and token bucket results take any cost.
- The tier table of `TenantQuota`, tenant roles and the registry's other methods: limits are a parameter.
- Distributed.BothBounds: the limiter reads its clock and runs as one step, on a clock that never goes back; for the sliding window SlidingBehindQuota.BothBounds separates the two, and for the others their own modules treat the lag.
- Resetting a limiter by hand, which forgets what was admitted on purpose.
- TenantNamespace.TenantAwareCheckpointer.Put: the store wrapper `TenantAwareStore` maps keys the same way and its search is not modelled.
- Lineage.DataLineageTracker.Query: with less than enough depth only soundness and the exact course of the search are stated, since Lineage.DepthLimitMissesNearNodes shows that near stages may be missed.
- The identity of lineage node objects: nodes are values in the tracker's map.
- Kafka client start-up, serialisation and the periodic flush's timer; the file and Elasticsearch sinks.
- Task names, ages and logging; `wait_for_all`; exceptions that are neither cancellations nor ordinary failures.
- TaskManager.BackgroundTaskManager.WaitTimesOut: the event loop may let the timeout strike at any moment of the wait, which includes every moment at which it really does.
- TaskManager.BackgroundTaskManager.GatherTasks: follows `asyncio.gather` of Python 3.12, the oldest the project allows (pyproject.toml:62).
- Exceptions from a cache key function, and cancellation of a node between attempts; a timeout of an attempt is one of its failures.
- The table of caches by node name, and its clearing.
- PersistentDict.PersistentDict.AtomicWrite: a temporary file left by a crash stays behind, as in the program; the target is replaced in one operation, and a power loss undoes changes of names from the last one on, as a journaling file system does.
- The opening of a file that is not text, which raises, so that there is no dictionary to speak of; and a file that is there but cannot be read, which loads as empty.
- ProtectedSections.SignalRuntime.ExitSection: the handlers that were replaced were installed from Python or are the default ones; any other one is reported as none, and restoring it raises (alcyoneus/utils/shutdown.py:71). No signal is delivered between the restoring of the handlers and the passing on of the remembered one.
- ProtectedSections.SignalRuntime.EnterSection: no signal is delivered between the installing of the two handlers (alcyoneus/utils/shutdown.py:64).
- Section objects are named by numbers instead of being references.
- `function_schema`, and schema keywords other than the three named.
- Sharing of one properties mapping between several schemas.
- Floating-point rounding.
