# uRouter: a verified model

uRouter is a gateway that routes requests for language models. This project models its
hardest state machines and algorithms in Dafny and proves what they promise: the quota,
budget, binding and circuit protocols over whole runs and across their two storage
backends; the fallback graph searches; the streaming translator; the canonical JSON
printer; endpoint templates; weighted selection; and the date and duration arithmetic.

`dafny verify dfyconfig.toml` checks everything.

## How it is organised

**Multi-scope quota ledger.** `QuotaPlanning` plans and evaluates the charges of a
request, `CounterKeys` has the names of the counters. `QuotaBook` is the reference: every
entry ever charged, nothing pruned. `MemoryQuota` with `MemoryQuotaLedger` (queues, maps
and loops) and `RedisQuota` with `RedisQuotaLedger` (the passes of the Lua scripts, key
expiry included) each keep that book up to date and answer from it. `QuotaRuns` proves
the bounds per window and in flight over every interleaving of calls, `QuotaLimits` when
a minute or day counter stays within its limit, `QuotaDecisions` the whole answer of a
reservation in terms of the calls before it, `QuotaBackends` that each backend answers as
its reference although they mint different tokens, and `QuotaForgetting` when the two
references agree.

**Tenant guard, budget, bindings, circuits.** `TenantQuota`, `TenantQuotaMemory`,
`TenantQuotaRedis` and `TenantQuotaRuns` treat the guard whose queues are shared by all
tenants in the same way, with `TenantTokenLimit` on its token limit, `TenantLeases` on
permits that lapse and `TenantBackends` on the two backends; so do `Budget`, `BudgetRedis`
and `BudgetRuns` for spending. `Bindings` and `BindingRuns` model the fenced FIFO store of
task bindings. `Circuits`, `CircuitRuns` and `CircuitTargets` model the shared circuit
breaker's Lua scripts and their runs. `TenantDecisions`, `BudgetDecisions`,
`BindingDecisions` and `CircuitDecisions` state what each of them answers in terms of the
calls alone.

**Graphs and selection.** `Graphs` has paths, reachability and cycles.
`RouteValidation` is the three-colour search over an array of states, `FallbackPlan` and
`FallbackPlanner` the depth-bounded planner, `FallbackOrder` the order of its plans.
`DeploymentSelection` and `CapacityLease` are weighted selection and the picker in front
of it.

**Text and arithmetic.** `ChatTranslation`, `SseStream` and `SseTranslator` are the
event translation, the line and event structure of a stream, and the buffer loop.
`SseReading` reads written streams back, and `ChatMeaning` states what a client is told;
`CarriageReturns` and `SseChunks` tell for which texts the chunks make a difference.
`CanonicalJson`, `EndpointTemplates` with `EndpointFilling`, `Durations` and `Calendar`
are the printer, the template compiler, the duration parser and the day formula;
`JsonReading` and `DurationTexts` read back what is printed.

`Results`, `Sets`, `Sums`, `Sorting`, `StringOrder`, `Sequences`, `Whitespace` and
`Arithmetic` are shared.

Code that updates state in the repository is a class or a method here, proved against a
function of the old state; the theorems are about those functions and about runs, which
are sequences of calls of any length and order.

## What the proofs found

- The two quota backends decide alike on every run, but the observation returned with a
  *grant* differs when an in-flight limit counts tokens: memory reports one more permit,
  the script adds the amount. `QuotaBackends.GrantObservationsAgree` gives the exact
  condition, `InFlightTokenLimitDiverges` an instance.
- Fallback planning does not reach every tier within its depth: a tier first met at the
  end of a long chain is never expanded again. `FallbackPlanner.ValidRouteMissesATier`
  shows it on routes that validation accepts; `FallbackPlanner.PlannerDepthThreshold`
  states for which depths every tier is reached, on all such lists of a given size.
- `MemoryBudgetRepository::settle` stores the amount before it looks for the reservation
  (crates/urouter-gateway/src/budget.rs:204). `Budget.WhenSettleConserves` states exactly
  when the totals stay right, `BudgetRuns.WhenMemoryFollows` exactly when the two backends
  go on answering alike; `Budget.LateSettleFreesOthers` and `BudgetRuns.LateRunParts` show
  what a late settlement does.
- With two snapshots of one id the picker can exclude both
  (`CapacityLease.DuplicateIdsEmptyGroup`); route validation rejects such routes, and
  with unique ids the group is never emptied (`CapacityLease.PickerKeepsGroup`).
  `CapacityLease.WhenPickerKeepsGroup` is the exact condition.
- `remove` on a session binding raises the generation of a task that has the binding's
  key as its name, so it fences nothing of its own
  (`BindingRuns.RemoveFencesOwnTaskOnly`), and it can leave a stored binding with an
  outdated generation (`BindingRuns.RemoveKeepsCurrent` states exactly when,
  `BindingRuns.OutdatedIsReached` gives a run).
- A day past the end of its month, such as 30 February, passes the date guard and is read
  as a day of the next month (`Calendar.OverlongDayIsAccepted`).
- Cutting a fraction after nine digits can cost a millisecond, in minutes and in hours
  (`Durations.TruncationIsReached`). The comment at
  crates/urouter-contracts/src/backoff.rs:370-371 says that further digits make no
  difference; that holds for all decimals exactly in seconds and milliseconds
  (`Durations.UnitsThatLoseNothing`), and for one decimal exactly as
  `Durations.WhenTruncationLoses` states. The model follows the code.
- Settling more tokens than were reserved is not checked against the limit. The limit
  survives for certain exactly when a live charge is settled at no more than its
  reservation, or a lapsed one at zero (`TenantTokenLimit.WhenSettlingKeepsLimit`,
  `WhenLateSettlingKeepsLimit`); over whole runs, exactly when each settlement fits
  (`WhenRunKeepsLimit`, likewise in `QuotaLimits` for the scoped ledger and `BudgetRuns`).
- In-flight permits of a tenant lapse in Redis and never in memory. The two guards give
  the same verdicts exactly until one rests on lapsed permits
  (`TenantBackends.BackendsAgree`; `TenantBackends.LapsedDecideIsReached` gives a run).
- The keys of a day counter are forgotten two days after its latest grant
  (`RedisQuota.WhenDayIsForgotten`), which no plan executed on its day or the next can
  notice (`QuotaForgetting.TimelyRunsRemember`). `QuotaForgetting.WhenAnswersPart` states
  exactly when a run notices, `ForgettingIsReached` gives one.
- An endpoint variable whose value is itself a hole is filled a second time when its own
  variable comes later (`EndpointFilling.ValueWithHoleIsFilledAgain`), and so is a hole
  that two inserted values make together. `EndpointFilling.WhenLastIsFilled` and
  `EndpointFilling.WhenOrderMatters` state exactly which values do this.
- The translator drops carriage returns behind an event only if they have arrived by then,
  so one right in front of a field hides it or not, depending on the chunks
  (`SseChunks.ChunksPart`). `SseChunks.WhenChunksMatter` and
  `SseChunks.WhenOutputDependsOnChunks` state exactly for which texts the chunks matter,
  `CarriageReturns.WhenCarriageReturnHides` exactly which lines can be hidden.
- A `[DONE]` before any chunk produces a message that never started;
  `ChatTranslation.AnthropicStreamIsWellFormed` is an equivalence for that reason.
- A stream whose first chunk has an empty id starts under that empty id, and a Responses
  client is later told that another one, the first that is not empty, is complete
  (`ChatMeaning.StartIsExact`, `ChatMeaning.DoneIsExact`).

## Assumptions

Each locked section and each Lua script is one atomic step. Times given to a store never
decrease, as the source's queues need. Integers are unbounded where the source saturates
or where Lua stays below 2^53; 64-bit limits that the source checks explicitly are kept
(weights, dates, durations). SHA-256 of a key is taken to be injective. Tokens are fresh:
one client mints ledger tokens, and a token is not issued again while it is in use.
The JSON parser rejects the empty text.
Configured limits have unique (scope, window, dimension) triples, which route validation
enforces.

## Model

| member | source | states |
|---|---|---|
| RouteValidation.CauseChainIsValidated | crates/urouter-core/src/lib.rs:78-89 | every tier on the chain of a failure cause is among the edges that validation checks |
| RouteValidation.ChainIsOwnOrDefault | crates/urouter-core/src/lib.rs:78-84 | the chain of a cause with an entry is that entry, of any other cause the default one |
| RouteValidation.EdgesAreChains | crates/urouter-core/src/lib.rs:85-89 | the edges that validation checks are those of the chains and no others |
| RouteValidation.VisitFallback | crates/urouter-core/src/lib.rs:1174-1192 | the colour search: on success the tier is finished, only finished colours were added and finished tiers lie on no cycle; an error names a tier on a real cycle |
| RouteValidation.VisitFallbacksOf | crates/urouter-core/src/lib.rs:1186-1190 | the recursion over the fallbacks of a tier on the current path keeps the search invariant |
| RouteValidation.CheckFallbacksKnown | crates/urouter-core/src/lib.rs:1155-1166 | accepts exactly when every fallback names a tier; an error names a missing one that some tier points to |
| RouteValidation.SearchAllTiers | crates/urouter-core/src/lib.rs:1167-1172 | with one shared colouring, accepts exactly the acyclic graphs |
| RouteValidation.ValidateFallbacks | crates/urouter-core/src/lib.rs:1154-1172 | on uniquely named tiers, accepts exactly when all fallbacks are known and the graph has no cycle; a reported cycle tier lies on a cycle |
| FallbackPlan.PlanIsSound | crates/urouter-contracts/src/tier.rs:25-91 | at any depth a plan starts with the selected tier, repeats nothing and stays within the depth; an error names a reachable defect |
| FallbackPlan.SelectedComesFirst | crates/urouter-contracts/src/tier.rs:70-73 | the selected tier leads every plan |
| FallbackPlan.PlanTierExtends | crates/urouter-contracts/src/tier.rs:54-91 | visiting a tier keeps what was planned and adds only known tiers within the remaining edges |
| FallbackPlan.PlanTierErrors | crates/urouter-contracts/src/tier.rs:63-69 | an error of a visit is justified: the unknown tier is reachable, the cycle closes the current path |
| FallbackPlan.PlanTierSearches | crates/urouter-contracts/src/tier.rs:54-91 | when the path and the remaining edges cover all tiers, a visit finishes everything below its tier |
| FallbackPlan.DeepPlanIsReachability | crates/urouter-contracts/src/tier.rs:25-91 | at a depth of at least the tier count, planning succeeds exactly without a reachable defect and plans exactly the reachable tiers |
| FallbackOrder.PlanIsFirstSight | crates/urouter-contracts/src/tier.rs:25-91 | whenever the depth ends no walk early, planning reports the first defect that one walk through everything below the selected tier comes upon, and otherwise plans every tier in the order in which that walk first comes upon it |
| FallbackOrder.DeepIsUncut | crates/urouter-contracts/src/tier.rs:54-91 | a depth of at least the number of tiers ends no walk early, on any graph |
| FallbackOrder.ShallowIsUncut | crates/urouter-contracts/src/tier.rs:54-91 | nor does a depth that no walk exceeds |
| FallbackPlan.CycleReportIsExact | crates/urouter-contracts/src/tier.rs:63-65 | at such a depth, with all names known, a cycle is reported exactly when one is reachable |
| FallbackPlan.ShallowPlanIsReachability | crates/urouter-contracts/src/tier.rs:25-91 | on any one graph whose walks from the selected tier are no longer than the depth, a plan has exactly the reachable tiers |
| FallbackPlan.PlanOnSoundGraph | crates/urouter-contracts/src/tier.rs:25-91 | on an acyclic graph with known names planning succeeds at every depth |
| FallbackPlan.DetourMissesATier | crates/urouter-contracts/src/tier.rs:70-76 | for every depth from 2 and every larger graph, an acyclic graph with known, non-empty names on which planning succeeds and leaves out a tier two edges away |
| FallbackPlan.DepthThreshold | docs/gateway-m0.md:229-231 | planning covers every tier within the depth on all acyclic graphs of n known, non-empty names exactly when the depth is at most 1 or at least n - 1; the document counts edges |
| FallbackPlanner.Planner.AppendPlannedTier | crates/urouter-contracts/src/tier.rs:54-91 | the recursive method that updates the three sets computes the specification visit, errors included |
| FallbackPlanner.PlanFallbackTiers | crates/urouter-contracts/src/tier.rs:25-52 | with accepted names the answer is the plan of the described graph; otherwise the first empty or repeated name is reported |
| FallbackPlanner.IndexSpecs | crates/urouter-contracts/src/tier.rs:30-38 | the name index, or the first rejected name |
| FallbackPlanner.ValidatedRoutePlans | crates/urouter-core/src/lib.rs:1154-1192 | on a route that validation accepts, planning over any subset of its edges never fails |
| FallbackPlanner.CausePlanNeverFails | crates/urouter-core/src/lib.rs:78-89 | in particular planning over the chain of any one failure cause |
| FallbackPlanner.DetourRouteIsValid | crates/urouter-core/src/lib.rs:1154-1192 | the graph of the detour is a route that validation accepts: non-empty unique names, known fallbacks, no cycle |
| FallbackPlanner.ValidRouteMissesATier | crates/urouter-contracts/src/tier.rs:25-52 | on that valid route, for the chain of any failure cause, the planner accepts the tiers and its plan misses one that is two edges away |
| FallbackPlanner.PlannerDepthThreshold | docs/gateway-m0.md:229-231 | the same threshold over the lists of tiers the planner is given: exact on all lists with accepted names, known fallbacks and no cycle |
| QuotaPlanning.PlanQuotaCharges | crates/urouter-contracts/src/quota.rs:253-304 | the loop and the sort compute the planned charges, which are exactly those that the limits ask for, in the precedence of scopes, windows and dimensions |
| QuotaPlanning.PlanIsExact | crates/urouter-contracts/src/quota.rs:253-304 | a charge is in the plan exactly when a limit that is set asks for it: the first scope of its kind, its window and dimension, its day, and as amount the estimated tokens or one, if positive |
| QuotaPlanning.PlanIsInPrecedence | crates/urouter-contracts/src/quota.rs:297-299 | the plan is sorted by scope from tenant to deployment, then by window from in-flight to day, then by dimension from concurrency to tokens |
| QuotaPlanning.ResetIsNextRoom | crates/urouter-contracts/src/quota.rs:214-224 | a daily counter resets at the end of its day and says zero after it, any other a window from now |
| QuotaPlanning.DayResetsAtMidnight | crates/urouter-contracts/src/quota.rs:214-224 | a planned daily charge resets at the next multiple of 86400000 milliseconds |
| QuotaPlanning.RankIsInjective | crates/urouter-contracts/src/quota.rs:144-156 | the order key of a limit tells its (scope, window, dimension) triple |
| QuotaPlanning.PlanIsStrict | crates/urouter-contracts/src/quota.rs:297-299 | with unique triples the plan is strictly ordered, so no counter is charged twice |
| QuotaPlanning.PlanIgnoresLimitOrder | crates/urouter-contracts/src/quota.rs:295-299 | the order of the configured limits changes neither the plan nor the rejection precedence |
| QuotaPlanning.Duplicates | crates/urouter-contracts/src/quota.rs:144-156 | reports exactly the limits that repeat an earlier triple, in the configured order; none exactly when all triples are unique |
| QuotaPlanning.EvaluateQuotaPlan | crates/urouter-contracts/src/quota.rs:393-417 | admitted exactly when every charge fits on what is observed; otherwise the first breach in plan order |
| QuotaPlanning.EvaluationIsFirstBreach | crates/urouter-contracts/src/quota.rs:397-405 | on a plan's own observation each charge is judged by its own counter's usage |
| QuotaPlanning.ResetAt | crates/urouter-gateway/src/scoped_quota.rs:728-741 | a refusal carries the reset time of the counter that refused |
| CounterKeys.CounterKeyIsInjective | crates/urouter-gateway/src/scoped_quota.rs:157-171 | different counters have different keys, although a scope id may be any string |
| CounterKeys.KeySpells | crates/urouter-gateway/src/scoped_quota.rs:157-171 | a key spells the kind of scope, the id, the window, the dimension and the day, separated by colons |
| CounterKeys.DecimalIsRead | crates/urouter-gateway/src/scoped_quota.rs:164 | a day bucket is written in decimal |
| CounterKeys.DecimalIsInjective | crates/urouter-gateway/src/scoped_quota.rs:165-169 | different day buckets are written differently |
| QuotaBook.PlannedIsExecutable | crates/urouter-contracts/src/quota.rs:253-304 | every planned set of charges is one the ledgers accept |
| QuotaBook.ChargeAllAt | crates/urouter-gateway/src/scoped_quota.rs:326-362 | charging a plan adds to each charged counter its own entry and nothing else |
| MemoryQuotaLedger.MemoryLedger.Prune | crates/urouter-gateway/src/scoped_quota.rs:238-262 | pruning leaves in the store exactly what is still live, for every counter, and forgets nothing that counts |
| MemoryQuotaLedger.MemoryLedger.Observe | crates/urouter-gateway/src/scoped_quota.rs:264-296 | the observation reports the store's counters in plan order |
| MemoryQuotaLedger.MemoryLedger.Decide | crates/urouter-gateway/src/scoped_quota.rs:315-323 | the verdict is the first breach of what is used |
| MemoryQuotaLedger.MemoryLedger.Reserve | crates/urouter-gateway/src/scoped_quota.rs:301-368 | the answer is the reference's; a grant charges the whole plan, a refusal charges nothing |
| MemoryQuotaLedger.MemoryLedger.Grant | crates/urouter-gateway/src/scoped_quota.rs:325-362 | all charges of an admitted plan are recorded under one fresh token |
| MemoryQuotaLedger.MemoryLedger.Settle | crates/urouter-gateway/src/scoped_quota.rs:370-404 | token charges that still exist take the actual amount, all others stay |
| MemoryQuotaLedger.MemoryLedger.Release | crates/urouter-gateway/src/scoped_quota.rs:406-432 | the permits of the token are given back, nothing else changes |
| MemoryQuota.PrunedSlotReportsUsage | crates/urouter-gateway/src/scoped_quota.rs:264-296 | in a pruned store a counter reports exactly the live usage of the reference |
| MemoryQuota.PopKeepsSlot | crates/urouter-gateway/src/scoped_quota.rs:247-260 | popping a lapsed entry keeps queue, amounts and total consistent and never subtracts more than the total |
| MemoryQuota.PushKeepsSlot | crates/urouter-gateway/src/scoped_quota.rs:342-352 | a recorded charge keeps the queue sorted and duplicate-free, its tokens those of the amounts, and the total their sum |
| MemoryQuota.RetainLiveOk | crates/urouter-gateway/src/scoped_quota.rs:239-242 | ageing out permits drops exactly the expired leases |
| MemoryQuota.ApplyAllGains | crates/urouter-gateway/src/scoped_quota.rs:326-363 | after a grant each counter reports its own gain |
| MemoryQuota.SettleOneOk | crates/urouter-gateway/src/scoped_quota.rs:396-401 | settling keeps the total equal to the sum of the amounts |
| MemoryQuota.ReleaseOneOk | crates/urouter-gateway/src/scoped_quota.rs:419-426 | releasing keeps the store consistent with the reference |
| RedisQuotaLedger.RedisLedger.Expire | crates/urouter-gateway/src/scoped_quota.rs:498-510 | dropping keys after their deadline leaves exactly what the reference keeps: everything that counts, but for day counters two days after their latest grant |
| RedisQuotaLedger.RedisLedger.PruneAndRead | crates/urouter-gateway/src/scoped_quota.rs:453-476 | the first pass reads the usage of every counter |
| RedisQuotaLedger.RedisLedger.Decide | crates/urouter-gateway/src/scoped_quota.rs:478-486 | the second pass finds the first breach before anything is written |
| RedisQuotaLedger.RedisLedger.ApplyCharges | crates/urouter-gateway/src/scoped_quota.rs:488-512 | the third pass charges the whole plan |
| RedisQuotaLedger.RedisLedger.Reserve | crates/urouter-gateway/src/scoped_quota.rs:593-664 | the answer is that of the reference with what is kept; a refusal charges nothing |
| RedisQuotaLedger.RedisLedger.Settle | crates/urouter-gateway/src/scoped_quota.rs:517-531 | the settle script does what the reference's settle does to what is kept |
| RedisQuotaLedger.RedisLedger.Release | crates/urouter-gateway/src/scoped_quota.rs:535-542 | the release script does what the reference's release does to what is kept |
| RedisQuota.PrunedSlotReportsUsage | crates/urouter-gateway/src/scoped_quota.rs:461-475 | a pruned sorted set and total report exactly the live usage |
| RedisQuota.PrunedSlotOk | crates/urouter-gateway/src/scoped_quota.rs:464-471 | forgetting lapsed members keeps the total equal to the sum of the hash |
| RedisQuota.AppliedSlotOk | crates/urouter-gateway/src/scoped_quota.rs:498-510 | a written charge keeps set, hash and total consistent |
| RedisQuota.ExpireKeysOk | crates/urouter-gateway/src/scoped_quota.rs:498-510 | keys that pass their deadline are exactly those whose entries the reference no longer keeps |
| RedisQuota.WhenDayIsForgotten | crates/urouter-gateway/src/scoped_quota.rs:505-510 | the keys of a day counter are kept for two days after its latest grant, and they report the reference's usage exactly that long, or when there is none |
| QuotaRuns.BookIsHistory | crates/urouter-gateway/src/scoped_quota.rs:301-432 | the entries of a minute or day counter for requests are exactly the granted calls, each with its own window |
| QuotaRuns.AtMostLimitPerWindow | crates/urouter-gateway/src/scoped_quota.rs:301-368 | no sixty seconds, wherever they end, contain more grants than the limit, for every interleaving of calls |
| QuotaRuns.SlotsAreCalls | crates/urouter-gateway/src/scoped_quota.rs:326-341 | the entries of an in-flight counter are exactly the calls granted and not given back, each until the end of its own lease |
| QuotaRuns.AtMostLimitInFlight | crates/urouter-gateway/src/scoped_quota.rs:301-432 | at no moment are more calls running, granted, not given back and within their lease, than the limit allows |
| QuotaLimits.AtMostLimitPerDay | crates/urouter-gateway/src/scoped_quota.rs:301-368 | no day contains more grants than its limit, for every interleaving of calls |
| QuotaLimits.SettlingMovesUsage | crates/urouter-gateway/src/scoped_quota.rs:370-404 | settling moves the usage of a token counter by the difference to what counted, or not at all |
| QuotaLimits.WhenRunKeepsLimit | crates/urouter-gateway/src/scoped_quota.rs:301-432 | a minute or day counter is within its limit after every call of a run exactly when every settlement on it fits what the others use |
| QuotaLimits.LoweringKeepsLimit | crates/urouter-gateway/src/scoped_quota.rs:370-404 | so no run that settles at most what it reserved passes the limit, at any later moment either |
| QuotaDecisions.ChargesAreCalls | crates/urouter-gateway/src/scoped_quota.rs:301-432 | an entry is held exactly by the call that was granted it, with its latest settlement or its own amount, until it is released |
| QuotaDecisions.UsageIsCalls | crates/urouter-gateway/src/scoped_quota.rs:301-432 | the usage of a counter is the sum, or in flight the number, of the calls that still count |
| QuotaDecisions.RequestsAreCounted | crates/urouter-gateway/src/scoped_quota.rs:301-368 | for requests it is the number of calls granted in the window |
| QuotaDecisions.GrantsAreAnswers | crates/urouter-gateway/src/scoped_quota.rs:301-368 | the calls that count are those answered with a grant |
| QuotaDecisions.DecisionIsExact | crates/urouter-gateway/src/scoped_quota.rs:301-368 | over runs, in terms of the calls: the whole answer of a reservation, granted exactly when every charge fits on what the calls before still use, else the first charge that does not, with all observations and the reset |
| QuotaBackends.RenamedUsage | crates/urouter-gateway/src/scoped_quota.rs:264-296 | usage does not depend on what the tokens are called |
| QuotaBackends.RunMemory | crates/urouter-gateway/src/scoped_quota.rs:301-432 | on every run the memory ledger answers as the reference run |
| QuotaBackends.RunRedis | crates/urouter-gateway/src/scoped_quota.rs:446-542 | on every run the scripts, with their own tokens, answer as the reference run on which day counters age out |
| QuotaForgetting.BackendsAgree | crates/urouter-gateway/src/scoped_quota.rs:238-542 | each backend answers as its reference; on every run that charges no day counter two days after its latest grant: same verdict, same first breach with the same reset time, same usage on refusal, and equal answers when in-flight charges count permits |
| QuotaForgetting.WhenAnswersPart | crates/urouter-gateway/src/scoped_quota.rs:505-510 | on any run, at its first call that charges a forgotten day counter, Redis answers as the reference exactly when nothing is left on any such counter |
| QuotaForgetting.WhenRedisRemembers | crates/urouter-gateway/src/scoped_quota.rs:505-510 | on runs that settle positive amounts Redis answers as the reference throughout exactly when no call charges a forgotten day counter |
| QuotaForgetting.ForgettingIsReached | crates/urouter-gateway/src/scoped_quota.rs:505-510 | a run of two calls on which the reference refuses and Redis grants |
| QuotaForgetting.TimelyRunsRemember | crates/urouter-gateway/src/scoped_quota.rs:505-510 | no run whose daily charges are executed on their own day or the day after charges a forgotten day counter |
| QuotaBackends.GrantObservationsAgree | crates/urouter-gateway/src/scoped_quota.rs:511-513 | the observations returned with a grant agree exactly when every in-flight charge has amount one |
| QuotaBackends.InFlightTokenLimitDiverges | crates/urouter-gateway/src/scoped_quota.rs:511-513 | an in-flight limit on tokens for which they differ |
| TenantQuotaMemory.TenantGuard.PruneRequests | crates/urouter-gateway/src/quota.rs:203-217 | the shared queue keeps exactly the history's unexpired end and the counts are its occurrences |
| TenantQuotaMemory.TenantGuard.PruneTokens | crates/urouter-gateway/src/quota.rs:219-237 | popping lapsed charges keeps every tenant's total equal to the sum of its amounts |
| TenantQuotaMemory.TenantGuard.Reserve | crates/urouter-gateway/src/quota.rs:282-358 | the three checks in order on live permits, requests and tokens; a refusal records nothing |
| TenantQuotaMemory.TenantGuard.Settle | crates/urouter-gateway/src/quota.rs:360-390 | a live charge is corrected in place, a lapsed one enters the window once more with a fresh minute |
| TenantQuotaMemory.TenantGuard.Release | crates/urouter-gateway/src/quota.rs:392-404 | the permit is dropped, and the tenant with its last permit |
| TenantQuotaMemory.PrunedQueueCountsLive | crates/urouter-gateway/src/quota.rs:301-305 | after pruning a tenant's count is its number of grants in the last minute |
| TenantQuotaMemory.PrunedAmountsAreLive | crates/urouter-gateway/src/quota.rs:309-318 | after pruning the counted amounts are exactly the live charges |
| TenantQuotaMemory.PushKeepsTokenQueue | crates/urouter-gateway/src/quota.rs:383-387 | a key enters the queue only once, behind all earlier ends |
| TenantQuotaMemory.PopKeepsCounts | crates/urouter-gateway/src/quota.rs:209-215 | lowering and removing a count matches the popped entry |
| TenantQuotaRedis.TenantGuard.Reserve | crates/urouter-gateway/src/quota.rs:16-57 | the script prunes one tenant lazily, its in-flight set included, and gives the verdict of the reference with permits counted while their lease runs |
| TenantQuotaRedis.TenantGuard.Settle | crates/urouter-gateway/src/quota.rs:59-76 | the settle script branches as the reference does, although lapsed entries may still be stored |
| TenantQuotaRedis.TenantGuard.Release | crates/urouter-gateway/src/quota.rs:534-546 | the permit is taken out of the tenant's in-flight set, whether or not its lease has ended |
| TenantQuotaRedis.TenantGuard.PrunePermits | crates/urouter-gateway/src/quota.rs:19-29 | after pruning the in-flight set has exactly the held permits whose lease runs |
| TenantLeases.WhenCountsAgree | crates/urouter-gateway/src/quota.rs:296-300 | both ways of counting permits agree exactly while none has outlived its lease |
| TenantLeases.WhenLeasesAgree | crates/urouter-gateway/src/quota.rs:29-31 | with leases the verdict is the plain reference's exactly unless the limit is reached by counting lapsed permits only |
| TenantLeases.DroppedLeasesHaveEnded | crates/urouter-gateway/src/quota.rs:40-41 | an in-flight set that expires holds only leases that have ended |
| TenantQuotaRedis.TenantGuard.ForgetLapsed | crates/urouter-gateway/src/quota.rs:21-27 | the loop over lapsed members subtracts exactly their amounts |
| TenantQuotaRedis.PrunedRequestSet | crates/urouter-gateway/src/quota.rs:20-34 | the pruned set has exactly the grants of the last minute |
| TenantQuotaRedis.PrunedTotalIsLive | crates/urouter-gateway/src/quota.rs:28-37 | the stored total is the live total |
| TenantQuotaRedis.DroppedTokensAreLapsed | crates/urouter-gateway/src/quota.rs:52-54 | token keys that expire hold only lapsed charges |
| TenantQuotaRedis.DroppedRequestsAreLapsed | crates/urouter-gateway/src/quota.rs:44-47 | a request set that expires holds only lapsed grants |
| TenantQuotaRuns.AtMostLimitPerMinute | crates/urouter-gateway/src/quota.rs:301-308 | no tenant is granted more requests than its limit in any minute of any run |
| TenantQuotaRuns.LiveRequestsAreGrants | crates/urouter-gateway/src/quota.rs:331-339 | what the guard counts are the granted calls of the last minute |
| TenantQuotaRuns.HeldIsOutstanding | crates/urouter-gateway/src/quota.rs:324-330 | the permits held are exactly the calls granted and not released |
| TenantQuotaRuns.AtMostLimitInFlight | crates/urouter-gateway/src/quota.rs:296-300 | no tenant ever has more granted and unreleased calls than its limit |
| TenantQuotaRuns.SettleMovesTotal | crates/urouter-gateway/src/quota.rs:367-388 | settling moves the tenant's total by the difference to what counted, and no other tenant's |
| TenantQuotaRuns.TokensWithinLimit | crates/urouter-gateway/src/quota.rs:309-318 | while settlements only lower live charges, live tokens stay within the limit, at any later moment too |
| TenantDecisions.HeldAreCalls | crates/urouter-gateway/src/quota.rs:296-330 | the permits of a tenant are its calls granted and not given back |
| TenantDecisions.RequestsAreCalls | crates/urouter-gateway/src/quota.rs:301-339 | the requests that count are its calls granted in the last 60000 milliseconds |
| TenantDecisions.TokensAreCallsSum | crates/urouter-gateway/src/quota.rs:309-388 | the tokens that count are the sum over its granted calls of their latest amount, for 60000 milliseconds from the grant or from a late settlement |
| TenantDecisions.VerdictIsExact | crates/urouter-gateway/src/quota.rs:282-362 | over runs, in terms of the calls: refused for want of a slot exactly when that many calls are granted and not given back, for requests exactly when not for a slot and that many were granted in the last minute, for tokens exactly when for neither and they do not fit, granted otherwise |
| TenantDecisions.LeasedVerdictIsExact | crates/urouter-gateway/src/quota.rs:16-76 | the same for the scripts, where a permit counts until its lease ends |
| TenantDecisions.AnswersAreVerdicts | crates/urouter-gateway/src/quota.rs:282-362 | the answers that the two guards give on a run are these verdicts, one by one |
| TenantTokenLimit.WhenSettlementFits | crates/urouter-gateway/src/quota.rs:360-390 | after a settlement the tenant is within the limit exactly when the amount fits on top of what else counts |
| TenantTokenLimit.WhenSettlingKeepsLimit | crates/urouter-gateway/src/quota.rs:367-376 | settling a live charge keeps every tenant that is within the limit there exactly when it does not exceed what was reserved |
| TenantTokenLimit.WhenLateSettlingKeepsLimit | crates/urouter-gateway/src/quota.rs:377-388 | settling a lapsed charge does so exactly when nothing was used |
| TenantTokenLimit.WhenRunKeepsLimit | crates/urouter-gateway/src/quota.rs:282-404 | a tenant is within its token limit after every call of a run exactly when each of its settlements fits |
| TenantTokenLimit.SettlingMorePassesLimit | crates/urouter-gateway/src/quota.rs:367-376 | for every limit, every reservation within it and every overrun, a run that ends past the limit |
| TenantBackends.RunMemory | crates/urouter-gateway/src/quota.rs:282-404 | on every run the memory guard answers as the reference |
| TenantBackends.RunRedis | crates/urouter-gateway/src/quota.rs:16-76 | on every run, in-flight limit included, the scripts answer as the reference with permits on lease |
| TenantBackends.BackendsAgree | crates/urouter-gateway/src/quota.rs:16-404 | both backends give the same verdicts for the same reasons on a run exactly when no verdict rests on lapsed leases; so without an in-flight limit, and on every run that gives its permits back in time |
| TenantBackends.AgreeingRuns | crates/urouter-gateway/src/quota.rs:16-404 | until a verdict rests on lapsed leases both references pass through the same states |
| TenantBackends.LapsedDecideIsReached | crates/urouter-gateway/src/quota.rs:29-31 | a run of two calls whose second verdict rests on a lapsed lease |
| TenantBackends.AtMostLimitOnLease | crates/urouter-gateway/src/quota.rs:16-57 | also with leases no tenant ever has more permits running than its in-flight limit |
| Budget.MemoryBudget.Reserve | crates/urouter-gateway/src/budget.rs:152-192 | granted when unlimited, known or within the limit; only a new reservation changes the state |
| Budget.MemoryBudget.Settle | crates/urouter-gateway/src/budget.rs:194-215 | the amount is stored first, the total follows only for a known reservation |
| Budget.MemoryBudget.Release | crates/urouter-gateway/src/budget.rs:217-234 | a known reservation is taken out of its total, which disappears at zero |
| Budget.ReserveConserves | crates/urouter-gateway/src/budget.rs:152-192 | reserving keeps every total the sum of its reservations |
| Budget.DuplicateChangesNothing | crates/urouter-gateway/src/budget.rs:167-174 | reserving a request again is granted and changes nothing |
| Budget.WhenSettleConserves | crates/urouter-gateway/src/budget.rs:194-215 | settling keeps the totals right exactly when the reservation is live or the amount is zero |
| Budget.ReleaseConserves | crates/urouter-gateway/src/budget.rs:217-234 | releasing keeps every total the sum of its reservations |
| Budget.LateSettleFreesOthers | crates/urouter-gateway/src/budget.rs:194-234 | a late settlement followed by a release takes its amount out of other requests' total |
| Budget.MemoryFollowsBook | crates/urouter-gateway/src/budget.rs:152-234 | on live reservations the memory operations are those of a plain list of reservations |
| BudgetRedis.RedisBudget.Reserve | crates/urouter-gateway/src/budget.rs:12-24 | the reserve script answers and records as the reference in the current period |
| BudgetRedis.RedisBudget.Settle | crates/urouter-gateway/src/budget.rs:26-32 | the settle script is a no-op on unknown reservations and keeps total and hash in step |
| BudgetRedis.RedisBudget.Release | crates/urouter-gateway/src/budget.rs:34-40 | the release script keeps total and hash in step |
| BudgetRedis.LaterStore | crates/urouter-gateway/src/budget.rs:21-22 | keys expire only after their period is over |
| BudgetRedis.TotalIsSpent | crates/urouter-gateway/src/budget.rs:15-18 | the stored total is what the period's reservations add up to |
| BudgetRuns.SpentWithinLimit | crates/urouter-gateway/src/budget.rs:175-180 | no account exceeds its limit while settlements do not exceed their reservations |
| BudgetRuns.WhenRunKeepsLimit | crates/urouter-gateway/src/budget.rs:152-234 | an account is within its limit after every call of a run exactly when every settlement on it fits what the others have reserved |
| BudgetRuns.RunMemory | crates/urouter-gateway/src/budget.rs:152-234 | on every run the memory store answers as its operations on one state do |
| BudgetRuns.RunRedis | crates/urouter-gateway/src/budget.rs:12-40 | on every run the scripts answer as the reference |
| BudgetRuns.BackendsAgree | crates/urouter-gateway/src/budget.rs:12-234 | each backend answers as its reference, and both alike on every run that settles held reservations, or those of a period that is over |
| BudgetRuns.LateSettleParts | crates/urouter-gateway/src/budget.rs:204-206 | after a late settlement the memory store grants what the reference refuses |
| BudgetRuns.WhenSettleParts | crates/urouter-gateway/src/budget.rs:194-215 | after one settlement the memory store answers every next reservation as the reference exactly when the reservation was held |
| BudgetRuns.WhenMemoryFollows | crates/urouter-gateway/src/budget.rs:152-234 | over runs, per account: every next reservation is answered alike after every call exactly when no call settles one of it that is no longer held |
| BudgetRuns.LateRunParts | crates/urouter-gateway/src/budget.rs:194-215 | a run of four calls on which the memory store grants and the reference refuses |
| BudgetDecisions.BookIsCalls | crates/urouter-gateway/src/budget.rs:152-234 | a reservation is held exactly when a granted call for it has not been given back, for its latest settlement or else the estimate of the first such call |
| BudgetDecisions.SpentIsCalls | crates/urouter-gateway/src/budget.rs:152-234 | what an account has reserved is the sum over the calls that opened its reservations |
| BudgetDecisions.AnswerIsExact | crates/urouter-gateway/src/budget.rs:152-192 | over runs, in terms of the calls: granted exactly when there is no limit, when an earlier call got the same reservation and nobody gave it back, or when the estimate fits on top of that sum |
| Bindings.BindingStore.Put | crates/urouter-gateway/src/binding.rs:116-171 | stale scope refused, then created, unchanged, conflict or migrated, with the exact new store |
| Bindings.BindingStore.Evict | crates/urouter-gateway/src/binding.rs:159-168 | the loop drops exactly the oldest entries that make room for one more |
| Bindings.BindingStore.Remove | crates/urouter-gateway/src/binding.rs:194-209 | raises the generation under the binding key and removes that entry |
| Bindings.BindingStore.RemoveTask | crates/urouter-gateway/src/binding.rs:211-236 | raises the task's generation, removes all its entries and counts them |
| Bindings.BindingStore.RemoveTenant | crates/urouter-gateway/src/binding.rs:238-259 | raises the tenant's generation, removes all its entries and counts them |
| Bindings.PutKeepsWellFormed | crates/urouter-gateway/src/binding.rs:116-171 | a put keeps the order a duplicate-free list of the keys within the capacity |
| Bindings.WithoutKeepsWellFormed | crates/urouter-gateway/src/binding.rs:222-235 | so does removing any set of keys |
| Bindings.RetainKeepsOrder | crates/urouter-gateway/src/binding.rs:234 | what remains keeps its relative order |
| BindingRuns.FenceIsExact | crates/urouter-gateway/src/binding.rs:125-139 | a write is refused as stale exactly when its tenant or task was deleted after its snapshot |
| BindingRuns.GenerationsRise | crates/urouter-gateway/src/binding.rs:194-259 | a generation never falls and is unchanged exactly when nothing raised it |
| BindingRuns.StoredAreCurrent | crates/urouter-gateway/src/binding.rs:116-259 | every stored binding carries its tenant's and task's current generation, over all runs whose removals hit their own task |
| BindingRuns.RemoveKeepsCurrent | crates/urouter-gateway/src/binding.rs:194-209 | removing by key leaves an outdated binding behind exactly when another stored one has that key as its task |
| BindingRuns.OutdatedIsReached | crates/urouter-gateway/src/binding.rs:194-209 | a run from the empty store that leaves an outdated binding |
| BindingRuns.RemoveFencesOwnTaskOnly | crates/urouter-gateway/src/binding.rs:194-209 | after removing a binding by key an earlier write to it is refused exactly when its task is its key |
| BindingRuns.IdentityChangesByMigration | crates/urouter-gateway/src/binding.rs:140-158 | while a key stays stored its generation counts the migrations; without one its identity and first turn never change |
| BindingRuns.OrderIsByAge | crates/urouter-gateway/src/binding.rs:159-169 | the order is by age over every run, so eviction takes the oldest |
| BindingRuns.StaysWellFormed | crates/urouter-gateway/src/binding.rs:116-259 | the FIFO invariant holds after every run |
| BindingDecisions.GenerationsAreDeletions | crates/urouter-gateway/src/binding.rs:173-259 | a generation is the number of deletions of its tenant, or of its task |
| BindingDecisions.YoungerStandBehind | crates/urouter-gateway/src/binding.rs:159-169 | as many stored entries are younger than one as stand behind it in the order |
| BindingDecisions.StoreIsCalls | crates/urouter-gateway/src/binding.rs:116-259 | over runs, in terms of the calls: a key has what its latest accepted put wrote, with the generation and first turn it keeps, unless a removal took it or a new entry found as many younger ones as leave no room |
| BindingDecisions.AnswerIsExact | crates/urouter-gateway/src/binding.rs:116-171 | over runs: stale exactly when the generations given are not the numbers of deletions so far; otherwise created, unchanged, migrated or conflicting by what the key has and the five parts of the identity |
| Circuits.CircuitStore.Acquire | crates/urouter-gateway/src/circuit.rs:178-197 | granted exactly when no key is open or being probed; a refusal writes no key, a grant takes the probe of every half-open key |
| Circuits.CircuitStore.Finish | crates/urouter-gateway/src/circuit.rs:220-247 | for each key: own probe cleared, window settled, result counted, deadline renewed |
| Circuits.CircuitStore.FinishKey | crates/urouter-gateway/src/circuit.rs:225-244 | the steps on one key |
| Circuits.CircuitStore.Abandon | crates/urouter-gateway/src/circuit.rs:282-289 | only the permit's own probe is cleared |
| CircuitRuns.ProbeStays | crates/urouter-gateway/src/circuit.rs:220-289 | no operation of another permit ends a running probe, and no probing permit is granted beside it |
| CircuitRuns.HalfOpenIsExclusive | crates/urouter-gateway/src/circuit.rs:178-289 | of two probing grants on a key, the first permit was given back in between or a whole cooldown has passed |
| CircuitRuns.CooldownIsKept | crates/urouter-gateway/src/circuit.rs:178-247 | a tripped key refuses every permit for a cooldown unless a success is reported on it |
| CircuitRuns.OpenedByATrip | crates/urouter-gateway/src/circuit.rs:220-247 | whatever is open after a run was opened by a failure that tripped it, with no success since, and until that failure's cooldown ends |
| CircuitRuns.SuccessCloses | crates/urouter-gateway/src/circuit.rs:232-234 | after a success none of its keys refuses a permit, whatever follows, until a failure trips it again |
| CircuitRuns.CountersAreTallies | crates/urouter-gateway/src/circuit.rs:228-238 | after any run a key's counters are the finishes of its current window, and key expiry is not observable |
| CircuitRuns.WhenFailureOpens | crates/urouter-gateway/src/circuit.rs:235-242 | a failure opens its key exactly with more than one tier and a forcing error or a share of failures in the window that reaches the threshold |
| CircuitRuns.WindowIsRecent | crates/urouter-gateway/src/circuit.rs:228-231 | a window never spans more than its length |
| CircuitDecisions.RefusalIsExact | crates/urouter-gateway/src/circuit.rs:178-219 | over runs, in terms of the calls: a permit is refused exactly when one of its keys was tripped less than a cooldown ago with no success since, or was tripped, has had no success since, and has a probing grant less than a cooldown old whose permit was neither finished nor abandoned on it |
| CircuitDecisions.WhenOpen | crates/urouter-gateway/src/circuit.rs:220-247 | a key that the store still remembers is open until the cooldown of the trip that stands, and otherwise not open |
| CircuitDecisions.WhenGrantProbes | crates/urouter-gateway/src/circuit.rs:190-212 | a granted permit probes exactly its keys on which a trip stands |
| CircuitDecisions.ProbesAreGrants | crates/urouter-gateway/src/circuit.rs:178-289 | the probe of a key is the latest such grant, until its permit is finished or abandoned on the key |
| CircuitTargets.TargetsAreDistinct | crates/urouter-gateway/src/circuit.rs:355-380 | a permit names three different keys |
| CircuitTargets.FailureIndexOf | crates/urouter-gateway/src/circuit.rs:248-261 | the failing index is the position of the scope that the error blames |
| CircuitTargets.WhatIsReported | crates/urouter-gateway/src/circuit.rs:248-261 | for each kind of failure which of the three ids it blames and at which position, whether it opens the circuit at once, and the tier size; a success is position zero |
| CircuitTargets.FailureReachesSharedScope | crates/urouter-gateway/src/circuit.rs:355-390 | a failure counts against another deployment exactly when both share the blamed id |
| CircuitTargets.SharedScopeIsRefused | crates/urouter-gateway/src/circuit.rs:220-247 | after an authorization or rate-limit failure every deployment sharing the credential is refused for the cooldown |
| CircuitTargets.FailureSparesOtherKeys | crates/urouter-gateway/src/circuit.rs:232-243 | a failure leaves the opening time of every other key |
| DeploymentSelection.SelectWeighted | crates/urouter-contracts/src/capacity.rs:267-342 | which of the three errors occurs when, the chosen id, the runners-up in id order and every evaluation |
| DeploymentSelection.Scan | crates/urouter-contracts/src/capacity.rs:291-302 | the decrementing scan finds the candidate whose share holds the position |
| DeploymentSelection.LineIsFair | crates/urouter-contracts/src/capacity.rs:291-302 | over all positions each id is picked as often as it weighs |
| DeploymentSelection.TicketsAreFair | crates/urouter-contracts/src/capacity.rs:284-302 | the same over any run of consecutive tickets as long as the total weight |
| DeploymentSelection.EachGetsItsWeight | crates/urouter-contracts/src/capacity.rs:267-302 | with unique ids an available candidate of the lowest order is chosen exactly its weight's number of times, any other never |
| DeploymentSelection.WhenSelectable | crates/urouter-contracts/src/capacity.rs:267-290 | there is a choice exactly when some candidate is available and the weights of the lowest available order add up to a positive 64-bit number |
| DeploymentSelection.ChosenHoldsTicket | crates/urouter-contracts/src/capacity.rs:280-302 | with unique ids the chosen one is the candidate of that order whose share, by the weights of the smaller ids before it, holds the ticket modulo the total |
| DeploymentSelection.RunnersUpAre | crates/urouter-contracts/src/capacity.rs:333-341 | the runners-up are the other available candidates of that order, in id order |
| StringOrder.AtMostIsDictionaryOrder | crates/urouter-contracts/src/capacity.rs:284 | ids are compared as in a dictionary: a proper prefix first, otherwise by the first character that differs |
| DeploymentSelection.ListingOrderIsIrrelevant | crates/urouter-contracts/src/capacity.rs:280-284 | the choice does not depend on the order of the candidates |
| CapacityLease.ApplyPicker | crates/urouter-contracts/src/capacity.rs:205-257 | in place, exactly the group's candidates with a worse metric are excluded, with the picker's reason |
| CapacityLease.PickedStays | crates/urouter-contracts/src/capacity.rs:244-256 | with unique ids those without a metric and those with the best one stay |
| CapacityLease.PickerKeepsGroup | crates/urouter-contracts/src/capacity.rs:205-257 | with unique ids the lowest available order is the same before and after the picker |
| CapacityLease.WhenPickerKeepsGroup | crates/urouter-contracts/src/capacity.rs:205-257 | on any candidates, duplicate ids or not, the lowest order stays exactly when the picker's test spares some candidate of the group |
| CapacityLease.DuplicateIdsEmptyGroup | crates/urouter-contracts/src/capacity.rs:248-255 | two snapshots of one id for which the picker excludes both |
| CapacityLease.PlanLease | crates/urouter-contracts/src/capacity.rs:143-203 | the errors, with exhaustion exactly when the picker leaves nothing available, and with unique ids exactly when nothing was; the whole selection (choice, runners-up in id order, every evaluation) and the probe flag |
| CapacityLease.ChosenIsBest | crates/urouter-contracts/src/capacity.rs:143-203 | with unique ids, in the snapshots' own fields: the chosen one is free, no free one has a lower order, and of that order none is less loaded, faster or less used, as the picker asks |
| CapacityLease.ReasonsAre | crates/urouter-contracts/src/capacity.rs:150-187 | a snapshot is available exactly without reasons, when it is not excluded from the retry and its circuit is closed or half open without a probe; the reasons name what is wrong |
| CapacityLease.PickedAreUnbeaten | crates/urouter-contracts/src/capacity.rs:205-257 | with unique ids the picker leaves of the lowest order exactly those that no other beats in the field it goes by |
| CapacityLease.WeightedPicksAll | crates/urouter-contracts/src/capacity.rs:205-220 | the weighted picker changes nothing |
| CapacityLease.ProbeIsReserved | crates/urouter-contracts/src/capacity.rs:195-198 | with unique ids a probe is reserved exactly when the chosen one's circuit is half open |
| Calendar.FormulaIsDayNumber | crates/urouter-contracts/src/backoff.rs:242-252 | the formula equals the day count from the calendar's rules for every year, month and day |
| Calendar.EraRoundsDown | crates/urouter-contracts/src/backoff.rs:244 | the truncating division of the shifted year rounds down for negative years too |
| Calendar.EpochIsZero | crates/urouter-contracts/src/backoff.rs:242-252 | 1 January 1970 is day zero |
| Calendar.NextDayIsOneMore | crates/urouter-contracts/src/backoff.rs:242-252 | the following date, across month ends, leap years, centuries and eras, is one more |
| Calendar.DaysAreMonotone | crates/urouter-contracts/src/backoff.rs:242-252 | valid dates are numbered in their order |
| Calendar.OverlongDayRollsOver | crates/urouter-contracts/src/backoff.rs:242-252 | the formula takes a day past the end of its month for a day of the next |
| Calendar.OverlongDayIsAccepted | crates/urouter-contracts/src/backoff.rs:220-228 | the guard lets such a day through up to the 31st, and the value is that of the date it runs into |
| Calendar.MillisAreMonotone | crates/urouter-contracts/src/backoff.rs:216-228 | of two accepted valid instants the earlier has the smaller value |
| Calendar.LeapSecondIsNextSecond | crates/urouter-contracts/src/backoff.rs:220-228 | second 60 is read as the second after 59, at the end of a minute, an hour and a day |
| Calendar.WhenAccepted | crates/urouter-contracts/src/backoff.rs:216-228 | a valid instant is accepted exactly from 1970 on and within 64 bits, and then no step of the day formula left them |
| Calendar.MillisAreExact | crates/urouter-contracts/src/backoff.rs:220-228 | for all fields: which are accepted, and that the value is a thousand times the seconds that the calendar's own rules count |
| Calendar.WhenFormulaFits | crates/urouter-contracts/src/backoff.rs:242-252 | no step of the formula leaves 64 bits exactly when its result does not and leaves room for the days taken off last |
| Calendar.YearsThatFit | crates/urouter-contracts/src/backoff.rs:242-252 | which holds for every date up to 25 quadrillion years away |
| Durations.ParseDuration | crates/urouter-contracts/src/backoff.rs:291-321 | accepts exactly the texts that are, white space around them taken off, a non-empty run of decimal and unit, and returns the saturated sum of their values |
| Whitespace.TrimFinds | crates/urouter-contracts/src/backoff.rs:292 | trimming finds the text between any white space before and after it |
| Whitespace.WhiteByCode | crates/urouter-contracts/src/backoff.rs:291-295 | what is trimmed are the 25 characters of Unicode's White_Space property |
| Durations.PaddingIsIgnored | crates/urouter-contracts/src/backoff.rs:291-321 | white space around a duration means nothing, and there is none inside |
| Durations.TextParses | crates/urouter-contracts/src/backoff.rs:291-321 | parsing the text of segments gives back those segments |
| Durations.ParsedSpells | crates/urouter-contracts/src/backoff.rs:291-321 | the segments parsed spell the text |
| Durations.ConcatenationAdds | crates/urouter-contracts/src/backoff.rs:299-320 | writing one duration after another adds them, up to saturation |
| Durations.ScaledIsTruncated | crates/urouter-contracts/src/backoff.rs:355-378 | accepts exactly the decimals with a 64-bit whole part and computes their value from nine fraction digits |
| Durations.TruncationCost | crates/urouter-contracts/src/backoff.rs:368-376 | that value is the exact one rounded down or one less, and exact for seconds and milliseconds |
| Durations.SegmentAccuracy | crates/urouter-contracts/src/backoff.rs:355-378 | the same for a whole segment, saturation included |
| Durations.TruncationIsReached | crates/urouter-contracts/src/backoff.rs:370-375 | a number of minutes and one of hours that lose the millisecond |
| Durations.WhenTruncationLoses | crates/urouter-contracts/src/backoff.rs:370-375 | a decimal loses its millisecond exactly when the digits after the ninth would have completed it |
| Durations.UnitsThatLoseNothing | crates/urouter-contracts/src/backoff.rs:370-371 | further digits make no difference for all decimals exactly when the unit is milliseconds or seconds |
| Durations.NineDigitsLoseNothing | crates/urouter-contracts/src/backoff.rs:372-375 | nine fraction digits or fewer lose nothing in any unit |
| DurationTexts.UnitIsByName | crates/urouter-contracts/src/backoff.rs:323-331 | a unit means a factor exactly when it is one of that factor's names, in letters of either case |
| DurationTexts.WrittenIsRead | crates/urouter-contracts/src/backoff.rs:360-378 | a number written in decimal digits, leading zeros and all, is read back |
| DurationTexts.DecimalIsWorth | crates/urouter-contracts/src/backoff.rs:291-378 | a whole part and a fraction of up to nine digits, written from numbers and followed by a unit, are worth their product with its factor, rounded down and saturated; a whole part beyond 64 bits is refused |
| DurationTexts.ExactValueIs | crates/urouter-contracts/src/backoff.rs:368-376 | the exact value of such a text, with any number of fraction digits |
| EndpointTemplates.Compile | crates/urouter-ai/src/endpoint.rs:34-66 | accepts exactly the texts of brace-free literals and identifier holes and returns their names; a rejected text is well formed up to the reported fault |
| EndpointTemplates.Scan | crates/urouter-ai/src/endpoint.rs:37-61 | the loop over the shrinking remainder computes the parse |
| EndpointTemplates.PrintedParses | crates/urouter-ai/src/endpoint.rs:34-66 | a printed template parses to itself, so a text has at most one reading |
| EndpointTemplates.ParsedPrints | crates/urouter-ai/src/endpoint.rs:34-66 | what is parsed prints to the text |
| EndpointTemplates.FaultFound | crates/urouter-ai/src/endpoint.rs:38-60 | the reported fault is there, after a well-formed start |
| EndpointTemplates.WhichNames | crates/urouter-ai/src/endpoint.rs:46-55 | a hole is accepted exactly when its name is made of one or more ASCII letters, digits and underscores |
| EndpointFilling.Materialize | crates/urouter-ai/src/endpoint.rs:73-90 | fails for a missing variable, naming the first, otherwise exactly when the filled text is no URL or has another scheme; the text is the simultaneous substitution when no value put in reads as a hole of a later variable, so in any order when no value opens a brace |
| EndpointFilling.ReplaceFills | crates/urouter-ai/src/endpoint.rs:82 | one replacement fills exactly the holes of its name, whatever was filled before, unless that reads as a hole of it |
| EndpointFilling.ReplaceEachFills | crates/urouter-ai/src/endpoint.rs:78-83 | so the loop, in the order given, fills all holes at once |
| EndpointFilling.FilledIsBraceFree | crates/urouter-ai/src/endpoint.rs:78-83 | no brace is left exactly when no value put in has one |
| EndpointFilling.ValueWithHoleIsFilledAgain | crates/urouter-ai/src/endpoint.rs:78-83 | a family of values for which the order decides the result |
| EndpointFilling.WhenOrderMatters | crates/urouter-ai/src/endpoint.rs:78-83 | of two variables, the later one's value without an opening brace: some template tells the orders apart exactly when the other's value reads as a hole of it, which it does whenever it contains one |
| EndpointFilling.WhenLastIsFilled | crates/urouter-ai/src/endpoint.rs:78-83 | for any number of variables and any order: when the earlier ones are filled and the last value opens no brace, the loop fills all holes at once on all templates exactly when no values put in read as a hole of the last |
| CanonicalJson.SamePrintsAlike | crates/urouter-gateway/src/adapter.rs:155-188 | reordering object keys, at any depth, does not change the text |
| CanonicalJson.TextDetermines | crates/urouter-gateway/src/adapter.rs:155-188 | a text followed by a delimiter has one reading, up to key order |
| CanonicalJson.EscapeDetermines | crates/urouter-gateway/src/adapter.rs:160-162 | a quoted string ends where it was written to end |
| CanonicalJson.CanonicalTextIdentifies | crates/urouter-gateway/src/adapter.rs:155-188 | two values print alike exactly when they are equal up to key order |
| CanonicalJson.JsonWriter.Write | crates/urouter-gateway/src/adapter.rs:155-188 | the writer appends the canonical text |
| CanonicalJson.ProfileTextIdentifiesInstructions | crates/urouter-gateway/src/adapter.rs:129-147 | profile texts agree exactly when the system and developer messages do, one by one |
| CanonicalJson.ProfileIsByRole | crates/urouter-gateway/src/adapter.rs:129-147 | the profile has the messages whose role is written as system or developer, in order, and nothing without a list of messages |
| JsonReading.CharsAreRead | crates/urouter-gateway/src/adapter.rs:160-162 | a printed string is a JSON string of that text: reading its escapes gives it back |
| JsonReading.PrintedIsRead | crates/urouter-gateway/src/adapter.rs:155-188 | every printed value, before any delimiter, is read back by a JSON reader up to key order, and nothing after it is touched |
| JsonReading.KeysAscend | crates/urouter-gateway/src/adapter.rs:163-185 | the keys of a printed object stand in ascending order |
| ChatTranslation.BlankLineIsIgnored | crates/urouter-gateway/src/protocol_translation.rs:78-88 | blank lines before an event carry nothing |
| ChatTranslation.TranslateAdvances | crates/urouter-gateway/src/protocol_translation.rs:89-173 | translating an event keeps the stream in the phase that the translation state describes |
| ChatTranslation.AppendDeltaAdvances | crates/urouter-gateway/src/protocol_translation.rs:217-244 | a block is started before its first delta and not again |
| ChatTranslation.StopsClose | crates/urouter-gateway/src/protocol_translation.rs:260-274 | finishing stops every open block once and ends the message |
| ChatTranslation.AnthropicStreamIsWellFormed | crates/urouter-gateway/src/protocol_translation.rs:73-277 | events closed by one [DONE] form a well-formed Anthropic message exactly when one of them was a chunk |
| ChatTranslation.AnthropicTextIsUpstreamText | crates/urouter-gateway/src/protocol_translation.rs:129-246 | the deltas of each block spell exactly what the upstream sent for it |
| ChatMeaning.ContentIsExact | crates/urouter-gateway/src/protocol_translation.rs:125-246 | over every stream and for every protocol the content events are the upstream's pieces in order: the first piece about a block introduces it, a tool by that call's id and name, or call and tool where absent, and every text follows as a delta of its block's kind |
| ChatMeaning.BlockIsExact | crates/urouter-gateway/src/protocol_translation.rs:176-246 | so what is told about one block is its introduction, once and first, and its texts; nothing if the upstream said nothing about it |
| ChatMeaning.StartIsExact | crates/urouter-gateway/src/protocol_translation.rs:105-124 | a stream starts once, under the id of its first chunk, or urouter-stream where it has none |
| ChatMeaning.DoneIsExact | crates/urouter-gateway/src/protocol_translation.rs:248-277 | [DONE] completes the response of the first id that is not empty, or stops every block the upstream said anything about, in ascending order, and the message |
| ChatMeaning.EndsOnDone | crates/urouter-gateway/src/protocol_translation.rs:96-98 | nothing else ends anything |
| ChatMeaning.StartComesFirst | crates/urouter-gateway/src/protocol_translation.rs:107-173 | of what one chunk is answered with the start comes before the content |
| ChatMeaning.DecisionsAreExact | crates/urouter-gateway/src/protocol_translation.rs:89-95 | each decision is passed on in order, under the client's name for it |
| ChatMeaning.ResponsesTextIsUpstreamText | crates/urouter-gateway/src/protocol_translation.rs:176-215 | to a Responses client the text deltas spell the content, the reasoning deltas the reasoning, and the argument deltas of item i + 1 the arguments of tool i |
| SseStream.LeadingLineFeed | crates/urouter-gateway/src/protocol_translation.rs:32-38 | a line feed before an event changes nothing |
| SseStream.FirstEvent | crates/urouter-gateway/src/protocol_translation.rs:69-71 | cutting at a blank line takes off one event |
| SseStream.FindEventEnd | crates/urouter-gateway/src/protocol_translation.rs:69-71 | finds the first blank line, or that there is none |
| SseStream.FlushIsSilent | crates/urouter-gateway/src/protocol_translation.rs:52-57 | the terminator appended at the end of the stream adds no event |
| SseReading.WrittenStreamIsRead | crates/urouter-gateway/src/protocol_translation.rs:78-102 | every stream of messages with an event name and a data text is read back message by message: a decision by its name, otherwise [DONE] by its data, otherwise what the JSON parser makes of the data |
| CarriageReturns.WhenLineMatters | crates/urouter-gateway/src/protocol_translation.rs:77-88 | a line in front of an event makes a difference to some parser exactly when it decides the event's name or adds to its data |
| CarriageReturns.WhenCarriageReturnHides | crates/urouter-gateway/src/protocol_translation.rs:32-38 | a carriage return in front of a text carries nothing, whatever the parser, exactly when it hides no line that matters |
| CarriageReturns.StrippingIsSilent | crates/urouter-gateway/src/protocol_translation.rs:32-38 | draining the line ends the buffer holds so far carries nothing away unless it frees a hidden line |
| SseChunks.FeedIsText | crates/urouter-gateway/src/protocol_translation.rs:28-60 | where no line is hidden a buffer and the chunks to come carry what their text does |
| SseChunks.BytewiseIsText | crates/urouter-gateway/src/protocol_translation.rs:28-60 | character by character every stream carries what its text does |
| SseChunks.WhenChunksMatter | crates/urouter-gateway/src/protocol_translation.rs:28-60 | what a stream carries depends on its text alone, however it is cut and whatever the parser, exactly when the text hides no line |
| SseChunks.WhenOutputDependsOnChunks | crates/urouter-gateway/src/protocol_translation.rs:28-60 | the same for what the client is sent, over every protocol |
| SseChunks.ChunksPart | crates/urouter-gateway/src/protocol_translation.rs:32-38 | one text cut in two ways, of which one loses its [DONE] |
| SseTranslator.StreamTranslator.Next | crates/urouter-gateway/src/protocol_translation.rs:28-60 | one step of the loop: the piece returned and what is still owed make up what was owed; a text that hides no line goes on hiding none |
| SseTranslator.StreamTranslator.TakeEvent | crates/urouter-gateway/src/protocol_translation.rs:30-45 | draining the buffer up to the next event loses nothing, and where no line is hidden the text left carries the other events |
| SseTranslator.TranslateStream | crates/urouter-gateway/src/protocol_translation.rs:28-60 | for every stream, the output is the translation of what the chunks carry; where the text hides no line, that of the whole text's events however it is cut |
| SseTranslator.StreamTranslator.OwedIsText | crates/urouter-gateway/src/protocol_translation.rs:28-60 | where no line is hidden the output still to come is the translation of the text that is left |

## Left out

- Real Redis, HTTP, locks, the async runtime, `Drop` spawning and connection errors: each script or locked section is one step.
- CounterKeys.CounterKeyIsInjective: the Redis key hashes the same parts with SHA-256, which is taken to be injective.
- RedisQuotaLedger.RedisLedger.Reserve: the client computes daily buckets and the server the scores; the model gives both one clock.
- TenantQuotaRedis.TenantGuard.Reserve: tokens are given from outside; the per-tenant sequence key can expire and number from one again.
- CircuitRuns.HalfOpenIsExclusive: a permit is known by its token, which is unique per process only; snapshots of the state are not modelled, nor is the local circuit state of another module.
- Bindings.BindingStore.Put: the Redis scripts of the binding store are not modelled; fields that a write replaces without comparing are one field here.
- DeploymentSelection.SelectWeighted: integer widths of tickets and weights beyond the checked 64-bit total.
- Calendar.FormulaIsDayNumber: years whose day number leaves 64 bits inside the formula, where the source would overflow.
- Calendar.WhenAccepted: for years in which the formula itself leaves 64 bits, as Calendar.WhenFormulaFits states, the source overflows and the model rejects; splitting the three HTTP-date forms into fields and looking up month names.
- EndpointFilling.Materialize: the URL parser is a parameter.
- EndpointFilling.WhenLastIsFilled: whether a variable that is read from earlier values and opens a brace itself can still leave the result unchanged.
- CanonicalJson.CanonicalTextIdentifies: a number is identified with the text the library prints for it, and the digest of the text is not modelled.
- ChatTranslation.AnthropicStreamIsWellFormed: the JSON parser is a parameter and only the fields the translation reads are modelled; the Responses stream has no grammar of its own beyond what `ChatMeaning` states.
- SseTranslator.TranslateStream: an upstream error in the middle of a stream is not modelled.
- FallbackPlanner.PlanFallbackTiers: the depth is unbounded where the source has eight bits.
- Schema version fields, serialization, logging, pricing, authentication, the tier cascade, retry hints in prose and the remaining configuration checks.
