# Verified model of the agent gateway

The gateway puts a session-sticky scheduler, a per-tier admission controller, per-agent token windows and a
health checker in front of a set of model backends. This project models that stateful core in Dafny and proves
what it keeps over every interleaving of requests, clock readings and health changes. Two modules of the demo
corpus, the sorts and the linked list, are modelled as well.

Check everything with `dafny verify dfyconfig.toml`.

## How it is organised

Each stateful component comes in two layers. A value layer describes one atomic step (a lock region, or the code
between two awaits) as a function, and states the main results as lemmas over whole runs of such steps. An object
layer has the source's own classes, fields and loops, and every method is proved to do to the object's abstract
value exactly what the step function says.

| files | component |
|---|---|
| `Types.dfy`, `Registry.dfy` | records, the ordered backend table |
| `Hrw.dfy`, `Affinity.dfy`, `AffinityHits.dfy`, `Scheduler.dfy`, `SchedulerHits.dfy` | rendezvous choice, sticky table, hit accounting, scheduler object and its counters |
| `Admission.dfy`, `AdmissionRuns.dfy`, `AdmissionBound.dfy`, `AdmissionErasure.dfy`, `Controllers.dfy` | admission protocol, its reachable states, the concurrency bound, failed gates, queue and controller objects |
| `Accounting.dfy`, `Restarts.dfy`, `Accountants.dfy` | token windows, snapshot and restore, the accountant objects |
| `Health.dfy`, `HealthRouting.dfy` | probe hysteresis, probes and clients together |
| `Routing.dfy`, `ChatRoute.dfy` | tier choice, life of a chat request |
| `Sorting.dfy`, `LinkedLists.dfy` | demo corpus |

## Main results

- The sticky table is a cache of plain rendezvous hashing: while backends only leave, every answer of every run
  equals the table-free answer, whatever mix of tier switches, invalidations, expiries and migrations (even over
  outdated survivor lists). Hence erasing all eager repairs changes no routed backend. Backends may also return, as
  long as none beats a live binding of its tier; one that does makes the next turn of that binding disagree. With
  the health checker's probes interleaved, all this holds until a probe brings a backend back to HEALTHY.
- Hits and misses are exact over one non-empty candidate list, when consecutive turns of a session are less than the
  TTL apart: misses are the distinct sessions, so n sessions of k turns give n(k - 1) hits. For any gaps the hits are
  the calls that find their session's window still open.
- Permits are conserved in every reachable state, with one extra term for holder records overwritten by a second
  request of the same session. Records are overwritten exactly in runs in which two admitted requests share a
  session; in every reachable state both tiers have their whole capacity exactly when nobody is admitted and that
  never happened. An admitted stream whose generator never starts is never released and keeps its permit.
- The admitted requests of a tier never exceed its capacity, whatever happens, exactly when no session uses both
  tiers; for one that does, a run gets the Big tier over its capacity, at any limits that admit anybody.
- Requests whose gate fails can be erased from a run without changing permits, holders or admitted requests.
- Lazy eviction equals the full ledger under a nondecreasing clock, and for clock readings in any order exactly when
  no operation dropped a debit that is still inside the window. Guarded debits stay within the budget in every
  interval of the window's length, also over any number of restarts. A restart in the middle of a history is
  invisible exactly when the new window is not longer (or negative).
- A request wanting Auto gets to a queue exactly when Small has a healthy backend and Auto has none, since the
  controller has no queue for Auto; all others whenever Small or Big has a healthy backend.
- Health status is a function of the probe suffix when the probes of a backend do not overlap; when they do, the
  exact condition for the status to be right is given, with a run that loses a recovery, and the next probe that no
  other completion disturbs puts the status right.

## Where code and documentation differ

The model follows the code.

- `on_backend_down` moves bindings to survivors (scheduler.py:154-168); docs/affinity.md:29 says it removes them.
  Nothing in the gateway calls it, the health checker only marks the registry.
- DEGRADED backends are not routed to (registry.py:25), so one failed probe removes a backend, and so does the
  first OK probe of a fresh backend when two successes are required; docs/architecture.md:95 speaks of three failures.
- The chat route goes route, affinity, admission (chat.py:65-79); docs/architecture.md:148 puts admission first.
- A full queue is answered with 429 by the code; docs/architecture.md:103 says 503.
- The chat route never debits (chat.py:45-197); docs/architecture.md:101 says output tokens are counted.

## Model

| member | source | states |
|---|---|---|
| Registry.LeavingFilters | gateway/src/agent_serve/backends/registry.py:21-37 | marking a backend as not healthy takes it, and nothing else, out of every tier's healthy list, order kept |
| Registry.HealthyPositions | gateway/src/agent_serve/backends/registry.py:21-26 | the healthy list is the table read at strictly increasing positions, all those of healthy backends of the tier and no others |
| Registry.HealthyKeepsUnique | gateway/src/agent_serve/backends/registry.py:21-26 | so with unique ids nobody is listed twice |
| Registry.PutKeepsLast | gateway/src/agent_serve/backends/registry.py:14-18 | storing one more configured backend keeps every entry that no later one with its id replaces |
| Registry.PutKeepsOrder | gateway/src/agent_serve/backends/registry.py:14-18 | and keeps the ids in the order in which they are first configured |
| Registry.BackendRegistry.constructor | gateway/src/agent_serve/backends/registry.py:14-19 | one entry per configured id, the ids in order of first mention, the last of several entries winning; with distinct ids the table is the configuration |
| Registry.BackendRegistry.GetHealthyBackends | gateway/src/agent_serve/backends/registry.py:21-26 | the loop returns the healthy backends of the tier in registry order |
| Registry.BackendRegistry.MarkStatus | gateway/src/agent_serve/backends/registry.py:32-37 | only the status of the named entry changes; unknown ids change nothing; ids, tiers and order stay |
| Registry.BackendRegistry.GetBackend | gateway/src/agent_serve/backends/registry.py:28-30 | the entry under an id, or none exactly when the id is unknown |
| Hrw.WinnerBeatsAll | gateway/src/agent_serve/affinity/scheduler.py:29-31 | a position is the chosen one iff it beats every other candidate, ties going to the earlier one |
| Hrw.SurvivorKept | gateway/src/agent_serve/affinity/scheduler.py:15-31 | a session whose winner survives a removal keeps it |
| Hrw.OneByOneIsAtOnce | gateway/src/agent_serve/affinity/scheduler.py:15-31 | removing backends one by one in any order leaves what removing them at once leaves |
| Hrw.MinimalDisruption | gateway/src/agent_serve/affinity/scheduler.py:15-31 | over any removals in any order a session moves only if its own winner was removed |
| Hrw.InsertionMovesOnlyToNewcomer | gateway/src/agent_serve/affinity/scheduler.py:15-31 | a backend inserted anywhere takes a session exactly when it beats the old winner; nobody moves elsewhere |
| Hrw.ChoiceIsUnbeaten | gateway/src/agent_serve/affinity/scheduler.py:29-31 | the choice over a healthy list is a healthy table entry that no healthy entry of its tier beats |
| Hrw.UnbeatenIsChoice | gateway/src/agent_serve/affinity/scheduler.py:29-31 | and a healthy unbeaten entry is the choice |
| Affinity.MigrationIsExact | gateway/src/agent_serve/affinity/scheduler.py:130-176 | the survivors are the healthy backends of the tier without the failed one; after on_backend_down no entry is pinned to that backend and tier, other entries are untouched, affected sessions sit on their best survivor or are evicted exactly when there is none |
| Affinity.FirstIsFirst | gateway/src/agent_serve/affinity/scheduler.py:112 | the candidate found under an id is the first one listed with it |
| Affinity.SelectWrites | gateway/src/agent_serve/affinity/scheduler.py:96-119 | a hit slides the session's expiry and keeps backend and bound tier, a miss stores the answered backend on the tier asked for, an error stores nothing, and no other session is touched |
| Affinity.InvalidateForgets | gateway/src/agent_serve/affinity/scheduler.py:121-128 | after an invalidation the session's next turn is a miss and nobody else notices |
| Affinity.SelectIsHrw | gateway/src/agent_serve/affinity/scheduler.py:86-119 | under the invariant a select, hit or miss, returns the rendezvous choice and keeps the invariant |
| Affinity.MigrationKeepsAgreement | gateway/src/agent_serve/affinity/scheduler.py:130-176 | migration keeps the invariant, even over a survivor list read from an older registry state |
| Affinity.LeavingKeepsAgreement | gateway/src/agent_serve/backends/registry.py:32-37 | a backend leaving keeps the invariant of the sticky table |
| Affinity.ReturningKeepsAgreement | gateway/src/agent_serve/backends/registry.py:32-37 | a backend returning keeps it as long as it beats no live binding of its tier |
| Affinity.StickyMapIsHrw | gateway/src/agent_serve/affinity/scheduler.py:86-176 | in every run, with backends leaving and returning, in which no returning backend beats a live binding and no migration uses survivors read before a return, all selects answer as rendezvous hashing without a table |
| Affinity.LastReply | gateway/src/agent_serve/affinity/scheduler.py:29-31 | the table-free replies of a run are one for each select, the choice over the healthy backends of that moment |
| Affinity.LeavingRunsRouteByHrw | gateway/src/agent_serve/affinity/scheduler.py:86-176 | from a new scheduler on, in every run in which backends only leave, all selects answer as rendezvous hashing without a table, whatever survivor lists migrations use |
| Affinity.EagerAndLazyRepairAgree | gateway/src/agent_serve/affinity/scheduler.py:102-176 | erasing all on_backend_down calls from a run in which backends only leave, leaves a run with the same routed backends |
| Affinity.OnlyRepairsAreErased | gateway/src/agent_serve/affinity/scheduler.py:130-176 | the run compared with is the run with exactly its on_backend_down calls taken out |
| Affinity.RepairsAgreeFromTheStart | gateway/src/agent_serve/affinity/scheduler.py:102-176 | the same from a new scheduler on |
| Affinity.EagerRepairSavesTheMiss | gateway/src/agent_serve/affinity/scheduler.py:133-157 | after an eager repair the next turn is a hit, without it a miss, on the same backend |
| Affinity.SelectAgreesExactlyWhen | gateway/src/agent_serve/affinity/scheduler.py:102-119 | for any candidates, an answer equals the rendezvous choice iff the reused binding, if any, is beaten by nobody |
| Affinity.ReturnAgreesExactlyWhen | gateway/src/agent_serve/affinity/scheduler.py:106-112 | after a backend returned, a live binding to a healthy backend is reused, and that agrees with the rendezvous choice iff the returning backend does not beat the bound one |
| AffinityHits.HitFlagIsTruthful | gateway/src/agent_serve/affinity/scheduler.py:102-128 | over any history without migrations the flag is set iff there is a turn since the last close, its window is open and its backend is still a candidate; then the same backend answers |
| AffinityHits.ZeroTtlNeverHits | docs/affinity.md:60 | under a nondecreasing clock a TTL of zero or less disables affinity |
| AffinityHits.CountsOfLivelyCalls | gateway/src/agent_serve/affinity/scheduler.py:96-119 | the counters and the sticky table after any interleaving of live sessions over one candidate list |
| AffinityHits.HitsAreExact | README.md:69 | for live sessions over one non-empty candidate list: misses are the distinct sessions, hits the other calls; n sessions of k turns give n(k - 1) hits, 5/6 of the calls for six turns |
| AffinityHits.HitsAreOpenWindows | gateway/src/agent_serve/affinity/scheduler.py:96-119 | for any gaps between turns over one candidate list, hits are exactly the calls whose session has an earlier call with its window still open, and misses all others |
| Scheduler.AffinityScheduler.constructor | gateway/src/agent_serve/affinity/scheduler.py:76-84 | an empty table and zero counters |
| Scheduler.AffinityScheduler.SelectBackend | gateway/src/agent_serve/affinity/scheduler.py:86-119 | the heap table and the answer change as the step function says; the hit or miss count of the tier asked for grows by one and no other count changes |
| Scheduler.AffinityScheduler.Refresh | gateway/src/agent_serve/affinity/scheduler.py:108 | the session's own entry object slides its expiry in place, no other entry changes |
| Scheduler.AffinityScheduler.Bind | gateway/src/agent_serve/affinity/scheduler.py:44-47 | a fresh entry object expiring a TTL after the second clock reading replaces the session's entry |
| Scheduler.AffinityScheduler.Next | gateway/src/agent_serve/affinity/scheduler.py:112 | the scan returns the first candidate carrying the id |
| Scheduler.AffinityScheduler.Best | gateway/src/agent_serve/affinity/scheduler.py:29-31 | the scan returns the rendezvous choice |
| Scheduler.AffinityScheduler.Invalidate | gateway/src/agent_serve/affinity/scheduler.py:121-128 | exactly the session's entry goes |
| Scheduler.AffinityScheduler.ReadSurvivors | gateway/src/agent_serve/affinity/scheduler.py:145 | the tier's healthy backends without the failed one, in order |
| Scheduler.AffinityScheduler.MigrateOne | gateway/src/agent_serve/affinity/scheduler.py:154-176 | one session's entry object is repointed in place or dropped; the tier's broken count grows by one and no other |
| Scheduler.AffinityScheduler.MigrateSessions | gateway/src/agent_serve/affinity/scheduler.py:147-176 | the affected sessions, and only they, are migrated; the tier's broken count grows by their number and no other count changes |
| Scheduler.AffectedSessionsAre | gateway/src/agent_serve/affinity/scheduler.py:148-152 | the affected sessions are those bound to that backend on that tier |
| SchedulerHits.ServeAll | gateway/src/agent_serve/affinity/scheduler.py:86-119 | over any sequence of turns on one tier and candidate list, the object's own counters of that tier grow by the turns that found their window open and by the others; for live sessions by the calls less the distinct sessions and by the distinct sessions |
| Admission.StartHolds | gateway/src/agent_serve/admission/controller.py:24-43 | a new controller meets the admission invariant |
| Admission.StepKeepsInvariant | gateway/src/agent_serve/admission/controller.py:50-77 | every atomic step (arrive, grant, timeout, cancel, finish, orphan) keeps conservation, exact queue depth and live holders |
| AdmissionRuns.PermitsAreConserved | gateway/src/agent_serve/admission/controller.py:50-77 | in every reachable state free + held + overwritten permits equal the capacity, and the waiting count is exact and within 0..max_queue |
| AdmissionRuns.ArrivalWaitsExactlyWhen | gateway/src/agent_serve/admission/controller.py:50-65 | an arrival starts waiting iff it is within budget, a backend is healthy, its tier has a queue and the queue has room; else nothing changes |
| AdmissionRuns.RefusedIsNeverServed | gateway/src/agent_serve/admission/controller.py:50-64 | over every run, a request that arrived over budget, without a healthy backend or wanting Auto is never waiting nor served |
| AdmissionRuns.InFlightPassedTheGate | gateway/src/agent_serve/admission/controller.py:50-66 | every request in flight arrived within budget, with a healthy backend, on a tier that has a queue |
| AdmissionRuns.CapacityAtQuiescence | gateway/src/agent_serve/admission/controller.py:63-77 | with nothing in flight no holder is left, each tier misses exactly its overwritten records, and both are whole iff admitted requests never shared a session in the run |
| AdmissionRuns.OverwrittenExactlyWhen | gateway/src/agent_serve/admission/controller.py:63-77 | a record is overwritten in a run iff two admitted requests share a session somewhere in it |
| AdmissionRuns.CapacityIsBackExactlyWhen | gateway/src/agent_serve/admission/controller.py:50-77 | in every reachable state both tiers are whole iff nobody is admitted and admitted requests never shared a session |
| AdmissionRuns.OrphansKeepTheirPermits | gateway/src/agent_serve/gateway/routes/chat.py:93-105 | with only streams that never started in flight, both tiers are whole iff there is none of them and none ever shared a session |
| AdmissionRuns.DistinctSessionsConserve | gateway/src/agent_serve/admission/controller.py:50-77 | if admitted requests never share a session nothing is overwritten, free + admitted equal the capacity, and it all returns at quiescence; waiting requests may share |
| AdmissionRuns.FinishReleasesExactlyOnce | gateway/src/agent_serve/gateway/routes/chat.py:154-155 | in every reachable state a finish returns one permit, to the recorded tier, iff the session is recorded, and a second release none; if admitted requests never shared a session it is the request's own |
| AdmissionRuns.ConcurrencyIsBounded | gateway/src/agent_serve/admission/controller.py:63-77 | admitted requests of a tier never exceed its capacity plus strayed permits; with one tier per session, duplicates allowed, never its capacity |
| AdmissionBound.BothTakenIsReachable | gateway/src/agent_serve/admission/controller.py:63-66 | at any limits one session can hold a Small permit and any number of Big ones with one holder record |
| AdmissionBound.TwoTierSessionBreaksTheBound | gateway/src/agent_serve/admission/controller.py:63-77 | at any limits, requests of one session on both tiers can get the Big tier one over its capacity |
| AdmissionBound.BoundHoldsExactlyWhen | gateway/src/agent_serve/admission/controller.py:45-77 | for any set of allowed sessions and tiers, no run gets a tier over its capacity iff no session is allowed on both tiers (or nobody may wait) |
| AdmissionErasure.FailedGatesLeaveNoTrace | gateway/src/agent_serve/admission/queue.py:28-44 | erasing every request whose gate fails or still waits leaves a run with the same permits, holders and admitted requests |
| Controllers.BackpressureQueue.Enter | gateway/src/agent_serve/admission/queue.py:30-32 | queued iff there is room, and then counted |
| Controllers.BackpressureQueue.Resume | gateway/src/agent_serve/admission/queue.py:35-41 | only a grant takes a permit; the waiting count goes down on every outcome |
| Controllers.BackpressureQueue.Release | gateway/src/agent_serve/admission/queue.py:46-47 | one permit more |
| Controllers.AdmissionController.constructor | gateway/src/agent_serve/admission/controller.py:24-43 | the controller starts as the run model's start state; each tier's queue has the healthy backends' total of that tier, at least one, as permits, and nobody waits or holds |
| Controllers.AdmissionController.TotalInflight | gateway/src/agent_serve/admission/controller.py:45-48 | the healthy backends' total, at least one; with limits that are not negative no healthy backend's own limit exceeds it |
| Controllers.InflightAdds | gateway/src/agent_serve/admission/controller.py:45-47 | the total of two lists put together is the sum of their totals |
| Controllers.InflightOfOne | gateway/src/agent_serve/admission/controller.py:45-47 | the total of one backend is its limit, of none zero |
| Controllers.InflightOneMore | gateway/src/agent_serve/admission/controller.py:45-47 | a backend more adds exactly its own limit, wherever it stands |
| Controllers.InflightIgnoresOrder | gateway/src/agent_serve/admission/controller.py:45-47 | the same backends in any order have the same total |
| Controllers.AdmissionController.GateEnter | gateway/src/agent_serve/admission/controller.py:50-65 | over budget iff the agent's usage and estimate exceed it; else no backend iff none is healthy; else no queue iff the tier is Auto; else full iff the tier's waiting count is at its limit; else enqueued. A refusal changes no permit, and no debit is made |
| Controllers.AdmissionController.EnterQueue | gateway/src/agent_serve/admission/controller.py:50-65 | the same decision from the two answers; only being enqueued shows, as one more waiting in the tier's own queue |
| Controllers.AdmissionController.CheckFunds | gateway/src/agent_serve/admission/controller.py:51-59 | the budget decision of the agent's whole history, with every ledger only read |
| Controllers.DebitExtendsLedger | gateway/src/agent_serve/accounting/accountant.py:28-32 | a debit adds exactly one entry, its own, to the ledger |
| Controllers.AdmissionController.GateResume | gateway/src/agent_serve/admission/controller.py:65-66 | a grant takes one permit of the tier's queue and records the holder; any other outcome changes no permit and no record; either way the tier's waiting count goes down by one and the other queue is untouched |
| Controllers.AdmissionController.Release | gateway/src/agent_serve/admission/controller.py:74-77 | the recorded tier gets its permit back whatever tier is named; without a record nothing happens |
| Accounting.LazyEvictionIsExact | gateway/src/agent_serve/accounting/accountant.py:18-35 | for any clock readings, seen from a cutoff, exactly the debits that outlive it and the cutoff of every later operation are kept, in order |
| Accounting.LedgerIsKeptExactlyWhen | gateway/src/agent_serve/accounting/accountant.py:18-35 | for any clock readings, the entries kept are the full ledger seen from a cutoff iff no debit inside has a later operation whose cutoff is younger |
| Accounting.UsageIsLedgerSumExactlyWhen | gateway/src/agent_serve/accounting/accountant.py:18-35 | for any clock readings, the reported usage never exceeds the ledger sum, and equals it iff no tokens inside the window were so dropped |
| Accounting.UsageIsLedgerSum | gateway/src/agent_serve/accounting/accountant.py:18-35 | under a nondecreasing clock the reported usage is the sum of all debits ever made inside the window |
| Accounting.QueriesAreInvisible | gateway/src/agent_serve/accounting/accountant.py:22-26 | a query inserted anywhere changes no later answer |
| Accounting.OutOfOrderReadingsUnderReport | gateway/src/agent_serve/accounting/accountant.py:22-32 | since the clock is read before the lock, an out-of-order reading can lose a recent debit |
| Accounting.BudgetHoldsInEveryInterval | gateway/src/agent_serve/accounting/accountant.py:18-51 | if every debit follows a successful check of its size, every closed interval of the window's length holds at most the budget |
| Accounting.BetweenSplits | gateway/src/agent_serve/accounting/accountant.py:18-20 | an interval takes each debit by its own time, in order |
| Accountants.WindowState.EvictExpired | gateway/src/agent_serve/accounting/accountant.py:18-20 | exactly the entries not older than the window stay, in order |
| Accountants.WindowState.CurrentUsage | gateway/src/agent_serve/accounting/accountant.py:22-26 | the expired entries are evicted, and the sum of those left is reported |
| Accountants.WindowState.Add | gateway/src/agent_serve/accounting/accountant.py:28-32 | the expired entries are evicted, and the debit is appended with its timestamp |
| Accountants.WindowState.HasBudget | gateway/src/agent_serve/accounting/accountant.py:34-35 | true iff the sum of the entries inside the window plus the estimate fits the budget; expired entries are evicted |
| Accountants.UsageOfHistory | gateway/src/agent_serve/accounting/accountant.py:22-26 | under a nondecreasing clock a query adds up every debit of the agent's history inside the window |
| Accountants.TokenAccountant.StateOf | gateway/src/agent_serve/accounting/accountant.py:41-45 | a window is made on first access only, with no history; no other agent's history changes |
| Accountants.TokenAccountant.CheckBudget | gateway/src/agent_serve/accounting/accountant.py:47-48 | the usage that the agent's whole history calls for decides; other agents are untouched |
| Accountants.TokenAccountant.Debit | gateway/src/agent_serve/accounting/accountant.py:50-51 | input plus output tokens are added to the agent's history alone, and the entries kept follow it |
| Accountants.TokenAccountant.GetUsage | gateway/src/agent_serve/accounting/accountant.py:53-60 | the usage that the agent's whole history calls for; other agents are untouched |
| Accountants.TokenAccountant.Save | gateway/src/agent_serve/accounting/snapshot.py:46-56 | every agent's entries exactly as kept, nothing evicted |
| Accountants.TokenAccountant.RestoreOne | gateway/src/agent_serve/accounting/snapshot.py:67-74 | one agent's window becomes its saved entries inside the saved window, other agents are untouched |
| Accountants.TokenAccountant.Restore | gateway/src/agent_serve/accounting/snapshot.py:61-74 | each saved agent's window becomes its saved entries inside the saved window; the others stay |
| Restarts.RestartWithinWindow | gateway/src/agent_serve/accounting/snapshot.py:46-74 | with a window not longer than the saved one, a restarted window answers as the full ledger of the debits before and after |
| Restarts.RestartAnswers | gateway/src/agent_serve/accounting/snapshot.py:46-74 | with any new window a restarted window answers as the ledger without what was older than the saved window at the restore |
| Restarts.LongerWindowShows | gateway/src/agent_serve/accounting/snapshot.py:69-74 | with a longer one a dropped debit is missing from an answer |
| Restarts.RestartInvisibleExactlyWhen | gateway/src/agent_serve/accounting/snapshot.py:46-74 | so the restart is invisible for all histories before and after it and all times iff the new window is not longer than the saved one, or negative |
| Restarts.RestartIsLikeNeverStopping | gateway/src/agent_serve/accounting/snapshot.py:46-74 | with the window unchanged the restarted accountant goes on answering as one that never stopped, also with later debits |
| Restarts.RestartsAreLikeNeverStopping | gateway/src/agent_serve/accounting/snapshot.py:46-74 | so does one that was restarted any number of times |
| Restarts.BudgetSurvivesRestarts | gateway/src/agent_serve/accounting/snapshot.py:14-18 | over any number of restarts, with checks answered by the window as restored, every interval of the window's length, also one spanning restarts, holds at most the budget |
| Accountants.Restart | gateway/src/agent_serve/accounting/snapshot.py:46-74 | save, new accountant, restore: every agent's later answers, with whatever debits come after, are its ledger's without what the restore dropped, and its full ledger's if the new window is not longer |
| Health.RecordReadsTheSuffix | gateway/src/agent_serve/backends/health.py:24-36 | the two counters are the trailing streaks, and the status is the one the suffix calls for |
| Health.StreakIsSuffix | gateway/src/agent_serve/backends/health.py:21-36 | a streak of n is the same as the last n probes going one way |
| Health.StatusIsAFunctionOfTheSuffix | gateway/src/agent_serve/backends/health.py:57-90 | with non-overlapping probes a backend is routable iff no probe completed or the last successes were enough, and DOWN iff the last failures were; ids, tiers and order never change |
| Health.OverlapAgreesExactlyWhen | gateway/src/agent_serve/backends/health.py:83-90 | in every run from the start, overlapping probes included, a completion leaves the right status iff its result differs from the status it began with or that status is still current |
| Health.RunKeepsCounted | gateway/src/agent_serve/backends/health.py:57-90 | in every run, overlapping probes included, the counters follow the completed probes and ids, tiers and order never change |
| Health.UndisturbedProbeRecovers | gateway/src/agent_serve/backends/health.py:63-90 | after any run, one probe during which no other of its backend completes leaves the status the history calls for |
| Health.OverlapLosesARecovery | gateway/src/agent_serve/backends/health.py:83-90 | a run of two overlapping probes that leaves a recovered backend DEGRADED |
| Health.FailedProbeOnlyRemoves | gateway/src/agent_serve/backends/health.py:74-90 | for the scheduler a failed probe is a backend leaving, or nothing |
| HealthRouting.ProbedRunsRouteByHrw | gateway/src/agent_serve/backends/health.py:63-90 | probes and clients interleaved: as long as what the probes change is calm for the sticky table, all selects are the rendezvous choice over what the probes left healthy |
| HealthRouting.RoutingHoldsUntilARecovery | gateway/src/agent_serve/backends/health.py:63-90 | so they are from the start of the gateway on, until a probe writes HEALTHY over another status; failing probes and the first OK probes of fresh backends are covered |
| HealthRouting.FirstSuccessRecoversNobody | gateway/src/agent_serve/backends/health.py:24-29 | with two or more successes required, the first OK probe of a fresh backend makes it DEGRADED and recovers nobody |
| Health.BackendHealthState.RecordSuccess | gateway/src/agent_serve/backends/health.py:24-29 | the counters and the status after an OK probe |
| Health.BackendHealthState.RecordFailure | gateway/src/agent_serve/backends/health.py:31-36 | the counters and the status after any other probe |
| Health.HealthChecker.BeginProbe | gateway/src/agent_serve/backends/health.py:63-70 | counters are made on first sight only |
| Health.HealthChecker.FinishProbe | gateway/src/agent_serve/backends/health.py:71-90 | the registry is written iff the new status differs from the one the probe began with |
| Routing.RouteThenSelectServes | gateway/src/agent_serve/gateway/routes/chat.py:65-75 | with the rule's tier wanted, or else the classifier's: the select fails iff that tier and its fallback are both empty; what it serves is healthy and of the decision's tier; FALLBACK iff the tier was switched |
| Routing.QueueIsReachedExactlyWhen | gateway/src/agent_serve/gateway/routes/chat.py:65-79 | nobody over budget gets to a queue; within budget, a request wanting Small or Big does iff either has a healthy backend; one wanting Auto iff Small has one and Auto has none, so it goes unserved although a queue could serve iff an Auto backend is healthy beside Small or Big, or Big is alone |
| Routing.TierRouter.Choose | gateway/src/agent_serve/routing/router.py:36-62 | a rule's tier and reason, or else the classifier's, are kept if the tier has a healthy backend; otherwise Small falls back to Big, Big and Auto to Small, with reason FALLBACK; with nobody anywhere the tier stays without a backend; classifier_used says whether no rule fired |
| ChatRoute.Complete | gateway/src/agent_serve/gateway/routes/chat.py:158-197 | success, upstream error and cancellation all release the session exactly once, in whatever state others have left the controller |
| ChatRoute.Stream | gateway/src/agent_serve/gateway/routes/chat.py:121-155 | all chunks are passed on in order, an error adds the end marker, the first chunk is timed once, and the release happens once |
| ChatRoute.AdmitAndCall | gateway/src/agent_serve/gateway/routes/chat.py:77-105 | permits and holders are settled around whatever others do while the request waits and while it is served, with the reply to each answer of the gate, each end of the wait and each end of the call |
| ChatRoute.AdmitSelected | gateway/src/agent_serve/gateway/routes/chat.py:70-105 | 503 without a selected backend, and only then; else gate and call |
| ChatRoute.Perform | gateway/src/agent_serve/gateway/routes/chat.py:93-105 | a call, or a stream that starts, releases the session; a stream that never starts does not |
| ChatRoute.SettledMeans | gateway/src/agent_serve/gateway/routes/chat.py:77-105 | tier by tier, whatever others do: a refusal changes nothing; a wait given up leaves permits and records and one waiting less; a finish returns one permit, to the recorded tier, iff the session is recorded; a stream that never starts keeps its permit and record |
| ChatRoute.LifeFollowsTheProtocol | gateway/src/agent_serve/gateway/routes/chat.py:77-105 | each path's controller is the one after the admission protocol's Arrive, TimeOut or Cancel, Grant and Orphan, or Finish, from whatever system it found |
| ChatRoute.RepliesMean | gateway/src/agent_serve/gateway/routes/chat.py:77-118 | which requests are answered 503, 500, 429, 502, 200 or not at all, in terms of budget, backends, tier, room, wait and call |
| ChatRoute.SentMeans | gateway/src/agent_serve/gateway/routes/chat.py:134-153 | only a started stream delivers anything: its chunks, and the end marker exactly after an error |
| ChatRoute.SettledAsBefore | gateway/src/agent_serve/gateway/routes/chat.py:77-105 | for a session without a record, and nobody else on the controller, permits and holders end as they began iff the request is not an admitted stream that never starts |
| ChatRoute.RouteAndSelect | gateway/src/agent_serve/gateway/routes/chat.py:65-75 | routing and affinity over one registry state |
| ChatRoute.ChatCompletion | gateway/src/agent_serve/gateway/routes/chat.py:45-118 | a request, streaming or not, whatever others do on the controller: permits and holders are settled, the ledger is uncharged, the session is bound even if admission refuses it, and the reply is 503 iff the decision's tier has no healthy backend, else the gate's, the wait's and the call's |
| Sorting.StableSortIsUnique | demo_agent/corpus/algorithms.py:57-67 | there is only one stable sorted permutation |
| Sorting.QuicksortIsStable | demo_agent/corpus/algorithms.py:25-33 | the list quicksort sorts stably |
| Sorting.MergeLists | demo_agent/corpus/algorithms.py:70-82 | the index loop computes the recursive merge |
| Sorting.MergeIsStable | demo_agent/corpus/algorithms.py:70-82 | merging sorted lists sorts stably, left before right |
| Sorting.MergeSortIsStable | demo_agent/corpus/algorithms.py:57-67 | merge sort sorts stably |
| Sorting.SortsAgree | demo_agent/corpus/algorithms.py:25-82 | both list sorts give the same sequence, a sorted permutation |
| Sorting.BinarySearch | demo_agent/corpus/algorithms.py:8-19 | an index of the target, or -1 iff it is absent |
| Sorting.Partition | demo_agent/corpus/algorithms.py:46-54 | the pivot lands with nothing larger before it and only larger elements after it; the slice is rearranged, the rest untouched |
| Sorting.QuicksortInPlace | demo_agent/corpus/algorithms.py:36-43 | the slice ends sorted with its multiset kept, everything outside untouched; bounds enclosing fewer than two elements change nothing |
| Sorting.QuicksortWhole | demo_agent/corpus/algorithms.py:38-43 | without bounds the whole array is sorted |
| LinkedLists.WithoutFirstAt | demo_agent/corpus/data_structures.py:42-54 | removing the first occurrence is taking out the first matching position |
| LinkedLists.LinkedList.constructor | demo_agent/corpus/data_structures.py:19-21 | an empty acyclic chain |
| LinkedLists.LinkedList.Prepend | demo_agent/corpus/data_structures.py:23-28 | a new node in front of the unchanged chain; size exact |
| LinkedLists.LinkedList.Append | demo_agent/corpus/data_structures.py:30-40 | a new node behind the unchanged chain; size exact |
| LinkedLists.LinkedList.Delete | demo_agent/corpus/data_structures.py:42-54 | exactly the first occurrence goes, reported truthfully; size exact |
| LinkedLists.LinkedList.Search | demo_agent/corpus/data_structures.py:56-63 | the first matching node, null iff there is none |
| LinkedLists.LinkedList.ToList | demo_agent/corpus/data_structures.py:65-70 | the contents in order, as many as the cached size |

## Left out

- HTTP proxying, probing and the bytes of streams: a probe or call is an arbitrary result.
- SHA-256: the score is an arbitrary function of session and backend; that it spreads sessions evenly is not modelled.
- asyncio, threading and JSON internals: an idealised semaphore (a wait ends in exactly one of grant, timeout or cancel, and only a grant takes a permit), atomic lock regions, exact serialisation; malformed snapshot files are not modelled.
- Identifiers are opaque values that can only be compared; the "__unavailable__" marker is an absent id, so a backend configured with that name is not modelled.
- Time is real-valued: float rounding of clock readings is not modelled, nor is a monotonic clock that starts over after a reboot.
- The FastAPI wiring, configuration loading, logging, tracing and all metrics except the affinity counters: plumbing.
- Rule-based routing and the classifier with its cache: short branches around a model call; their result is an arbitrary tier and reason.
- The corpus's Stack and the list's `__repr__`: easy members.
- Load generator, studies, demo agent and its tools: clients.
- Fairness and latency of waiting: they depend on the event loop.
- The sticky table and the accountant's window table are never swept by the code; their growth is not modelled.
- ChatRoute.ChatCompletion: what others do to the controller while the request is suspended comes in as the two states it is found in; what they do to the sticky table, the registry and the token windows after this request has read them is not in the contract; all interleavings of gates and releases are the runs of AdmissionRuns.
- ChatRoute.AdmitAndCall: the second budget reading on refusal uses the same clock reading.
- Affinity.EagerAndLazyRepairAgree: runs in which backends only leave; the two repairs bind differently meanwhile, so what a return then beats differs between them.
- Restarts.BudgetSurvivesRestarts: window and budget are the same in every life, because with a changed one there is no single interval length and bound to speak of.
- Debits between a periodic save and a crash are lost by the code; the model saves at the end of the history, as `stop` does (snapshot.py:34-39).
