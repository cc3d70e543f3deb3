# Verified model of youk's state machines

youk keeps a coding agent's work in order: a task graph that says what may be worked on next, a
battery that runs benchmark tasks under a budget, an append-only store of lessons, a ledger of
events, a coverage tree that shows what a plan forgot, and an installer for its hooks. This project
models the parts that hold state and proves what they promise, in Dafny 4.11. `dafny verify
dfyconfig.toml` checks everything.

Code that changes things in place is modelled by classes and loops, each method proved against a
function on values; the promises are then lemmas about those functions, over every input, every run
or every reachable state.

## What each file holds

| files | part of the system |
|---|---|
| Digraph, CycleGuard | directed graphs; the three-colour search that keeps the task graph acyclic |
| TaskGraph, TaskStore | the two tables, every write to them, and the live store |
| Scheduler | which task is next, why none is, what picking and finishing achieves |
| Repair, PlanStatus | the two scripts that also write the graph |
| TaskRuns | whole histories of all five writes |
| RoundRobin, Grouping | taking turns between queues; grouping items by name |
| BatteryPlan, Budget, BatteryRun | what to run, what may be spent, and the resumable run loop |
| PublicSample | the quota sample of public benchmark instances |
| Clustering, RelevanceRank | first-fit clustering and ranking over given similarity scores |
| PatternStore, ConcurrentRetire, ContractRanking | the live view of the lesson store, retirement, alone and interleaved, ranking, rendering |
| SharedFile, LockProtocol | the locked file operations as interleaved process steps |
| EventLedger | monthly shards, pruning, filing |
| CoverageTree, CoverageBuild, ReviewOrder, ConceptTemplates | merging an adversary's findings, the live tree, what to review first, the templates that grow |
| HookMerge | installing and removing hook groups, and the script around it |
| Prelude, TextOrder, StableSort | sequences, text order, stable sorting |

## Modelling choices

- The tables are a map of rows, a list of ids by rowid, and a set of edges; one call is one
  transaction. The column `label` is the field `title`, because `label` is a Dafny keyword.
- The agent that executes a run, the adversary and the populator of a coverage tree, and the
  similarity matrix are arbitrary functions of their inputs and of how many calls came before; clocks
  are parameters.
- Money is exact: costs are reals. `Budget.Times(n, x)` is n times x, defined by repeated addition.
- A query's start is any moment; `EventLedger.PruningIsSafeExactly` takes the least text a start may have
  after its month as a parameter.
- An interrupted battery call is one that is stopped before any of its runs; every row it wrote stays.
- The shared file starts as whole lines, and one process handles one request. A write reaches the
  file a character at a time; a process may die at any point except inside its write, and its lock
  goes with it.
- A month is counted from year 0 on and named by its text, as the shard files are; the order of shards
  and of event stamps is the order of their texts.
- `set(...)` iteration and SQL rows without ORDER BY come in an arbitrary order.

## Where the code differs from what it says

- `next_task(project)` serves only rows of that project (graph.py:303-308); the comment at line 316
  says untagged rows too. The model follows the code.
- graph.py:361-363 says finishing is the only thing that closes a started task; releasing its claim
  does as well (`TaskRuns.WhatCloses`).
- plan_status.py marks every plan task unblocked even when its plan was refused
  (`PlanStatus.RefusedPlanLeavesStubs`; `PlanStatus.RefusedLoadIsNoOpExactly` says when that changes
  nothing).
- The spending cap is a guard on an estimate: four or more runs can exceed it
  (`Budget.CapIsKeptExactly` says when).
- Exactly-once needs distinct task ids and arms, which nothing checks
  (`BatteryRun.OnceNeedsCleanInput`).
- An event stamped by its caller into a later month than it is written in is invisible to a pruned
  read (`EventLedger.EarlyFiledEventIsLost`; `EventLedger.PruningIsSafeExactly` says which logs are safe).
- The docstring of `add_concept_to_template` promises that an addition survives a restart; one whose
  first write failed does not, even if it is caught again (`ConceptTemplates.RestartKnowsSavedCatches`).
- "Other hooks are left alone" holds for hooks whose commands do not contain the text of the scripts
  directory (`HookMerge.NeighbourIsTakenForOurs`).
- A second retire of the same id appends nothing only if it reads after the first has appended
  (`ConcurrentRetire.BothMayAppend`); the live view is the same either way.
- A negative cap makes `global_contracts` return more than the cap
  (`ContractRanking.GlobalContractsFitTheCap`).

## Model

| member | source | states |
|---|---|---|
| CycleGuard.WouldCycle | servers/core/src/graph.py:195-214 | the guard answers true if and only if the edge list, as a set, contains a directed cycle; it terminates on every list |
| CycleGuard.Search.Visit | servers/core/src/graph.py:203-212 | one recursive visit: true only if there is a cycle; otherwise the vertex and everything it leads to is finished, earlier colours stay, and the finished vertices are closed and acyclic |
| CycleGuard.Search.Follow | servers/core/src/graph.py:205-210 | the loop over a vertex's successors: true only if there is a cycle, else every successor is finished |
| CycleGuard.Search.FollowEdge | servers/core/src/graph.py:206-210 | one successor: a grey one closes a cycle through the current walk, a white one is visited, a black one is skipped |
| CycleGuard.BackEdge | servers/core/src/graph.py:207-208 | an edge back to a grey vertex always closes a directed cycle |
| CycleGuard.EnterKeeps | servers/core/src/graph.py:204 | turning a vertex grey keeps the grey vertices one walk and the black ones closed |
| CycleGuard.LeaveKeeps | servers/core/src/graph.py:211 | turning a vertex black keeps the black vertices closed and acyclic |
| Digraph.AcyclicHasSource | servers/core/src/graph.py:195-196 | every non-empty set of vertices of an acyclic graph has one without a predecessor in the set |
| TaskGraph.CreateSound | servers/core/src/graph.py:149-190 | a create keeps the tables sound; refused, it leaves the edges as they were; accepted, it adds exactly its edges |
| TaskGraph.AcceptedCreateRows | servers/core/src/graph.py:156-187 | an accepted create adds its tasks and the endpoints of its edges and no other row; a known row keeps label, gates, claim and completion, and its owner if it has one; a new row has the first label given, and every column of it is named |
| TaskGraph.CreatedRowsStartClosed | servers/core/src/graph.py:156-187 | no row a create adds, task or stub, has a gate cleared, is in flight, claimed, done or stale |
| TaskGraph.AdoptionExactly | servers/core/src/graph.py:162-165 | an unowned row takes the first owner a create names, and an owned row keeps its own |
| TaskGraph.SetGateSound | servers/core/src/graph.py:229-251 | a gate write, known name or not, keeps the tables sound |
| TaskGraph.StartSound | servers/core/src/graph.py:366-374 | starting a task keeps the tables sound |
| TaskGraph.MarkDoneSound | servers/core/src/graph.py:434-439 | finishing a task, known or not, keeps the tables sound |
| TaskGraph.GateColumns | servers/core/src/graph.py:229-251 | each gate name writes its own column of the row or of a fresh stub, the in-flight gate the claim too, and no other name writes anything |
| TaskGraph.StartAndDoneColumns | servers/core/src/graph.py:366-439 | which columns starting and finishing leave in a known row and in a new one |
| TaskGraph.CreateIdempotent | servers/core/src/graph.py:156-187 | repeating a create, accepted or refused, changes nothing more |
| TaskGraph.LastGateWriteWins | servers/core/src/graph.py:217-251 | a gate holds what was last written to it, whatever stood before; so setting it is idempotent |
| TaskGraph.GateWritesCommute | servers/core/src/graph.py:240-250 | gates are independent: writes to different gates, or to different known tasks, commute |
| TaskGraph.ReleaseUndoesClaim | servers/core/src/graph.py:224-225 | releasing a claim gives back the database as it was before the claim if and only if the task was known and nobody held it |
| TaskGraph.StartIdempotent | servers/core/src/graph.py:357-359 | starting a task is idempotent |
| TaskGraph.MarkDoneIdempotent | servers/core/src/graph.py:427-429 | finishing a task is idempotent |
| TaskStore.Store.CreateTaskGraph | servers/core/src/graph.py:130-192 | the live call: accepted exactly when the edges keep the graph acyclic, a refused call restores every table, the reply distinguishes self-edges from cycles and counts rows and edges really added |
| TaskStore.Store.SeedTasks | servers/core/src/graph.py:156-165 | the task loop: insert-or-ignore, adopt an unowned row, count rows added |
| TaskStore.Store.LinkTasks | servers/core/src/graph.py:175-187 | the edge loop: stub both endpoints, insert-or-ignore the edge, count edges added |
| TaskStore.Store.SetTaskGate | servers/core/src/graph.py:217-253 | the live gate write: the new tables are exactly the specified ones, an unknown gate is refused without a write |
| TaskStore.Store.StartTask | servers/core/src/graph.py:355-375 | the live start: the row is in flight, claimed, not done, owned if it was not |
| TaskStore.Store.MarkTaskDone | servers/core/src/graph.py:424-440 | the live finish: done, claim cleared, a missing row stays missing |
| TaskStore.Store.OpenTasks | servers/core/src/graph.py:378-394 | exactly this project's unfinished in-flight rows, each once, oldest first, with label and claim, and how many of its rows are unfinished |
| TaskRuns.ReachableIsSound | servers/core/src/graph.py:130-440 | in every database reachable from the empty one by creates, gate writes, starts, finishes and repairs: no directed cycle, every edge ends in rows, one rowid per row, only in-flight rows carry a claim |
| TaskRuns.ApplyIdempotent | servers/core/src/graph.py:130-440 | each of the five writes is safe to repeat in every sound state |
| TaskRuns.RunKeepsTask | servers/core/src/graph.py:156-165 | no history renames, reassigns or drops a task whose label differs from its id |
| TaskRuns.StartedThenFinished | servers/core/src/graph.py:355-375 | starting puts a task on its owner's stopped-here list even if it was done; starting and then finishing is finishing, if and only if it was known and owned |
| TaskRuns.WhatCloses | servers/core/src/graph.py:361-363 | a started, unfinished task leaves that list on finishing it or on releasing its claim, and on nothing else (the docstring names finishing only) |
| TaskRuns.AcceptedIffAcyclic | servers/core/src/graph.py:149-187 | a sequence of creates is accepted in full if and only if all its edges with the stored ones have no directed cycle; then exactly those edges are stored |
| TaskRuns.BatchingDoesNotMatter | servers/core/src/graph.py:167-187 | from the empty graph, how edges are batched and ordered changes neither acceptance nor what is stored |
| Scheduler.NextTaskIsLeastReady | servers/core/src/graph.py:310-333 | the task served is the least ready id, and some task is served as soon as any is ready; an edge from no row blocks nothing |
| Scheduler.NextTaskInColumns | servers/core/src/graph.py:303-333 | the task served is unblocked, not in flight, not done, of the project asked for, with every parent row done; and every such row is served or has a greater id than the one that is |
| Scheduler.NoUnexplainedStall | servers/core/src/graph.py:288-352 | nothing is served if and only if every unfinished row in scope waits, through a chain of unfinished parents, on a row that is not unblocked, in flight or out of scope |
| Scheduler.OpenGraphNeverStalls | servers/core/src/graph.py:311-315 | with every unfinished task unblocked and none claimed, unfinished work always yields a task |
| Scheduler.MarkDoneReleases | servers/core/src/graph.py:427-429 | finishing a task makes ready exactly those children for which it was the last unfinished parent |
| Scheduler.ClaimTakesOnlyThat | servers/core/src/graph.py:217-225 | while a session holds a task nobody is served it, and every other task is as ready as before |
| Scheduler.RunKeeps | servers/core/src/graph.py:217-253 | at any point of a pick-claim-finish run the graph is sound, the unfinished work is what it started with less the picks, and unpicked rows are untouched |
| Scheduler.RunIsTopological | servers/core/src/graph.py:288-333 | every pick is new, is the least ready id of its moment, and comes after all its unfinished parents |
| Scheduler.RunLength | servers/core/src/graph.py:424-440 | a run never outlasts the unfinished work and never picks a task twice |
| Scheduler.RunToTheEnd | servers/core/src/graph.py:335-336 | from every sound state some finite run ends with nothing to serve |
| Scheduler.RunFinishesEverything | servers/core/src/graph.py:288-352 | from all tasks unblocked and none claimed, a run that ends took exactly one round per unfinished task and finished them all |
| Repair.GuardIsExact | scripts/repair_task_graph.py:67-74 | deleting done stubs keeps every edge ending in rows if and only if the guard finds no done stub on an edge |
| Repair.RepairedSound | scripts/repair_task_graph.py:109-113 | the guarded repair keeps the tables sound and the edges as they are |
| Repair.RepairedRows | scripts/repair_task_graph.py:67-85 | row by row: a done row labelled with its own id goes, any other such row keeps all but its three gates, which close, and is marked stale, and every other row stays; refused exactly when an edge names a row that would go |
| Repair.RepairStopsPhantoms | scripts/repair_task_graph.py:81-85 | after a repair no stub is ready, and every real task is ready exactly when it was before |
| Repair.RepairIdempotent | scripts/repair_task_graph.py:90-125 | a second repair changes nothing |
| Repair.ApplyRepair | scripts/repair_task_graph.py:77-87 | the deletion and the update on the live store, with both counts |
| Repair.RunRepair | scripts/repair_task_graph.py:90-125 | the script: refuses exactly when a done stub is on an edge, writes only with --apply |
| PlanStatus.LoadPlan | scripts/plan_status.py:44-52 | the load loop on the live store equals the create followed by every unblock |
| PlanStatus.LoadKeepsProgress | scripts/plan_status.py:48-51 | loading a plan leaves done, in-flight, claim, label and the other gates of every known row alone |
| PlanStatus.LoadedTask | scripts/plan_status.py:44-52 | a task an accepted plan brings is the project's, carries its label, and has unblocked as its only set column |
| PlanStatus.LoadIdempotent | scripts/plan_status.py:44-52 | loading the same plan again changes nothing |
| PlanStatus.RefusedPlanLeavesStubs | scripts/plan_status.py:47-51 | a plan whose edges are refused still leaves an unowned, unblocked stub per new task, ready for anyone but this project |
| PlanStatus.RefusedLoadIsNoOpExactly | scripts/plan_status.py:47-52 | a refused load changes nothing if and only if every plan task is already known and unblocked |
| PlanStatus.ReportAccountsForAll | scripts/plan_status.py:55-70 | done, left and not-loaded account for every plan task, and mean what they say |
| PlanStatus.NothingReadyIsExplained | scripts/plan_status.py:81-82 | when the report has no next task, everything left of this project waits on a held row |
| BatteryPlan.PlanMembers | scripts/sim/run_battery.py:326-328 | a run is planned exactly for each task, arm and repetition below k whose key is not done |
| BatteryPlan.PlanDistinct | scripts/sim/run_battery.py:326-328 | planned keys are distinct if and only if task ids and arms are (or there is nothing to plan) |
| BatteryPlan.SpecAt | scripts/sim/run_battery.py:327 | the list of runs goes repetition by repetition, task by task, arm by arm |
| BatteryPlan.StoppingEarlyLeavesPairs | scripts/sim/run_battery.py:327 | any front of the list of runs has the arms' counts at most one apart |
| BatteryRun.ResumingLeavesPairs | scripts/sim/run_battery.py:327-399 | however often a battery is stopped and resumed without an infrastructure failure, the log has the arms' counts at most one apart |
| BatteryPlan.Stratify | scripts/sim/run_battery.py:335-349 | the grouping and popping loops produce the specified order and terminate |
| BatteryPlan.StratifiedPermutes | scripts/sim/run_battery.py:339-349 | stratifying permutes the tasks and puts every multi-file task before every small one |
| BatteryPlan.StratifiedIsFair | scripts/sim/run_battery.py:336-348 | in every prefix of a band two groups are at most one apart unless the smaller is used up, and each group keeps its input order |
| BatteryPlan.StratifiedByColumns | scripts/sim/run_battery.py:331-349 | the same in the tasks' columns: more than 4 files or 200 lines is multi-file; public tasks are spread by language, others by repository |
| BatteryPlan.ChunkAdvances | scripts/sim/run_battery.py:352-355 | finishing a chunk takes exactly that chunk off the front of the pending list |
| BatteryPlan.PendingMembers | scripts/sim/run_battery.py:354-355 | a task is pending exactly while some arm and repetition of it is not done |
| BatteryPlan.ChunksVisitEachPendingOnce | scripts/sim/run_battery.py:352-355 | chunk after chunk visits every pending task exactly once in stratified order; only the last chunk can be short |
| RoundRobin.TakeAll | scripts/sim/run_battery.py:345-348 | taking turns until every queue is dry |
| RoundRobin.PrefixIsFair | scripts/sim/run_battery.py:336-348 | taking turns, any two queues are never more than one item apart unless the smaller is used up |
| Grouping.SplitIntoQueues | scripts/sim/run_battery.py:340-344 | one queue per group, groups in name order, items in input order |
| Grouping.TurnsPermute | scripts/sim/run_battery.py:340-348 | grouping and taking turns loses nothing and repeats nothing |
| Grouping.TurnsKeepGroups | scripts/sim/run_battery.py:340-348 | grouping and taking turns keeps each group's own order |
| Grouping.FirstTurnByName | scripts/sim/run_battery.py:344-348 | the first turn takes one item of each group, groups in name order |
| Budget.SpendBound | scripts/sim/run_battery.py:372-376 | with run costs between 0 and max_run: at most cap within three runs; after n+1 runs, n+1 times (spend less max_run) is at most n times cap |
| Budget.CapIsKeptExactly | scripts/sim/run_battery.py:372-376 | the cap holds for every cost history if and only if it is not negative and there are at most three runs, or cap is below max_run, or cap covers runs times max_run |
| Budget.OvershootSmallCap | scripts/sim/run_battery.py:375-376 | a history of four runs that exceeds a cap between max_run and four times it |
| Budget.OvershootLargeCap | scripts/sim/run_battery.py:375-376 | a history that exceeds a larger cap which does not cover every run |
| BatteryRun.ResultsLog.LoadDone | scripts/sim/run_battery.py:358-369 | the keys of readable rows whose status is not infra_error, and no others |
| BatteryRun.ResultsLog.RunPlan | scripts/sim/run_battery.py:385-399 | the run loop for any agent, interrupted anywhere: what is appended, what was spent, why it stopped |
| BatteryRun.ResultsLog.RunBattery | scripts/sim/run_battery.py:379-403 | one call: plan what is not done, run it, report planned, ran, skipped, spent and the stop reason; a call stops at the cap only when the spending plus max_run, or from three runs on plus the average cost, is above it |
| BatteryRun.RowsAnswerThePlan | scripts/sim/run_battery.py:386-399 | what a call writes: a row for each run made, in plan order, with that run's task, arm and repetition and the agent's status and cost for it |
| BatteryRun.StopInNumbers | scripts/sim/run_battery.py:386-395 | why a call stops: the cap, in numbers; three infra_error rows at its end; an interruption; or nothing left to run |
| BatteryRun.SessionSpend | scripts/sim/run_battery.py:386-398 | the spend bound for the runs of one call |
| BatteryRun.SessionWithinCap | scripts/sim/run_battery.py:386-398 | under safe settings one call never spends more than the cap |
| BatteryRun.NoFourFailuresInARow | scripts/sim/run_battery.py:390-394 | no call makes more than three infrastructure failures in a row |
| BatteryRun.SessionSettles | scripts/sim/run_battery.py:382-399 | one call adds one settled row to each key it finishes and touches no key already settled |
| BatteryRun.SettledAtMostOnce | scripts/sim/run_battery.py:382-399 | over any number of interrupted calls with distinct ids and arms, each key gets at most one row that is not an infrastructure failure, and the log only grows |
| BatteryRun.PlannedUntilSettled | scripts/sim/run_battery.py:326-328 | a run is planned exactly until it has such a row, so infrastructure failures are planned again |
| BatteryRun.FullCallSettlesAll | scripts/sim/run_battery.py:386-399 | a call that runs its whole plan without an infrastructure failure leaves exactly one such row for every planned key and nothing to plan |
| BatteryRun.OnceNeedsCleanInput | scripts/sim/run_battery.py:327-399 | no call on a fresh log can settle a key twice, whatever it writes, if and only if ids and arms are distinct or nothing is planned |
| PublicSample.TakeSample | scripts/sim/public_tasks.py:128-146 | the nested loops produce the specified sample and terminate |
| PublicSample.QuotaIsMet | scripts/sim/public_tasks.py:140-144 | a language contributes exactly min(quota, usable) rows, none more often than offered |
| PublicSample.ReposShareTheQuota | scripts/sim/public_tasks.py:140-144 | within a language two repositories are at most one pick apart unless the smaller is used up |
| PublicSample.LargestFixesFirst | scripts/sim/public_tasks.py:138-144 | no row of a repository is left out in favour of a smaller diff of the same repository |
| PublicSample.SampleOfLanguage | scripts/sim/public_tasks.py:130-146 | each language's share of the whole sample is its own picks, from rows neither taken nor rejected |
| PublicSample.SampleByColumns | scripts/sim/public_tasks.py:81-146 | a row is sampled only if it is not taken, of a known language and within the size limits, and every such row is once the quota does not bind |
| PublicSample.LanguagesInOrder | scripts/sim/public_tasks.py:136-146 | the sample goes language by language, in name order |
| RoundRobin.TakeUpTo | scripts/sim/public_tasks.py:140-144 | the loop that checks the quota before every item takes the first quota items of the unlimited loop |
| Clustering.ClusterBySimilarity | servers/shared/semantic_similarity.py:80-92 | the nested loops over any square matrix build the first-fit clusters: every text scores the threshold against the first of its cluster, unless it is that, and below it against the first of every earlier cluster |
| Clustering.FirstFitIsFirstFit | servers/shared/semantic_similarity.py:82-92 | first-fit clusters split the indices, ascend, and put every index with the earliest leader near it, itself leading if there is none |
| Clustering.FirstFitIsUnique | servers/shared/semantic_similarity.py:82-92 | and they are the only clusters that do |
| RelevanceRank.RankingIsBestFirst | servers/shared/semantic_similarity.py:132-137 | candidates at or above the floor, each once, best first, ties in input order; a limit keeps the front, and a limit of 0 means no limit |
| PatternStore.EffectivePatterns | servers/shared/contracts.py:40-48 | the dictionary loop produces the specified live view |
| PatternStore.EffectiveIsLatest | servers/shared/contracts.py:40-48 | the live view holds exactly the rows that no later row supersedes and that are not retired |
| PatternStore.LiveByColumns | servers/shared/contracts.py:40-48 | without clashing keys: a row is live exactly when its status is not retired and, if it has an id, no later row has the same |
| PatternStore.EffectiveInFirstSeenOrder | servers/shared/contracts.py:41-43 | of two live rows the earlier one's id appears in the store before the later one's first does |
| PatternStore.KeysTellEntriesApart | servers/shared/contracts.py:46-47 | a made-up key for an id-less row never merges two entries if and only if no stored id looks like one |
| PatternStore.RowsOfLines | servers/shared/jsonl_lock.py:58-81 | the store's rows are its lines in order, lines that do not parse passed over |
| PatternStore.Store.RetireGlobalPattern | servers/core/src/global_contracts.py:27-41 | one call at a time: which of the five answers is given and what it carries; a second retire appends nothing; a retirement takes exactly that id out of the live view if and only if the id holds its own row |
| ConcurrentRetire.InterleavedRetiresAgree | servers/core/src/global_contracts.py:29-39 | reads and appends of any calls interleaved in any way: tombstones are only added, the live view loses exactly their ids and keeps the rest in place, and a call that reports its learning retired is right from then on |
| ConcurrentRetire.TombstonesRetireTheirIds | servers/core/src/global_contracts.py:36-39 | however many tombstones follow, repeated or not, the live view loses exactly their ids |
| ConcurrentRetire.BothMayAppend | servers/core/src/global_contracts.py:29-39 | two calls that both read before either appends both append |
| ConcurrentRetire.InTurnOneAppends | servers/core/src/global_contracts.py:29-39 | one after the other, the second appends nothing |
| PatternStore.RetireRemovesOnlyThatId | servers/core/src/global_contracts.py:36-39 | the tombstone takes exactly that id out of the live view and leaves the rest in place, if and only if the live row kept under the id is its own |
| PatternStore.NoClashRetiresCleanly | servers/shared/contracts.py:46-47 | which it is whenever no id-less row has a made-up key that reads like the id |
| PatternStore.ClashHidesABystander | servers/shared/contracts.py:46-47 | a store where it is not: an id-less row whose made-up key reads like a stored id |
| ContractRanking.TwoSortsAreOneRanking | servers/shared/contracts.py:64-65 | newest-first and then stably by count is one ranking: count, then newest, then first seen |
| ContractRanking.RankedGlobalLessons | servers/shared/contracts.py:55-66 | the two in-place sorts and the cut produce the ranked lessons, none when the store is missing or has nothing to rank |
| ContractRanking.RankedLessonsAreLive | servers/shared/contracts.py:51-66 | every ranked lesson is the line of a standing row that has a statement, its sub-domain (or general) in brackets |
| ContractRanking.EveryLiveLessonLoads | servers/shared/contracts.py:59-66 | with room for all, every standing row that has a statement gives a line |
| ContractRanking.GlobalContractsFitTheCap | servers/shared/contracts.py:73-85 | at most cap lines if and only if cap is not negative, and then the kept defaults come first; a negative cap cuts the defaults from their end |
| ContractRanking.RoomGoesToTheBest | servers/shared/contracts.py:54-85 | a learning is left out only when the room went to ones that outrank it |
| ContractRanking.RenderedFillsIn | servers/shared/contracts.py:82-85 | with no learning to rank, the room after the defaults takes the last of the rendered lines |
| ContractRanking.RenderedDomain | servers/core/src/global_contracts.py:177-191 | the rendered section of a domain is its live rows, stably by sub-domain |
| ContractRanking.RenderedShowsLiveRows | servers/core/src/global_contracts.py:177-192 | the rendered view shows every live row once and no other |
| ContractRanking.RenderedInOrder | servers/core/src/global_contracts.py:178-190 | the rendered view goes up by domain (unclassified for none) and within one by sub-domain |
| SharedFile.SplitJoin | servers/shared/jsonl_lock.py:25 | writing lines and reading the text back by lines returns them |
| SharedFile.NoRowIsLost | servers/shared/jsonl_lock.py:15-28 | the file is what was there followed by every line a call reported as written, in order |
| SharedFile.IdsStayUnique | servers/shared/jsonl_lock.py:31-53 | guarded appends keep at most one row per id |
| SharedFile.SomeoneWroteIt | servers/shared/jsonl_lock.py:47-53 | a new id is in the file if and only if some call got True for it |
| SharedFile.OnlyOneWroteIt | servers/shared/jsonl_lock.py:47-53 | no two calls get True for one id |
| LockProtocol.StepInv | servers/shared/jsonl_lock.py:15-81 | every step of every process keeps the protocol's invariant |
| LockProtocol.LockedCallsAreSerial | servers/shared/jsonl_lock.py:15-81 | under any interleaving the file and every answer are those of running the settled calls one after another |
| LockProtocol.GuardedAppendsNeverDuplicate | servers/shared/jsonl_lock.py:31-55 | under any interleaving: at most one row per id, no row lost, no acknowledged row missing, no two callers told True for one id |
| LockProtocol.ExactlyOneIsTold | servers/shared/jsonl_lock.py:41-55 | under any interleaving an id newly in the file has exactly one writer: that call gets True once it returns, every other finished caller of the id False |
| LockProtocol.NobodyIsToldBefore | servers/shared/jsonl_lock.py:41-55 | under any interleaving no caller of an id has returned while the id is not in the file |
| LockProtocol.ReadersSeeWholeLines | servers/shared/jsonl_lock.py:58-73 | under any interleaving a reader gets whole lines only, a prefix of the file's, starting with all that was there at first |
| LockProtocol.SomeoneCanMove | servers/shared/jsonl_lock.py:23-28 | no deadlock: while a call is unfinished some process can take a step other than dying |
| EventLedger.MonthsBetween | servers/shared/events.py:127-136 | the loop terminates and yields the months from since to now, across year ends |
| EventLedger.MonthsMembers | servers/shared/events.py:131-136 | a month is in the set exactly when it is between the two, compared by its text |
| EventLedger.StemReads | servers/shared/events.py:134 | a month reads as four digits of year, a dash and two of month |
| EventLedger.StreamShard | servers/shared/events.py:155-170 | one shard's loop: unparseable lines and repeated event ids skipped, then the filters |
| EventLedger.ShardYields | servers/shared/events.py:155-170 | a shard yields an event exactly when some line is that event, no readable line before it has its id, its kind is asked for and it is not stamped before the start |
| EventLedger.ReadEvents | servers/shared/events.py:139-170 | the shards in the order of their file names, those outside the wanted months skipped; on a well-filed log an event is read exactly when an unfiltered scan has it, its kind is asked for and it is not stamped before the start |
| EventLedger.ShardsByFileName | servers/shared/events.py:152 | shards are read in ascending order of their file names |
| EventLedger.FullScanYields | servers/shared/events.py:152-170 | an unfiltered scan has an event exactly when some listed shard holds it with no readable line of the same id before it |
| EventLedger.FullScanMatches | servers/shared/events.py:166-169 | a filtered scan has an event exactly when the unfiltered one has it, its kind is asked for and it is not stamped before the start |
| EventLedger.PruningLosesSkippedMatches | servers/shared/events.py:150-154 | for one query, pruning equals the full scan if and only if the shards it skips have nothing for that query |
| EventLedger.PruningIsSafeExactly | servers/shared/events.py:127-170 | no query loses anything to pruning if and only if every first-of-its-id event is stamped before the month after its shard's own begins (for a shard not named for a month up to now: before any start) |
| EventLedger.FullScanIsFiltered | servers/shared/events.py:155-170 | dropping repeated ids and then filtering, shard by shard, is filtering an unfiltered read of everything |
| EventLedger.PruningAgreesWithFullScan | servers/shared/events.py:139-170 | on a log whose events sit in a month no earlier than their stamp's and no later than now, a pruned read is an unfiltered read of everything, filtered |
| EventLedger.EarlyFiledEventIsLost | servers/shared/events.py:96 | an event stamped by its caller later than the month it is filed in is lost to pruning |
| EventLedger.Ledger.Emit | servers/shared/events.py:114-124 | an emitted event is appended to its write month, and a well-filed log stays well filed if and only if its caller left the stamp out or stamped it no later than that month |
| EventLedger.StaysFiled | servers/shared/events.py:109-111 | a well-filed log stays so as time passes |
| CoverageBuild.BuildTree | servers/core/src/coverage_tree.py:438-472 | the live tree: branches and nodes unshared, holding exactly the merged values, with the specified status |
| CoverageBuild.Branch.MergeFinding | servers/core/src/coverage_tree.py:459-468 | one finding contests the first node of its concept or is appended as the adversary's |
| CoverageBuild.JudgeBranch | servers/core/src/coverage_tree.py:459-468 | merging into one branch leaves every other branch as it was |
| CoverageBuild.LiveColumns | servers/core/src/coverage_tree.py:438-472 | what the live tree holds, column by column of every node, and that no node object stands in two places |
| CoverageTree.StatusIsHonest | servers/core/src/coverage_tree.py:445-472 | CLEAN if and only if the adversary answered for every branch with nothing; FOUND_GAPS if and only if it answered for every branch with something; NOT_RUN if and only if it was absent or raised |
| CoverageTree.MergeKeepsBuilder | servers/core/src/coverage_tree.py:459-468 | no builder node is removed, moved or has its coverage, evidence or origin changed; new nodes are marked as the adversary's |
| CoverageTree.FindingsAreContested | servers/core/src/coverage_tree.py:459-468 | every concept the adversary named ends up contested |
| CoverageTree.DetailIsLastWord | servers/core/src/coverage_tree.py:459-468 | the first node of a concept ends with the detail of the last finding that gave one, or its own; a later node of the same concept is left alone |
| CoverageTree.AddedAsFound | servers/core/src/coverage_tree.py:459-468 | an added node is of a concept the builder did not list and holds the coverage and evidence of the first finding of it |
| CoverageTree.MergeKeepsMece | servers/core/src/coverage_tree.py:461-465 | distinct concepts stay distinct and none disappears |
| CoverageTree.BuildKeepsBuilder | servers/core/src/coverage_tree.py:438-472 | whatever the status, no branch disappears and no builder claim changes |
| CoverageTree.VerifiedTreeShowsFindings | servers/core/src/coverage_tree.py:458-472 | a verified tree shows every finding, contested, in the branch it was raised on |
| CoverageTree.JudgedInTurn | servers/core/src/coverage_tree.py:454-472 | a branch is merged with its findings exactly when the adversary answered for it and for every branch before it |
| CoverageTree.MeceMeansDistinctAndExhaustive | servers/core/src/coverage_tree.py:393-407 | the check passes if and only if concepts are distinct and the template is covered, and merging cannot break it |
| CoverageTree.MeceReport | servers/core/src/coverage_tree.py:398-406 | what the check reports: the concepts that occur twice, and what of the template is absent |
| ReviewOrder.ReviewLines | servers/core/src/coverage_tree.py:331-352 | the four loops produce the specified lines, worded as in the code |
| ReviewOrder.ReviewGoesBySeverity | servers/core/src/coverage_tree.py:318-352 | the order lists exactly the nodes that deserve it, by section, then domain risk for gaps and disputes, then tree order |
| ReviewOrder.RiskiestFirst | servers/core/src/coverage_tree.py:318-352 | gaps, unverified claims, disputes, partial answers; gaps and disputes by domain, security, data, correctness, nfr and then the rest alike; ties in tree order |
| ReviewOrder.LinesBelong | servers/core/src/coverage_tree.py:327-349 | a gap line is of a missing node, an unverified one of a covered, inferred one, a dispute of a contested one, an ask of a partial one |
| ReviewOrder.LineReads | servers/core/src/coverage_tree.py:327-351 | what each kind of line says, with the node's detail or in its place the words for having none |
| ConceptTemplates.Store.AddConceptToTemplate | servers/core/src/coverage_tree.py:175-206 | the live add: true exactly when the concept was new; the file gets the whole overlay and the new concept, or stays as it was when the write fails |
| ConceptTemplates.SessionStarts | servers/core/src/coverage_tree.py:144-167 | a session starts with the seed's concepts and those of every list in the file, a file or entry of another shape counting as none |
| ConceptTemplates.SeedComesFirst | servers/core/src/coverage_tree.py:158-167 | in each domain the seed's concepts come first, the file's new ones follow in its order, and nothing is repeated |
| ConceptTemplates.SavedAddStaysInStep | servers/core/src/coverage_tree.py:171-206 | after a saved add the live templates are exactly what a restart would load |
| ConceptTemplates.SavedSessionStaysInStep | servers/core/src/coverage_tree.py:171-206 | and so after any number of saved adds |
| ConceptTemplates.RestartKnowsSavedCatches | servers/core/src/coverage_tree.py:178-206 | after any session a restart knows a new concept if and only if the first catch of it was saved; a later catch never makes up for a failed write |
| HookMerge.Merge | scripts/install_hooks.py:46-63 | the loop over the events, in any order, produces the specified settings |
| HookMerge.RecognisedExactly | scripts/install_hooks.py:42-43 | a group is youk's exactly when the scripts directory stands anywhere in one of its commands |
| HookMerge.InstallReplacesOnlyOurs | scripts/install_hooks.py:46-63 | installing keeps everyone else's groups and their order and leaves exactly the installed groups as youk's |
| HookMerge.RemoveTakesOnlyOurs | scripts/install_hooks.py:46-63 | removing leaves everyone else's groups and their order, no group of youk's and no empty list |
| HookMerge.InstallIdempotentExactly | scripts/install_hooks.py:46-63 | for any settings, installing twice changes nothing if and only if every installed group is recognised as youk's |
| HookMerge.RemoveUndoesInstallExactly | scripts/install_hooks.py:46-63 | removing after installing gives the settings back if and only if they held no youk group, no empty list and no null or empty hooks field, and every installed group is recognised |
| HookMerge.NeighbourIsTakenForOurs | scripts/install_hooks.py:42-43 | a group that mentions a path merely starting like the scripts directory is taken for youk's |
| HookMerge.OriginalIsNeverLost | scripts/install_hooks.py:97-116 | over any runs of the script the first settings file is still there or whole in the backup, a backup is never overwritten, and unreadable text is never touched |
| HookMerge.InvokeLeaves | scripts/install_hooks.py:96-115 | a run leaves the settings installed or removed, unless it is a dry run or the file is unreadable; it writes only when something changes, and copies the file before the first change |
| HookMerge.InvokeTwice | scripts/install_hooks.py:96-115 | with a recognised registration, running the same command again changes nothing |
| HookMerge.BackupMayHoldOurOwnEntries | scripts/install_hooks.py:108-116 | with no settings file at first, the backup ends up holding youk's own registration |
| HookMerge.BackupIsOriginalExactly | scripts/install_hooks.py:97-116 | with a recognised, non-empty registration: no runs ever leave a backup of anything but the original if and only if there was a settings file or a backup to begin with |

## Left out

- CoverageBuild.BuildTree: adversary findings are values, so it does not model an adversary that returns a node object already in the tree or mutates the branch it is shown; task text and templates are inside the adversary function.
- CoverageTree.MeceMeansDistinctAndExhaustive: the wording of the problems is not modelled.
- BatteryRun.ResultsLog.RunBattery: the cost of an outcome is the one recorded, already rounded; the reported total is not rounded to cents, and float sums are exact.
- LockProtocol.LockedCallsAreSerial: does not model a crash in the middle of a write, a file that does not end in a newline, or buffering.
- PatternStore.Store.RetireGlobalPattern: the reason is passed already stripped, and the schema check is a predicate on the row; a row that fails it raises and nothing is written. The rendering that follows is ContractRanking.Rendered.
- ContractRanking.RenderedShowsLiveRows: rows without a statement, on which the renderer raises, are not told apart.
- EventLedger.ReadEvents: one project's directory; duplicates are dropped per shard, as in the code, not across shards.
- ConcurrentRetire.InterleavedRetiresAgree: the calls retire only; rows promoted in between are not modelled.
- EventLedger.Ledger.Emit: the clock does not run backwards between stamping and filing.
- HookMerge.Merge: settings whose hooks field is a non-empty value of another type than a table raise in the code and are not modelled; neither is the atomic file replacement.
- ConceptTemplates.Store.AddConceptToTemplate: one session at a time writes the overlay; a failing write leaves the file as it was.
- TaskStore.Store.CreateTaskGraph: a task dict without id or label raises part-way and is not modelled.
- CycleGuard.WouldCycle: the call stack is unbounded; in the code a simple path longer than the interpreter's recursion limit raises instead of answering, and leaving the connection then commits the task rows already inserted (graph.py:107-113).
- SQLite itself, WAL, busy timeouts and schema migration: the tables are values and transactions are atomic.
- The embedding model, cosine floats and NaN: scores are given reals.
- JSON parsing and schema validation: a line either parses to a row or is unreadable.
- Regular-expression text logic (diff parsing, find_mentioned_task, extract_task_specific_asks, slugs): string matching, no state.
- promote_to_global_contracts: its decisions rest on an embedding and on text abstraction.
- is_unblocked, check_graph_health, get_all_tasks and the report texts: read one row or one count and render it.
- Agents, git, docker, grading harnesses, launchd, servers and hook scripts: outside the state modelled here.
