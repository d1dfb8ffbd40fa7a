# Spade: verified model of the scheduler and its neighbours

Spade runs pipelines: directed graphs of blocks, where a *map* block fans the
blocks below it out over the items it finds and a *reduce* block gathers them
again. One scheduler drives both the command line, which executes one
invocation at a time, and a server engine that hands invocations to workers and
applies results as they come back, in any order and possibly more than once.

This project models that scheduler in Dafny and proves what it keeps over whole
runs; it also models the graph algorithms around it, the resolution of inputs
and short codes, and several self-contained algorithms of the blocks. Check it
with `dafny verify dfyconfig.toml`.

## How the model is laid out

| files | content |
|---|---|
| `Digraphs`, `Arithmetic` | paths, cycles, ranks, reachability, enumerations, division facts |
| `Pipelines`, `DependencyGraphs`, `MapContexts` | the document, its graph, Kahn's sort, the validator's searches, the context walk |
| `SchedulerState`, `PipelineScheduler` | the state of one pipeline's scheduler as a value, and the mutable class proved against it |
| `SchedulerInvariant`, `SchedulerSteps`, `ConcurrentRuns` | the invariant, its preservation by every step, and safety over every interleaving |
| `FailingRuns` | what still holds when blocks fail and pipelines are cancelled |
| `PipelinePlans`, `SequentialRun` | from a document to a plan; the command line's loop, which is one of the engine's runs |
| `FinishedRuns` | what has been executed when a run comes to rest |
| `SiblingGathering`, `SharedContexts`, `SchedulerGaps`, `StuckRuns` | where the code gives less than one might expect, and when exactly |
| `WithheldRuns` | how long runs can be; runs that hold one result back |
| `ExamplePipelines`, `ExampleInputs` | small documents that validation accepts |
| `Recovery`, `MultiTenant`, `Cancellation` | replay after a restart; round robin and draining over many pipelines, and what cancelling one of them achieves |
| `CycleFinder`, `EditorContexts` | the editor's own implementations, against the server's |
| `InputResolution`, `MatchingOrder`, `ResolutionOrder`, `ShortCodes` | binding inputs to outputs, and when map order matters for it; renaming short codes |
| `GlobMatch`, `CalendarPeriods`, `CsvWriter`, `ShellQuoting`, `SandboxSlots` | the self-contained algorithms |

Go iterates maps in no fixed order. Operations that do so are relations over
all orders (`Promotes`, `HandlesMap`, `Matches`), and the methods pick elements
with `:|`. The key `uuid.NewSHA1(id, i)` of a mapped invocation is the
constructor `Mapped(id, i)`, disjoint from `Base(id)`: UUIDv5 (section 5.5 of
RFC 9562) taken as collision free.

## Findings

Each is stated as an exact condition, and shown by a lemma at a concrete input.
The concrete pipelines pass all of validation (`PipelinePlans.Validated`): their
inputs resolve, and they need no arguments.

* Readiness is tested on block ids, so in the engine a reduce may start when
  one of N siblings has finished, although `spec/scheduler.md:143` has it wait
  for all. Blocks wait for all siblings under every order of results exactly
  when no block that feeds one that can run is fanned out to two or more
  (`SiblingGathering.GathersIffSingleFanIn`; input: `ReduceStartsEarly`). The
  command line does wait, thanks to its FIFO queue (`SequentialRun.RunPipeline`).
* Two maps may fan out the same block; validation does not reject it. Some order
  of results launches an invocation twice exactly when such a block can run, no
  map above it being empty, and can be left waiting for one of the two maps
  alone, that is, when it depends on that map directly and nothing else it
  depends on lies below it (`SharedContexts.RepeatsIffClash`,
  `DocumentRepeatsIff`; input: `TwoMapsRunItTwice`). Where the maps reach the
  block through blocks of their own, nothing is launched twice. Every order
  launches the block twice exactly when whatever it waits for last is one of its
  maps (`AlwaysTwiceIff`), and then the command line does so too
  (`SequentialRun.RunPipeline`). No invocation is ever launched three times.
* A halted pipeline gets work again exactly when a map result arrives that
  yields items for a non-empty context (`SchedulerGaps.StaysHaltedIff`; input:
  `FailingRuns.FailedPipelineResumes`, in which the mapped block then runs).
  Even then nothing runs before its dependencies, or twice other than by a clash
  (`FailingRuns.HandedOutAfterSuccess`, `HandedOutAtMostOnce`).
* A map that yields nothing never completes, so the run stalls exactly when such
  a map feeds a block (`ConcurrentRuns.NoStall`; input: `StuckRuns.EmptyMapStalls`).
  Whatever has no empty map above it is executed all the same, and nothing else
  (`FinishedRuns.EveryRunExecutes`).
* The store returns results by ascending id (`server/store/pgstore.go:190`), not
  in dependency order, and map contexts are identified only after the replay, so
  that a map's result leaves no trace. No finished block runs again after a restart
  exactly when every result is a completion that is replayed after those of the
  block's dependencies (`Recovery.NothingRunsAgainIff`; inputs:
  `ReplayByIdRunsAgain`, `FinishedMapIsQueued`).
* Cancelling removes only the first entry of the rotation, so a pipeline that was
  added twice can be heard again, exactly when a map of it is still out that fans
  out a block whose dependencies have all completed or been handed out
  (`Cancellation.CancelSilencesIff`; input: `ListedTwiceIsHeard`). The server's
  store refuses an id it already knows (`server/engine/engine.go:163`), so there
  cancelling silences for good; the scheduler itself does not ensure it.
* The editor judges a document without its overwritten blocks: it reports no
  cycle exactly when the server's sort succeeds on the last block of each id and
  no cycle leads through the nil id (`CycleFinder.EditorAndServerAgree`; input:
  `RepeatedIdHidesCycle`, where a repeated id hides a cycle from the editor).
* Whether a block's inputs resolve, and to which outputs, is independent of map
  iteration order exactly when, for each bare reference in turn, each free output
  fits at most one free input and no two fit the same, or when every order fails
  (`ResolutionOrder.ResolutionAlikeIff`, `AlwaysRefusedIff`; for one reference
  `MatchingOrder.OrderIrrelevantIff`; inputs: `ResolutionOrder.SourceIsEither`,
  `AcceptedOrNot`).
* The glob matcher lets the first and last segment overlap, and a pattern without a
  star accepts whatever begins with it (`GlobMatch.MatchIff`, `AcceptsIff`,
  `StarFreeAccepts`; input: `OverlapAccepted`, where `a*a` accepts `a`).
* A table is recovered from its text exactly when it has a row and every row a
  cell (`CsvWriter.RoundTripIff`; inputs: `EmptyTablesReadAlike`).
* Two users hold the same sandbox slot exactly when one was allocated while all
  999 were held (`SandboxSlots.DistinctIffNeverExhausted`; input:
  `ThousandthSharesSlotZero`).

## What the theorems assume

The code does not ensure these, and the theorems name them where they need them:
block ids are unique and no reference is nil; ids are disjoint across live
pipelines; contexts hold no map (`PipelinePlans.Runnable`,
`SchedulerInvariant.Plan.Sound`); contexts are identified before the first step;
publishing succeeds. That nothing runs
twice further needs that no two maps clash over a block that can run
(`Plan.Valid`), exactly so by `SharedContexts.RepeatsIffClash`.

## Model

| member | source | states |
|---|---|---|
| DependencyGraphs.BuildDependencyGraph | core/pipeline.go:23-59 | succeeds exactly when every non-nil reference names a block; the two adjacency maps then index exactly the references, repeated ones included |
| DependencyGraphs.EdgeListIn | core/pipeline.go:35-56 | an edge of the graph is a non-nil reference of some block of the document, and nothing else |
| DependencyGraphs.ForwardReverseTranspose | core/pipeline.go:50-54 | v occurs among u's dependents as often as u among v's dependencies |
| DependencyGraphs.AdjacencyInOrder | core/pipeline.go:34-56 | dependents and dependencies are listed in the order in which the document refers to them |
| DependencyGraphs.RelaxDependents | core/pipeline.go:84-90 | counting down one node's dependents, with repeats, keeps in-degrees equal to the edges still to come and queues exactly the nodes that reach zero |
| DependencyGraphs.KahnLoop | core/pipeline.go:78-91 | what is output lists nodes once with all edges forward; whatever is left has a predecessor that is left |
| DependencyGraphs.TopologicalSort | core/pipeline.go:63-97 | an order is returned exactly when the graph is acyclic; it lists every block once with all edges pointing forward |
| Digraphs.PredecessorClosedHasCycle | core/pipeline.go:92-94 | nodes that all wait for one another contain a cycle, so the error of the sort is justified |
| MapContexts.HasDownstreamReduce | core/pipeline.go:445-468 | true exactly when a reduce can be reached |
| MapContexts.HasNestedMap | core/pipeline.go:471-502 | true exactly when the context the scheduler would record holds another map |
| MapContexts.ByIdLast | core/pipeline.go:392-396 | of blocks with the same id the last is looked up |
| MapContexts.ByIdKeys | core/pipeline.go:392-396 | and the ids of the blocks are those that can be looked up |
| MapContexts.UnknownHides | core/pipeline.go:445-502 | a block of unknown type hides a reduce, a map or mapped blocks behind it |
| MapContexts.WalkMapContext | core/scheduler.go:185-202 | without cycles the unpruned walk terminates and adds exactly the blocks reachable through blocks that are not reduces; it records a reduce fed from there whenever there is one |
| MapContexts.ContextUnfolds | core/scheduler.go:186-200 | a context is its first blocks together with their contexts |
| SchedulerState.PromotesSaturates | core/scheduler.go:103-131 | after a promotion no pending invocation has all its dependencies completed, and the queue only grew at its end |
| SchedulerState.PromotesIdle | core/scheduler.go:103-131 | a promotion with nothing ready changes nothing |
| SchedulerState.FindBlockFinds | core/scheduler.go:226-240 | the fallback of the fan-out rebuilds the block's own invocation |
| SchedulerState.FindBlockFirst | core/scheduler.go:226-240 | of blocks with the same id it takes the first, and a blank invocation when there is none |
| SchedulerState.FannedOutByIndex | core/scheduler.go:245-280 | the invocations of a ready block stand behind the queue by ascending index; those of a waiting block wait under their own keys |
| SchedulerState.ReadyMeans | core/scheduler.go:106-123 | a block is ready when each bare and explicit reference names a completed block or the nil id |
| SchedulerState.SourceAt | core/scheduler.go:41-56 | after adding, the queue holds the blocks without inputs in document order and nothing else |
| SchedulerState.SourcesInOrder | core/scheduler.go:41-56 | of two sources the one listed first is queued first |
| PipelineScheduler.Scheduler.AddPipeline | core/scheduler.go:30-59 | on an unknown reference nothing is scheduled; otherwise sources are queued in document order and all other blocks wait |
| PipelineScheduler.Scheduler.CancelPipeline | core/scheduler.go:61-66 | nothing waits or is queued any more, what has completed is kept |
| PipelineScheduler.Scheduler.Next | core/scheduler.go:137-149 | takes the head of the queue; done only when nothing is pending either |
| PipelineScheduler.Scheduler.PromoteReady | core/scheduler.go:103-131 | exactly the ready invocations move to the end of the queue, in some order, each once |
| PipelineScheduler.Scheduler.FanOut | core/scheduler.go:223-280 | one block's entry is replaced by N indexed ones, queued together or left pending together |
| PipelineScheduler.Scheduler.HandleMap | core/scheduler.go:205-282 | an empty expansion or unknown map changes nothing; otherwise the map completes and its whole context is fanned out |
| PipelineScheduler.Scheduler.Update | core/scheduler.go:68-97 | the new state is one the specification allows for this result, errors included |
| PipelineScheduler.Scheduler.IdentifyMapContexts | core/scheduler.go:153-183 | every map block gets exactly the set its walk reaches |
| SchedulerInvariant.InitialInv | core/scheduler.go:30-59 | the invariant holds once a pipeline has been added, and nothing is launched twice yet |
| SchedulerSteps.CompletePreserves | core/scheduler.go:77-81 | a completion keeps the invariant: nothing lost, siblings together, nothing ready left waiting, launch order; it launches nothing twice |
| SchedulerSteps.MapPreserves | core/scheduler.go:82-90 | so does a map result, although readiness looks at block ids only; it launches something twice exactly when it makes a block ready for which another map left invocations pending |
| SchedulerSteps.ClashIsStatic | core/scheduler.go:223-280 | that happens only where the plan has two maps clash over a block that can run |
| SchedulerSteps.ContextWaits | core/scheduler.go:205-282 | until its map completes, no block of a context has been launched or completed |
| SchedulerInvariant.DownstreamWaits | core/scheduler.go:103-131 | nothing below a block that has not completed has been launched |
| ConcurrentRuns.EveryStateKeepsInv | server/engine/engine.go:429-505 | the invariant holds in every state of every interleaving of sweeps, successful results and redelivered results, maps that share blocks included |
| ConcurrentRuns.LaunchedAtMostOnce | core/scheduler.go:103-131 | without a clash no invocation is launched twice in any of them |
| ConcurrentRuns.OnePlacePerInvocation | core/scheduler_server.go:152-166 | each invocation is pending or has been launched, at most twice and only if mapped; without a clash it is in exactly one of pending, executable and handed out |
| ConcurrentRuns.HandedOutAfterDependencies | server/engine/engine.go:429-505 | whatever is handed out, every dependency has reported before |
| ConcurrentRuns.DuplicateResultIgnored | server/engine/engine.go:542-559 | a redelivered result changes nothing, whether or not the engine recognises it |
| ConcurrentRuns.FinishedIffMapsYield | core/scheduler.go:205-208 | once every block handed out has answered, nothing is pending if and only if every map that feeds a block yielded items |
| ConcurrentRuns.NoStall | core/scheduler.go:103-131 | in every reachable state with nothing executable or in flight, nothing is pending, if and only if no feeding map came back empty |
| ConcurrentRuns.NoneWaits | core/scheduler.go:103-131 | with nothing executable, blocks whose dependencies have all been answered have all been handed out |
| FinishedRuns.WhatHasRun | core/scheduler.go:205-282 | when nothing is executable and everything handed out has been answered, exactly the invocations without an empty map above them have been executed |
| FinishedRuns.EveryRunExecutes | server/engine/engine.go:429-505 | so it is under every order of sweeps and results |
| StuckRuns.EmptyMapStalls | core/scheduler.go:206-208 | a validated pipeline whose map yields nothing, and a run of it that is stuck |
| FailingRuns.EveryStateIsSafe | core/scheduler.go:61-97 | over every interleaving that includes failures and cancellations: nothing both waiting and launched, nothing ready left waiting, nothing launched before its dependencies completed |
| FailingRuns.HandedOutAtMostOnce | server/engine/engine.go:542-634 | no invocation is handed out more than twice, and without a clash none more than once, also when a map result revives a halted pipeline |
| FailingRuns.HandedOutAfterSuccess | server/engine/engine.go:429-505 | whatever is handed out, all its dependencies have completed |
| FailingRuns.CompletedBySuccess | core/scheduler.go:68-97 | a block completes by a successful result of one of its invocations and by nothing else |
| FailingRuns.FailedPipelineResumes | core/scheduler.go:69-75 | a validated pipeline whose mapped block runs after another block has failed |
| SiblingGathering.GathersIffSingleFanIn | spec/scheduler.md:143 | under every order of results blocks wait for all siblings of their dependencies, exactly when no block that feeds one that can run is fanned out to two or more |
| SiblingGathering.FanInRunsEarly | core/scheduler.go:103-131 | otherwise some run starts the dependent while a sibling is still out |
| SiblingGathering.ReduceStartsEarly | spec/scheduler.md:143 | a validated pipeline over two items in which the reduce starts after one |
| WithheldRuns.TakenInUniverse | core/scheduler.go:205-282 | only finitely many invocations can ever be launched, each at most twice |
| WithheldRuns.EveryRunEnds | server/engine/engine.go:429-505 | however sweeps and results interleave, at most two of them per invocation, three where maps clash, get anything done |
| WithheldRuns.NoProgressIffAnswered | server/engine/engine.go:429-505 | when none can any more, nothing is executable and everything handed out has been answered |
| WithheldRuns.RunAllBut | server/engine/engine.go:429-505 | sweeping and delivering all results but one comes to an end |
| SchedulerGaps.LaunchedOnceIff | core/scheduler.go:223-280 | a map result queues an invocation twice exactly when a block of its context is ready while still holding invocations of another map |
| SharedContexts.RepeatsIffClash | core/scheduler.go:205-282 | some run launches an invocation twice, exactly when two maps fan out a block that can run and can be left waiting for the second of them alone |
| SharedContexts.DocumentRepeatsIff | core/scheduler.go:205-282 | the same condition, read off the document |
| SharedContexts.EveryOrderRepeats | core/scheduler.go:205-282 | in every state of every run, a block that several maps fan out and that waits for one of them last has been launched twice or not at all |
| SharedContexts.AlwaysTwiceIff | core/scheduler.go:205-282 | whenever a block that can run is launched, one of its invocations is launched twice, under every order of results, exactly for such blocks; for all others some order spares it |
| SharedContexts.TwoMapsRunItTwice | core/scheduler.go:223-280 | a validated pipeline in which that happens in every run that is answered to the end |
| SchedulerGaps.StaysHaltedIff | core/scheduler.go:69-75 | a halted scheduler stays empty under a result, exactly when that is not a map result that fans a block out |
| PipelinePlans.ValidatorChecks | core/pipeline.go:387-440 | what the validator's two searches answer, told of the document: a reduce below each map, and no map in another's context |
| ExampleInputs.MapReduceIsValidated | core/pipeline.go:284-440 | the example with one map passes every check of the validator, the resolution of inputs included |
| ExampleInputs.TwoMapsIsValidated | core/pipeline.go:284-440 | and so does the one with two |
| PipelinePlans.PlanIsValidIff | core/pipeline.go:284-384 | a validated document meets what the invariant needs, and its plan is free of clashes exactly when the document is |
| PipelinePlans.ClashIffDocument | core/scheduler.go:153-202 | two maps clash in the plan where they do in the document |
| PipelinePlans.IdentifiedContexts | core/scheduler.go:153-202 | the scheduler's contexts are the sets of blocks reachable in the document's own graph |
| SequentialRun.RunPipeline | cli/cmd/run.go:143-266 | the loop terminates; every invocation runs after all sibling invocations of all its dependencies, at most twice, and once where no maps clash; without failures exactly the invocations without an empty map above them have been executed when it ends, which is everything if and only if every feeding map yields items; and something ran twice if a block is sure to |
| SequentialRun.IterationSafe | cli/cmd/run.go:143-170 | the invocation about to run comes after all invocations of its dependencies, and is new where no maps clash |
| SequentialRun.LaunchedInOrder | core/scheduler.go:137-149 | first-in first-out hands invocations out in launch order |
| Recovery.Rehydrate | core/scheduler_server.go:249-279 | replays the results in order, dropping each finished block from the queue |
| Recovery.WithoutRemoves | core/scheduler_server.go:265-276 | dropping a finished block removes all its entries and no other |
| Recovery.WithoutKeepsOrder | core/scheduler_server.go:265-276 | and what stays keeps its place |
| Recovery.ReplayIs | core/scheduler_server.go:258-277 | for any order of successful results: which blocks are completed, which wait, and which are queued; results of maps leave no trace |
| Recovery.NothingRunsAgainIff | server/engine/engine.go:336-381 | no finished block runs again if and only if each result was replayed as a completion, after those of its dependencies |
| Recovery.RecoveryMatchesLiveRun | server/engine/engine.go:336-381 | a replay in dependency order gives the live state with in-flight invocations put back, whatever that order |
| Recovery.ReplayByIdRunsAgain | server/store/pgstore.go:188-192 | ascending ids as replay order leave a finished block queued |
| Recovery.FinishedMapRunsAgain | server/engine/engine.go:355-378 | a map that had finished is scheduled again after the restart, whatever else is replayed |
| Recovery.FinishedMapIsQueued | server/engine/engine.go:355-378 | a map-reduce pipeline whose finished map is queued again |
| Recovery.ReplayWithFailure | core/scheduler_server.go:258-277 | with a failure among the results nothing is scheduled after the replay |
| MultiTenant.Tenants.CancelPipeline | core/scheduler.go:355-370 | halts the pipeline and removes its first entry from the rotation; an unknown id changes nothing |
| MultiTenant.RemovesFirstAt | core/scheduler.go:363-368 | the entries before and behind the removed one stay in place |
| MultiTenant.Tenants.AddPipeline | core/scheduler.go:347-353 | a scheduler of its own for the pipeline, at the end of the rotation; no other is touched |
| MultiTenant.Tenants.Update | core/scheduler.go:372-387 | a result changes the scheduler of its pipeline as specified, and no other |
| MultiTenant.Tenants.Next | core/scheduler.go:399-449 | work is returned whenever a listed pipeline is ready, from the first ready slot at or after the cursor; without work the cursor has gone round once |
| MultiTenant.Tenants.Drain | core/scheduler_server.go:152-166 | empties the queues of the listed pipelines in rotation order |
| MultiTenant.BoundedWaiting | core/scheduler.go:411-436 | a pipeline that stays ready is served after at most k - 1 dispatches to others, whatever becomes ready in between |
| MultiTenant.TurnComesNearer | core/scheduler.go:411-436 | the cyclic distance to its slot strictly decreases |
| MultiTenant.ServedInTurn | core/scheduler.go:411-436 | while all pipelines are ready they are served in the order they were added in, round and round |
| MultiTenant.DrainIsExact | core/scheduler_server.go:152-166 | per pipeline, a sweep hands out its queue once, whole and in order, and nothing of an unlisted pipeline |
| MultiTenant.DrainedInRotation | core/scheduler_server.go:152-166 | behind the work of earlier pipelines comes the queue of the next, as it is |
| Cancellation.UnlistedStaysSilent | core/scheduler.go:399-449 | no work of a pipeline out of the rotation is handed out, whatever results arrive, solicited or not |
| Cancellation.SilentIff | core/scheduler.go:399-449 | a halted pipeline is silent for good, while results come from work that was handed out, exactly when the execution queue holds none of its work and it is out of the rotation or no map still out can revive it |
| Cancellation.CancelSilencesIff | core/scheduler.go:355-370 | cancelling achieves that exactly when the execution queue held none of its work and it was listed at most once or no map still out can revive it |
| Cancellation.ListedTwiceIsHeard | core/scheduler.go:347-370 | a map-reduce pipeline that was added twice, swept, and cancelled once while its map was at work |
| CycleFinder.Search.Dfs | web_ui/utils/validate.ts:156-176 | returns a genuine cycle, or restores the stack with everything below the block finished after its references |
| CycleFinder.CloseCycle | web_ui/utils/validate.ts:162-166 | the slice of the stack closed by the back edge is a cycle of references |
| CycleFinder.FindCycle | web_ui/utils/validate.ts:139-184 | null exactly when the references are acyclic, otherwise a genuine cycle |
| CycleFinder.EditorAndServerAgree | web_ui/utils/validate.ts:139-184 | the editor finds no cycle exactly when the server's sort succeeds on the last block of each id and no cycle leads through the nil id |
| CycleFinder.UniqueIdsAgree | web_ui/utils/validate.ts:139-184 | with unique ids, none of them nil, the two checks are one |
| CycleFinder.SurvivorsAre | web_ui/utils/validate.ts:140-146 | the editor's reference map is that of the last block of each id |
| CycleFinder.ReportedCycleFailsSort | web_ui/utils/validate.ts:139-146 | with repeated ids, a reported cycle that avoids the nil id still fails the sort |
| CycleFinder.RepeatedIdHidesCycle | web_ui/utils/validate.ts:139-146 | a document whose repeated id hides a cycle from the editor |
| EditorContexts.Order | web_ui/utils/mapContext.ts:54-77 | every node once; without cycles all edges forward |
| EditorContexts.ComputeMapContext | web_ui/utils/mapContext.ts:51-110 | without cycles the stacks solve the equations between a block and its dependencies; context and nested maps are those with a non-empty stack |
| EditorContexts.SolutionIsUnique | web_ui/utils/mapContext.ts:83-104 | the equations have one solution, so the order taken does not matter |
| EditorContexts.DeepestIsFirst | web_ui/utils/mapContext.ts:89-93 | of several longest stacks that of the first dependency is taken |
| EditorContexts.ReduceUndoesMap | web_ui/utils/mapContext.ts:96-101 | a reduce closes the map opened last, and nothing when none is open |
| EditorContexts.EditorAndSchedulerAgree | web_ui/utils/mapContext.ts:95-109 | no nested map is flagged exactly when the server's check finds none; then the blocks in context, reduces aside, are those the scheduler fans out, under the same map |
| EditorContexts.BroadcastIff | web_ui/utils/mapContext.ts:117-128 | an edge is a broadcast exactly when its source runs outside the map whose items the target receives |
| EditorContexts.BroadcastMeans | web_ui/utils/mapContext.ts:122-127 | of several open maps only the innermost counts |
| InputResolution.SortedNames | core/pipeline.go:187-191 | the names in strict lexicographic order, none lost |
| InputResolution.FirstFree | core/pipeline.go:187-200 | the least compatible input still free |
| InputResolution.ResolveExplicit | core/pipeline.go:156-217 | an explicit reference fails exactly when its block, output or input is missing or does not fit |
| InputResolution.ResolveBare | core/pipeline.go:231-266 | the outcome is that of visiting the outputs in some order |
| InputResolution.ResolveInputs | core/pipeline.go:150-282 | the outcome is one the three passes allow, for whatever orders the maps yield |
| InputResolution.ResolutionIsSound | core/pipeline.go:150-282 | on success all non-scalar inputs are bound to existing compatible outputs of referenced blocks, bare ones to distinct outputs that no explicit reference claims, and no unclaimed output of a bare reference fits an input left free |
| InputResolution.LastNamedWins | core/pipeline.go:175-213 | an input named by `as` gets the output of the last reference naming it |
| InputResolution.CompatibleTypes | core/pipeline.go:130-147 | equal types are compatible, and four conversions besides |
| InputResolution.BeforeMeans | core/pipeline.go:187-191 | names are compared by the first character in which they differ, a prefix coming first |
| InputResolution.ParametersNeedNoSource | core/pipeline.go:262-272 | a block whose inputs are all strings, numbers or booleans resolves without a reference |
| InputResolution.OthersNeedSource | core/pipeline.go:262-279 | an input of any other type has a source, or the call fails |
| MatchingOrder.AlwaysYieldsIff | core/pipeline.go:231-266 | a bare reference is matched alike in every order, without error, exactly when each free output fits at most one free input and no two fit the same |
| MatchingOrder.AlwaysFailsIffStuck | core/pipeline.go:231-266 | every order fails exactly when visiting unambiguous outputs for as long as there are any leaves some over |
| MatchingOrder.OrderIrrelevantIff | core/pipeline.go:231-266 | all orders have the same outcome exactly in these two cases |
| MatchingOrder.BindsEitherOutput | core/pipeline.go:231-266 | two outputs for one input: the order decides which is bound |
| MatchingOrder.SucceedsOrFails | core/pipeline.go:231-266 | one order binds both inputs, another calls an output ambiguous |
| ResolutionOrder.MatchBindsWanted | core/pipeline.go:231-266 | in whatever order it is matched, a bare reference binds the same inputs |
| ResolutionOrder.BareYieldsIff | core/pipeline.go:222-266 | all orders end in one matching exactly when each bare reference, met with the inputs bound that the earlier ones bind, fits one to one |
| ResolutionOrder.BareFailsIff | core/pipeline.go:222-266 | no order gets through exactly when some bare reference names an unknown block or gets stuck |
| ResolutionOrder.AlwaysRefusedIff | core/pipeline.go:150-282 | the whole call fails in every order exactly when an explicit reference fails, a bare one does so, or an input is left without a source |
| ResolutionOrder.ResolutionAlikeIff | core/pipeline.go:150-282 | the outcome of the whole call is independent of map iteration order exactly when it fails in every order or fits one to one |
| ResolutionOrder.EarlierReferenceWins | core/pipeline.go:220-258 | of two bare references whose outputs fit one input, the first supplies it |
| ResolutionOrder.ExplicitTakeByName | core/pipeline.go:185-213 | explicit references that name no input take the inputs they fit by name, one after the other |
| ResolutionOrder.SourceIsEither | core/pipeline.go:150-282 | a block whose one input may be bound to either of two outputs |
| ResolutionOrder.AcceptedOrNot | core/pipeline.go:150-282 | a block that one order lets through and another refuses |
| ShortCodes.Resolver.Resolve | core/short_codes.go:71-82 | a bound code keeps its id, a new one takes the next fresh id, `changed` tells which |
| ShortCodes.ShortCodesAre | core/short_codes.go:13-22 | the short codes are `@` and a word of letters, digits and underscores that does not begin with a digit |
| ShortCodes.RefsOccur | core/short_codes.go:84-137 | the scalars visited are the ids of blocks, bare references and the blocks of explicit ones |
| ShortCodes.WellShapedMeans | core/short_codes.go:46-69 | refused are roots that are no mapping, a code as the document's own id, and blocks that are no list |
| ShortCodes.RenamedReplaces | core/short_codes.go:84-137 | the renamed document, position by position |
| ShortCodes.LearnsCodes | core/short_codes.go:71-82 | after a resolution the lock binds what it bound before and the codes of the document |
| ShortCodes.NoCodeOccurs | core/short_codes.go:84-137 | no code is left at any position that is visited |
| ShortCodes.ResolveShortCodes | core/short_codes.go:39-140 | the lock is extended by exactly the codes at block ids and references, `changed` says whether it was; on success each such code is replaced by its id and nothing else changes, so that no code is left |
| ShortCodes.LearnExtends | core/short_codes.go:71-82 | existing bindings never change, every code met is bound, only codes met are added |
| ShortCodes.LearnDraws | core/short_codes.go:71-82 | each new binding has a fresh id of its own |
| ShortCodes.RestUntouched | core/short_codes.go:84-137 | everything but block ids and references is untouched, arguments included |
| ShortCodes.ResolvingAgain | core/short_codes.go:39-140 | with the saved lock, original and resolved document both give the same result again and no id is drawn |
| ShortCodes.ConsistentRenamingIff | core/short_codes.go:33-38 | ids and references are equal afterwards exactly when equal before, if and only if the lock binds no two codes of the document to one id and none to an id the document uses |
| GlobMatch.Matches | blocks/data/src/read_collection.rs:39-68 | accepts exactly the names the greedy scan gets through |
| GlobMatch.WildIsAnchored | blocks/data/src/read_collection.rs:40-42 | a pattern means its segments in order with arbitrary gaps |
| GlobMatch.GreedyIsComplete | blocks/data/src/read_collection.rs:58-64 | taking inner segments leftmost loses no match |
| GlobMatch.MatchIff | blocks/data/src/read_collection.rs:39-68 | no false negatives; an acceptance is a true match exactly when the last segment fits behind the scan |
| GlobMatch.AcceptsIff | blocks/data/src/read_collection.rs:39-68 | what is accepted: names that the pattern up to its last star matches and that end with the rest of it |
| GlobMatch.StarFreeAccepts | blocks/data/src/read_collection.rs:49-54 | a pattern without a star accepts the names that begin with it |
| GlobMatch.OverlapAccepted | blocks/data/src/read_collection.rs:53-56 | `a*a` accepts `a`, which is no match |
| CalendarPeriods.Daily | blocks/data/src/catalog/prism.rs:75-113 | the start, then in order exactly the valid days after it up to the end, with distinct labels |
| CalendarPeriods.DailyLength | blocks/data/src/catalog/prism.rs:75-113 | between valid dates ordinal(end) - ordinal(start) + 1 days; from a later start, the start alone |
| CalendarPeriods.OrdinalCounts | blocks/data/src/catalog/prism.rs:77-90 | the closed-form Gregorian day number grows by one from each day to the next, across months, years and leap days |
| CalendarPeriods.OrdinalOrders | blocks/data/src/catalog/prism.rs:108-110 | and orders valid dates as the loop compares them |
| CalendarPeriods.Monthly | blocks/data/src/catalog/prism.rs:53-74 | each month from start to end once: 12 per year of difference plus the months between plus one |
| CalendarPeriods.Annual | blocks/data/src/catalog/prism.rs:46-52 | each year once; none if the start is later |
| CalendarPeriods.EnumeratePeriods | blocks/data/src/catalog/prism.rs:40-120 | an unknown cadence is an error; labels are pairwise distinct |
| CalendarPeriods.DayLabelInjective | blocks/data/src/catalog/prism.rs:96 | different dates have different labels, for years of any length and sign |
| CalendarPeriods.DayLabelReads | blocks/data/src/catalog/prism.rs:96 | read as decimal numbers, the last two characters of a label are the day, the two before them the month, and the rest the year |
| CalendarPeriods.MonthLabelReads | blocks/data/src/catalog/prism.rs:60 | likewise for months |
| CalendarPeriods.YearLabelsRead | blocks/data/src/catalog/prism.rs:46-50 | and for years |
| CalendarPeriods.ReadsInt | blocks/data/src/catalog/prism.rs:48 | a year is its plain decimal number, without superfluous zeros |
| CalendarPeriods.MonthLengths | blocks/data/src/catalog/prism.rs:77-90 | the lengths of the twelve months |
| CalendarPeriods.GregorianCycle | blocks/data/src/catalog/prism.rs:82 | leap years repeat every 400 years, which last 146097 days |
| CalendarPeriods.OrdinalsKnown | blocks/data/src/catalog/prism.rs:77-90 | three known day numbers |
| CsvWriter.WriteTable | blocks/data/src/catalog/census_acs.rs:33-62 | a reader of RFC 4180 with LF between records recovers the rows if and only if there is a row and every row has a cell |
| CsvWriter.ReadsCell | blocks/data/src/catalog/census_acs.rs:44-59 | reading a written cell leaves exactly that cell, whatever it holds |
| CsvWriter.RoundTripIff | blocks/data/src/catalog/census_acs.rs:33-62 | the round trip and its exact condition |
| CsvWriter.EmptyTablesReadAlike | blocks/data/src/catalog/census_acs.rs:36-60 | no row, and one row without cells, are both read back as one empty cell |
| CsvWriter.QuotedIffNeeded | blocks/data/src/catalog/census_acs.rs:44-59 | only cells that hold a comma, a quote or a line feed are quoted |
| CsvWriter.QuotesDoubled | blocks/data/src/catalog/census_acs.rs:48-53 | inside, quotes are doubled and nothing else changes |
| CsvWriter.Joined | blocks/data/src/catalog/census_acs.rs:37-43 | cells are joined by commas and rows by line feeds |
| ShellQuoting.ShellQuote | core/executor.go:356-368 | the shell splits the quoted text back into exactly the arguments |
| ShellQuoting.ReadsArg | core/executor.go:362-365 | a quoted argument, empty or with embedded quotes, is read as one word |
| ShellQuoting.SplitsBack | core/executor.go:356-368 | for every argument vector, by sections 2.2.1 and 2.2.2 of the IEEE Std 1003.1 Shell Command Language |
| ShellQuoting.QuotesEscaped | core/executor.go:362-365 | every argument stands in single quotes, and quotes in it are escaped |
| ShellQuoting.ArgumentsJoined | core/executor.go:358-361 | one blank stands between two arguments |
| SandboxSlots.SlotAllocator.Allocate | core/executor.go:24-39 | with fewer than 999 slots in use the first free one from the cursor on; otherwise 0 with nothing recorded |
| SandboxSlots.SlotAllocator.Release | core/executor.go:41-45 | frees that slot and no other |
| SandboxSlots.RunIsExclusive | core/executor.go:16-45 | over every run of allocations and releases, the ids held are distinct, in range and marked as long as no allocation is made while 999 are held |
| SandboxSlots.DistinctIffNeverExhausted | core/executor.go:16-45 | two users hold one slot at some time exactly when an allocation is made while all are held |
| SandboxSlots.ReleasedSlotRests | core/executor.go:24-34 | a slot that has just been released is not the next to be taken |
| SandboxSlots.ThousandthSharesSlotZero | core/executor.go:35-38 | a thousand allocations in a row give the slots 0 to 998 in turn, and slot 0 once more |

## Left out

- ConcurrentRuns.EveryStateKeepsInv: results are successes; with failures and cancellations only the safety part survives (`FailingRuns.EveryStateIsSafe`), since halting drops invocations.
- Cancellation.CancelSilencesIff: a result may come again in another form, say a success after a failure, as the engine does not prevent it.
- SequentialRun.RunPipeline: where maps clash over a block that waits for something else last in some orders, whether the loop meets the order that launches twice depends on map iteration; only the two ends are stated, never and always.
- EditorContexts.BroadcastIff: for sources that at most one map fans out; the editor follows one stack per block and cannot see a second context.
- EditorContexts.EditorAndSchedulerAgree: for nodes whose block types are all known; the editor takes an unknown type for a standard block, the scheduler leaves it out of contexts.
- MultiTenant.Tenants.Next: workers, current executions and log output are not modelled.
- ShortCodes.ResolveShortCodes: documents are values rebuilt by the walk, not nodes rewritten in place, so aliasing of nodes (YAML anchors) is not captured; mappings are maps, so repeated keys, which the later decoding refuses, are not either.
- Recovery.RecoveryMatchesLiveRun: for pipelines without maps; with them the replay does not restore the live state (`Recovery.FinishedMapRunsAgain`).
- EditorContexts.Order: which of several topological orders is taken, and the order of the nested maps reported, are not stated; without cycles neither stacks nor flags depend on it.
- CalendarPeriods.EnumeratePeriods: years are unbounded integers, so the overflow of a 32-bit year is not modelled; parsing of dates is not modelled.
- GlobMatch.Matches: names are sequences of characters, so the fallback for slices that are no valid UTF-8, which cannot occur at a segment's end, is absent.
- CsvWriter.WriteTable: rows come parsed; JSON decoding is not modelled. A lone carriage return is an ordinary character to the reader.
- `HandleReduce` and the "reduce" status: no producer reports it, and it looks mapped completions up under keys that are never stored.
- Arguments and declared outputs of blocks are carried along by the scheduler untouched and are absent from the model; an expansion is represented by its number of items.
- Of a map context only the set of mapped blocks is kept by the scheduler class; its items and the reduce the walk records are read only by `HandleReduce` and the snapshot.
- Snapshots, pipeline status and completion callbacks of the server. Completion there looks at the queues only and may be reported with work in flight.
- The text form of ids: UUIDs are numbers, and the `<uuid>.<index>` form and its parser are not modelled.
- A failed publish, which re-queues the failing invocation, and everything below the broker, the store and HTTP.
- The result cache, file handling, sandboxes and subprocesses of block execution: executing an invocation is a parameter of the run.
- The remaining checks of the two validators (argument presence, map and reduce declarations): single loops over declarations.
