# flowstep in Dafny

flowstep runs workflows described as hierarchical state charts: states nest in compound states, parallel
states hold orthogonal regions, transitions can resume a compound where it was last left. This project
models the compiler of definitions, the step function, the triggers, the stores and the registry, and
proves what the static checks are meant to guarantee at run time, over every run.

## How the model is organised

- `Definitions`, `Options`, `Builder`, `Validate`, `Hierarchy`, `Compile`, `Spawn`, `Registry`: from options to
  registered, compiled machines. `Options` says field by field what a list of options means. Loops, memo tables, the
  search queue, the colours of the depth-first search and the four registry maps are mutable as in the source; every
  map iteration is in arbitrary order.
- `Step`: one call of the engine as a function from the instance to an `Effect` (what is written, which
  event, which tasks are cancelled, which activities ran, how it ended). Guards, conditions, activities,
  the clock and the commit are answers inside a `Call`. `Run` is any sequence of calls.
- `Descent`, `Refusals`, `Activities`, `Moves`, `ParallelMoves`: the same effects said without the functions that
  compute them, from the definition, the instance and the answers alone: when a call is turned down and why, where it
  leads, which activities it runs in which order, and everything that it writes, announces and cancels.
- `StateData`, `Records`, `Executor`, `Commits`, `ParallelCommits`, `Engine`: the same operations in the form of the
  source, on instance structs whose history and region maps and state data are references shared with the store.
  `Engine.PerformOn` proves what one call does, reports and announces, creation of a missing instance included, and
  `Engine.PerformAll` proves that a sequence of them takes the store exactly through `Step.Run`; since the
  store's `Valid()` ties every stored struct to its contents as read through the shared maps, a
  mutation of a shared map before the update would break that proof.
- `Machines`, `Configuration`, `Choices`, `Recall`, `Recording`, `Orthogonal`, `Guarantees`, `Marks`, `Progress`,
  `Triggers`, `Tasks`, `Concurrency`, `Likeness`: the theorems about runs. `Counterexamples`, `NestedRegions`,
  `NestedParallel`, `FailingEntry`, `Replacement`, `Handmade`: inputs on which a property fails, and exactly when.
- `Join`, `Snapshots`: joins of child workflows, and snapshots on the heap and on values.

What a theorem assumes is a named predicate, one layer each: `Wired` (what the builder guarantees),
`Validated` (what `Validate` checks), `Faithful` (what `Compile` returns), `Targeted` (every transition
leads somewhere; no code checks it), `Machine` (these together), and for parallel states `RegionLocal` and
`StartsAtRest`, which no code checks either; `BuiltStartsAtRest` shows when the second needs no check. The lemmas
`NewInstanceRests`, `ArrivalRests`, `ParallelExitRests` and `IntraRests` show step by step that the clauses of
`RegionLocal` are exactly what the step needs.

## Where the code differs from what it says

The model follows the code.

- The comment on `computeExitSequence` (internal/runtime/helpers.go:52-57) says that without a common ancestor
  only the source is exited. The code exits the whole chain, which is what makes `SequencesExact` true.
- Entering or leaving a parallel state skips states between a region and its active leaf, and leaving one
  neither exits nor records the ancestors of the parallel state (internal/runtime/helpers.go:187-228,
  internal/runtime/parallel.go:303-339). `ParallelExitExact` and `ParallelEntryExact` say exactly when that is harmless.
- A parallel exit starts no regions at its target (internal/runtime/parallel.go:380-382). `SwapBreaksRest` shows an
  accepted definition for which this leaves a parallel state without active leaves, `SwapCannotGoOn` that nothing
  leads out of there.
- Validation lets a leaf escape through any ancestor (internal/graph/validate.go:386-397), but inside a parallel state
  events do not bubble past that state (internal/runtime/parallel.go:106-115). `BurialStops` shows an accepted
  definition whose only way out is sourced above the parallel state, so that its instance stays there for good;
  `EveryRunCanGoOn` says exactly when a run can go on, `EveryRunGoesOn` which definitions never stop.
- One transition has one target, so firing it in two regions at once never ends in a proper
  configuration: `TwoRegionsNeverRest`, and `BothRegionsFire` for an accepted definition.
- A history mode is said to make a transition resume its target. Out of a parallel state and inside one it is ignored
  (internal/runtime/parallel.go:336-341 and 163-200): `ExitStep`, `InnerMove`; elsewhere `PlainStep` and
  `EveryStepResumes` say where it leads.
- A step inside a parallel state exits compounds without recording them (internal/runtime/parallel.go:163-291):
  `InnerStepsRecordNothing`, `InnerExitUnrecorded`. What the history of such a compound does say is `EveryRunRecords`.
- A successful transition does not clear the stuck mark, only a forced state does: `EveryRunMarks`, and
  `SuccessLeavesMark` for a run that fails once and then succeeds.
- A stuck step with savepoints cancels the pending tasks of the state in which its instance stays
  (internal/runtime/executor.go:315-361): `PlainCancelsExactly`, `StayingCancelsExactly`.
- The lock compares clock readings: a write whose reading equals the stamp it read is invisible to the next writer, and
  a zero stamp switches the lock off. `LostUpdate` says exactly when one of two writers is lost.
- When the stuck mark itself cannot be stored without savepoints, the conflict is dropped and the caller hears of the
  activity only (internal/runtime/executor.go:336-347): `CommitIffUnchanged` says exactly who is told what.
- Validation walks towards the root before anything has looked for cycles of parents. `WalkEndsExactly` says when
  the walk ends, `LoopNeverReturns` gives a wired definition for which `Validate` does not return.
- Compilation follows initial children without looking for cycles among them. What the builder wires always ends
  (`WiredEnds`); for a definition written by hand `ResolutionEndsExactly` says when it does, and `TangleNeverResolves`
  gives one that passes every check and never ends.
- The spawn check counts the definition that is being replaced (internal/runtime/runtime.go:123-135). As long as a
  replacement keeps its workflow type the check refuses exactly the cycles (`RefusesExactly`); with another workflow
  type under the same number it can refuse where no cycle would remain (`RefusesTooMuch`). `UnjustifiedExactly` says
  when, for every registry.
- Registering again under the number of the latest version replaces the version but leaves the old
  definition in `latest` and `latestCompiled` (internal/runtime/runtime.go:142-152): `LatestInStep` says exactly when
  the two stay in step, `SameNumberTwice` shows two accepted definitions for which they do not.
- With several transitions for a completed child, or several N-mode fan-outs, the source takes the first of
  a map iteration: `FirstForChild` and `VerdictDetermined` say when the result is determined all the same.
- A cancelled task can still be completed (adapters/memstore/task_store.go:55-75): the contract of
  `TaskStore.Complete` refuses completed tasks only.
- The store key joins type and id with a colon, so it confuses some aggregates of two types exactly when one type
  continues the other after a colon: `KeysCollideExactly`.
- `copyMap` is said to make snapshots independent; slices inside the data stay shared. `CopyMap` says so:
  a slice is known by its identity, so equal values mean the same slice.

## Model

| member | source | states |
|---|---|---|
| Builder.FlattenExact | internal/builder/builder.go:340-352 | flattening yields exactly the options at any depth of nesting |
| Builder.FlattenOrder | internal/builder/builder.go:340-352 | each option before those nested in it, and options in their order |
| Builder.Wire | internal/builder/builder.go:430-443 | whatever the iteration order, `children` becomes the duplicate-free inverse of `parent`, compounds are marked, nothing else changes |
| Builder.CollectStates | internal/builder/builder.go:419-427 | the last option of each name wins; the initial state is the last one marked |
| Builder.DistinctNamesKeepAll | internal/builder/builder.go:419-427 | with distinct names no option is lost and the initial state is marked initial |
| Builder.CollectTransitions | internal/builder/builder.go:446-476 | fails exactly on a repeated name, else holds under each name a transition every field of which is what its options say |
| Options.TransitionMeans | internal/builder/builder.go:33-173 | sources, guards and routes are those of their options in order; target, event, trigger, key, history mode, task, child and fan-out are what the last option says that says anything, and the defaults without one |
| Options.RouteMeans | internal/builder/builder.go:147-173 | so are condition, target and default mark of a route |
| Options.DescribedOnce | internal/builder/builder.go:33-173 | and that determines the transition |
| Options.ModifyMeans | internal/builder/builder.go:196-228 | parent, initial child and activities of a state are what its last modifiers say, everything else stays |
| Options.ConstructorsMean | internal/builder/builder.go:241-281 | each state constructor marks its kind of state and nothing more |
| Options.TransitionTargeted | internal/builder/builder.go:147-160 | exactly when a transition always has a place to go: every Route names a target or, without any, the last To does |
| Builder.ParallelStateBuilder.Region | internal/builder/builder.go:298-323 | a region starts at its first state and adopts the states without a parent |
| Builder.RegionsBecomeChildren | internal/builder/builder.go:298-335 | after Build the regions are children of the parallel state and the adopted states children of their region, which starts at the first of them or, without any, nowhere, unless a later option takes the name; a state with a parent keeps it and no other field is touched |
| Options.OptionsAreMade | internal/builder/builder.go:241-281 | no state constructor with any modifiers fills children or makes a parallel state |
| Builder.DefBuilder.Build | internal/builder/builder.go:405-485 | fails exactly on a repeated transition name or a rejecting validator; what it returns is wired and its transitions are what their options say |
| Hierarchy.AncDistinct | internal/graph/compiled.go:141-177 | no state is its own ancestor and no chain repeats a state |
| Hierarchy.LcaExact | internal/graph/compiled.go:50-72 | the common proper ancestors of two states are the LCA and everything above it |
| Hierarchy.LcaDeepest | internal/graph/compiled.go:50-72 | every common proper ancestor is the LCA or lies above it |
| Hierarchy.LcaSymmetric | internal/graph/compiled.go:50-72 | the LCA does not depend on the order of its arguments |
| Hierarchy.ComputeLca | internal/graph/compiled.go:53-72 | the set-and-scan loop finds it, and reports one exactly when there is a common ancestor |
| Hierarchy.SequencesExact | internal/runtime/executor.go:266-276 | any source, any target: configuration minus exits plus entries is the target's configuration |
| Hierarchy.SequencesKeep | internal/runtime/executor.go:266-276 | exactly what lies at or above the LCA is neither exited nor entered |
| Hierarchy.SequencesOrdered | internal/runtime/helpers.go:52-88 | exits run child before parent, entries parent before child, nothing twice |
| Hierarchy.ComputeExitSequence | internal/runtime/helpers.go:58-67 | the loop computes the exit sequence of these two theorems |
| Hierarchy.ComputeEntrySequence | internal/runtime/helpers.go:71-88 | the loop that fills the slice from the back computes the entry sequence |
| Compile.AncestryBuilder.Build | internal/graph/compiled.go:144-177 | in every state of the shared memo: a chain of parents, or a genuine cycle |
| Compile.LeafResolver.Resolve | internal/graph/compiled.go:180-191 | the memoised recursion equals the plain one and terminates |
| Compile.InitialLeaf | internal/graph/compiled.go:180-191 | ends at a state that is no plain compound, at or below where it started |
| Compile.InitialLeafInside | internal/graph/compiled.go:108-115 | the leaf of a plain compound is a state strictly inside it, and resolving again changes nothing |
| Descent.LeafIsStart | internal/graph/compiled.go:180-191 | the memoised recursion ends where the walk from a state along initial children ends |
| Descent.StartsOnce | internal/graph/compiled.go:180-191 | and that walk ends in one place only |
| Descent.ResolutionEndsExactly | internal/graph/compiled.go:180-191 | for any definition, wired or not, following initial children ends exactly if it has ended after as many steps as there are states |
| Descent.WiredEnds | internal/graph/compiled.go:180-191 | in what the builder wires it always ends, given that parents form no cycle |
| Handmade.TangleNeverResolves | internal/graph/compiled.go:108-115 | definitions written by hand that pass every check, have no cycle of parents and never end |
| Handmade.SomeTangleNeverResolves | internal/graph/compiled.go:108-115 | one of them written out |
| Compile.BuildIndex | internal/graph/compiled.go:117-133 | the index of a state holds exactly the transitions it is a source of |
| Compile.Compile | internal/graph/compiled.go:77-139 | fails exactly on a cycle of parents; otherwise chains, depths, leaves, regions and index are all exact |
| Validate.EscapesIsAncestor | internal/graph/validate.go:379-400 | without a cycle of parents the dead-end walk is the question whether the state or an ancestor is a source |
| Validate.WalkEndsExactly | internal/graph/validate.go:379-400 | the walk ends exactly when it meets a transition or the parents above form no cycle |
| Validate.WalksEndExactly | internal/graph/validate.go:354-376 | so the check returns, in every order of the states, exactly when that holds for every leaf it asks about |
| Counterexamples.LoopNeverReturns | internal/graph/validate.go:386-397 | wired definitions that pass every earlier check and whose walk has no end |
| Counterexamples.SomeLoopNeverReturns | internal/graph/validate.go:386-397 | one of them written out |
| Validate.CheckDeadEnds | internal/graph/validate.go:354-376 | accepts exactly the definitions all of whose non-terminal leaves can escape |
| Validate.ReachableIsLeast | internal/graph/validate.go:290-352 | reachability by paths is the least set closed under targets, routes, initial children and regions |
| Validate.Search.Run | internal/graph/validate.go:297-341 | the queue with recursive enqueueing terminates and marks exactly that set |
| Validate.CheckReachability | internal/graph/validate.go:292-352 | accepts exactly the definitions all of whose states are reachable |
| Validate.ValidateDefinition | internal/graph/validate.go:30-65 | reports the first failing check and nothing exactly when all pass |
| Spawn.Detector.Visit | internal/graph/spawn.go:33-71 | grey nodes stay exactly the path, black nodes are numbered so that edges fall; a result is a closed walk |
| Spawn.Detector.CycleStart | internal/graph/spawn.go:46-54 | the scan for the start of the cycle never ends at -1 |
| Spawn.RankedIsAcyclic | internal/graph/spawn.go:68-70 | a numbering that falls along every edge rules out closed walks |
| Spawn.DetectSpawnCycles | internal/graph/spawn.go:16-81 | reports a cycle if and only if there is one, and the report is a closed walk of spawns |
| Machines.MachineIsSane | internal/graph/compiled.go:74-139 | everything the step function relies on follows from validation, wiring, compilation and targets |
| Configuration.ResumesInside | internal/runtime/executor.go:220-247 | with any history mode the resolved state rests at or inside the target |
| Configuration.NewInstanceRests | internal/runtime/executor.go:402-443 | a new instance rests well exactly when the initial leaf is not parallel |
| Configuration.ArrivalRests | internal/runtime/executor.go:363-380 | an arrival rests well exactly when no region starts at a parallel state |
| Configuration.ParallelExitRests | internal/runtime/parallel.go:380-382 | leaving a parallel state rests well exactly when the resolved target is not parallel |
| Configuration.IntraRests | internal/runtime/parallel.go:222-243 | a step inside rests well exactly when every target is a leaf of its own region |
| Configuration.TwoRegionsNeverRest | internal/runtime/parallel.go:222-243 | one transition firing in two regions never rests well |
| Configuration.StepKeeps | internal/runtime/executor.go:70-108 | every kind of step keeps the configuration invariant |
| Configuration.EveryRunRests | internal/runtime/executor.go:207-552 | after any run the current state is a leaf or a parallel state, the active leaves one per region and inside it, and history points inside its compounds |
| Counterexamples.SwapIsValidated | internal/graph/validate.go:30-65 | a definition with two parallel states and a transition between them passes every check |
| Counterexamples.SwapBreaksRest | internal/runtime/parallel.go:380-382 | and two successful transitions leave its instance in a parallel state without active leaves |
| Counterexamples.SwapCannotGoOn | internal/runtime/executor.go:157-173 | where no transition has a source any more |
| Counterexamples.CompileSwap | internal/graph/compiled.go:77-139 | compiling that definition succeeds, so the two speak about a machine there is |
| Choices.FirstDecisionWins | internal/runtime/helpers.go:16-37 | the first matching or broken condition decides, wherever the defaults stand |
| Choices.LastDefaultWins | internal/runtime/helpers.go:16-37 | without one the last default is taken, and an empty target counts as none |
| Choices.FirstGuardNamed | internal/runtime/helpers.go:39-48 | guards pass exactly when each does, otherwise the first to fail is named |
| Choices.InnerDelta | internal/runtime/parallel.go:222-267 | the event of an inner step is the exact difference between old and new active leaves |
| Choices.ForceForgets | internal/runtime/executor.go:498-510 | after a forced state nothing is left of the earlier state, regions, history and stuck mark |
| Recall.RecordExact | internal/runtime/helpers.go:140-170 | leaving a leaf records exactly the compounds left, with that leaf and the child towards it, and touches no other |
| Recall.ParallelExitRecords | internal/runtime/parallel.go:309-323 | a parallel exit records each compound between the state and an active leaf with that leaf, and no other compound |
| Recall.EveryRunRecalls | internal/runtime/executor.go:278-282 | in every run the history of an inactive compound that lies neither in nor above a parallel state is its most recent exit, absent if never exited or forced since |
| Recall.EveryRunResumes | internal/runtime/executor.go:220-247 | in every run, resolving such a compound gives the last leaf with deep history, the initial leaf of the last child with shallow history, otherwise the initial leaf |
| Moves.EveryStepResumes | internal/runtime/executor.go:207-399 | so in every run a transition outside parallel states to such a compound ends there: its own history mode decides, by the leaf of the last exit |
| Recall.EveryRunResumesInside | internal/runtime/executor.go:220-247 | a resumed compound is always entered strictly inside it |
| Recording.InnerStepsRecordNothing | internal/runtime/parallel.go:163-291 | a step inside a parallel state leaves the history as it is |
| Recording.EveryRunRecords | internal/runtime/helpers.go:137-170 | in every run, for every compound anywhere, the history is what the last recording step left, absent without one since a forced state |
| NestedRegions.InnerExitUnrecorded | internal/runtime/parallel.go:222-243 | on an accepted definition a step inside leaves a compound that the history never hears of |
| NestedRegions.NestStarts | internal/runtime/executor.go:363-380 | the first step of a new instance leads to where that happens |
| Orthogonal.ParallelExitExact | internal/runtime/helpers.go:206-228 | the exit of a parallel state is exact if and only if the active leaves are children of their regions and no ancestor of the state is left |
| NestedRegions.ExitNotExact | internal/runtime/helpers.go:206-228 | an accepted definition where it is not |
| Orthogonal.ParallelEntryExact | internal/runtime/helpers.go:187-204 | entering a parallel state is exact if and only if every region starts at a direct child |
| NestedRegions.EntryNotExact | internal/runtime/helpers.go:187-204 | an accepted definition where it is not |
| NestedRegions.NestIsAccepted | internal/graph/validate.go:30-65 | that definition is wired and passes every check |
| NestedRegions.CompileNest | internal/graph/compiled.go:77-139 | compiling it succeeds |
| NestedRegions.BothRegionsFire | internal/runtime/parallel.go:222-243 | and one of its transitions fires in two regions at once |
| Orthogonal.IntraStaysInside | internal/runtime/parallel.go:170-200 | a move inside a region exits and enters only states strictly inside it |
| Orthogonal.ExitFailureWritesNothing | internal/runtime/executor.go:301-313 | an exit activity failing at any position writes nothing, nothing runs after it, and it is what the caller hears of |
| Orthogonal.EntryFailureSticks | internal/runtime/executor.go:315-349 | an entry activity failing at any position leaves the source leaf, marked stuck; an event only with savepoints, where a failed commit is reported instead |
| Orthogonal.SuccessMoves | internal/runtime/executor.go:363-398 | without a failure all activities run in order and the move is stored exactly when the commit succeeds |
| Refusals.RefusedExactly | internal/runtime/executor.go:136-204 | every step, plain, inner or out of a parallel state, is turned down with each failure exactly for its reason, and then does nothing; otherwise a source was active, every guard passed and the routes led somewhere |
| Refusals.EveryGuardIsAsked | internal/runtime/executor.go:189-192 | no step writes, announces or runs anything while a guard of its transition fails |
| Refusals.EveryRunAsksGuards | internal/runtime/executor.go:189-192 | nor in any run |
| Refusals.TargetLeads | internal/runtime/helpers.go:16-37 | the target is that of the first route whose condition matches, else of the last default; a broken condition before that aborts |
| Refusals.LeadsOnce | internal/runtime/helpers.go:16-37 | and there is at most one such target |
| Refusals.CandidatesExactly | internal/runtime/parallel.go:82-159 | exactly the regions with a source at or above their leaf and not at or above the parallel state fire, once each, by name, all to one target |
| Activities.MoveExact | internal/runtime/executor.go:266-276 | what a move leaves and enters turns the one configuration into the other |
| Activities.PathActivities | internal/runtime/helpers.go:52-88 | its activities are exactly those of the states left, children first, and of the states entered, parents first, once each |
| Moves.PlainStep | internal/runtime/executor.go:207-399 | a transition outside parallel states lands where its history mode says, runs exactly the activities of the states by which the configurations differ, in that order and up to the first failure, and by that failure and the commit everything it writes, records, announces and cancels is determined |
| Moves.ForceStep | internal/runtime/executor.go:447-552 | a forced state is where the target starts, without history and stuck mark, with its one event |
| Moves.NewbornIs | internal/runtime/executor.go:402-443 | a new instance is where the initial state starts, unmarked, without history, its clock at zero |
| ParallelMoves.ParallelExitOrder | internal/runtime/helpers.go:206-228 | the exit of a parallel state lists each active leaf and its region, no state before one below it, none twice, the regions by name and the parallel state last |
| ParallelMoves.ExitStep | internal/runtime/parallel.go:296-402 | leaving a parallel state runs the exits in that order, then the entries of the target and all above it, parents first; at any failure nothing is stored, otherwise the instance is where the target starts, with the history of each region |
| ParallelMoves.InnerMove | internal/runtime/parallel.go:163-291 | in a step inside a parallel state all firing regions leave what their leaf and the target differ by, then all enter it; only their leaves, the clock and the stamps change, and the event says so |
| ParallelMoves.InnerRunsAll | internal/runtime/parallel.go:189-220 | when it is done it has run the exit of every state some region leaves, then the entry of every state some region enters, and nothing else |
| Guarantees.BuiltStartsAtRest | internal/graph/validate.go:223-243 | a validated definition built from options of distinct names starts every instance at the one state marked initial, at rest |
| Guarantees.EveryRunEndsInLeaf | internal/graph/validate.go:158-172 | only in a leaf has an instance ended |
| Guarantees.EndsAndWaits | internal/graph/validate.go:187-255 | some terminal state can be reached, and instances can rest wherever there is a wait |
| Orthogonal.ParallelAllOrNothing | internal/runtime/parallel.go:28-78 | parallel steps store instance and event together or nothing at all, at any failure |
| Marks.EveryRunMarks | internal/runtime/executor.go:363-380 | in every run the stuck mark is set exactly when a stored step ended in a failing entry activity since the last stored forced state, or it was set from the start |
| FailingEntry.SuccessLeavesMark | internal/runtime/executor.go:315-380 | on a valid definition a run of two calls, the first failing on entry and the second succeeding, ends in a terminal state with the mark set |
| FailingEntry.CompilePair | internal/graph/compiled.go:77-139 | compiling that definition succeeds |
| Progress.IndexNeverMisses | internal/runtime/executor.go:144-187 | the defensive lookup failure is unreachable; what passes the source check fails only in guards or routes, and conversely |
| Progress.LeafCanFire | internal/graph/validate.go:354-400 | a non-terminal leaf of a validated definition has a transition that reaches its guards |
| Progress.ParallelCanFire | internal/runtime/parallel.go:50-70 | a root-level parallel state with a non-terminal active leaf has one too |
| Progress.InnerWayExactly | internal/runtime/parallel.go:82-159 | at any depth, something can fire in a parallel state exactly when a transition is sourced at it, or at or above an active leaf and not at or above the state |
| Progress.CandidatesComplete | internal/runtime/parallel.go:82-159 | every region that can fire contributes a candidate unless a guard or route ends the call |
| Progress.RestingCanGoOn | internal/graph/validate.go:354-376 | an unfinished instance that rests well has a transition passing all structural checks outside parallel states always, in one exactly under that condition |
| Progress.EveryRunCanGoOn | internal/graph/validate.go:354-376 | so an unfinished run of a validated region-local definition can go on exactly when it is not in a parallel state all of whose sources lie above it |
| Progress.RootsEscape | internal/graph/validate.go:379-400 | where every parallel state is a root, validation rules that out |
| Progress.EveryRunGoesOn | internal/graph/validate.go:354-376 | and no run stops if below each parallel state every non-terminal leaf has a source that is not above the state |
| NestedParallel.BurialIsAccepted | internal/graph/validate.go:30-65 | definitions with a parallel state below a compound are wired and pass every check |
| NestedParallel.BurialStops | internal/runtime/parallel.go:106-115 | on one of them a run of one step ends in a parallel state where nothing can fire and no active leaf is terminal |
| NestedParallel.BurialForgets | internal/runtime/parallel.go:303-339 | on another leaving the parallel state leaves the compound above it, and its history does not hear of that |
| NestedParallel.CompileBurial | internal/graph/compiled.go:77-139 | compiling both succeeds |
| Triggers.DecideSignal | internal/runtime/scheduler.go:47-71 | none, unique or ambiguous depends on the set of matches only, not on iteration order |
| Triggers.DecideTask | internal/runtime/scheduler.go:105-150 | so does the transition chosen for a completed task |
| Triggers.SignalFires | internal/runtime/scheduler.go:47-71 | a signal fires the one transition of its kind and key with an active source, and nothing if there is none or more than one |
| Triggers.TaskFires | internal/runtime/scheduler.go:105-150 | a completed task fires the one transition of its kind and type with an active source, or among several the one chosen |
| Triggers.ChildrenFire | internal/runtime/scheduler.go:156-276 | a completed child fires one of its kind and workflow type, a joined group one of its kind whatever the key |
| Triggers.FirstForChild | internal/runtime/scheduler.go:196-214 | a match if there is one; determined when there is exactly one |
| Triggers.MatchIsAccepted | internal/runtime/helpers.go:230-239 | in a non-terminal instance without an active leaf of the empty name whatever a trigger matches passes the source check, plain or parallel |
| Triggers.ServingIsRunning | internal/runtime/scheduler.go:14-276 | a sequence of signals, completed tasks, completed children and joined groups is a run |
| Triggers.EveryServiceRests | internal/runtime/scheduler.go:14-276 | so it keeps the configuration invariant |
| Concurrency.CommitIffUnchanged | adapters/memstore/instance_store.go:47-66 | a write is stored exactly when nothing was committed since its read; the loser leaves no trace and is told of the conflict exactly when its write was not a best-effort stuck mark |
| Concurrency.WrittenStamps | internal/runtime/executor.go:363-380 | whatever is written carries the stamp read and the new clock reading |
| Concurrency.EveryInterleavingIsSerial | internal/runtime/executor.go:363-393 | any interleaving of any number of callers, their clocks unrelated, equals the committed operations run one at a time, each having read the version before it and written and announced what its operation does to that |
| Concurrency.LostUpdate | adapters/memstore/instance_store.go:47-66 | of two writers that read the same version the second is stored over the first exactly when the first one's clock gave the stamp both had read, or that stamp was zero |
| Concurrency.EveryInterleavingRests | internal/runtime/parallel.go:269-288 | so every interleaving keeps the configuration invariant |
| Tasks.TaskStore.Complete | adapters/memstore/task_store.go:55-75 | fails exactly for unknown and completed tasks, changing nothing |
| Tasks.TaskStore.InvalidateByStates | adapters/memstore/task_store.go:89-114 | cancels exactly the pending tasks of the aggregate in the given states |
| Tasks.SubtreeWalk.Run | internal/runtime/helpers.go:108-135 | the walk with its seen map collects exactly the subtrees of the exited states |
| Tasks.StepEmits | internal/runtime/dispatcher.go:81-107 | a finished transition that emits a task leaves one pending task of its type in the new state, any other step none |
| Tasks.StepDanglesIff | internal/runtime/executor.go:351-361 | a step leaves no task dangling exactly when the instance stays or every pending task is cancelled |
| Tasks.PlainCancelsExactly | internal/runtime/executor.go:315-361 | a plain transition cancels the tasks of its source exactly when it is stored and is not a stuck mark without savepoints; it stays there only if stuck or if its target resolves to the source |
| Tasks.StayingCancelsExactly | internal/runtime/executor.go:315-361 | a pending task of a state that is not left is cancelled exactly by a stored stuck step with savepoints or a stored self-transition |
| Tasks.UncleanDanglesIff | internal/runtime/executor.go:498-520 | forced states and parallel steps cancel nothing, so they leave a task dangling exactly when they move an instance with a pending one |
| Tasks.FireKeepsTasks | internal/runtime/executor.go:351-361 | plain, inner and failing steps never leave a task dangling |
| Tasks.OthersUntouched | adapters/memstore/task_store.go:89-114 | a step on one aggregate touches no other |
| Tasks.EveryRunKeepsTasks | internal/runtime/scheduler.go:76-150 | in every run over any aggregates, types and versions each pending task always waits in its instance's current state exactly when every forced state and every step out of a parallel state keeps its state or finds no pending task |
| Join.ChildStore.Complete | adapters/memstore/child_store.go:67-83 | marks the first matching child in place, and succeeds exactly when there is one |
| Join.EvaluateJoin | internal/runtime/scheduler.go:217-246 | one of the verdicts the policy allows for the counts of the group |
| Join.VerdictDetermined | internal/runtime/scheduler.go:236-245 | the verdict is independent of map iteration exactly when the mode is not N or all N-mode fan-outs wait for the same number |
| Join.SaysSatisfied | internal/runtime/scheduler.go:228-246 | then it is the comparison with the threshold |
| Join.FinishedAfter | internal/runtime/scheduler.go:156-194 | any completions in any order add up to the set of called members |
| Join.JoinCountsDistinct | internal/runtime/scheduler.go:217-246 | the join is satisfied exactly when the distinct completed members reach the threshold; other groups do not count |
| Join.JoinMeans | internal/runtime/scheduler.go:217-246 | so the join waits for all members, for one, or for as many as the fan-out says, by its mode |
| Join.JoinIgnoresOrder | internal/runtime/scheduler.go:156-194 | order and repetition of completions do not matter |
| Join.JoinStays | internal/runtime/scheduler.go:217-246 | once satisfied, satisfied after any further completions |
| Join.SpawnChildren | internal/runtime/dispatcher.go:109-158 | a fan-out creates one active relation per child in one group, of the parent, the workflow type and the policy it names, with fresh ids distinct children |
| Records.KeysApart | adapters/memstore/instance_store.go:25-27 | keys tell the aggregates of one type apart |
| Records.KeysCollideExactly | adapters/memstore/instance_store.go:25-27 | and confuse some of two types exactly when one type continues the other after a colon |
| Records.KeysCollide | adapters/memstore/instance_store.go:25-27 | two aggregates that are confused |
| Records.Database.Get | adapters/memstore/instance_store.go:29-38 | hands out a struct that shares its maps and reads as the stored instance |
| Records.Database.Update | adapters/memstore/instance_store.go:50-66 | stages a record exactly when the stored stamp is the one read |
| Records.Database.Commit | types/interfaces.go:25-30 | buffered instance, events and cancellations take effect together |
| Executor.RecordHistory | internal/runtime/helpers.go:140-170 | on new maps, without touching the shared ones, records what `RecordExact` describes |
| Executor.EnterParallelRegions | internal/runtime/helpers.go:174-185 | a new region map with every region at its initial leaf |
| Executor.RunAll | internal/runtime/executor.go:295-349 | runs exits then entries up to the first failure and tells which phase failed |
| Executor.ResolveRoute | internal/runtime/helpers.go:16-37 | first matching condition, else last default, a broken condition aborts |
| Executor.FindSource | internal/runtime/executor.go:157-173 | bubbling finds the nearest source at or above the state |
| Executor.ComputeParallelExitSequence | internal/runtime/helpers.go:210-228 | computes the sequence of `ParallelExitOrder`: regions in ascending order, leaf before region, the parallel state last |
| Names.LeqIsLexical | internal/runtime/helpers.go:214-218 | ascending is the lexical order of the names |
| Commits.CommitTransition | internal/runtime/executor.go:207-399 | refines `Step.CommitPlain` on the heap: store, events, cancellations, activities, and the exact failure, lost locks and failed commits included |
| Commits.RequestsCancel | internal/runtime/executor.go:351-361 | its clean-up request, carried out, cancels exactly the pending tasks of the aggregate in the states left and below |
| ParallelCommits.CollectCandidates | internal/runtime/parallel.go:82-159 | collects the candidates of `CandidatesComplete` in ascending order of regions |
| ParallelCommits.CommitIntra | internal/runtime/parallel.go:163-291 | refines the step inside a parallel state, which `InnerMove` describes, failures included |
| ParallelCommits.CommitExit | internal/runtime/parallel.go:296-402 | refines the exit of a parallel state, which `ExitStep` describes, failures included |
| Engine.CreateInstance | internal/runtime/executor.go:402-443 | stores the new instance at its initial leaf, or nothing when the commit fails |
| Engine.NewbornHeader | internal/runtime/executor.go:402-443 | it carries the ids, the correlation and the time it is given, and type and version of its definition |
| Engine.StartMeans | internal/runtime/executor.go:110-133 | what an operation starts from: the stored instance with the machine of its version, a new one with the latest, or each failure |
| Engine.LoadOrCreate | internal/runtime/executor.go:110-133 | hands out the stored instance with the machine of its version, or a new one with the latest; fails exactly without a machine or without a commit |
| Engine.ForceOn | internal/runtime/executor.go:447-552 | refines the forced state; history is cleared with new maps |
| Engine.TransitionOn | internal/runtime/executor.go:70-108 | refines the transition, plain or parallel; without a commit the store is unchanged whatever was computed |
| Engine.PerformOn | internal/runtime/executor.go:70-133 | one call: the instance, created if need be, becomes what `Step` says; activities, failure, events and cancellations are those of `Step`; every other stored instance and all state data stay as they were; without an instance or a machine nothing happens |
| Engine.PerformAll | internal/runtime/executor.go:70-133 | any sequence of operations takes the stored instance through `Step.Run` |
| Registry.Registry.Register | internal/runtime/runtime.go:102-155 | accepts exactly the valid, acyclic, new definitions for which the spawn check finds no cycle; a rejection changes no map; the registry invariant is kept; when the latest entry stays in step |
| Registry.Registry.RegisterAll | internal/runtime/runtime.go:102-155 | every sequence of registrations keeps the invariant |
| Registry.UnionCycle | internal/runtime/runtime.go:123-135 | the sequence handed to the detector stands for every choice of registered definitions |
| Replacement.RefusesExactly | internal/runtime/runtime.go:123-135 | when nothing of another workflow type is replaced, a definition is refused exactly when registering it would close a cycle |
| Replacement.ClosesExactly | internal/runtime/runtime.go:123-135 | for every registry, registering a definition closes a cycle exactly when the check without the replaced entry finds one |
| Replacement.UnjustifiedExactly | internal/runtime/runtime.go:123-135 | so a refusal is unjustified exactly when the check without the replaced entry passes |
| Replacement.RefusesTooMuch | internal/runtime/runtime.go:123-135 | otherwise it can be refused although neither before nor after there is a cycle |
| Replacement.SomeRefusedTooMuch | internal/runtime/runtime.go:123-135 | two definitions for which this happens |
| Registry.PutSpawnFree | internal/runtime/runtime.go:137-141 | an accepted definition keeps every choice of registered definitions acyclic, replaced or not |
| Registry.PutAgrees | internal/runtime/runtime.go:138-152 | the four maps keep telling the same story, with the greatest number as latest |
| Registry.LatestInStep | internal/runtime/runtime.go:138-152 | exactly when an accepted definition leaves the latest entry equal to the version stored under its number |
| Counterexamples.SameNumberTwice | internal/runtime/runtime.go:142-152 | two accepted definitions of one number after which it is not |
| Registry.ServedIsEntry | internal/runtime/runtime.go:159-173 | whatever is served was accepted under that type and number |
| Registry.ServesExactly | internal/runtime/runtime.go:159-173 | and exactly the accepted numbers are served, each with its own definition; zero asks for the greatest |
| Registry.UnchangedMeans | internal/runtime/runtime.go:109-116 | a definition is taken for unchanged exactly when the one under its number has the same hash |
| Registry.EntriesAreMachines | internal/runtime/runtime.go:159-173 | and is a machine that all theorems about runs apply to |
| StateData.CopyMap | internal/runtime/helpers.go:250-264 | the same contents at every depth in maps that are all new; nil stays nil; slices are shared |
| Snapshots.CopyStringMap | internal/runtime/snapshot.go:67-77 | a new map of the same contents, nil for nil |
| Snapshots.SnapshotOfRestored | internal/runtime/snapshot.go:33-65 | snapshotting a restored instance gives the same snapshot exactly when data and histories were not nil |
| Snapshots.RestoreOfSnapshot | internal/runtime/snapshot.go:130-161 | restoring a snapshot gives the same instance up to its stamps under the same condition, and always to the step function |
| Snapshots.TakeSnapshot | internal/runtime/snapshot.go:15-65 | fails exactly for an unknown instance or version; otherwise the image of the stored record, state data included, in maps of its own |
| Snapshots.Restore | internal/runtime/snapshot.go:98-198 | refuses exactly an unknown version, another hash or an existing instance, changing nothing; otherwise stores the record the snapshot describes, in maps of its own, with one event |
| Likeness.PerformedAlike | internal/runtime/executor.go:70-133 | one operation, with answers blind to id and stamps, has like effects on like instances |
| Likeness.CopiesRunAlike | internal/runtime/snapshot.go:130-161 | any run of the restored copy goes through the same states as the same run of the original |

## Left out

- The pgx, sqlite, dynamo, redis, nats and asynq adapters, buses, runners, loggers and observers: plumbing around the contracts modelled here.
- memstore's no-op rollback: a transaction is modelled by its contract (buffer, then commit or discard together).
- SHA-256 of definitions: `Registry` takes the hash as a function about which nothing is assumed; equal hashes do not mean equal definitions.
- Actor, metadata and error texts inside steps and events. State data, StuckAt and RetryCount are part of the stored record, which no step changes; the copies of the state data that events carry are left out, and so is `_region_sequence_map` in the payload of inner steps.
- A failing begin of a transaction, which writes nothing; a failing commit is modelled.
- Activities dispatched after the commit, timeouts, SideEffect, shutdown, mutexes.
- Concurrent first creation and concurrent Restore: both race by design. `Concurrency` starts from an existing instance with a non-zero stamp.
- Terminal state of a JoinAny, and the search for the ChildrenJoined transition, which is the search of `FirstForChild`.
- Priority, AllowSelfTransition and the list of terminal states of a definition: no modelled operation reads them.
- Concurrency.EveryInterleavingIsSerial: assumes that every prepared write gets a clock reading greater than the stamp its caller read; without that updates are lost exactly as `LostUpdate` says.
- Validate.ValidateDefinition: assumes that validation returns (`Returns`), since the source does not come back otherwise; `WalksEndExactly` is the condition in terms of the definition.
- Registry.Registry.Register: assumes wired definitions, which the builder guarantees, and that validation of them returns; without wiring compilation need not return (`TangleNeverResolves`).
- Registry.Registry.RegisterAll: the same for each definition.
- Recall.EveryRunRecalls: speaks about compounds that lie neither in a parallel state nor above one; in one, steps exit compounds without recording them (`InnerExitUnrecorded`), above one, leaving the parallel state does (`BurialForgets`). `EveryRunRecords` says for every compound what the history holds.
- Progress.EveryRunCanGoOn: assumes region-local definitions, because without that a run can end in a parallel state without active leaves (`SwapBreaksRest`, `SwapCannotGoOn`), and no state named by the empty string, which the source uses for "no source found".
- Triggers.MatchIsAccepted: assumes that no active leaf is named by the empty string, which the source uses for "no source found".
- Refusals.RefusedExactly: assumes an instance that rests well and has no active leaf named by the empty string, as every run leaves it.
- Moves.PlainStep: assumes a current state with a name; ParallelMoves.ExitStep assumes no state named by the empty string.
- Moves.EveryStepResumes: speaks about the compounds of `EveryRunRecalls`.
- Options other than When, To and Default inside a Route, which the source ignores, and the options for dispatched activities.
- Likeness.CopiesRunAlike: assumes guards and conditions that look neither at the aggregate id nor at time stamps.
- StateData.CopyMap: assumes nested data in which no map contains itself; on a cyclic one the source does not return.
