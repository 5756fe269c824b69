# Verification of the engine's schedulers, indices and frame protocol

A Dafny model of the parts of the engine that reorder work, keep linked or slotted
indices, or hand frames from one thread to another, with proofs that they keep their
meaning. `dafny verify dfyconfig.toml` verifies the whole project.

How the source is rendered:

- An object whose methods update its fields is a class with those fields. Beside it stands a
  value of the same shape (`View()`, or a ghost forest) and a function for every operation on
  that value; each method is proved to do exactly what the function says, and the theorems are
  about the functions.
- Concurrent code is a state machine. Every block that holds a lock is one step, and so is every
  call made outside a lock; steps of different calls and worker tasks interleave freely. The
  classes `AccessCoordinator`, `SystemRunState`, `MainExecutor`, `FrameScheduler` and `EngineCore`
  hold the locked blocks as methods that take exactly one step.
- A thrown error is a `Result` or an `Option`. Sort and hash calls are specified by what they
  guarantee: any sorted rearrangement, any mixing function.
- `TaskSystem` is not modelled. A submitted task runs once, after its listed dependencies have
  completed.

The modules, by subject:

- *Reordering*: if adjacent steps that do not conflict commute, every order that keeps the
  conflicting pairs ends in the same state and shows every step the same values. The access
  coordinator, the ECS run and the render graph all rest on it.
- *Access coordinator*: `AccessScopes` (scopes and footprints on 64-bit coordinates), `CoordinatorSpec`,
  `CoordinatorInvariant`, `CoordinatorSteps`, `CoordinatorBlocks` (what each locked block decides, over the fields),
  `CoordinatorTheorems`, `CoordinatorOutcomes` (what becomes of ended work over whole runs), `CoordinatorDrain`,
  `CoordinatorMissedDrain`, `CoordinatorDrainTheorem`, and the class in `AccessCoordinatorClass`.
- *ECS execution and structure*: `SystemGraphSpec`, `SystemGraph`, `DeclaredOrder` (the graph over the declarations),
  `SystemRuns`, `ScopedBatch`, `ScopedRuns`, `RunParticipants`, `SystemRunStateClass`, `ScopedParticipants`, `ScopedDrain`,
  `ScopedOutcomes`, `EntityTableSpec`, `EntityTable`, `EntityOutcomes`, `EntityRuns`, `StructuralCommands`,
  `ProducerBuffers`, `StructuralEffects` (what commands do to the hierarchy), `DeferredStructure`, `RunCommits`.
- *Hierarchy*: `Matrices`, `AffineInverse`, `HierarchySpec`, `HierarchyShapes`, `HierarchyLinks`, `Hierarchy`.
- *Render graph*: `TopologicalOrder`, `RenderGraphSpec`, `RenderGraphContents`, `RenderGraphCompiler`, `CompiledGraphs`.
- *Frames*: `FrameSchedulerSpec`, `FrameSchedulerClass`, `FrameLives`, `EngineFrames`, `DrawTasks`, `EngineClass`.
- *Smaller cores*: `MainExecutorSpec`, `MainExecutorClass`, `ExecutorOutcomes`, `Sorting`, `KeyedLists`, `PipelineKey`,
  `PipelineTokens`, `ChunkedWork`, `RenderPlans`, `RenderExtraction`, `DrawnFrames`.

Three places where the code does less than its surroundings suggest:

- *A seal that overlaps a late `Schedule` can miss its drain callback.* `Schedule` leaves after
  `Progress` and `ReleaseTerminalFunctions` without `CompleteSeal` (ecs/internal/access_coordinator.cpp:425-427),
  while every other call ends with it (439-441, 476-478). If that call happens to retire the last payload after
  `Seal` has looked, nobody completes the seal. `CoordinatorDrainTheorem.FailedPublicationMissesDrain` is such a run,
  from an empty coordinator: the executor refuses the only operation (192-200), and its `Schedule` call is still
  destroying the payload when `Seal` looks. `CoordinatorDrainTheorem.MissedDrainExactly` says in which states this can
  happen: the callback can be missed if and only if, at the time of `Seal`, a `Schedule` call in progress is destroying a
  payload or may still get hold of one (`CoordinatorDrain.CanMiss`). It may get hold of any payload not yet moved out,
  except that of its own operation when the executor already has it and nothing depends on it: then only its run can
  take the payload, because the key with which it could be cancelled has not been handed out. A scoped ECS run never
  meets the condition: the thread that makes all its `Schedule` calls then seals (ecs/world.cpp:176-205), and
  `ScopedDrain.ScopedRunIsFinalized` shows that such a run is finalized, once, when its calls have returned, its systems
  have ended and its buffers have retired.
- *Releasing a reservation that a failed commit has already materialised loses its slot.* When a commit
  throws halfway, a slot can have been pushed for a reservation whose command was not reached
  (ecs/world.cpp:454-468). Rolling that reservation back only drops it from the pending list
  (486-495, 577-586), so the slot stays reserved with no holder. `EntityTableSpec.ReleasedKeepsInv` states exactly
  when a release keeps the slots accounted for: it is not an append, or its slot has not been materialised.
  `EntityRuns.RollbackLosesSlot` is a run of four operations from the empty table that loses slot 0. Handles are never
  issued twice all the same. The source rolls such a reservation back only behind a failed commit of an asynchronous run,
  and then sets `ExecutionPoisoned_` too (237-242), so the lost slot is in a world that refuses to run systems until it
  has been recovered.
- *Descriptor equality ignores order only where keys are unique.* `PipelineKey.OrderIsIgnored` says exactly when a
  rearranged descriptor is equal: the rearranged part has unique keys, or was not really rearranged.

## Model

| member | source | states |
|---|---|---|
| `Reordering.ReorderingKeepsState` | ecs/internal/access_coordinator.cpp:399-428 | the common core of the three schedulers: running the steps in any order that keeps every conflicting pair ends in the same state |
| `Reordering.FootprintReordering` | ecs/world.cpp:783-803 | for steps confined to footprints, such an order also shows every step the same part of the store |
| `AccessScopes.NormalizeKeepsCover` | ecs/internal/access_coordinator.cpp:23-53 | an admitted scope covers exactly the cells it covered before normalization, and normalizing again changes nothing |
| `AccessScopes.BinarySearchFinds` | ecs/internal/access_coordinator.cpp:55-66 | binary search over a sorted element list is membership |
| `AccessScopes.ContainsIsCover` | ecs/internal/access_coordinator.cpp:55-66 | `Contains` answers exactly whether the scope covers the element, without wrap-around |
| `AccessScopes.OverlapsExactly` | ecs/internal/access_coordinator.cpp:68-89 | on normalized scopes `Overlaps` holds if and only if they share a cell, except that a resource and an entity scope always overlap; 64-bit sums do not wrap |
| `AccessScopes.UncheckedRangeWraps` | ecs/internal/access_coordinator.cpp:31-36 | without the range check of `Normalize` two sharing chunks would be reported disjoint |
| `AccessScopes.SharedCellClashes` | ecs/internal/access_coordinator.cpp:404-412 | two operations of which one may change a cell the other may touch always clash |
| `AccessScopes.ClashesExactly` | ecs/internal/access_coordinator.cpp:404-412 | operations clash exactly when two of their footprints name the same domain, not both for reading, and share a cell, or one is a resource and the other is not; two readers never wait for each other |
| `AccessScopes.OperationsClashSymmetric` | ecs/internal/access_coordinator.cpp:404-412 | whether operations clash does not depend on which came first |
| `AccessCoordinatorClass.AccessCoordinator.constructor` | ecs/internal/access_coordinator.cpp:303-316 | a new coordinator is the initial state of the protocol |
| `AccessCoordinatorClass.AccessCoordinator.MakeKey` | ecs/internal/access_coordinator.cpp:328-340 | the key of an operation resolves back to it |
| `AccessCoordinatorClass.AccessCoordinator.FindConflicts` | ecs/internal/access_coordinator.cpp:399-415 | the loops find exactly the earlier operations that still hold access and clash |
| `AccessCoordinatorClass.AccessCoordinator.Schedule` | ecs/internal/access_coordinator.cpp:374-428 | admission is refused exactly for bad footprints, a closed or failed coordinator, unregistered domains or unknown keys; otherwise the operation joins behind its explicit and conflicting predecessors, and its key resolves to it |
| `CoordinatorBlocks.AdmissibleScopes` | ecs/internal/access_coordinator.cpp:23-53 | exactly the scopes are admitted that name something, carry no coordinate their kind has no use for, and do not wrap |
| `CoordinatorBlocks.AdmittedExactly` | ecs/internal/access_coordinator.cpp:374-398 | a call is admitted exactly when admission is open, nothing has failed, every footprint is well formed on a registered domain, and every key was handed out here |
| `CoordinatorBlocks.AdmittedBehindExactly` | ecs/internal/access_coordinator.cpp:391-422 | the admitted operation joins last, waits, covers what it declared, and depends on exactly the named operations and those that still hold access and are in its way |
| `AccessCoordinatorClass.AccessCoordinator.RegisterDomain` | ecs/internal/access_coordinator.cpp:342-372 | registers a domain, or replaces an older generation that nothing holds access to; refused otherwise |
| `CoordinatorBlocks.RegisteredExactly` | ecs/internal/access_coordinator.cpp:342-372 | registered exactly when the key is complete, its lifetime is given, admission is open, nothing has failed, and the registration it replaces is older and named by nothing that holds access |
| `AccessCoordinatorClass.AccessCoordinator.Scan` | ecs/internal/access_coordinator.cpp:157-185 | one locked scan of `Progress`: cancels behind failures on the way and queues the first ready operation |
| `CoordinatorBlocks.ScanMeans` | ecs/internal/access_coordinator.cpp:157-185 | a scan queues the first waiting operation whose dependencies have all completed, and before it cancels exactly the waiting ones behind failed or cancelled work; nothing else changes |
| `AccessCoordinatorClass.AccessCoordinator.SubmitFailed` | ecs/internal/access_coordinator.cpp:186-202 | a failed publication fails the operation if it is still queued |
| `AccessCoordinatorClass.AccessCoordinator.Release` | ecs/internal/access_coordinator.cpp:206-225 | moves out the first payload of an ended operation, or finds that there is none |
| `CoordinatorBlocks.ReleaseMeans` | ecs/internal/access_coordinator.cpp:206-225 | the payload taken is that of the first operation that has ended and still has one |
| `AccessCoordinatorClass.AccessCoordinator.Retired` | ecs/internal/access_coordinator.cpp:226-234 | the payload is gone and the retiring count goes down |
| `AccessCoordinatorClass.AccessCoordinator.BeginRun` | ecs/internal/access_coordinator.cpp:236-247 | only an operation that is still queued is claimed |
| `AccessCoordinatorClass.AccessCoordinator.EndRun` | ecs/internal/access_coordinator.cpp:248-267 | the operation ends failed if its callback threw and completed if it returned; a throw is latched, one less runs, and no other operation changes |
| `AccessCoordinatorClass.AccessCoordinator.Cancel` | ecs/internal/access_coordinator.cpp:430-443 | cancels exactly waiting and queued work; a foreign key is refused |
| `AccessCoordinatorClass.AccessCoordinator.Seal` | ecs/internal/access_coordinator.cpp:464-479 | closes admission once; a second seal is refused |
| `AccessCoordinatorClass.AccessCoordinator.Stop` | ecs/internal/access_coordinator.cpp:481-495 | closes admission and cancels everything that has not started |
| `AccessCoordinatorClass.AccessCoordinator.CompleteSeal` | ecs/internal/access_coordinator.cpp:269-287 | completes the seal exactly when it is sealed, not completed yet, and nothing runs, retires or holds access |
| `AccessCoordinatorClass.AccessCoordinator.DropStopToken` | ecs/internal/access_coordinator.cpp:501-517 | lets go of the next owner token until none is left |
| `CoordinatorSteps.StepKeepsInv` | ecs/internal/access_coordinator.cpp:157-287 | every step of every interleaving keeps the protocol's invariant: no lost wake-up or payload, exact counters, ordered clashes, sound stop and seal |
| `CoordinatorSteps.AccessKeepsHistory` | ecs/internal/access_coordinator.cpp:236-254 | while an operation runs, no later clashing operation has made an access |
| `CoordinatorTheorems.InterleavingsAreSerializable` | ecs/internal/access_coordinator.cpp:157-267 | for operations that stay inside their footprints, every interleaving leaves the store that the executed accesses leave one operation after another in admission order, and every access sees the same cells |
| `CoordinatorTheorems.OnlyCompletedWorkIsConsumed` | ecs/internal/access_coordinator.cpp:167-180 | what runs has only completed dependencies, and every earlier clashing operation has ended |
| `CoordinatorTheorems.FailureIsNeverConsumed` | ecs/internal/access_coordinator.cpp:168-174 | behind failed or cancelled work nothing ever runs |
| `CoordinatorOutcomes.EndOfRun` | ecs/internal/access_coordinator.cpp:248-267 | the end of a run is accepted exactly for a running operation, which ends failed if its callback threw and completed if it returned; the throw is latched and no other operation changes |
| `CoordinatorOutcomes.EndOfPublication` | ecs/internal/access_coordinator.cpp:186-202 | a publication that throws fails the operation, and latches the failure, exactly if it is still queued |
| `CoordinatorOutcomes.EndByStop` | ecs/internal/access_coordinator.cpp:481-495 | Stop cancels exactly what has not started |
| `CoordinatorOutcomes.FailedForGood` | ecs/internal/access_coordinator.cpp:167-174 | over any run failed and cancelled work stays so, and nothing that depends on it, even through others, ever makes an access |
| `CoordinatorOutcomes.ThrownWorkIsNeverConsumed` | ecs/internal/access_coordinator.cpp:236-267 | over any run, behind an accepted end that carried a throw nothing is admitted and no dependent ever makes an access; without a throw the operation stays completed |
| `CoordinatorTheorems.RunningKeepsOwnersAlive` | ecs/internal/access_coordinator.cpp:352-369 | the owner tokens of everything an operation with access may touch are held |
| `CoordinatorTheorems.NoDeadlock` | ecs/internal/access_coordinator.cpp:157-234 | with no `Progress` in flight and nothing queued or running, every operation has ended; with no release in flight every payload is gone |
| `CoordinatorTheorems.DrainIsOnceAndLast` | ecs/internal/access_coordinator.cpp:269-287 | the drain callback comes at most once, and only when nothing runs, everything has ended, all payloads are retired and all tokens released |
| `CoordinatorDrain.SealAloneDrains` | ecs/internal/access_coordinator.cpp:464-479 | sealed while no `Schedule` call in progress can come to destroy a payload: once all calls have returned and nothing is active, the callback has come exactly once |
| `CoordinatorMissedDrain.FinishThread` | ecs/internal/access_coordinator.cpp:157-234 | while the seal is held up, any other call can be driven to its return in finitely many steps, which only queue or cancel waiting operations and release payloads |
| `CoordinatorMissedDrain.RetiringMisses` | ecs/internal/access_coordinator.cpp:206-234 | while a `Schedule` call destroys a payload, everything else can end, and that call then leaves last without completing the seal |
| `CoordinatorDrainTheorem.SpareMisses` | ecs/internal/access_coordinator.cpp:186-225 | a payload that a `Schedule` call in progress may get hold of can be led to it: a waiting operation is made ready, a queued one fails to be submitted or is cancelled with a key that is out |
| `CoordinatorDrainTheorem.MissedDrainExactly` | ecs/internal/access_coordinator.cpp:425-479 | some continuation of `Seal`, using no key before it is handed out, misses the callback if and only if a `Schedule` call in progress is destroying a payload or may still get hold of one |
| `CoordinatorDrainTheorem.FailedPublicationMissesDrain` | ecs/internal/access_coordinator.cpp:186-202 | eleven steps from an empty coordinator that end sealed, with all calls returned and all work done, and the callback not called |
| `SystemGraph.CollectConstraints` | ecs/world.cpp:738-752 | accepts the constraints exactly when all name two different registered systems, and marks exactly them |
| `SystemGraph.CountIncoming` | ecs/world.cpp:754-759 | counts, for every system, its unmet predecessors |
| `SystemGraph.SelectNext` | ecs/world.cpp:763-770 | picks the unvisited system of least ID that waits for nothing, or finds none ready |
| `SystemGraph.OrderSystems` | ecs/world.cpp:760-781 | emits all systems if and only if the constraints are acyclic, and then in the lexicographically least order by ID |
| `SystemGraph.AddConflicts` | ecs/world.cpp:783-796 | adds the conflict edges of every pair in order, leaving pairs of scoped systems to the coordinator |
| `SystemGraph.BuildSystemExecutionGraph` | ecs/world.cpp:718-805 | the full answer: registration order without schedules, else the verdict or the canonical graph; a system named in `before` comes later and depends on the one that names it, one named in `after` the other way round, and a refusal is invalid exactly when an entry is the system's own ID or nobody's |
| `DeclaredOrder.DeclaredOrderHolds` | ecs/world.cpp:738-803 | a system that names another in `before` precedes it and is among its dependencies, and one that names another in `after` follows it and depends on it |
| `DeclaredOrder.InvalidExactly` | ecs/world.cpp:738-752 | the constraints are invalid exactly when some entry is the system's own ID or nobody's |
| `DeclaredOrder.CycleExactly` | ecs/world.cpp:754-781 | a cycle is reported exactly when the declarations lead from some system back to itself |
| `DeclaredOrder.DependenciesExactly` | ecs/world.cpp:783-803 | a system depends exactly on those that declare to run before it, that it declares to run after, or that come earlier in the order and declare a conflicting access |
| `DeclaredOrder.LeastIdFirst` | ecs/world.cpp:763-781 | every place of the order goes to the least ID among the systems whose declared predecessors have all been placed |
| `SystemGraphSpec.RegistrationOrderIsIrrelevant` | ecs/world.cpp:730-781 | verdict and canonical order are the same for every registration order and whatever the systems access |
| `SystemGraphSpec.CanonicalOrderRespectsConstraints` | ecs/world.cpp:745-781 | every constraint points forward in the canonical order |
| `SystemGraphSpec.DependenciesPointForward` | ecs/world.cpp:783-803 | every listed dependency comes earlier in the order, so no wait is circular |
| `SystemRuns.ClashMeansConflict` | ecs/world.cpp:787-792 | systems that really touch a common place, one of them changing it, conflict in what they declare |
| `SystemRuns.InterleavingKeepsConflicts` | ecs/world.cpp:133-205 | when clashing systems run in canonical order, conflicting steps come in the order of the sequential run |
| `SystemRuns.GraphOrdersClashes` | ecs/world.cpp:783-803 | without scoped systems the dependencies alone make clashing systems run in canonical order |
| `SystemRuns.GraphRunIsSequential` | ecs/world.cpp:142-175 | a successful run without scoped systems leaves the store, the locals and the recorded commands of the sequential run |
| `ScopedRuns.StepKeepsRunInv` | ecs/world.cpp:176-204 | in a run that hands the systems to the coordinator in canonical order, the operations keep the footprints and dependencies of their systems, and no access of an operation is followed by one of a dependency |
| `ScopedRuns.UseIsInFootprints` | ecs/world.cpp:1000-1036 | what a system can get at lies in the footprints it is scheduled with: the views of a scoped one, the declared components of an ordinary one, and anything for one that declares nothing and excludes all others |
| `ScopedRuns.FootprintPerAccess` | ecs/world.cpp:1000-1036 | an ordinary system is admitted for the whole of every component it declares, for writing exactly if it declares that, and for reading the world, or exclusively if it declares nothing |
| `ScopedRuns.ClashMeansFootprintsClash` | ecs/world.cpp:1000-1036 | systems that really touch a common place, one of them changing it, are admitted with clashing footprints |
| `ScopedRuns.DependencyRunsFirst` | ecs/world.cpp:181-196 | a system with dependencies starts only after they are complete, because it is scheduled behind their keys |
| `ScopedRuns.CoordinatorOrdersClashes` | ecs/world.cpp:176-204 | the coordinator makes systems that clash run in canonical order, scoped or not |
| `ScopedRuns.CoordinatedRunIsSequential` | ecs/world.cpp:176-204 | every run of the coordinator that schedules the systems in canonical order and lets them make all their steps leaves the store, the locals and the recorded commands of the sequential run, and every step sees the same values |
| `ScopedRuns.ParallelRunIsSequential` | ecs/world.cpp:133-205 | a successful parallel run, with scoped systems or without, equals the sequential run in canonical order |
| `ScopedBatch.EntitiesOf` | ecs/internal/scoped_batch.cpp:62-95 | accepts exactly the valid scopes, and lists exactly the live entities they name |
| `ScopedBatch.Merge` | ecs/internal/scoped_batch.cpp:96-109 | one entry per component and entity, writable once any declaration writes |
| `ScopedBatch.Resolve` | ecs/internal/scoped_batch.cpp:56-113 | the entries are exactly the present components some declaration grants, once each, writable exactly where one grants writing |
| `ScopedBatch.AdmittedScopeCovers` | ecs/world.cpp:1010-1020 | the footprint a declaration is admitted with covers the slot of every entity in its scope |
| `ScopedBatch.AdmittedScopeExactly` | ecs/world.cpp:1010-1020 | the admitted scope covers exactly the slots the declared one names |
| `ScopedBatch.FootprintPerDeclaration` | ecs/world.cpp:1000-1026 | one footprint per declaration, on its component's domain, for writing exactly if it declares that, beside a shared reading of the world |
| `ScopedBatch.EntriesStayInFootprints` | ecs/world.cpp:1000-1036 | whatever entry a scoped system resolves lies in its admitted footprints, for changing when it is writable |
| `ScopedBatch.ResolvedBatchViews.Get` | ecs/internal/scoped_batch.h:61-73 | a view finds a component exactly while its invocation is active, on its thread, and only among the entries of sufficient mode |
| `ScopedBatch.ResolvedBatchViews.Begin` | ecs/internal/scoped_batch.cpp:115-118 | binds the batch to the calling thread |
| `ScopedBatch.ResolvedBatchViews.End` | ecs/internal/scoped_batch.cpp:119-126 | saved views reject any later use |
| `RunParticipants.ActorsHoldCounts` | ecs/world.cpp:112-175 | whoever can still act holds a count: nothing joins or retires after the count is zero |
| `RunParticipants.StepKeepsRunInv` | ecs/world.cpp:133-263 | the count is exactly publisher, a system counted but not yet submitted, tasks and open buffers, in every interleaving of the publisher's check, count and submission with everything else |
| `RunParticipants.FinalizesOnceAfterEverything` | ecs/world.cpp:206-263 | a run finalizes at most once, exactly when publication, all tasks and all buffers have retired |
| `RunParticipants.FinalStep` | ecs/world.cpp:220-222 | the finalizing step sets the outcome, and a completed run published every system unfailed and uncancelled |
| `RunParticipants.OutcomeIsDecided` | ecs/world.cpp:206-222 | over any run the outcome is failed if a submission, a system or a clean-up threw before the last participant left, otherwise cancelled if it was cancelled or abandoned, otherwise completed; and it stays |
| `RunParticipants.GoesOnExactly` | ecs/world.cpp:142-165 | at every point of every run the publisher goes on, and running systems may open buffers, exactly as long as nothing has thrown and nobody has cancelled |
| `SystemRunStateClass.SystemRunState.Start` | ecs/world.cpp:133-141 | a second start is refused |
| `SystemRunStateClass.SystemRunState.CheckNext` | ecs/world.cpp:142-145 | the loop stops behind a failure or a cancellation, or after the last system |
| `SystemRunStateClass.SystemRunState.CountNext` | ecs/world.cpp:146-146 | a system is counted before it is submitted, even when the run was cancelled after the check |
| `SystemRunStateClass.SystemRunState.SubmitNext` | ecs/world.cpp:147-172 | a failed submission gives the count back and fails the run, and is never the last participant |
| `SystemRunStateClass.SystemRunState.EndTask` | ecs/world.cpp:152-165 | a task retires exactly once, and a throw fails the run |
| `SystemRunStateClass.SystemRunState.OpenBuffer` | ecs/world.cpp:850-864 | a producer joins the count unless the run has failed or is cancelled |
| `SystemRunStateClass.SystemRunState.CloseBuffer` | ecs/world.cpp:373-396 | a buffer retires exactly once |
| `SystemRunStateClass.SystemRunState.Retire` | ecs/world.cpp:206-222 | gives up one count; the last one decides failed before cancelled before completed |
| `SystemRunStateClass.SystemRunState.Abandon` | ecs/world.cpp:123-132 | an unstarted run ends cancelled at once; a started one is left alone |
| `ScopedParticipants.StepKeepsScopedInv` | ecs/world.cpp:176-205 | in a scoped run the count is the publication's, until the drain callback, and the open buffers', in every interleaving with the coordinator |
| `ScopedParticipants.ScopedRunFinalizesOnce` | ecs/world.cpp:312-323 | a scoped run finalizes at most once, exactly when the drain callback has come and every buffer has retired; then every system has ended and no buffer can be opened |
| `ScopedDrain.PublisherCannotMiss` | ecs/world.cpp:176-205 | when the thread that has made all `Schedule` calls seals, no `Schedule` call is in progress, so the callback cannot be missed |
| `ScopedDrain.ScopedRunIsFinalized` | ecs/world.cpp:176-205 | a scoped run is finalized, once, as soon as all calls have returned, nothing is queued or running, and every buffer has retired |
| `ScopedOutcomes.OutcomeIsDecided` | ecs/world.cpp:206-222 | over any scoped run the same, and failed too if an operation failed in the coordinator, which the drain callback asks for |
| `ScopedOutcomes.OpensExactly` | ecs/world.cpp:850-864 | at every point of every scoped run a running system may open a buffer exactly as long as nothing has thrown and nobody has cancelled |
| `ScopedOutcomes.CompletedMeansAllRan` | ecs/world.cpp:312-323 | a scoped run that ends completed has scheduled all its systems and all of them have run to their end; none was lost inside the coordinator |
| `EntityTableSpec.InvPartitions` | ecs/world.cpp:398-433 | under the invariant every slot is exactly one of alive, free once, or held by one reservation |
| `EntityTableSpec.CreatedKeepsInv` | ecs/world.cpp:407-433 | an immediate create hands out a handle never handed out before and revives no live slot |
| `EntityTableSpec.ReservedKeepsInv` | ecs/world.cpp:556-575 | a reservation hands out a handle never handed out before and changes no slot's state |
| `EntityTableSpec.ReleasedKeepsInv` | ecs/world.cpp:577-586 | a release keeps all slots accounted for if and only if it is not an append whose slot a commit has materialised; nothing alive changes |
| `EntityTableSpec.SlotLost` | ecs/world.cpp:486-495 | in the other case the slot of that reservation ends neither alive nor free nor held |
| `EntityTableSpec.ReleasedKeepsHandles` | ecs/world.cpp:577-586 | any release, of a materialised slot too, keeps handles unique and all other reservations sound |
| `EntityTableSpec.GrownToKeepsInv` | ecs/world.cpp:454-468 | growing the table to a reserved index keeps every reservation and partitions the new slots |
| `EntityTableSpec.AppliedKeepsInv` | ecs/world.cpp:440-480 | committing a held create brings exactly the promised handle to life |
| `EntityTableSpec.DestroyedKeepsInv` | ecs/world.cpp:638-658 | destroying removes exactly the given handle |
| `EntityOutcomes.CreateMeans` | ecs/world.cpp:407-433 | an immediate create takes the slot freed last under the generation it has reached, or appends a slot under the next unused generation; no other slot changes |
| `EntityOutcomes.ReserveMeans` | ecs/world.cpp:556-575 | a reservation promises the slot freed last, or the first index past the table that no pending append names, under the next unused generation |
| `EntityOutcomes.ReleaseMeans` | ecs/world.cpp:577-586 | a released slot is the one freed last, one generation on; a released append only leaves the pending ones |
| `EntityOutcomes.GrowthMeans` | ecs/world.cpp:454-468 | growing appends reserved slots under the promised generations for the pending appends and free ones, in ascending order, for the others |
| `EntityOutcomes.CommitMeans` | ecs/world.cpp:440-480 | a commit brings the promised slot to life under the promised generation, after growing the table up to it, and no other |
| `EntityOutcomes.DestroyMeans` | ecs/world.cpp:638-658 | destroying frees the slot of a live entity, one generation on and as the one freed last; a stale handle changes nothing |
| `EntityRuns.HandlesNeverRepeat` | ecs/world.cpp:398-495 | over any run of creates, reservations, rollbacks, commits and destructions, with commits that fail halfway too, no (index, generation) handle is issued twice |
| `EntityRuns.SlotsStayPartitioned` | ecs/world.cpp:398-495 | over any run that rolls back no materialised reservation every slot stays exactly one of alive, free once, or held by one reservation |
| `EntityRuns.RollbackLosesSlot` | ecs/world.cpp:486-495 | a run from the empty table after which slot 0 is not alive, not free and held by nobody |
| `EntityRuns.DestroyedHandlesNeverComeBack` | ecs/world.cpp:638-663 | a handle that was issued and is neither alive nor held never becomes alive again |
| `EntityTable.EntityTable.CreateEntity` | ecs/world.cpp:398-433 | refused exactly with pending deferred creates or an exhausted topology; else a fresh handle, alive in the table and in the topology |
| `EntityTable.EntityTable.FindNextAppendIndex` | ecs/world.cpp:620-628 | the first index past the table that no reservation has; the search ends |
| `EntityTable.EntityTable.Reserve` | ecs/world.cpp:556-575 | reserves a fresh handle; topology and live entities stay |
| `EntityTable.EntityTable.Release` | ecs/world.cpp:577-586 | gives a reservation up once; the table stays sound exactly unless a commit had materialised the slot |
| `EntityTable.EntityTable.ApplyCreate` | ecs/world.cpp:440-480 | the validity checks of a commit never fail for a held reservation, and the topology gains the same entity |
| `EntityTable.EntityTable.DestroyEntity` | ecs/world.cpp:638-658 | a stale handle does nothing; a live one leaves table and topology together |
| `EntityTable.EntityTable.SortFree` | ecs/world.cpp:1280-1280 | the free list is put in ascending order without losing an index |
| `StructuralCommands.CommandOrderIsDeterministic` | ecs/world.cpp:1222-1253 | batches that differ only in submission order flatten to the same command sequence |
| `StructuralCommands.EarlierBatchFirst` | ecs/world.cpp:1222-1240 | systems' batches come before external ones, then smaller structural orders first, then a system's own commands before its producers', then smaller producer orders: all commands of the one before any of the other |
| `StructuralCommands.ListingOrderIsIrrelevant` | ecs/world.cpp:816-827 | producers with unique keys are sorted to one list however they are listed |
| `StructuralCommands.ProducersInOrder` | ecs/world.cpp:816-827 | reservations are handed to the producers of systems first, by ascending system order and then producer order, and then to the others by producer order |
| `StructuralCommands.PlansAreDetermined` | ecs/world.cpp:838-844 | table and sorted producers determine every promised identity |
| `StructuralCommands.ProducersGetSameIdentities` | ecs/world.cpp:816-845 | the identities handed to declared producers are the same for every listing order |
| `ProducerBuffers.AnswersInOrder` | ecs/world.cpp:521-541 | a buffer's k-th create returns the k-th identity it holds, whatever is recorded in between, and is refused once none is left |
| `ProducerBuffers.OpeningOrderIsIrrelevant` | ecs/world.cpp:865-876 | a producer gets the same reservations in whatever order the others open their buffers |
| `ProducerBuffers.PromisesAreKept` | ecs/world.cpp:816-876 | a declared producer's k-th create returns the same identity for every listing order, every opening order of the others and whatever it records in between, and it gets as many as it declared |
| `DeferredStructure.StructuralPhase.BeginPhase` | ecs/world.cpp:816-845 | refused exactly for repeated keys, while systems run, or before the last phase was committed or discarded, even with all reservations claimed; otherwise producers are reserved for in sorted order |
| `DeferredStructure.StructuralPhase.OpenBuffer` | ecs/world.cpp:847-878 | a declared producer takes its whole plan along and leaves the others'; an undeclared one gets nothing |
| `DeferredStructure.StructuralPhase.BufferCreate` | ecs/world.cpp:521-541 | hands out the next promised identity and records its create command, or refuses and changes nothing; other buffers are untouched |
| `DeferredStructure.StructuralPhase.BufferPush` | ecs/world.cpp:1339-1347 | appends a command to its own buffer only |
| `DeferredStructure.StructuralPhase.Record` | ecs/world.cpp:1317-1337 | during a run a command goes to the list of the calling system, which needs a structural order, and otherwise to the main thread's commands |
| `DeferredStructure.StructuralPhase.Submit` | ecs/world.cpp:880-946 | refused for a wrong phase or a producer key already submitted; otherwise one batch more, unused reservations released, nothing alive changed |
| `DeferredStructure.StructuralPhase.Drop` | ecs/world.cpp:373-396 | a buffer that was not submitted returns all its reservations, used or not |
| `DeferredStructure.StructuralPhase.DeferCreate` | ecs/world.cpp:505-519 | refused while systems run; otherwise a fresh handle and one create command more that promises it, after a failed commit too |
| `DeferredStructure.StructuralPhase.Publish` | ecs/world.cpp:1115-1140 | refused exactly while a claimed buffer is outstanding; otherwise every system's own commands become a batch, and they and the producers' batches are appended and numbered |
| `DeferredStructure.KeysAfterPublish` | ecs/world.cpp:1115-1140 | no two batches waiting for commit have the same key, so the submission order never decides |
| `DeferredStructure.StructuralPhase.DiscardRun` | ecs/world.cpp:1077-1099 | a run that failed or was cancelled before commit returns each of its reservations exactly once, changes no live entity, and ends the phases of its systems |
| `DeferredStructure.StructuralPhase.Commit` | ecs/world.cpp:1199-1281 | applies the sorted commands in order up to the first failure and keeps the rest, from which a further commit may start; without a failure nothing is held or pending and every slot is alive or free; table and hierarchy end as the applied commands leave them one after another |
| `DeferredStructure.StructuralPhase.ApplyOne` | ecs/world.cpp:1252-1256 | a create brings exactly its handle to life as a new root, a destroy removes exactly its entity, a reparent succeeds exactly when the hierarchy does not refuse it and then makes the child the last child of its parent; all other handles and links stay, and a failure changes nothing |
| `StructuralEffects.RefusalMeans` | ecs/hierarchy.cpp:182-221 | a move is refused exactly for a stale reference, a parent that is the child or descends from it, or a singular new parent in KEEP_WORLD |
| `StructuralEffects.EffectsAreDetermined` | ecs/world.cpp:1252-1275 | from one hierarchy the same commands fail at the same place and leave the same hierarchy |
| `DeferredStructure.CommitsLeaveTheSame` | ecs/world.cpp:1199-1281 | commits of the same batches in different submission orders answer the same, apply the same commands, and leave the same hierarchy with the same handles alive |
| `DeferredStructure.RetryAppliesTheRest` | ecs/world.cpp:1252-1275 | committing again after a failure applies the commands that were not reached, and only the failed one is lost |
| `DeferredStructure.SubmissionOrderIsIrrelevant` | ecs/world.cpp:1206-1275 | commits of the same batches in different submission order apply the same commands; a failing one applies a prefix |
| `RunCommits.SameStoreSameBatches` | ecs/world.cpp:1115-1140 | runs that end with the same locals publish the same batches, with keys of their own, up to the order of submission |
| `RunCommits.ParallelRunCommitsTheSame` | ecs/world.cpp:133-263 | the parallel run and the sequential one commit the same commands in the same order, in whatever order buffers are submitted; a failing commit applies a prefix |
| `RunCommits.ParallelRunLeavesTheSame` | ecs/world.cpp:133-263 | from the same hierarchy both commits answer the same, keep the same rest, and leave the same hierarchy with the same handles alive |
| `AffineInverse.InverseAffine` | ecs/hierarchy.cpp:27-68 | over exact reals it refuses exactly the singular matrices, and returns a two-sided, affine inverse though the fourth row is never read |
| `AffineInverse.FindPivot` | ecs/hierarchy.cpp:36-41 | the pivot row has the largest entry of the column |
| `AffineInverse.EliminateColumn` | ecs/hierarchy.cpp:50-58 | clears the column everywhere else and keeps the represented equations |
| `AffineInverse.NoPivotMeansSingular` | ecs/hierarchy.cpp:42-44 | a column without a pivot means that the matrix has no inverse |
| `AffineInverse.ReducedMeansInverse` | ecs/hierarchy.cpp:45-59 | once reduced, the right half is a left and a right inverse |
| `AffineInverse.InverseOfAffineIsAffine` | ecs/hierarchy.cpp:60-67 | the unread last row of the inverse is 0, 0, 0, 1 |
| `HierarchySpec.NotItsOwnAncestor` | ecs/hierarchy.cpp:260-269 | parent chains end: nothing is its own ancestor |
| `HierarchySpec.ReparentedIsForest` | ecs/hierarchy.cpp:182-238 | an accepted move gives a forest again, in which only the child's chain changes |
| `HierarchySpec.KeepWorldKeepsEveryWorld` | ecs/hierarchy.cpp:200-221 | when the new local transform recomposes the child's world transform, no entity's world transform changes |
| `HierarchySpec.KeepLocalKeepsOthers` | ecs/hierarchy.cpp:199-237 | KEEP_LOCAL keeps all local transforms, and the world transforms of all that do not descend from the child |
| `HierarchySpec.DestroyedAfterDetach` | ecs/hierarchy.cpp:156-165 | detaching the doomed entity and its children one by one ends where destroying it should |
| `HierarchyShapes.WorldGoesUp` | ecs/hierarchy.cpp:167-174 | a point of an entity goes through its own transform first, then through its parent's, and so on up to the root |
| `HierarchyShapes.ReparentedIsMoved` | ecs/hierarchy.cpp:223-236 | the child leaves its old siblings in their order and comes last below its new parent; every other link and transform is as before |
| `HierarchyShapes.DestroyedIsGone` | ecs/hierarchy.cpp:156-165 | the entity leaves the children of its parent, its own children become roots, and every other link and transform is as before |
| `HierarchyLinks.UnlinkedRepresents` | ecs/hierarchy.cpp:139-154 | rewriting the sibling links of one node represents removing it from its parent's ordered children, and nothing else |
| `HierarchyLinks.LinkedRepresents` | ecs/hierarchy.cpp:224-236 | linking a root as last child represents appending it to the ordered children |
| `Hierarchy.TopologyState.IsAlive` | ecs/hierarchy.cpp:114-117 | alive exactly when in the forest |
| `Hierarchy.TopologyState.Prepare` | ecs/hierarchy.cpp:127-132 | makes room without touching existing nodes |
| `Hierarchy.TopologyState.Create` | ecs/hierarchy.cpp:134-137 | a new entity is a root without children |
| `Hierarchy.TopologyState.Detach` | ecs/hierarchy.cpp:139-154 | removes one element from its siblings keeping their order |
| `Hierarchy.TopologyState.Destroy` | ecs/hierarchy.cpp:156-165 | the entity is gone, its children are roots, the slot is empty |
| `Hierarchy.TopologyState.Resolve` | ecs/hierarchy.cpp:167-174 | stale references are refused; otherwise the product of the local transforms along the parent chain, affine, and the walk ends |
| `Hierarchy.TopologyState.IsAncestor` | ecs/hierarchy.cpp:260-269 | true exactly for proper ancestors |
| `Hierarchy.TopologyState.Children` | ecs/hierarchy.cpp:257-259 | walking the sibling links gives the ordered children |
| `Hierarchy.TopologyState.SetLocal` | ecs/hierarchy.cpp:176-180 | changes one local transform, or is refused and changes nothing |
| `Hierarchy.TopologyState.MeetsOnTheWayUp` | ecs/hierarchy.cpp:187-191 | the cycle check finds exactly that the new parent is the child or descends from it |
| `Hierarchy.TopologyState.LocalKeepingWorld` | ecs/hierarchy.cpp:199-221 | a local transform that recomposes the world transform, refused exactly below a singular parent |
| `Hierarchy.TopologyState.Reparent` | ecs/hierarchy.cpp:182-238 | refusals in the source's order and without any change; an accepted move makes the child the last one of its new parent, touches no other link, and keeps its local transform or, in KEEP_WORLD, every world transform |
| `TopologicalOrder.CompleteIffAcyclic` | renderer/render_graph.cpp:450-502 | the worklist emits every pass if and only if the edges are acyclic, and then in a topological order |
| `TopologicalOrder.LeastOrderIsLeast` | renderer/render_graph.cpp:450-463 | that order is the lexicographically least of all topological orders |
| `TopologicalOrder.NextIsLeast` | renderer/render_graph.cpp:450-463 | the next pass is the least of those all of whose predecessors have been emitted |
| `TopologicalOrder.ForwardEdgesKeepDeclarationOrder` | renderer/render_graph.cpp:351-352 | with no edge pointing backwards it is the declaration order |
| `RenderGraphSpec.AdjacentHazardsOrderAll` | renderer/render_graph.cpp:356-374 | the edges to the last writer and the readers since already order every hazard |
| `RenderGraphSpec.OrderKeepsMeaning` | renderer/render_graph.cpp:344-374 | in every order that respects the edges each pass sees the contents it sees in declaration order, and every resource ends with the same contents |
| `RenderGraphContents.VerdictIndependentOfOrder` | renderer/render_graph.cpp:456-505 | all orders that respect the edges get the same verdict on defined contents |
| `RenderGraphContents.AcceptsIffEveryRunIsSafe` | renderer/render_graph.cpp:465-505 | the analysis accepts exactly when, whatever the draws cover, no read and no LOAD meets an undefined texel and all resources end defined |
| `RenderGraphCompiler.SortUnique` | renderer/render_graph.cpp:435-436 | the edges in strict order, the same set |
| `RenderGraphCompiler.CountEdges` | renderer/render_graph.cpp:437-449 | successor lists and incoming counts of exactly these edges |
| `RenderGraphCompiler.RegisterUse` | renderer/render_graph.cpp:356-374 | refuses a second use of a resource and a usage of the wrong kind; otherwise records the hazards with the last writer and the readers since |
| `RenderGraphCompiler.ValidateAttachments` | renderer/render_graph.cpp:381-433 | accepts exactly when attachments are distinct images with matching writes and every attachment write is attached |
| `RenderGraphCompiler.CollectEdges` | renderer/render_graph.cpp:344-434 | the explicit edges and one edge per adjacent hazard, or an invalid declaration |
| `RenderGraphCompiler.CheckContents` | renderer/render_graph.cpp:464-477 | names the first undefined read, else the first undefined LOAD |
| `RenderGraphCompiler.ApplyStores` | renderer/render_graph.cpp:478-491 | exactly a STORE after CLEAR, or after LOAD of defined contents, leaves defined contents |
| `RenderGraphCompiler.ReleaseSuccessors` | renderer/render_graph.cpp:496-500 | each successor waits for one pass less, and those waiting for none become ready |
| `RenderGraphCompiler.RunWorklist` | renderer/render_graph.cpp:450-501 | emits the least order, stopping at the first undefined contents |
| `RenderGraphCompiler.RenderGraphBuilder.AddGraphicsPass` | renderer/render_graph.cpp:316-322 | passes are numbered in declaration order |
| `RenderGraphCompiler.RenderGraphBuilder.AddDependency` | renderer/render_graph.cpp:333-336 | records an edge between two different known passes, refuses others |
| `RenderGraphCompiler.RenderGraphBuilder.Compile` | renderer/render_graph.cpp:338-507 | the complete answer: the first complaint in the source's order, or the least order of all passes with exactly the hazard and explicit edges |
| `RenderGraphCompiler.CompilesIffSafe` | renderer/render_graph.cpp:338-507 | compiling succeeds if and only if the declarations are valid, the edges have no cycle, and in every order that respects them every run, whatever its draws cover, touches no undefined contents and ends with all defined, where exactly the resources imported with an undefined usage start undefined |
| `RenderGraphCompiler.CompiledGraphKeepsMeaning` | renderer/render_graph.cpp:338-507 | every order that respects the edges of a compiled graph, its own among them, shows each pass what it sees in declaration order and leaves every resource with the same contents |
| `CompiledGraphs.CompiledEdgesExactly` | renderer/render_graph.cpp:344-374 | the dependencies of a compiled graph are the declared ones and some of the earlier passes that use a resource in conflict; every declared dependency and every such conflict is kept by the order |
| `CompiledGraphs.EarliestPassFirst` | renderer/render_graph.cpp:450-463 | every place of the order goes to the earliest declared pass whose dependencies have all been placed |
| `CompiledGraphs.AnswersExactly` | renderer/render_graph.cpp:450-507 | what compiling valid declarations answers, over the imports as declared and a run whose draws cover nothing: READ_BEFORE_PRODUCE or LOAD_BEFORE_PRODUCE exactly as the first emitted pass to meet an undefined texel reads it or only loads it; else CYCLE exactly if some pass was not emitted; else UNDEFINED_AT_END exactly if some resource ends undefined; else a graph |
| `CompiledGraphs.DeclaredExactly` | renderer/render_graph.cpp:356-433 | a pass is well declared exactly when it reads known resources with reading usages and writes known ones with attachment usages, uses none twice, attaches images only, each once and written with its usage, and writes nothing unattached |
| `FrameSchedulerSpec.OneFramePerSlot` | engine/controller/frame_scheduler.cpp:310-316 | active frames lie within the last N indices, one per slot index modulo N |
| `FrameSchedulerSpec.AcquireKeepsInv` | engine/controller/frame_scheduler.cpp:295-327 | acquiring is out of order exactly while a draw checkpoint is pending; the new handle validates and no older handle changes its status |
| `FrameSchedulerSpec.CallKeepsInv` | engine/controller/frame_scheduler.cpp:329-421 | every accepted call keeps the ring's invariant: a checkpoint is pending exactly while the last acquired frame is active and unsignalled |
| `FrameSchedulerSpec.ReleasedStaysReleased` | engine/controller/frame_scheduler.cpp:227-251 | over any run of acquisitions, calls and GPU completions a released handle never validates again |
| `FrameSchedulerSpec.RefusedForGood` | engine/controller/frame_scheduler.cpp:227-251 | a handle that once validated and is refused later is refused from then on |
| `FrameSchedulerSpec.OnlyResetReleases` | engine/controller/frame_scheduler.cpp:268-278 | a handle is released exactly by recycling or aborting its slot |
| `FrameSchedulerSpec.FreedOnlyWhenReady` | engine/controller/frame_scheduler.cpp:142-194 | over any run a slot whose frame has registered a GPU completion keeps that frame until the completion is signalled |
| `FrameLives.LifeOfAFrame` | engine/controller/frame_scheduler.cpp:329-421 | at every point of every run a call on the handle of an acquired frame is accepted exactly when it may follow the calls on that handle accepted so far, and, where it waits for the GPU, the registered completion has been signalled |
| `FrameLives.LifeIsInOrder` | engine/controller/frame_scheduler.cpp:329-421 | every frame is armed, updated, finalized and completed, directly or by the GPU, in that order, its draw signalled once before, and given up at any time but while the GPU has it |
| `FrameSchedulerSpec.RefusedAbortKeepsCheckpoint` | engine/controller/frame_scheduler.cpp:410-421 | giving back the checkpoint before looking at the state, as the source does, makes no difference to a refused abort |
| `FrameSchedulerClass.FrameScheduler.Validate` | engine/controller/frame_scheduler.cpp:227-251 | names why a handle is refused: invalid, foreign, out of range or stale, in that order; accepted exactly if slot, frame, simulation and generation agree |
| `FrameSchedulerClass.FrameScheduler.TryAcquireFrame` | engine/controller/frame_scheduler.cpp:295-327 | acquires the slot of the next index if it is free, under its next generation; a refusal changes nothing |
| `FrameSchedulerClass.FrameScheduler.SignalDraw` | engine/controller/frame_scheduler.cpp:329-340 | signals once, in turn, and opens the update checkpoint |
| `FrameSchedulerClass.FrameScheduler.Transition` | engine/controller/frame_scheduler.cpp:253-266 | a frame moves only from the state it must be in |
| `FrameSchedulerClass.FrameScheduler.BeginFinalize` | engine/controller/frame_scheduler.cpp:124-136 | needs the draw signal of this generation |
| `FrameSchedulerClass.FrameScheduler.MarkSubmitted` | engine/controller/frame_scheduler.cpp:142-149 | registers the GPU completion |
| `FrameSchedulerClass.FrameScheduler.CompleteGpu` | engine/controller/frame_scheduler.cpp:160-166 | completes only when the registered completion is ready |
| `FrameSchedulerClass.FrameScheduler.RecycleFrame` | engine/controller/frame_scheduler.cpp:168-180 | frees a complete frame's slot and keeps its generation |
| `FrameSchedulerClass.FrameScheduler.AbortFrame` | engine/controller/frame_scheduler.cpp:410-421 | frees the slot unless the GPU has it; an unsignalled last frame gives its checkpoint back |
| `EngineFrames.SchedulerNeverRejects` | engine/engine.cpp:406-515 | in every interleaving, those after a failed draw that nobody has noticed yet too, no scheduler call of the engine is rejected except for exhausted indices, so no checkpoint is out of order |
| `EngineFrames.SimulationFollowsExtraction` | engine/engine.cpp:621-631 | when the update of a frame may run, every earlier frame's extraction has returned or the frame was given up |
| `EngineFrames.PublishedAtMostOnce` | engine/engine.cpp:460-464 | no key is published twice, and stale or published keys are refused |
| `EngineFrames.BeginSteps` | engine/engine.cpp:415-438 | beginning a frame is never refused as out of order |
| `EngineFrames.ReapSteps` | engine/engine.cpp:713-768 | reclaiming a terminal frame never meets a rejected call, whether its work or its GPU completion failed or not |
| `DrawTasks.HandleHasTheLastWord` | engine/engine.cpp:575-660 | if work scheduled by the runtime depends on the task that schedules it, the task named by the draw handle has ended only when no task of the frame runs or can start, and has completed if and only if the frame was completed |
| `DrawTasks.CompletesUnlessThrown` | engine/engine.cpp:575-660 | when the draw of a frame is over, the frame has been completed if and only if nothing has thrown on the way; once what waits behind a failure has been skipped, the named task has ended |
| `DrawTasks.BrokenPromiseMisleads` | engine/engine.cpp:596-612 | without that dependency an older handle can overwrite the last one, and name a completed task while the preparation is still to run |
| `EngineClass.EngineCore.ResolveReservation` | engine/engine.cpp:406-413 | a key resolves exactly while the engine runs and the record still has it |
| `EngineClass.EngineCore.TryBeginFrame` | engine/engine.cpp:415-438 | refused when not running; otherwise reaps and begins the next frame if admission is open and its slot is free, closing admission |
| `EngineClass.EngineCore.CompleteUserUpdate` | engine/engine.cpp:460-515 | publishes exactly an unpublished current key; a failed submission aborts the frame and stops the engine |
| `EngineClass.EngineCore.AbortFrame` | engine/engine.cpp:276-288 | gives up exactly an unpublished current key, opens admission, and goes on with the next frame's draw |
| `EngineClass.EngineCore.Draw` | engine/engine.cpp:318-340 | refused exactly out of turn, without change; otherwise the draw is scheduled now if the update has succeeded, or left to it; a failed submission stops the engine |
| `EngineClass.EngineCore.ScheduleDraw` | engine/engine.cpp:440-458 | signals the draw and submits its task, or stops the engine |
| `EngineClass.EngineCore.FinishUpdate` | engine/engine.cpp:542-573 | a completed update schedules a draw asked for meanwhile; a failed one stops the engine |
| `EngineClass.EngineCore.RunDraw` | engine/engine.cpp:575-595 | extraction begins only with the draw signal |
| `EngineClass.EngineCore.FinishDraw` | engine/engine.cpp:621-631 | the return of extraction opens admission |
| `EngineClass.EngineCore.CompleteDraw` | engine/engine.cpp:657-660 | a frame without GPU work is complete |
| `EngineClass.EngineCore.LoseDrawTask` | engine/engine.cpp:596-612 | a failed extraction or preparation takes the draw task with it, and the engine runs on until it reclaims the frame |
| `EngineClass.EngineCore.ReapRecord` | engine/engine.cpp:720-767 | takes back one ended frame exactly unless the GPU still has it; failed work, or failed GPU work, stops the engine |
| `EngineClass.EngineCore.ReapTerminalFrameRecords` | engine/engine.cpp:708-769 | goes over all slots by steps of the protocol |
| `MainExecutorSpec.RunKeepsInv` | application/runtime/main_executor.cpp:58-230 | at every point of every run each posted command is in exactly one place |
| `MainExecutorSpec.TakeKeepsOrder` | application/runtime/main_executor.cpp:189-207 | commands of the same origin keep their posting order |
| `MainExecutorSpec.UnframedIsNotStarved` | application/runtime/main_executor.cpp:202-205 | at any point of any run, an unframed command with n unframed commands ahead leaves the queue within 9(n + 1) dispatches, whatever is posted later |
| `MainExecutorSpec.TerminalIsFinal` | application/runtime/main_executor.cpp:72-81 | over any run a finished command is never marked again, and while a command runs the generation is the one it was posted for |
| `MainExecutorSpec.StoppedMeansFinished` | application/runtime/main_executor.cpp:83-101 | in any run, once a stop has unwound every command ever posted has finished |
| `MainExecutorSpec.ChoiceUnique` | application/runtime/main_executor.cpp:189-204 | queue and burst count determine which command is next |
| `ExecutorOutcomes.TakesLeast` | application/runtime/main_executor.cpp:189-204 | over any run a framed command that is taken has the least run generation and then the least frame sequence of those queued, and an unframed one is taken exactly when none is framed or eight framed ones have overtaken it |
| `ExecutorOutcomes.EndsAsItRan` | application/runtime/main_executor.cpp:216-224 | over any run a command whose callback returned stays completed, one whose callback threw stays failed, and one that a stop or a late post has marked stays skipped |
| `ExecutorOutcomes.DispatchedAtMostOnce` | application/runtime/main_executor.cpp:182-224 | over any run no command is dispatched twice, and those never dispatched are exactly the queued and the skipped ones |
| `MainExecutorClass.MainExecutor.Start` | application/runtime/main_executor.cpp:58-70 | refused while running, draining or stopping; else a new generation |
| `MainExecutorClass.MainExecutor.Post` | application/runtime/main_executor.cpp:141-169 | queues under the running generation, otherwise hands the command back to be skipped |
| `MainExecutorClass.MainExecutor.Select` | application/runtime/main_executor.cpp:189-204 | the scan finds the first framed command of least run generation and then least frame sequence, or the first unframed one when none is framed or eight framed ones have overtaken it |
| `MainExecutorClass.MainExecutor.TakeNext` | application/runtime/main_executor.cpp:182-215 | takes the chosen command, or nothing when stopped or empty |
| `MainExecutorClass.MainExecutor.Finish` | application/runtime/main_executor.cpp:216-224 | gives the running command its one terminal state |
| `MainExecutorClass.MainExecutor.BeginStop` | application/runtime/main_executor.cpp:83-92 | stops dispatch at once and owns the queued commands |
| `MainExecutorClass.MainExecutor.Skip` | application/runtime/main_executor.cpp:93-95 | marks one of the stop's own commands as skipped |
| `KeyedLists.FindByRank` | graphics/graphics_pipeline.cpp:217-249 | with unique keys rank lookup is total below the length and enumerates the keys in sorted order |
| `KeyedLists.SameByKeyIsRearranged` | graphics/graphics_pipeline.cpp:543-552 | with unique keys, equality by key lookup is being a rearrangement |
| `PipelineKey.GetCanonicalStages` | graphics/graphics_pipeline.cpp:86-122 | canonical exactly with known, distinct vertex and fragment stages, and then finds them |
| `PipelineKey.LayoutsEqualMeans` | graphics/graphics_pipeline.cpp:527-553 | layouts are equal exactly when they are the same or rearrange each other under unique keys |
| `PipelineKey.ShadersEqualMeans` | graphics/graphics_pipeline.cpp:555-566 | shader lists are equal exactly when they are the same or rearrange each other with canonical stages |
| `PipelineKey.CanonicalShadersMeans` | graphics/graphics_pipeline.cpp:86-122 | a shader list is canonical exactly when every shader has a vertex or fragment artifact and no two are for the same stage |
| `PipelineKey.DescriptorsEqualExactly` | graphics/graphics_pipeline.cpp:527-574 | descriptors are equal exactly when all fixed state is, their shaders are the same list or rearrange each other with one per stage, and their layouts are the same or rearrange each other with distinct binding numbers and locations |
| `PipelineKey.DescriptorEqualityIsEquivalence` | graphics/graphics_pipeline.cpp:555-574 | equality is reflexive, symmetric and transitive |
| `PipelineKey.OrderIsIgnored` | graphics/graphics_pipeline.cpp:527-574 | rearranging bindings, attributes or shaders gives an equal descriptor exactly when the rearranged part has unique keys or is unchanged |
| `PipelineKey.EqualDescriptorsHashAlike` | graphics/graphics_pipeline.cpp:635-691 | equal descriptors hash equally for every mixing function |
| `PipelineTokens.TokensTellDescriptors` | graphics/graphics_pipeline.cpp:635-691 | what is hashed of two descriptors is the same if and only if they are equal: every part is taken in, and unequal descriptors differ before mixing |
| `PipelineKey.HashVertexLayout` | graphics/graphics_pipeline.cpp:251-278 | hashes canonical layouts by rank and others in list order |
| `PipelineKey.HashDescriptor` | graphics/graphics_pipeline.cpp:635-691 | the hash is that of the numbers that tell descriptors apart: materials, shaders, vertex layout and fixed state, one after another |
| `ChunkedWork.ChunksTile` | renderer/renderer.cpp:156-170 | for every positive chunk size the chunks follow one another without gap or overlap, none empty, and cover all items |
| `ChunkedWork.GatherSplits` | renderer/renderer.cpp:182-192 | where the items are cut changes neither their order nor the first failure |
| `RenderPlans.CommandOrderIsStrict` | renderer/renderer.cpp:22-39 | the comparator is a strict weak order, as the sort needs |
| `RenderPlans.Publish` | renderer/renderer.cpp:87-112 | the batches tile the commands into runs of one key, each starting where the key changes |
| `RenderPlans.BatchingIsUnique` | renderer/renderer.cpp:96-102 | there is only one such cutting |
| `RenderPlans.OneBatchEach` | renderer/renderer.cpp:96-102 | every command is in exactly one batch |
| `RenderPlans.NoKeyInTwoBatches` | renderer/renderer.cpp:95-102 | in a sorted plan no key has two batches |
| `RenderPlans.ItemCount` | renderer/renderer.cpp:41-48 | fails exactly when the number of items does not fit a machine word |
| `RenderPlans.Prepare` | renderer/renderer.cpp:114-123 | the commands of all view and object pairs, sorted and batched, or the first fault |
| `RenderPlans.SchedulePrepare` | renderer/renderer.cpp:125-199 | for every positive chunk size and every order of the workers the same promise as the sequential form, with the same first fault |
| `RenderPlans.PlanIsDetermined` | renderer/renderer.cpp:114-199 | with distinct view and object IDs a world has exactly one plan, however it is prepared |
| `DrawnFrames.PlanDrawsPairs` | renderer/renderer.cpp:50-85 | a plan has one command for every view and object, and no other |
| `DrawnFrames.NoPlanExactly` | renderer/renderer.cpp:41-85 | there is no plan exactly when the pairs do not fit a machine word, or there is something to draw and a camera is refused; the reason is that of the first such camera |
| `DrawnFrames.CommandsAscend` | renderer/renderer.cpp:22-39 | commands ascend by view, then material, then mesh, then entity |
| `DrawnFrames.BatchesTile` | renderer/renderer.cpp:96-102 | batches follow one another over all commands; those of a batch share view, material and mesh, and neighbouring batches do not |
| `RenderExtraction.ExtractRenderWorld` | renderer/extraction.cpp:47-137 | one pass copies all cameras and the renderables whose mesh and material are resident, with their use records in order |
| `RenderExtraction.ScheduleRenderWorldExtraction` | renderer/extraction.cpp:139-242 | for every positive chunk size and worker order exactly the snapshot of the single pass |
| `RenderExtraction.ObjectsAreResidentRows` | renderer/extraction.cpp:92-116 | the objects are the resident rows in row order, none left out and none twice |
| `RenderExtraction.FramePlanIsDetermined` | renderer/extraction.cpp:163-239 | with entities visited once, the frame's plan depends on world and resources alone |
| `DrawnFrames.SnapshotCopies` | renderer/extraction.cpp:47-137 | a view for every camera in order, an object with its resident mesh and material for every row that has both, in row order, and the uses of mesh and then material for every object |
| `DrawnFrames.FrameDrawsExactly` | renderer/extraction.cpp:47-137 | from the world to the plan: a frame draws exactly the rows whose mesh and material are resident, in every camera, with its matrix and the resources of the moment |

## Left out

- `TaskSystem`, `JobControl` and coroutines: assumed to run a submitted task once, after its dependencies have completed.
- Clocks, delta time, queue-age diagnostics, condition-variable waits, memory arenas and allocation failures.
- Vulkan, window, swapchain, command recording, file formats and image, shader and scene loading.
- `AffineInverse.InverseAffine`: exact reals; rounding, overflow to infinity and finiteness checks are not modelled.
- `Hierarchy.TopologyState.LocalKeepingWorld`: exact reals, so the tolerance of 1e-4 on the recomposed transform never rejects and is not modelled.
- `Hierarchy.TopologyState.Reparent`: the mode has only its two valid values.
- The topology's reader and writer leases (`TopologyLease`, `BeginWrite`, `EndWrite`): reads and writes of the hierarchy are taken as not overlapping.
- `AccessCoordinatorClass.AccessCoordinator.Schedule`: the rejection of an empty function and the conflict records kept for diagnostics are left out; the sorted dependency vector is a set.
- `AccessScopes.NormalizeKeepsCover`: sorting and deduplicating the list of footprints of one operation is left out, since only which footprints it holds matters.
- `RunCommits.ParallelRunCommitsTheSame`: how a system's recording is laid out in its locals is a parameter.
- `ScopedRuns.ParallelRunIsSequential`: a callback is a sequence of atomic steps; that its accesses stay in its declarations or views is a condition on the callback, as the source only checks it for views.
- `ScopedBatch.Resolve`: a component is the answer of a lookup function; the pointer to its storage is not modelled.
- `SystemRunStateClass.SystemRunState.Retire`: commit, discard and the completion callback behind the last count are `DeferredStructure`'s subject and not repeated.
- `DeferredStructure.StructuralPhase.Commit`: whether a component command throws is part of the command, and component storage is not modelled; a commit that throws halfway keeps the rest of the commands, and recovery behind `ExecutionPoisoned_` is not modelled.
- `DeferredStructure.StructuralPhase.Publish`: the batches of one system are appended together in the source, and here after those of all systems' own lists; with unique keys the numbers they get decide nothing.
- `DeferredStructure.StructuralPhase.Submit`: ownership checks of foreign or already submitted buffers and the run ticket are left out.
- Wrap-around of entity indices, generations, epochs, sequence numbers and frame generations beyond the exhaustion checks the source makes.
- `EntityTable.EntityTable.Reserve`: the diagnostic count of reserved entities is left out.
- `RenderGraphCompiler.RenderGraphBuilder.Compile`: capability, format, extent, sample-count and clear-value checks, draw packets, foreign graph identities and expired swapchains are left out; a resource is its kind and initial usage.
- `FrameSchedulerClass.FrameScheduler.MarkSubmitted`: the rejection of an invalid or deferred future is left out, as is the arena that a reset clears.
- `EngineFrames.SchedulerNeverRejects`: a frame is reaped when its draw is over; that the stored draw handle tells this is the subject of `DrawTasks`, and rests on the runtime's contract that scheduled work depends on the task that schedules it (engine/runtime/frame_runtime.h:64).
- `EngineFrames.ReapSteps`: the same contract of the runtime.
- `DrawTasks.HandleHasTheLastWord`: a draw that returns at once because the engine is neither running nor stopping, and a wake-up call that throws, are left out.
- `EngineClass.EngineCore.RunDraw`: the runtime's extraction and preparation are steps that return or fail; restarting the engine and the final clean-up of `Stop` are left out.
- `MainExecutorClass.MainExecutor.Post`: the rejection of an empty command and the wake-up call are left out, and so are `Invoke` and `Wait`.
- `PipelineKey.EqualDescriptorsHashAlike`: the mixing function is arbitrary and hashed values are numbers; the byte-wise hashing of each value is not modelled, nor is descriptor validation.
- `RenderPlans.Prepare`: the view-projection matrix of a camera is an outcome of the camera, a matrix or a refusal.
- `RenderExtraction.ScheduleRenderWorldExtraction`: acquiring a resource is a lookup that does not fail by throwing; leases are not counted.
- `ResourceManager`, `SceneManager` and the graphics handle tables: they repeat the slot and generation argument of the entity table in an easier form.
