# A verified model of the Nanos6 dependency engine and its surroundings

Nanos6 is a runtime for task-parallel programs. This project models, in Dafny, the parts of it in which the hard
decisions are made, and proves what those parts are there to guarantee:

- **Satisfiability propagation** (`DataAccess`, `Satisfiability`, `ProgramOrder`, `Dependencies`, `DependencyHistory`,
  `ImproperNesting`, `DependencyEngine`). The default dependency system, seen from one byte, is a state machine over a forest of nested
  accesses: accesses are registered and completed, initial fragments are created, the last nested object is linked to
  the successor of a completed access, and queued updates are delivered in any order. The results hold for every run:
  mutual exclusion, exactness of the propagated bits, no bit sent twice, a bound on propagation, no circular waiting.
  They take a condition on which types are nested in which; of mutual exclusion and of sending no bit twice,
  `ImproperNesting` shows that this condition is exactly what they need. `DependencyEngine` is the same machine as an
  object that is updated in place and drains its queue after every operation.
- **Regions** (`Region`, `RegionMap`, `AccessRegistration`, `RegionPropagation`, `BytewiseRefinement`, `BottomMap`,
  `RegionSystem`, `RegionRuns`, `RegionExclusion`, `RegionHistory`). The ordered map of disjoint regions, with splitting and with traversals
  whose callbacks change it and may end it; the accesses of a task as a fold over its declarations; status changes over
  regions, together with the count of predecessors. `RegionSystem` is the dependency system over regions as a state
  machine, with a bottom map for every task: tasks access any regions, have different predecessors on different parts of
  them, and complete them piece by piece. Every run of it is, at every byte, a run of the one-byte machine, under that
  byte's own numbering of the objects (`BytewiseRefinement`, `RegionRuns`); so tasks that may run at the same time share no
  byte except to read it or concurrently (`RegionExclusion`, and `RegionHistory` in terms of what they declared).
- **The discrete system** (`DiscreteSequence`, `PredecessorGuard`). Incremental re-evaluation against recomputation, and
  the guard that covers the moment between publishing an access and counting it.
- **Taskloops** (`TaskloopPartitions`, `TaskloopInfo`, `PartitionPath`, `TaskloopRun`, `TaskloopCounter`,
  `TaskloopWidth`). How iterations are cut up, in which order a collaborator looks for work, the claiming of chunks by any
  number of collaborators, and how wide the counters must be.
- **Task lifecycle** (`Lifecycle`, `LifecycleOrder`, `LifecycleHistory`). Two countdown counters, wait clauses, taskwaits,
  external events and the walk up the ancestors, in every interleaving; that finalisation ends; who can be destroyed before
  whom; and what all this means for the tasks, events and taskwaits that a program has asked for.
- **Polling services** (`Polling`, `PollingWaits`, `PollingHistory`). Registering, calling and unregistering services from any
  number of threads, each with a stack, since a callback may itself unregister a service and a thread that waits for that
  may poll; and which of these calls can return.
- **Multidimensional accesses** (`Multidimensional`), the **ticket lock** (`TicketLock`, `TryLock`) and **reduction
  storage** (`Reduction`).

`Options`, `Sums` and `Division` hold what several of these share. `dafny verify dfyconfig.toml` verifies all of it.

Concurrent code is modelled as a state machine with one step per atomic operation or per critical section; a run is any
sequence of enabled steps, so a statement about every run is one about every interleaving. Code that works on one
structure in place is modelled by classes and methods with loops. Calls into the scheduler are history: a task
becoming ready is counted, not queued.

Where a promise does not hold of the code for all inputs, the project says exactly when it does:

- A guard of two predecessors is the least that works (`GuardIsEnoughExactlyFromTwo`).
- Conflicting accesses exclude each other, and no bit is sent twice, in all runs of a program if and only if every type it
  nests lets through whatever the type around it does (`ExclusionNeedsProperNesting`, `SendingOnceNeedsProperNesting`).
- Tickets of a given width exclude, without `tryLock`, exactly as many threads as there are ticket values
  (`WrappedExclusionExactly`). With `tryLock`, two threads are already too many, whatever the width
  (`TryLockExcludesExactly`); it is safe exactly as long as there is a value for every thread and less than a full round
  of tickets is issued during any `tryLock` (`PromptTryLockExcludesExactly`).
- A call that unregisters a polling service can still return exactly if neither it, nor a call that waits above it on its
  stack, is in a tangle: a set of waiting calls each of which has had its service registered again, which removes the mark
  it waits on, or waits for a callback from inside which another one of them waits (`UnregisterReturnsUnlessTangled`). A
  callback that unregisters its own service is the smallest one (`OwnServiceNeverReturns`).
- A parent is destroyed after all its children have unlinked from it, but the storage of a child may be freed later than
  that of the parent: exactly if the child has unlinked without being the last thing the parent counts, or still can
  (`ChildMayOutliveExactly`).
- The counters of a taskloop do not wrap around, with up to n collaborators, exactly if they can hold the chunks of every
  partition and one more for each collaborator (`CountersDoNotWrapExactly`). Whether they wrap around or not, every chunk
  given out is non-empty, in its partition and not claimed before exactly if no last chunk reaches the width and none of the
  n attempts after it finds the counter below the end (`RightChunksExactly`).

## Model

| member | source | states |
|---|---|---|
| `DataAccesses.HandleStatusChangesSendsTheDifference` | src/dependencies/linear-regions-fragmented/DataAccessRegistration.cpp:334-545 | Comparing the status of an access before and after a change queues exactly the bits that were not sent before, once each, and nothing sent is ever withdrawn |
| `DataAccesses.BlocksExactly` | src/dependencies/linear-regions-fragmented/DataAccessRegistration.cpp:98-107 | An access keeps its task from running if and only if it is an access of the task itself, is strong, and lacks a bit that its type needs; it is satisfied if and only if it lacks none |
| `Satisfiability.ExclusiveSource` | src/dependencies/linear-regions-fragmented/DataAccessRegistration.cpp:545-570 | Even when an access is the successor of a finished access and of its last nested ones at any depth, at most one of them sends it a given bit |
| `Satisfiability.AccountedDeliver` | src/dependencies/linear-regions-fragmented/DataAccessRegistration.cpp:994-1063 | A delivered update never brings a bit that its target has, so the assertions of the one-shot setters hold; and each bit stays accounted for as received or on its way |
| `Satisfiability.ShapeOfRegister` | src/dependencies/linear-regions-fragmented/DataAccessRegistration.cpp:1608-1778 | Registering keeps the forest of domains, links and bottom map well formed |
| `Satisfiability.ShapeOfLinkBottom` | src/dependencies/linear-regions-fragmented/DataAccessRegistration.cpp:1519-1580 | So does linking the last nested object to the successor of its completed parent |
| `ProgramOrder.FedIsClear` | src/dependencies/linear-regions-fragmented/DataAccessRegistration.cpp:126-196 | Whoever sends a bit does so only when every access before the receiver in program order, at any depth, has completed or lets that bit through |
| `ProgramOrder.StepKeepsInvariant` | src/dependencies/linear-regions-fragmented/DataAccessRegistration.cpp:96-271 | Every step keeps the shape, the accounting of bits, and that no received bit is premature |
| `Dependencies.MutualExclusion` | src/dependencies/linear-regions-fragmented/DataAccessRegistration.cpp:96-271 | In every run, two satisfied and incomplete accesses to the byte, below one outermost domain, are nested one in the other, or both read, or both are concurrent |
| `Dependencies.BitsArriveOnce` | src/dependencies/linear-regions-fragmented/DataAccessRegistration.cpp:404-570 | In every run, a queued bit is missing at its target and on its way to it only once |
| `Dependencies.InhibitedOnce` | src/dependencies/linear-regions-fragmented/DataAccessRegistration.cpp:1551-1565 | In every run, an object whose propagation is about to be inhibited has not been inhibited before |
| `Dependencies.SettledExactly` | src/dependencies/linear-regions-fragmented/DataAccessRegistration.cpp:126-196 | With nothing pending, an object of any nesting depth has a bit if and only if every access before it in program order has completed, or reads and the bit is for reading, or is concurrent and the bit is for that, or is either and the bit is the reduction descriptor |
| `Dependencies.SettledRunExactly` | src/dependencies/linear-regions-fragmented/DataAccessRegistration.cpp:126-196 | The same at the end of every run that leaves nothing pending |
| `Dependencies.FlatChainExactly` | src/dependencies/linear-regions-fragmented/DataAccessRegistration.cpp:168-196 | The closed form for a flat chain, bit by bit: all predecessors complete; each complete or reading; each complete or concurrent; each complete, reading or concurrent |
| `Dependencies.PropagationIsBounded` | src/dependencies/linear-regions-fragmented/DataAccessRegistration.cpp:1114-1139 | Deliveries and links, in any order, are at most as many as there are bits to receive and links to make |
| `Dependencies.NobodyWaitsForever` | src/dependencies/linear-regions-fragmented/DataAccessRegistration.cpp:126-196 | With nothing pending and some access incomplete, some incomplete access is satisfied |
| `DependencyHistory.AccessAsAsked` | src/dependencies/linear-regions-fragmented/DataAccessRegistration.cpp:2162-2206 | At the end of every run a registered access has the domain, type and strength that it was registered with, and is complete if and only if the run has completed it |
| `DependencyHistory.RegisteredExclude` | src/dependencies/linear-regions-fragmented/DataAccessRegistration.cpp:96-271 | In every run, of two accesses registered below one outermost domain and not completed, which have received what their types need, one is nested in the other, or both were registered to read, or both as concurrent |
| `ImproperNesting.ImproperNestingSendsTwice` | src/dependencies/linear-regions-fragmented/DataAccessRegistration.cpp:545-570 | For all pairs of types that are not properly nested, some run of any program that uses the pair queues a bit twice for one access |
| `ImproperNesting.ImproperNestingConflicts` | src/dependencies/linear-regions-fragmented/DataAccessRegistration.cpp:126-147 | For all such pairs, some run has a nested access and a sibling of its parent running at once, although they conflict |
| `ImproperNesting.ExclusionNeedsProperNesting` | src/dependencies/linear-regions-fragmented/DataAccessRegistration.cpp:126-147 | The accesses of a program exclude each other in all its runs if and only if it only nests types properly |
| `ImproperNesting.SendingOnceNeedsProperNesting` | src/dependencies/linear-regions-fragmented/DataAccessRegistration.cpp:545-570 | No bit is sent twice in all its runs if and only if it only nests types properly |
| `DependencyEngine.DependencySystem.RegisterAccess` | src/dependencies/linear-regions-fragmented/DataAccessRegistration.cpp:1608-1778 | Registering and propagating in place is one legal run of the machine that ends with nothing pending |
| `DependencyEngine.DependencySystem.OpenDomainIfNeeded` | src/dependencies/linear-regions-fragmented/DataAccessRegistration.cpp:1160-1219 | The first nested access gives its parent an initial fragment with the parent's status, and this is the only effect |
| `DependencyEngine.DependencySystem.CompleteAccess` | src/dependencies/linear-regions-fragmented/DataAccessRegistration.cpp:1918-1954 | Ending an access and propagating is one legal run that ends with nothing pending |
| `DependencyEngine.DependencySystem.LinkBottomMapAccessesToNext` | src/dependencies/linear-regions-fragmented/DataAccessRegistration.cpp:1519-1580 | Links inwards until no completed access has an unlinked last child |
| `DependencyEngine.DependencySystem.ProcessDelayedOperations` | src/dependencies/linear-regions-fragmented/DataAccessRegistration.cpp:1114-1139 | Draining the queue terminates and leaves every object with exactly the bits it should have |
| `Regions.IntersectMeaning` | src/dependencies/linear-regions/DataAccessRegion.hpp:115-137 | The intersection has exactly the shared addresses |
| `Regions.FullyContainedMeaning` | src/dependencies/linear-regions/DataAccessRegion.hpp:153-156 | Containment is inclusion of addresses |
| `Regions.ContiguousUnion` | src/dependencies/linear-regions/DataAccessRegion.hpp:139-151 | The union of touching regions has exactly the addresses of both |
| `Regions.FragmentsPartition` | src/dependencies/linear-regions/DataAccessRegion.hpp:159-197 | The pieces reported for two regions partition their addresses into this-only, shared and other-only |
| `RegionMaps.FragmentedMeaning` | src/dependencies/linear-regions/IntrusiveLinearRegionMapImplementation.hpp:441-512 | The pieces of a split node hold what the node held, except for the intersection when it is removed |
| `RegionMaps.FragmentAllInvisible` | src/dependencies/linear-regions/IntrusiveLinearRegionMapImplementation.hpp:515-530 | Splitting all nodes at the ends of a region changes the content of no address |
| `RegionMaps.IntrusiveLinearRegionMap.FragmentByIntersection` | src/dependencies/linear-regions/IntrusiveLinearRegionMapImplementation.hpp:441-512 | In place: the node is replaced by its pieces, in order, with or without the intersection, whose position is returned |
| `RegionMaps.IntrusiveLinearRegionMap.FragmentIntersecting` | src/dependencies/linear-regions/IntrusiveLinearRegionMapImplementation.hpp:515-530 | In place: every intersecting node is split, and no other is touched |
| `RegionMaps.IntrusiveLinearRegionMap.ProcessIntersectingAndMissing` | src/dependencies/linear-regions/IntrusiveLinearRegionMapImplementation.hpp:203-281 | Visits intersecting nodes once and in address order, all of them unless a callback asks to stop, and then up to that one; clipped nodes and gaps tile what was covered; what callbacks put in their place ends up there and the map stays ordered |
| `AccessRegistration.RegisterAccess` | src/dependencies/linear-regions-fragmented/DataAccessRegistration.cpp:2162-2206 | One declaration changes exactly the addresses of its region, each by one upgrade |
| `AccessRegistration.RegisterAccesses` | src/dependencies/linear-regions-fragmented/DataAccessRegistration.cpp:2162-2206 | A list of declarations yields a map of disjoint regions that holds the fold at every address |
| `AccessRegistration.FoldSummarizes` | src/dependencies/linear-regions-fragmented/DataAccessRegistration.cpp:700-734 | The fold is the common type, or read-write if the types differ, and weak if and only if all are |
| `AccessRegistration.OrderDoesNotMatter` | src/dependencies/linear-regions-fragmented/DataAccessRegistration.cpp:700-734 | Order and repetition of declarations make no difference |
| `RegionPropagation.RegionChangeIsBytewise` | src/dependencies/linear-regions-fragmented/DataAccessRegistration.cpp:994-1111 | A change of status over a region changes and sends, at every address of it, what the access there does, and nothing elsewhere |
| `BytewiseRefinement.ChangeRefinesUpdate` | src/dependencies/linear-regions-fragmented/DataAccessRegistration.cpp:994-1063 | At any address, under its own numbering of the objects, a change of status over a region is one update of the one-byte machine, or nothing where the object or the region does not reach |
| `BytewiseRefinement.DeliveryRefines` | src/dependencies/linear-regions-fragmented/DataAccessRegistration.cpp:1066-1111 | Delivering a queued update of a region is, at each address of it, the delivery of one queued update of the one-byte machine; other addresses do not move |
| `BytewiseRefinement.CompletionRefines` | src/dependencies/linear-regions-fragmented/DataAccessRegistration.cpp:1918-1954 | Completing an access over a region is a completion at each address of it |
| `BytewiseRefinement.BottomLinkRefines` | src/dependencies/linear-regions-fragmented/DataAccessRegistration.cpp:1519-1580 | Linking the last nested objects, each over its own part of a region, is at each address that one of the parts contains a bottom link of the one-byte machine, and nothing at the others |
| `BytewiseRefinement.RegistrationRefines` | src/dependencies/linear-regions-fragmented/DataAccessRegistration.cpp:1608-1710 | Registering an access and linking all its predecessors to it, each over its own part, is a registration of the one-byte machine at every address that exactly one of the parts contains |
| `BytewiseRefinement.FirstRegistrationRefines` | src/dependencies/linear-regions-fragmented/DataAccessRegistration.cpp:1711-1772 | So it is at the addresses that none of the parts contains and where the domain is empty, with a satisfied access |
| `BytewiseRefinement.OpeningRefines` | src/dependencies/linear-regions-fragmented/DataAccessRegistration.cpp:1160-1219 | Creating an initial fragment over a region opens the domain at each address of it |
| `BytewiseRefinement.ElsewhereNothing` | src/dependencies/linear-regions-fragmented/DataAccessRegistration.cpp:1608-1778 | Addresses that neither the new access nor any of the parts reaches see nothing |
| `BytewiseRefinement.DifferentHistories` | src/dependencies/linear-regions-fragmented/DataAccessRegistration.cpp:830-860 | A witness that the relation is not empty: two addresses of one undivided access whose successor has different numbers at them |
| `BottomMaps.LinksUnderMeaning` | src/dependencies/linear-regions-fragmented/DataAccessRegistration.cpp:1276-1330 | Every address of the new accesses at which the bottom map has an entry is in exactly one of the links found there, and that is to the entry |
| `BottomMaps.OverwrittenAllMeaning` | src/dependencies/linear-regions-fragmented/DataAccessRegistration.cpp:1776-1778 | After a registration the new task is the entry at exactly its addresses, and the others have kept theirs |
| `RegionSystem.ArrivalMeaning` | src/dependencies/linear-regions-fragmented/DataAccessRegistration.cpp:1711-1772 | The new accesses are nested exactly where the parent has an access, and satisfied from the start exactly where nothing precedes them |
| `RegionSystem.StepKeepsValid` | src/dependencies/linear-regions-fragmented/DataAccessRegistration.cpp:1608-1778 | Every action keeps all accesses and bottom maps disjoint and in order, and their entries objects that exist |
| `RegionRuns.StepIsSeen` | src/dependencies/linear-regions-fragmented/DataAccessRegistration.cpp:1608-1778 | Every action over regions is, at every address that it concerns, that same step of the one-byte machine, and none at the others, with the bottom maps of all tasks |
| `RegionRuns.PossibleExactly` | src/dependencies/linear-regions-fragmented/DataAccessRegistration.cpp:1608-1778 | An action over regions is possible if and only if at every address that it concerns the step of the one-byte machine is enabled |
| `RegionRuns.EveryByteSeesARun` | src/dependencies/linear-regions-fragmented/DataAccessRegistration.cpp:96-271 | Every run over regions is, at every address, a run of the one-byte machine from its initial state |
| `RegionExclusion.ExclusionAtEveryByte` | src/dependencies/linear-regions-fragmented/DataAccessRegistration.cpp:96-271 | In every run over regions and at every byte, two satisfied and incomplete accesses under one root are nested one in the other, or both read, or both are concurrent |
| `RegionExclusion.RunningTasksShare` | src/dependencies/linear-regions-fragmented/DataAccessRegistration.cpp:341-402 | In every run over regions, two tasks with no blocking access, which access a byte in the same domain other than weakly and have not completed it, both read it or both access it concurrently |
| `RegionExclusion.UpdatesArriveOnce` | src/dependencies/linear-regions-fragmented/DataAccessRegistration.cpp:404-570 | In every run over regions, the target of a queued update is present at every byte of its region and has there none of the bits that it brings |
| `RegionHistory.TaskAsDeclared` | src/dependencies/linear-regions-fragmented/DataAccessRegistration.cpp:2162-2206 | At the end of every run a task has exactly the accesses that it declared, with the declared types and strengths, in the domain of its parent, and those are complete that the run has completed |
| `RegionHistory.DeclaredTasksShare` | src/dependencies/linear-regions-fragmented/DataAccessRegistration.cpp:341-402 | In every run, two tasks of one parent that nothing keeps from running, which declared a byte strongly and have not completed it, both declared to read it or both to access it concurrently |
| `RegionHistory.AnythingCanBeRegistered` | src/dependencies/linear-regions-fragmented/DataAccessRegistration.cpp:1711-1772 | After every run the main task can register a task with any accesses |
| `RegionPropagation.NobodyBlocks` | src/dependencies/linear-regions-fragmented/DataAccessRegistration.cpp:341-402 | The count of blocking accesses is zero if and only if every strong access of the task has received what its type needs |
| `RegionPropagation.WeakNeverBlocks` | src/dependencies/linear-regions-fragmented/DataAccessRegistration.cpp:101-107 | A task whose accesses are all weak may run whatever they have received |
| `RegionPropagation.TaskDataAccesses.HandleDataAccessStatusChanges` | src/dependencies/linear-regions-fragmented/DataAccessRegistration.cpp:334-402 | A newly registered access is counted if it is strong and lacks a bit that its type needs, one that lacked something and does no longer is taken off, the task is reported at zero, and exactly what the status newly lets through is queued |
| `RegionPropagation.TaskDataAccesses.SetUpNewFragment` | src/dependencies/linear-regions-fragmented/DataAccessRegistration.cpp:807-827 | Evaluating the status of a piece that is being registered counts it and queues nothing |
| `RegionPropagation.TaskDataAccesses.FragmentAccess` | src/dependencies/linear-regions-fragmented/DataAccessRegistration.cpp:807-860 | Splitting, with every new piece registered through the evaluation of its status, keeps predecessors equal to guard plus blocking fragments and queues nothing |
| `RegionPropagation.TaskDataAccesses.ChangeAccess` | src/dependencies/linear-regions-fragmented/DataAccessRegistration.cpp:386-402 | A change of status lowers the count exactly when the access stops blocking, and the task is reported once, at zero |
| `RegionPropagation.TaskDataAccesses.ApplyToAccess` | src/dependencies/linear-regions-fragmented/DataAccessRegistration.cpp:994-1063 | One access is cut at the ends of the region and only the shared part changes |
| `RegionPropagation.TaskDataAccesses.ApplyToRegion` | src/dependencies/linear-regions-fragmented/DataAccessRegistration.cpp:1066-1111 | All accesses of a task: the bytewise meaning above, with the count of predecessors kept |
| `RegionPropagation.TaskDataAccesses.ProcessUpdateOperation` | src/dependencies/linear-regions-fragmented/DataAccessRegistration.cpp:1066-1111 | Exactly the addresses of the update receive its bits, and what they newly let through is queued |
| `RegionPropagation.TaskDataAccesses.FinalizeAccess` | src/dependencies/linear-regions-fragmented/DataAccessRegistration.cpp:1918-1954 | Exactly the addresses of the region complete, and what they newly let through is queued |
| `RegionPropagation.TaskDataAccesses.LinkToNext` | src/dependencies/linear-regions-fragmented/DataAccessRegistration.cpp:1689-1708 | Exactly the addresses of the region are linked, and what they let through is queued for the next access |
| `RegionPropagation.TaskDataAccesses.FinishRegistration` | src/dependencies/linear-regions-fragmented/DataAccessRegistration.cpp:2209-2249 | Dropping the guard reports the task if and only if every strong access of it has received what its type needs |
| `DiscreteSequences.OneStep` | src/dependencies/discrete/DataAccessImplementation.hpp:64-147 | Looking at the previous access only decides whether an access belongs to the first run that can share the datum |
| `DiscreteSequences.AfterErasure` | src/dependencies/discrete/DataAccessRegistration.hpp:82-141 | After a removal at any position, all is right before it, and behind it all is right or all is unsatisfied |
| `DiscreteSequences.RemovalKeepsSatisfied` | src/dependencies/discrete/DataAccessRegistration.hpp:67-168 | A removal never takes satisfiability away |
| `DiscreteSequences.SatisfiedExactly` | src/dependencies/discrete/DataAccessImplementation.hpp:64-147 | An access is satisfied if and only if it is the first, or all up to it read, or all are concurrent, or all reduce with one operation |
| `DiscreteSequences.ListedForEach` | src/dependencies/discrete/DataAccessRegistration.hpp:47-55 | A task is listed as often as it has strong accesses that are satisfied now and were not before |
| `DiscreteSequences.SatisfiedShare` | src/dependencies/discrete/DataAccessImplementation.hpp:64-147 | Two satisfied accesses to a datum both read, are both concurrent, or reduce with one operation |
| `DiscreteSequences.DataAccessSequence.RegisterTaskDataAccess` | src/dependencies/discrete/DataAccessRegistration.hpp:208-263 | The satisfied accesses stay exactly the first run; says whether the new access lets its task start |
| `DiscreteSequences.DataAccessSequence.ReevaluateAndPropagateSatisfiability` | src/dependencies/discrete/DataAccessRegistration.hpp:28-64 | Stopping at the first access that stays unsatisfied gives what recomputation from scratch gives, and lists every task once for each of its strong accesses that became satisfied |
| `DiscreteSequences.DataAccessSequence.UnregisterDataAccess` | src/dependencies/discrete/DataAccessRegistration.hpp:67-168 | The same for a removal at any position, with the tasks to be told once for each strong access that it satisfies |
| `PredecessorGuard.GuardOfTwoSuffices` | src/dependencies/discrete/DataAccessRegistration.hpp:271-285 | In every interleaving the counter is positive during registration, and one decrement sees zero: the last one |
| `PredecessorGuard.GuardIsEnoughExactlyFromTwo` | src/dependencies/discrete/RegisterDependencies.cpp:59-70 | A guard gives that guarantee in all interleavings if and only if it is at least two |
| `PredecessorGuard.GuardOfOneRunsTwice` | src/dependencies/discrete/DataAccessRegistration.hpp:172-187 | With a guard of one, an interleaving that makes the same task ready twice |
| `TaskloopPartitions.SplitIterations` | src/tasks/TaskloopLogic.hpp:19-56 | The partitions tile the loop; each starts on a chunk boundary or at the end; their numbers of chunks differ by at most one |
| `TaskloopPartitions.ChunksBetween` | src/tasks/TaskloopLogic.hpp:41-55 | Between two boundaries there are exactly as many chunks as were dealt out |
| `TaskloopInfos.DefaultChunksize` | src/tasks/TaskloopInfo.hpp:72-76 | The default chunk size gives every partition at least two chunks when there are two iterations for each |
| `TaskloopInfos.TaskloopInfo.Initialize` | src/tasks/TaskloopInfo.hpp:65-124 | Sets up the starting point of every run: untouched partitions that tile the loop, and the number of those with work; a chunk size that is not given is the largest that leaves two chunks for each partition, or 1 |
| `PartitionPaths.ModulusIsEuclidean` | src/tasks/Taskloop.cpp:15-19 | The helper on top of C's remainder is the non-negative remainder, for negative operands too |
| `PartitionPaths.GetPartitionPath` | src/tasks/Taskloop.cpp:21-42 | Both modes: position i is the partition at offset 0, 1, 2, … or 0, -1, 1, -2, 2, … from the CPU |
| `PartitionPaths.PathVisitsEachOnce` | src/tasks/Taskloop.cpp:21-42 | In both modes the path has every partition exactly once |
| `TaskloopRun.StepKeepsInvariant` | src/tasks/Taskloop.hpp:126-158 | Every step keeps: claims are disjoint and gapless, exhaustion is stable, and the shared count is the partitions with work plus the pending decrements |
| `TaskloopRun.EveryIterationClaimedOnce` | src/tasks/Taskloop.cpp:44-85 | In every run no iteration is claimed twice, and when any collaborator has returned all of them are claimed |
| `TaskloopRun.EveryIterationExecutedOnce` | src/tasks/Taskloop.cpp:66-84 | When all collaborators have returned, every iteration was executed exactly once and nothing else was |
| `TaskloopRun.ReturnsExactly` | src/tasks/Taskloop.cpp:70-78 | In every run a collaborator that finds a partition exhausted returns if and only if it has tried all of them, or none has chunks left and every last chunk has been reported |
| `TaskloopRun.RunsAreBounded` | src/tasks/Taskloop.cpp:66-84 | A given number of collaborators makes a bounded number of steps |
| `TaskloopRun.NobodyStuck` | src/tasks/Taskloop.cpp:66-84 | A collaborator that has not returned can always go on |
| `TaskloopCounter.CounterIsBounded` | src/tasks/Taskloop.hpp:137-143 | In every run the counter of a partition is raised at most once for every chunk and once for every collaborator |
| `TaskloopCounter.CounterReachesBound` | src/tasks/Taskloop.hpp:137-143 | For every partition and number of collaborators, a run that gets there |
| `TaskloopCounter.CountersDoNotWrapExactly` | src/tasks/Taskloop.hpp:137-143 | So counters of a given width never wrap around if and only if they can hold that |
| `TaskloopWidth.RightChunksExactly` | src/tasks/Taskloop.hpp:126-158 | With counters and chunk ends computed modulo any width, in all runs of up to n collaborators every chunk given out is non-empty, in its partition and not claimed before, if and only if in every partition the last chunk stays below the width and the n attempts after it find the counter at or above the end |
| `TaskloopWidth.WrappedClaimsOnce` | src/tasks/Taskloop.cpp:44-85 | Under that condition every iteration of the loop is claimed exactly once, as with unbounded counters, although the counters may wrap around |
| `Lifecycle.StepKeepsInvariant` | src/tasks/TaskImplementation.hpp:48-100 | Every step keeps both countdowns equal to what they count, for every task |
| `Lifecycle.ArrivalIsSound` | src/executors/threads/TaskFinalizationImplementation.hpp:23-93 | The walk up the ancestors only comes to tasks that no thread is at, and the flags tell it what they were waiting for |
| `Lifecycle.ReleasedOnceAndNotTooEarly` | src/tasks/TaskImplementation.hpp:48-100 | In every run dependencies are released at most once, after the body ended, all events were fulfilled and, with a wait clause, all children have gone |
| `Lifecycle.DestroyedOnceAndNotTooEarly` | src/executors/threads/TaskFinalizationImplementation.hpp:18-95 | In every run a task is destroyed at most once, after its release and the unlinking of its children; a child finds its parent alive |
| `Lifecycle.ThreadsDoNotMeet` | src/executors/threads/TaskFinalizationImplementation.hpp:23-93 | In every run the thread of a last child comes to a parked parent that has nothing left to count, and whoever fulfils the last thing that a release waits for finds the task waiting |
| `Lifecycle.NobodyIsForgotten` | src/system/EventsAPI.cpp:46-78 | As long as a task has not been destroyed, some thread or event can go on |
| `Lifecycle.FinishedRunsLeaveNothing` | src/executors/threads/TaskFinalizationImplementation.hpp:18-95 | A run that cannot go on has released and destroyed every task exactly once |
| `LifecycleOrder.FinishingIsBounded` | src/executors/threads/TaskFinalizationImplementation.hpp:18-95 | Once nobody creates tasks or events or blocks, every run ends after at most as many steps as there are stages and events left |
| `LifecycleOrder.ChildMayOutliveExactly` | src/executors/threads/TaskFinalizationImplementation.hpp:40-69 | In every reachable state, some run destroys the parent and not the child if and only if the child has unlinked without being the last, or is attached and not all that the parent counts |
| `LifecycleOrder.NeverOutlives` | src/executors/threads/TaskFinalizationImplementation.hpp:40-69 | When the child is all that a parked parent counts, no run destroys the parent before it |
| `LifecycleOrder.AParentCanBeDestroyedFirst` | src/executors/threads/TaskFinalizationImplementation.hpp:40-69 | One child, created while the body of the parent runs, is enough |
| `LifecycleHistory.TaskAsAsked` | src/tasks/Task.hpp:418-422 | At the end of every run a task has the parent and the wait clause that it was created with |
| `LifecycleHistory.WhatTasksCanDo` | src/system/EventsAPI.cpp:30-78 | A running body can create tasks, announce events, enter a taskwait and end, and announced events can be fulfilled at any time |
| `LifecycleHistory.ReleaseHistory` | src/tasks/TaskImplementation.hpp:48-100 | In every run a task releases at most once, after its body was ended and every event announced for it was fulfilled, and, if it was created with a wait clause, after every child created for it has gone |
| `LifecycleHistory.DestructionHistory` | src/executors/threads/TaskFinalizationImplementation.hpp:18-95 | In every run a task is destroyed at most once, after its release and after every child created for it has gone |
| `LifecycleHistory.TaskwaitHistory` | src/system/ompss/TaskWait.cpp:48-69 | In every run a task that has entered a taskwait is in it until all children created for it before have gone |
| `Multidimensional.RegisterDataAccess` | src/dependencies/linear-regions/MultidimensionalAPI.hpp:123-165 | For any number of dimensions the registered intervals ascend without overlap and are exactly the bytes of the index box |
| `Multidimensional.CollapseKeepsBytes` | src/dependencies/linear-regions/MultidimensionalAPI.hpp:137-143 | Merging a full inner dimension into the one around it changes no byte of the box |
| `Multidimensional.AccessedBySlices` | src/dependencies/MultidimensionalAPITraversal.hpp:49-59 | A byte is in the box if and only if it is in the slice of one index of the outer dimension, strides apart |
| `Multidimensional.OrderedAreDisjoint` | src/dependencies/linear-regions/MultidimensionalAPI.hpp:145-153 | No byte is registered twice |
| `Polling.CallbacksAreExclusive` | src/system/PollingAPI.cpp:159-217 | In every run no service is called at two places, on any stacks, and a callback that returns finds its node in the map |
| `Polling.ScanDecides` | src/system/PollingAPI.cpp:166-191 | A scan skips a service exactly if its callback is running, condemns it exactly if it is marked and idle, calls it exactly if it is neither, and ends exactly when no service is left |
| `Polling.ReturnDecides` | src/system/PollingAPI.cpp:192-213 | In every run a callback that returns leaves its service in the map if and only if it does not ask to be unregistered and the service has not been marked |
| `Polling.OnlyTheHolder` | src/system/PollingAPI.cpp:159-217 | In every run, while a thread holds the lock, only it makes steps that touch the map |
| `Polling.OnlyItsCallerEnds` | src/system/PollingAPI.cpp:166-214 | While a callback runs, its node stays in the map, and only the thread that runs it takes the processing mark off |
| `Polling.UnregisterReturnsWhenGone` | src/system/PollingAPI.cpp:132-156 | In every run a call that unregisters returns only after it has been told so; then nobody is in the callback of its node, which is erased, or about to be by the thread that told it and still holds the lock |
| `PollingWaits.KnotForever` | src/system/PollingAPI.cpp:166-214 | Waiting calls each of which has lost its mark, or needs a callback to return from inside which another one of them waits, stay so in every run |
| `PollingWaits.UnregisterCanReturnExactly` | src/system/PollingAPI.cpp:132-156 | In every reachable state a waiting call can still return if and only if no such knot holds it or a call that waits above it on its stack |
| `PollingWaits.OwnServiceNeverReturns` | src/system/PollingAPI.cpp:166-176 | A callback that unregisters its own service waits in every continuation |
| `PollingWaits.ACallbackCanGetThere` | src/system/PollingAPI.cpp:98-191 | Registering a service and polling once leads to a callback that can do so |
| `PollingHistory.MarkHistory` | src/system/PollingAPI.cpp:98-156 | At the end of every run, the mark of a call that has not been told is in place if and only if its service was not registered again after it |
| `PollingHistory.UnregisterReturnsUnlessTangled` | src/system/PollingAPI.cpp:98-217 | At the end of every run, a waiting call can return if and only if neither it nor a call that waits above it on its stack is in a tangle: calls each of which was followed by another registration of its service, or waits for a callback from inside which another one of them waits |
| `PollingWaits.RegisteringAgainStrands` | src/system/PollingAPI.cpp:109-117 | Registering a service again while a call waits for it leaves the call waiting in every continuation |
| `TicketLock.MutualExclusionInOrder` | src/lowlevel/TicketSpinLock.hpp:60-101 | With unbounded tickets, in every run of lock, tryLock and unlock, one thread holds the lock and nobody with an earlier ticket waits |
| `TicketLock.NobodyWaitsForNothing` | src/lowlevel/TicketSpinLock.hpp:60-101 | While somebody waits, somebody holds the lock or can enter |
| `TicketLock.UnlockPassesOn` | src/lowlevel/TicketSpinLock.hpp:95-101 | In every run, after an unlock the thread with the next ticket can enter if anybody waits |
| `TicketLock.TryLockSucceedsExactly` | src/lowlevel/TicketSpinLock.hpp:77-93 | In every run, a tryLock that nobody interferes with gets the lock if and only if nobody holds it or waits, and otherwise changes nothing |
| `TicketLock.WrappedRun` | src/lowlevel/TicketSpinLock.hpp:60-75 | With no more threads than ticket values, wrapped and unbounded tickets have the same runs of lock and unlock, and corresponding states |
| `TicketLock.WrappedExclusionExactly` | src/lowlevel/TicketSpinLock.hpp:60-101 | Without tryLock, wrapped tickets exclude in all runs if and only if there is a value for every thread |
| `TryLock.PromptExclusion` | src/lowlevel/TicketSpinLock.hpp:60-101 | With a value for every thread and less than a round of tickets during any tryLock, a run of lock, tryLock and unlock on wrapped tickets is one on unbounded tickets, and excludes |
| `TryLock.WrappedTryLockFails` | src/lowlevel/TicketSpinLock.hpp:77-93 | For every width and any two threads or more, a run with exactly one round of tickets during a tryLock, at the end of which two threads hold the lock |
| `TryLock.TryLockExcludesExactly` | src/lowlevel/TicketSpinLock.hpp:77-93 | With tryLock, all runs on wrapped tickets exclude if and only if there is at most one thread |
| `TryLock.PromptTryLockExcludesExactly` | src/lowlevel/TicketSpinLock.hpp:60-101 | The runs with fewer than a given number of tickets during any tryLock all exclude if and only if that number is at most one round and there is a value for every thread, or there is at most one thread |
| `Reductions.PaddedMeaning` | src/dependencies/linear-regions-fragmented/ReductionInfo.cpp:20-26 | A slot is the least whole number of cache lines that holds the region |
| `Reductions.SlotsAreDisjoint` | src/dependencies/linear-regions-fragmented/ReductionInfo.cpp:59-64 | Slots of different CPUs do not overlap and lie within the storage |
| `Reductions.TilingIsWhole` | src/dependencies/linear-regions-fragmented/ReductionInfo.cpp:87-110 | Combining any tiling into whole elements, in any order, is combining the region at once |
| `Reductions.OnlyTheLastCompletes` | src/dependencies/linear-regions-fragmented/ReductionInfo.cpp:107-109 | The sizes of a tiling add up to the region with its last fragment and not before |
| `Reductions.ReductionInfo.GetCPUPrivateStorage` | src/dependencies/linear-regions-fragmented/ReductionInfo.cpp:59-85 | The slot of a CPU is at its number times the slot size; its elements, zeroed memory at first, are initialised when it is first asked for and never again, and no other slot changes |
| `Reductions.ReductionInfo.CombineRegion` | src/dependencies/linear-regions-fragmented/ReductionInfo.cpp:87-110 | Exactly the elements of the fragment are combined, with the chosen CPUs in order, and completion is reported at zero |
| `Reductions.CombinedAlone` | src/dependencies/linear-regions-fragmented/ReductionInfo.cpp:94-99 | With one CPU chosen, each element of the fragment is combined with what is at the same place in that CPU's slot |
| `Reductions.ReductionInfo.Reduce` | src/dependencies/linear-regions-fragmented/ReductionInfo.cpp:59-110 | What a task stores for an element in the slot that it was given is what ends up combined into that element |
| `Reductions.ReductionInfo.CombineFragments` | src/dependencies/linear-regions-fragmented/ReductionInfo.cpp:87-110 | Over a whole tiling: the result of one combination, and only the last call reports |

## Left out

- Reductions inside the propagation protocol: the receipt of a reduction descriptor is kept as a fourth bit, but payloads,
  CPU sets and the closing of reductions are not modelled.
- Taskwait fragments, top-level sinks and the release directive of the fragmented system, and the reclamation of
  accesses (topmost and removable marks, and the hold they put on a task's removal counter); completed accesses stay in
  the model as history, and completion is not marked on fragments, where only reclamation looks at it.
- Accesses below different outermost domains, that is, in tasks whose parents do not declare the data: the runtime does
  not order them either.
- The nesting condition: a nested access may let through whatever its parent does. It is what the program must keep to;
  the runtime does not look at it.
- RegionPropagation.TaskDataAccesses.HandleDataAccessStatusChanges: the removal blockers and the closing of reductions that the
  source handles in the same function.
- RegionPropagation.TaskDataAccesses.FinalizeAccess: the source also marks the fragments of the access complete, which only
  their reclamation looks at.
- Settling over whole regions: exactness and the absence of circular waiting are stated for one byte. Over regions, an
  initial fragment is an object of its own for each time one is created, and the accesses of one registration are created
  and linked in one step, as the locks of the source make them.
- The symbol table of a task's accesses, and the warning paths of access registration.
- RegionMaps.IntrusiveLinearRegionMap.ProcessIntersectingAndMissing: callbacks that change the map outside the gap or the node
  they are given, and iterator invalidation inside the intrusive tree.
- Wrap-around of addresses past the width of `size_t`; loops are taken with a lower bound not above the upper one and with
  step one, as the source asserts.
- Nested weak accesses and upgrades in the discrete system, where re-evaluation only under-approximates or the stored
  type differs from the documented one; one access per task and datum is taken.
- Collaborator start and finish counts on the source taskloop, and taskloops that are not runnable themselves.
- Device tasks, spawned-function counting, disabling of scheduling, and memory layout in the task lifecycle.
- `register_reduction_access` of the multidimensional interface, and dimensions with start, end and size out of order.
- Polling: service names and the record of unique services; registering a service that is registered and not marked, or
  unregistering one that is not there, which the source asserts against; and what callbacks do besides unregistering.
- Memory ordering: atomics are taken as sequentially consistent. Debug-only owner checks of the lock are left out.
- Concurrent calls that combine reduction fragments, whose subtraction and test are two atomics.
- The other dependency systems, schedulers, loader, cluster, CUDA, hardware discovery and instrumentation.
