# Verified models of the engine's hardest code

Dafny models of five parts of the engine, with proofs of what they promise:

- **The job scheduler** (`src/scheduler`): `LaunchQueue.dfy`, `Scheduler.dfy`, `SchedulerInvariant.dfy`,
  `SchedulerProofs.dfy`, `SchedulerWorkers.dfy`, `SchedulerTelling.dfy`, `SchedulerFinish.dfy`,
  `SchedulerRelease.dfy`, `SchedulerTheorems.dfy`, `SchedulerProgress.dfy`, `SchedulerWaits.dfy`,
  `SchedulerCycles.dfy`, `SchedulerStarvation.dfy`, `SchedulerDestruction.dfy`, `SchedulerQueues.dfy`,
  `SchedulerLocks.dfy`, `SchedulerLaunches.dfy`, `SchedulerAccounts.dfy`, `SchedulerServers.dfy`,
  `SchedulerClass.dfy`. Every critical section of the source is one step of a
  state machine; any number of threads and calls interleave freely. A ghost history records for each
  dependency edge whether it is unused, fresh (the dependency has finished) or consumed (the dependent
  has been triggered), and one inductive invariant ties the two counters of every job to it.
- **Interval unions and the index-buffer allocator built on them**
  (`src/i_graphics_device/backends/vulkan/interval_union.hpp`, `render.cpp`): `Intervals.dfy`,
  `IntervalUnion.dfy`, `MeshBuffers.dfy`. An interval denotes the set of its real points.
- **The per-frame grouping of entities into draws** (`render.cpp`): `DrawGrouping.dfy`, a counting sort
  over the keys of a hash map in any iteration order.
- **The merge of action histories** (`src/windowing/windowing.cpp`): `ActionHistory.dfy`.
- **The argument parser** (`src/arg_parser.hpp`): `ArgParser.dfy`, `ArgParserTheorems.dfy`,
  `ArgParserReading.dfy`, `ArgParserClass.dfy`. A second reader, which goes through the arguments once and keeps no
  state, says what they give to whom; the loop with its index that moves back stores just that.

`Options.dfy` holds the `Option` datatype. Where the source mutates objects, the model has a class or an
array method proved against a function on values, and the properties are lemmas about that function.

## Where the code does not do what it seems to

Each item names the lemmas that state it, with the exact condition under which the code is right and an
input on which it is not.

- A long job is entered into its dependencies' lists before its thread exists, so a dependency that
  finishes meanwhile pushes a launch to a null thread: exactly when the planned job is a long job still
  being created (`MissingQueueIff`), and such a state is reached (`LaunchForMissingThreadReached`). In runs
  in which no job finishes between the links of a creation that names it this never happens
  (`UndisturbedFindsQueues`).
- The links of a new job are made one by one, and its dependencies may complete in between. Then jobs can
  come to wait for each other in a circle: a job and a dependency that it names twice (`StarvationReached`),
  or three jobs without any repetition (`CircleReached`). Nothing ever frees them (`StuckForever`), and who
  has not heard of one of them is never triggered again (`AwaitingNeverTriggered`). At rest there is such a
  circle exactly when some closed walk along the edges has weight zero, which was decided by the numbers of
  completions when the edges were made (`StarvationIff`); for a dependency named twice, exactly when it
  completed between the two links (`TwinsStarveIff`). In runs in which no job finishes between the links of
  a creation that names it there is none, and only parked jobs keep others waiting (`OnlyParkedJobsBlock`,
  `UndisturbedWorkProceeds`).
- Destroying a job that has dependencies gives back a usage that no finish took; the unsigned counter drops
  below zero (`DestroyingDependentUnderflows`). Whoever destroys a job that waits for all of its
  dependencies, at any moment of rest, makes a usage too small (`DestroyingUntriggeredUnderruns`). When an
  idle job at rest is destroyed, whether or not it names a dependency twice, and its thread works the launch
  off while no other thread moves, then the books of its dependencies hold in the end exactly when a launch
  of it was queued at the call (`DestructionBalancesIff`, `DestructionIsWorkedOff`). A single release
  balances exactly when one busy edge leaves the books (`ReleaseBalancesIff`): for a dependency named once,
  exactly when the edge is in use (`ReleaseBalancesIffUsed`).
- The early returns for invalidated, destroyed and unloaded jobs keep the usage taken by the pull. Such a
  job is parked for ever (`ParkedForever`), and whoever waits for it is stuck.
- `-=` is undefined (a reversed erase, or the constructor's assertion) in exactly two families of cases on
  vectors kept in order: the operand only touches the first element that is not below it, or it overhangs
  the single element it meets (`SubtractedDefinedIff`, `CanonicalSubtractedDefinedIff`, `SubtractionUndefined`).
- `-=` leaves empty remnants behind, and a remnant inside the operand of a later `-=` makes it return with
  nothing taken: where it is defined it denotes the set difference exactly when the first element not below
  the operand is not such a remnant in front of an overlap (`SubtractedIsDifferenceIff`). From
  `{[2,4), [6,8)}`, taking `[2,3)` and then `[1,7)` leaves 3.5 in it (`RemnantHidesOverlap`).
- `+=` on a vector with empty remnants leaves it out of order exactly when it inserts in front of a
  remnant that lies inside the new interval (`AddedOrderedIff`, `RemnantBreaksOrder`).
- Loading a mesh that is loaded already forgets its index space. A byte is lost exactly when a reload took
  it from its mesh and its buffer has been in use ever since (`LostIffOrphaned`), so the books are right
  exactly when no buffer in use holds such a space (`RunsStayGoodIff`). A load keeps them exactly when the
  mesh was not loaded, or was alone in its buffer and goes into another, whereupon the old buffer is
  destroyed (`LoadKeepsGoodIff`, `OldBufferGoesIff`, `HarmlessReloadExample`). The size test of an unload does
  not see a buffer with lost bytes as empty (`WhollyFreeIff`), but such a buffer goes with its last mesh all
  the same (`ReloadExample`).
- Loading a mesh without indices subtracts an empty interval, which is undefined exactly when the free piece
  it is taken from is not empty (`EmptyLoadDefinedIff`).
- A flag in front of a bundle can be split off for all flag definitions exactly when neither form reads as
  a long flag: `-a-x` is not `-a --x` (`UnbundleIff`).
- `value_last` on a flag that is present reads out of range exactly for flags defined without a value
  (`LastValueInRangeIff`, `SwitchReadsOutOfRange`).
- `getActionsHistorySize` counts aliased handles again and again: it reports more than the copy writes
  exactly when an entry with a non-empty history is named twice (`NeededAgainstReported`, `AliasCountsTwice`).

## Model

| member | source | states |
|---|---|---|
| SchedulerTheorems.StepKeepsInv | src/scheduler/scheduler.cpp:237-316 | every call and every locked step of a worker keeps the invariant that ties `usage`, `countdown`, queues and threads to the edge states |
| SchedulerTheorems.HistoryFits | src/scheduler/scheduler.cpp:237-497 | the invariant holds in every state of every run, for any number of threads and any interleaving |
| SchedulerTheorems.CountersAreExact | src/scheduler/scheduler.cpp:261-308 | over every run: `usage` is one for a held or parked launch plus the unreleased dependent edges plus the dependents still to be told; `countdown` is the dependency count minus the fresh edges and never rests at zero; neither drops below zero |
| SchedulerTheorems.RunningJobIsQuiet | src/scheduler/scheduler.cpp:253-263 | over every run: while a job runs, none of its dependents has been told or is unreleased, whatever the other threads do |
| SchedulerTheorems.RunningJobsExclude | src/scheduler/scheduler.hpp:109-121 | over every run: two threads never run one job's function, nor a job and a direct dependency of it |
| SchedulerTheorems.HeldJobExcludesDependents | src/scheduler/scheduler.cpp:261-280 | a job that is held and not yet telling its dependents is no dependency of another held job |
| SchedulerTheorems.OneActivationAtATime | src/scheduler/scheduler.cpp:267-292 | over every run: a dependency-triggered job has at most one place (plan, queue, thread) where an activation is outstanding |
| SchedulerTheorems.TriggerFollowsEveryDependency | src/scheduler/scheduler.cpp:267-275 | at the step that triggers a job, every dependency has completed since its edge was made exactly as often as the job has been triggered |
| SchedulerTheorems.OneCompletionPerRound | src/scheduler/scheduler.cpp:267-275 | from one trigger of a job to the next, every dependency completes exactly once |
| SchedulerTheorems.DependentsRunInLockStep | src/scheduler/scheduler.cpp:263-298 | over every run: since an edge was made, the dependency has completed as often as the dependent or once more |
| SchedulerTheorems.DependenciesOneRoundApart | src/scheduler/scheduler.cpp:263-298 | two dependencies of one job are never more than one round apart |
| SchedulerProgress.LocksAscend | src/scheduler/scheduler.cpp:262-268 | over every run: the entry mutex that a thread takes, or waits for, inside another one belongs to a job created later |
| SchedulerProgress.DependenciesAcyclic | src/scheduler/scheduler.cpp:332-349 | over every run, aliased handles included: no path along the dependents' lists returns to its start |
| SchedulerProgress.SomeFinisherGoesOn | src/scheduler/scheduler.cpp:262-280 | while threads hold entry mutexes, the step of one of them is enabled: nested locking cannot deadlock |
| SchedulerProgress.FollowConsumedEdges | src/scheduler/scheduler.hpp:109-121 | from a queued launch of a used job, consumed edges lead to queued launches of younger jobs until one is free or an edge is fresh |
| SchedulerProgress.QueuedOrPartlyTriggered | src/scheduler/scheduler.hpp:109-121 | over every run, at rest and with no job parked: while a launch is queued, some queued launch is free to be pulled once due, or some job has heard of a part of its dependencies |
| SchedulerProgress.RunParksForReason | src/scheduler/scheduler.cpp:241-243 | over every run: only an invalidated, destroyed or unloaded job is ever parked by the early returns |
| SchedulerProgress.MissingQueueIff | src/scheduler/scheduler.cpp:282-292 | a planned launch goes to a thread that does not exist iff its job is a long job whose creation is under way |
| SchedulerProgress.LaunchForMissingThreadReached | src/scheduler/scheduler.cpp:346-371 | a run that reaches such a launch |
| SchedulerWaits.WaitsForNobodyIff | src/scheduler/scheduler.cpp:261-308 | at rest a job that is not parked waits for nobody iff its usage is 0 and, if it has dependencies, it is queued |
| SchedulerWaits.WaitsEndIff | src/scheduler/scheduler.cpp:261-308 | at rest the chains of waits from a job all come to an end iff it is in no set of jobs that are parked or wait for each other |
| SchedulerWaits.QueuedWorkProceeds | src/scheduler/scheduler.cpp:261-308 | over every run, at rest: a chain of waits leads from any job that is not stuck to one with usage 0, which is queued if it has dependencies |
| SchedulerWaits.StuckStays | src/scheduler/scheduler.cpp:237-497 | whatever step comes next, a set of jobs that are parked or wait for each other stays one; none is pulled or completes |
| SchedulerWaits.StuckForever | src/scheduler/scheduler.cpp:237-497 | ... and so for the rest of every run |
| SchedulerWaits.StuckNeverRuns | src/scheduler/scheduler.hpp:108-121 | no thread ever holds a launch of a stuck job again |
| SchedulerWaits.AwaitingNeverTriggered | src/scheduler/scheduler.cpp:267-275 | a job that has not heard of a stuck dependency never hears of it, and is never triggered again |
| SchedulerWaits.ParkedForever | src/scheduler/scheduler.cpp:241-243 | a parked job keeps its usage and never completes again |
| SchedulerCycles.CircleOfWaitsIff | src/scheduler/scheduler.cpp:346-349 | the weight of a closed walk along edges is never negative, and at rest the walk is a circle of waits iff it is zero |
| SchedulerCycles.StarvationIff | src/scheduler/scheduler.cpp:346-349 | at rest jobs wait for each other for ever, none of them parked, iff some closed walk has weight zero |
| SchedulerCycles.HopsPersist | src/scheduler/scheduler.cpp:346-349 | no step changes an edge that is linked, nor its weight |
| SchedulerCycles.HopsStay | src/scheduler/scheduler.cpp:346-349 | ... and no step makes an edge but the one it links |
| SchedulerCycles.UndisturbedHasNoCircle | src/scheduler/scheduler.cpp:346-349 | where no job finishes between the links of a creation that names it, every closed walk always has a positive weight |
| SchedulerCycles.UndisturbedFindsQueues | src/scheduler/scheduler.cpp:282-292 | in such runs no launch is ever pushed to a thread that does not exist |
| SchedulerCycles.OnlyParkedJobsBlock | src/scheduler/scheduler.cpp:241-243 | ... and at rest a job is stuck iff a chain of waits leads from it to a parked job |
| SchedulerCycles.UndisturbedWorkProceeds | src/scheduler/scheduler.cpp:261-308 | deadlock freedom of such runs: at rest the waits of every job that lead to no dead job lead to one that can run |
| SchedulerStarvation.TwinsStarveIff | src/scheduler/scheduler.cpp:346-349 | a job and a dependency it names twice starve each other iff the dependency completed between the two links |
| SchedulerStarvation.TwinsAreStuck | src/scheduler/scheduler.cpp:346-349 | a job that heard of a twice-named dependency over one edge only is stuck with it |
| SchedulerStarvation.StarvationReached | src/scheduler/scheduler.cpp:346-349 | a run that reaches such a state |
| SchedulerStarvation.CircleReached | src/scheduler/scheduler.cpp:346-349 | a run with distinct dependencies that ends with three jobs stuck, a launch queued and none free |
| SchedulerDestruction.DestroyingDependentUnderflows | src/scheduler/scheduler.cpp:294-308 | a concrete execution in which destroying a job with a dependency drives that dependency's usage to -1 |
| SchedulerDestruction.DestroyingUntriggeredUnderruns | src/scheduler/scheduler.cpp:469-497 | from every state of rest, destroying a job that waits for all of its dependencies, is idle and served by a thread leads to a dependency whose usage is below what its books account for |
| SchedulerDestruction.DestructionBalancesIff | src/scheduler/scheduler.cpp:469-497 | from every state of rest, destroying an idle job, twice-named dependencies included: however its thread works the launch off while no other thread moves, the books of all its dependencies are right in the end iff a launch of it was queued at the call |
| SchedulerDestruction.DestructionIsWorkedOff | src/scheduler/scheduler.cpp:237-316 | ... and there is such a way: the pushed launch can be pulled and worked off to the end |
| SchedulerDestruction.WaitsForAllIff | src/scheduler/scheduler.cpp:269-275 | at rest all edges of a job are unused iff its countdown is full and no launch of it is queued |
| SchedulerDestruction.ReleaseBalancesIff | src/scheduler/scheduler.cpp:294-308 | the release step keeps the dependency's books iff exactly one busy edge leaves them, the erased entry counted |
| SchedulerDestruction.ReleaseBalancesIffUsed | src/scheduler/scheduler.cpp:294-308 | for a dependency named once: iff the edge is in use |
| SchedulerQueues.QueuesStaySorted | src/scheduler/scheduler.hpp:77-85 | every queue is sorted in every state of every execution |
| SchedulerQueues.PullableIff | src/scheduler/scheduler.hpp:108-121 | an idle thread can pull a launch iff the scan finds it due and idle, and the state after the step is the scan's |
| SchedulerQueues.NothingPullable | src/scheduler/scheduler.hpp:108-121 | when the scan finds nothing due and idle, no pull is enabled |
| SchedulerLaunches.PulledIsChecked | src/scheduler/scheduler.cpp:237-243 | over every execution: what a thread does next with a launch it has pulled is the check, and the launch is parked there iff its job is invalidated, destroyed or unloaded |
| SchedulerLaunches.FunctionRunsIff | src/scheduler/scheduler.cpp:241-265 | over every execution, between a pull and the completion that follows: one check and one dispatch, and the function runs from the dispatch to the completion and at no other time if the job has one and no destruction is pended at the dispatch; otherwise it does not run |
| SchedulerLaunches.CallsDecide | src/scheduler/scheduler.cpp:237-258 | from the calls to their effect: a pulled launch is stopped at the check iff its job was invalidated, its plugin unloaded or its destruction carried out before, and calls the function iff the request gave one and no destruction was asked for before the dispatch |
| SchedulerLaunches.FlaggedIffCalled | src/scheduler/scheduler.cpp:448-497 | over every execution: a job is invalidated, or its destruction pended, iff there was such a call with a handle of it |
| SchedulerLaunches.UnloadedIffCalled | src/scheduler/scheduler.cpp:243 | over every execution: a plugin counts as unloaded iff that was asked for |
| SchedulerLaunches.DestroyedIffDispatched | src/scheduler/scheduler.cpp:245-246 | over every execution: a job is destroyed iff a launch of it was dispatched after its destruction had been asked for |
| SchedulerLaunches.JobIsAsRequested | src/scheduler/scheduler.cpp:352-360 | every job was created by a request, whose function and plugin it keeps |
| SchedulerAccounts.StepBalances | src/scheduler/scheduler.cpp:267-292 | for every job and time, one step changes the number of queued and planned launches for times up to then by what it schedules, triggers or destroys, less what it pulls |
| SchedulerAccounts.LaunchesBalance | src/scheduler/scheduler.cpp:237-497 | over every execution, for every job and time x: launches scheduled, triggered and asked for by destructions for times up to x equal those pulled plus those queued or planned; none is lost, made up or moved in time |
| SchedulerAccounts.PullsAreAskedFor | src/scheduler/scheduler.cpp:416-446 | over every run: up to time x a job without dependencies is pulled at most as often as it was scheduled for a time not after x or asked to be destroyed |
| SchedulerServers.ThreadsServe | src/scheduler/scheduler.cpp:361-371 | over every execution: the first threads serve the short queue, each further thread the one queue created with it, and no two jobs share a queue other than the short one |
| SchedulerServers.OwnThread | src/scheduler/scheduler.cpp:222 | over every execution: exactly one thread serves the queue of a long job, and no other job uses it |
| SchedulerServers.QueueIsAsRequested | src/scheduler/scheduler.cpp:361-371 | over every execution: a job has the short queue iff a short job was asked for, from its creation on |
| SchedulerServers.DependsAsRequested | src/scheduler/scheduler.cpp:332-349 | over every execution: a request creates a job iff it has no dependency list or one of known handles that is not empty, and the job depends for good on the jobs that the list names, one by one |
| SchedulerServers.HandleIsOfJob | src/scheduler/scheduler.cpp:386-414 | over every execution: the handle that a creation returns names the job created, a capability names the same job as the handle it is made from, and both do so from then on |
| SchedulerServers.DueLaunchIsServed | src/scheduler/scheduler.hpp:108-121 | over every run: a due launch of an idle job can be pulled by a thread that serves its queue as soon as that thread is idle, and there is one |
| SchedulerWorkers.PulledJobIsIdle | src/scheduler/scheduler.hpp:112-121 | a launch that can be pulled is of a job that no thread holds and whose dependent edges are all unused |
| SchedulerTelling.ToldIsWaiting | src/scheduler/scheduler.cpp:267-269 | a dependent that is about to be told is another job whose edge is unused and which has no activation outstanding but possibly one that is releasing and past this edge |
| SchedulerTelling.TriggerMeansAllFresh | src/scheduler/scheduler.cpp:269-275 | a countdown reaches zero only when all other edges of the dependent are fresh |
| SchedulerTelling.TellKeepsInv | src/scheduler/scheduler.cpp:266-276 | telling one dependent keeps the invariant, triggering or not |
| SchedulerRelease.ReleaseKeepsInv | src/scheduler/scheduler.cpp:294-298 | releasing one dependency keeps the invariant |
| SchedulerFinish.PushKeepsInv | src/scheduler/scheduler.cpp:282-292 | pushing a planned launch keeps the invariant |
| SchedulerProofs.LinkKeepsInv | src/scheduler/scheduler.cpp:346-349 | entering a new job into a dependency's list keeps the invariant, also between runs of the dependency |
| SchedulerObjects.Scheduler.CreateJob | src/scheduler/scheduler.cpp:319-388 | refuses iff the dependency list is empty or names an unknown handle, and then changes nothing; otherwise waits for each dependency's mutex in turn and hands out the next handle: the new job has the function, the plugin and the dependencies asked for, and the short queue, or a new queue with a new idle thread that serves it; the invariant holds |
| SchedulerObjects.Scheduler.LookUp | src/scheduler/scheduler.cpp:334-341 | resolves all handles to entries, or none when one is unknown |
| SchedulerObjects.Scheduler.ScheduleJob | src/scheduler/scheduler.cpp:416-446 | succeeds iff the handle is known and the job has no dependencies and is valid; then the job's queue gets exactly one more launch, for the time asked for counted from the scheduler's creation, in its place by time, and nothing else changes; otherwise nothing does |
| SchedulerObjects.Scheduler.InvalidateJob | src/scheduler/scheduler.cpp:448-467 | sets the flag of the named job and nothing else, keeping the invariant |
| SchedulerObjects.Scheduler.DestroyJob | src/scheduler/scheduler.cpp:469-497 | pends the destruction of the named job and adds exactly one launch for time 0 to its queue, and nothing else; the scheduler stays in order when the job has no dependencies |
| SchedulerObjects.Scheduler.CreateCapability | src/scheduler/scheduler.cpp:390-414 | refuses iff the handle is unknown; otherwise the next handle names the same job, and nothing else changes |
| SchedulerObjects.Scheduler.ProcessLaunch | src/scheduler/scheduler.cpp:237-316 | the imperative body, with its loops over dependents, planned launches and dependencies, is a run of the thread's own protocol steps and of the finishing steps it waits for; it returns at once, with the usage kept, iff the job is invalidated, destroyed or unloaded; the function runs exactly after the dispatch, iff the job has one and no destruction is pended; it ends idle and keeps the invariant, or breaks down at a push to a missing thread |
| SchedulerObjects.Scheduler.PullLaunch | src/scheduler/scheduler.hpp:108-124 | what the scan takes is an enabled pull of the protocol, of the earliest launch that can be pulled; it takes nothing only if no pull is enabled |
| SchedulerObjects.Scheduler.WaitFor | src/scheduler/scheduler.cpp:262-268 | waiting for a job's mutex comes to an end: the threads that hold mutexes finish, youngest job first |
| SchedulerObjects.Scheduler.TellDependents | src/scheduler/scheduler.cpp:266-276 | the loop tells every dependent, waiting for its mutex first, one protocol step each |
| SchedulerObjects.Scheduler.ReleaseDependencies | src/scheduler/scheduler.cpp:294-311 | the loop gives one usage back to each dependency, waiting for its mutex first, one protocol step each |
| SchedulerObjects.FindDependent | src/scheduler/scheduler.cpp:301-302 | the search finds the first entry of the job, whose removal is the protocol's erase |
| LaunchQueues.PushedIsSortedInsertion | src/scheduler/scheduler.hpp:77-85 | a push keeps the queue sorted, adds exactly the launch, and puts it before all launches that are not earlier |
| LaunchQueues.LowerBoundSplits | src/scheduler/scheduler.hpp:81 | on a sorted queue the lower bound separates the earlier launches from the others |
| LaunchQueues.JobQueue.Push | src/scheduler/scheduler.hpp:77-85 | the binary search and insertion refine the multiset insertion and keep the order |
| LaunchQueues.JobQueue.Pull | src/scheduler/scheduler.hpp:108-124 | one scan removes exactly one launch, the earliest among those due and idle, and marks its job used; it takes nothing only if no launch is due and idle |
| Intervals.LessMeansBelow | src/i_graphics_device/backends/vulkan/interval_union.hpp:42-46 | `<` holds iff every point of the one is below every point of the other |
| Intervals.OverlapsMeansCommonPoint | src/i_graphics_device/backends/vulkan/interval_union.hpp:52-55 | `&&` holds iff the intervals share a point |
| Intervals.MergeableMeansOneInterval | src/i_graphics_device/backends/vulkan/interval_union.hpp:57-63 | `mergeable` holds iff the union of the two point sets is an interval |
| Intervals.SubintervalMeansSubset | src/i_graphics_device/backends/vulkan/interval_union.hpp:65-70 | `is_subinterval` holds iff the point set is included |
| IntervalUnions.PartitionPoint | src/i_graphics_device/backends/vulkan/interval_union.hpp:88-90 | on a partitioned vector the binary search finds the first element that fails the test |
| IntervalUnions.AddSearches | src/i_graphics_device/backends/vulkan/interval_union.hpp:88-101 | the two searches of `+=` delimit exactly the elements that are not apart from the operand |
| IntervalUnions.AddedIsUnion | src/i_graphics_device/backends/vulkan/interval_union.hpp:86-133 | adding denotes the set union and keeps the vector ordered and unmergeable, empty remnants allowed but none hidden |
| IntervalUnions.AddedIsCanonical | src/i_graphics_device/backends/vulkan/interval_union.hpp:86-133 | adding a non-empty interval with any flags to a canonical union gives a canonical union of exactly the set union |
| IntervalUnions.AddedOrderedIff | src/i_graphics_device/backends/vulkan/interval_union.hpp:92-95 | the result is in order iff the insertion does not hide an empty remnant |
| IntervalUnions.SubtractedDefinedIff | src/i_graphics_device/backends/vulkan/interval_union.hpp:156-192 | on a vector kept in order, remnants allowed, `-=` is defined iff the operand neither only touches the first element not below it nor overhangs the single element it meets |
| IntervalUnions.CanonicalSubtractedDefinedIff | src/i_graphics_device/backends/vulkan/interval_union.hpp:156-192 | the same for a canonical union, in terms of overlaps only |
| IntervalUnions.SubtractionUndefined | src/i_graphics_device/backends/vulkan/interval_union.hpp:163-192 | an input of each kind on which `-=` is undefined |
| IntervalUnions.SubtractedIsDifferenceIff | src/i_graphics_device/backends/vulkan/interval_union.hpp:156-195 | wherever it is defined on a vector kept in order, `-=` keeps the order, and denotes the set difference iff no empty remnant hides an overlap |
| IntervalUnions.RemnantHidesOverlap | src/i_graphics_device/backends/vulkan/interval_union.hpp:161 | two subtractions from a canonical union, the second of which takes nothing though points of its operand are left |
| IntervalUnions.SubtractedStaysCanonical | src/i_graphics_device/backends/vulkan/interval_union.hpp:169-192 | no empty remnant arises when the operand covers what it meets or meets two or more elements |
| IntervalUnions.SubtractedInside | src/i_graphics_device/backends/vulkan/interval_union.hpp:181-184 | subtracting inside one element is always defined and replaces it by its two pieces |
| IntervalUnions.CanonicalIsUnique | src/i_graphics_device/backends/vulkan/interval_union.hpp:57-63 | two canonical vectors with the same points are equal |
| IntervalUnions.AddedAllIsUnion | src/i_graphics_device/backends/vulkan/interval_union.hpp:135-140 | adding a sequence of intervals stays canonical and denotes the union of all |
| IntervalUnions.AdditionOrderIrrelevant | src/i_graphics_device/backends/vulkan/interval_union.hpp:86-140 | the same intervals added in any order and multiplicity give the identical vector |
| IntervalUnions.UnionAdditionCommutes | src/i_graphics_device/backends/vulkan/interval_union.hpp:148-154 | adding two unions in either order gives the identical vector |
| IntervalUnions.SubtractThenAddRestores | src/i_graphics_device/backends/vulkan/interval_union.hpp:86-195 | round trip: subtracting a non-empty interval inside an element and adding it back restores the vector, every flag combination and remnant included |
| IntervalUnions.IntervalUnion.Add | src/i_graphics_device/backends/vulkan/interval_union.hpp:86-133 | the in-place `+=` computes `Added` |
| IntervalUnions.RemnantBreaksOrder | src/i_graphics_device/backends/vulkan/interval_union.hpp:92-95 | an addition that leaves the vector out of order |
| IntervalUnions.IntervalUnion.AddUnion | src/i_graphics_device/backends/vulkan/interval_union.hpp:135-140 | the loop of the union `+=` computes `AddedAll` wherever the searches of the single additions are on partitioned ranges, which they are for canonical unions, and canonical stays canonical |
| IntervalUnions.IntervalUnion.Plus | src/i_graphics_device/backends/vulkan/interval_union.hpp:148-154 | `+` leaves its operands alone and computes `AddedAll` |
| IntervalUnions.CanonicalIsSearchable | src/i_graphics_device/backends/vulkan/interval_union.hpp:135-154 | adding a canonical union to another never searches a range that is not partitioned |
| IntervalUnions.IntervalUnion.Subtract | src/i_graphics_device/backends/vulkan/interval_union.hpp:156-195 | the in-place `-=`, five ways of erasing and inserting, computes `Subtracted` |
| IntervalUnions.IntervalUnion.Minus | src/i_graphics_device/backends/vulkan/interval_union.hpp:204-208 | `-` leaves its operand alone and computes `Subtracted` |
| MeshBuffers.Chosen | src/i_graphics_device/backends/vulkan/render.cpp:45-56 | what the search picks lies at the front of a free piece, large enough, of a listed buffer; it picks nothing only if nothing fits |
| MeshBuffers.ChosenIsLast | src/i_graphics_device/backends/vulkan/render.cpp:45-56 | what the search picks is the front of the first fitting piece of the last listed buffer that has one |
| MeshBuffers.LoadGoesTo | src/i_graphics_device/backends/vulkan/render.cpp:42-129 | a load is refused iff a later step fails, or no listed buffer has room and the device refuses a new one; otherwise the mesh goes there, or to the front of a new buffer of the larger of its own and the configured size |
| MeshBuffers.LoadKeepsSound | src/i_graphics_device/backends/vulkan/render.cpp:42-129 | a load of a mesh with indices never meets undefined behaviour, hands out nothing twice, and leaves exactly the buffers that a mesh uses, all registered, reloads included |
| MeshBuffers.LoadKeepsGood | src/i_graphics_device/backends/vulkan/render.cpp:42-129 | a load of a mesh that is not loaded keeps every book in order |
| MeshBuffers.LoadKeepsGoodIff | src/i_graphics_device/backends/vulkan/render.cpp:126-129 | a load keeps the books iff the identity was not loaded, or no other mesh uses its old buffer and the new space lies in a different one |
| MeshBuffers.OldBufferGoesIff | src/i_graphics_device/backends/vulkan/render.cpp:63-66 | the old buffer of a mesh that is loaded again is destroyed iff no other mesh uses it and the new space lies in a different one |
| MeshBuffers.ReloadExample | src/i_graphics_device/backends/vulkan/render.cpp:126-157 | a mesh loaded twice, whose first index space is lost until the unload destroys the buffer |
| MeshBuffers.HarmlessReloadExample | src/i_graphics_device/backends/vulkan/render.cpp:126-129 | a mesh loaded twice, whose second load goes into a new buffer and destroys the first: nothing is lost |
| MeshBuffers.UnloadKeepsGood | src/i_graphics_device/backends/vulkan/render.cpp:137-159 | an unload keeps every book in order |
| MeshBuffers.WhollyFreeIff | src/i_graphics_device/backends/vulkan/render.cpp:149-151 | in every reachable store the size test of an unload holds iff the mesh is the last one in its buffer and no byte of the buffer is lost |
| MeshBuffers.RunsStaySound | src/i_graphics_device/backends/vulkan/render.cpp:31-159 | over every run of loads and unloads, reloads included: live spaces are disjoint and aligned, no stored element, remnants included, lies inside one, exactly the buffers that a mesh uses exist and are registered, and the next operation is defined |
| MeshBuffers.RunsStayGoodIff | src/i_graphics_device/backends/vulkan/render.cpp:31-159 | ... and free lists and live spaces cover the buffers iff no buffer in use holds a space that a reload has orphaned |
| MeshBuffers.LostIffOrphaned | src/i_graphics_device/backends/vulkan/render.cpp:126-157 | over every run: a byte is neither free nor live iff it was in the space of a mesh when that was loaded again and its buffer has been in use ever since |
| MeshBuffers.NoByteTwice | src/i_graphics_device/backends/vulkan/render.cpp:126-151 | a byte is never free and live at once, nor live in two meshes |
| MeshBuffers.EmptyLoadDefinedIff | src/i_graphics_device/backends/vulkan/render.cpp:126-129 | in every reachable store a load of a mesh without indices that is not refused is undefined iff the piece it is carved from is not empty |
| MeshBuffers.DrawNamesOwnIndices | src/i_graphics_device/backends/vulkan/render.cpp:305-306 | the divisions in the draw command are exact: first index and index count name precisely the mesh's space, inside the buffer |
| MeshBuffers.DrawsDoNotMeet | src/i_graphics_device/backends/vulkan/render.cpp:305-306 | the index ranges of two meshes of one buffer do not meet |
| MeshBuffers.LoadedMeshDrawsAll | src/i_graphics_device/backends/vulkan/render.cpp:42-50 | a loaded mesh is drawn with as many indices as its data has |
| MeshBuffers.IndexBuffers.Search | src/i_graphics_device/backends/vulkan/render.cpp:45-56 | the two nested loops, the outer of which does not stop, compute `Chosen` |
| MeshBuffers.IndexBuffers.LoadMesh | src/i_graphics_device/backends/vulkan/render.cpp:31-134 | the imperative load reaches the state `Load` describes, or changes nothing, wherever that is defined; an overwritten mesh lets go of its buffer |
| MeshBuffers.IndexBuffers.LetGo | src/i_graphics_device/backends/vulkan/render.cpp:63-66 | a mesh lets go of a buffer: the last one takes the buffer and its registration with it, any other changes nothing |
| MeshBuffers.IndexBuffers.UnloadMesh | src/i_graphics_device/backends/vulkan/render.cpp:137-159 | the imperative unload reaches the state `Unload` describes, the buffer destroyed with its last mesh whatever the size test says, or changes nothing |
| DrawGrouping.CountChunks | src/i_graphics_device/backends/vulkan/render.cpp:233-234 | the sizes count the entities of each occurring chunk, and the total counts all |
| DrawGrouping.PlaceChunks | src/i_graphics_device/backends/vulkan/render.cpp:272-277 | in whatever order the map is walked, each chunk begins where the sizes visited before it end |
| DrawGrouping.RangesDisjoint | src/i_graphics_device/backends/vulkan/render.cpp:274-277 | the ranges of two chunks do not meet |
| DrawGrouping.RangesFillBuffer | src/i_graphics_device/backends/vulkan/render.cpp:274-277 | the ranges fill the buffer of `totalSize` slots and stay inside it |
| DrawGrouping.SlotsDistinct | src/i_graphics_device/backends/vulkan/render.cpp:329-334 | no slot is written twice |
| DrawGrouping.EverySlotWritten | src/i_graphics_device/backends/vulkan/render.cpp:329-334 | every slot of `[0, totalSize)` is written, by the entity returned |
| DrawGrouping.PlaceEntities | src/i_graphics_device/backends/vulkan/render.cpp:329-334 | the placement loop with its running counters puts every entity's transform into its slot |
| DrawGrouping.RangeHoldsChunk | src/i_graphics_device/backends/vulkan/render.cpp:308-309 | the range of a draw holds exactly the transforms of the entities of its mesh and target set, in entity order |
| DrawGrouping.CollectDraws | src/i_graphics_device/backends/vulkan/render.cpp:278-283 | in whatever order the map is walked, each target gets one draw per occurrence in each chunk's set, and only targets with draws are entered |
| DrawGrouping.CoveringDraws | src/i_graphics_device/backends/vulkan/render.cpp:278-283 | a slot is drawn for a target as often as the target occurs in the slot's set, by no other chunk's draw |
| DrawGrouping.DrawsWithOwnMesh | src/i_graphics_device/backends/vulkan/render.cpp:278-283 | the draws with the slot's own mesh cover it as often as the target occurs in the slot's set, and no draw with another mesh covers it |
| DrawGrouping.GroupFrame | src/i_graphics_device/backends/vulkan/render.cpp:233-334 | the whole grouping: every entity in its slot; every target draws every entity with the entity's own mesh once per occurrence of the target in its set, never with another mesh, and draws nothing outside the buffer |
| ActionHistories.FirstHandlesRepresent | src/windowing/windowing.cpp:793-804 | the handles kept by the filter loop name distinct entries and every entry of the filter |
| ActionHistories.NeededAgainstReported | src/windowing/windowing.cpp:757-769 | the copy writes at most what the size query reports, and as much iff no entry with a history is named twice |
| ActionHistories.AliasCountsTwice | src/windowing/windowing.cpp:757-769 | a filter of two handles of one entry, for which the query reports every record twice |
| ActionHistories.QueuesLeftIff | src/windowing/windowing.cpp:809-812 | there is an iterator left exactly while records are left to write: the minimum is never taken of an empty map |
| ActionHistories.EarliestExists | src/windowing/windowing.cpp:810-812 | a non-empty map of unexhausted iterators has a minimum |
| ActionHistories.MergeInterleaves | src/windowing/windowing.cpp:809-818 | at every moment what is written of a history followed by what is left of it is the history |
| ActionHistories.MergeIsTimeOrdered | src/windowing/windowing.cpp:809-818 | time-ordered histories are written in time order |
| ActionHistories.CopyHoldsEachHistoryOnce | src/windowing/windowing.cpp:782-819 | for any filter with aliases: each distinct entry's records appear once and in order, under the first handle that names it, and nothing else appears |
| ActionHistories.CopyIsTimeOrdered | src/windowing/windowing.cpp:782-819 | the copy of time-ordered histories is time-ordered |
| ActionHistories.Windowing.GetActionsHistorySize | src/windowing/windowing.cpp:754-769 | fails iff the filter is null, empty or names an unknown action; otherwise the sum over all filters |
| ActionHistories.Windowing.Gather | src/windowing/windowing.cpp:794-807 | the filter loop computes the first handles, their iterators and the record count; the test for a second iterator of one handle never fires |
| ActionHistories.Windowing.Merge | src/windowing/windowing.cpp:809-818 | the merging loop writes a complete merge to the first places of the array and leaves the rest alone |
| ActionHistories.Windowing.CopyActionsHistory | src/windowing/windowing.cpp:782-819 | fails iff the query does, leaving the array alone; otherwise writes a complete merge and nothing beyond it |
| ArgParsers.ParseCommas | src/arg_parser.hpp:562-578 | the loop over the characters computes `Pieces` |
| ArgParsers.SplitUndoesJoinIff | src/arg_parser.hpp:562-578 | splitting a joined list gives the list back iff its items have no commas and the last is not empty |
| ArgParsers.JoinUndoesSplit | src/arg_parser.hpp:562-578 | joining the pieces gives the text back but for one comma at its end |
| ArgParserTheorems.RunShifts | src/arg_parser.hpp:266-317 | inside a bundle the rest means the same as the rest with a dash of its own |
| ArgParserTheorems.Unbundle | src/arg_parser.hpp:266-317 | `-aREST` and `-a -REST` give the same result and state when neither reads as a long flag and `a` takes no value |
| ArgParserTheorems.UnbundleIff | src/arg_parser.hpp:226-317 | they do so for all flag definitions iff neither form reads as a long flag |
| ArgParserTheorems.UnbundleAll | src/arg_parser.hpp:266-317 | a whole bundle means the same as its flags given one by one, the last of which may take a value |
| ArgParserTheorems.ShortSpellingsAgree | src/arg_parser.hpp:271-298 | `-c v` and `-c=v` mean the same for every non-empty value, and so does `-cv` unless the value begins with an equals sign that is not all of it |
| ArgParserTheorems.LongSpellingsAgree | src/arg_parser.hpp:232-246 | `--name v` and `--name=v` mean the same for every non-empty value when both find the flag of that name |
| ArgParserTheorems.RunKeepsCounts | src/arg_parser.hpp:230-317 | over any run: a value flag has counted what it has stored, any other has stored nothing, and no definition changes |
| ArgParserTheorems.LastValueInRangeIff | src/arg_parser.hpp:180-183 | after any run the last value of a flag that is present is in range iff the flag is defined to take values |
| ArgParserTheorems.SwitchReadsOutOfRange | src/arg_parser.hpp:180-183 | a run that makes a flag present and stores no value |
| ArgParserTheorems.RunFillsInOrder | src/arg_parser.hpp:332-338 | every run fills the positionals of every command in order, each full before the next gets a word |
| ArgParserTheorems.FirstParseFillsInOrder | src/arg_parser.hpp:332-347 | a first parse of any arguments leaves every command's positionals filled in order |
| ArgParserReadings.RunReads | src/arg_parser.hpp:216-361 | whatever runs turn by turn ends, from any point on, with what was stored before and what the reading of the remaining arguments says, and with the status of that reading |
| ArgParserReadings.ParseReads | src/arg_parser.hpp:216-361 | over every parse: each flag's storage is what was there followed by the pieces of all values the arguments give to it, in order; its count grows by those and once per occurrence without value; each positional gets its words in order; nothing else changes, and the status says why the reading failed or whether words are lacking |
| ArgParserReadings.UnmetUpIff | src/arg_parser.hpp:349-360 | words are lacking iff some command on the way up the parents has a positional that lacks them |
| ArgParserReadings.ShortFlagStores | src/arg_parser.hpp:271-298 | `-c v` at the first flag of that name stores the pieces of `v` behind what is there, counts them, and changes nothing else |
| ArgParserObjects.ArgParser.Parse | src/arg_parser.hpp:216-361 | the loop with the decremented index terminates (arguments left, then symbols left), computes `Run` on the definitions, and parses right: beyond what the commands held they hold just what the arguments say, with the status that the reading gives |
| ArgParserObjects.ArgParser.VisitShort | src/arg_parser.hpp:266-317 | one visit of a symbol in a bundle is the turn of the specification, the index moved back when the bundle goes on |
| ArgParserObjects.ArgParser.VisitLong | src/arg_parser.hpp:226-264 | one visit of a long flag is the turn of the specification |
| ArgParserObjects.ArgParser.VisitPlain | src/arg_parser.hpp:319-345 | one visit of a subcommand or word is the turn of the specification |
| ArgParserObjects.RequirementsMet | src/arg_parser.hpp:349-360 | the walk up the parents succeeds iff the requirements of the command and of all its ancestors are met |
| ArgParserObjects.ArgParser.DefineSubcommand | src/arg_parser.hpp:198-202 | a new command under its parent keeps the tree and changes no other command |
| ArgParserObjects.ArgParser.DefinePositional | src/arg_parser.hpp:204-208 | a new positional is the last of its command, and nothing else changes |
| ArgParserObjects.ArgParser.DefineFlag | src/arg_parser.hpp:210-214 | a new flag is the last of its command, and nothing else changes |

## Left out

- Threads, condition variables, stop tokens, the clock, logging and thread naming: a thread is the sequence of its locked steps, and the time is an input that does not decrease. The three flags tested at the start of a launch are read in one step; they are only ever set, so separate reads decide alike.
- Job entries and their shared pointers: entries are values in a sequence indexed by creation number, and a handle is such a number. No entry is ever freed, because the source never erases from its job table.
- The body of a job's function: what it does to the scheduler appears as calls interleaved between the thread's steps.
- Capabilities and handle types in the scheduler: a handle is known or unknown, and the capability mask is not kept.
- The choice of `pull` in the protocol: the step takes any due launch of an idle job of the thread's queue; `PullLaunch` takes the earliest, and the theorems hold for all choices.
- SchedulerObjects.Scheduler.ProcessLaunch: of the other threads, only those that hold a mutex move while it waits, the youngest job's first; every other interleaving is covered by the theorems on runs.
- SchedulerObjects.Scheduler.PullLaunch: a queue is a value, copied into a queue object for the scan or the insertion and back; the job counters are copied into an array.
- SchedulerWaits.QueuedWorkProceeds: says that a job can run, not that a fair choice of threads runs it.
- SchedulerDestruction.DestructionBalancesIff: no other thread moves while the launch is worked off. The theorems on runs allow `destroyJob` for jobs without dependencies only.
- The teardown of threads and plugins, and the scheduler's initialisation.
- Interval endpoints as unsigned integers or floats: endpoints are real numbers; the operations only compare and copy them. Aliased operands (`u += u`), and `-=` and `-` with a whole union, whose operand order no caller relies on.
- Widths of counters, sizes and byte offsets: `usage`, `countdown` and the sums of sizes are unbounded, so wrap-around of the 32-bit and 64-bit types is not modelled.
- The vertex buffers of `loadMesh` and `unloadMesh`, which give back the index space instead of the vertex space, so the property does not hold there; all Vulkan calls, memory mapping, descriptor and command buffers.
- Reference counts of buffers: a buffer lives as long as a mesh names it. The reference of a load under way is gone when it returns, and the frames' own list of held buffers is only ever cleared.
- MeshBuffers.IndexBuffers.LoadMesh: a buffer's free list is a value, copied into a union object for the in-place operation and back.
- The draw commands of a target that gets no draws in a frame: the source leaves its commands of the frame before, and the model speaks of the targets of this frame only.
- Entity collection from the scene graph, the packing of matrices, and everything of the frame after the placement loop.
- The events that record action histories: a history is any sequence; time order is a hypothesis where it is needed.
- ActionHistories.Windowing.CopyActionsHistory: demands room for the records it writes, which is at most what the size query reports.
- Argument strings with NUL characters, help texts, error messages, and the conversions of values to booleans and integers.
- The scene graph's sparse storage, tensors, settings, asset store, plugin loading and the forwarding layers.
