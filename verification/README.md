# A verified model of the Cheetah work-stealing runtime

This project models the parts of the OpenCilk runtime whose correctness is least
visible in any one function, and proves what they are for. The table under Model
names the source of each member.

| part | modules | main result |
|---|---|---|
| Closure tree and reducer maps | `ClosureTree`, `ClosureInvariant`, `SerialOrder`, `ClosureProtocol`, `Termination`, `DagOrder`, `DagRuns`, `ReducedMaps`, `SiblingList` | whatever is stolen, and in whatever order children return, the root's map is the list of updates in serial order (`SerialOrder.SerialDeterminism`), and every reducer's view the serial one (`ReducedMaps.SerialViews`); every run ends, and only there (`Termination.EveryRunEnds`); calls and syncs wait for what they must (`DagRuns.UpdatesInOrder`) |
| The deque | `TheProtocol` | every frame pushed is taken exactly once, by the victim or by one thief, in every interleaving of single loads and stores; a thief goes away only if there was none (`TheProtocol.ThiefSaw`) |
| Reducer hypertable | `ProbeOrder`, `ProbeInsert`, `ProbeShift`, `TableCounts`, `TableContents`, `TableState`, `HyperTables`, `MergeTables`, `FullTable` | the table agrees with a map from key to view; the exact conditions under which an insertion sets its key and keeps every key findable, and the policy that guarantees it from capacity 256 on |
| Steal-loop accounting | `WorkerIndex`, `WorkerSleep`, `SampleHistory` | the packed word counts sentinels and disengaged workers exactly in every reachable state, and the average of sentinels is never 0; when a thief wants to disengage is a matter of the latest 32 counts sampled (`SampleHistory.DisengageDecision`) |
| Allocators | `InternalMalloc`, `WholeBatches`, `Allocators`, `FiberPools` | every block and every fiber is in exactly one place; the byte counts balance |
| Pedigrees | `Pedigree`, `PedigreeFrames`, `PedigreeRuns`, `PedigreeOrder`, `SerialPedigrees`, `DrawnNumbers` | the mixing function is a bijection; the number drawn depends on seed and pedigree alone; whatever is stolen, every draw has its pedigree of the serial elision (`SerialPedigrees.DrawsAreSerial`) and its number (`DrawnNumbers.SameDraw`), and no two draws have the same pedigree (`DrawnNumbers.DifferentDraws`) |
| Sorting and matrices | `SortedRuns`, `Quicksort`, `ParallelMerge`, `Cilksort`, `MatMul`, `MatMulLaws` | `cilksort` sorts, `mm_dac` multiplies, and the calls between two syncs do not interfere |

`Options`, `Counting` and `Arithmetic` hold an option type and facts about sizes of
finite sets and about remainders.

## How to read it

Code that updates data in place is a class whose methods are proved against
functions on values: `HyperTables.HyperTable`, `WorkerIndex.IndexMap`,
`PedigreeFrames.Pedigrees`, `Allocators.Allocator`, `FiberPools.Pools`,
`SiblingList.Closure`, and the array algorithms. Protocols between workers are
state machines with one step for each region that a lock protects
(`ClosureTree`), for each load or store (`TheProtocol`), or for each access to
the packed count (`WorkerSleep`); their results speak of all runs, that is, all
interleavings.

The order of a program (`DagOrder.Precedes`) is that of its function instances: what has
been called comes before everything later, what has been spawned before everything after
the next sync.

The pedigree machine follows the closure tree step by step: an update draws a number
or not, a draw, a spawn and a sync raise the rank of the pedigree frame, and the sync
at a function's end is one of its instructions. `holder` and `called` in it are for
the proof.

In the closure tree a function instance is the finite list of its parallel
instructions (update, spawn, call, sync), a hypermap is an element of the free
monoid over updates, and the empty sequence stands for a null map. `ReducedMaps`
reads such a list as the hypertable that it stands for: joining lists is merging
tables for every associative reduction, and a list is empty exactly when its table is.

## Where the code differs from what is said about it

The model follows the code.

- A small table can fill up with entries and tombstones, as a rebuild is due only
  after more than eight insertions and removals
  (runtime/local-hypertable.cpp:39-43). An insertion can then lose a key from
  view: the shift can carry an entry past its own home, and a probe can come back
  to where it started. `FullTable.FullTableLosesKey` gives the history, from a
  full linear table of four keys on. `ProbeShift.ShiftKeepsOrderIff` and
  `ProbeShift.InsertedOrder` give the exact condition, which can be checked before
  the insertion, and one empty slot is enough (`ProbeShift.EmptySlotSuffices`).
  From capacity 256 on the policy always leaves one (`TableCounts.PolicyLeavesRoom`);
  in smaller tables it does as long as tombstones number fewer than a sixteenth of
  the slots (`TableState.Roomy`).
- An insertion of a key that was lost in this way gives it a second bucket, if no
  rebuild comes first: `FullTable.HiddenKeyTwice` goes on with the same history.
  `ProbeShift.InsertionSetsKeyIff` is the exact condition, in any table: the
  insertion sets its key in the map, and nothing else, if and only if the key is
  absent or a lookup finds it.
- `internal_malloc_global_check` (runtime/internal-malloc.cpp:192-198) leaves out
  the pool's `wasted` and the blocks that `cilk_internal_free_global`
  (runtime/internal-malloc.cpp:553-559) frees without a worker. Its global half
  holds if and only if `wasted` is 0, its worker half if and only if no block was
  freed without a worker (`Allocators.Allocator.GlobalCheck`). Both are so in every
  history before the shutdown: blocks move in whole batches, each a multiple of
  4096 bytes, and a chunk is used up exactly. At the shutdown the root closure is
  freed to the global list before the workers end (runtime/init.cpp:763-770), and
  from then on the worker half fails (`Allocators.CheckFailsAtShutdown`). As nothing
  is allocated after that, the global half goes on holding.
- The comment of `binsplit` (handcomp_test/cilksort.cpp:288-291) fails when the range
  starts below `val` and holds it: the place returned is then that of a smaller
  element, as for the range 3, 5 and the value 5 (`ParallelMerge.EqualElementPassed`).
  `ParallelMerge.BinSplit` states that it holds in all other cases and only there,
  and what the merge needs and always gets: at most `val` up to the split, at least
  `val` after it.
- The first copy in `cilkmerge` (handcomp_test/cilksort.cpp:341-345) would copy
  one element too few. It is never reached, as the first range is the larger one
  there and the two are not both empty.
- `recent_sentinel_count` starts at 4 while its ring starts as {1, 0, 0, 0}
  (runtime/efficiency.h:24-27). Samples keep the difference of 3
  (`WorkerSleep.RingStays`), so that after four of them no initial entry is left and
  the running sum is still three more than the ring's
  (`WorkerSleep.FourSamples`). In every reachable state the two are equal if and only
  if a thief has slept long enough for the whole ring to be written at once, with its
  sum (runtime/worker_sleep.cpp:430-434), and else they differ by 3
  (`WorkerSleep.CountsOverRuns`); either way the average is at least 1.

## Model

| member | source | states |
|---|---|---|
| `SerialOrder.SerialDeterminism` | runtime/scheduler.cpp:352-505 | Reducer determinism over every run and every interleaving: the left-to-right flattening of the closure tree always equals the updates in serial order, and when the root finishes its map is exactly that list |
| `SerialOrder.RunKeepsSerial` | runtime/scheduler.cpp:352-505 | From any good state, any run keeps the invariant and the serial reading |
| `SerialOrder.StepKeepsFlat` | runtime/scheduler.cpp:537-593 | No scheduler step other than the finish changes the flattening of the root |
| `SerialOrder.ExecKeepsFlat` | runtime/cilk2c_inlined.cpp:187-206 | An update, a spawn, a call, a return inside user code or a sync that needs no runtime keeps the flattening; an update lands at its own strand's place |
| `SerialOrder.EnterKeepsFlat` | runtime/scheduler.cpp:1209-1231 | Making a closure busy keeps the flattening |
| `SerialOrder.SyncKeepsFlat` | runtime/scheduler.cpp:1120-1198 | A sync, whether it suspends the closure with its map in user_ht or passes and takes child_ht to the left, keeps the flattening |
| `SerialOrder.ReduceKeepsFlat` | runtime/scheduler.cpp:537-593 | Merging left, active and right maps in that order keeps the flattening |
| `SerialOrder.BeginReturnKeepsFlat` | runtime/scheduler.cpp:631-682 | Starting the return of a stolen-from child keeps the flattening |
| `SerialOrder.StealOwnFrameKeepsFlat` | runtime/scheduler.cpp:779-791 | Stealing the closure's own frame keeps the flattening: the victim's map and frames become the right-most child, before the thief's continuation |
| `SerialOrder.StealCalledFrameKeepsFlat` | runtime/scheduler.cpp:792-848 | Stealing a called frame keeps the flattening: the frame becomes the callee of the suspended closure and the victim its child |
| `SerialOrder.CallReturnKeepsFlat` | runtime/scheduler.cpp:242-289 | The return of a called closure to its call parent keeps the flattening |
| `SerialOrder.TakeMapsKeepsFlat` | runtime/scheduler.cpp:390-422 | A returning child that takes the left and the right map for merging keeps the flattening |
| `SerialOrder.DepositKeepsFlat` | runtime/scheduler.cpp:424-485 | Depositing a map in the left sibling's right_ht or the parent's child_ht, and unlinking the child, keeps the flattening |
| `SerialOrder.ProvablyGoodStealKeepsFlat` | runtime/scheduler.cpp:487-500 | Resuming the suspended parent with child_ht left of user_ht keeps the flattening |
| `SerialOrder.ReturnKeepsFlat` | runtime/scheduler.cpp:352-505 | All of Closure_return keeps the flattening |
| `SerialOrder.StepKeepsInv` | runtime/scheduler.cpp:352-505 | Every step of the scheduler keeps the tree, join counter, ownership and busy-closure invariant |
| `SerialOrder.InitOk` | runtime/init.cpp:453-536 | The initial state satisfies the invariant, and its flattening is the serial list of updates |
| `ClosureInvariant.ExecKeepsInv` | runtime/cilk2c_inlined.cpp:187-206 | User code keeps the scheduler invariant |
| `ClosureInvariant.EnterKeepsInv` | runtime/scheduler.cpp:1209-1231 | Making a closure busy keeps the scheduler invariant |
| `ClosureInvariant.SyncKeepsInv` | runtime/scheduler.cpp:1120-1198 | A sync keeps the scheduler invariant; a closure that suspends has something to wait for |
| `ClosureInvariant.ReduceKeepsInv` | runtime/scheduler.cpp:537-593 | Reductions keep the scheduler invariant |
| `ClosureInvariant.BeginReturnKeepsInv` | runtime/scheduler.cpp:631-682 | Starting a return keeps the scheduler invariant |
| `ClosureInvariant.StealOwnFrameKeepsInv` | runtime/scheduler.cpp:850-876 | A steal of the closure's own frame keeps links, counters, owners and busy closures consistent |
| `ClosureInvariant.StealCalledFrameKeepsInv` | runtime/scheduler.cpp:839-876 | A steal of a called frame keeps them consistent, with a new callee and a new child |
| `ClosureInvariant.CallReturnKeepsInv` | runtime/scheduler.cpp:242-289 | The return of a called closure keeps the scheduler invariant |
| `ClosureInvariant.TakeMapsKeepsInv` | runtime/scheduler.cpp:390-422 | Taking maps for merging keeps the scheduler invariant |
| `ClosureInvariant.ProvablyGoodStealKeepsInv` | runtime/scheduler.cpp:291-318 | Resuming a suspended parent without outstanding children restores the invariant |
| `ClosureInvariant.ReturnKeepsInv` | runtime/scheduler.cpp:352-505 | All of Closure_return keeps the scheduler invariant |
| `ClosureInvariant.FinishKeepsInv` | runtime/scheduler.cpp:1243-1249 | The end of the cilkified region keeps the scheduler invariant |
| `ClosureProtocol.ResumedOnce` | runtime/scheduler.cpp:291-321 | A suspended closure has a positive join counter, and a step leaves it suspended or gives it to exactly one worker: the return of its callee if it has one, else the return of its last child. A closure suspended at a call is never taken by a provably good steal |
| `ClosureProtocol.NoneSuspendedAtZero` | runtime/scheduler.cpp:1146-1171 | In every reachable state join_counter is the number of spawned children plus one for a callee; a suspended closure never has join_counter 0 and is nobody's busy closure |
| `ClosureProtocol.SyncWaits` | runtime/scheduler.cpp:1146-1171 | In every reachable state a sync of the closure's own frame is passed, by user code or by Cilk_sync, only with no spawned child outstanding; with one, the closure is suspended, and it is taken up again only when none is left |
| `ClosureProtocol.StealIffDetached` | runtime/scheduler.cpp:987-1035 | In every reachable state an idle worker can steal from another one exactly if that one is in user code with a detached frame above its first, and then takes the oldest frame with a detached frame above it |
| `DagRuns.UpdatesInOrder` | runtime/scheduler.cpp:1120-1198 | In every run of the scheduler an update is done only when every update that the program orders before it is done: what was called has returned, and a sync has waited for all that was spawned before it |
| `DagRuns.StepKeepsDag` | runtime/scheduler.cpp:352-505 | Every step keeps, for each frame, that what comes before its remaining code is done or belongs to what it has spawned or called |
| `DagRuns.RunKeepsDag` | runtime/scheduler.cpp:352-505 | Any interleaving keeps it, and does no updates but those of its steps |
| `DagRuns.StealOwnFrameKeepsDag` | runtime/scheduler.cpp:779-791 | A steal of the closure's own frame splits the stack so that the frame still waits at its sync for what it has spawned |
| `DagRuns.StealCalledFrameKeepsDag` | runtime/scheduler.cpp:792-876 | After the steal of a called frame its caller still waits for it |
| `DagRuns.SuspendKeepsDag` | runtime/scheduler.cpp:1146-1166 | A closure suspended at a sync waits for its spawned children |
| `DagRuns.ReturnKeepsDag` | runtime/scheduler.cpp:352-505 | A child that returns is done with all of its instance; the last one to return lets the suspended frame go on |
| `DagRuns.CallReturnKeepsDag` | runtime/scheduler.cpp:242-289 | A called closure that returns is done with all of its instance |
| `DagOrder.KnownIsOrdered` | runtime/scheduler.cpp:1115-1119 | Code whose updates are told apart can be done in the order of the program: each update after what precedes it, and after a sync all that was spawned |
| `DagOrder.PrecedesInside` | runtime/scheduler.cpp:1115-1119 | The order of a program relates its own updates only |
| `ClosureProtocol.BusyClosureIsRunning` | runtime/scheduler.cpp:987-1035 | In every reachable state of one cilkified region a busy closure is running, owned by its worker, and busy for no other worker: the default branch of Closure_steal is not reached |
| `ClosureProtocol.SetReturnAssertions` | runtime/scheduler.cpp:254-260 | The assertions of __cilkrts_set_return on status, children, maps and parents hold whenever it is reached |
| `ClosureProtocol.ClosureReturnAssertions` | runtime/scheduler.cpp:359-374 | The assertions of Closure_return and provably_good_steal_maybe hold whenever they are reached |
| `ClosureProtocol.HolderCanStep` | runtime/scheduler.cpp:1200-1281 | A worker that holds a closure always enables a step |
| `ClosureProtocol.SomeHolder` | runtime/scheduler.cpp:1200-1281 | Below every closure of the tree there is one that a worker holds |
| `ClosureProtocol.Progress` | runtime/scheduler.cpp:1200-1281 | No run gets stuck before the root finishes |
| `Termination.EveryRunEnds` | runtime/scheduler.cpp:1200-1281 | Total correctness: a run takes at most a number of steps that depends on the code alone, whatever is stolen, and a run cannot go on if and only if the root has finished with the serial result |
| `Termination.RunsAreBounded` | runtime/scheduler.cpp:1200-1281 | The bound on the length of a run |
| `Termination.StepLowers` | runtime/scheduler.cpp:352-505 | Every step of the scheduler lowers a potential of the state |
| `Termination.RunLowers` | runtime/scheduler.cpp:352-505 | A run is no longer than the potential that it uses up |
| `Termination.OwnStepLowers` | runtime/scheduler.cpp:1120-1198 | User code, syncs, reductions and the start of a return lower it; a failed sync leaves enough for the resumption |
| `Termination.SyncStepLowers` | runtime/scheduler.cpp:1120-1198 | A sync lowers it, whether it passes or suspends the closure with all its frames |
| `Termination.StealOwnFrameLowers` | runtime/scheduler.cpp:779-791 | A steal lowers it, as the stolen boundary cannot be stolen again |
| `Termination.StealCalledFrameLowers` | runtime/scheduler.cpp:792-876 | A steal of a called frame lowers it, though it makes two closures |
| `Termination.CallReturnLowers` | runtime/scheduler.cpp:242-289 | The return of a called closure lowers it |
| `Termination.ReturnLowers` | runtime/scheduler.cpp:352-505 | Closure_return lowers it: it uses up a map, or the child, and a provably good steal uses up the sync |
| `SiblingList.Closure.constructor` | runtime/scheduler.cpp:1611-1614 | A new closure has no children and no siblings, and its join counter is 0 |
| `SiblingList.Closure.AddChild` | runtime/scheduler.cpp:1741-1751 | The doubly linked list stays well formed and gets the child at its right end; join_counter follows |
| `SiblingList.Closure.AddCallee` | runtime/scheduler.cpp:1687-1695 | join_counter counts the callee; the list is unchanged |
| `SiblingList.Closure.RemoveCallee` | runtime/scheduler.cpp:1679-1685 | join_counter no longer counts the callee; the list is unchanged |
| `SiblingList.Closure.UnlinkChild` | runtime/scheduler.cpp:1755-1768 | The two siblings are linked to each other and the child's own links are cleared |
| `SiblingList.Closure.CutOut` | runtime/scheduler.cpp:1709-1724 | Unlinking one child relinks its neighbours, moves right_most_child if need be, and touches no other child |
| `SiblingList.Closure.RemoveChild` | runtime/scheduler.cpp:464-485 | The children are the old ones without that child, in the same order, and the list and the join counter agree |
| `SiblingList.Closure.DepositPlace` | runtime/scheduler.cpp:393-401 | The left neighbour along the links is the previous child, or the parent for the first |
| `TheProtocol.StepKeepsPointers` | runtime/scheduler.cpp:701-727 | Every single load or store of the victim or of a thief keeps the relation of head, tail and exc |
| `TheProtocol.StepKeepsTickets` | runtime/scheduler.cpp:701-727 | Every step keeps the account of frames: each pushed frame is claimed, or is in exactly one live slot |
| `TheProtocol.RunKeepsInv` | runtime/scheduler.cpp:701-727 | Any interleaving keeps the invariant |
| `TheProtocol.ReachableInv` | runtime/scheduler.cpp:140-157 | Every state reachable from an empty deque satisfies the invariant |
| `TheProtocol.ClaimsAreFinal` | runtime/cilk2c_inlined.cpp:314-331 | A claim is never changed, and a step adds at most one claim, of a frame that had none |
| `TheProtocol.ClaimsAreFinalOverRuns` | runtime/cilk2c_inlined.cpp:314-331 | Over any run no frame that was claimed is claimed again |
| `TheProtocol.EveryFrameClaimedOrLive` | runtime/cilk2c_inlined.cpp:199-206 | Every frame pushed is either claimed or in a live slot, never both; once the victim leaves the deque all are claimed |
| `TheProtocol.ExcIsHeadWhenFree` | runtime/scheduler.cpp:94-124 | With the busy lock free, exc equals head |
| `TheProtocol.ReservedSlot` | runtime/scheduler.cpp:719-726 | Between a thief's successful test and its store of head, the slot at head is neither popped nor overwritten, and only that thief takes its frame |
| `TheProtocol.LostOnlyToThief` | runtime/scheduler.cpp:653-674 | When the handler sees head > tail, every frame ever pushed has been claimed, so nothing is lost by going back to the scheduler |
| `TheProtocol.StealSucceeds` | runtime/scheduler.cpp:701-727 | A thief that meets no other step takes the frame at head if head < tail: every step is enabled after the one before, head and exc end one higher, the frame is claimed for it, and the lock is free |
| `TheProtocol.ThiefSaw` | runtime/scheduler.cpp:719-726 | In every interleaving a thief goes away after its test only if head >= tail when it loaded tail, and otherwise the frame that it saw is still there for it |
| `TheProtocol.TestDecides` | runtime/scheduler.cpp:719-726 | The load of tail alone decides the test, and no step but the thief's changes what follows |
| `TheProtocol.PopSucceeds` | runtime/cilk2c_inlined.cpp:314-331 | With exc below tail the victim takes its youngest frame without the lock, whatever thief has it |
| `TheProtocol.SlowPathDecides` | runtime/cilk2c_inlined.cpp:314-331 | The victim goes to the handler only if head has gone past tail, or a thief that is in its test is after the same frame |
| `TheProtocol.HandlerDecides` | runtime/scheduler.cpp:653-674 | Under the lock the victim gets its frame back exactly if head <= tail |
| `TheProtocol.LockHolderCanStep` | runtime/scheduler.cpp:701-727 | Whoever has the busy lock can go on |
| `TheProtocol.VictimCanStep` | runtime/scheduler.cpp:631-682 | The victim can always go on, unless it waits for a lock that a thief has |
| `ProbeOrder.ContinueProbeComparesDistances` | runtime/local-hypertable.h:205-208 | The unsigned comparison compares circular distances from target and from home, in all four cases of wrapping |
| `ProbeOrder.ProbeFails` | runtime/local-hypertable.cpp:118-142 | Under the probe invariant, a probe that stops at an empty slot, at a later-homed entry or after the whole table has shown the key absent |
| `ProbeOrder.LookupIff` | runtime/local-hypertable.cpp:103-143 | Under the probe invariant lookup returns nothing exactly for keys outside the map, and otherwise the bucket with the key's data |
| `ProbeOrder.OrderedIffFound` | runtime/local-hypertable.cpp:103-143 | The probe invariant holds if and only if every key in the table is found at its own slot |
| `ProbeOrder.TombEnd` | runtime/local-hypertable.cpp:266-272 | The scan over consecutive tombstones ends at the first slot that is not one |
| `ProbeOrder.Hole` | runtime/local-hypertable.cpp:319-336 | The shift ends at the first slot without an entry |
| `ProbeOrder.ProbeOutcome` | runtime/local-hypertable.cpp:246-314 | The probe of an insertion ends at the bucket of the key, at a place where it may be put, or at an entry that it must displace, and in the last two cases the key is not in the table |
| `ProbeInsert.AddsContents` | runtime/local-hypertable.cpp:319-336 | A table that has one bucket more, the others anywhere, represents the map with one key more |
| `ProbeInsert.OverwriteContents` | runtime/local-hypertable.cpp:250-253 | Overwriting the data of a bucket keeps the probe invariant and updates that key only |
| `ProbeInsert.PlaceKeepsOrder` | runtime/local-hypertable.cpp:255-294 | Putting the bucket into the empty slot or tombstone that the probe chose keeps the probe invariant, wherever the run of tombstones ends |
| `ProbeInsert.ShiftHashed` | runtime/local-hypertable.cpp:319-336 | After a shift every entry still carries its home slot |
| `ProbeInsert.ShiftUnique` | runtime/local-hypertable.cpp:319-336 | A shift does not duplicate keys |
| `ProbeInsert.ShiftAdds` | runtime/local-hypertable.cpp:319-336 | A shift keeps all entries and adds the new one |
| `ProbeShift.SafeShiftKeepsOrder` | runtime/local-hypertable.cpp:316-336 | A shift that moves no entry from the slot just before its home, and does not follow a probe that came round to an entry away from home, keeps the probe invariant |
| `ProbeShift.PastHomeBreaksOrder` | runtime/local-hypertable.cpp:316-336 | A shift that moves an entry past its own home breaks the probe invariant |
| `ProbeShift.WrapBreaksOrder` | runtime/local-hypertable.cpp:314-336 | A shift after a probe that went all the way round, to an entry that is not at home, breaks the probe invariant |
| `ProbeShift.ShiftKeepsOrderIff` | runtime/local-hypertable.cpp:316-336 | The exact condition: a shift keeps the probe invariant if and only if it is safe |
| `ProbeShift.ProbeFindsAsLookup` | runtime/local-hypertable.cpp:242-314 | In any table, with the probe invariant or without, the probe of an insertion finds the key exactly when a lookup does |
| `ProbeShift.VisibleInsertion` | runtime/local-hypertable.cpp:230-340 | If the key is absent or found, hash-mode insertion represents m[key := data], with the probe invariant or without |
| `ProbeShift.HiddenInsertion` | runtime/local-hypertable.cpp:230-340 | A key that is in the table without being found gets a second bucket |
| `ProbeShift.InsertionSetsKeyIff` | runtime/local-hypertable.cpp:230-340 | The exact condition: hash-mode insertion represents m[key := data] if and only if the key is absent or found |
| `ProbeShift.InsertedOrder` | runtime/local-hypertable.cpp:230-340 | Hash-mode insertion keeps the probe invariant if and only if it is safe |
| `ProbeShift.EmptySlotSuffices` | runtime/local-hypertable.cpp:230-340 | With one empty slot anywhere in the table every insertion is safe |
| `TableCounts.PolicyLeavesRoom` | runtime/local-hypertable.cpp:24-43 | At capacity 256 and above, tombstones and entries together leave an empty slot until a rebuild is due |
| `TableCounts.LoadThresholds` | runtime/local-hypertable.cpp:20-43 | Overloaded is above 15/16 of the capacity, underloaded at most 7/16 of a capacity above 4, a rebuild is due after more than 8 updates and more than a 64th of the capacity, and up to MAX_CAPACITY the load fits into 32 bits |
| `TableCounts.UnderloadedFits` | runtime/local-hypertable.cpp:30-35 | An underloaded table is not overloaded at half its capacity |
| `TableCounts.InsertedCounts` | runtime/local-hypertable.cpp:230-336 | An insertion adds one entry for a new key and none for an old one, fills at most that many slots, and makes no tombstones |
| `TableCounts.EntriesAreKeys` | runtime/local-hypertable.cpp:94-95 | The number of entries is the size of the map |
| `TableContents.SwapOut` | runtime/local-hypertable.cpp:151-164 | Removal from a linear table by swap with the last bucket takes out exactly that key |
| `TableContents.BuryEntry` | runtime/local-hypertable.cpp:175-179 | Turning an entry into a tombstone keeps the probe invariant and takes out exactly that key |
| `TableContents.GravesSize` | runtime/local-hypertable.cpp:50-60 | A new table of n slots has n / 33 tombstones |
| `TableContents.FreshTable` | runtime/local-hypertable.cpp:45-62 | A new table with its tombstones satisfies the probe invariant and represents the empty map |
| `TableState.OccupancyIsSize` | runtime/local-hypertable.cpp:94-95 | In both modes occupancy is the size of the map |
| `TableState.RoomyHasEmpty` | runtime/local-hypertable.cpp:220-228 | When no rebuild is due, a table of capacity 256 or more, or one with few tombstones, has an empty slot |
| `TableState.RoomyStaysSound` | runtime/local-hypertable.cpp:230-336 | Insertion into such a table is safe |
| `TableState.HashInsertion` | runtime/local-hypertable.cpp:230-336 | The whole effect of a hash-mode insertion of a key that is absent or found: counters, map, and, where the probe invariant holds, that it is kept if and only if the insertion is safe |
| `TableState.BuriedOk` | runtime/local-hypertable.cpp:175-179 | Removal in hash mode keeps the counters and the probe invariant |
| `HyperTables.HyperTable.constructor` | runtime/local-hypertable.cpp:64-66 | A new hypertable is linear, of capacity MIN_CAPACITY, and represents the empty map |
| `HyperTables.HyperTable.BucketArrayCreate` | runtime/local-hypertable.cpp:45-62 | The loop creates empty slots, with every 33rd a tombstone in hash mode |
| `HyperTables.HyperTable.FindLinear` | runtime/local-hypertable.h:210-225 | The backward scan finds the key if and only if it is among the buckets in use |
| `HyperTables.HyperTable.FindHash` | runtime/local-hypertable.cpp:103-143 | The probing loop computes the lookup specified in ProbeOrder |
| `HyperTables.HyperTable.Find` | runtime/local-hypertable.h:229-238 | A bucket that Find returns holds the key's data in the map, and it fails exactly for keys that are not in the map or are hidden; under the probe invariant no key is hidden |
| `HyperTables.HyperTable.ScanTombstones` | runtime/local-hypertable.cpp:263-272 | The inner loop stops after the run of tombstones, or back at the probe's start |
| `HyperTables.HyperTable.Continues` | runtime/local-hypertable.h:205-208 | The test on the bucket array compares distances |
| `HyperTables.HyperTable.FindPlace` | runtime/local-hypertable.cpp:242-314 | The outer loop ends where the specified probe ends |
| `HyperTables.HyperTable.ShiftUp` | runtime/local-hypertable.cpp:316-336 | The swap loop computes the specified shift in place |
| `HyperTables.HyperTable.InsertLinear` | runtime/local-hypertable.cpp:193-210 | Linear insertion yields m[key := data] |
| `HyperTables.HyperTable.Put` | runtime/local-hypertable.cpp:230-340 | The three ways to store the bucket yield the specified table |
| `HyperTables.HyperTable.InsertHash` | runtime/local-hypertable.cpp:230-340 | Hash-mode insertion of a key that is absent or found yields m[key := data]; every key stays findable if and only if the insertion is safe |
| `HyperTables.HyperTable.Rebuild` | runtime/local-hypertable.cpp:70-98 | A rebuild keeps map and occupancy exactly, ends with ins_rm_count 0 in hash mode, and makes every key findable; the recursion between insert and rebuild terminates |
| `HyperTables.HyperTable.Refill` | runtime/local-hypertable.cpp:84-92 | The loop over the old buckets puts the old map into the new array, and no nested insertion rebuilds: the array is the same at the end |
| `HyperTables.HyperTable.Double` | runtime/local-hypertable.cpp:212-225 | Doubling a full or overloaded table keeps the map and leaves no rebuild due |
| `HyperTables.HyperTable.MakeRoom` | runtime/local-hypertable.cpp:212-228 | After the rebuild decision no rebuild is due, the table is in hash mode, and the map is unchanged; every key can be found if that was so or if a rebuild was due, and only then |
| `HyperTables.HyperTable.Insert` | runtime/local-hypertable.cpp:190-340 | Insertion of a key that is absent or found, or before which a rebuild is due, yields m[key := data] and returns true; all keys stay findable if and only if a rebuild preceded it, the table is linear, or the insertion is safe; a table with room to spare stays so |
| `HyperTables.HyperTable.Store` | runtime/local-hypertable.cpp:443-448 | Replacing a bucket's data updates that key only, and keeps findable keys findable |
| `HyperTables.HyperTable.TakeLast` | runtime/local-hypertable.cpp:153-161 | The swap with the last bucket takes out exactly the removed one |
| `HyperTables.HyperTable.RemoveLinear` | runtime/local-hypertable.cpp:146-166 | Linear removal yields m - {key} and says whether the key was there |
| `HyperTables.HyperTable.Bury` | runtime/local-hypertable.cpp:175-179 | A tombstone takes the place of the removed entry, and keeps findable keys findable |
| `HyperTables.HyperTable.Tidy` | runtime/local-hypertable.cpp:181-185 | The shrinking or cleaning rebuild after a removal keeps the map; it halves the capacity exactly when the table is underloaded |
| `HyperTables.HyperTable.RemoveHash` | runtime/local-hypertable.cpp:168-187 | Hash-mode removal takes out the key that it finds and no other, and finds it exactly when it is in the map and not hidden; findable keys stay findable |
| `HyperTables.HyperTable.Remove` | runtime/local-hypertable.cpp:145-188 | The same in both modes: the result is m - {key} if the key is not hidden, and the return value says whether the key was there and not hidden |
| `MergeTables.MergedAssociative` | runtime/local-hypertable.cpp:460-480 | With an associative reduce, merging hypermaps is associative |
| `MergeTables.MergedIdentity` | runtime/local-hypertable.cpp:393-406 | The empty hypermap is the identity of merging on both sides |
| `MergeTables.FoldStep` | runtime/local-hypertable.cpp:426-452 | One source key more changes exactly that key of the result |
| `MergeTables.MergeBucket` | runtime/local-hypertable.cpp:433-451 | A key in both tables gets left then right, whichever table is the destination; another is inserted, and every key stays findable if and only if that insertion is safe. It asks of the destination only that the bucket's key is absent or found |
| `MergeTables.MergeEntries` | runtime/local-hypertable.cpp:422-452 | The loop over the source buckets merges their whole map |
| `MergeTables.MergeInto` | runtime/local-hypertable.cpp:422-457 | The whole source map is merged into the destination |
| `MergeTables.MergeTwo` | runtime/local-hypertable.cpp:391-458 | The result represents the left-before-right merge of both maps, for null and empty tables too |
| `ReducedMaps.ViewOf` | runtime/local-hypertable.cpp:426-452 | A strand's hypermap has, for each reducer that it updated, the views of its updates reduced from left to right |
| `ReducedMaps.EmptyViews` | runtime/scheduler.cpp:390-422 | The map of a strand is empty exactly when the strand has updated nothing |
| `ReducedMaps.JoinMerges` | runtime/local-hypertable.cpp:391-458 | With an associative reduction, the hypermap of two strands' updates in a row is the left one merged with the right one |
| `ReducedMaps.ReductionsMerge` | runtime/scheduler.cpp:537-593 | The reductions of a worker merge the left map, its own and the right map, in this order |
| `ReducedMaps.SerialViews` | runtime/scheduler.cpp:352-505 | In every run that finishes, every reducer's final view is the one of the serial elision: the views of its updates reduced in serial order |
| `FullTable.FullTableLosesKey` | runtime/local-hypertable.cpp:246-336 | A history that the policy lets through, from a full linear table of four keys on: after its last insertion, which is not safe, a key is in the map and is not found |
| `FullTable.HiddenKeyTwice` | runtime/local-hypertable.cpp:230-340 | One removal later no rebuild is due, and an insertion of the hidden key gives it a second bucket |
| `FullTable.BrokenReached` | runtime/local-hypertable.cpp:145-340 | Every operation of that history is a step of the table with its counters and its rebuilds: the doubling from capacity 4 to 8, and the one due after more than eight insertions and removals |
| `FullTable.RefilledFills` | runtime/local-hypertable.cpp:82-92 | A rebuild that meets keys with home 5 only puts them into consecutive slots from 5 on, in the order of the old buckets |
| `FullTable.FilledOk` | runtime/local-hypertable.cpp:82-92 | After such a rebuild and further insertions the table is a valid one, with its occupancy and ins_rm_count |
| `FullTable.BrokenOk` | runtime/local-hypertable.cpp:316-336 | The last tables are valid but for the probe invariant, which does not hold |
| `WorkerIndex.UnpackReengage` | runtime/global.h:104-106 | Adding the packed pair (-1, 1) moves one worker from disengaged to sentinel |
| `WorkerIndex.UnpackDisengaged` | runtime/global.h:149-152 | Adding to the upper half changes only the upper count |
| `WorkerIndex.UnpackSentinels` | runtime/global.h:153-156 | Adding to the lower half changes only the lower count |
| `WorkerIndex.IndexMap.constructor` | runtime/init.cpp:80-85 | The initial index maps are inverse and nobody is disengaged |
| `WorkerIndex.IndexMap.SwapWorkerWithTarget` | runtime/global.cpp:365-377 | The two maps stay inverse permutations, and only the two workers change places |
| `WorkerIndex.IndexMap.MoveOut` | runtime/global.cpp:384-387 | The worker joins the disengaged ones at the end of the index |
| `WorkerIndex.IndexMap.MoveIn` | runtime/global.cpp:397-400 | The worker joins the engaged ones at the front of the index |
| `WorkerIndex.IndexMap.OtherWorkers` | runtime/global.h:153-156 | Workers without the lock change the sentinel half only |
| `WorkerIndex.IndexMap.DisengageWorker` | runtime/global.cpp:379-390 | The places from nworkers - disengaged on hold exactly the disengaged workers, now with this one, whatever other workers do to the sentinel count meanwhile |
| `WorkerIndex.IndexMap.ReengageWorker` | runtime/global.cpp:392-403 | The same without this worker |
| `WorkerIndex.IndexMap.TryToDisengage` | runtime/worker_sleep.cpp:69-101 | The attempt succeeds if and only if the lock is free and the packed word is still the one read; then the thief is disengaged and no longer a sentinel, else nothing changes |
| `WorkerIndex.IndexMap.ReengageThief` | runtime/worker_sleep.cpp:106-120 | A woken thief is engaged and a sentinel again |
| `WorkerIndex.IndexMap.StealableAreEngaged` | runtime/scheduler.cpp:1405-1441 | The indices below nworkers - disengaged reach exactly the engaged workers |
| `WorkerSleep.CountsOverRuns` | runtime/worker_sleep.cpp:176-483 | In every reachable state the packed halves count sentinels and disengaged workers exactly, together at most nworkers, at least one worker is engaged, avg_sentinels is never 0, the running sum of sentinels equals the ring's sum if and only if a settle has written the whole ring, and is three more otherwise, and fails below the threshold implies empty histories |
| `WorkerSleep.StepKeepsInv` | runtime/worker_sleep.cpp:176-483 | Every step of the steal loop's accounting keeps the invariant |
| `WorkerSleep.NoBorrow` | runtime/global.h:149-156 | No atomic addition borrows from the upper half or carries into it |
| `WorkerSleep.CountsFit` | runtime/worker_sleep.cpp:135-137 | The assertions of get_worker_counts: the two counts fit beside each other |
| `WorkerSleep.RingStays` | runtime/worker_sleep.cpp:214-221 | As the ring of counts is overwritten, the running sum keeps its distance from the ring's sum, 3 before the whole ring was first written at once and 0 after it, and stays at least SENTINEL_COUNT_HISTORY |
| `WorkerSleep.FourSamples` | runtime/efficiency.h:24-27 | After four samples of one sentinel the ring is {1, 1, 1, 1} and the running sum is 7 |
| `WorkerSleep.OneSampleIsNotEnough` | runtime/worker_sleep.cpp:403-404 | A history of nothing but zeros has at most one sample set after one more, too few to disengage |
| `WorkerSleep.Reengaged` | runtime/worker_sleep.cpp:199-279 | The division by the average of sentinels is defined, and the worker's counters stay good |
| `WorkerSleep.RequestShares` | runtime/worker_sleep.cpp:241-247 | The request divides the surplus of efficient samples by the average of sentinels, rounded up for some of them |
| `WorkerSleep.EnoughAreAsked` | runtime/worker_sleep.cpp:255-265 | Without a sentinel left and with nobody asked for, the request is raised to a quarter of the active workers, rounded up, less what is pending |
| `WorkerSleep.ScaledElapsedIs` | runtime/worker_sleep.cpp:162-172 | The elapsed time is counted in whole batches of 4 failed steals, 512 time units each failed steal |
| `WorkerSleep.EnterKeepsInv` | runtime/worker_sleep.cpp:536-552 | init_fails counts a worker that starts as a sentinel |
| `WorkerSleep.FailStealKeepsInv` | runtime/worker_sleep.cpp:340-357 | A failed steal counts the worker as sentinel exactly when it reaches the threshold |
| `WorkerSleep.SampleKeepsInv` | runtime/worker_sleep.cpp:359-404 | Taking samples keeps the counts and the histories in order |
| `SampleHistory.DisengageDecision` | runtime/worker_sleep.cpp:375-404 | Over every run: a sample makes a thief want to disengage exactly if it is not worker 0, there are at least one active worker, more than one sentinel and more than twice as many sentinels as active workers, and among the latest 32 samples those that were so exceed by more than 24 those with at least twice as many active workers as sentinels or at most one sentinel |
| `SampleHistory.LookDecision` | runtime/worker_sleep.cpp:292-314 | It then tries exactly if that is still so |
| `SampleHistory.RequestDecision` | runtime/worker_sleep.cpp:199-251 | Over every run: a sentinel that finds work asks for thieves on account of its history exactly if the difference is 24 or more the other way, and then for its share of it |
| `SampleHistory.StepRemembers` | runtime/worker_sleep.cpp:176-483 | Every step keeps the bits of all workers the same as the traces of the counts that they sampled, shifted by samples and by time asleep, and cleared where the source clears them |
| `SampleHistory.RunIsRecorded` | runtime/worker_sleep.cpp:176-483 | Every run leaves such traces, so the statements leave no run out |
| `WorkerSleep.SampleEvery32` | runtime/worker_sleep.cpp:340-357 | A thief counts four failed steals in each turn and samples after every 32 turns; after the first 32 it is counted as a sentinel |
| `WorkerSleep.EnterDecision` | runtime/worker_sleep.cpp:536-552 | A worker enters the loop as a sentinel exactly if the value that woke it is at most half the number of workers |
| `WorkerSleep.TryDecision` | runtime/worker_sleep.cpp:69-101 | A try disengages the thief exactly if it has the lock and the packed count is the one it saw |
| `WorkerSleep.WorkDecision` | runtime/scheduler.cpp:1526-1542 | Work takes off the fail count what its time is worth, down to 0, and all of a count of at most 8 |
| `WorkerSleep.SettleDecision` | runtime/worker_sleep.cpp:443-450 | After less than 128 failed steals' worth of sleep the count goes down by that, and else starts at 23 * 128 |
| `WorkerSleep.LookKeepsInv` | runtime/worker_sleep.cpp:292-314 | Deciding to try to disengage keeps the invariant |
| `WorkerSleep.TryKeepsInv` | runtime/worker_sleep.cpp:69-125 | The compare-and-exchange moves the worker between the two counts, or changes nothing |
| `WorkerSleep.SettleKeepsInv` | runtime/worker_sleep.cpp:409-450 | A thief that wakes up is a sentinel with good histories |
| `WorkerSleep.GetWorkKeepsInv` | runtime/worker_sleep.cpp:190-279 | A sentinel that finds work is counted out and capped at the threshold |
| `WorkerSleep.WorkDoneKeepsInv` | runtime/scheduler.cpp:1526-1542 | After its work a worker is counted in again exactly when its fail count is still at the threshold |
| `WorkerSleep.LeaveKeepsInv` | runtime/worker_sleep.cpp:555-561 | A sentinel that leaves the loop is counted out |
| `WorkerSleep.RunExtends` | runtime/worker_sleep.cpp:176-483 | Every enabled step extends a run, so the run relation leaves none out |
| `WorkerSleep.RunKeepsInv` | runtime/worker_sleep.cpp:176-483 | Any interleaving keeps the invariant |
| `Pedigree.Mix` | runtime/pedigree-internal.h:42-48 | The loop computes four rounds |
| `Pedigree.SquareSteps` | runtime/pedigree-internal.h:44 | x(2x+1) on 64-bit words by its first value and its differences: 0 at 0, and 4x + 3 more from x to x + 1 |
| `Pedigree.SwappedHalves` | runtime/pedigree-internal.h:38-40 | The upper half of the word becomes the lower one, and the lower the upper |
| `Pedigree.RoundIs` | runtime/pedigree-internal.h:42-48 | After each round the word with its halves swapped back is x(2x+1) modulo 2^64 of the one before |
| `Pedigree.MixedOne` | runtime/pedigree-internal.h:42-48 | The word 1 is mixed into 21, by way of 3 * 2^32, 3 and 21 * 2^32 |
| `Pedigree.SquareInjective` | runtime/pedigree-internal.h:44 | x(2x+1) mod 2^64 is injective on 64-bit words |
| `Pedigree.SwapInvolution` | runtime/pedigree-internal.h:38-40 | Swapping halves twice gives the word back |
| `Pedigree.RoundsInjective` | runtime/pedigree-internal.h:42-48 | Any number of rounds is injective |
| `Pedigree.MixBijective` | runtime/pedigree-internal.h:42-48 | The mixing function is a bijection on 64-bit words |
| `Pedigree.OddCancels` | runtime/pedigree-internal.h:44 | An odd factor does not matter to divisibility by a power of two |
| `Pedigree.MixModP` | runtime/pedigree-internal.h:50-53 | One conditional subtraction reduces the mixed word modulo 2^64 - 59 |
| `Pedigree.SumModP` | runtime/pedigree-internal.h:55-61 | The sum with its wrap-around at 2^64 is exactly (a + b) mod p |
| `PedigreeFrames.InitDprng` | runtime/pedigree_lib.cpp:28-42 | The table of weights is filled from the seed, all entries below p |
| `PedigreeFrames.BumpDot` | runtime/pedigree-internal.h:65-71 | One more at the last rank adds the weight of its depth to the dot product |
| `PedigreeFrames.SpawnDot` | runtime/pedigree_ext.cpp:24-29 | A child's first rank adds the weight of its depth |
| `PedigreeFrames.AncestryIsChain` | runtime/pedigree_ext.cpp:17-20 | Walking the pedigree links gives the ranks along the frame's pedigree |
| `PedigreeFrames.Pedigrees.constructor` | runtime/pedigree_lib.cpp:45-49 | The root frame's dot product is X |
| `PedigreeFrames.Pedigrees.ExtendSpawn` | runtime/pedigree_ext.cpp:5-36 | Parent and child both keep their dot product equal to X plus the weighted ranks of their pedigree |
| `PedigreeFrames.Pedigrees.ExtendReturnFromSpawn` | runtime/cilk2c_inlined.cpp:308-311 | The child's frame is freed; the worker goes on with the parent's frame, which is still there, every other frame unchanged |
| `PedigreeFrames.Pedigrees.BumpWorkerRank` | runtime/pedigree-internal.h:65-71 | A bump adds one to the rank and keeps the dot products of all frames right |
| `PedigreeFrames.Pedigrees.ExtendSync` | runtime/pedigree_ext.cpp:45-51 | A sync adds one to the rank and keeps the dot products of all frames right |
| `PedigreeFrames.Pedigrees.GetDprand` | runtime/pedigree_lib.cpp:78-81 | The number drawn is a function of seed and pedigree alone |
| `SerialPedigrees.DrawsAreSerial` | runtime/cilk2c_inlined.cpp:208-246 | Over every run and every interleaving, each draw reads through its worker's extension pointer the pedigree that it has in the serial elision; a sync counts once whether or not the frame was stolen |
| `SerialPedigrees.ExtensionIsOwn` | runtime/scheduler.cpp:202-210 | In every reachable state a worker in user code has the extension kept in the frame that it runs, if there is one, and no other worker in user code has it |
| `DrawnNumbers.Draw` | runtime/pedigree_lib.cpp:78-81 | A draw returns the mixed dot product of the pedigree that it has in the serial elision, whatever has been stolen |
| `DrawnNumbers.SameDraw` | runtime/pedigree_lib.cpp:78-81 | Any two runs of the same code draw for the same update at the same pedigree, and so the same number |
| `DrawnNumbers.DifferentDraws` | runtime/pedigree_lib.cpp:78-81 | Different updates draw at different pedigrees, in one run or in two, whatever has been stolen in them |
| `PedigreeOrder.SerialPedigreesIncrease` | runtime/pedigree_ext.cpp:5-51 | In the serial elision the pedigrees of the draws increase lexicographically, so no two draws have the same one |
| `PedigreeOrder.RankCounts` | runtime/pedigree_ext.cpp:5-51 | The rank of a pedigree frame counts the spawns, the syncs and the draws on it, with those of the functions called, each once |
| `PedigreeOrder.DrawAfter` | runtime/pedigree_ext.cpp:5-51 | A draw reads the spawn ranks of its frame and, last, the count of what came before it on the frame, with itself |
| `SerialPedigrees.StepKeepsExt` | runtime/scheduler.cpp:1058-1090 | Every step of the scheduler keeps the pointers and ranks on the serial pedigrees |
| `SerialPedigrees.RunKeepsExt` | runtime/scheduler.cpp:1058-1090 | Any interleaving keeps them |
| `SerialPedigrees.RunIsFollowed` | runtime/scheduler.cpp:1058-1090 | Every run of the scheduler has its pointers and pedigree frames, so the statements leave no run out |
| `SerialPedigrees.ExecKeepsExt` | runtime/cilk2c_inlined.cpp:186-206 | Spawns, calls, syncs, draws and returns of user code keep them |
| `SerialPedigrees.StealKeepsExt` | runtime/scheduler.cpp:779-848 | A steal keeps them: the thief gets the pointer kept in the stolen frame, and the victim keeps its own |
| `SerialPedigrees.EnterKeepsExt` | runtime/scheduler.cpp:1085-1088 | A thief's load of the extension keeps them |
| `SerialPedigrees.PassKeepsExt` | runtime/scheduler.cpp:202-210 | The reload at a sync that passes keeps them |
| `SerialPedigrees.SuspendKeepsExt` | runtime/scheduler.cpp:1146-1166 | A sync that suspends leaves pointer and rank for whoever resumes |
| `SerialPedigrees.ReduceKeepsExt` | runtime/cilk2c_inlined.cpp:213-225 | After the reductions the sync counts, once |
| `SerialPedigrees.BeginReturnKeepsExt` | runtime/cilk2c_inlined.cpp:308-311 | The return to a stolen parent keeps them |
| `SerialPedigrees.ReturnKeepsExt` | runtime/scheduler.cpp:487-500 | A return keeps them, and a provably good steal reloads the suspended frame's extension |
| `SerialPedigrees.AtCallReturn` | runtime/scheduler.cpp:242-289 | When a called closure returns, its worker's extension has the rank that the serial elision has after the call |
| `SerialPedigrees.CallReturnKeepsExt` | runtime/scheduler.cpp:242-289 | The call parent goes on with the worker's extension |
| `PedigreeRuns.LabelledIff` | runtime/pedigree_ext.cpp:5-51 | The labelling that the invariant carries is right exactly when it gives each draw of the serial elision its pedigree |
| `PedigreeRuns.SerialLabelsAreRight` | runtime/pedigree_ext.cpp:5-51 | Code whose updates are told apart has such a labelling, by which each of them draws |
| `PedigreeRuns.StackSplit` | runtime/cilk2c_inlined.cpp:194-196 | Cutting a stack below a spawned frame gives two strands on different pedigree frames |
| `SortedRuns.MergeSorted` | handcomp_test/cilksort.cpp:204-276 | The merge of sorted sequences is sorted |
| `SortedRuns.MergeMultiset` | handcomp_test/cilksort.cpp:204-276 | The merge has the elements of both, with multiplicity |
| `SortedRuns.SortedUnique` | handcomp_test/cilksort.cpp:402-467 | A sorted sequence is determined by its elements |
| `SortedRuns.WritesCommute` | handcomp_test/cilksort.cpp:373-377 | Writes to disjoint intervals commute |
| `Quicksort.Med3` | handcomp_test/cilksort.cpp:98-119 | The result is a median of the three |
| `Quicksort.ScanDown` | handcomp_test/cilksort.cpp:140-141 | The scan stops inside the range at the last element that is not above the pivot |
| `Quicksort.ScanUp` | handcomp_test/cilksort.cpp:143-144 | The scan stops inside the range at the first element that is not below the pivot |
| `Quicksort.SeqPart` | handcomp_test/cilksort.cpp:130-165 | The partition permutes the range, stays inside it, and returns low <= p < high with everything up to p at most everything after it |
| `Quicksort.InsertDown` | handcomp_test/cilksort.cpp:181-184 | The inner loop sorts one element more into the sorted prefix |
| `Quicksort.InsertionSort` | handcomp_test/cilksort.cpp:175-186 | Insertion sort sorts exactly the range |
| `Quicksort.SeqQuick` | handcomp_test/cilksort.cpp:191-202 | Quicksort terminates and sorts exactly the range, for every size |
| `ParallelMerge.MergeSplits` | handcomp_test/cilksort.cpp:356-371 | Splitting around a pivot element: the merge is the merge of the lower parts, the pivot, and the merge of the upper parts |
| `ParallelMerge.MergeCommutes` | handcomp_test/cilksort.cpp:336-339 | Exchanging the two ranges does not change the merge |
| `ParallelMerge.MergeOne` | handcomp_test/cilksort.cpp:239-250 | One turn of either merging loop writes the next element of the merge |
| `ParallelMerge.MergeUntil` | handcomp_test/cilksort.cpp:235-270 | Both loops write a prefix of the merge until one range reaches its stop |
| `ParallelMerge.CopyRest` | handcomp_test/cilksort.cpp:271-275 | When one range is used up, copying the other completes the merge |
| `ParallelMerge.SeqMerge` | handcomp_test/cilksort.cpp:204-276 | seqmerge writes exactly the merge into the destination and nothing else, also for empty ranges |
| `ParallelMerge.BinSplit` | handcomp_test/cilksort.cpp:286-306 | The split separates elements at most val from elements at least val, and low - 1 is possible; it is the place that the comment promises if and only if the range does not both start below val and hold val |
| `ParallelMerge.EqualElementPassed` | handcomp_test/cilksort.cpp:286-306 | For the range 3, 5 and the value 5 the result is the place of 3, which is not what the comment promises |
| `ParallelMerge.WritesTile` | handcomp_test/cilksort.cpp:371-377 | The pivot's write and the two recursive writes are disjoint and exactly tile the output |
| `ParallelMerge.SplitRanges` | handcomp_test/cilksort.cpp:363-365 | The sub-ranges are sorted and their merges join to the whole merge |
| `ParallelMerge.CilkMerge` | handcomp_test/cilksort.cpp:312-385 | cilkmerge writes exactly the merge of the two sorted ranges, if one is not empty; the early-exit copy is never reached |
| `ParallelMerge.MergeInto` | handcomp_test/cilksort.cpp:341-385 | The same once the first range is the larger |
| `ParallelMerge.MergeParts` | handcomp_test/cilksort.cpp:371-380 | The pivot's write and the two recursive merges together write the merge |
| `Cilksort.SortsCommute` | handcomp_test/cilksort.cpp:434-448 | Two sorts of disjoint ranges end in the same array in either order |
| `Cilksort.FourSorts` | handcomp_test/cilksort.cpp:434-451 | After the four recursive sorts each quarter is sorted and the whole is a permutation |
| `Cilksort.HalvesSort` | handcomp_test/cilksort.cpp:453-462 | The merge of the two merges sorts the whole range |
| `Cilksort.MergeQuarters` | handcomp_test/cilksort.cpp:453-462 | The three merges through tmp sort the range and touch only its part of tmp |
| `Cilksort.CilkSort` | handcomp_test/cilksort.cpp:402-467 | cilksort sorts low[0..size) for every size, changes nothing else there, and writes only tmp[0..size) |
| `Cilksort.SortQuarters` | handcomp_test/cilksort.cpp:425-451 | The four recursive calls leave four sorted quarters |
| `MatMul.AtInjective` | handcomp_test/mm_dac.cpp:30 | Different rows or columns lie in different places |
| `MatMul.AddedUnique` | handcomp_test/mm_dac.cpp:23-61 | Adding A*B to a block determines the whole matrix: every version that does it ends in the same one |
| `MatMul.QuadrantsApart` | handcomp_test/mm_dac.cpp:107-124 | The calls between two syncs write disjoint places |
| `MatMul.QuadrantsTile` | handcomp_test/mm_dac.cpp:89-105 | The four quadrants cover the block, each entry once |
| `MatMul.TwoRounds` | handcomp_test/mm_dac.cpp:107-143 | The two rounds of four calls add the whole product |
| `MatMul.PowersHalve` | handcomp_test/mm_dac.cpp:217-219 | A power of two stays even down to the threshold |
| `MatMul.Loops` | handcomp_test/mm_dac.cpp:76-83 | The triple loop adds A*B to the block and changes nothing else |
| `MatMul.MmDac` | handcomp_test/mm_dac.cpp:74-146 | mm_dac adds exactly A*B to the block at stride n and changes nothing else, as the triple loop does |
| `MatMul.PlacesInOrder` | handcomp_test/mm_dac.cpp:81 | The entries lie row by row, and in each row column by column |
| `MatMulLaws.AddedIdentity` | handcomp_test/mm_dac.cpp:71-81 | Multiplied by the identity on either side, the other matrix is added |
| `MatMulLaws.AddedUnitRight` | handcomp_test/mm_dac.cpp:71-81 | A times the matrix with a single one in row t and column u adds column t of A to column u of the block |
| `MatMulLaws.AddedUnitLeft` | handcomp_test/mm_dac.cpp:71-81 | The matrix with a single one in row t and column u times B adds row u of B to row t of the block |
| `MatMulLaws.AddedLinearRight` | handcomp_test/mm_dac.cpp:71-81 | What is added is linear in B |
| `MatMulLaws.AddedLinearLeft` | handcomp_test/mm_dac.cpp:71-81 | What is added is linear in A; with the unit matrices this fixes the product |
| `MatMul.FourCalls` | handcomp_test/mm_dac.cpp:107-124 | Four calls add one half of the inner range to the whole block |
| `InternalMalloc.SizeToBucket` | runtime/internal-malloc.cpp:46-54 | The loop finds the smallest bucket that fits |
| `InternalMalloc.BucketOf` | runtime/internal-malloc.cpp:46-54 | There is such a bucket if and only if the size is at most SIZE_THRESH |
| `InternalMalloc.Buckets` | runtime/internal-malloc.cpp:22-32 | Block sizes double from 32 on, and a bucket's capacity is two or four pages of blocks |
| `InternalMalloc.Carve` | runtime/internal-malloc.cpp:365-372 | A block carved from the pool overlaps no other block and lies in one chunk |
| `InternalMalloc.PopGlobal` | runtime/internal-malloc.cpp:361 | A block off the global list belonged there; the free bytes go down by its size |
| `InternalMalloc.PushGlobal` | runtime/internal-malloc.cpp:473 | A block put on the global list raises the free bytes by its size |
| `InternalMalloc.PopLocal` | runtime/internal-malloc.cpp:501 | A block off a worker's list belonged to that list and no other |
| `InternalMalloc.PushLocal` | runtime/internal-malloc.cpp:449 | A block put on a worker's list is on that list and no other |
| `InternalMalloc.LocalToGlobal` | runtime/internal-malloc.cpp:470-475 | A block that moves from a worker's list to the global list leaves all other lists as they were |
| `InternalMalloc.LiveBlocksApart` | runtime/internal-malloc.cpp:349-376 | Live blocks are disjoint, each inside one chunk |
| `InternalMalloc.FreeBytes` | runtime/internal-malloc.cpp:108-113 | The loop sums the free bytes of the buckets |
| `InternalMalloc.WastedBytes` | runtime/internal-malloc.cpp:115-120 | The loop sums the bytes lost to rounding |
| `InternalMalloc.WorkersUsedAndFree` | runtime/internal-malloc.cpp:122-136 | The loop sums what all workers have used, hold free and have lost |
| `WholeBatches.ChunkUsedUp` | runtime/internal-malloc.cpp:365-368 | Between block places a chunk without room for a block is used up exactly |
| `WholeBatches.PartNext` | runtime/internal-malloc.cpp:447-450 | A batch comes off the list as a whole, or from chunks without loss |
| `WholeBatches.BatchTaken` | runtime/internal-malloc.cpp:440-456 | A whole batch taken leaves nothing wasted and whole batches |
| `WholeBatches.BatchFreed` | runtime/internal-malloc.cpp:462-479 | A whole batch given back leaves whole batches |
| `Allocators.Allocator.GlobalCheck` | runtime/internal-malloc.cpp:164-202 | The half about the pool holds if and only if nothing is wasted, the half about the workers if and only if nothing was freed without a worker; both hold in every state before the shutdown |
| `Allocators.CheckFailsAtShutdown` | runtime/internal-malloc.cpp:553-559 | A history in which the workers' half fails and the pool's half goes on holding: the shutdown frees the root closure to the global list before the workers end |
| `Allocators.Allocator.Provide` | runtime/internal-malloc.cpp:501-507 | The worker's list has a block, from a batch if it was empty |
| `Allocators.Allocator.FreeOverflow` | runtime/internal-malloc.cpp:540-542 | The batch of a list over its limit is a whole one |
| `Allocators.Allocator.constructor` | runtime/internal-malloc.cpp:392-415 | The empty allocator is in balance |
| `Allocators.Allocator.LiveApart` | runtime/internal-malloc.cpp:486-515 | In every valid state live blocks are disjoint and inside chunks from the system |
| `Allocators.Allocator.ExtendGlobalPool` | runtime/internal-malloc.cpp:318-342 | The new chunk follows all earlier ones |
| `Allocators.Allocator.RemoveFromGlobal` | runtime/internal-malloc.cpp:67-74 | The head of the global list is taken, and only it moves |
| `Allocators.Allocator.CarveBlock` | runtime/internal-malloc.cpp:363-373 | The rest of a used-up chunk is wasted, and the block is new |
| `Allocators.Allocator.GlobalImAlloc` | runtime/internal-malloc.cpp:349-376 | used + free + available + wasted == allocated is kept |
| `Allocators.Allocator.ImAllocateBatch` | runtime/internal-malloc.cpp:440-456 | Half the capacity goes to the worker; live blocks and both identities are kept, and nothing is wasted before the shutdown |
| `Allocators.Allocator.CountTaken` | runtime/internal-malloc.cpp:452-455 | The worker's count and its high-water mark follow the batch |
| `Allocators.Allocator.AllocateOne` | runtime/internal-malloc.cpp:448-449 | One turn of the batch moves one block |
| `Allocators.Allocator.AddToLocal` | runtime/internal-malloc.cpp:449 | The block joins the worker's list |
| `Allocators.Allocator.FreeOne` | runtime/internal-malloc.cpp:470-475 | One block goes back and the counts follow |
| `Allocators.Allocator.AddToGlobal` | runtime/internal-malloc.cpp:61-65 | The block joins the global list |
| `Allocators.Allocator.ImFreeBatch` | runtime/internal-malloc.cpp:462-479 | Half the capacity, or what there is, goes back; live blocks and identities are kept |
| `Allocators.Allocator.TakeLive` | runtime/internal-malloc.cpp:498-501 | The bytes asked for and lost to rounding add up to the block |
| `Allocators.Allocator.Malloc` | runtime/internal-malloc.cpp:486-515 | The block returned was not live before; the live blocks gain exactly it, with its size; all identities are kept |
| `Allocators.Allocator.PutLocal` | runtime/internal-malloc.cpp:528-538 | The freed block is live no longer |
| `Allocators.Allocator.Free` | runtime/internal-malloc.cpp:520-549 | The live blocks lose exactly this one; the worker's list is back within its limit, blocks move in whole batches and all identities are kept |
| `Allocators.Allocator.PerWorkerTerminate` | runtime/internal-malloc.cpp:565-585 | The worker's lists are empty and the live blocks are unchanged |
| `Allocators.Allocator.EmptyList` | runtime/internal-malloc.cpp:573-574 | The loop of batches empties one list |
| `Allocators.Allocator.FreeGlobal` | runtime/internal-malloc.cpp:553-559 | The global identity is kept; the worker-side one by the bytes returned in this way |
| `FiberPools.FiberPoolCap` | runtime/global.cpp:108-110 | The variable is the capacity if it is 0 or above 1, and 8 is otherwise; so it is 0 or at least 2 |
| `FiberPools.PlacePush` | runtime/fiber-pool.cpp:385 | A fiber put into a pool is in that pool and nowhere else |
| `FiberPools.PlacePop` | runtime/fiber-pool.cpp:350 | The fiber taken out was in that pool and is now in use |
| `FiberPools.Pool.constructor` | runtime/fiber-pool.cpp:73-85 | A new pool is empty |
| `FiberPools.Pool.Push` | runtime/fiber-pool.cpp:385 | The array access is in bounds; the fiber goes on top |
| `FiberPools.Pool.Pop` | runtime/fiber-pool.cpp:350 | The array access is in bounds; the top fiber is returned |
| `FiberPools.Pool.IncreaseCapacity` | runtime/fiber-pool.cpp:133-146 | The fibers are kept; a pool that is large enough stays as it is |
| `FiberPools.Pools.constructor` | runtime/fiber-pool.cpp:253-261 | The global pool has room for the processors' pools |
| `FiberPools.Pools.Add` | runtime/fiber-pool.cpp:383-386 | One fiber in use goes into one pool |
| `FiberPools.Pools.Take` | runtime/fiber-pool.cpp:350-358 | One fiber comes into use from one pool |
| `FiberPools.Pools.MoveBatch` | runtime/fiber-pool.cpp:193-195 | The transfer loop moves the top fibers and no fiber comes into or out of use |
| `FiberPools.Pools.NewBatch` | runtime/fiber-pool.cpp:203-207 | The fibers from the system are new |
| `FiberPools.Pools.DropBatch` | runtime/fiber-pool.cpp:240-245 | The fibers given back to the system are in no pool |
| `FiberPools.Pools.AllocateBatch` | runtime/fiber-pool.cpp:179-211 | The pool gains exactly the batch, from its parent first; the fibers in use stay |
| `FiberPools.Pools.FreeBatch` | runtime/fiber-pool.cpp:217-246 | The pool loses exactly the batch, to its parent as far as it has room; the fibers in use stay |
| `FiberPools.Pools.PerWorkerInit` | runtime/fiber-pool.cpp:301-315 | A worker's pool starts half full |
| `FiberPools.Pools.AllocateFromPool` | runtime/fiber-pool.cpp:341-359 | The fiber returned was not in use; exactly it comes into use, and every fiber is in one place |
| `FiberPools.Pools.DeallocateToPool` | runtime/fiber-pool.cpp:365-392 | Exactly the fiber given back goes out of use, and no pool overflows |
| `FiberPools.Pools.PerWorkerTerminate` | runtime/fiber-pool.cpp:320-328 | The worker's pool is emptied; the fibers in use stay |

## Left out

What a contract leaves open:

- MergeTables.MergeTwo: asks that the fuller table has room to spare (`Spare`) and every key findable when both hold entries, because in a small full table an insertion during the merge can lose a key, as `FullTable.FullTableLosesKey` shows; every table of capacity 256 or more, and every small one with few tombstones, has room. This is sufficient and not exact for a whole merge: the exact condition is that each insertion on the way is safe, which `MergeTables.MergeBucket` states for one. Four times the capacity must stay within MAX_CAPACITY, a bound that the doublings of one merge respect. The reduction of two views is a function on values; the destruction of the source table is not modelled.
- MergeTables.MergeInto: the same conditions on the destination.
- MergeTables.MergeEntries: the same conditions on the destination.
- MergeTables.MergeBucket: asks that the bucket's key, if it is in the destination, is found there; otherwise the code inserts it twice and represents no map (`ProbeShift.InsertionSetsKeyIff`). Twice the capacity must stay within MAX_CAPACITY if the destination is to be doubled.
- HyperTables.HyperTable.Insert: asks that the key, if it is in the table, is found or that a rebuild is due, which is exact (`ProbeShift.InsertionSetsKeyIff`); that doubling the capacity stays within MAX_CAPACITY; and that the key is neither KEY_EMPTY nor KEY_DELETED. The hash is an arbitrary function and its mask is a remainder, as capacities are powers of two.
- HyperTables.HyperTable.InsertHash: asks that the key, if it is in the table, is found, which is exact in the same way.
- HyperTables.HyperTable.Put: asks the same as `InsertHash`.
- TableState.HashInsertion: asks the same as `InsertHash`.
- Allocators.Allocator.Malloc: the worker's `used` and `wasted` are updated together with the taking of the block, where the source updates them before; a size above SIZE_THRESH goes to the system and yields no address.
- FiberPools.Pools.AllocateFromPool: asks for a capacity other than 1, which the options exclude (`FiberPools.FiberPoolCap`).
- ClosureProtocol.BusyClosureIsRunning: one cilkified region; at the start of a further one a thief may peek at the root closure before it runs (runtime/scheduler.cpp:1029-1035).
- ClosureProtocol.SetReturnAssertions: not the assertions on frame flags and fibers.
- WorkerSleep.Reengaged: the wake-up that the number of thieves asked for leads to; how many are pending when the request is raised (`WorkerSleep.Raised`) is an input.
- Allocators.Allocator.ExtendGlobalPool: the list of chunks, which addresses number consecutively here.
- PedigreeFrames.Pedigrees.ExtendSpawn: asks for a depth below 4095, the source's table having 4096 weights and no check.
- MatMul.FourCalls: the same as `MatMul.MmDac`.
- MatMul.MmDac: asks for a length that halves evenly down to the threshold, as powers of two do (`MatMul.PowersHalve`); the program rejects other lengths, though the function does not.
- WorkerIndex.IndexMap.StealableAreEngaged: the random choice among the engaged workers, and the early return when only one is left, are not modelled.

What the model does not cover:

- Memory orders weaker than sequential consistency.
- setjmp, longjmp, stack pointers, floating-point state, fibers passed between closures, sanitizer hooks: a transfer of control is a change of the worker's phase.
- Exceptions, their personality routine, and the exception path of a return.
- Parallel code inside user reductions: a reduction is one atomic step, and the loops that look for new views after it are left out.
- Function instances that do not terminate, and updates whose code depends on what other strands do.
- The steal in `ClosureTree` is one step. That the deque gives its frame to exactly one taker is the result of `TheProtocol`; the two are not one machine. Nor are `WorkerIndex` and `WorkerSleep`: the first moves workers under the index lock while others change the sentinel count, the second follows the packed count alone.
- Closure identifiers are never used again after a closure is destroyed.
- The number of thieves that a sentinel asks for is computed (`WorkerSleep.Request`) but the futex it goes to, sleeping, timing, victims and wake-up values are inputs or left out; the scaling factor of the elapsed time is that of other processors than aarch64.
- The pedigree frames' memory on the extension stacks; `PedigreeRuns` never reuses one. Reductions draw no numbers.
- `SiblingList` and the `children` of `ClosureTree` are two models of the same list, the second by value.
- The counts of allocations by tag, the list of chunks, statistics of the pools and of the scheduler, and `fiber_pool_decrease_capacity`, which nothing calls.
- `__cilkrts_dprand_set_seed` in the middle of a run, which leaves live frames with the old weights; overflow of a rank at 2^63.
- Integer overflow in `mm_dac` and the spawned calls' own stack frames.
- Environment variables other than the fiber pool's capacity, thread start and join, CPU pinning, grain sizes, fib and nqueens: they would only add easy members.
