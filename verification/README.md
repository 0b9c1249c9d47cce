# A Dafny model of the simulator's SIMT core, memory path and coherence protocol

This project models the parts of GPGPU-Sim with relativistic cache coherence on
which everything else rests, and proves what they promise each other.

* **Lockstep execution.** A warp runs many threads through one reconvergence stack
  (`simt_stack`).  The stack is only right because the reconvergence points come from
  the post-dominator passes over the control-flow graph.  `Dominance`,
  `DominatorSets`, `FunctionInfo`, `Assembly` model the passes; `SimtStack`,
  `SimtShape` and `SimtCalls` the stack, calls included; `Kernel`, `Lockstep`, `LockstepRuns` put them together and
  prove that in every run every thread fetches exactly the instructions it would
  fetch by itself, that the stack never exceeds `2 * warpSize - 1` entries, and that
  the run ends if the threads do.  `ThreadPaths` says what a thread executes by itself:
  the traces of threads are exactly the paths of the control-flow graph, every block run
  from beginning to end.  `LockstepReconverges` proves what the stack is for: lanes that
  part ways at a branch are together again, in one entry, at its immediate
  post-dominator, and none of them goes past it before.  `LockstepExact` gives the exact condition under
  which a run finishes all its threads, `LockstepBreaks` and `LockstepLimits` runs in
  which it does not.  `FunctionalCore` carries the result to a whole thread block with
  barriers, and `KernelRun` from the passes over the graph to the end of the block.
* **Coherence.** `RccProtocol` is the timestamp protocol of the L1 caches and L2
  banks (`tardis-VI`) as a state machine over arbitrarily delayed and reordered
  messages.  `RccInvariant` and `RccConsistency` prove sequential consistency of all
  runs in which every store gets a timestamp beyond the copies of the value it
  replaces; `RccTie` exhibits a run, for every lease length and every assignment of
  addresses to banks, in which that fails.  `RccLeases` says what the timestamps are worth:
  each is the least that serves its purpose, a lease can be used for as long as it was
  granted, every operation is performed exactly once as it was issued, and no state of any
  run is a deadlock.
* **Memory accesses.** `Coalescing`, `CoalescingProperties`, `CoalescingAtomic`: how
  the addresses of a warp become aligned transactions, and the first-fit variant for
  atomics; `CoalescingLanes` follows each lane of a warp to the queue.  `BankConflicts`: how many cycles they take in shared memory.
* **Memory.** `BlockedMemory`: lazily allocated blocks refine a flat memory.
* **Streams.** `StreamManager`: FIFO streams, the turn of stream zero, and the map
  from kernels to streams, over every interleaving; `StreamProperties`: which operation is
  started next, what becomes of it, and that all streams become empty in the end.
* **Code layout.** `CodeLayout`: where assembled functions lie.

`Helpers` holds what several of these share.

`dafny verify dfyconfig.toml` checks everything.

## How the model is built

Code that changes state in the original is a class or a method with loops here
(`FunctionInfo`, `SimtStack`, `FunctionalCore`, `WarpInst`, `MemorySpace`, `Stream`,
`StreamManager`, `Assembler`).  Such a method is proved equal to a function of the
old state (`Updated`, `Step`, `Operated`, ...) or to a declarative description, and
the theorems are lemmas about those.  Lanes are a set of numbers below an arbitrary
warp size.  A program counter is a block and an offset; `NoPc` stands for -1,
`ReturnMarker` for -2, and `Elsewhere` for an address outside the kernel.  Guards of
predicated instructions are an arbitrary function of the lane and the number of
instructions it has executed, so the results hold whatever the data.

## Findings

* The assertion in `find_idominators` (src/cuda-sim/ptx_ir.cc:706) holds exactly when
  no edge leads to the entry block (`FindIdominators`).  It looks unrelated to
  reconvergence, but it is what makes the reconvergence point of branches without a
  post-dominator safe: a kernel's return address is 0, which is the entry of the
  kernel that is assembled first.  `EntryLoopBreaksLockstep` runs a kernel at address
  0 with an edge to its entry, accepted by all other passes, into a state where the
  check before each instruction fails.
* A predicated break has no reconvergence point, since only `BRA` instructions get
  one.  If its lanes split while a reconvergence point is pending, the entry of the
  pending point is overwritten with program counter -1, at which nobody arrives
  (`StrandedIffDiverged`).  `BreakBreaksLockstep` runs a kernel of four blocks, accepted
  by all passes, into a failed check with a live thread.  The exact condition, for all
  kernels and runs: a run that can go no further has finished its threads if and only if
  every step that made the top entry wait at -1 or at the return address had all live
  lanes of the warp in that entry (`RunFinishesIff`), and a run with any other step can be
  continued to a failed check (`LeavingIsFatal`).  It is not enough to ask for a split
  with a pending point: a break that splits without one replaces the top entry in place,
  and one of its groups can be stranded later, when another splits at a branch that
  reconverges only at the exit.  Kernels whose predicated breaks are taken alike by the
  active lanes meet the condition (`UniformRunIsSound`), and so do kernels without
  predicated breaks (`PlainBreaksReconverge`).
* The L2 gives a store to a block it does not hold the bank's memory timestamp, without
  adding one, although a lease granted before the block was dropped may end at that very
  timestamp (src/gems-2.1.1/protocols/tardis-VI-L2cache.sm:444-457 and :592-598; compare
  :629-633, which adds one).  `SomeRunIsNotConsistent` turns this into a message-passing
  violation.  `TakeStoreKeepsIff` gives the exact condition under which one store keeps
  the invariant, `TieFreeIsSequentiallyConsistent` a condition on runs that a bank can
  check: no store misses while its request carries a timestamp at or below the bank's.
  All clocks start at zero, so that the second condition also turns down the first store
  to a cold L2 by a core that has seen nothing, which is harmless.
* `read` of a memory space throws for every read that touches the last block of the
  address space, aligned or not, because the end of that block wraps to zero; `write`
  works there (`MemorySpace.Read`, `MemorySpace.Write`).
* Coalescing records only the 32-byte chunk of the first byte of an access, while it
  asserts only that the access stays in its segment.  An access is covered by its
  transaction exactly if it stays in one chunk, or the other lanes of the transaction use
  a chunk behind its own, or it starts in the third chunk of its 128 bytes and they use
  one of the first two (`AccessIsCoveredIff`).  Tags are 32 bits wide although addresses
  are 64: an aligned access is covered exactly when its address fits (`ReachesGroup`).
* A write whose offset in its block and length add up to 2^32 or more wraps in the
  computation of the first piece, and fails in the assertion of the block; all shorter
  ones succeed (`MemorySpace.Write`).
* `ptx_assemble` aligns functions by adding the remainder of the address, which is right
  exactly for multiples of four (`PaddingAlignsIff`).

## Model

| member | source | states |
|---|---|---|
| Dominance.FixpointIsExact | src/cuda-sim/ptx_ir.cc:590-619 | a solution of the data-flow equations that starts from full sets and only loses what some path avoids is, for every block, exactly the set of blocks on all paths, including blocks that cannot reach the root |
| Dominance.ImmediateExists | src/cuda-sim/ptx_ir.cc:621-662 | every block other than the root that the root is connected to has an immediate strict dominator, dominated by all other strict dominators |
| Dominance.Antisymmetric | src/cuda-sim/ptx_ir.cc:552-588 | two connected blocks that dominate each other are the same block |
| Dominance.MeetStaysAbove | src/cuda-sim/ptx_ir.cc:519-531 | intersecting over the neighbours never removes a real dominator |
| DominatorSets.Intersect | src/cuda-sim/ptx_ir.cc:519-531 | erasing the elements not in the other set leaves the intersection |
| DominatorSets.IsEqual | src/cuda-sim/ptx_ir.cc:533-541 | the element-wise comparison decides set equality |
| DominatorSets.SweepUp | src/cuda-sim/ptx_ir.cc:566-580 | one forward sweep keeps all real dominators, reports a change exactly if a set shrank, and without a change the sets solve the equations |
| DominatorSets.SweepDown | src/cuda-sim/ptx_ir.cc:603-617 | the same for the backward sweep of the post-dominators |
| DominatorSets.DescendingStep | src/cuda-sim/ptx_ir.cc:552-619 | replacing one set by its meet shrinks the total size or changes nothing, which is why the loops end |
| DominatorSets.KeepNearest | src/cuda-sim/ptx_ir.cc:634-652 | the double loop that erases candidates while it iterates over them keeps exactly the nearest one, if there is one |
| ControlFlow.FunctionInfo.ConnectBasicBlocks | src/cuda-sim/ptx_ir.cc:425-466 | successor sets are those of the last instructions, and predecessor sets are their inverse; `ThreadPaths.FirstEdgesAreTaken` says which edges these are |
| ControlFlow.FunctionInfo.ConnectBreakTargets | src/cuda-sim/ptx_ir.cc:472-517 | breaks lead to their targets, all other edges stay, the edge sets stay inverse, and the result says exactly whether an edge changed |
| ControlFlow.FunctionInfo.FindDominators | src/cuda-sim/ptx_ir.cc:552-588 | ends, and leaves the dominators of the path definition; blocks without predecessors other than the entry are cleared, which changes no other set |
| ControlFlow.FunctionInfo.FindPostdominators | src/cuda-sim/ptx_ir.cc:590-619 | ends, and d is in the set of b exactly if every path from b to the exit contains d |
| ControlFlow.FunctionInfo.FindIpostdominators | src/cuda-sim/ptx_ir.cc:621-662 | every block that reaches the exit gets its immediate post-dominator; the closing assertions hold exactly if each block reaches the exit, or is not the only one that does not, or some block is post-dominated by all that do |
| ControlFlow.FunctionInfo.FindIdominators | src/cuda-sim/ptx_ir.cc:664-708 | every block reachable from the entry gets its immediate dominator; the count that is asserted is met exactly if the entry has no predecessor |
| ControlFlow.StrictSetHasNearest | src/cuda-sim/ptx_ir.cc:634-652 | among the strict dominators there is one that all others dominate, and it is the immediate one |
| Assembly.AnalyseKernel | src/cuda-sim/cuda-sim.cc:249-269 | the passes, run in the order of the loader, all analyse the final graph; both pairs of closing assertions are characterised exactly; if all blocks reach the exit the table is that of immediate post-dominators |
| KernelRuns.RunBlock | src/cuda-sim/cuda-sim.cc:1644-1716 | from the loader to the end of a block: a kernel whose blocks reach the exit is turned down exactly if an edge enters its entry in the first or the final graph; otherwise every thread of the block ends, in exactly the state it would end in by itself |
| KernelRuns.PlainBreaksAllReconverge | src/cuda-sim/cuda-sim.cc:1866-1888 | without predicated breaks no table of immediate post-dominators makes a warp leave lanes behind |
| SimtStacks.SimtStack.Launch | src/abstract_hardware_model.cc:560-569 | one entry with the start address and no reconvergence point |
| SimtStacks.SimtStack.ExtractGroup | src/abstract_hardware_model.cc:635-656 | one pass takes the live lanes that share the program counter of the highest live lane out of the mask |
| SimtStacks.SimtStack.Place | src/abstract_hardware_model.cc:688-723 | one pass drops a group at the reconvergence point, or pushes it, turning the top into a reconvergence entry at the first divergence |
| SimtStacks.SimtStack.CallOrReturn | src/abstract_hardware_model.cc:658-686 | a uniform call pushes a frame, and the matching return pops it and continues below |
| SimtStacks.SimtStack.Update | src/abstract_hardware_model.cc:617-729 | the loop over groups leaves the stack described by `Updated` |
| SimtStacks.GroupsAgreeWithPcs | src/abstract_hardware_model.cc:633-656 | every group is exactly the set of lanes at its program counter |
| SimtStacks.GroupsCoverLanes | src/abstract_hardware_model.cc:633-656 | every live active lane is in a group |
| SimtStacks.GroupsHaveDistinctPcs | src/abstract_hardware_model.cc:633-656 | no two groups share a program counter, so the groups partition the lanes |
| SimtStacks.AdvanceKeepsProgress | src/abstract_hardware_model.cc:631-726 | after k passes the stack is what the first k groups make of it, whichever branches were taken |
| SimtShape.UpdateShape | src/abstract_hardware_model.cc:688-723 | the effect of the whole loop in closed form: either the top is replaced by at most one group per program counter, or it becomes a reconvergence entry below one entry per remaining group |
| SimtCalls.CallPushes | src/abstract_hardware_model.cc:659-670 | a call puts a frame with all live lanes on top and leaves the caller as it is |
| SimtCalls.ReturnPops | src/abstract_hardware_model.cc:672-686 | a return takes the frame off; the caller goes on at the return address with its lanes, unless it reconverges there |
| SimtCalls.CallAndReturn | src/abstract_hardware_model.cc:658-686 | whatever the callee does, when the matching return is over the stack is as before the call, with the caller at the return address or below it |
| SimtCalls.FrameStays | src/abstract_hardware_model.cc:688-723 | lanes that part ways in a callee leave its frame in its slot |
| SimtCalls.GroupsDescend | src/abstract_hardware_model.cc:635-656 | groups are taken from the highest remaining lane down |
| Kernels.ExecuteLeads | src/cuda-sim/cuda-sim.cc:1049-1060 | an instruction takes a thread along an edge of the graph or to a later instruction of its block |
| ThreadPaths.EdgesAreTaken | src/cuda-sim/ptx_ir.cc:425-517 | the edges of the analysed graph are exactly those that the last instruction of a block takes for some outcome of its guard |
| ThreadPaths.FirstEdgesAreTaken | src/cuda-sim/ptx_ir.cc:425-466 | so are those of the graph as first linked, with breaks leading to the next block |
| ThreadPaths.GuardDecides | src/cuda-sim/cuda-sim.cc:1049-1060 | a guard that holds makes an instruction act as if it had none, and one that fails as if it were not there |
| ThreadPaths.UnguardedLeads | src/cuda-sim/ptx_ir.cc:434-466 | an unguarded instruction leads to its label, to the next block, to the exit or to the target of the break |
| ThreadPaths.BlockRunsInOrder | src/cuda-sim/cuda-sim.cc:1049-1060 | a thread at the start of a block executes all its instructions, one after the other |
| ThreadPaths.TracesArePaths | src/cuda-sim/cuda-sim.cc:1049-1060 | the trace of every thread that ends is a path from the entry to the exit, with every block run from beginning to end |
| ThreadPaths.PathsAreTraces | src/cuda-sim/cuda-sim.cc:1049-1060 | and every path from the entry to the exit is the trace of a thread for some outcomes of its guards |
| ThreadPaths.FetchedIsPath | src/abstract_hardware_model.cc:751-777 | the instructions a warp fetches for a thread that has ended are such a path |
| Kernels.EntryIsEnteredOnce | src/cuda-sim/ptx_ir.cc:706 | no instruction leads to address 0 of a kernel that passed the analysis |
| Lockstep.DivergenceMissesPending | src/abstract_hardware_model.cc:691-708 | when lanes diverge towards a new reconvergence point, no lane is already at the pending one, so that the test that drops groups strands no thread |
| Lockstep.PendingBehindNew | src/cuda-sim/cuda-sim.cc:1866-1888 | the pending reconvergence point post-dominates the new one |
| Lockstep.LeadsKeepsRecvg | src/cuda-sim/ptx_ir.cc:621-662 | an edge that does not arrive at the reconvergence point leads to a block it still post-dominates |
| Lockstep.ReplaceTop | src/abstract_hardware_model.cc:695-723 | replacing the top by groups keeps the invariant |
| Lockstep.PushReconvergence | src/abstract_hardware_model.cc:695-723 | turning the top into a reconvergence entry and pushing groups keeps it |
| Lockstep.StepKeepsSound | src/abstract_hardware_model.cc:751-777 | while a thread is live the fetched instruction is that of every active thread, and fetch, execute and update keep the invariant, unless the top entry is made to wait where nobody arrives while a live lane is outside it |
| Lockstep.LaunchIsSound | src/cuda-sim/cuda-sim.cc:1671-1684 | a launched warp satisfies the invariant |
| LockstepRuns.RunIsSound | src/abstract_hardware_model.cc:617-777 | every state of every run that leaves no lanes behind satisfies the invariant |
| LockstepRuns.RunFollowsThreads | src/abstract_hardware_model.cc:617-777 | in every run at all, every thread is in the state it would be in by itself after as many instructions, and the addresses fetched for it are those of its own trace |
| LockstepRuns.LockstepIsFaithful | src/cuda-sim/cuda-sim.cc:1055-1056 | in every run that leaves no lanes behind the check `pc == inst.pc` never fails, threads and fetches are as they would be alone, and the stack has at most `2 * warpSize - 1` entries |
| LockstepRuns.DepthBound | src/abstract_hardware_model.h:217-258 | masks of entries are nested or disjoint and never equal, which bounds the depth |
| LockstepRuns.RunsAdvance | src/abstract_hardware_model.cc:731-777 | every step of a run executes at least one instruction of a thread |
| LockstepRuns.LockstepTerminates | src/abstract_hardware_model.cc:731-777 | if every thread ends by itself within n instructions, a run has at most `warpSize * n` steps |
| LockstepRuns.AbsentLaneStays | src/abstract_hardware_model.cc:746-749 | lanes without a thread are never touched |
| LockstepExact.RunFinishesIff | src/abstract_hardware_model.cc:688-723 | a run that can go no further has finished all threads if and only if no step of it left lanes behind |
| LockstepExact.LeavingIsFatal | src/abstract_hardware_model.cc:688-723 | if the threads end by themselves, every run that left lanes behind can be continued to a failed check with a live thread |
| LockstepExact.UniformRunIsSound | src/abstract_hardware_model.cc:695-723 | a run in which the active lanes leave every predicated break the same way keeps the invariant and leaves no lanes behind |
| LockstepExact.PlainBreaksReconverge | src/cuda-sim/cuda-sim.cc:1866-1888 | whatever state a warp of a kernel without predicated breaks comes to, its next step leaves no lanes behind |
| LockstepReconverges.RunIsLayered | src/abstract_hardware_model.cc:688-723 | in every state of a run with uniform breaks, every entry with a reconvergence point has an entry below it that waits there for all lanes in between |
| LockstepReconverges.LanesMeet | src/abstract_hardware_model.cc:688-723 | in a run that finishes, lanes under a reconvergence point are together in one entry when they get there; until then only they run, and none passes it |
| LockstepReconverges.PartedLanesMeet | src/cuda-sim/cuda-sim.cc:1866-1888 | lanes that part ways do so at a branch, and all lanes of that branch are together again at its immediate post-dominator, unless that is the exit, before any of them goes past it |
| Laminar.AllParts | src/abstract_hardware_model.h:217-258 | a family of distinct, non-empty sets that are nested or disjoint within n elements has at most `2n - 1` members |
| FunctionalCores.ExecuteLanes | src/abstract_hardware_model.cc:731-744 | the loop over lanes executes exactly the active ones and the live count equals the number of unfinished threads |
| FunctionalCores.CollectThreads | src/abstract_hardware_model.cc:751-767 | the loop over threads yields the finished lanes, the next addresses, and the return address of the first live thread as reconvergence point if it is asked for |
| FunctionalCores.RunInstruction | src/cuda-sim/cuda-sim.cc:1707-1713 | fetch, execution and update of the real stack are the step of the model, and keep its invariant |
| FunctionalCores.CreateWarp | src/cuda-sim/cuda-sim.cc:1671-1684 | a created warp is a launched one with the right live count |
| FunctionalCores.FunctionalCore.constructor | src/cuda-sim/cuda-sim.cc:1644-1669 | all warps of a block are created, only the last one with lanes missing |
| FunctionalCores.FunctionalCore.ExecuteWarp | src/cuda-sim/cuda-sim.cc:1705-1716 | a live warp that does not wait makes one step of the model, is made to wait exactly if the instruction it fetched is a barrier or a memory barrier, and others are untouched; the two flags are updated as they mean |
| FunctionalCores.FunctionalCore.RunWarp | src/cuda-sim/cuda-sim.cc:1707-1713 | the address a warp fetches is added to its history, on which barriers are counted |
| FunctionalCores.WaitsAtBarrier | src/cuda-sim/cuda-sim.cc:1711 | the operations at which the code makes a warp wait are those at the offsets of barriers and memory barriers |
| FunctionalCores.FunctionalCore.PassOverWarps | src/cuda-sim/cuda-sim.cc:1691-1702 | in one pass each warp that may run makes exactly one step and no other changes; the two results say whether a warp is live and whether none may run |
| FunctionalCores.FunctionalCore.OpenBarrier | src/cuda-sim/cuda-sim.cc:1699-1702 | the barrier opens only when every live warp has executed it |
| FunctionalCores.FunctionalCore.ValidIsBarrierSafe | src/cuda-sim/cuda-sim.cc:1686-1716 | a warp that may run has fetched no more barriers than any live warp |
| FunctionalCores.FunctionalCore.Execute | src/cuda-sim/cuda-sim.cc:1686-1703 | the block ends if its threads do by themselves, and every thread ends in exactly the state it would end in by itself |
| FunctionalCores.SoundStep | src/cuda-sim/cuda-sim.h:110-115 | a warp with a positive live count can always step, and the count stays the number of unfinished threads |
| LockstepLimits.StrandedIffDiverged | src/abstract_hardware_model.cc:688-723 | without a reconvergence point of its own, an update leaves an entry with address -1 in the slot of the top exactly if a reconvergence point is pending and the first group that is not yet there is not the last group |
| LockstepBreaks.BreakBreaksLockstep | src/abstract_hardware_model.cc:688-723 | a kernel that the analysis accepts, and whose threads end by themselves, has a run from launch to a failed check at a predicated break |
| LockstepLimits.EntryLoopBreaksLockstep | src/cuda-sim/ptx_ir.cc:706 | a kernel at address 0 with an edge to its entry reaches, in three steps, a state with live threads in which the check fails |
| RccInvariant.LoadHitKeeps | src/gems-2.1.1/protocols/tardis-VI-L1cache.sm:962-970 | a hit reads a value whose next store is later in logical time than the core |
| RccInvariant.TakeLoadValidKeeps | src/gems-2.1.1/protocols/tardis-VI-L2cache.sm:623-627 | extending a lease keeps every copy of the current value inside it |
| RccInvariant.TakeLoadMissKeeps | src/gems-2.1.1/protocols/tardis-VI-L2cache.sm:731-786 | merging loads into a pending fill keeps the timestamps they need |
| RccInvariant.FillKeeps | src/gems-2.1.1/protocols/tardis-VI-L2cache.sm:788-818 | the memory timestamp covers all copies of a block that comes back from memory, and pending loads find leases long enough for them |
| RccInvariant.AnswerKeeps | src/gems-2.1.1/protocols/tardis-VI-L2cache.sm:372-390 | an answered load reads the current value at a timestamp inside the lease |
| RccInvariant.EvictKeeps | src/gems-2.1.1/protocols/tardis-VI-L2cache.sm:619-621 | raising the memory timestamp on eviction keeps every lease below it |
| RccInvariant.ReceiveKeeps | src/gems-2.1.1/protocols/tardis-VI-L1cache.sm:618-641 | a core that moves to the write timestamp of an answer sees no copy that is too old |
| RccInvariant.TakeStoreKeepsIff | src/gems-2.1.1/protocols/tardis-VI-L2cache.sm:629-633 | a store keeps the invariant exactly when its timestamp is beyond every lease, answer on its way and logged load of the value it replaces |
| RccInvariant.NoTieIsUnreached | src/gems-2.1.1/protocols/tardis-VI-L2cache.sm:444-457 | which is so if the block is present, or the request's timestamp is above the bank's memory timestamp |
| RccConsistency.StepKeepsInv | src/gems-2.1.1/protocols/tardis-VI-L2cache.sm:726-871 | every transition keeps the invariant |
| RccConsistency.LoadReadsLast | src/gems-2.1.1/protocols/tardis-VI-L1cache.sm:233-242 | in the order of logical time every load reads the last store to its address |
| RccConsistency.RunIsSequentiallyConsistent | src/gems-2.1.1/protocols/tardis-VI-L2cache.sm:726-871 | every run whose stores all pass the copies of the values they replace is sequentially consistent: one total order contains the order of every warp and explains every load |
| RccConsistency.TieFreeIsSequentiallyConsistent | src/gems-2.1.1/protocols/tardis-VI-L2cache.sm:726-871 | in particular every run in which no store misses at or below the memory timestamp |
| RccTie.SomeRunIsNotConsistent | src/gems-2.1.1/protocols/tardis-VI-L2cache.sm:444-457 | for every lease length, map to banks and initial memory there is a run that is not sequentially consistent |
| RccTie.SeenFlagMissedData | src/gems-2.1.1/protocols/tardis-VI-L2cache.sm:592-598 | no order explains a log in which the flag is seen and the data is not |
| RccLeases.GrantedLease | src/gems-2.1.1/protocols/tardis-VI-L2cache.sm:623-627 | a load of a block that is present gets the least lease that lasts `delta` from its own time and from the last store and is not shorter than what was promised |
| RccLeases.MissedLease | src/gems-2.1.1/protocols/tardis-VI-L2cache.sm:726-770 | a load of a block that is not present waits, and asks for the largest time of all that wait |
| RccLeases.FilledLease | src/gems-2.1.1/protocols/tardis-VI-L2cache.sm:788-818 | a block that comes back has the data and the least timestamps that serve the stores and loads that waited |
| RccLeases.StoreTimeIsLeast | src/gems-2.1.1/protocols/tardis-VI-L2cache.sm:629-633 | a store gets the least time behind its core, the last store and every lease, or behind what was dropped |
| RccLeases.EvictedTimeIsLeast | src/gems-2.1.1/protocols/tardis-VI-L2cache.sm:619-621 | a bank remembers the last time of a dropped block and no more, and writes back exactly dirty blocks |
| RccLeases.ClockIsLeast | src/gems-2.1.1/protocols/tardis-VI-L1cache.sm:618-641 | only answers move the clock of a core, and no further than their write timestamp |
| RccLeases.HitOrMiss | src/gems-2.1.1/protocols/tardis-VI-L1cache.sm:233-242 | a core reads a copy that is still good, and asks the L2 exactly if it has none |
| RccLeases.LeaseLasts | src/gems-2.1.1/protocols/tardis-VI-L2cache.sm:623-627 | in every run, a load that was answered lets its core read the block without asking again until its clock passes the time of the load by `delta` |
| RccLeases.FilledLeaseLasts | src/gems-2.1.1/protocols/tardis-VI-L2cache.sm:788-818 | a load that waited for a fill that a load started gets a lease as long |
| RccLeases.PerformedOnce | src/gems-2.1.1/protocols/tardis-VI-L2cache.sm:726-871 | between its issue and the arrival of its answer every operation is performed exactly once: a load of its address, or a store of its value |
| RccLeases.HitIsPerformed | src/gems-2.1.1/protocols/tardis-VI-L1cache.sm:962-970 | a hit is performed at once, with the value of the copy |
| RccLeases.CanComplete | src/gems-2.1.1/protocols/tardis-VI-L2cache.sm:726-871 | in every state of every run, ties included, an operation that waits can be brought to its end |
| Coalescing.WarpInst.Record | src/abstract_hardware_model.cc:371-375 | chunk, lane and bytes of one access are added to a transaction |
| Coalescing.WarpInst.FindTransactions | src/abstract_hardware_model.cc:341-377 | the map has an entry for exactly the touched segments, holding exactly the chunks, bytes and lanes of the accesses to it |
| Coalescing.Reduce | src/abstract_hardware_model.cc:461-511 | of all aligned 32, 64 and 128-byte blocks that hold the used chunks, the one emitted lies inside every other |
| Coalescing.WarpInst.Send | src/abstract_hardware_model.cc:379-388 | each segment sends one such block, in the order of addresses |
| Coalescing.WarpInst.Coalesce | src/abstract_hardware_model.cc:322-384 | the queue grows by the transactions of all subwarps, in order |
| CoalescingProperties.EveryAccessIsServedOnce | src/abstract_hardware_model.cc:334-383 | every byte of every aligned access is in exactly one transaction of its subwarp, which has its lane in the mask |
| CoalescingProperties.TransactionsAreDisjoint | src/abstract_hardware_model.cc:334-383 | transactions of a subwarp do not overlap |
| CoalescingProperties.OneTransactionPerSegment | src/abstract_hardware_model.cc:334-383 | there are as many transactions as touched segments, and no lane is in the mask of a segment it does not touch |
| CoalescingProperties.ReachesGroup | src/abstract_hardware_model.cc:103-107 | an access inside one chunk is covered by its transaction exactly if its address fits in 32 bits |
| CoalescingProperties.AccessIsCoveredIff | src/abstract_hardware_model.cc:360-375 | without alignment, an access is covered by the transaction of its segment exactly if it stays in one chunk or the chunks of the other lanes make the block reach the next one |
| CoalescingProperties.LoneAccessIsCoveredIff | src/abstract_hardware_model.cc:360-375 | so that a lone access is covered exactly if it stays in one chunk |
| CoalescingLanes.PiecesMakeAccess | src/abstract_hardware_model.cc:341-354 | the pieces of an access to local memory make up the whole of it |
| CoalescingLanes.RequestsAreExact | src/abstract_hardware_model.cc:337-377 | there is exactly one request for each piece of each active lane, in the order of lanes and pieces |
| CoalescingLanes.SubwarpOfLane | src/abstract_hardware_model.cc:332-337 | every lane up to the last whole subwarp is in exactly one subwarp |
| CoalescingLanes.EveryLaneIsServed | src/abstract_hardware_model.cc:322-384 | every piece of every active lane that stays in its chunk is covered by a transaction in the queue that has the lane in its mask |
| CoalescingLanes.OnlyActiveLanes | src/abstract_hardware_model.cc:337-340 | no transaction serves a lane that is not active |
| CoalescingLanes.ContiguousNeedsFew | src/abstract_hardware_model.cc:325-331 | 32 lanes that access consecutive words need `32 * size / segment` transactions, so that none is wasted |
| CoalescingLanes.AtomicIsServedOnce | src/abstract_hardware_model.cc:386-459 | the atomic of every active lane is in exactly one transaction of the warp |
| CoalescingAtomic.ConflictIff | src/abstract_hardware_model.h:757-762 | the test of the bytes finds a conflict exactly if an earlier lane with a byte in common has joined that transaction |
| CoalescingAtomic.FirstFit | src/abstract_hardware_model.cc:418-433 | the scan stops at the first transaction that no earlier lane with a byte in common has joined |
| CoalescingAtomic.FindTransactions | src/abstract_hardware_model.cc:404-443 | the k-th transaction of a segment holds exactly the lanes whose place is k, aligned or not |
| CoalescingAtomic.Coalesce | src/abstract_hardware_model.cc:386-459 | the queue grows by the transactions of both halves of the warp, by segment and then by place |
| CoalescingAtomic.PlaceIsFirstFit | src/abstract_hardware_model.cc:418-433 | the place of a lane is the only one that is free while all before it are taken by lanes with a byte in common |
| CoalescingAtomic.PlaceIsRank | src/abstract_hardware_model.cc:418-433 | for aligned lanes it is the number of earlier lanes on the same word |
| CoalescingAtomic.RanksAreDense | src/abstract_hardware_model.cc:418-433 | the ranks of the lanes on a word are 0, 1, 2, ... without a gap |
| CoalescingAtomic.ServedByPlace | src/abstract_hardware_model.cc:401-443 | every lane is in the transaction of its segment and place, with its bytes, and in no other |
| CoalescingAtomic.ServedIsCoveredIff | src/abstract_hardware_model.cc:401-458 | when the block of that transaction covers the access of the lane, aligned or not |
| CoalescingAtomic.AlignedIsCovered | src/abstract_hardware_model.cc:401-458 | the k-th lane on a word is in the k-th transaction, and is covered exactly if its address fits in 32 bits |
| CoalescingAtomic.LanesDoNotConflict | src/abstract_hardware_model.cc:418-443 | no byte is touched by two lanes of a transaction, and a lane passes only transactions in which an earlier lane has one of its bytes |
| CoalescingAtomic.WordKeepsOrder | src/abstract_hardware_model.cc:418-443 | aligned lanes on one word are served in their own order |
| CoalescingAtomic.FirstFitIsOptimal | src/abstract_hardware_model.cc:401-458 | for aligned lanes a segment sends as many transactions as there are lanes on its busiest word, and no assignment without conflicts uses fewer |
| CoalescingAtomic.FirstFitCanBeWorse | src/abstract_hardware_model.cc:418-433 | without alignment it can use more: four lanes that get three transactions although two would do |
| BankConflicts.CountUses | src/abstract_hardware_model.cc:196-208 | the two-level map counts, for every bank and word, exactly the lanes on it |
| BankConflicts.FindBroadcast | src/abstract_hardware_model.cc:212-231 | the broadcast goes to the first word with several lanes, in the first bank that has one |
| BankConflicts.LanesOfBank | src/abstract_hardware_model.cc:236-250 | a bank needs an access for each of its lanes, but one for all lanes on the broadcast word; the asserted bounds hold |
| BankConflicts.LargestLoad | src/abstract_hardware_model.cc:233-265 | the largest load of a bank, by words or, with limited broadcast, by lanes |
| BankConflicts.Cycles | src/abstract_hardware_model.cc:190-268 | the sum of the largest loads of the subwarps |
| BankConflicts.ActiveIsExact | src/abstract_hardware_model.cc:196-208 | every active lane of a subwarp is counted once, in order |
| BankConflicts.OnIsActiveOn | src/abstract_hardware_model.cc:196-208 | so the lanes counted on some words of a bank are the active lanes that touch them |
| BankConflicts.LoadsCompare | src/abstract_hardware_model.cc:210-265 | limited broadcast never needs fewer accesses than there are words, nor more than there are lanes |
| BankConflicts.CyclesInRange | src/abstract_hardware_model.cc:270 | the count is at most the number of lanes, with or without limited broadcast, and positive exactly if a lane of a subwarp is active |
| BlockedMemory.MemorySpace.WriteBlock | src/cuda-sim/memory.h:67-71 | a write into a block, allocated if needed, changes exactly the bytes it covers in the flat memory |
| BlockedMemory.MemorySpace.Write | src/cuda-sim/memory.cc:47-86 | by either route a write changes exactly the addressed bytes, wrapping at the end of the address space, and reports the watchpoints it hits; it fails, and changes nothing, exactly if the 32-bit sum of its offset and length wraps |
| BlockedMemory.MemorySpace.Read | src/cuda-sim/memory.cc:113-140 | by either route a read returns the bytes of the flat memory, and fails exactly if it touches the last block |
| BlockedMemory.MemorySpace.ReadBlock | src/cuda-sim/memory.cc:89-111 | blocks never written read as zero |
| BlockedMemory.EndOfPage | src/cuda-sim/memory.cc:91 | the computed end of a block is right for all blocks but the last, where it is zero |
| BlockedMemory.Replay | src/cuda-sim/memory.cc:47-140 | over any sequence of writes and reads, a read returns for every byte the last one written there, or zero |
| BlockedMemory.BlockSizeDoesNotMatter | src/cuda-sim/memory.cc:156-159 | the same history gives the same answers for every block size, except for reads in the last block of one of them |
| BlockedMemory.WatchesItsWord | src/cuda-sim/memory.cc:79-86 | a watchpoint is hit exactly if a byte of its word is written |
| StreamManagers.Stream.Next | src/stream_manager.cc:88-96 | starts the front operation; operations start in the order in which they were pushed, each once |
| StreamManagers.Stream.RecordNextDone | src/stream_manager.cc:77-85 | retires the front operation; operations retire in the same order, each once |
| StreamManagers.StreamManager.Push | src/stream_manager.cc:355-390 | the operation goes to the end of its stream, or of stream zero |
| StreamManagers.StreamManager.Front | src/stream_manager.cc:238-270 | starts the next operation of stream zero during its turn, and else of the first stream in the list that is ready |
| StreamManagers.StreamManager.Operation | src/stream_manager.cc:199-210 | registers a finished kernel, starts an operation and carries it out |
| StreamManagers.StreamManager.RegisterFinishedKernel | src/stream_manager.cc:221-235 | the uid that is asserted is the right one; the kernel leaves its stream and the map |
| StreamManagers.StreamManager.DestroyStream | src/stream_manager.cc:281-296 | an empty stream leaves the list, and nothing else changes |
| StreamManagers.StreamManager.SetKernelDone | src/gpgpu-sim/gpu-sim.cc:171-183 | a kernel that ran is reported once |
| StreamManagers.FrontedIsCore | src/stream_manager.cc:238-270 | starting an operation never breaks the exclusion of stream zero or the map |
| StreamManagers.RetiredIsCore | src/stream_manager.cc:221-235 | nor does retiring one |
| StreamManagers.OperatedIsOk | src/stream_manager.cc:199-210 | a whole turn of the simulation thread keeps the invariant, whatever the device does |
| StreamManagers.NeverTogether | src/stream_manager.cc:199-311 | in every state of every interleaving, stream zero and another stream never have operations under way together, and a kernel reported as finished is the front operation of the stream the map leads to |
| StreamProperties.FirstReadyIs | src/stream_manager.cc:253-265 | outside the turn of stream zero the first ready stream of the list is chosen, and none exactly if none is ready |
| StreamProperties.TurnOfZero | src/stream_manager.cc:242-252 | stream zero has its turn exactly while it is not empty and had it before or all others are empty |
| StreamProperties.NothingChosenIff | src/stream_manager.cc:238-270 | when nothing is started |
| StreamProperties.OperatedOutcome | src/stream_manager.cc:199-210 | copies, events and kernels simulated at once leave their stream in the turn in which they are started; a kernel for the device is mapped and runs if it can start |
| StreamProperties.RegisteredOutcome | src/stream_manager.cc:212-235 | the kernel finished first leaves its stream, the map and the device |
| StreamProperties.StepIsFifo | src/stream_manager.cc:68-96 | a step takes operations off the front of a stream or puts one at its end |
| StreamProperties.ListsKeepOrder | src/stream_manager.cc:272-296 | streams are listed in the order in which they were added, and kernels reported in the order in which they finished |
| StreamProperties.Drains | src/stream_manager.cc:199-270 | if kernels can start and the device finishes what it runs, all streams become empty |
| StreamProperties.RunIsLaunched | src/stream_manager.cc:199-270 | which holds from every state of every run in which no kernel was turned away |
| CodeLayout.Assembler.Assemble | src/cuda-sim/cuda-sim.cc:183-228 | over any sequence of functions: each starts aligned behind the last one, the table ends at the next address, and labels mean the instruction that follows them |
| CodeLayout.LookupsAgree | src/cuda-sim/ptx_ir.h:1133-1170 | the two lookups agree on every address of a function, find an instruction exactly at the address of a line, and no other function holds that address |
| CodeLayout.NothingOutside | src/cuda-sim/cuda-sim.cc:199-202 | no address outside a function finds an instruction |
| CodeLayout.PaddingAlignsIff | src/cuda-sim/cuda-sim.cc:200-203 | adding the remainder aligns an address exactly if it is a multiple of four |

## Left out

- Control flow: calls and returns inside kernels are modelled in the stack (`Updated`, `CallOrReturn`) when they are uniform; the theorems about runs are for kernels without calls.
- Control flow: the partition into blocks and the search for break targets are inputs; the outer loop over break targets is modelled with one round that links and one that finds nothing to change.
- Kernels.WellFormedBlock: a predicated return has a following block as fall-through, although src/cuda-sim/ptx_ir.cc:443 looks it up at the next index, which holds nothing for 8-byte instructions.
- Threads: the outcome of guards is a parameter, so memory and the order of memory effects between threads are not modelled.
- Lockstep.StepKeepsSound: asks that the step leaves no lanes behind; `LockstepExact.RunFinishesIff` and `LockstepExact.LeavingIsFatal` show that nothing weaker would do.
- KernelRuns.RunBlock: asks that all blocks reach the exit, which the assertions of the loader do not ensure (`ControlFlow.FunctionInfo.FindIpostdominators` says what they do), and, like `FunctionalCores.FunctionalCore.Execute`, that no warp of the block leaves lanes behind.
- LockstepRuns.LockstepTerminates: assumes that each thread ends by itself; nothing is said about kernels that spin.
- FunctionalCores.FunctionalCore.Execute: barriers are not checked for divergence inside a warp, as in the code.
- RccConsistency.RunIsSequentiallyConsistent: a warp has one operation outstanding; atomics, the delay queue (covered by arbitrary delays), the limit of 32-bit timestamps (asserted in the code), replacement policy and the transient states of the L1, which only disable transitions, are left out.
- RccInvariant.ReceiveKeeps: `Data` and `Data_Done` in state `I_I` (src/gems-2.1.1/protocols/tardis-VI-L1cache.sm:1076 and :1090), and the answers in `SM`, update the lease and do not copy the data block, unlike `I_S` (:1023), and stores send a block of the transaction buffer that its allocation does not fill. The data values of the model therefore stand for versions: what is proved is which store a load is ordered behind, not that the bytes are moved.
- RccConsistency.TieFreeIsSequentiallyConsistent: holds in one direction; a run with a tie may still be consistent if no core uses the old copy. The exact condition is given for one store, in `RccInvariant.TakeStoreKeepsIff`.
- Coherence: the variants tardis-MSI, TC and the release-consistent and predictive forms are other protocols and not part of this model.
- Coalescing: accesses must not leave their segment, as the code asserts; texture and constant accesses are left out.
- CoalescingAtomic.FirstFitIsOptimal: asks for natural alignment; `CoalescingAtomic.FirstFitCanBeWorse` is an input without it for which the claim is false.
- BankConflicts.CyclesInRange: says nothing about lanes beyond the last whole subwarp, which the code does not count; the bank and word of a lane are inputs.
- BlockedMemory.MemorySpace.Write: lengths are below 2^32, since longer ones are cut to 32 bits; a block that is allocated before its assertion fails is not distinguished from one that is not; blocks are sequences in a map, so that aliasing of buffers is not captured.
- StreamManagers: waits are guards of atomic steps; what a host thread waits for before pushing to stream zero is not used, so the results hold without it.
- StreamProperties.Drains: is about kernels that can start; one that cannot stays pending for ever, as in the code.
- StreamManagers.StreamManager.Front: its effects on the GPU, copies and events are not modelled beyond the queue.
- CodeLayout: branch targets are resolved through labels; a label behind the last instruction would be looked up in uninitialised memory and is modelled only as an offset.
- Statistics, printing, the debugger, the option parser, texture binding, the CUDA and OpenCL interfaces, the timing model, AerialVision and the cuobjdump printers.
