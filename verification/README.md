# Crucible background pipeline: a Dafny model

This project models the background pipeline of Crucible and the parts around it
that carry hard invariants, and proves properties of the model for all inputs,
all runs and all interleavings. `dafny verify dfyconfig.toml` checks it.

## What is modelled

- **Static memory planner** (`PlanLayout`, `PoolLedger`, `CountingSort`,
  `MemoryPlanner`): the counting sort, the sweep over ops, direct reuse of dying
  slots, the bounded first-fit free list and the growth of the pool, on arrays in
  place, with the 64-bit rounding written out. The sweep refines a system of moves
  on values, in which every byte of the pool is accounted for.
- **Trace builder** (`PtrMap`, `TraceSpec`, `TraceFill`, `TraceStorage`,
  `TraceSlots`, `TraceBuilder`, `TraceLimits`, `SideArrays`, `TracePlan`): the generation-stamped
  open-addressing pointer map as a class that refines a finite map, the builder as
  a class that fills slots and edges in place and is proved equal to a fold over
  tensor accesses, and the last-writer relation and storage lifetimes proved of
  that fold. What a full map and full slots do is exact: the fill of both is a fold
  of the accesses over the two capacities. `SideArrays` lays out the block of
  scalars, indices and slot ids. `TracePlan` joins builder and planner.
- **Four-stage pipeline** (`Pipeline`, `PipelineRuns`, `MetaLog`, `PendingOps`,
  `Detector`, `DetectorRuns`): a transition system over the drain, detect, build and
  publish stages and the foreground. There the iteration detector may report any
  boundary and give up any ops. `Detector` has the positions that the detector keeps,
  with the comparisons of keys left open, and the detect stage over the ring of
  pending ops. The metadata ring and the ring of pending ops are classes.
- **Owner mailbox** (`Mailbox`): a transition system with any number of callers,
  any number of stage starts and compare-and-swaps that may fail for no reason.
- **Region store** (`RegionStore`, `Reclamation`, `ReclamationRuns`,
  `HeldRegions`): the table, the queue and the sweep as a class, and a transition
  system of the stage and the foreground that uses the same sweep function, with
  the two halves of a rollback as two steps. `HeldRegions` shows that the
  sequence-number read of the holder cells acts as one step.
- **Arena** (`ArenaLayout`, `Arena`), **store log and session events** (`Text`,
  `CipherLog`, `Wire`, `SessionEvents`), and the three compact algorithms of the
  benches: `KernelCache` with `KernelSolo` and `KernelProgress`, `RankSum`,
  `TriangularProbe` with `SwissTable`.

Atomic accesses are sequentially consistent single steps. Code outside the model
becomes a parameter: the host allocator is an address argument of the arena
methods, and `std::sort` is the sorted union passed to `RankSum.Compare`. `Wire` has
the bytes of an event record and of a batch file, and the payload hash. The store is
proved for every hash that names no batch zero or 2^64 - 1, and
`SessionEvents.OwnFormatFits` shows that its own hash is one.

## Where the code falls short of what it promises

- `include/crucible/Arena.h` says that an overflowing array count saturates to
  SIZE_MAX so that the allocation fails. Once a byte of the block is in use, the sum
  of the fast path wraps and the request is served.
  `ArenaLayout.SaturatedRequestServed` gives the input, and
  `ArenaLayout.FastPathExact` the exact condition.
- `include/crucible/Arena.h` says that the bytes given out count each block before the
  current one in full. A block of an earlier epoch that is too small for a request is
  skipped and not counted. `ArenaLayout.SkippedNotCounted` gives the blocks, and
  `ArenaLayout.PassedBound` the exact condition.
- `include/crucible/BackgroundThread.h` says that the closed value of the mailbox means
  that no publish stage runs, so that a caller may own its state. The close stores that
  value before it runs the last job, so a second caller can run its job inline at the
  same time. `Mailbox.OverlapHappens` gives the interleaving, and
  `Mailbox.OverlapOnlyAtClose` the exact condition. Jobs and callbacks never overlap.
- The trace builder sizes its map by the outputs of a trace, and external reads fill
  it too. A full map loses data-flow edges without a report.
  `TraceLimits.BuildLosesEdge` gives a trace, `TraceLimits.FullMapLosesEdge` one for
  every capacity, and `TraceFill.EdgesExactIff` the exact condition, which a caller can
  compute from the accesses and the two capacities.
- Each read of an external pointer takes a slot. When the slots run out, a write gets
  none and its map entry keeps slot 0, so a later read gets the storage of another
  pointer. `TraceLimits.BuildMixesStorages` gives a trace, and
  `TraceStorage.ReaderSharesSlot` and `TraceStorage.StoragesIff` the exact conditions.
- Opening a store does not repair the last line of its log. The next commit goes on
  with a line that a crash tore, and can read back as a commit that nobody made, which
  hides later ones. `CipherLog.TornTailInventsCommit` gives the bytes, and
  `CipherLog.ReopenLoadsIff` the exact condition.
- `src/Cipher.cpp` says that a torn index line costs one entry, which the next store
  appends again. The appended line goes on with the torn one and is lost too.
  `SessionEvents.TornLineLosesReappend` gives the cuts, and
  `SessionEvents.AppendIndexIff` the exact condition.
- `bench/bench_harness.h` says that the sign of z tells which sample is lower. The
  smaller of the two counts is never above its mean, so z is never positive.
  `RankSum.HigherSampleReadsLower` gives two samples of which the first is the higher
  one and its z is negative, and `RankSum.SignIsRightIff` the exact condition.
- `src/BackgroundThread.cpp` says that the order of the side arrays keeps each aligned.
  The arrays are laid out op by op, so an odd number of outputs before an op shifts its
  scalars by four bytes. `SideArrays.ScalarsMisaligned` gives the ops, and
  `SideArrays.AlignedIff` the exact condition.
- `include/crucible/Vigil.h` lets a caller read the active region until the next write of
  the foreground's holders. A rollback stores the active region after its job, and then
  writes its holders. A region that it could not activate is in none of them, so a sweep
  can free the region that `active_region` goes on to name. `ReclamationRuns.ActiveRegionLost` gives the run,
  and `Reclamation.ActiveRegionLive` says when the region is safe.

## Model

| member | source | states |
|---|---|---|
| `PlanLayout.AlignedSizeCovers` | src/BackgroundThread.cpp:1241-1242 | the 64-bit rounding to 256 covers a slot if and only if its size is at most 2^64 - 256, and is then the exact rounding |
| `PlanLayout.ReleaseStep` | src/BackgroundThread.cpp:1271-1276 | a dying slot that gives its bytes to the free list, or loses them to a full list, keeps live slots and free blocks apart and inside the pool |
| `PlanLayout.ReuseStep` | src/BackgroundThread.cpp:1261-1267 | handing the front of a dying slot to a born slot and freeing the rest keeps the whole layout invariant |
| `PlanLayout.TakeStep` | src/BackgroundThread.cpp:1200-1213 | taking or splitting a free block keeps the layout invariant |
| `PlanLayout.FreshStep` | src/BackgroundThread.cpp:1214-1215 | extending the pool keeps the layout invariant and never exceeds the sum of all rounded sizes |
| `CountingSort.BucketBy` | src/BackgroundThread.cpp:1141-1176 | the stretch off[k]..off[k+1] holds exactly the indices with key k, each once and in order |
| `CountingSort.CountKeys` | src/BackgroundThread.cpp:1147-1152 | each counter is the size of its bucket |
| `CountingSort.Scatter` | src/BackgroundThread.cpp:1165-1176 | every index lands in the stretch of its key |
| `MemoryPlanner.Sweep.FreeBlock` | src/BackgroundThread.cpp:1192-1198 | below 4096 blocks the block is the last one of the list and no byte is lost; at 4096 blocks its bytes are lost and counted |
| `MemoryPlanner.Sweep.FindFit` | src/BackgroundThread.cpp:1201-1203 | the first free block that is large enough, or none |
| `MemoryPlanner.Sweep.AllocSlot` | src/BackgroundThread.cpp:1200-1216 | a slot gets the offset of its first fit or the end of the pool, and the sweep invariant holds |
| `MemoryPlanner.BestMatch` | src/BackgroundThread.cpp:1250-1260 | the unused dying slot with the least waste, the first of several, and none exactly when none is large enough |
| `MemoryPlanner.Sweep.MatchOne` | src/BackgroundThread.cpp:1246-1268 | a born slot takes the offset of the best unused dying slot, and stays unserved exactly when no unused one is large enough |
| `MemoryPlanner.Sweep.MatchDying` | src/BackgroundThread.cpp:1237-1269 | the direct match of the first 64 on each side keeps the sweep invariant; consumed dying slots are exactly those that stop being live, and no unserved born slot fits an unused dying slot |
| `MemoryPlanner.Sweep.SweepOp` | src/BackgroundThread.cpp:1224-1283 | after an op the live slots are exactly those with birth <= op <= death: each is born once and released at death + 1 |
| `MemoryPlanner.CheckSlots` | src/BackgroundThread.cpp:1119-1133 | accepts exactly the slot arrays whose internal slots have birth <= death <= 2^32 - 4, and finds one past their greatest death |
| `MemoryPlanner.RunSweep` | src/BackgroundThread.cpp:1135-1283 | all slots placed: slots whose op intervals meet are apart, offsets are multiples of 256, the pool is at least every peak and at most the sum of sizes |
| `MemoryPlanner.ComputeMemoryPlan` | src/BackgroundThread.cpp:1093-1287 | stops if and only if a lifetime is broken, before it writes an offset; otherwise the plan has the properties of Planned and changes only offsets, the pool is the sum of growths that no free block could serve, and slots of one size get exactly their peak |
| `PoolLedger.AlwaysLaidOut` | src/BackgroundThread.cpp:1192-1283 | after any moves of a sweep, live slots and free blocks are apart and inside the pool |
| `PoolLedger.AlwaysBalances` | src/BackgroundThread.cpp:1192-1283 | after any moves of a sweep, live bytes, free bytes and lost bytes make up the pool; bytes are lost only when more than 4096 slots are planned; each growth of the pool was for a slot that no free block held, with only slots live at that op live |
| `PoolLedger.UniformPool` | src/BackgroundThread.cpp:1200-1283 | when all slots round to one size and are at most 4096, the pool is no larger than the bytes live at one op |
| `MemoryPlanner.UniformIsPeak` | src/BackgroundThread.cpp:1200-1283 | such slots get the smallest pool that there can be: exactly the bytes live at one op |
| `MemoryPlanner.PlanIsSafe` | src/BackgroundThread.cpp:1224-1285 | two internal tensors that are live at one op never share a byte and lie inside the pool, through every way a slot can get its bytes |
| `PtrMap.PtrTable.Insert` | include/crucible/BackgroundThread.h:853-881 | refines a finite map at every fill: a new key is added when there is room, a known key keeps its slot id and reports the old entry, a full table refuses |
| `PtrMap.PtrTable.Lookup` | include/crucible/BackgroundThread.h:889-899 | agrees with the finite map at every fill, and finds nothing for null |
| `PtrMap.PtrTable.NextGeneration` | src/BackgroundThread.cpp:817-822 | the next generation is exactly the empty map, also at the wrap from 255 with its wipe |
| `PtrMap.PtrTable.Regrow` | src/BackgroundThread.cpp:717-723 | a new table starts with no generation in use |
| `PtrMap.PtrTable.SetSlot` | src/BackgroundThread.cpp:1053 | the claimed entry gets its storage slot and no other entry changes |
| `TraceSpec.EventsOrdered` | src/BackgroundThread.cpp:964-1010 | the accesses of a trace come in the order of ops, inputs before outputs |
| `TraceSpec.LastWriteIsLast` | src/BackgroundThread.cpp:964-968 | the reference relation: the greatest earlier output of a pointer |
| `TraceFill.EdgesExact` | src/BackgroundThread.cpp:964-1057 | when the map has room for the pointers of the trace, the edges are exactly the last-writer edges, with source op, port and kind |
| `TraceFill.FillIsExact` | include/crucible/BackgroundThread.h:853-881 | the pointers that the map holds and the slots in use are the fold of the accesses over the two capacities, which needs no build |
| `TraceFill.HeldAreFirst` | include/crucible/BackgroundThread.h:853-881 | until a slot is refused, the map holds the first distinct pointers of the trace, as many as it has room for |
| `TraceFill.EdgesExactIff` | src/BackgroundThread.cpp:964-1057 | the edges are the last-writer edges if and only if the fold of the accesses over the capacities holds the pointer of every edge |
| `TraceLimits.FullMapLosesEdge` | include/crucible/BackgroundThread.h:880 | at every capacity of the map, with as many slots, a trace that first reads as many external pointers, in ops of at most 65535 inputs, loses its one edge |
| `TraceLimits.BuildLosesEdge` | src/BackgroundThread.cpp:702-734 | a new builder given that trace sizes its map for 4096 pointers and records no edge |
| `TraceFill.EdgesJoin` | src/BackgroundThread.cpp:979-1039 | at any fill every recorded edge joins an access to the last write of its pointer, and carries the ports of both if and only if those are below 256 |
| `TraceFill.EdgesGoForward` | src/BackgroundThread.cpp:979-1039 | at any fill every recorded edge goes from an earlier op to a later one |
| `TraceSpec.EdgesBounded` | src/BackgroundThread.cpp:979-1034 | no build records more edges than accesses, so the fatal bound is never met |
| `TraceSpec.AlwaysAlive` | src/BackgroundThread.cpp:986-1050 | at any fill, every slot id that an access gets names a slot that is alive at that op, and a write finds it large enough |
| `TraceFill.NoneExhaustsIff` | src/BackgroundThread.cpp:990-1056 | no access is refused a slot if and only if the slots are as many as the accesses ask for |
| `TraceFill.NeedIsCount` | src/BackgroundThread.cpp:990-1056 | with room for the pointers, that number is a count over the accesses alone |
| `TraceStorage.StoragesIff` | src/BackgroundThread.cpp:990-1056 | at any fill of the map, every access and every map entry has a slot that its own pointer made if and only if the slots are as many as the accesses ask for |
| `TraceStorage.ReaderSharesSlot` | src/BackgroundThread.cpp:966-989 | at any fill, an input of a held and written pointer names the op of its last writer, and both carry one slot id if and only if that write was not refused a slot; any other input names no op |
| `TraceStorage.OverwriteSharesSlot` | src/BackgroundThread.cpp:1010-1040 | at any fill, an output over a held pointer that another op wrote last carries the slot id of that write if and only if that write was not refused a slot |
| `TraceSlots.SlotsAreMade` | src/BackgroundThread.cpp:986-1057 | at any fill, a slot is external if and only if an input made it; it begins at 0 or at the op of its maker, ends at the last op that carries its id, and is as large as its maker or the largest output written to it |
| `TraceLimits.FullSlotsMixStorages` | src/BackgroundThread.cpp:990-1056 | at every capacity of the slots, a trace that first reads one external pointer as many times, in ops of at most 65535 inputs, leaves the next write without a slot and its reader with the slot of the external pointer |
| `TraceLimits.BuildMixesStorages` | src/BackgroundThread.cpp:702-734 | a new builder given that trace has 8192 slots and gives those slot ids |
| `TraceBuilder.BitCeil` | src/BackgroundThread.cpp:702-712 | the least power of two that is at least n |
| `TraceBuilder.Builder.EnsureScratch` | src/BackgroundThread.cpp:702-734 | each buffer has the larger of its old length and the length that the trace asks for; the map, the slots and the edges then hold what the counts promise |
| `TraceBuilder.Builder.ReadInput` | src/BackgroundThread.cpp:964-1008 | one input access is one step of the reference fold |
| `TraceBuilder.Builder.WriteOutput` | src/BackgroundThread.cpp:1010-1057 | one output access is one step of the reference fold, through alias, new slot and no slot |
| `TraceBuilder.Builder.BuildTrace` | src/BackgroundThread.cpp:817-1058 | the scratch buffers hold exactly the fold of all accesses, at any fill of the map and of the slots |
| `SideArrays.LayOut` | src/BackgroundThread.cpp:900-930 | the four side arrays of each op are in order, inside the block, and apart from those of every other op |
| `SideArrays.AlignedIff` | src/BackgroundThread.cpp:792-801 | indices and slot ids are always aligned; the scalars of an op are aligned if and only if the ops before it have an even number of outputs |
| `SideArrays.ScalarsMisaligned` | src/BackgroundThread.cpp:792-801 | an op with one output, then an op with one scalar: the scalar begins at byte 4 |
| `TracePlan.ReadyToPlan` | src/BackgroundThread.cpp:1060-1074 | the slots of any build meet the lifetime check and the size bound of the planner |
| `TracePlan.CopySlots` | src/BackgroundThread.cpp:1060-1074 | the planner gets the slots of the build with offset zero |
| `TracePlan.PlanTrace` | src/BackgroundThread.cpp:736-1287 | build and plan together never stop on a lifetime, every planned slot is what the accesses that carry its id make it, and two pool slots that one op touches never overlap |
| `TracePlan.AllOpsApart` | src/BackgroundThread.cpp:964-1283 | every two accesses of one op with different pool slots have disjoint bytes inside the pool |
| `TracePlan.PointersApart` | src/BackgroundThread.cpp:964-1283 | when the slots are as many as the accesses ask for, two pointers of one op are two storages with disjoint bytes, and a write fits its slot |
| `Mailbox.AlwaysInv` | include/crucible/BackgroundThread.h:506-588 | every interleaving of any number of callers and stage starts keeps the mailbox protocol |
| `Mailbox.RunsExactlyOnce` | include/crucible/BackgroundThread.h:166-201 | a call returns only after its job ran from start to end exactly once; no stage assertion fails; no record is touched after done |
| `Mailbox.NoJobWhilePublishing` | include/crucible/BackgroundThread.h:527-536 | no job, inline or on the stage, overlaps a publication or callback |
| `Mailbox.OverlapOnlyAtClose` | include/crucible/BackgroundThread.h:538-543 | two jobs overlap if and only if one is the last job after the close and the other is inline on its caller |
| `Mailbox.OverlapHappens` | include/crucible/BackgroundThread.h:538-543 | a concrete interleaving in which two jobs overlap |
| `Mailbox.OnePosterExcludes` | include/crucible/BackgroundThread.h:160-201 | with one call at a time jobs never overlap |
| `Mailbox.InlineReturns` | include/crucible/BackgroundThread.h:186-196 | a call that runs its job itself returns after at most two actions of its own, and the mailbox is closed again |
| `Mailbox.CallReturns` | include/crucible/BackgroundThread.h:160-201 | from any state of any run, at most sixteen actions of the call, of the stage and of the owner of the mailbox bring any call to its return |
| `Mailbox.StageOpens` | include/crucible/BackgroundThread.h:550-563 | a stage that waits to open is open after at most three actions, two of them of a caller that runs a job |
| `Mailbox.StageStops` | include/crucible/BackgroundThread.h:538-543 | a stage that runs finishes what it has in hand and closes the mailbox after at most nine actions |
| `Mailbox.JobWaitsForPublication` | include/crucible/BackgroundThread.h:160-171 | a job can wait while the stage publishes |
| `Mailbox.PostedJobFinishes` | include/crucible/BackgroundThread.h:527-543 | a posted job is never lost: at most six actions of the stage alone finish it |
| `RegionStore.Store.Push` | include/crucible/BackgroundThread.h:417-420 | the queue holds the last 64 pushes |
| `RegionStore.Store.At` | include/crucible/BackgroundThread.h:436-440 | age a is the push a before the newest |
| `RegionStore.Store.IsHeld` | src/BackgroundThread.cpp:345-354 | true exactly when the marks or the queue name the region |
| `RegionStore.Store.FindFree` | src/BackgroundThread.cpp:278-281 | a free slot, and none exactly when 128 regions are stored |
| `RegionStore.Store.Add` | src/BackgroundThread.cpp:276-311 | the region joins the store, the queue and the last-published place; a full store drops it, counts it and changes nothing else |
| `RegionStore.Store.Publish` | src/BackgroundThread.cpp:276-316 | one publication as a whole: the new store is the sweep of the old store and the new region, under the marks that the callback gave |
| `RegionStore.Store.Sweep` | src/BackgroundThread.cpp:326-343 | the table after the loop is exactly the store of Swept |
| `RegionStore.Store.KeepRegion` | src/BackgroundThread.cpp:356-365 | the left generation of a stored region is cleared, and nothing else changes |
| `Reclamation.AlwaysInv` | src/BackgroundThread.cpp:276-365 | every interleaving of the publish stage and the foreground keeps the reclamation invariant |
| `Reclamation.NamedRegionsLive` | src/Vigil.cpp:59-122 | in every run each region that the foreground can read, or that the slot, the log, the queue or the cells name, is in the store |
| `Reclamation.SweepFreesUnnamed` | src/BackgroundThread.cpp:326-343 | in every run a sweep frees only regions that nobody names |
| `Reclamation.NewRegionUnnamed` | src/BackgroundThread.cpp:287-290 | in every run the address of a new region is named by nobody, so addresses can be reused |
| `Reclamation.TwoSweepsFree` | include/crucible/BackgroundThread.h:321-346 | a region that nobody holds is gone after two sweeps with a holder write between them |
| `Reclamation.AloneNeverDrops` | include/crucible/BackgroundThread.h:374-381 | in every run of publications without a foreground the table holds at most 98 regions and no publication is dropped |
| `Reclamation.NoForegroundBound` | src/BackgroundThread.cpp:326-343 | without a foreground one sweep leaves at most 98 regions |
| `ReclamationRuns.PacedNeverDrops` | include/crucible/BackgroundThread.h:374-381 | in every run in which the foreground writes its holders between any two sweeps, with at most 16 regions in the log and 10 cells, the table holds at most 111 regions and no publication is dropped |
| `Reclamation.ActiveRegionLive` | include/crucible/Vigil.h:341-354 | in every run the active region is in the store, unless a write of the foreground left it out while it was not the last published region |
| `ReclamationRuns.ActiveRegionLost` | src/Vigil.cpp:59-88 | 64 publications between the job of a rollback and its store, and a write that does not name the region: the active region is gone from the store |
| `ReclamationRuns.PublishedIsGot` | src/Vigil.cpp:86-122 | the foreground gets every region that is published into a store with room, and the region has its memory |
| `ReclamationRuns.RollbackIsGot` | src/Vigil.cpp:59-84 | after both halves of a rollback the region is active, readable and in the store |
| `ReclamationRuns.ActiveIsGot` | include/crucible/Vigil.h:341-348 | the foreground can read the active region |
| `ReclamationRuns.WrittenIsKept` | include/crucible/Vigil.h:609-626 | a region that a write of the foreground names keeps its memory until the next write, whatever is published and swept |
| `ReclamationRuns.ForgottenIsUnnamed` | include/crucible/Vigil.h:609-614 | a region that the foreground gives up, and nothing else names, is named by nobody |
| `HeldRegions.ReadEnds` | include/crucible/Vigil.h:629-646 | a read while no write is in progress is accepted, with what the cells hold |
| `HeldRegions.WriteEnds` | include/crucible/Vigil.h:615-624 | a write puts its regions into the cells and adds one generation |
| `HeldRegions.AcceptedReadIsAtomic` | include/crucible/Vigil.h:615-646 | the copy that the publish stage accepts is what the cells hold while no write is in progress, with its generation |
| `MetaLog.Log.TryAppend` | include/crucible/MetaLog.h:155-209 | records are appended, and refused exactly when there is none or no room past the tail |
| `MetaLog.Log.CopyRun` | include/crucible/MetaLog.h:241-257 | a run that the tail has not passed is exactly the appended records, around the end of the ring |
| `MetaLog.Log.AdvanceTail` | include/crucible/MetaLog.h:261-263 | the tail moves forward only |
| `Pipeline.ScanWork` | src/BackgroundThread.cpp:745-769 | up to the first op that has tensors and no record: the record of the first op that has one, the greatest end of records, and an overflow exactly when there is such an op |
| `Pipeline.AlwaysInv` | src/BackgroundThread.cpp:375-612 | every interleaving of the four stages and the foreground keeps the pipeline invariant |
| `Pipeline.CutIsBoundary` | src/BackgroundThread.cpp:224-256 | the range that the pipeline cuts is the boundary cut of the held ops |
| `Pipeline.ReleasesIncrease` | src/BackgroundThread.cpp:258-269 | in every run each applied release is past the tail and not past the head |
| `Pipeline.UnreleasedRunFits` | src/BackgroundThread.cpp:780-790 | in every run the tail is not past the first record of an unhandled work, and its run of records is in the log and at most 2^20 long |
| `Pipeline.BuildableWorkFits` | src/BackgroundThread.cpp:745-790 | in every run a work without overflow has at most 2^20 tensors |
| `Pipeline.CommitCoversWorks` | src/BackgroundThread.cpp:482-496 | in every run, when the processed count covers the point at which an item was sent, a work is published, stale, dropped or released, and a commit is committed |
| `Pipeline.PublishedIsFresh` | src/BackgroundThread.cpp:572-610 | in every run a region is published if and only if its epoch is the current one and the store has room, and then its ops were pushed after the last reset |
| `PipelineRuns.DetectSends` | src/BackgroundThread.cpp:224-256 | in every run a boundary sends one work, whose ops are the completed part of the held ops, or nothing when that is empty; a push without a boundary sends nothing; what stays held is what the boundary keeps |
| `PipelineRuns.RecordStores` | include/crucible/MetaLog.h:155-209 | an op that the log has room for gets the next records, and any other op gets none |
| `PipelineRuns.ReleasedIff` | src/BackgroundThread.cpp:745-769 | in every run a work that ended was released without a region if and only if one of its ops lost its records |
| `PipelineRuns.HandledIsGivenBack` | src/BackgroundThread.cpp:258-269 | in every run the records of a work that the publish stage handled are behind the tail |
| `PipelineRuns.ResetIsFinal` | include/crucible/BackgroundThread.h:486-504 | in every run a work that was cut before a reset, and not published by then, is never published |
| `PipelineRuns.FlushEnds` | include/crucible/Vigil.h:374-381 | from any state of any run the stages alone process every recorded op, and every work and commit ends |
| `Pipeline.WorksAreDisjoint` | src/BackgroundThread.cpp:436-455 | in every run no op is in two works and works follow the trace |
| `PendingOps.Ring.Grow` | src/BackgroundThread.cpp:185-204 | the ring doubles with its ops in order, and growth past 2^19 is the fatal stop |
| `PendingOps.Ring.Push` | src/BackgroundThread.cpp:206-216 | the op is last; dropped, cut and held ops still concatenate to the pushed ops |
| `PendingOps.Ring.DropOldest` | include/crucible/BackgroundThread.h:220-224 | the oldest ops go, at most all of them, and are accounted for |
| `PendingOps.Ring.Clear` | include/crucible/BackgroundThread.h:226 | a reset accounts for every held op |
| `PendingOps.Ring.DropUnclaimable` | src/BackgroundThread.cpp:218-222 | exactly the held ops before the claimable position go |
| `PendingOps.Ring.PrepareWork` | src/BackgroundThread.cpp:224-256 | the work is the min(iter_len, held - K) ops just before the last K, which stay; earlier ops are dropped; nothing is lost |
| `PendingOps.BoundaryParts` | src/BackgroundThread.cpp:224-256 | the three parts of a cut concatenate to the held ops, with the sizes of the cut |
| `Detector.CheckFits` | include/crucible/IterationDetector.h:166-185 | after every op the history fits its largest ring, and an accepted period is at least K and at most MAX_PERIOD |
| `Detector.ArrivedFits` | include/crucible/IterationDetector.h:279-297 | when the boundary of a period arrives, the two iterations that it compares are still in the history |
| `Detector.ClaimableBound` | include/crucible/IterationDetector.h:197-204 | the ops from the oldest claimable one on are at most half of the largest history and K more |
| `Detector.ClaimableGrows` | include/crucible/IterationDetector.h:187-204 | an op without a boundary never makes a dropped op claimable again |
| `Detector.BoundaryIsClaimable` | include/crucible/IterationDetector.h:536-615 | the whole iteration of a boundary was claimable before the op that reports it |
| `DetectorRuns.SquareAccepted` | include/crucible/IterationDetector.h:536-564 | a square that the search finds sets the period, with a boundary at once when its phase is zero and else after as many ops as the phase |
| `DetectorRuns.NothingFound` | include/crucible/IterationDetector.h:166-185 | a search that finds no square in the history reports nothing and goes on |
| `DetectorRuns.BoundaryEveryPeriod` | include/crucible/IterationDetector.h:567-613 | while the period holds there is a boundary of one period exactly at the expected op and at every period-th op after it |
| `DetectorRuns.PeriodBreaks` | include/crucible/IterationDetector.h:567-582 | a period that does not hold at the expected op ends without a boundary |
| `Detector.Stage.Feed` | src/BackgroundThread.cpp:444-456 | in every run the push of an op never meets the fatal growth, and what was dropped before changes no work: it is the completed iteration without the ops of the last cut |
| `Detector.Stage.Reset` | src/BackgroundThread.cpp:427-436 | a reset starts the detector again with the slots of its history, drops every held op and keeps the bound |
| `KernelCache.AlwaysInv` | bench/bench_kernel_cache.cpp:53-117 | every interleaving of lookups and inserts keeps the table invariant |
| `KernelCache.LookupIsSound` | bench/bench_kernel_cache.cpp:53-80 | in every run a non-null lookup returns a kernel that an insert supplied for exactly that pair |
| `KernelCache.LaterLookupFinds` | bench/bench_kernel_cache.cpp:82-117 | in every run, after an insert of a pair has succeeded, a lookup that begins later is never null |
| `KernelSolo.SoloInsertIsFound` | bench/bench_kernel_cache.cpp:53-117 | in every run, when no other insert of the pair runs beside a successful insert or begins after it, a later lookup returns the kernel of that insert |
| `KernelProgress.CallEnds` | bench/bench_kernel_cache.cpp:53-117 | a lookup or an insert that runs alone ends, and an insert with a free entry before it ends well |
| `KernelProgress.LoneInsertSucceeds` | bench/bench_kernel_cache.cpp:82-117 | in every run an insert that begins while an entry is free, and then runs alone, ends well |
| `ArenaLayout.AlignedOffsetIsExact` | include/crucible/Arena.h:116-118 | the 64-bit mask arithmetic gives the exact next aligned offset, also at the end of the address space |
| `ArenaLayout.FastPathExact` | include/crucible/Arena.h:120 | the fast path serves only what ends inside the block if and only if the sum does not wrap into the block |
| `ArenaLayout.SaturatedRequestServed` | include/crucible/Arena.h:155-163 | a request of SIZE_MAX bytes takes the fast path and moves the offset back to the start |
| `ArenaLayout.BlockLimitUnreached` | include/crucible/Arena.h:60-63 | 64 doubling blocks never fit into a 64-bit address space |
| `ArenaLayout.TotalBound` | include/crucible/Arena.h:316-317 | the sizes of disjoint blocks add up to less than the address space |
| `Arena.Arena.constructor` | include/crucible/Arena.h:69-78 | one block, nothing given out |
| `Arena.Arena.Alloc` | include/crucible/Arena.h:107-127 | the result is aligned; it lies in a block and apart from all other allocations of the epoch if and only if the sum of the fast path does not wrap, and a sum that wraps moves the offset back |
| `Arena.Arena.AllocSlow` | include/crucible/Arena.h:274-288 | the slow path serves the request from a later or a new block |
| `Arena.Arena.EnterBlock` | include/crucible/Arena.h:299-327 | a later block with the bytes becomes the current one; only a host without memory stops it |
| `Arena.Arena.AddBlock` | include/crucible/Arena.h:304-318 | block k has at least block_size * 2^k bytes, saturating; the retained bytes are the sum of the blocks |
| `Arena.Arena.TotalAllocated` | include/crucible/Arena.h:246-254 | the bytes given out are the whole of each block that was the current one before and the offset, and at most the bytes held |
| `ArenaLayout.PassedBound` | include/crucible/Arena.h:246-250 | the blocks that were the current one count as much as all blocks before the current one if and only if none was skipped |
| `ArenaLayout.SkippedNotCounted` | include/crucible/Arena.h:299-320 | three blocks of which the second is skipped: 64 bytes count where the blocks before have 192 |
| `Arena.Arena.FreeBlocksFrom` | include/crucible/Arena.h:331-340 | the blocks before the index stay, and the retained bytes are their sum |
| `Arena.Arena.Destroy` | include/crucible/Arena.h:82-87 | an arena without an open epoch ends with no block and no retained byte |
| `Arena.Arena.EndEpoch` | include/crucible/Arena.h:351-364 | no allocation is left; above the limit only the first block stays |
| `Arena.Arena.OpenEpoch` | include/crucible/Arena.h:432-441 | an epoch opens exactly when none is open and the arena is empty |
| `Text.Hex16` | src/Cipher.cpp:227-233 | sixteen hexadecimal digits, filled from the last |
| `Text.HexRoundTrip` | src/Cipher.cpp:227-233 | a 64-bit number reads back from its sixteen digits |
| `Text.DecRoundTrip` | src/Cipher.cpp:296-300 | a 64-bit number reads back from its decimal text |
| `CipherLog.ParseRecord` | src/Cipher.cpp:747-771 | a committed record reads back, also behind zeros that a torn line left |
| `CipherLog.ParseTorn` | src/Cipher.cpp:862-875 | a record cut at any byte reads as nothing or as the same step and hash |
| `CipherLog.LoadLog` | src/Cipher.cpp:858-885 | the loop reads the lines of the text in order and skips lines that do not parse or go back in step |
| `CipherLog.LoadIsSorted` | src/Cipher.cpp:876-879 | whatever the file holds, the loaded log is in step order |
| `CipherLog.LoadIsCommitted` | src/Cipher.cpp:858-885 | whatever the file holds, the loaded log is one that commits could have made |
| `CipherLog.PrefixLoads` | src/Cipher.cpp:719-776 | commits on a file whose last line is empty or zeros, cut at any byte: the file loads as before and then as a prefix of the committed pairs, with every whole line and at most one pair more; uncut it loads every commit |
| `CipherLog.ReopenLoadsIff` | src/Cipher.cpp:719-776 | commits after an open read back after what the open loaded if and only if the last line of the file was empty or zeros |
| `CipherLog.TornTailInventsCommit` | src/Cipher.cpp:758-776 | one byte left of the commit of step 10: the commits of steps 11 to 110 after the open are all lost, and the log shows a commit of step 111 that nobody made |
| `CipherLog.HashAtStep` | src/Cipher.cpp:662-689 | the hash of the last committing entry with step <= the query, and none exactly when there is none |
| `CipherLog.Store.Open` | src/Cipher.cpp:858-885 | a store on any bytes has the log that they load as |
| `CipherLog.Store.AdvanceHead` | src/Cipher.cpp:719-776 | on any opened store the log and the file grow by one record; a file that loads as the log still does if and only if its last line was empty or zeros, and then every later commit keeps it so |
| `Wire.EventReads` | include/fixy/session/EventLog.h:479-494 | an event whose fields fit and pass the checks reads back from its 72 bytes |
| `Wire.RecordWrites` | include/fixy/session/EventLog.h:545-590 | 72 bytes that decode are the encoding of the event that they decode as, and its fields fit and pass the checks |
| `Wire.EntryReads` | include/crucible/cipher/FederationProtocol.h:161-284 | an entry that the writer accepts, with a 64-bit hash and row, reads back from its header and payload |
| `Wire.EmptyHash` | src/Cipher.cpp:691-707 | the hash of no bytes |
| `Wire.BatchHash` | src/Cipher.cpp:691-707 | the hash of any payload is a 64-bit number that is neither zero nor the greatest one |
| `SessionEvents.OwnFormatFits` | src/Cipher.cpp:691-707 | the hash of the store meets all that the round trip of a directory asks of it |
| `SessionEvents.SealedFits` | src/Cipher.cpp:486-516 | a batch that the store accepts always has a file, and the file reads back as its hash, row and payload |
| `SessionEvents.IndexRoundTrip` | src/Cipher.cpp:302-317 | an index line reads back |
| `SessionEvents.AppendIndexIff` | src/Cipher.cpp:518-560 | a line appended to an index adds its entry if and only if the index ended in a newline, was empty, or ended in a line of zeros |
| `SessionEvents.TornLineLosesReappend` | src/Cipher.cpp:523-526 | an index line cut after its first comma: the line that the next store of the batch appends is lost with it |
| `SessionEvents.CheckBatch` | src/Cipher.cpp:629-648 | exactly the batches of the session with consecutive steps, all later than what is loaded |
| `SessionEvents.LoadEvents` | src/Cipher.cpp:567-660 | the loader is the fold of the reference step over the index lines |
| `SessionEvents.LoadAlwaysFits` | src/Cipher.cpp:567-660 | whatever the index and the files hold, loaded steps strictly increase, are at or after from_step and of one session |
| `SessionEvents.SessionStore.CheckPersist` | src/Cipher.cpp:463-484 | accepts exactly the non-empty batches of one session with consecutive steps |
| `SessionEvents.SessionStore.Persist` | src/Cipher.cpp:462-565 | on any directory stores the batch file and appends one index line, or changes nothing on an invalid batch or a hash whose file has other bytes |
| `SessionEvents.SuffixIsFilter` | src/Cipher.cpp:649-654 | the suffix that the loader takes of a batch with consecutive steps is its events with a step at or after from_step, event by event |
| `SessionEvents.LoadIsFilter` | src/Cipher.cpp:567-660 | whatever the index and the files hold, the loaded events are those at or after from_step of the batches that the loader takes, event by event |
| `SessionEvents.LoadReturnsStored` | src/Cipher.cpp:462-660 | after batches in step order with any immediate repeats, loading returns their events at or after from_step in order, each once; an event is loaded if and only if a stored batch holds it and its step is at or after from_step |
| `RankSum.RankUnion` | bench/bench_harness.h:1091-1106 | the loop gives each value the average rank of its ties and sums t*t*t - t over tie groups |
| `RankSum.RankSumOfA` | bench/bench_harness.h:1108-1110 | the rank sum of A is its score against B plus n1(n1+1)/2 |
| `RankSum.RanksAddUp` | bench/bench_harness.h:1080-1104 | with any ties the ranks sum to N(N+1)/2 |
| `RankSum.TieSumBound` | bench/bench_harness.h:1101 | the tie sum is at most N^3 - N, with equality exactly for one tie group |
| `RankSum.CorrectionSign` | bench/bench_harness.h:1115-1121 | the variance factor is never negative, and zero exactly when at least two values are all tied |
| `RankSum.RankStatistic` | bench/bench_harness.h:1080-1119 | u1 is the number of pairs with a > b plus half the equal pairs, u2 is the same for b, for any order in which the sort leaves ties |
| `RankSum.Compare` | bench/bench_harness.h:1054-1133 | fewer than 30 values compare as nothing; otherwise the smaller count is at most its mean, so its distance is never positive and is that of the first sample exactly when it is greater in at most one pair more, the variance is zero exactly when all values are tied, and the verdict compares the squares |
| `RankSum.CompareSeparated` | bench/bench_harness.h:1054-1133 | samples of which one is all below the other are told apart, for all sizes from 30 on and any ties |
| `RankSum.CompareBalanced` | bench/bench_harness.h:1054-1133 | samples that are greater in as many pairs each have distance zero and are not told apart |
| `RankSum.ClassicalVariance` | bench/bench_harness.h:1115-1122 | without ties twelve times the variance is the pairs times one more than the values |
| `RankSum.CriticalIffFar` | bench/bench_harness.h:1124-1133 | the verdict on squares is that z is more than 2.576 on either side |
| `RankSum.SignIsRightIff` | bench/bench_harness.h:1054-1133 | the distance of the smaller count is the distance of the count of the first sample, with its sign, if and only if the first sample is greater in at most one pair more than the second |
| `RankSum.HigherSampleReadsLower` | bench/bench_harness.h:1113-1133 | 30 values of 1 against 30 values of 0: the first sample is greater in all 900 pairs, and its distance is -449.5 |
| `TriangularProbe.GroupsDiffer` | bench/bench_swiss_table.cpp:83-84 | two probes of one cycle never meet the same group |
| `TriangularProbe.EveryGroupMet` | bench/bench_swiss_table.cpp:83-84 | a cycle of triangular probes over a power of two meets every group |
| `SwissTable.ProbeStops` | bench/bench_swiss_table.cpp:67-107 | for every group width, with one empty slot no probe passes every group |
| `SwissTable.Table.Insert` | bench/bench_swiss_table.cpp:67-86 | terminates with one empty slot, fills an empty slot with tag and hash, and adds exactly that hash |
| `SwissTable.Table.Find` | bench/bench_swiss_table.cpp:88-107 | terminates with one empty slot, and is true exactly for hashes that were inserted |

## Left out

- MemoryPlanner.ComputeMemoryPlan: requires that every size is at most 2^64 - 256 and that the rounded sizes of the internal slots add up to less than 2^64, because the sums of the source wrap beyond that; the rounding alone has its exact condition in PlanLayout.AlignedSizeCovers.
- TracePlan.PlanTrace: states the same size bound on the accesses of the trace, and requires op numbers below 2^32 - 3, which the ring of pending ops keeps far below.
- TraceStorage.StoragesIff: says that a slot has one pointer, not that a pointer has one slot: an external pointer that is read again, or a pointer that one op outputs twice, gets a further slot.
- SwissTable.Table.Insert: requires an empty slot, because the loop of the source does not end on a full table.
- Pipeline.CommitCoversWorks: epochs and counts are unbounded numbers, so a wrap of the 32-bit reset epoch is not modelled; a pipeline without a metadata log, which sends no works, is not modelled.
- Mailbox.CallReturns: gives a run in which the call returns, as do Mailbox.PostedJobFinishes, PipelineRuns.FlushEnds and KernelProgress.CallEnds; fairness of the scheduler is not modelled.
- Reclamation.NamedRegionsLive: covers regions of the store; a region that `Vigil::load` reads into its own arena is not modelled.
- Reclamation.ActiveRegionLive: goes one way, because a region that a write left out stays in the store for as long as the log, the slot or the queue still names it.
- RankSum.Compare: compares squares in place of the root, so z itself is not computed; numbers are exact.
- SessionEvents.SessionStore.Persist: the class is the directory of one session; the choice of the directory by session is not modelled.
- KernelCache.LookupIsSound: the spin budget is modelled as a wait that may give up at any time.
- The free list keeps sizes and offsets in two arrays; the model keeps one array of pairs. The pending ops keep four parallel arrays; the model keeps one array of records.
- Masks with a power of two minus one are modelled as the low part of the number.
- Device, dtype and layout fields, content hashes, CSR arrays and the Merkle hash: opaque values that no property here depends on.
- `src/Cipher.cpp` object files, HEAD, the resident cache, directories, file descriptors and failed writes: files are byte sequences with successful appends.
- The keys, fingerprints, window table and refuted periods of the iteration detector, and the transaction log: abstract environments of the detect stage and of the reclamation.
- The trace ring, the replay engine, thread start and stop, memory orders, prefetching, poisoning and statistics other than the rank sum: no property here depends on them, or they are behaviour of the operating system and the memory model.
