# Models and proofs for the ABK 5.15 kernel backport

The repository is a graft engine: Python that rewrites a kernel tree by text anchors and installs
C payloads.  This project models the algorithms in the payloads, in the form they have after the
graft, and the engine itself, and proves what they are for.  Verify it with
`dafny verify dfyconfig.toml`.

Each component has a value-level model, the lemmas about it, and where the source changes state in
place a class whose methods are proved equal to that model.  Concurrent code is a step system: what
happens under one lock, or between two points where others can interfere, is one step, and a run is
any interleaving of enabled steps.

| files | component |
|---|---|
| CArith, EevdfMath, EevdfRunning, EevdfEntity, Eevdf | EEVDF scheduling: the O(1) average, lag, deadlines, placement, reweighting, yield, the selector |
| Kcompressd, KcompressdSafety, KcompressdProgress, KcompressdEnds, KcompressdPin, KcompressdNode | the kcompressd queue between reclaim, drain thread and hotplug |
| ZramSlots, ZramWriteback, ZramOwnership, ZramSweepSafety, ZramSweepRuns, ZramSweepVisits, ZramManySweeps, ZramManyRuns, ZramDevice | zram slots and statistics, the pipelined writeback sweep, several sweeps at once |
| ZramRecompress, ZramCompressors | zram recompression and its sweep |
| CgroupTree, MemcgColumn, MemcgStats, MemcgTable | compact memcg statistics and hierarchical flushing |
| Psi, PsiExact, PsiCpu | pressure accounting with the ONCPU bit |
| Mglru, MglruLists | the generation window of the multi-generation LRU |
| GraftText, GraftEngine, GraftRuns, GraftChild, GraftContext, GraftConfigs | replacement, transactional steps, child runs, dry runs, snapshots, defconfig symbols |
| RangeClose | close_range() by bitmap |
| LaunchCache | the launch page-cache recorder and replayer |

## What the environment is

Kernel helpers the repository only calls are parameters or stated contracts: `scale_load_down()`
and `calc_delta_fair()` are functions of the scheduler's environment; the vruntime that
`place_entity()`'s CFS half computes is an argument; compressors, their lengths and zsmalloc's size
classes are functions; `page_inc_gen()` may answer any live generation but the oldest; allocation,
I/O and read results are inputs or nondeterministic steps; which pressure states follow from counts
is a function; rstat visits a subtree children first.  Virtual time, counters and block numbers are
mathematical integers, except the write budget, whose u64 wrap is modelled.

## What the proofs found

- Lag survives placement to within one exactly when the tree's weighted vruntime sum covers
  `(lag - 1) * (load + weight)`; otherwise the unsigned vruntime stops at zero and lag is lost
  (`PlacementKeepsLag`, `SaturationLosesLag`).
- The scaling counts the tree, the average the running entity as well.  Beside a queued current of
  weight C, a lag L of an entity of weight w against a tree of weight W grows by
  `L * w * C / ((W + C + w) * W)`: it survives while that is at most 1 and never from 3 on,
  as long as the vruntime does not stop at zero (`PlacementBesideCurrent`, `RunningCurrentInflatesLag`).  Beside a current alone it shrinks
  (`PlacementBesideOnlyCurrent`).
- `dequeue_entity()`'s comment says a sleeping entity keeps its relative deadline; the code stores
  it for an entity that does not sleep.  The model follows the code.
- A generation ring slot outside the window can hold pages, of a type that takes no part in
  eviction; those pages are the youngest once max_seq has advanced (`LeftSlotEmptyIff`,
  `OldestAnonBecomesYoungest`).
- ZRAM_INCOMPRESSIBLE is never set.  `num_active_comps` starts at 1 and is incremented for every
  compressor, the primary included, so the number of attempts that would set the flag is one more
  than there can be (`NeverIncompressible`, `ZramCompressors`), and the sweep's test of the flag
  never filters a slot.
- A budget that is not a whole number of pages would wrap; `writeback_limit_store()`'s rounding is
  what prevents it (`ChargeWrapsBelowOnePage`, `StoredLimit`).
- `apply_steps()` reports "partial" when some steps are already present, an optional anchor is
  missing and nothing applies; `run_child()` then refuses the run although nothing went wrong
  (`PartialWithoutEdit`, `PartialIsRefused`).
- `ctx.write()` fills the cache before `write_text()` raises for a file the tree has not.  The group
  degrades, `pending_writes()` does not list the file, and later groups read the text; a dry run
  does not raise, but lists the file, which is how to know beforehand (`NormalEndIsHonest`,
  `DryRunForetells`, `DryRunAgrees`, `StrayTextIsKept`).
- `replace_once()` chooses line ends by the anchor, not by the file: in a CRLF text a one-line anchor
  is replaced by a block with bare line feeds (`OneLineAnchorMixesEnds`).
- `enable_configs()` rewrites one conflicting line per symbol and none if the wanted line exists
  anywhere, so a second conflicting line survives (`SettledIff`, `SecondConflictStays`).

## Model

| member | source | states |
|---|---|---|
| EevdfMath.AvgVruntimeIsFloor | scripts/batch15_perf_eevdf.py:482-503 | the average is min_vruntime plus the mathematical floor of the weighted mean, for either sign of the sum |
| EevdfMath.RebaseKeepsAverage | scripts/batch15_perf_eevdf.py:290-296 | moving the origin and re-basing the sum leaves the average unchanged |
| EevdfMath.EligibleIffLagNonNegative | scripts/batch15_perf_eevdf.py:569-572 | comparing with the rounded average decides the sign of the exact, unrounded lag |
| EevdfMath.LeftmostIsEligible | scripts/batch15_perf_eevdf.py:569-572 | of any competing entities with positive load the leftmost is eligible, so somebody always is |
| EevdfMath.LagsCancel | scripts/batch15_perf_eevdf.py:482-503 | the lags of all competitors cancel to within less than one unit of rounding per unit of weight |
| EevdfMath.PlacementKeepsLag | scripts/batch15_perf_eevdf.py:596-624 | lag read back after placement and enqueue is the clamped stored lag to within one, if and only if the tree's weighted vruntime sum can pay for it; a scaled lag within the average is always enough |
| EevdfMath.SaturationLosesLag | scripts/batch15_perf_eevdf.py:610-624 | the failing half at a concrete input: a lag of 100 against a tree at virtual time 10 is read back as 5 |
| EevdfMath.UnsaturatedPlacement | scripts/batch15_perf_eevdf.py:596-608 | the two truncating divisions together lose at most one, towards zero lag |
| EevdfMath.SaturatedPlacement | scripts/batch15_perf_eevdf.py:610-624 | what is read back when subtracting the lag would make the unsigned vruntime negative |
| EevdfMath.InitialPlacementHasNoLag | scripts/batch15_perf_eevdf.py:668-712 | an entity placed at the average has lag 0 |
| EevdfMath.EmptyQueueForgetsLag | scripts/batch15_perf_eevdf.py:596-608 | an empty queue cannot hold a lag: it reads back as 0 |
| EevdfRunning.PlacementBesideCurrent | scripts/batch15_perf_eevdf.py:596-624 | with a queued current, for all weights: the lag is multiplied by 1 + w*C/((W+C+w)*W) up to rounding, so it survives to within one while L*w*C is at most (W+C+w)*W and never from three times that on; with the exact condition for every case, saturated ones included |
| EevdfRunning.PlacementBesideOnlyCurrent | scripts/batch15_perf_eevdf.py:596-624 | with an empty tree the lag is not scaled and shrinks by w/(C+w): within one while L*w is at most C+w, never from twice that on |
| EevdfRunning.CarriedWithoutCurrent | scripts/batch15_perf_eevdf.py:596-624 | the general statement specialises to PlacementKeepsLag's condition when nobody runs |
| EevdfMath.RunningCurrentInflatesLag | scripts/batch15_perf_eevdf.py:596-608 | a concrete input: beside a running current a stored lag of 30 is read back as 40 |
| EevdfEntity.LagIsTaken | scripts/batch15_perf_eevdf.py:584-594 | the stored lag in the fields: its sign says who owes whom among the competitors, its size is the floored mean less vruntime, cut at the limit |
| EevdfEntity.RequestLength | scripts/batch15_perf_eevdf.py:635-666 | one request is worth calc_delta of the entity's own slice, or of the default if it has none, and at least 1 |
| EevdfEntity.SetRelDeadline | scripts/batch15_perf_eevdf.py:515-519 | the tag bit and the stored distance do not disturb each other |
| EevdfEntity.RefreshLeavesRequest | scripts/batch15_perf_eevdf.py:635-666 | in the fields: a pending relative deadline becomes absolute, a used-up request is renewed from where the entity stands by its slice in virtual time, another is kept |
| EevdfEntity.ChargeAdvances | scripts/batch15_perf_eevdf.py:821-831 | charging moves vruntime by calc_delta of the time run and leaves a request ahead |
| EevdfEntity.ForfeitedRequest | scripts/batch15_perf_eevdf.py:1277-1310 | a forfeited request is given up whole: the entity stands at its old deadline, the new one a request further |
| EevdfEntity.PlacedInitially | scripts/batch15_perf_eevdf.py:668-712 | a new entity stands at the average, without lag, with half a request or the one that is pending |
| EevdfEntity.PlacedByLag | scripts/batch15_perf_eevdf.py:668-712 | placement gives a pending relative deadline back and keeps the lag exactly when PlacementKeepsLag's condition holds |
| EevdfEntity.PlacedKeepsLag | scripts/batch15_perf_eevdf.py:668-712 | the lag read back from an entity placed by place_entity() on any queue, with or without a queued current |
| EevdfEntity.UnplacedKeepsVruntime | scripts/batch15_perf_eevdf.py:668-712 | without lag or pending deadline an entity stays where CFS put it |
| EevdfEntity.MigrationKeepsLagAndDeadline | scripts/batch15_perf_eevdf.py:529-537 | off one queue and onto another: the remaining request is kept exactly, the lag as in PlacedByLag |
| EevdfEntity.ReweightConservesService | scripts/batch15_perf_eevdf.py:871-900 | a weight change conserves weight times lag to within a weight and rounds weight times pending deadline down |
| Eevdf.SchedEntity.PlaceAgainst | scripts/batch15_perf_eevdf.py:668-712 | the in-place placement computes Place |
| Eevdf.CfsRq.AvgIsMeanOfCompeting | scripts/batch15_perf_eevdf.py:482-503 | the O(1) average equals the weighted mean over the tree and the queued current |
| Eevdf.CfsRq.AvgIsFloorOfMean | scripts/batch15_perf_eevdf.py:482-503 | that mean is floored |
| Eevdf.CfsRq.EligibleMeansOwed | scripts/batch15_perf_eevdf.py:569-572 | on the live queue, eligible by the O(1) average means exactly: not ahead of the weighted mean of all competitors |
| Eevdf.CfsRq.EnqueueTree | scripts/batch15_perf_eevdf.py:402-409 | enqueueing keeps tree order and both accumulators exact |
| Eevdf.CfsRq.DequeueTree | scripts/batch15_perf_eevdf.py:410-416 | dequeueing keeps tree order and both accumulators exact |
| Eevdf.CfsRq.UpdateMinVruntime | scripts/batch15_perf_eevdf.py:348-386 | the origin becomes the larger of itself and the slowest competitor, the sum stays exact |
| Eevdf.CfsRq.CandidateIsSlowest | scripts/batch15_perf_eevdf.py:348-386 | what the origin is moved to is the least vruntime of all who compete, and the old origin if nobody does |
| Eevdf.CfsRq.UpdateCurr | scripts/batch15_perf_eevdf.py:821-831 | charging current renews its request, keeps the sums exact and the origin monotone |
| Eevdf.CfsRq.EnqueueEntity | scripts/batch15_perf_eevdf.py:926-931 | an entity with lag or a pending deadline is placed against the queue it joins, current itself staying outside the tree; sums stay exact, and the lag the live queue then reads for it is the stored one as LagKept says |
| Eevdf.CfsRq.DequeueCharged | scripts/batch15_perf_eevdf.py:958-970 | the stored lag is positive exactly when the entity is owed service by the competitors it leaves, and is the floored weighted mean less its vruntime, cut at calc_delta of max(2 * slice, tick); the open request is stored unless it sleeps |
| Eevdf.CfsRq.DequeueEntity | scripts/batch15_perf_eevdf.py:939-970 | the whole dequeue: current charged, the lag stored as in DequeueCharged for the queue after the charge, entity out of tree and buddies, origin monotone |
| Eevdf.CfsRq.SetNextEntity | scripts/batch15_perf_eevdf.py:1036-1045 | the picked entity leaves the tree, its deadline is stashed, no buddy points at it |
| Eevdf.CfsRq.PutPrevEntity | scripts/batch15_perf_eevdf.py:402-409 | the charged current returns to the tree exactly if still queued |
| Eevdf.CfsRq.ReweightQueued | scripts/batch15_perf_eevdf.py:871-919 | a queued entity's lag is taken against the competitors it leaves, as in DequeueCharged, scaled and the entity placed again against the queue without itself; the lag the live queue then reads for it is the scaled one as LagKept says |
| Eevdf.CfsRq.ReweightCharged | scripts/batch15_perf_eevdf.py:871-919 | the same for the running entity: its lag is taken among the competitors it is one of, which count it at its new weight afterwards |
| Eevdf.CfsRq.ReweightEntity | scripts/batch15_perf_eevdf.py:871-919 | on every path membership, exact sums and the monotone origin survive a weight change |
| Eevdf.CfsRq.YieldTask | scripts/batch15_perf_eevdf.py:1277-1310 | yield charges current, forfeits its request exactly if it is then owed service among the competitors, and makes it the skip buddy |
| Eevdf.CfsRq.FirstInTreeIsEligible | scripts/batch15_perf_eevdf.py:731-791 | when current is not eligible the first tree entity is: why the fallback is sound |
| Eevdf.CfsRq.PickEevdf | scripts/batch15_perf_eevdf.py:731-791 | the pick is eligible; run-to-parity keeps an eligible current; otherwise no eligible entity of the tree but skip, no eligible current and no eligible queued next buddy has an earlier deadline, or the same deadline and a smaller vruntime; skip is picked only as current, next or sole eligible one |
| KcompressdSafety.RunKeepsInv | scripts/batch41_core_vm_kcompressd.py:342-405 | every interleaving keeps pins, references, order and counts |
| KcompressdSafety.DeferredWritesHitTheirSlot | scripts/batch71_core_kcompressd_wb_pin.py:17-63 | every deferred write in every run goes to the slot the page owned when queued, and no page was ever dropped for a freed slot |
| KcompressdSafety.QueueIsFifoAndAccounted | scripts/batch41_core_vm_kcompressd.py:342-405 | pages leave in submission order, the ring never exceeds 256, references equal ring plus in flight, enqueued equals swapped plus dropped plus ring plus in flight |
| KcompressdSafety.EnqueueNeverOverflows | scripts/batch41_core_vm_kcompressd.py:371-391 | whatever the soft limit has been, the ring has room when kfifo_in() is reached |
| KcompressdProgress.NothingEntersUntilAdded | scripts/batch41_core_vm_kcompressd.py:712-747 | over any stretch of a run from the start of teardown to the next bring-up nothing enters the ring; once the node is down the ring is empty and stays so |
| KcompressdProgress.NoDeadlock | scripts/batch41_core_vm_kcompressd.py:342-405 | in every reachable state each thread that holds or carries a page can move, or a chain of waiting threads, each after an older submission, leads to one that can: locking a popped page while holding the own one does not deadlock |
| KcompressdProgress.HolderOfPopped | scripts/batch41_core_vm_kcompressd.py:315-319 | whoever holds the lock of a popped page is its queuer or a passer-by, and if it waits in turn it waits for an older page |
| KcompressdEnds.NoWritebackIsForgotten | scripts/batch71_core_kcompressd_wb_pin.py:17-85 | in every reachable state a page under writeback has a bio under way, waits in the ring, or is with a thread that is to end its pin |
| KcompressdEnds.FreedNodeIsQuiet | scripts/batch41_core_vm_kcompressd.py:712-747 | when del_node() frees the ring it is empty and neither thread of the node carries a page |
| KcompressdEnds.RingIsServed | scripts/batch41_core_vm_kcompressd.py:735-747 | as long as a page is queued one of the two threads has one in hand or can take the head, in every phase |
| KcompressdEnds.LimitTakesEffect | scripts/batch41_core_vm_kcompressd.py:371-391 | a lowered soft limit is in force for the next submission: the oldest page leaves for the new one |
| KcompressdPin.StrayWriteIsReached | scripts/batch71_core_kcompressd_wb_pin.py:17-35 | without the writeback pin a run from boot reaches a deferred write that misses the slot its page was queued for |
| KcompressdPin.WithoutPinTheWriteGoesAstray | scripts/batch71_core_kcompressd_wb_pin.py:17-35 | whenever the drain has checked an unpinned page, the slot can still be freed behind its back |
| KcompressdSafety.PinsAfter | scripts/batch71_core_kcompressd_wb_pin.py:17-85 | each single step keeps every carried page locked or under writeback |
| KcompressdSafety.ReferencesAfter | scripts/batch41_core_vm_kcompressd.py:377-391 | each single step keeps the extra references equal to ring plus in flight |
| KcompressdNode.Node.FifoIn | scripts/batch41_core_vm_kcompressd.py:377-392 | get_page() and kfifo_in(), undone when the ring is full |
| KcompressdNode.Node.Enqueue | scripts/batch41_core_vm_kcompressd.py:342-405 | the critical section refines the model's enqueue step |
| KcompressdNode.Node.CheckSwapCache | scripts/batch71_core_kcompressd_wb_pin.py:71-85 | the drop branch ends the pin and drops the reference |
| KcompressdNode.Node.EndPageWriteback | scripts/batch71_core_kcompressd_wb_pin.py:46-63 | the pin ends under the page lock |
| KcompressdNode.Node.SwapOut | scripts/batch41_core_vm_kcompressd.py:262-319 | undisturbed, a swap-out writes the page to its queued slot, unlocks, counts and puts it |
| KcompressdNode.Node.DrainRest | scripts/batch41_core_vm_kcompressd.py:735-747 | the teardown writes the rest of the ring oldest first, each page to its slot, until the ring may be freed |
| ZramSlots.FreePageKeepsStats | scripts/batch32_core_zram_wb_slot_preserve.py:123-136 | freeing a slot keeps the three statistics exact, huge or written back or not |
| ZramSlots.WriteBackKeepsStats | scripts/batch32_core_zram_wb_slot_preserve.py:71-120 | completion keeps the three statistics exact |
| ZramSlots.StoreKeepsStats | scripts/batch32_core_zram_wb_slot_preserve.py:123-136 | a store over any slot keeps the three statistics exact |
| ZramSlots.RecompressKeepsStats | scripts/abk_stable_core.py:2755-2768 | a recompression keeps the three statistics exact |
| ZramSlots.StatsNonNegative | scripts/batch32_core_zram_wb_slot_preserve.py:71-120 | no counter is negative |
| ZramSlots.StoreWriteBackFreeIsNeutral | scripts/batch32_core_zram_wb_slot_preserve.py:123-136 | a slot stored, written back and freed takes its huge page off the counter once, not twice |
| ZramSlots.FreedSlot | scripts/batch32_core_zram_wb_slot_preserve.py:123-136 | all a freed slot keeps is the mark of the sweep that holds it; its block, if written back, is free |
| ZramSlots.StoredSlot | scripts/batch32_core_zram_wb_slot_preserve.py:123-136 | a stored slot holds the new contents whatever it held before, huge exactly at PAGE_SIZE |
| ZramSweepSafety.PoolAfter | scripts/batch17_core_zram_writeback.py:271-326 | idle, selected, in-flight and done requests partition the pool; num_inflight counts the last two |
| ZramSweepSafety.MarksAfter | scripts/batch17_core_zram_writeback.py:578-619 | each ZRAM_UNDER_WB slot has exactly one holder, the sweep or one request |
| ZramSweepSafety.ContentsAfter | scripts/batch32_core_zram_wb_slot_preserve.py:71-120 | an idle slot under writeback still holds what its request carries; a written-back slot's block holds its contents |
| ZramSweepSafety.OwnersAfter | scripts/batch17_core_zram_writeback.py:187-253 | each busy block passes between reservation, one request and one slot without being lost or shared |
| ZramSweepSafety.CoreAfter | scripts/batch17_core_zram_writeback.py:187-315 | every step of sweep, device and other users keeps all of it |
| ZramSweepRuns.SweepBounds | scripts/batch14_core_zram_writeback.py:115-152 | the range a sweep visits lies inside the table |
| ZramSweepRuns.BoundsCover | scripts/batch14_core_zram_writeback.py:115-152 | a page sweep goes over the page asked for, any other over every slot of the device |
| ZramSweepRuns.BlocksOwnedOnce | scripts/batch17_core_zram_writeback.py:533-685 | in every reachable state each busy block has exactly one owner and every index used is inside the table |
| ZramSweepRuns.WrittenSlotsHoldTheirContents | scripts/batch32_core_zram_wb_slot_preserve.py:71-120 | in every reachable state the statistics are exact and each written-back slot reads back what was stored |
| ZramManySweeps.OwnStepMoves | scripts/batch17_core_zram_writeback.py:187-253 | each step of a sweep or of one of its bios passes on at most one block, as the sweep sees it |
| ZramManyRuns.OkAfter | scripts/batch17_core_zram_writeback.py:533-685 | any step of any sweep, any slot traffic and sweeps coming and going keep the ownership of blocks and marks across all sweeps |
| ZramManyRuns.SweepsDoNotClash | scripts/batch17_core_zram_writeback.py:533-685 | with any number of overlapping sweeps each busy block has exactly one owner, each ZRAM_UNDER_WB slot exactly one holder, written-back slots read back what was stored and the statistics are exact |
| ZramManyRuns.LastSweepLeavesQuiet | scripts/batch17_core_zram_writeback.py:650-685 | once the last of them has left, no slot is marked and every busy block belongs to one written-back slot |
| ZramSweepRuns.FinishedIsQuiet | scripts/batch17_core_zram_writeback.py:650-685 | when init_lock is dropped nothing is in flight, no slot is marked, and every busy block belongs to one written-back slot |
| ZramSweepRuns.NeverStuck | scripts/batch17_core_zram_writeback.py:552-568 | a sweep that cannot move waits for a bio that is in flight |
| ZramSweepRuns.WorkShrinks | scripts/batch17_core_zram_writeback.py:534-685 | every step of sweep and device shrinks a measure that other slot traffic leaves alone |
| ZramSweepRuns.SweepTerminates | scripts/batch17_core_zram_writeback.py:534-685 | a sweep over n slots ends within 11 n + 12 steps of its own and of the device, whatever the interference; ZramSweepVisits says what it has done by then |
| ZramSweepVisits.EverySlotOnce | scripts/batch17_core_zram_writeback.py:534-620 | a sweep that reaches the end of its range has decided about each slot of it exactly once, and marked it exactly when it held an object of its own, nobody was writing it back and it was idle or huge as the mode asks |
| ZramSweepVisits.WholeTableOnce | scripts/batch17_core_zram_writeback.py:534-620 | for the idle and huge modes that is every slot of the device |
| ZramSweepVisits.DecidedUpToFront | scripts/batch17_core_zram_writeback.py:534-620 | however the loop ends, the slots decided about are those from the first of the range up to where it stopped, without a gap |
| ZramSweepVisits.WhyTheLoopEnds | scripts/batch17_core_zram_writeback.py:534-568 | the loop ends at the end of the range, with an enabled limit spent, or with every block taken, and for no other reason |
| ZramSweepVisits.FateOfSubmitted | scripts/batch32_core_zram_wb_slot_preserve.py:71-120 | a submitted slot that nobody frees, rewrites or reads until its bio is done ends up in its block, with flags and size kept, or unmarked with its object if the write failed; one that was disturbed gives the block back |
| ZramSweepVisits.RecompressedInPlace | scripts/abk_stable_core.py:2755-2768 | recompressing a slot under a running sweep changes its object and clears its idle mark, not its contents |
| ZramSweepRuns.BudgetConserved | scripts/batch17_core_zram_writeback.py:160-179 | budget left plus budget of pages in flight or written is constant; it never underflows and bounds the pages written |
| ZramSweepRuns.StoredLimit | scripts/batch14_core_zram_writeback.py:188-204 | the stored limit is the largest whole number of pages within the given one |
| ZramSweepRuns.ChargeWrapsBelowOnePage | scripts/batch14_core_zram_writeback.py:188-204 | charging wraps the u64 exactly when less than one page of budget is left |
| ZramDevice.Zram.FreePage | scripts/batch32_core_zram_wb_slot_preserve.py:123-136 | in-place zram_free_page() computes FreePage |
| ZramDevice.Zram.WritebackComplete | scripts/batch32_core_zram_wb_slot_preserve.py:71-120 | in-place completion computes Completed; errors roll the budget back |
| ZramDevice.WbCtl.constructor | scripts/batch17_core_zram_writeback.py:115-158 | the pool holds as many requests as could be allocated, up to the batch size, all idle |
| ZramDevice.WbCtl.SelectIdleReq | scripts/batch17_core_zram_writeback.py:316-325 | a request is selected exactly when one is idle |
| ZramDevice.WbCtl.SubmitWbRequest | scripts/batch17_core_zram_writeback.py:270-279 | charge, count and hand over |
| ZramDevice.WbCtl.WritebackEndio | scripts/batch17_core_zram_writeback.py:255-269 | a finished bio puts its request on the done list |
| ZramDevice.WbCtl.CompleteDoneReqs | scripts/batch17_core_zram_writeback.py:281-314 | the loop is a run of CompleteDone steps that stops when no done request is left or nothing is in flight, and reports whether one failed |
| MemcgColumn.FlushConserves | scripts/batch36_core_memcg_stats_slim.py:522-558 | a flush of any memcg on any cpu changes no memcg's aggregate-plus-underway total |
| MemcgColumn.AllUpdatesAccounted | scripts/batch36_core_memcg_stats_slim.py:522-558 | at any time, for every memcg: aggregate plus what is underway in its subtree equals all updates made there |
| MemcgColumn.FlushedAggregateIsExact | scripts/batch36_core_memcg_stats_slim.py:522-558 | after any history, a complete bottom-up flush leaves exactly the subtree's updates in the aggregate |
| MemcgStats.ListingFits | scripts/batch36_core_memcg_stats_slim.py:110-122 | slot numbers fit the signed 8-bit table |
| MemcgStats.InitIndex | scripts/batch36_core_memcg_stats_slim.py:110-144 | the index table answers the slot of a listed item and -1 for others; node items keep their own position; running it again changes nothing |
| MemcgStats.CompactRefinesFull | scripts/batch36_core_memcg_stats_slim.py:236-251 | after any history compact and full-width statistics agree on every listed item |
| MemcgStats.CompactFlushIsExact | scripts/batch36_core_memcg_stats_slim.py:522-558 | after any history and a complete flush a listed item's aggregate is the sum of its updates in the subtree |
| MemcgTable.StatTable.ModState | scripts/batch36_core_memcg_stats_slim.py:236-251 | an update lands in the item's slot or is dropped |
| MemcgTable.StatTable.FlushSlotShown | scripts/batch36_core_memcg_stats_slim.py:537-558 | one turn of the flush loop flushes that slot's column and no other |
| MemcgTable.StatTable.RstatFlush | scripts/batch36_core_memcg_stats_slim.py:522-558 | the flush loop flushes every listed column and touches nothing of unlisted items |
| Mglru.RunKeepsWindow | scripts/abk_stable_core.py:1395-1407 | over any run at any swappiness: two to four generations per type, monotone ends, nothing outside the window but in the slot max_seq takes next |
| Mglru.AdvancesKeepPages | scripts/abk_stable_core.py:1546-1581 | neither advance loses or duplicates a page or changes its type or zone |
| Mglru.RunKeepsTypesClose | scripts/abk_stable_core.py:1652-1660 | with swappiness always in 1..MAX_SWAPPINESS all slots outside the window are empty and the types drift by at most one generation |
| Mglru.TryMinKeepsInv | scripts/abk_stable_core.py:1626-1671 | moving min_seq past empty generations keeps the window and never moves backwards |
| Mglru.TryMinAdvances | scripts/abk_stable_core.py:1626-1671 | each evictable type's min_seq passes empty generations only and stops at its oldest populated one, at MIN_NR_GENS left, or at max_seq - MIN_NR_GENS while the other evictable type has older pages; a type that is not evictable stays |
| Mglru.AttemptKeepsInv | scripts/abk_stable_core.py:1703-1723 | each stretch of inc_max_seq() under the lock keeps the window, finished or restarted; a finished one moves just the min_seq of types whose ring was full |
| Mglru.LeftSlotEmptyIff | scripts/abk_stable_core.py:1546-1581 | the slot min_seq leaves is empty exactly when the type is evictable or it was empty before |
| Mglru.OldestAnonBecomesYoungest | scripts/abk_stable_core.py:1546-1581 | with swappiness 0 a page of the oldest anonymous generation ends up in the youngest |
| MglruLists.LruGen.IncMinSeq | scripts/abk_stable_core.py:1546-1581 | the loop moves pages as IncMin says, each to the end of the list page_inc_gen() names for it, in the order taken; when it gives up it has moved exactly a batch, so retries are bounded |
| MglruLists.LruGen.TryToIncMinSeq | scripts/abk_stable_core.py:1626-1671 | each type's min_seq moves as AdvancedMin says, see TryMinAdvances; success is reported exactly when an end moved |
| MglruLists.LruGen.TryToIncMaxSeq | scripts/abk_stable_core.py:1703-1723 | one stretch of inc_max_seq() is an Attempt; the oldest pages of a full, evictable type are where page_inc_gen() sends them, behind what was there, and no other page has moved |
| PsiExact.FirstMarkedIsCommon | scripts/abk_stable_perf.py:1932-1948 | the first marked group on next's way up is the lowest common ancestor |
| PsiExact.SameFlagsMeansNothingToDo | scripts/abk_stable_perf.py:1957-1971 | equal flags mean prev did not go to sleep and both tasks agree on memstall, so stopping loses nothing |
| PsiExact.SwitchKeepsExact | scripts/abk_stable_perf.py:1932-1971 | after every switch ONCPU marks exactly the running task's chain and every group's counts and states are those of the tasks below it |
| PsiExact.ChangeKeepsExact | scripts/abk_stable_perf.py:1845-1859 | a flag change walked to the root keeps every group exact |
| PsiExact.SwitchedTasks | scripts/abk_stable_perf.py:1932-1971 | in the flags: the next task alone is on the cpu, a previous one that sleeps no longer runs and waits for I/O if it says so, nobody else changes |
| PsiExact.ChangedTasks | scripts/abk_stable_perf.py:1845-1859 | a change sets and clears just its flags, of just its task |
| PsiExact.SwitchedGroup | scripts/abk_stable_perf.py:1899-1971 | each group's ONCPU bit is set where the next task runs below it, and its states are those of its counts with that task's memstall; a group that is switched off shows none |
| PsiExact.RunKeepsExact | scripts/abk_stable_perf.py:1932-1971 | the same over any run |
| PsiCpu.Cpu.GroupChange | scripts/abk_stable_perf.py:1845-1897 | psi_group_change() in place: counts, ONCPU carried, set or cleared, states derived unless accounting is off |
| PsiCpu.Cpu.WalkUp | scripts/abk_stable_perf.py:1957-1971 | the walk changes exactly the groups up to the one to stop at |
| PsiCpu.Cpu.MarkNext | scripts/abk_stable_perf.py:1939-1948 | the marking loop stops at the first marked group |
| PsiCpu.Cpu.TaskChange | scripts/abk_stable_perf.py:1845-1859 | a flag change walks to the root and keeps every group exact |
| PsiCpu.Cpu.TaskSwitch | scripts/abk_stable_perf.py:1932-1971 | the whole switch in place keeps every group exact |
| GraftText.ReplaceOnceSettles | scripts/abk_common.py:43-53 | "applied" is reported exactly when the text changed, and a second replacement finds its result and changes nothing |
| GraftText.ReplacedInLf | scripts/abk_common.py:43-53 | a text a + old + b, old first occurring behind a, becomes a + new + b with LF line ends |
| GraftText.ReplacedInCrlf | scripts/abk_common.py:43-53 | where the anchor is there with CRLF line ends only, the same with both blocks in CRLF |
| GraftText.ReportsWhatItFinds | scripts/abk_common.py:43-53 | already_present exactly if new is there in either form, missing_anchor exactly if neither block is, and then the text stays |
| GraftText.EitherLineEnd | scripts/abk_common.py:43-53 | blocks given with CRLF or with LF line ends make the same step |
| GraftText.OneLineAnchorMixesEnds | scripts/abk_common.py:34-53 | a concrete CRLF text whose one-line anchor is replaced by two lines joined by a bare LF |
| GraftText.OccursIs | scripts/abk_common.py:43-53 | where a block occurs, letter by letter |
| GraftText.CrlfRoundTrip | scripts/abk_common.py:34-53 | changing line ends to CRLF and back gives the block back |
| GraftText.EveryLineEndIsCrlf | scripts/abk_common.py:34-53 | in the CRLF form each line feed follows a carriage return |
| GraftRuns.Transaction | scripts/abk_backport_engine.py:318-358 | one required miss writes nothing; otherwise every file is the left fold of its steps, whose single step ReplacedInLf and ReplacedInCrlf spell out, and exactly the differing files are written; a real run raises exactly when the fold changes a text that is cached for a file the tree has not |
| GraftRuns.AnchorReplacedInFile | scripts/abk_backport_engine.py:318-358 | one step applied to a tree: the file on disk is a + new + b, all other files as before |
| GraftRuns.CrlfAnchorReplacedInFile | scripts/abk_backport_engine.py:318-358 | the same for a file with CRLF line ends |
| GraftRuns.StatusMeans | scripts/abk_backport_engine.py:340-358 | applied, partial, already_present and blocked_by_missing_anchor by which results the steps had |
| GraftRuns.RefusedMeans | scripts/abk_backport_engine.py:209-230 | refused: a claimed edit without a changed file, or a changed file without a claimed edit |
| GraftRuns.StepsRefusedIff | scripts/abk_backport_engine.py:209-230 | a step list is refused exactly when it claims an edit while its fold changes no file; a degraded one never is |
| GraftRuns.PartialWithoutEdit | scripts/abk_backport_engine.py:340-358 | refused are exactly the lists with some steps present, some optional anchors missing and none applied, for any list whose applied steps put in blocks their files did not hold at the start |
| GraftRuns.PartialIsRefused | scripts/abk_backport_engine.py:340-358 | a concrete list that is refused as partial without an edit |
| GraftRuns.UndoneIsRefused | scripts/abk_backport_engine.py:209-230 | a concrete list outside that condition: two applied steps that undo each other are refused as well |
| GraftRuns.SecondPassIsAlreadyPresent | scripts/abk_common.py:43-53 | in any list a second pass reports a step as already present when the first pass left its block and those of the earlier steps of its file in the text |
| GraftRuns.FoundBlocksStay | scripts/abk_common.py:43-53 | with one step per file that is so for every step that found something |
| GraftRuns.AllPresentIff | scripts/abk_common.py:43-53 | a pass reports every step as already present exactly when each step's block is in its file to begin with |
| GraftChild.StepsGroupIsApplySteps | scripts/abk_backport_engine.py:318-358 | a group that only calls apply_steps() does what apply_steps() does |
| GraftChild.MovesAreSound | scripts/abk_backport_engine.py:161-178 | whatever a group reads, writes and steps through, the context stays consistent, and a text without a file is left exactly by a real write to a file the tree has not |
| GraftChild.GroupIsHonest | scripts/abk_backport_engine.py:197-230 | each group of such a run: one reported as an edit has written a file that reads differently now, one reported as degraded has written none |
| GraftChild.NormalEndIsHonest | scripts/abk_backport_engine.py:197-230 | a child run that ends normally: claimed edits are real, degraded groups have changed no file, and they have left the cache alone exactly when no group wrote a file the tree has not |
| GraftChild.HonestyIsForetold | scripts/abk_backport_engine.py:197-230 | a caller knows beforehand: degraded groups of a normally ended real run have left the cache alone exactly when every file a dry run reported as pending is in the tree |
| GraftChild.StrayTextIsKept | scripts/abk_backport_engine.py:34-38 | a concrete group whose raised write leaves its text in the cache |
| GraftChild.DryRunForetells | scripts/abk_backport_engine.py:29-38 | the real run writes no file the tree has not exactly when every file the dry run reports as pending is in the tree |
| GraftChild.DryRunAgrees | scripts/abk_backport_engine.py:29-38 | groups of any kind: the real run has the statuses, end, texts and pending writes of the dry run exactly when every file the dry run reports as pending is in the tree; a dry run leaves disk and snapshots alone always |
| GraftChild.SnapshotsRestoreTheTree | scripts/abk_common.py:24-33 | after any number of runs every changed file has a snapshot of what was first found, and restoring gives the initial tree |
| GraftChild.DryRunLeavesTree | scripts/abk_backport_engine.py:29-38 | a dry run, whenever it comes and whatever its groups do, leaves tree and snapshots alone |
| GraftContext.Context.Read | scripts/abk_backport_engine.py:29-32 | read() answers from the cache or fills it |
| GraftContext.Context.Write | scripts/abk_backport_engine.py:34-38 | write() caches, raises for a file the tree has not unless dry, snapshots once, saves, marks dirty |
| GraftContext.Context.Apply | scripts/abk_backport_engine.py:318-358 | the two loops compute ApplySteps |
| GraftContext.Context.Run | scripts/abk_backport_engine.py:161-178 | a group's calls on the context compute RunGroup |
| GraftContext.Context.RunChild | scripts/abk_backport_engine.py:197-230 | the loop over groups computes RunChild, hard groups and refusals ending it |
| GraftConfigs.AllEnabled | scripts/abk_backport_engine.py:57-96 | every requested line that no later symbol conflicts with is there at the end |
| GraftConfigs.LastValueIsSet | scripts/abk_backport_engine.py:57-96 | each symbol is set to the last value asked for it, repeated names included |
| GraftConfigs.SecondCallChangesNothing | scripts/abk_backport_engine.py:57-96 | once all wanted lines are there, a call changes nothing |
| GraftConfigs.SettledIff | scripts/abk_backport_engine.py:71-88 | no line gives the symbol another state afterwards exactly when at most one did, and none if the wanted line was there already |
| GraftConfigs.AllSettledIff | scripts/abk_backport_engine.py:57-96 | over a whole call for distinct symbols each is left without a conflicting line exactly when the defconfig had at most one, and none if the wanted line was there |
| GraftConfigs.SecondConflictStays | scripts/abk_backport_engine.py:71-88 | a concrete defconfig with two conflicting lines, of which the second stays |
| GraftConfigs.ConflictIs | scripts/abk_backport_engine.py:71-88 | a line conflicts if it says "is not set" or sets exactly this name to another value |
| GraftConfigs.TurnIs | scripts/abk_backport_engine.py:57-96 | one symbol's turn: nothing if its line is there, else the first conflicting line is rewritten in place, else the line is appended, under a marker that is put in once |
| GraftConfigs.EnableConfigs | scripts/abk_backport_engine.py:57-96 | "already present" is reported exactly when every wanted line is there |
| ZramRecompress.RecompressionImproves | scripts/abk_stable_core.py:2700-2770 | a rewrite keeps the contents, strictly raises the priority and strictly lowers the size class; other exits leave the object alone |
| ZramRecompress.AcceptedIsRewritten | scripts/abk_stable_core.py:2700-2770 | the first compressor that is present, better than the slot's own and good enough rewrites the slot with its length and priority, if none before it fails and there is memory; without memory the slot stays |
| ZramRecompress.FailureIsReported | scripts/abk_stable_core.py:2722-2742 | the first compressor that fails ends the attempt and changes nothing but the idle mark |
| ZramRecompress.NothingTried | scripts/abk_stable_core.py:2700-2722 | an empty slot, a failed read, a slot below the threshold and an empty range each end it their own way, before any compressor |
| ZramRecompress.EligibleIs | scripts/batch24_core_zram_max_pages.py:83-101 | which slots the sweep spends an attempt on, in the fields |
| ZramRecompress.RecompressedKeepsStats | scripts/abk_stable_core.py:2755-2770 | every exit keeps the statistics exact |
| ZramRecompress.NeverIncompressible | scripts/abk_stable_core.py:2744-2748 | ZRAM_INCOMPRESSIBLE is never set: the loop tries at most all compressors but the primary, the test asks for one more |
| ZramRecompress.IncompressibleIff | scripts/abk_stable_core.py:2744-2748 | which value of num_active_comps would set it: one more than the compressors tried, each without error or success, the last without a smaller class |
| ZramRecompress.CountedWithoutTheExtraOne | scripts/abk_stable_core.py:2744-2748 | counting each compressor once, a full pass would mark a slot of the primary exactly when all others failed it |
| ZramCompressors.Compressors.constructor | scripts/abk_stable_core.py:3164-3169 | a new device counts one active compressor before any is created |
| ZramCompressors.Compressors.DisksizeStore | scripts/abk_stable_core.py:3131-3143 | one compressor per algorithm or none at all; the count stays one ahead |
| ZramCompressors.Compressors.DestroyComps | scripts/abk_stable_core.py:2629-2642 | destroying decrements once per compressor, back to one |
| ZramCompressors.Compressors.RecompressionNeverMarks | scripts/abk_stable_core.py:2744-2748 | on any initialized device no recompression sets the flag |
| ZramRecompress.Pointless | scripts/batch47_core_zram_recomp_skip.py:38-49 | the skip predicate holds exactly when the loop would try no compressor |
| ZramRecompress.SkippingLosesNothing | scripts/batch47_core_zram_recomp_skip.py:38-49 | then an attempt could not have rewritten the slot |
| ZramRecompress.TryCompressors | scripts/abk_stable_core.py:2722-2742 | the compressor loop stops at the first error or acceptable result, holding at most that stream |
| ZramRecompress.RecompressSlot | scripts/abk_stable_core.py:2700-2770 | on every exit each stream got has been put |
| ZramRecompress.RecompressSweep | scripts/batch24_core_zram_max_pages.py:83-101 | at most max_pages attempts, spent on the first eligible slots in index order; the device ends as those attempts make it |
| ZramRecompress.RewritesBounded | scripts/abk_stable_core.py:2700-2770 | over any sequence of stores, frees, recompressions, writebacks and idle or under-writeback changes a stored page is rewritten at most ZRAM_MAX_COMPS - 1 times |
| RangeClose.CloseAllIs | scripts/batch15_core_fs_pid_hotpaths.py:231-251 | what a range close means: the range's files closed in order, all else kept |
| RangeClose.BitmapClosesRange | scripts/batch15_core_fs_pid_hotpaths.py:219-296 | in a table where every file is marked, close_range() by bitmap closes just the files of first..max_fd, in order, and keeps every file marked |
| RangeClose.LastOfRange | scripts/batch15_core_fs_pid_hotpaths.py:231-251 | the files closed are in descriptor order, each once |
| RangeClose.BitmapAgreesIff | scripts/batch15_core_fs_pid_hotpaths.py:219-228 | asking the bitmap first agrees with probing exactly when no file of the range sits under a clear bit |
| RangeClose.Files.RangeCloseProbing | scripts/batch15_core_fs_pid_hotpaths.py:231-251 | the probing loop computes CloseAll |
| RangeClose.Files.RangeClose | scripts/batch15_core_fs_pid_hotpaths.py:253-296 | the bitmap walk computes the same, for every table size and max_fd |
| LaunchCache.RunKeepsRecords | scripts/abk_stable_core.py:5211-5291 | for any sequence of touches no two records share a file, and a record's bitmap holds page p exactly when p is below ABK_LP_PAGES and some touch accepted since its claim has first <= p <= last |
| LaunchCache.RequestMeets | scripts/abk_stable_core.py:5211-5263 | at any point of a run: dropped exactly if it has no page for a record or the file is another uid's, added to the uid's own record exactly if there is one, else a free or longest untouched slot is taken |
| LaunchCache.Recorder.Victim | scripts/abk_stable_core.py:5251-5263 | the victim is the first free slot, or a least recently touched one |
| LaunchCache.Recorder.Touch | scripts/abk_stable_core.py:5211-5291 | ignored exactly for first >= ABK_LP_PAGES, last < first or a file of another uid; otherwise just the pages first..last below ABK_LP_PAGES are added to the own record or start a new one |
| LaunchCache.SetBitsAre | scripts/abk_stable_core.py:5181-5205 | the replay order lists the set bits, each once, ascending |
| LaunchCache.ReadaheadBits | scripts/abk_stable_core.py:5181-5205 | replay asks for exactly the first min(budget, popcount) set bits in index order |

## Left out

- EevdfMath.PlacementKeepsLag: for a queue without a running entity; EevdfRunning.PlacementBesideCurrent says what happens beside one.
- Eevdf.CfsRq.EnqueueEntity: the vruntime normalisation around enqueue and dequeue that 5.15 does for migrating tasks is part of the kernel, not of the payload.
- Eevdf.CfsRq.ReweightRunning: composes UpdateCurr and ReweightCharged; its own contract names only what both keep.
- Wakeup preemption (check_preempt_wakeup, preempt_short) and sched_setattr slices: they call the selector and the comparison that are modelled.
- u64 and s64 wrap-around of vruntime, deadlines and the weighted sum, and jiffies wrap-around.
- KcompressdProgress.NoDeadlock: somebody can always move; that every queued page is written in the end also needs a fair scheduler, which is not part of this model.
- Kcompressd models one node; NUMA routing, the memcg and kswapd conditions before enqueueing, and the completion order of asynchronous writes beyond ring order are not part of this model.
- ZramSweepRuns.BudgetConserved: one sweep at a time and no change of the limit while it runs; termination and progress are shown for each sweep by itself, and the budget shared by several is not accounted.
- ZramWriteback reads a slot's contents at submission; with compressed writeback the copy is made when the slot is marked, which for a slot that is still idle is the same contents.
- ZramSlots.StoreKeepsStats: the store's tail is modelled on values; compression and allocation failures before it are not part of this model.
- The asynchronous recompression worker: its jobs call the recompression that is modelled.
- MemcgStats.CompactRefinesFull: covers memcg state and events, which share one structure; the per-node lruvec copy is another table of the same structure over the node items alone.
- MemcgTable.StatTable.RstatFlush: the order in which rstat visits memcgs and cpus is an assumption of the column theorems, not code of this repository.
- Mglru.RunKeepsTypesClose: at swappiness 0 or above MAX_SWAPPINESS the types can drift further; the code does not promise otherwise.
- Mglru: per-tier protection counters, size counters and aging heuristics are not part of this model.
- PsiExact.SwitchKeepsExact: one cpu; moving a task between cgroups, switching a group's accounting on or off while it runs, and the timing of states are not part of this model.
- GraftChild.NormalEndIsHonest: a group depends on what it saw through the context; the shape cache that one probe keeps across groups, and runs for an unsupported family, which touch nothing, are not part of this model.
- GraftConfigs.EnableConfigs: works on lines; splitting and joining the text, and the final newline, are not part of this model.
- Report rendering, argument parsing, AnyKernel packaging, shape probes and the renames, guards and hook declarations among the grafts.
- RangeClose.Files.RangeClose: sequential; a table that grows or closes concurrently is not part of this model.
- LaunchCache.Recorder.Touch: the recorded path, the cooldown stamp and the statistics counters are not part of this model.
- rmqueue modes, schedutil caps, blk-mq depth, fault-around bitmaps and the swap-in window: easier arithmetic or dependent on kernel code that is not shown.
