# Models of the kernel and NPU experiments

This project models the small algorithms inside the RK3588 experiments and proves what their
comments and notes promise of them.  Printing, timing and device access are not modelled; what is
modelled is the part of each program that could be wrong.

* `StoreBuffer` is a weakly ordered memory: one FIFO of pending stores per thread and location,
  store-to-load forwarding, loads in program order, barriers that wait for the FIFOs to drain.
  `MessagePassing` and `StoreBuffering` are the two litmus tests as step relations over it.  A run
  is any finite schedule of thread moves and drains.
* `Rcu` is the publish, retire and reclaim protocol with any number of readers.  The one fact it
  takes on trust about RCU is the grace-period rule: a callback runs, and `synchronize_rcu`
  returns, only when every read-side section active at the call has ended.
* `RcuPublication` is the publication alone, on the weak memory: what the release store is for.
* `HighWater` is the lock-free maximum shared by the softirq and workqueue experiments, one atomic
  operation per step.  `WorkCompletion` puts the countdown, the completion and the report on top.
* `LockupRing` and `HungTasks` are the two detectors of the mini watchdog: the ring of CPUs that
  check their neighbours' heartbeats, and the 512-slot table of sleeping tasks.
* `PageWalk` is the four-level table walk in its two versions, against a level-by-level
  translation, and the splitting of blocks.
* `BuddyFeed` is the loop that hands boot memory to the buddy allocator, and the two figures that
  are later computed from the free lists.
* `ZoneMarks` is the arithmetic of watermarks, low-memory reserves and watermark boosting.
* `PointerChase` is the in-place shuffle and the ring it is linked into.
* `FixedPoint` is the scheduler arithmetic: scaling by a weight, decaying a load, the load sum.
* `LogText` and `RegisterLog` are the register-stream printer and the script that parses its rows;
  `ShimLog` is every other line the ioctl shim writes around the printed table.
* `Arithmetic` holds minimum, maximum, powers of two and a few facts about products and quotients;
  `Options` holds the optional value.

`dafny verify dfyconfig.toml` checks everything.

## Where the code and its own description differ

* The probe prints `decay_load(1024, 32)` as 1024/2.  The code gives 511
  (`FixedPoint.DecayOf1024`): the table's first entry is 2^32 - 1, so one period gives the half
  exactly for loads below 2 and one less than the half exactly from 2 to 2^33 + 1
  (`FixedPoint.OnePeriodHalves`; `WholePeriods` says the same of every number of periods).
* The notes say that a `lowmem_reserve_ratio` of 0, or of 1 and below, clears a zone's reserves.
  The loop shown divides by the ratio whatever it is.  For a zone with another one above it, it
  clears the reserves exactly when no ratio up to the zone's own is 0 and all pages above are fewer
  than the divisor (`ZoneMarks.SetupClearsIff`).  With 0 the division is undefined in C: the model
  stops the setup there and reports failure (`RatioZeroStopsSetup`), where an AArch64 processor
  would yield 0 and so clear the reserves.  With 1 it keeps back every page above
  (`RatioOneReservesEverything`) and clears only where there is none.  With a negative ratio, which
  the division reads as a number close to 2^64, it does clear them where the pages above are fewer
  than that (`SmallRatioClears`).
* On the notes' own machine the empty second zone is listed with reserves (0, 0, 0, 0).  The loop
  gives it (0, 0, 4192, 4192), as for the first zone (`ZoneMarks.NotesMachine`): it never looks at
  a zone's own size (`ZoneMarks.OwnSizeIsIgnored`).
* "Never past the cap" holds of the boost after every fallback and every kswapd round.  Marks set
  up again in between take the boost in force into them, so at the default factor of 15000 the new
  cap covers it as well.  Over all runs the boost stays within the cap of the marks in force exactly
  when boosting is off, the zone too small, or the factor at least 5000
  (`ZoneMarks.BoostWithinCapIff`); `LoweredMarksExceedCap` is a run past it at a factor of 1000.
* "Low and high lie one gap apart" holds exactly while no boost is in force when the marks are
  set (`ZoneMarks.MarksAreEquallySpaced`), because the macros the loop uses add the boost.

## Model

| member | source | states |
|---|---|---|
| StoreBuffer.OwnViewIsSequential | experiments/barrier_mp.c:1-13 | the memory abstraction: a thread sees its own newest store at once, nobody else sees it before it drains, and draining changes nothing for its own thread and one location for the others |
| StoreBuffer.DrainEffect | experiments/barrier_mp.c:7-8 | a drain moves the oldest pending store of one thread and location to memory and nothing else, so stores to different locations arrive in any order |
| MessagePassing.OrderedIffNeverViolates | experiments/barrier_mp.c:35-70 | no schedule of any length reads the flag without the data if and only if the mode orders the stores (or there are no rounds) |
| MessagePassing.RelaxedViolates | experiments/barrier_mp.c:42-47 | in relaxed mode a concrete schedule of eight actions counts a violation, for every number of rounds |
| MessagePassing.RelaxedViolatesEveryRound | experiments/barrier_mp.c:39-68 | in relaxed mode a complete run exists in which every single round is a violation, for every number of rounds; the reader's own store of 0 is what makes the next one possible |
| MessagePassing.ViolationsAreStaleReads | experiments/barrier_mp.c:63-65 | in every mode and run the counter is the number of reads that found something else than 42 |
| MessagePassing.RoundsAlternate | experiments/barrier_mp.c:39-68 | in every mode and at every point of every run publications and observations take turns: no round is lost, none is read twice |
| MessagePassing.RunsKeepInv | experiments/barrier_mp.c:35-70 | every run stays in one of four phases of the handshake, and in the ordered modes the data is in memory before the flag can be |
| MessagePassing.WorkDecreases | experiments/barrier_mp.c:39-68 | every action other than a fruitless poll of the flag brings the run nearer to its end |
| MessagePassing.EveryRunCanFinish | experiments/barrier_mp.c:39-68 | the handshake never locks up: every run can be continued until all rounds have been published and observed |
| StoreBuffering.BarrierIffNeverBothZero | experiments/barrier_sb.c:39-73 | at any relative pace of the two threads no slot ends with two zeros if and only if there is a full barrier or sequentially consistent access between store and load (or no slot) |
| StoreBuffering.EveryRunCanFinish | experiments/barrier_sb.c:39-73 | no barrier waits for ever: in every mode every run can be continued until both threads have done all slots |
| StoreBuffering.UnorderedAllZero | experiments/barrier_sb.c:50-52 | without one, a complete run exists in which every slot ends with two zeros |
| StoreBuffering.ScheduleTells | experiments/barrier_sb.c:45-70 | in every mode and run the register of a slot is 1 exactly when the other thread's store for that very slot reached memory before the load, and 0 otherwise |
| StoreBuffering.OtherOutcomesOccur | experiments/barrier_sb.c:39-73 | every pattern of outcomes over the slots without two zeros in one of them has a complete run, in every mode: the barriers forbid nothing else |
| StoreBuffering.RunsKeepInv | experiments/barrier_sb.c:45-53 | in the ordered modes a thread past its barrier has its store in memory |
| StoreBuffering.CountRound | experiments/barrier_sb.c:94-98 | the four counters grow by exactly the numbers of slots with the four outcomes, and by the number of slots in all |
| StoreBuffering.CountAll | experiments/barrier_sb.c:87-99 | over all repetitions the counters sum to the slots examined |
| StoreBuffering.RoundsExist | experiments/barrier_sb.c:87-93 | complete repetitions exist in every mode |
| StoreBuffering.OrderedExperimentCountsNoDoubleZero | experiments/barrier_sb.c:87-100 | however often it is repeated, with a barrier the first counter stays zero |
| Rcu.NoUseAfterFree | experiments/rcu_demo.c:61-118 | in every interleaving of writer, readers, callbacks and clean-up, the object a reader holds inside its section has not been freed |
| Rcu.ObjectsAreConserved | experiments/rcu_demo.c:84-118 | allocations equal freed plus pending plus objects in one thread's hands; nothing is freed twice, freed while pending, or freed while published |
| Rcu.ReadsNeverGoBack | experiments/rcu_demo.c:74-78 | the values one reader sees never decrease |
| Rcu.ScheduleTells | experiments/rcu_demo.c:66-116 | in every run the object a section holds is the one published last before its dereference, each value seen is that object's, and the published pointer, the sections and the allocations are those the schedule determines |
| Rcu.ReaderCanRead | experiments/rcu_demo.c:74-78 | before the clean-up an idle reader with rounds left can lock, dereference and read, and sees exactly the value published last |
| Rcu.CleanupFreesEverything | experiments/rcu_demo.c:151-159 | after the clean-up exactly the allocated objects have been freed and `nr_freed` equals the number of publications |
| Rcu.EveryRunCanClose | experiments/rcu_demo.c:61-159 | the clean-up never blocks for good: every run can be continued until all threads have left and the clean-up is done |
| Rcu.NobodyInsideNobodyWaits | experiments/rcu_demo.c:68-73 | grace periods end: with no reader inside a section every pending callback can run and `synchronize_rcu` can return |
| Rcu.RunsKeepInv | experiments/rcu_demo.c:61-159 | the invariant behind these: who owns each object and why a held object cannot be freed yet |
| RcuPublication.ReleaseIffWholeObjects | experiments/rcu_demo.c:74-78 | on the weak memory every reader finds the value set before publication in the object it dereferences, in every run, exactly when the publication is a release store (or nothing is published) |
| RcuPublication.RunsKeepInv | experiments/rcu_demo.c:98-115 | with a release store every object a pointer can lead to is in memory as it was set |
| RcuPublication.PlainShowsUnset | experiments/rcu_demo.c:105-110 | with a plain store a run exists in which a reader finds the new object without its value |
| HighWater.MaximumIsThePeak | experiments/softirq_par.c:44-54 | for any number of callbacks and any interleaving the recorded maximum never exceeds the true peak, equals it whenever nobody is inside the loop, and the counter is the true concurrency |
| HighWater.StepKeepsInv | experiments/wq_probe.c:72-81 | every single atomic operation keeps the relation between counter, maximum, drawn counts and peak |
| HighWater.RunsAreShort | experiments/softirq_par.c:49-53 | the retry loop is lock free: n callbacks take at most 2n^2 + 6n atomic operations between them |
| HighWater.StepLowersPotential | experiments/softirq_par.c:49-53 | why: a failed swap is paid for by the swap that raised the maximum |
| WorkCompletion.CompletionMeansAllDone | experiments/wq_probe.c:107-150 | at most one completion happens, and only after every callback has recorded its end time and left the count; by then the recorded maximum is the true peak |
| WorkCompletion.FinishedMeansCompleted | experiments/wq_probe.c:124-126 | when all callbacks have ended there has been exactly one completion (none if there were no callbacks) |
| WorkCompletion.EveryRunCanComplete | experiments/wq_probe.c:107-150 | the completion always comes: every run can be continued until all callbacks have ended, with exactly one completion (none if there were no callbacks) |
| WorkCompletion.CompletionIsFinal | experiments/wq_probe.c:202-220 | what the woken waiter sees is final: no later action changes a record, the maximum or the number of completions |
| WorkCompletion.RecordsTell | experiments/wq_probe.c:113-124 | each record is told by the schedule: worker and start time are those of the action that picked the callback up, the end time that of its first action after it left the count, and these have happened exactly when the callback is that far |
| WorkCompletion.StepKeepsInv | experiments/wq_probe.c:107-150 | every action keeps the invariant: `remaining` counts the callbacks yet to count down, and one signaller exists exactly between the last countdown and the completion |
| WorkCompletion.Report | experiments/wq_probe.c:152-187 | the report gives the number of distinct workers that left a trace and the latest end time |
| WorkCompletion.AlreadySeen | experiments/wq_probe.c:168-170 | the duplicate flag says exactly whether the pid is among those kept |
| LockupRing.NextIsSuccessor | experiments/lockup_lab.c:80-87 | with two or more CPUs online the neighbour is the next online CPU round the ring |
| LockupRing.NextByIndex | experiments/lockup_lab.c:80-87 | in terms of the mask alone: the neighbour is the next online CPU above, else the lowest one, with no online CPU in between |
| LockupRing.AloneHasNoNeighbour | experiments/lockup_lab.c:84-86 | there is no neighbour exactly when the CPU is alone |
| LockupRing.RingIsOneCycle | experiments/lockup_lab.c:80-87 | for every online mask the watch relation is one single cycle through all online CPUs |
| LockupRing.WatcherIsUnique | experiments/lockup_lab.c:80-87 | no CPU is watched by two |
| LockupRing.Watchdog.TimerFn | experiments/lockup_lab.c:89-123 | one timer tick changes the per-CPU variables as `Fire` says and nothing else |
| LockupRing.SavedIsLastLook | experiments/lockup_lab.c:105-121 | what is recorded about a CPU is its tick count at its watcher's last check |
| LockupRing.FlaggedIffSilentSinceLastCheck | experiments/lockup_lab.c:101-121 | at every check the neighbour is flagged if and only if it has not ticked since the previous check |
| LockupRing.NeverFlaggedIffKeepsTicking | experiments/lockup_lab.c:101-121 | a CPU is never flagged in a run if and only if it ticks before the first and between successive checks of it |
| LockupRing.StoppedNeighbour | experiments/lockup_lab.c:101-121 | from any state: a stopped neighbour is recorded after one check and flagged after two |
| LockupRing.StoppedCpuIsFlagged | experiments/lockup_lab.c:89-123 | if some CPUs have stopped and another has not, one watcher that has not stopped, the same for every state and run, flags one of them within six of its ticks |
| LockupRing.SilentWatcherFlagsNobody | experiments/lockup_lab.c:101-121 | a CPU whose watcher has stopped too keeps the flag it had |
| HungTasks.HungTable.Slot | experiments/lockup_lab.c:263-278 | the search returns the task's slot, takes the first free one for a new task, and fails exactly when the table is full of others |
| HungTasks.HungTable.CheckOne | experiments/lockup_lab.c:281-299 | one check updates the table as the pid-to-count map says and reports exactly when the count is the remembered one |
| HungTasks.HungTable.Scan | experiments/lockup_lab.c:302-326 | a scan over any list of sighted tasks refines the map and returns all verdicts |
| HungTasks.TableIsHistory | experiments/lockup_lab.c:260-278 | for every history the table holds, without duplicates, the last counts of exactly the first 512 distinct tasks |
| HungTasks.ReportedExactly | experiments/lockup_lab.c:281-299 | a sighting is reported if and only if its task is tracked and its count equals that of the previous sighting (the sentinel, on first sight) |
| HungTasks.NeverOnFirstSight | experiments/lockup_lab.c:276-291 | with counts below `ULONG_MAX` nobody is reported on first sight |
| HungTasks.FewTasksAreAllTracked | experiments/lockup_lab.c:273-277 | with at most 512 distinct tasks everybody is tracked |
| HungTasks.TrackedIffEarlyEnough | experiments/lockup_lab.c:263-278 | a task is tracked if and only if fewer than 512 other tasks were sighted before its first sighting |
| HungTasks.ScansCompose | experiments/lockup_lab.c:302-326 | successive scans are one history: tables and verdicts compose |
| PageWalk.WalkIsTranslation | experiments/armv8_dump.c:260-313 | for all tables and addresses the unrolled walk is the recursive level-by-level translation from the root that bit 63 selects |
| PageWalk.IndicesOfAddress | experiments/armv8_dump.c:272-274 | an address put together from four indices and an offset is taken apart into these four indices |
| PageWalk.TopBitOfAddress | experiments/armv8_dump.c:264 | and bit 63 is that of its upper sixteen bits |
| PageWalk.OutputOfDescriptor | experiments/armv8_dump.c:293-312 | a descriptor put together from upper bits, an output address and lower bits gives that address, at every level |
| PageWalk.WalkToPage | experiments/armv8_dump.c:276-313 | with table entries at the first three indices and a page entry at the fourth, the walk ends at that page's address plus the offset |
| PageWalk.WalkToMegabytes | experiments/armv8_dump.c:276-304 | with a block at the third index it ends there, 2 MB large |
| PageWalk.WalkToGigabyte | experiments/armv8_dump.c:276-296 | with a block at the second index it ends there, 1 GB large |
| PageWalk.WalkToFault | experiments/armv8_dump.c:283-311 | an empty entry on the way ends the walk at its level |
| PageWalk.SecProbeSameLeaf | experiments/sec_probe.c:123-138 | the other module's walk stops at the leaf of that translation, so for kernel addresses both walks stop at the same descriptor |
| PageWalk.LeafMapsItsSpan | experiments/armv8_dump.c:292-313 | every address of a leaf's aligned span ends at the same descriptor and keeps its distance |
| PageWalk.LeafKind | experiments/armv8_dump.c:221-232 | on well-formed tables the descriptor the walk stops at is printed as a page at level 3 and as a block at levels 1 and 2 |
| PageWalk.PieceFacts | experiments/armv8_dump.c:292-304 | each of the 512 descriptors that replace a block gives the next part of its range with the same attributes |
| PageWalk.SplittingPreservesTranslation | experiments/armv8_dump.c:260-313 | replacing any 1 GB or 2 MB block by a full next-level table of consecutive entries changes, for no address, the fault level, the physical address or the attributes |
| PageWalk.SplittingKeepsWellFormed | experiments/armv8_dump.c:221-232 | the tables are well formed again, so splits can be repeated |
| BuddyFeed.FreePagesMemory | ch03_memory_management_prerequisites.md:706-720 | the loops terminate for every range with a positive start and emit the blocks of `Feed` |
| BuddyFeed.AlignedIsDivisible | ch03_memory_management_prerequisites.md:724-725 | alignment by repeated halving is divisibility by the power of two |
| BuddyFeed.FfsIsLargestAlignment | ch03_memory_management_prerequisites.md:711 | `__ffs` is the largest order to which the start is aligned |
| BuddyFeed.FeedIsPartition | ch03_memory_management_prerequisites.md:706-720 | the blocks are an exact partition of the range into aligned blocks below the order limit |
| BuddyFeed.EveryBlockIsCovered | ch03_memory_management_prerequisites.md:706-720 | every aligned block inside the range lies within a single emitted block |
| BuddyFeed.NoMergeableBuddies | ch03_memory_management_prerequisites.md:706-720 | no two emitted blocks are buddies that could still be merged |
| BuddyFeed.FeedIsMinimal | ch03_memory_management_prerequisites.md:706-720 | no partition of the range into aligned blocks below the order limit uses fewer blocks |
| BuddyFeed.FeedIsTheOnlyOne | ch03_memory_management_prerequisites.md:706-720 | a list of blocks is a partition of the range into aligned blocks below the order limit with no buddies left to merge exactly when it is the emitted one |
| BuddyFeed.ProbeFragmentation | experiments/mm_probe.c:458-463 | the nested loops compute for each order the blocks that all higher lists can be split into |
| BuddyFeed.SuitableCountsAlignedBlocks | experiments/mm_probe.c:458-463 | with the emitted blocks on the lists, that figure is the number of aligned blocks of the order lying wholly inside the range |
| BuddyFeed.EveryPageIsFedOnce | ch03_memory_management_prerequisites.md:716-718 | at order 0 it is the number of pages of the range |
| BuddyFeed.FreeAreaTotal | experiments/mm_probe.c:140-166 | the total over migrate types, some of them skipped, is the total over the per-order counts |
| ZoneMarks.Node.SetupWmarks | ch06_memory_management_case_studies.md:745-757 | the loop gives every zone its share as minimum and the two marks above it, boost included; the minimums written are proportional and sum to at most `pages_min` and more than that less the number of zones; the marks are equally spaced, by the documented gap exactly when no boost is in force |
| ZoneMarks.MinimumsSumToPagesMin | ch06_memory_management_case_studies.md:746-750 | the minimums sum to at most `pages_min` and more than `pages_min` less the number of zones |
| ZoneMarks.MarksAreEquallySpaced | ch06_memory_management_case_studies.md:752-755 | the documented gap, computed without `mult_frac`, is the spacing exactly when no boost is in force |
| ZoneMarks.MultFracIsExact | ch06_memory_management_case_studies.md:753 | `mult_frac` is the truncated quotient of the full product |
| ZoneMarks.Node.SetupLowmemReserve | ch06_memory_management_case_studies.md:864-873 | each zone reserves against every higher zone the sum of the pages in between divided by its ratio, up to the first zone that would divide by 0; it succeeds exactly when there is none, and all other entries keep their values |
| ZoneMarks.AboveIsSum | ch06_memory_management_case_studies.md:868-871 | what a reserve is computed from is the sum of the sizes of all zones in between, the upper one included |
| ZoneMarks.SetupClearsIff | ch06_memory_management_case_studies.md:864-877 | the setup clears a zone's reserves exactly when no ratio up to its own is 0 and all pages above are fewer than its divisor |
| ZoneMarks.SmallRatioClears | ch06_memory_management_case_studies.md:876-877 | for the ratios documented to clear: 0 never does, 1 only without pages above, negative ones below their 64-bit value |
| ZoneMarks.RatioZeroStopsSetup | ch06_memory_management_case_studies.md:869-872 | with a ratio of 0 the setup fails and leaves that zone and all later ones as they were |
| ZoneMarks.RatioOneReservesEverything | ch06_memory_management_case_studies.md:869-872 | with a ratio of 1 all pages above are kept back |
| ZoneMarks.OwnSizeIsIgnored | ch06_memory_management_case_studies.md:869-872 | a zone's own size has no influence on its reserves |
| ZoneMarks.NotesMachine | ch06_memory_management_case_studies.md:885-904 | the notes' own figures: the first zone as listed, the empty second one not |
| ZoneMarks.AdmissionIsMonotone | ch06_memory_management_case_studies.md:843-853 | a request admitted for a higher zone class is admitted for every lower one |
| ZoneMarks.Node.ZoneWatermarkOk | experiments/mm_probe.c:242-244 | the test as coded is the inequality stated in the probe's output |
| ZoneMarks.Node.BoostWatermark | ch06_memory_management_case_studies.md:1001-1016 | one fallback raises the boost of its zone only, by 512 pages up to the factor's share of the high mark but no less than 512, and not at all when boosting is off or that zone too small |
| ZoneMarks.BoostIsLeast | ch06_memory_management_case_studies.md:1001-1022 | over any run of fallbacks, kswapd rounds and new setups of the marks the boost is the least of one pageblock per fallback since the last round and each cap met on the way with a pageblock for every later fallback |
| ZoneMarks.BoostWithinCapIff | ch06_memory_management_case_studies.md:1001-1020 | in every run the boost is within the cap of the marks in force, exactly when boosting is off, the zone too small, or the factor at least 5000 |
| ZoneMarks.OnlyNewMarksExceedCap | ch06_memory_management_case_studies.md:1010-1020 | after every fallback and every kswapd round it is |
| ZoneMarks.LoweredMarksExceedCap | ch06_memory_management_case_studies.md:745-757 | at a factor of 1000, a run of setup, five fallbacks and a setup for a smaller minimum that leaves the boost above the cap |
| ZoneMarks.BoostIsCapped | ch06_memory_management_case_studies.md:1018-1022 | while the marks stay as they are the boost is one pageblock per fallback since the last round, cut off at the cap |
| PointerChase.Shuffle | experiments/cache_ladder.c:39-43 | the in-place loop computes the shuffle that the drawn numbers determine |
| PointerChase.ShuffleKeepsPermutation | rock5b_explore/tools/membw.c:62-67 | whatever is drawn, the index array stays a permutation |
| PointerChase.ShuffleIsABijection | experiments/cache_ladder.c:40-43 | every order of the slots comes from exactly one sequence of draws |
| PointerChase.OnlyRemaindersMatter | experiments/cache_ladder.c:41 | whatever numbers are drawn, the one for index i counts only by its remainder modulo i + 1 |
| PointerChase.OrdersAndNumbers | experiments/cache_ladder.c:40-43 | so every order comes from exactly those random numbers that leave one sequence of remainders |
| PointerChase.DrawSwaps | experiments/cache_ladder.c:41-42 | one draw exchanges two entries, leaves all others, and settles the upper one for good |
| PointerChase.Link | experiments/cache_ladder.c:44-45 | every slot is linked to its successor in the shuffled order, the last one to the first |
| PointerChase.LinkedIsOneCycle | rock5b_explore/tools/membw.c:68-73 | from any start the chase visits each of the n slots exactly once and is back after n steps |
| PointerChase.BuildRing | experiments/cache_ladder.c:39-48 | shuffling and linking together build one ring, for every n and every sequence of random numbers |
| FixedPoint.CalcDelta | experiments/sched_probe.c:111-122 | the loop keeps its shift in 0 .. 32 and computes `Delta`, wrap-around of the product included |
| FixedPoint.DeltaIsAccurate | experiments/sched_probe.c:111-122 | for all 64-bit run times and factors: the result is at most E and more than E - E/2^31 - 1 exactly when run time times halved factor fits into 64 bits |
| FixedPoint.ShortRunsAreAccurate | experiments/sched_probe.c:111-122 | for run times below 2^32 it always does |
| FixedPoint.DeltaExact | experiments/sched_probe.c:116-121 | with a factor below 2^32 nothing but the final truncation is lost, exactly when the product fits into 64 bits |
| FixedPoint.FactorIsCut | experiments/sched_probe.c:116 | only the lower 32 bits of the weight count |
| FixedPoint.TablesAreInverse | experiments/sched_probe.c:58-79 | the two tables are inverse to within 40 parts in 2^32 at every nice level |
| FixedPoint.CalcDeltaFair | experiments/sched_probe.c:124-137 | the error against the exact delta * 1024 / weight, at every nice level, for every run time below 2^32 and every longer one that does not overflow |
| FixedPoint.DecayAtMostInput | experiments/sched_probe.c:157-169 | decaying never increases a load |
| FixedPoint.DecayMonotone | experiments/sched_probe.c:157-169 | decaying keeps the order of loads |
| FixedPoint.DecayNonIncreasing | experiments/sched_probe.c:157-169 | over more time a load never decays to more, across period boundaries and the cut-off |
| FixedPoint.PeriodsAndSteps | experiments/sched_probe.c:161-168 | k periods and i steps divide by 2^k and apply the i-th factor; past 63 periods nothing is left |
| FixedPoint.TableIsGeometric | experiments/sched_probe.c:146-153 | every table entry is the one before times the second one to within three units, and the last leads to half the first |
| FixedPoint.DecayIsGeometric | experiments/sched_probe.c:157-169 | up to the cut-off every step multiplies a load by the second table entry, within stated bounds |
| FixedPoint.WholePeriods | experiments/sched_probe.c:163-168 | k periods give the k times halved load exactly when that is 0, and one less exactly while it is between 1 and 2^32 |
| FixedPoint.OnePeriodHalves | experiments/sched_probe.c:176-178 | one period gives the half exactly for loads below 2, and one less exactly from 2 to 2^33 + 1 |
| FixedPoint.DecayOf1024 | experiments/sched_probe.c:177-178 | the probe's own example gives 511, not 512 |
| FixedPoint.SumStep | experiments/sched_probe.c:187-193 | from 0 .. 47742 the iteration never goes down, stays in the range and has 47742 as its only fixed point |
| FixedPoint.SumConverges | experiments/sched_probe.c:187-193 | from any start in the range it has converged after 486 steps |
| FixedPoint.ConvergedSum | experiments/sched_probe.c:187-193 | the probe's loop stops at `LOAD_AVG_MAX` before its bound of 1000 |
| LogText.NumberOfDecimal | rknpu/experiments/exp05_tiling.py:50 | a printed number is read back as itself |
| LogText.SplitOfColumns | rknpu/tools/rkspy.c:195-207 | padding never merges, splits or changes columns |
| LogText.MatchOfRow | rknpu/experiments/exp05_tiling.py:24-26 | a printed row matches the regular expression, with the printed columns as its groups, exactly when the first two columns are digits |
| LogText.MatchIsTheExpression | rknpu/experiments/exp05_tiling.py:24-26 | taking a line apart by splitting succeeds, with these columns, exactly when the line is what the expression describes: two white-space characters, thirteen columns with white space between them, the first two of digits, white space at the end |
| RegisterLog.FindByDma | rknpu/tools/rkspy.c:126-129 | the search finds the one buffer that holds the address, or says that there is none |
| RegisterLog.RegcmdFind | rknpu/tools/rkspy.c:153-166 | a register's value is that of its first write in the task's stream; in terms of the buffers alone, of the first word with its offset from the task's address on in the mapped buffer that holds it, and there is none exactly when there is no such word |
| RegisterLog.FirstWriteIsFirst | rknpu/tools/rkspy.c:159-164 | what is found is the value of the word with the offset before which no word has it, and nothing is found exactly when none has it |
| RegisterLog.PartsOfWord | rknpu/tools/rkspy.c:152 | a word put together from an offset, a value and a tag gives that offset and that value |
| RegisterLog.DumpShapes | rknpu/tools/rkspy.c:172-211 | the printer emits the title line and one row per task, with a line of dashes exactly where the op changes |
| RegisterLog.DashesMarkNewOps | rknpu/tools/rkspy.c:186-188 | by index: task k's row stands below the titles, the k earlier rows and one line of dashes per change of op so far, the last of them right above it when its own op is new, and nothing else is printed |
| RegisterLog.SizeColumns | rknpu/tools/rkspy.c:169-196 | whatever the other bits of the first write to 0x1020 are, W is [26:16] and H is [10:0] |
| RegisterLog.ChannelColumns | rknpu/tools/rkspy.c:170-198 | ch is [15:0] and chreal [29:16] of 0x1024 |
| RegisterLog.GrainColumn | rknpu/tools/rkspy.c:177-200 | grains is [13:4] of 0x1010 |
| RegisterLog.KernelColumns | rknpu/tools/rkspy.c:178-202 | k_w is [28:24] and k_h [20:16] of 0x1038 |
| RegisterLog.StrideColumns | rknpu/tools/rkspy.c:177-204 | sx is [2:0] and sy [5:3] of 0x1014 |
| RegisterLog.PadColumns | rknpu/tools/rkspy.c:178-206 | pl is [7:4] and pt [3:0] of 0x1068 |
| RegisterLog.UnwrittenColumns | rknpu/tools/rkspy.c:196-207 | a register that is not written, or whose stream is not mapped, shows as dashes in its columns |
| RegisterLog.RowReadBack | rknpu/experiments/exp05_tiling.py:24-26 | the parser takes every printed row apart into exactly what was printed |
| RegisterLog.TextIsTransparent | rknpu/experiments/exp05_tiling.py:39-63 | formatting and parsing lose nothing: the text behaves as the values it was made from |
| RegisterLog.Load | rknpu/experiments/exp05_tiling.py:29-64 | the loop folds the lines one by one as `ReadLine` says, and ends in an exception exactly when a column is no number |
| RegisterLog.LastOfIsLatest | rknpu/experiments/exp05_tiling.py:53-60 | the carried value is the latest one shown within the current run of one op, and there is none exactly when none was shown |
| RegisterLog.TilesAreLatest | rknpu/experiments/exp05_tiling.py:53-63 | every tile of the result holds the latest values shown within its task's run of one op, and tasks come in order |
| RegisterLog.ContainsIsSubstring | rknpu/experiments/exp05_tiling.py:40 | the search for the submit mark is a search for a substring |
| RegisterLog.ReadTable | rknpu/experiments/exp05_tiling.py:38-64 | for every list of tasks, folding the table gives the rows of `Expected` |
| RegisterLog.LoadOfDump | rknpu/tools/rkspy.c:172-211 | for every task list in a log's first submit, among lines that are no rows and start no submit, printing, parsing and folding gives exactly the expected rows |
| ShimLog.Say | rknpu/tools/rkspy.c:65-118 | no other line of the shim, whatever its numbers, is a row or starts a submit |
| ShimLog.MarkLineMarks | rknpu/tools/rkspy.c:214 | the line that starts a submit is recognised as one |
| ShimLog.LoadOfShimLog | rknpu/tools/rkspy.c:213-266 | so for the shim's own log, with its legend and any of its other lines before, around and after the table, the script gives exactly the expected rows |
| RegisterLog.ExactlyTheKnownTasks | rknpu/experiments/exp05_tiling.py:51-62 | the tasks left out are exactly those at or past the limit and those whose W or k_h is still unset |

## Left out

- Printing, `/proc`, `/sys`, ioctl, mmap and `/dev/mem` access, module loading and parameters: input and output only.
- StoreBuffer: the machine is an abstraction of Armv8. Loads happen in program order, so load-load reordering is not modelled; acquire loads add nothing in it, and a release store or sequentially consistent access waits for all earlier stores.
- MessagePassing and StoreBuffering run the source's loop for any number of rounds or slots, not only the compiled-in ones; the start handshake through `go` is not modelled.
- Rcu, HighWater, WorkCompletion, LockupRing and HungTasks are modelled under sequentially consistent memory: every shared access takes effect at once for everybody. Only MessagePassing, StoreBuffering and RcuPublication run on the weak machine; RcuPublication frees nothing and leaves out grace periods.
- Rcu: the clean-up may start once the writer has finished, which includes every run of the source, where it starts after the readers have finished too; a failed first allocation and failing thread creation are not modelled.
- HighWater: the run counter, the CPU bitmap and the time stamps of the softirq callbacks would add easy members only.
- WorkCompletion: the waiter's 30-second timeout is not modelled; the claims are about a waiter woken by the completion. Of a record only the index, pid and the two times are kept.
- LockupRing: the soft-lockup half of the timer function, wrap-around of the tick counters, CPU hotplug during a run, and stopping and restarting the watchdog, which does not reset the counters.
- HungTasks: which task states count as sightings, and the stack trace; pids are taken to be non-zero, as they are in the task list.
- PageWalk: cross-checks against the kernel's own address macros and the printed attribute fields. Physical memory is a map of table pages; reading an absent table gives an empty entry.
- BuddyFeed and ZoneMarks: the width of machine integers, which page counts do not reach. `__ffs(0)` is undefined, so a non-empty range must start above 0.
- ZoneMarks: what a particular processor makes of the division by 0 that C leaves undefined.
- ZoneMarks: the boost factor does not change during a run.
- ZoneMarks: the default of `min_free_kbytes`, the part of the boost function that the notes elide (including its final return value), and condition (b) of the watermark test.
- PointerChase: `rand` is a parameter, so nothing is said about its distribution.
- FixedPoint: the run-queue averages and the tables printed beside the PELT figures.
- ShimLog: the system's error messages and the names of memory flags are any texts without the character `#`; the driver's request handling behind the lines.
- RegisterLog: how the buffer table grows and shrinks. Buffer ranges are disjoint, streams are word-aligned and end inside their buffer, and task numbers do not wrap. When a register is written twice the printer shows the first write; no claim is made about the hardware's final state. White space is ASCII white space, and a column is a number when it consists of ASCII digits: signs, underscores and other digits that the script would read do not occur in printed rows.
- The tiling check that the script makes after loading, the instruction decoders of the relocation and synchronisation probes, the side-channel programs and the timing experiments.
