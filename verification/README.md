# Verified model of the real-time framework's checkers, protocols and codecs

This project models the parts of the repository whose correctness is hardest to see
by reading them, and proves what those parts are for:

- the golden-scenario contract: phase graph, resource conflicts, sample ages and the
  arithmetic envelope (`tools/check_golden_contract.py`);
- the statistics behind benchmark comparison, from the exact order-statistic interval
  to the published verdict (`tools/compare_benchmarks.py`);
- the CPU/GPU frame graph as a concurrent protocol (`gpu/frame_graph.hpp`);
- the snapshot file and the canonical form of the simulation state (`src/main.cpp`);
- the CPU, GPU, FPGA, CPU pipeline sample (`samples/cpu_gpu_fpga_cpu.cpp`);
- the coroutine sleep scheduler (`examples/perf_experiments.cpp`);
- hardware evidence, both its validator and the program that produces it
  (`tools/check_hardware_evidence.py`, `samples/xdma_qualification.cpp`);
- qualification artifacts: the tree scan and the manifest (`tools/qualification.py`);
- JSON nesting scanners, sample timelines and percentiles
  (`tools/qualification.py`, `tools/check_benchmark_artifact.py`,
  `src/runtime_profile_demo.cpp`);
- links in release archives (`tools/extract_release_archive.py`).

Clocks, tie breaking, device behaviour, the order in which threads take their steps,
the number of pool workers and hash functions are parameters or free choices of the
model. Code that updates state in place is modelled by classes, arrays and loops, each
proved against a specification; pure code by functions.

Several properties one might expect do not hold of the code in general. Each is stated
with the exact condition under which it does, and with an input for which it fails:

- the frame graph never resets its timelines, so a second `execute` may start GPU
  bodies early (`FrameOutcomes.SafetyIsExact`, `FrameRuns.UnsafeStart`,
  `FrameOutcomes.FirstAndSecondExecute`);
- a pool with more than one worker can count a fiber off twice, because a worker tests
  whether a fiber is done after other threads may have resumed it: a destroyed frame is
  touched, buffers can be freed early and `drain` can hang (`FrameOutcomes.Race`,
  `FrameOutcomes.EarlyFree`, `FrameOutcomes.SafetyIsExact`,
  `FrameOutcomes.CompletionIsExact`);
- a frame graph hangs when passes without functions leave too few signals
  (`FrameOutcomes.CompletionIsExact`, `FrameOutcomes.HangingGraph`);
- a frame graph without passes frees none of its buffers in `execute`
  (`FrameGraph.Graph.FreeAfterExecute`);
- a stored snapshot above the size policy does not load
  (`SnapshotFile.LoadAfterStore`, `SnapshotFile.OversizedDoesNotLoad`);
- a link of an accepted release archive can lead elsewhere on disk than the check says,
  when its text passes through another link (`ExtractedLinks.ArchiveLinksLead`,
  `ExtractedLinks.DetourLeadsAstray`);
- a flawless XDMA run without warmup writes evidence that the validator rejects
  (`XdmaRun.CompleteRunIsAccepted`, `XdmaRun.RunWithoutWarmupIsRejected`).

`dafny verify dfyconfig.toml` checks the whole project.

## Model

| member | source | states |
|---|---|---|
| `PhaseGraph.BuildAdjacency` | tools/check_golden_contract.py:133-139 | the edge loop accepts exactly the edge lists of known, distinct, same-rate, unrepeated pairs, and then returns the graph they stand for |
| `PhaseGraph.CycleCheck.Visit` | tools/check_golden_contract.py:141-147 | a visit that succeeds has closed everything below its node and left the path unchanged; one that fails has found a cycle |
| `PhaseGraph.CycleCheck.VisitAll` | tools/check_golden_contract.py:146-146 | the loop over successors visits all of them or finds a cycle |
| `PhaseGraph.CycleCheck.VisitEvery` | tools/check_golden_contract.py:148-148 | visiting every phase succeeds exactly when no phase reaches itself |
| `PhaseGraph.AcceptsPhases` | tools/check_golden_contract.py:140-148 | the depth-first check accepts exactly the acyclic graphs |
| `PhaseGraph.ReachesNow` | tools/check_golden_contract.py:149-150 | on an acyclic graph the unmemoised recursion ends and decides whether a nonempty walk exists |
| `PhaseGraph.ReachesByCases` | tools/check_golden_contract.py:149-150 | reachability is an edge or an edge followed by reachability, in both directions |
| `Confluence.CheckConflicts` | tools/check_golden_contract.py:155-158 | the loop over pairs accepts exactly when every two phases that share a written resource are ordered by the graph |
| `Confluence.IndependentPhasesCommute` | tools/check_golden_contract.py:157-157 | two phases without a conflict give the same world in either order, for all bodies that see only declared resources |
| `Confluence.SchedulesKeepReachability` | tools/check_golden_contract.py:139-158 | every order that breaks no edge among the released phases also respects reachability through the whole graph |
| `Confluence.ReachOrdersAgree` | tools/check_golden_contract.py:155-158 | any two orders of the same phases that respect reachability end in the same world when conflicts are ordered |
| `Confluence.TickIsConfluent` | tools/check_golden_contract.py:133-158 | any two schedules of the phases released at a tick, for any set of rates, give the same world |
| `Confluence.RunIsConfluent` | tools/check_golden_contract.py:124-158 | the same over runs of any length in which every tick picks its own schedule |
| `Confluence.TopologicalOrder` | tools/check_golden_contract.py:140-148 | every acyclic graph has a schedule for every set of phases |
| `Confluence.RejectedConflictDiffers` | tools/check_golden_contract.py:155-158 | a rejected conflict has phase bodies, a start and two legal schedules that end differently |
| `Confluence.ConflictCheckIsExact` | tools/check_golden_contract.py:155-158 | the conflict check holds if and only if all schedules of all ticks agree for all bodies |
| `Confluence.HasUniqueIds` | tools/check_golden_contract.py:66-69 | the inventory is accepted exactly when no identifier repeats |
| `Confluence.ValidatePhases` | tools/check_golden_contract.py:133-158 | the whole phase check accepts exactly the acceptable, acyclic and confluent phase graphs |
| `NumberTheory.GcdIsCombination` | tools/check_golden_contract.py:128-128 | Euclid's result divides both numbers and is an integer combination of them |
| `NumberTheory.GcdIsGreatest` | tools/check_golden_contract.py:128-128 | every common divisor divides it |
| `NumberTheory.LcmAllIsCommon` | tools/check_golden_contract.py:128-128 | the folded least common multiple is a multiple of every period |
| `NumberTheory.LcmAllIsLeast` | tools/check_golden_contract.py:128-128 | it divides every common multiple of the periods |
| `SampleAge.BuildRecords` | tools/check_golden_contract.py:161-162 | the reference records are exactly the releases of one supercycle in strictly ascending order of tick, rate and phase |
| `SampleAge.LastPriorIsLatest` | tools/check_golden_contract.py:179-185 | the last producer record before a consumer record is the freshest sample of the unbounded run |
| `SampleAge.AgeNeverExceeds` | tools/check_golden_contract.py:178-187 | no consumer release at any tick of an unbounded run is older than the period, or the period less the gcd |
| `SampleAge.WorstCaseRecurs` | tools/check_golden_contract.py:178-187 | that worst age occurs in every later cycle of any common horizon |
| `SampleAge.BoundIsExact` | tools/check_golden_contract.py:187-187 | a bound admits the worst case if and only if it bounds the age of every release of every cycle |
| `SampleAge.Sources` | tools/check_golden_contract.py:179-179 | the positions and ticks of the producer's records, all of them, in order |
| `SampleAge.Prior` | tools/check_golden_contract.py:182-182 | the ticks of the producer records before a position, all of them, in order; the last one is the latest |
| `SampleAge.WorstAge` | tools/check_golden_contract.py:178-186 | the scan of one supercycle computes the period when the producer is ordered after the consumer, else the period less the gcd of the periods |
| `SampleAge.CheckChannelAge` | tools/check_golden_contract.py:161-187 | a channel is accepted exactly when its rates differ, the supercycle is the least common multiple, and its age bound, at most the tick limit, holds over the unbounded run |
| `Envelope.IterationIsWeightedSum` | tools/check_golden_contract.py:112-119 | the tick by tick state is the weighted sum of the accelerations, for every start and sequence |
| `Envelope.SegmentIsIteration` | tools/check_golden_contract.py:115-117 | the closed form of a constant segment equals iterating it tick by tick |
| `Envelope.RunSegments` | tools/check_golden_contract.py:112-119 | for every segmentation the segment updates land on the iterated state and on the weighted sum |
| `Envelope.WithinBounds` | tools/check_golden_contract.py:100-102 | no start and no acceleration sequence within the limits exceeds the closed-form bounds |
| `Envelope.ExtremalPath` | tools/check_golden_contract.py:106-111 | the extremal loop of either sign ends exactly in a corner of the envelope |
| `Envelope.TightIsUnique` | tools/check_golden_contract.py:100-103 | only one pair of maxima encloses every path and is attained in both signs |
| `Envelope.CheckEnvelope` | tools/check_golden_contract.py:96-119 | the stored maxima are accepted exactly when they are the tight envelope within the stated ranges; the two cross-checks never reject on their own |
| `Binomial.FewCount` | tools/compare_benchmarks.py:131-133 | the running binomial tail counts the above/below patterns with fewer than k on one side |
| `Binomial.LeaningCount` | tools/compare_benchmarks.py:131-133 | the doubled tail counts the patterns that lean to either side |
| `OrderStatistics.SortPermutes` | tools/compare_benchmarks.py:113-113 | sorting keeps every sample as often as it occurs |
| `OrderStatistics.UnderAt` | tools/compare_benchmarks.py:126-134 | an order statistic lies under a threshold exactly when more samples than its position do |
| `OrderStatistics.SortedByCount` | tools/compare_benchmarks.py:126-134 | a value is the sample at position k exactly when at most k samples lie below it and more than k lie at or below it |
| `OrderStatistics.MedianIsMiddle` | tools/compare_benchmarks.py:112-116 | the median is the mean of the least sample with at least half of the samples at or below it and the greatest with at least half at or above it |
| `OrderStatistics.MedianMirrors` | tools/compare_benchmarks.py:112-116 | the median of the negated samples is the negated median |
| `OrderStatistics.MedianWithin` | tools/compare_benchmarks.py:112-116 | the median lies between the order statistics of every rank up to the middle |
| `ConfidenceInterval.RankAt` | tools/compare_benchmarks.py:129-136 | the first rank that does not fit ends the search with the largest one that does |
| `ConfidenceInterval.Interval` | tools/compare_benchmarks.py:119-137 | the loop returns the k-th sample from below and the k-th from above for the largest k up to the middle at which, whatever the samples, at most (1,000,000 - confidence) / (2,000,000 * cases) of the above/below patterns miss the threshold, and nothing when no k covers that much |
| `ConfidenceInterval.IntervalIsExact` | tools/compare_benchmarks.py:119-137 | the same of the interval that the verdicts use |
| `ConfidenceInterval.IntervalIsUnique` | tools/compare_benchmarks.py:119-137 | only one interval, or none, fits that description |
| `ConfidenceInterval.MissLeans` | tools/compare_benchmarks.py:131-134 | when the threshold is outside the interval the sample leans, ties included |
| `ConfidenceInterval.FitsIsCoverage` | tools/compare_benchmarks.py:133-133 | the tail test holds if and only if, for every threshold and every family of samples, the patterns that miss stay within the budget |
| `ConfidenceInterval.PopulationCoverage` | tools/compare_benchmarks.py:119-137 | over a fair population at most an alpha fraction of the outcomes leave the threshold outside the returned interval |
| `ConfidenceInterval.UnionBound` | tools/compare_benchmarks.py:120-125 | errors over several populations add up, without independence between them |
| `ConfidenceInterval.FamilyCoverage` | tools/compare_benchmarks.py:120-128 | over both sides of every case together the outcomes with any miss are at most one minus the confidence |
| `Verdict.CompareCase` | tools/compare_benchmarks.py:300-326 | the two interval searches and the branches after them give the row whose verdict, numbers and direction the next four rows state |
| `Verdict.NoVerdict` | tools/compare_benchmarks.py:300-306 | without both intervals the case is inconclusive for insufficient confidence, with a baseline interval that reaches zero for a zero baseline, and only otherwise are numbers published |
| `Verdict.VerdictIsExact` | tools/compare_benchmarks.py:317-326 | a reviewed controlled case is a regression if and only if every pair of values from the two intervals is above the limit, passes if and only if every pair is within it, and is inconclusive otherwise; a portable case is a characterization, an unreviewed one inconclusive, each with its reason |
| `Verdict.PerformanceIsExact` | tools/compare_benchmarks.py:307-316 | the published medians, difference and ratio are those of the two populations, and the ends of the ratio interval are candidate low over baseline high and candidate high over baseline low |
| `Verdict.DirectionIsExact` | tools/compare_benchmarks.py:315-315 | `slower` is published if and only if every value of the candidate interval is above every value of the baseline interval, `faster` if and only if every one is below |
| `Verdict.VerdictIsSound` | tools/compare_benchmarks.py:321-326 | `regression` means every ratio of values from the two intervals is above the limit, `pass` that every one is within it |
| `Verdict.ContradictionIsOutside` | tools/compare_benchmarks.py:321-326 | a verdict that contradicts the true values implies that one of them is outside its interval |
| `Verdict.RatioIsReported` | tools/compare_benchmarks.py:307-312 | the reported ratio of medians lies in the reported ratio interval |
| `Verdict.StricterNeverFlips` | tools/compare_benchmarks.py:300-326 | a smaller alpha leaves the verdict or makes it inconclusive |
| `Verdict.ConfidenceNeverFlips` | tools/compare_benchmarks.py:128-128 | raising the confidence or adding cases never flips a verdict |
| `Verdict.WrongVerdictsAreRare` | tools/compare_benchmarks.py:119-137 | over fair populations the outcomes in which any case gets a verdict against its true medians are at most one minus the confidence |
| `Verdict.OverallStatus` | tools/compare_benchmarks.py:354-356 | a failed case makes the whole failed, then an incompatible one, a regression, one not run, an inconclusive one, a characterization and a structural match, in that order, and all pass otherwise; the exit code is 2, 1, 3, 4 or 0 accordingly |
| `FrameProtocol.StepKeeps` | gpu/frame_graph.hpp:84-148 | every step of the main loop, of a GPU body, of the poller and of any worker keeps the protocol invariant, whatever the number of workers |
| `FrameProtocol.BodyKeeps` | hal/gpu_stub.hpp:27-45 | a step of a detached kernel keeps the invariant; its fence is signalled after its function and its timeline signal |
| `FrameProtocol.RegisterKeeps` | rt/include/rt/fiber_pool.hpp:56-62 | handing a fence to the pool queues one new fiber and keeps the invariant |
| `FrameProtocol.TakeKeeps` | rt/include/rt/fiber_pool.hpp:136-147 | a worker that takes the front of the queue and resumes it keeps the invariant; the fiber parks or runs to its end |
| `FrameProtocol.TestKeeps` | rt/include/rt/fiber_pool.hpp:148-148 | so does the separate test whether the fiber is done |
| `FrameProtocol.DestroyKeeps` | rt/include/rt/fiber_pool.hpp:149-155 | so does destroying the frame and counting it off |
| `FrameProtocol.WakeKeeps` | rt/include/rt/fiber_pool.hpp:159-183 | so does the poller, which queues a parked fiber whose fence is signalled |
| `FrameProtocol.StepKeepsLone` | rt/include/rt/fiber_pool.hpp:136-157 | while one worker acts and the others rest, the pending count is the number of fibers not destroyed, no destroyed frame is touched, and the main loop passes `drain` only when every fiber is gone |
| `FrameProtocol.RunKeeps` | gpu/frame_graph.hpp:84-148 | every interleaving of any length keeps the invariant, and with at most one worker the counting as well |
| `FrameRuns.UnsafeStart` | gpu/frame_graph.hpp:95-101 | with the inherited timeline ahead of a GPU pass there is a run that starts its body before its CPU stage |
| `FrameRuns.StepShrinks` | gpu/frame_graph.hpp:84-148 | every step of every thread lowers a measure, with any number of workers |
| `FrameRuns.RunsAreFinite` | gpu/frame_graph.hpp:84-148 | hence the measure of the start bounds the length of every run |
| `FrameOutcomes.Race` | rt/include/rt/fiber_pool.hpp:147-155 | with two workers, as soon as some GPU body can start, there is a run in which two workers end the same fiber: its destroyed frame is touched and it is counted off twice |
| `FrameOutcomes.EarlyFree` | rt/include/rt/fiber_pool.hpp:66-69 | on two passes with both functions and two workers, a run in which freeing begins while the second GPU body has not started |
| `FrameOutcomes.SafetyIsExact` | gpu/frame_graph.hpp:91-142 | in every interleaving GPU body k starts after CPU stages 0 to k, all bodies are fenced before a buffer is freed and no destroyed frame is touched, if and only if for each GPU pass the inherited timeline plus the signals before it stay within its index, and the pool has at most one worker or no GPU body can ever start |
| `FrameOutcomes.NeverStuck` | gpu/frame_graph.hpp:112-140 | with one worker and enough signals a reachable state without an enabled step is the end |
| `FrameOutcomes.StuckAfterRace` | rt/include/rt/fiber_pool.hpp:66-69 | with two workers and a GPU pass there is a run after which nothing can move and `drain` has not returned |
| `FrameOutcomes.CompletionIsExact` | gpu/frame_graph.hpp:91-142 | every run that cannot be extended has finished `execute`, if and only if no pass has a GPU function, or the pool has exactly one worker and the timeline reaches every GPU pass |
| `FrameOutcomes.HangingGraph` | gpu/frame_graph.hpp:105-115 | a pass without functions before a full one hangs from a fresh timeline, with any number of workers |
| `FrameOutcomes.FinalTimelines` | gpu/frame_graph.hpp:25-27 | a finished run has advanced the CPU timeline by the signalling passes, and with at most one worker the GPU timeline by the GPU passes |
| `FrameOutcomes.FirstAndSecondExecute` | gpu/frame_graph.hpp:84-148 | when every pass has a function the first `execute` is safe and finishes with one worker; with more workers, and a second time with any number, it is safe only if no pass has a GPU function |
| `FrameGraph.LastUseIsLast` | gpu/frame_graph.hpp:78-82 | no pass after the recorded last use lists the resource |
| `FrameGraph.Graph.CreateResource` | gpu/frame_graph.hpp:71-74 | a new buffer is held once and never freed before |
| `FrameGraph.Graph.AddPass` | gpu/frame_graph.hpp:78-82 | the last use of exactly the listed resources becomes the new pass |
| `FrameGraph.Graph.FreeDead` | gpu/frame_graph.hpp:155-163 | a buffer is freed and its slot cleared if and only if the pass is the last one that lists the resource, or the first pass when none does; every other resource is unchanged |
| `FrameGraph.Graph.FreeAfterExecute` | gpu/frame_graph.hpp:141-142 | with at least one pass every buffer ever allocated has been freed exactly once; without passes none is |
| `FrameGraph.Graph.Destroy` | gpu/frame_graph.hpp:65-69 | after destruction every buffer ever allocated has been freed exactly once, whatever happened before |
| `Bytes.DecodeEncode` | src/main.cpp:47-54 | a number written in w little-endian bytes reads back modulo 256 to the w |
| `Bytes.EncodeDecode` | src/main.cpp:69-76 | w bytes read as a number are written back unchanged |
| `Bytes.EncodeDigit` | src/main.cpp:47-54 | byte j of a written number is its j-th digit to the base 256 |
| `SnapshotFile.VectorReadsBack` | src/main.cpp:56-94 | a written vector reads back exactly, with the rest of the file untouched, unless the size policy rejects it |
| `SnapshotFile.LoadAfterStore` | src/main.cpp:219-274 | for seven vectors of bytes and of 64-bit values, loading what was stored, with any bytes after it, returns them if the file is within 67,108,864 bytes and fails otherwise |
| `SnapshotFile.LoadIsExact` | src/main.cpp:219-253 | a file loads as a snapshot if and only if it is within that size and begins with the stored form of that snapshot |
| `SnapshotFile.StoredLayout` | src/main.cpp:255-274 | the stored form is the twelve header bytes and the seven vectors in order, one byte per element of the state and eight per element of the others, and its exact length |
| `SnapshotFile.VectorByte` | src/main.cpp:56-66 | byte j of element i of a written vector is the j-th digit of that element |
| `SnapshotFile.OversizedDoesNotLoad` | src/main.cpp:226-228 | a snapshot whose simulation state has 64 MiB is stored and then rejected on loading |
| `SnapshotFile.TruncationIsRejected` | src/main.cpp:219-274 | every strict prefix of a stored file is rejected |
| `SnapshotFile.StoreSnapshot` | src/main.cpp:255-274 | the writes one after the other produce the stored form |
| `SnapshotFile.LoadSnapshot` | src/main.cpp:219-253 | the reads one after the other return what the stored form means, or fail where it has none |
| `CanonicalState.Reader.ReadVector` | rt/include/rt/snapshot.hpp:74-94 | a bounded vector read returns the counted elements or empties the reader and marks it bad |
| `CanonicalState.ImageBack` | src/main.cpp:107-217 | reading the encoding of an image gives the image and no rest |
| `CanonicalState.ImageSound` | src/main.cpp:107-217 | whatever is read completely is the encoding of the image that was read |
| `CanonicalState.AcceptsExactlyImages` | src/main.cpp:214-215 | for every layout of scalars the empty state and the encodings of images are accepted, nothing else |
| `CanonicalState.CanonicalIsIdempotent` | src/main.cpp:107-217 | canonicalizing twice is canonicalizing once |
| `CanonicalState.CanonicalKeepsConfiguration` | src/main.cpp:107-217 | two images have the same canonical form if and only if they agree on frame, seed, step counts, phases with their element counts and enabled flags, and cost-window length |
| `CanonicalState.Canonicalize` | src/main.cpp:107-217 | the copying loop computes the canonical form for every layout of scalars |
| `SimState.StateIsBlanked` | src/main.cpp:107-217 | the bytes of a state, written field by field, become the bytes of the state with exactly the phase samples and tuning, the cost window and the governor blanked |
| `SimState.SameBytesSameSetup` | src/main.cpp:107-217 | two states give the same bytes if and only if they agree on frame, seed, step counts, phases with their element counts and enabled flags, and cost-window length |
| `SimState.CanonicalizeSimState` | src/main.cpp:107-217 | accepts exactly the empty state and the bytes of a state whose fields are in range, and returns the bytes of the blanked state |
| `Pipeline.ReadU32` | samples/cpu_gpu_fpga_cpu.cpp:204-211 | reads the little-endian number at a word |
| `Pipeline.WriteU32` | samples/cpu_gpu_fpga_cpu.cpp:213-220 | the word reads back, and no other byte or word changes |
| `Pipeline.StagesAreLinear` | samples/cpu_gpu_fpga_cpu.cpp:222-238 | inputs, kernel results and trigger are 100 * frame + index, 200 * frame + 2 * index + 3 and 11 * frame + 5 modulo 2 to the 32 |
| `Pipeline.OutputIsLinear` | samples/cpu_gpu_fpga_cpu.cpp:222-238 | the composed wrap-around stages equal 211 * frame + 2 * index + 8 modulo 2 to the 32 |
| `Pipeline.Scenario.Prepare` | samples/cpu_gpu_fpga_cpu.cpp:955-968 | stages the inputs and the expected outputs and clears the XDMA stage, whatever was there before |
| `Pipeline.Scenario.GraphLaunch` | samples/cpu_gpu_fpga_cpu.cpp:559-585 | maps every device word in place by the kernel |
| `Pipeline.Scenario.Bridge` | samples/cpu_gpu_fpga_cpu.cpp:987-1030 | succeeds exactly when every word is the kernel's result, and then copies all bytes |
| `Pipeline.Scenario.HostToCard` | samples/cpu_gpu_fpga_cpu.cpp:654-679 | fills the card's window and leaves the rest of the card alone |
| `Pipeline.Scenario.ControlWrite` | samples/cpu_gpu_fpga_cpu.cpp:725-736 | sets the trigger register and no other |
| `Pipeline.Scenario.WaitEvent` | samples/cpu_gpu_fpga_cpu.cpp:738-767 | adds the trigger to every word of the window in place, modulo 2 to the 32 |
| `Pipeline.Scenario.Validate` | samples/cpu_gpu_fpga_cpu.cpp:1051-1060 | answers ok exactly when all bytes equal the expected ones |
| `Pipeline.Scenario.RunCuda` | samples/cpu_gpu_fpga_cpu.cpp:1154-1176 | upload, launch and download turn the staged inputs into kernel results |
| `Pipeline.Scenario.RunXdma` | samples/cpu_gpu_fpga_cpu.cpp:1178-1194 | transfer, trigger, event with any value, and transfer back give the outputs; memory outside the window is unchanged |
| `Pipeline.Scenario.RunFrame` | samples/cpu_gpu_fpga_cpu.cpp:955-1060 | for every frame, event value and prior contents the bridge and the validation succeed and the stage holds the linear output |
| `JsonDepth.LexicalDepth` | tools/qualification.py:142-165 | returns the deepest bracket level of any byte string, or 33 once it passes 32 |
| `JsonDepth.DecodeScan` | tools/check_benchmark_artifact.py:52-70 | accepts exactly the byte strings whose deepest level is at most 32, the same ones as the other scanner |
| `JsonDepth.ScanText` | tools/qualification.py:149-157 | a printed string, with its escapes and any brackets in it, leaves the scan as it was |
| `JsonDepth.ScanValue` | tools/qualification.py:142-165 | a printed value returns to the level it started at, outside a string, having reached exactly its own nesting |
| `JsonDepth.DocumentDepth` | tools/qualification.py:142-165 | on a printed document the scan ends at level zero and its maximum is the structural nesting |
| `JsonText.DepthIsPeak` | tools/qualification.py:142-165 | on any text, cut literals and unbalanced brackets included, the depth is the highest value of openings less closings outside literals over all prefixes |
| `JsonText.EveryStringIsText` | tools/qualification.py:142-165 | every byte string is such a text |
| `FiberScheduler.Scheduler.Spawn` | examples/perf_experiments.cpp:362-367 | a new fiber runs up to its first sleep, due one duration from now, and is accounted for |
| `FiberScheduler.Scheduler.PopEarliest` | examples/perf_experiments.cpp:371-374 | takes out a sleeper with the least wake time, with any order among ties |
| `FiberScheduler.Scheduler.AwaitWake` | examples/perf_experiments.cpp:375-376 | returns at or after the wake time and never turns the clock back |
| `FiberScheduler.Scheduler.Continue` | examples/perf_experiments.cpp:393-397 | a resumed fiber sleeps again if it has sleeps left, else it is finished |
| `FiberScheduler.Scheduler.Turn` | examples/perf_experiments.cpp:370-378 | one turn resumes one fiber once, in time and in order, and one sleep less is owed |
| `FiberScheduler.Scheduler.Run` | examples/perf_experiments.cpp:368-379 | the loop ends with no sleeper; every fiber was resumed exactly as often as it sleeps, never before its wake time and with a full sleep between its resumes, and the wake times never decrease |
| `FiberScheduler.TurnRests` | examples/perf_experiments.cpp:386-397 | a turn keeps at least the sleep duration between any two resumes of the same fiber |
| `FiberScheduler.TurnAccounts` | examples/perf_experiments.cpp:370-397 | resumes done plus sleeps ahead stay equal to the sleeps of every fiber |
| `HardwareEvidence.CellCount` | tools/check_hardware_evidence.py:129-130 | iterations times labels is the number of measured stages |
| `HardwareEvidence.CoverIsCounting` | tools/check_hardware_evidence.py:135-165 | distinct samples within the grid that are as many as its cells cover each cell exactly once, and conversely |
| `HardwareEvidence.ScanSamples` | tools/check_hardware_evidence.py:135-162 | the loop reports no error exactly when every sample is a well-formed stage and none repeats, and collects the named stages |
| `HardwareEvidence.CheckHealth` | tools/check_hardware_evidence.py:106-119 | health is accepted exactly when all counters are non-negative integers and the three failure counters are zero |
| `HardwareEvidence.ValidateEvidence` | tools/check_hardware_evidence.py:92-177 | no error is reported if and only if the samples correspond one to one to the measured stages and the counters match warmup plus measurement |
| `XdmaRun.RunSubmission` | samples/xdma_qualification.cpp:149-192 | a submission passes exactly when the device accepts, polls and completes it; its timing is the clock around the submit call, from there to the last poll and around every poll, and the device counts it once |
| `XdmaRun.Run` | samples/xdma_qualification.cpp:360-425 | evidence is written exactly after a flawless run, with matching counters and two samples per measured iteration in order, each with the timing of its own submission |
| `XdmaRun.CompleteRunIsAccepted` | samples/xdma_qualification.cpp:360-425 | the evidence of a complete run is accepted by the validator if and only if there was at least one warmup |
| `XdmaRun.RunWithoutWarmupIsRejected` | samples/xdma_qualification.cpp:112-114 | a permitted run without warmup whose evidence is rejected |
| `ArtifactTree.CountEntries` | tools/qualification.py:931-942 | reading a directory stops with an error exactly when the entry limit is passed |
| `ArtifactTree.LookMoves` | tools/qualification.py:948-976 | looking at an entry moves its share to the result and its inside to the stack, or counts an error |
| `ArtifactTree.Turn` | tools/qualification.py:929-976 | handling one directory keeps the balance between listed, waiting and remaining entries and shrinks the work |
| `ArtifactTree.ScanTree` | tools/qualification.py:919-977 | the scan ends; it reports no error if and only if the tree is readable, free of links and within all limits, and then has listed every file as often as it occurs; it never lists one more often |
| `ArtifactTree.OccursIffNamed` | tools/qualification.py:948-950 | where names do not repeat in a directory a file occurs once, exactly where its path leads to it |
| `ArtifactTree.ListingIsDistinct` | tools/qualification.py:919-977 | any listing, errors or not, names no path twice and only paths that lead to that file |
| `ArtifactTree.ListingIsComplete` | tools/qualification.py:919-977 | without an error the listing is the set of files of the tree |
| `ArtifactManifest.CheckShape` | tools/qualification.py:659-689 | the manifest is accepted exactly when its count, sizes and total are in range and no path repeats |
| `ArtifactManifest.GoodFileFits` | tools/qualification.py:885-916 | a file that matches a well-shaped manifest is within both byte limits at any point of the scan |
| `ArtifactManifest.CheckFile` | tools/qualification.py:995-1025 | one file passes exactly when it is a listed, readable regular file of the listed size and digest within the limits |
| `ArtifactManifest.CheckFiles` | tools/qualification.py:992-1025 | with a well-shaped manifest the byte limits never decide: the files pass exactly when each matches its entry |
| `ArtifactManifest.VerifyArtifacts` | tools/qualification.py:980-1030 | no error is added if and only if the tree fits and its files are exactly the listed ones with the listed contents |
| `ArtifactManifest.CheckArtifacts` | tools/qualification.py:1033-1050 | manifest and tree pass together exactly when the manifest is well shaped, the tree fits and both agree |
| `NearestRank.IndexesAgree` | src/runtime_profile_demo.cpp:407-415 | for every duration the demo accepts, its 64-bit percentile position equals the checker's and is the position of a sample |
| `NearestRank.FrameCountIsCeiling` | src/runtime_profile_demo.cpp:407-415 | the demo runs as many frames as the duration begins periods of one millisecond, if they are at most 3,600,000 |
| `NearestRank.PercentileIsLeast` | tools/check_benchmark_artifact.py:276-279 | the percentile is a sample and the least value with at least p percent of the samples at or below it |
| `NearestRank.PercentilesAreOrdered` | tools/check_benchmark_artifact.py:276-279 | a higher percentage gives no smaller value, within minimum and maximum |
| `NearestRank.TotalWithinSpan` | tools/check_benchmark_artifact.py:255-265 | disjoint samples together last at most from the first start to the last end |
| `NearestRank.CheckTimeline` | tools/check_benchmark_artifact.py:253-265 | the loop accepts exactly the numbered, consistent, non-overlapping samples; the check of the total never rejects one |
| `ReleaseLinks.NormalIffInside` | tools/extract_release_archive.py:51-61 | resolution succeeds exactly when no prefix climbs above the root; the result has no "." or ".." and the expected depth |
| `ReleaseLinks.NormalKeepsMeaning` | tools/extract_release_archive.py:51-61 | in every directory tree without links in which the written path leads somewhere, the resolved path leads to the same place |
| `ReleaseLinks.LinkTarget` | tools/extract_release_archive.py:37-61 | a target is returned exactly when it is relative, plainly written, never climbs out and does not end at the root |
| `ReleaseLinks.CheckedMembers` | tools/extract_release_archive.py:64-86 | the inventory loop accepts exactly the safe, distinct names, the root's own name included, with sizes and count within the limits |
| `ReleaseLinks.StripEndIsLongest` | tools/extract_release_archive.py:21-21 | of a raw name exactly the trailing slashes are dropped |
| `ReleaseLinks.CollectLinks` | tools/extract_release_archive.py:102-118 | accepted exactly when every member is supported and every link resolves to a member |
| `ReleaseLinks.WalkLink` | tools/extract_release_archive.py:121-129 | the walk from a link ends and succeeds exactly when following it reaches something that is not a link |
| `ReleaseLinks.WalkLinks` | tools/extract_release_archive.py:120-129 | all links are walked, and accepted exactly when none leads into a cycle |
| `ReleaseLinks.CheckArchive` | tools/extract_release_archive.py:95-129 | an archive is accepted exactly when inventory, links and chains all are |
| `ReleaseLinks.LinksEndInMembers` | tools/extract_release_archive.py:102-129 | in an accepted archive the chain of resolved targets from every link ends in a member that is not a link |
| `ExtractedLinks.StoodOnDirectories` | tools/extract_release_archive.py:149-152 | a path that the file system walks as its text says has stood on a directory before each of its pieces |
| `ExtractedLinks.LinksLeadAsChecked` | tools/extract_release_archive.py:37-61 | on every disk that shows the links, all of them lead, by the way their texts say, to the end of their checked chains if and only if no path to a link and no target stands on a link, a file or nothing before its last piece |
| `ExtractedLinks.ArchiveLinksLead` | tools/extract_release_archive.py:95-152 | the same for the tree that an accepted archive extracts to |
| `ExtractedLinks.DirectLinksEndInMembers` | tools/extract_release_archive.py:95-152 | under that condition opening a link of an accepted archive leads to a member that is not a link |
| `ExtractedLinks.DetourLeadsAstray` | tools/extract_release_archive.py:51-61 | an accepted archive, for any five different names, whose link is checked as leading to one file and leads to another on disk |

## Left out

- Golden contract: fixed inventories of names, channel geometry, budgets, the device partition and the file digests, which are field comparisons; the phase model takes any inventory.
- `SampleAge.CheckChannelAge`: does not model the limits on the horizon and on the number of reference records, which are separate comparisons of one number.
- Benchmark comparison: the noise and outlier filter, manifests, reviews and report printing; `Verdict.CompareCase` starts where the intervals are computed.
- `Verdict.WrongVerdictsAreRare`: speaks of finite sets of equally likely outcomes in which every above/below pattern is equally frequent, the exact form of independent runs with a median.
- Frame graph: the measured durations and the overlap budget; memory ordering is taken as sequentially consistent; the pool is used by this graph alone and its stop path is not modelled; after a destroyed frame is touched the model goes on as if the test had said done, one of the things that can happen.
- Snapshot: opening and seeking files; doubles are the 64-bit patterns that are stored.
- Pipeline: handle and argument checks of the driver stubs, injected failures and call counters; only the successful step order is modelled.
- `FiberScheduler.Scheduler.Run`: coroutine frames are numbers of sleeps left; the clock is any clock that does not go back.
- Evidence: identity strings, versions and file limits, which are single field checks.
- `XdmaRun.Run`: assumes that the device counts each accepted submission and each completion once and reports no timeout, error or loss in a flawless run, that it does not stay busy for ever, and that reading its health, unregistering and shutting down succeed; the byte comparison is a free choice per iteration.
- Artifacts: changes of the tree during the scan, path text rules, portable name collisions and the order of manifest entries; directories are given in name order.
- `ArtifactManifest.CheckShape`: does not model the sort order, the path syntax and the digest syntax of entries.
- `NearestRank.CheckTimeline`: does not model the counters of a sample and their totals.
- Release archives: writing the files and the zip variant; a raw name is given by its pieces between slashes; the extracted tree has the listed members and the directories above them, so archives whose members lie below a file or a link, which extraction cannot lay out that way, are covered only as paths that are not direct.
- `ExtractedLinks.LinksLeadAsChecked`: is exact for the way as well as the end; a link that passes through another link may still end in the right place by chance.
- The C interface, documentation checkers, generators, hashing, signatures, command lines and the floating-point demos.
