# Verification of the search, timeline and evidence tools

A Dafny model of the algorithms that these tools carry, with proofs of what they promise:

- the batch search runtime (`SearchSamples`, `ScriptedMerge`, `SearchSelection`, `SearchTicks`,
  `SearchMeaning`, `SearchDevice`): the staged per-tick pipeline and the fused kernel over the same device buffers, the
  running best of a slot, the reduction to one winner, and the two orders that decide it; `RejectionSampler` and
  `ScratchTiles` are its random numbers and its shared collision storage;
- finish-time refinement (`FinishProbe`): the bisection to one nanosecond;
- the source-to-source translator: folding of branches on listed flags (`BranchSyntax`, `BranchFolding`,
  `BranchRuns`), wrapping and unwrapping of calls (`CallForests`, `CallWrapping`, `CallInsertions`,
  `CallRewriting`), the edit table (`EditTable`) and hunk-based patching (`UnifiedPatch`);
- the ABI generator: registration and order of records (`TypeGraph`) and their padding (`RecordLayout`);
- input-event lists (`EventLookup`, `EventBuffer`, `InputNormalization`);
- the evidence tools: the exact interval and sign test (`MedianEvidence`) and the shard auditor
  (`ShardAudit`).

Code that updates buffers, objects or a text step by step is imperative here as well: classes and arrays for
the device buffers, the event buffer, the collision storage, the generator, the ordering, the auditor and the
edit table; loops for the rewriters, the patch, the bisection and the interval. Each is proved against a
function, and what the tool promises is proved about that function. `Common`, `Arithmetic`, `Inputs` and
`Pieces` hold shared shapes and facts.

## Conventions

- Scores are exact reals with infinities and NaN (`SearchSamples.Float`); confidences, coverages, p-values and
  times are exact reals. Rounding is not modelled.
- The physics step and the evaluators are uninterpreted functions of the search parameters, so the results
  hold for any of them. A slot's collision scratch is part of its vehicle state. Scripted objectives are
  uninterpreted expressions; what is done with their values is modelled. The buffers of 16 scores are unbounded
  here, with zero where nothing has been written.
- Event times are 32 bits wide and hold windows 64 bits; the cast between them is explicit. 32-bit wrap-around
  is written out where the code relies on it (`RejectionSampler.Threshold`, `ScratchTiles.TileStride`).
- Program text is a sequence of tokens. For branches, blanks are not represented: every `if`, `else` and name is
  its own token, and the text that is meant has the blank between `if` or `constexpr` and the parenthesis that
  the folder's pattern demands. For calls, blanks and newlines are tokens because the rewriters read them.
- Threads of one dispatch run in an arbitrary order, one at a time; each touches its own slot only.
- A random source is a finite sequence of words; a sampler that runs out of them returns nothing.

## Where the code and its promises differ

- Folding does not see `else if constexpr` as a link of a chain. A fold in front of such a link leaves it
  dangling behind the new block; `BranchRuns.FoldIsRightIff` and `FoldIsProgramIff` give the exact condition for
  a fold. The whole-text result covers the programs in which every such link has become an `else` block by the
  time the flag in front of it is tried, or the branch is discarded before; both depend on the order of the table
  (`BranchSyntax.StmtsReady`). `BranchRuns.RoutineDangles` is a program on which the whole routine goes wrong.
- Folding in another table order can leave other block braces behind. The result is therefore compared with the
  reference up to the braces of blocks (`BranchRuns.FoldedFrom`).
- Wrapping is not idempotent on `Name Name(x)`, and unwrapping does not undo the wrapping of `(*Name Name(x))`:
  the second match of the pattern starts with the parenthesis that ended the first. `CallForests.WrapTwice` and
  `WrapUnwrap` give the exact conditions on every balanced text.
- Normalisation preserves the meaning of inputs exactly if no two events at one time with one action differ in
  value kind.
- An insertion with a hold of length zero, or one that starts at the end of the window, writes no release event,
  so the inverted value stays; `EventBuffer.HoldIsLocalIff` and `DrawIsLocalIff` give the exact condition. An
  insertion also clears events of other value kinds of its action (`OtherKindsKeptIff`).
- A tile stride wraps around for strides above 2^32 - 32, and then candidates share cells.
- With ties at the null the sign test can reject while the interval contains the null; the other direction holds
  with ties too. `MedianEvidence.IntervalTestDuality` says exactly when the two disagree.
- The staged scripted branch has no exit on a completed race. `SearchTicks.StagedTickAgreesIff` shows that this is
  the only difference between the two forms of a tick, and `StagedRunEqualsFusedRunIff` that whole runs agree
  exactly if the fused one does not take that exit.
- A NaN score can hide later scores of its slot from the scalar reduction; `SearchSelection.SlotStandsIff` says
  exactly when a slot's best stands for the slot.
- The "recursive value record" error can be raised for records that only point to each other, if one derives from
  the other and the base is registered first; `TypeGraph.CycleIffBaseLoop` gives the exact condition.
- A record that derives from a template with built-in emission brings a name into the order that is not
  registered. A fixed array that needs tail padding is emitted without it; `RecordLayout.RecordAgreesIff`
  says exactly which records still agree.

## Model

| member | source | states |
|---|---|---|
| `MedianEvidence.IntervalTestDuality` | tools/reference_evidence/run_reference_baseline_current_interleaved.py:378-421 | Whatever the values, an interval that excludes the null comes with a rejecting sign test; the two disagree exactly if the untied observations qualify at the rank one above their smaller side while all observations, ties counted against them, do not; without ties at the null they always agree, for every confidence strictly between 0 and 1 |
| `MedianEvidence.TieBreaksDuality` | tools/reference_evidence/run_reference_baseline_current_interleaved.py:378-421 | A witness for the disagreement: a list with one tie on which the test rejects and the closed interval still contains the null |
| `MedianEvidence.ExcludesByRank` | tools/reference_evidence/run_reference_baseline_current_interleaved.py:378-401 | With ties allowed, the interval excludes the null exactly if the rank one above the smaller count of observations not strictly beyond it is scanned and qualifies |
| `MedianEvidence.RejectsByRank` | tools/reference_evidence/run_reference_baseline_current_interleaved.py:404-421 | The test rejects exactly if that rank, over the untied observations, qualifies, and a qualifying rank lies within the scanned half |
| `MedianEvidence.CoverageDecreases` | tools/reference_evidence/run_reference_baseline_current_interleaved.py:382-385 | Coverage strictly decreases in k up to n + 1, so qualifying ranks form an initial stretch |
| `MedianEvidence.CoverageWithTies` | tools/reference_evidence/run_reference_baseline_current_interleaved.py:382-385 | Adding t tied observations and t ranks never raises the coverage |
| `MedianEvidence.SelectedRankIsLargest` | tools/reference_evidence/run_reference_baseline_current_interleaved.py:380-387 | A rank in the scanned range qualifies exactly if it is at most the selected one |
| `MedianEvidence.ExactMedianInterval` | tools/reference_evidence/run_reference_baseline_current_interleaved.py:378-401 | The overwriting loop over k returns the bounds at the largest qualifying rank, or nothing if none qualifies |
| `MedianEvidence.IntervalMeans` | tools/reference_evidence/run_reference_baseline_current_interleaved.py:378-401 | The interval reaches from the k-th smallest to the k-th largest value for the largest k up to half of the values for which enough of the 2^n outcomes of n coin tosses have at least k heads and k tails; ranks and coverage are the ones reported, and there is no interval exactly if no k qualifies |
| `MedianEvidence.PValueMeans` | tools/reference_evidence/run_reference_baseline_current_interleaved.py:404-421 | The p-value is one without untied observations; otherwise it is twice the share of the outcomes of as many coin tosses with at most as many heads as the rarer sign, and never above one |
| `MedianEvidence.CombCounts` | tools/reference_evidence/run_reference_baseline_current_interleaved.py:383-383 | The coefficients count the outcomes of n coin tosses by their number of heads |
| `MedianEvidence.CombSumComplement` | tools/reference_evidence/run_reference_baseline_current_interleaved.py:383-383 | Two complementary partial sums of a binomial row add up to 2^n |
| `MedianEvidence.HalfSum` | tools/reference_evidence/run_reference_baseline_current_interleaved.py:404-414 | A tail that reaches the middle of the row carries at least half of 2^n, so a doubled tail above one is a p-value of one |
| `SearchSamples.ScriptedBetter` | tools/generate_vulkan_search_shader.py:1804-1822 | The objective loop with its early exit decides Pareto dominance, for any number of objectives, including the validity and count cases |
| `SearchSamples.BetterIsStrictPartialOrder` | tools/generate_vulkan_search_shader.py:1804-1822 | The scalar order is irreflexive and transitive on all samples, NaN scores included; the Pareto order is on samples without NaN objectives |
| `SearchSamples.ScalarIsWeakOrder` | tools/generate_vulkan_search_shader.py:1171-1182 | For the scalar order, not being better is transitive as well, unless the sample in the middle has a NaN score |
| `SearchSamples.NaNBreaksDominance` | tools/generate_vulkan_search_shader.py:1814-1820 | Why the order needs its premise: with a NaN objective, which the sample update never stores, dominance would not be transitive |
| `ScriptedMerge.UpdateScriptedSample` | src/simulation/backends/vulkan/vulkan_search.slang:14676-14721 | The two loops change nothing if some objective has no finite value or score; otherwise they merge the tick objective by objective, keeping the better score with its value; so a sample that stores the best value of some ticks for every goal still does with this tick |
| `ScriptedMerge.MergeKeepsPeak` | src/simulation/backends/vulkan/vulkan_search.slang:14706-14714 | A sample that holds the best score of every objective over some ticks still does once another tick is merged in |
| `ScriptedMerge.PeakIsRanked` | src/simulation/backends/vulkan/vulkan_search.slang:14697-14705 | No objective of a merged sample is NaN, so the Pareto order on merged samples needs no further premise |
| `SearchSelection.ScanIsMaximal` | tools/generate_vulkan_search_shader.py:1867-1882 | The winner of a first-wins scan is the incumbent or beats it, and nothing that was scanned, nor the incumbent, beats the winner; for the scalar order whatever the scores, for the Pareto order without NaN objectives |
| `SearchSelection.NoEarlierIncumbentWins` | tools/generate_vulkan_search_shader.py:1867-1882 | No sample that was the running incumbent at any point of the scan beats the final winner |
| `SearchSelection.SlotStandsIff` | tools/generate_vulkan_search_shader.py:2159-2160 | Offering the best of a slot to the reduction is scanning all its samples, for every incumbent, if and only if the slot hides no score behind a NaN: its first valid sample is not NaN, or all its valid samples are |
| `SearchSelection.TwoLevelScan` | tools/generate_vulkan_search_shader.py:2159-2160 | Unless a slot hides a score, scanning per-slot bests picks what one scan over the concatenated samples of the slots picks, for every incumbent and any other NaN scores |
| `SearchSelection.IncreasingIsUnique` | tools/generate_vulkan_search_shader.py:2156-2157 | A multiset of samples has at most one listing in strictly increasing logical order |
| `SearchSelection.TwoLevelEqualsFlatScan` | tools/generate_vulkan_search_shader.py:1867-1882 | Unless a slot hides a score, per-slot running bests and the slot-order reduction pick the same sample as one scan over all samples in increasing logical order, for every incumbent |
| `SearchSelection.NaNSplitsTheTwoScans` | tools/generate_vulkan_search_shader.py:2159-2160 | A witness: a slot with a NaN in front of a number, on which the two scans pick different samples |
| `SearchTicks.StagedTickAgreesIff` | tools/generate_vulkan_search_shader.py:1344-1475 | For any evaluator one staged tick leaves a candidate as one fused tick does exactly if the fused scripted branch does not end it on a completed race |
| `SearchTicks.StagedRunEqualsFusedRunIff` | tools/generate_vulkan_search_shader.py:1276-1475 | For every evaluator, Prepare, Physics, Evaluate over any span of ticks leave vehicle state, control state, cursor, evaluation index, reported and active flag and best sample exactly as the fused loop does if and only if no tick of the fused run takes the scripted exit on a completed race |
| `SearchTicks.OnlyScriptedExits` | tools/generate_vulkan_search_shader.py:2114-2138 | Only scripted searches take that exit, so for every other evaluator the two forms always agree |
| `SearchTicks.StagedGoesOn` | tools/generate_vulkan_search_shader.py:1411-1431 | A witness: a scripted candidate whose race is complete goes on in the staged form and ends in the fused one |
| `SearchTicks.FusedRunComposes` | tools/generate_vulkan_search_shader.py:1907-2188 | Stopping the fused loop at any tick, writing back and resuming is the uncut loop |
| `SearchTicks.ChunksEqualOneRun` | src/simulation/backends/vulkan/vulkan_search_executor.cpp:795-830 | Dispatching the fused kernel over consecutive chunks of any lengths is one uncut run |
| `SearchTicks.TickEffect` | tools/generate_vulkan_search_shader.py:2097-2161 | A tick offers at most one sample, stamps it with the evaluation index and the slot-major logical order, and changes the running best only by a first-wins comparison |
| `SearchTicks.BestIsScan` | tools/generate_vulkan_search_shader.py:2148-2161 | The running best after a run is the first-wins scan of everything the run emitted |
| `SearchTicks.EmittedIsStamped` | tools/generate_vulkan_search_shader.py:2152-2161 | Emitted samples carry increasing evaluation ticks below the evaluation tick count, hence increasing logical orders |
| `SearchTicks.BatchWinnerIsFlatScan` | tools/generate_vulkan_search_shader.py:1867-1882 | Unless a slot hides a score behind a NaN, simulating every slot and reducing the slot bests selects the sample that one scan of all emitted samples in increasing logical order selects |
| `SearchTicks.NaNHidesInBatch` | src/simulation/backends/vulkan/vulkan_search.slang:14724-14800 | A witness: an evaluator that emits a NaN and then a number, which no finite check stops; the batch keeps an incumbent that the flat scan replaces |
| `SearchTicks.ScriptedBestIsPeak` | tools/generate_vulkan_search_shader.py:2114-2138 | The running best of a scripted run holds, objective by objective, the best score of all ticks whose objectives were usable, and is valid exactly if there was one |
| `SearchTicks.ScriptedWinnerIsMaximal` | tools/generate_vulkan_search_shader.py:1867-1882 | In a scripted batch no slot best and not the incumbent dominates the winner, which is the incumbent or dominates it; the slot bests are never NaN, so only the first incumbent has to be free of NaN |
| `SearchTicks.ScriptedBestStoresValues` | src/simulation/backends/vulkan/vulkan_search.slang:14697-14714 | For every Minimize objective the running best of a scripted run stores the least value of all evaluated ticks whose values are finite, for every Maximize objective the greatest, for every Approach objective the one nearest to its target, each with its score; it is valid exactly if there was such a tick |
| `SearchTicks.InitialIsFresh` | tools/generate_vulkan_search_shader.py:1184-1251 | A candidate starts with the words and position of the branch state under the first candidate id plus its slot, wrapped to 32 bits, with the boundary controls, no applied event, nothing reported and no best |
| `SearchMeaning.FusedTickInputs` | tools/generate_vulkan_search_shader.py:2003-2010 | A fused tick applies the events from the cursor on that are due at its time, one after the other, and stops at the first that is not due or at the end; the vehicle is stepped under the controls that result |
| `SearchMeaning.StagedTickInputs` | tools/generate_vulkan_search_shader.py:1309-1315 | A staged tick applies exactly the same events |
| `SearchMeaning.FusedTickEvaluation` | tools/generate_vulkan_search_shader.py:2097-2161 | What a fused tick does to reported flag, evaluation index, active flag and best, written out on evaluator and sample fields for every kind of search: when it evaluates, what it records, when it stops |
| `SearchMeaning.StagedTickEvaluation` | tools/generate_vulkan_search_shader.py:1344-1475 | A staged tick does the same unless a scripted candidate has completed its race, which it leaves active |
| `SearchMeaning.FusedRunInputs` | tools/generate_vulkan_search_shader.py:1989-2010 | On a time-sorted list a run applies every event that is due at the last tick it simulates, once and in order, and no other |
| `SearchMeaning.ScanIsBest` | tools/generate_vulkan_search_shader.py:1867-1882 | If the scores are numbers, a scan ends with the incumbent or with the first of the best samples: the best score, then the fewest events, then the place in the list |
| `SearchMeaning.BatchWinnerIsBest` | tools/generate_vulkan_search_shader.py:1867-1882 | If all scores are numbers, no sample that any slot emits outscores the winner of a batch, which is the incumbent or, in logical order, the first of the best samples |
| `SearchDevice.Device.constructor` | tools/generate_vulkan_search_shader.py:1184-1251 | Initialisation gives every slot the branch state under its own candidate id with a fresh scratch, the boundary control state, a fresh cursor and an empty best, and keeps the incumbent in samples[0] |
| `SearchDevice.Device.PrepareThread` | tools/generate_vulkan_search_shader.py:1276-1342 | One thread updates its own slot as the prepare stage says and no other slot |
| `SearchDevice.Device.PhysicsThread` | tools/generate_vulkan_search_shader.py:1675-1794 | As long as steps succeed, one thread steps its own vehicle state if active and changes no other slot |
| `SearchDevice.Device.EvaluateThread` | tools/generate_vulkan_search_shader.py:1344-1475 | After a successful step one thread evaluates its own slot, keeps the incumbent, and changes no other slot |
| `SearchDevice.Device.RunStaged` | tools/generate_vulkan_search_shader.py:1276-1475 | With the threads of every single dispatch in an order of their own, the staged pipeline over the buffers leaves a candidate as the fused run does exactly if that run takes no scripted exit, for every evaluator |
| `SearchDevice.Device.FusedIteration` | tools/generate_vulkan_search_shader.py:1989-2180 | The body of the fused tick loop on local copies computes one fused tick, with every exit that does not report a failure |
| `SearchDevice.Device.FusedThread` | tools/generate_vulkan_search_shader.py:1907-2188 | As long as steps succeed, local copies, a tick loop over one chunk and one write-back update the own slot to the fused run over that chunk and no other slot |
| `SearchDevice.Device.RunFused` | tools/generate_vulkan_search_shader.py:1907-2188 | Dispatching the fused kernel over any chunks that cover the timeline, the threads of every dispatch in an order of their own, leaves every candidate as one uncut fused run; on a time-sorted list it has then applied exactly the input events that are due at the last tick it simulated, once and in order |
| `SearchDevice.ImprovedWinnerBeats` | tools/generate_vulkan_search_shader.py:1867-1890 | A scan that replaced its incumbent at least once ends with a sample that beats the original incumbent, whatever the scores in the scalar order and without NaN objectives in the Pareto order; otherwise it returns the incumbent |
| `SearchDevice.ImprovementsAre` | tools/generate_vulkan_search_shader.py:1867-1882 | The reported number of improvements is the number of slot bests that beat what the scan of the earlier ones has kept |
| `SearchDevice.LastFailureDecides` | tools/generate_vulkan_search_shader.py:1838-1847 | The batch status is zero exactly if no slot failed; otherwise the last failed slot decides it, with 2 reported as 4, 1 as 3 and 4 as 6 |
| `SearchDevice.Device.ReduceSlots` | tools/generate_vulkan_search_shader.py:1867-1882 | The slot loop returns the scan of the slot bests, a slot that holds it, and how often the incumbent was replaced |
| `SearchDevice.Device.RecheckHolds` | tools/generate_vulkan_search_shader.py:1884-1890 | Whatever the scores, a winner that replaced the incumbent is valid and in a scalar search passes the final comparison against samples[0] |
| `SearchDevice.Device.Finalize` | tools/generate_vulkan_search_shader.py:1824-1904 | The whole summary: status, counts, winner, winner slot and improvements in batch and in baseline mode, the copied winner events, and bestChanged exactly if a slot won, whatever the scores |
| `SearchDevice.SearchBatch` | tools/generate_vulkan_search_shader.py:1184-2188 | Initialisation, fused dispatches over any chunks and the final reduction together: summary.winner is the winner of one scan of all emitted samples in increasing logical order unless a slot hides a score; in a scripted search no slot best and not the incumbent dominates it; bestChanged exactly if a slot won, and then slot, counts and copied events are those of the winner |
| `RejectionSampler.ExactlyUniform` | tools/generate_vulkan_search_shader.py:2647-2661 | Every result in 0..maximum comes from exactly floor(2^32 / (maximum + 1)) accepted words, and no accepted word gives a larger result |
| `RejectionSampler.EarlyTestIsSound` | tools/generate_vulkan_search_shader.py:2653-2655 | A word passed by the early test low >= range is one the threshold accepts |
| `RejectionSampler.ThresholdIsRemainder` | tools/generate_vulkan_search_shader.py:2654-2654 | The wrapped negation modulo the range is 2^32 modulo the range |
| `RejectionSampler.WordSource.UniformFromZeroThroughU32` | tools/generate_vulkan_search_shader.py:2647-2661 | The sampler returns the high half for the first accepted word and consumes exactly the words up to it; for the full range it returns the next word |
| `ScratchTiles.SeparatesIff` | tools/generate_vulkan_search_shader.py:851-862 | Distinct (index, slot) pairs reach distinct cells exactly for the strides whose rounding up to whole tiles does not wrap around 32 bits |
| `ScratchTiles.CellInBounds` | tools/generate_vulkan_search_shader.py:851-862 | Every addressed tile lies below capacity times the tile stride, every lane below the tile width |
| `ScratchTiles.CollisionStorage.Store` | tools/generate_vulkan_search_shader.py:851-876 | A store through one candidate updates that candidate's record and no other record of any candidate |
| `ScratchTiles.CollisionStorage.LoadOverflow` | tools/generate_vulkan_search_shader.py:878-887 | An overflow read returns the vector at that index of the candidate's sequence of vectors, two to a record |
| `ScratchTiles.CollisionStorage.StoreOverflow` | tools/generate_vulkan_search_shader.py:889-898 | An overflow store is a plain update of the candidate's sequence of vectors and leaves every other candidate alone |
| `FinishProbe.ExecuteFinishProbe` | tools/generate_vulkan_timeline_shader.py:1587-1690 | At most ceil(log2 w) probes; rejected exactly if the substep does not reach past the nanosecond it starts in; a refined estimate is valid and brackets the finish; failure only if a step fails |
| `FinishProbe.BracketIsLeastFinished` | tools/generate_vulkan_timeline_shader.py:1607-1669 | For a monotone probe a bracket of one nanosecond names the least finished whole nanosecond |
| `FinishProbe.RefineFinish` | include/forevervalidator/finish_time.h:15-19 | For positive fullDt and succeeding steps the estimate is always valid, brackets the finish, is the least finished whole nanosecond when the probe is monotone, and the first whole nanosecond not before the finish when partial steps are not rounded |
| `FinishProbe.BracketHoldsFinish` | tools/generate_vulkan_timeline_shader.py:1607-1690 | If partial steps are not rounded and the vehicle finishes at some time of the substep, the reported nanosecond is the first whole one that is not before it |
| `FinishProbe.PositiveSpan` | tools/generate_vulkan_timeline_shader.py:1607-1618 | A positive substep spans at least one whole-nanosecond bound, so the 900000002 failure is not reached |
| `FinishProbe.CandidateHalves` | tools/generate_vulkan_timeline_shader.py:1616-1621 | The probed nanosecond lies strictly inside the bounds and either half needs one level less |
| `FinishProbe.CeilLog2IsLeast` | tools/generate_vulkan_timeline_shader.py:1607-1649 | The probe bound is the least exponent whose power of two reaches the width |
| `EventLookup.LookupFindsLatestWriter` | tools/cuda_modifier_event_ops_benchmark.cpp:34-49 | The full scan finds the last event of the channel at the latest written time not after the query, or nothing if there is none |
| `EventLookup.SameWritersSameLookup` | tools/cuda_modifier_event_ops_benchmark.cpp:34-49 | Lists with the same channel writer at every time up to a query look the same there |
| `EventLookup.LookupConcat` | src/simulation/backends/cuda/cuda_modifier_event_ops.cuh:87-133 | Looking in two runs is looking in each, the appended run winning unless the earlier hit is later |
| `EventBuffer.SortedLookup` | src/simulation/backends/cuda/cuda_modifier_event_ops.cuh:56-66 | On a time-sorted list the full scan is a backward scan from the upper bound |
| `EventBuffer.Buffer.UpperBoundTime` | src/simulation/backends/cuda/cuda_modifier_event_ops.cuh:32-46 | The binary search separates the events at or before a time from those after it |
| `EventBuffer.Buffer.ChannelStateAt` | src/simulation/backends/cuda/cuda_modifier_event_ops.cuh:48-82 | Sorted and unsorted lookup return the same last value of the channel |
| `EventBuffer.Buffer.FullScan` | tools/cuda_modifier_event_ops_benchmark.cpp:34-49 | The scan with a running best time returns the last value of the channel at a time, or the initial value |
| `EventBuffer.Buffer.ChannelStateAtWithAppendedRun` | src/simulation/backends/cuda/cuda_modifier_event_ops.cuh:87-133 | Two binary searches, in a sorted list and in the ascending run appended to it, return what the full scan of the unsorted whole returns |
| `EventBuffer.KeepWriters` | tools/cuda_modifier_event_ops_benchmark.cpp:66-84 | Range removal silences its action inside the closed range and changes no other channel or time |
| `EventBuffer.Buffer.LegacyRemoveRange` | tools/cuda_modifier_event_ops_benchmark.cpp:66-84 | In-place compaction keeps exactly the surviving events in order and returns the channel state from before the removal |
| `EventBuffer.Buffer.RemoveActionRangeAndReadState` | src/simulation/backends/cuda/cuda_modifier_event_ops.cuh:138-168 | The single pass that reads while it compacts leaves the same list and returns the same state as scan and removal apart |
| `EventBuffer.Buffer.InsertSwitchChannel` | tools/generate_vulkan_search_shader.py:2223-2270 | A disabled channel changes nothing; otherwise the insertion loop, every drawn hold clamped to the window and every insertion consulting the list and the pass baseline, yields the list after all insertions, and gives up only on a full buffer |
| `EventBuffer.HeldInsertionIsLocal` | tools/generate_vulkan_search_shader.py:2240-2267 | One insertion with end > start into the pass baseline leaves the channel as it was before start and from end on, inverts the value at start in between, and changes no other channel |
| `EventBuffer.HoldIsLocalIff` | tools/generate_vulkan_search_shader.py:2240-2267 | For every baseline, channel and hold, every time outside the hold keeps its value if and only if the hold ends after it starts |
| `EventBuffer.DrawIsLocalIff` | tools/generate_vulkan_search_shader.py:2240-2267 | In terms of the draws: an insertion is local if and only if the drawn length is positive and the drawn start lies before the end of the window |
| `EventBuffer.OtherKindsKeptIff` | tools/generate_vulkan_search_shader.py:2248-2252 | For every hold, another value kind of the same action keeps its meaning if and only if none of its events lies in the closed range of the hold, which the insertion clears |
| `EventBuffer.InsertionPassIsLocal` | tools/generate_vulkan_search_shader.py:2223-2270 | After any number of possibly overlapping insertions with positive holds the channel has its baseline value at every time outside all holds |
| `EventBuffer.ZeroHoldLeaks` | tools/generate_vulkan_search_shader.py:2240-2267 | A witness: in an empty list the inverted value of a hold of length zero stays |
| `InputNormalization.BuildSyntheticInputs` | tools/cuda_search_benchmark.cpp:201-279 | A zero rate returns the inputs; otherwise the result is time-sorted, has one event per time and action, keeps the last writer of every such pair and loses none, and means what the raw events mean if and only if time and action determine the value kind |
| `InputNormalization.GeneratedAre` | tools/cuda_search_benchmark.cpp:212-249 | Exactly one event is added for every interval from the first through the last time; event k is k intervals behind the first time, cast to 32 bits, and steers, accelerates or brakes in turn with the stated values |
| `InputNormalization.NormalFormMeansTheSame` | tools/cuda_search_benchmark.cpp:256-277 | Normalisation preserves every last-value lookup of every channel at every time exactly if time and action determine the value kind |
| `InputNormalization.StableSortMeansTheSame` | tools/cuda_search_benchmark.cpp:250-255 | A stable sort by time preserves every last-value lookup, whatever the kinds |
| `InputNormalization.NormalFormWriters` | tools/cuda_search_benchmark.cpp:256-277 | Normalising keeps the last writer of every (time, action) pair and loses no pair |
| `InputNormalization.NormalFormIsSorted` | tools/cuda_search_benchmark.cpp:256-277 | The normal form of a sorted list is sorted and has one event per (time, action) |
| `InputNormalization.NormalFormIdempotent` | tools/cuda_search_benchmark.cpp:256-277 | Normalising twice is normalising once |
| `InputNormalization.Normalize` | tools/cuda_search_benchmark.cpp:256-277 | The group-wise loop computes the last writer of every (time, action) pair, pairs in order of first occurrence |
| `InputNormalization.StableSort` | tools/cuda_search_benchmark.cpp:250-255 | The result is time-sorted and keeps the events of every time in their order |
| `EditTable.Table.Add` | tools/generate_vulkan_timeline_shader.py:100-107 | A different replacement at a recorded span is refused and changes nothing; anything else is recorded |
| `EditTable.AscendingChains` | tools/generate_vulkan_timeline_shader.py:359-370 | Pairwise disjoint spans in ascending order follow each other without overlap, also when an insertion point shares its start with a replacement |
| `EditTable.SpliceFromBack` | tools/generate_vulkan_timeline_shader.py:367-369 | In-place splicing from the back equals one left-to-right substitution over the original text |
| `EditTable.Table.ApplyTo` | tools/generate_vulkan_timeline_shader.py:359-370 | Filtering, sorting and splicing from the back equal one left-to-right substitution by the edits outside removed ranges |
| `UnifiedPatch.ApplyUnifiedPatch` | tools/generate_vulkan_search_shader.py:312-358 | An accepted patch yields the source with every hunk substituted: read line by line, the j-th shared or removed line of a hunk body stands in the source at the place of the hunk plus j, the j-th shared or added line stands in the target where the hunk lands plus j, and all other lines are kept in between. Whenever a target is the source substituted in this way at the lines that the headers name, the patch is accepted and yields that target. A patch is refused only if some hunk has no match behind the one before |
| `UnifiedPatch.PlacedClosest` | tools/generate_vulkan_search_shader.py:346-353 | Among all lines behind the hunk before at which its old lines stand, a hunk is placed closest to the line that its header names, and at the earlier of two that are equally close |
| `UnifiedPatch.SplicedIsSubstituted` | tools/generate_vulkan_search_shader.py:331-359 | What the accepted hunks emit is the line-by-line substitution of the patch |
| `UnifiedPatch.SubstitutedIsSpliced` | tools/generate_vulkan_search_shader.py:331-359 | Every line-by-line substitution of the patch is what hunks at those places emit |
| `UnifiedPatch.ApplyReplacement` | tools/generate_vulkan_search_shader.py:311-359 | For every source, line and new line, the one-hunk patch that removes that line and adds the new one is accepted and yields the source with the line replaced |
| `UnifiedPatch.FindNearest` | tools/generate_vulkan_search_shader.py:344-352 | The match at or behind the cursor that is nearest to the expected line, the first one on ties |
| `UnifiedPatch.CorrectNumbersDecide` | tools/generate_vulkan_search_shader.py:344-352 | With correct line numbers the nearest match is the intended place of every hunk |
| `UnifiedPatch.ApplyCorrectPatch` | tools/generate_vulkan_search_shader.py:312-358 | A patch whose old line numbers name where its hunks belong is accepted and yields the intended target, however often the context occurs elsewhere |
| `UnifiedPatch.ReverseRestores` | tools/generate_vulkan_search_shader.py:312-358 | In the target the reversed hunks fit, are correctly numbered, and emit the source |
| `UnifiedPatch.RoundTrip` | tools/generate_vulkan_search_shader.py:312-358 | Applying a correctly numbered patch and then its reversal restores the source |
| `UnifiedPatch.ReadBody` | tools/generate_vulkan_search_shader.py:331-342 | A hunk body ends at the next header or hunk mark; the old side holds its shared and removed payloads in order, the new side its shared and added ones |
| `TypeGraph.Generator.AddRecord` | tools/generate_vulkan_slang_types.py:323-343 | Registration appends records whose references are all registered, records each base, and records otherwise only dependencies on later records; whatever it appends is reached from the record by recorded dependencies and by references through records no older than it; it fails only if declarations lead to a record that is not defined |
| `TypeGraph.Generator.AddRoots` | tools/generate_vulkan_slang_types.py:345-347 | It succeeds exactly if declarations lead from no root to a record that is not defined; afterwards everything a registered record refers to is registered, every recorded dependency is a base or leads forward, and from every record the recorded dependencies lead to all that was registered while it was under way |
| `TypeGraph.Generator.TypeName` | tools/generate_vulkan_slang_types.py:240-284 | Naming a field type registers the record inside pointers, arrays and templates, keeps what was registered, and records for every newcomer only bases and later records; it fails only if declarations lead from the record that the type names to one that is not defined |
| `TypeGraph.NamesIsRecordOf` | tools/generate_vulkan_slang_types.py:269-281 | The record that a field type names is the one under its layers of pointers, arrays and templates |
| `TypeGraph.CycleIffBaseLoop` | tools/generate_vulkan_slang_types.py:323-343 | The recorded graph has a cycle if and only if some registered record is reached from a base of it by references through records registered no earlier than the base |
| `TypeGraph.ForwardIsAcyclic` | tools/generate_vulkan_slang_types.py:323-343 | In particular there is no cycle if no record is reached by declared references from its own base, so none without base classes, also between mutually pointing records |
| `TypeGraph.PointerToDerived` | tools/generate_vulkan_slang_types.py:323-343 | A witness of that condition without a recursive value: a base that holds a pointer to the record deriving from it |
| `TypeGraph.RegistrationDecides` | tools/generate_vulkan_slang_types.py:323-343 | A witness that the order of registration decides: with the same two declarations there is a loop if the base is registered first, also behind a record that leads to it, and none if the derived record is |
| `TypeGraph.UniverseIsRegistered` | tools/generate_vulkan_slang_types.py:323-343 | The names to order are exactly the registered records if and only if no registered record derives from a built-in template |
| `TypeGraph.TemplateBaseIsOrdered` | tools/generate_vulkan_slang_types.py:323-343 | A witness: a record that derives from a built-in template brings an unregistered name into the order |
| `TypeGraph.TopologicalIsAcyclic` | tools/generate_vulkan_slang_types.py:414-433 | A complete order with each name after its dependencies leaves no room for a cycle |
| `TypeGraph.Ordering.Visit` | tools/generate_vulkan_slang_types.py:419-429 | A visit that fails has met a name on its own call chain, which is a cycle of the graph |
| `TypeGraph.Ordering.OrderedRecords` | tools/generate_vulkan_slang_types.py:414-433 | The error is raised exactly if the recorded graph has a cycle; otherwise the result lists every recorded name once, after its dependencies |
| `TypeGraph.OrderRoots` | tools/generate_vulkan_slang_types.py:435-475 | Registration from the roots fails exactly if declared bases and fields lead from a root to a record that is neither defined nor a built-in template; undefined bases are passed over. Ordering then fails exactly on a cycle, which is exactly a record reached from a base of it through records registered no earlier than the base; otherwise the order is topological and lists the registered records, and no others exactly if no base is a template |
| `RecordLayout.RecordText` | tools/generate_vulkan_slang_types.py:380-412 | A record is accepted exactly if its listed fields, those of its bases first, are in order without overlap; the emitted members are then of the types of exactly these fields, one each and in that order |
| `RecordLayout.FlattenedLists` | tools/generate_vulkan_slang_types.py:364-378 | The fields of a record are listed as those of its base, as a whole and first, and then its own |
| `RecordLayout.ValidOnFields` | tools/generate_vulkan_slang_types.py:380-412 | Which records are valid, on the listed fields: each naturally aligned, behind the one before it, inside the record, valid itself and no more strictly aligned than the record |
| `RecordLayout.FieldsLandIff` | tools/generate_vulkan_slang_types.py:364-412 | Every field of the record and of its bases, and no other member, lands on its C++ offset in the listed order, and the record ends at its C++ size, if and only if the gaps are closed |
| `RecordLayout.ScalarAlignIsLargest` | tools/generate_vulkan_slang_types.py:439-439 | The scalar alignment of a type is the size of the largest scalar anywhere inside it |
| `RecordLayout.RecordAgreesIff` | tools/generate_vulkan_slang_types.py:365-412 | Every valid record is accepted, and the scalar rule puts the emitted members at the C++ offsets of the flattened fields and ends at the C++ size if and only if the bytes that the rule leaves out at the end of a field are fewer than the alignment of the next one, and none behind the last |
| `RecordLayout.RecordAgrees` | tools/generate_vulkan_slang_types.py:365-412 | In particular records agree whose field types keep their C++ size |
| `RecordLayout.ScalarSizeIsCppSize` | tools/generate_vulkan_slang_types.py:380-412 | The scalar rule gives a type its C++ size if the stated condition on the types inside holds, and for arrays, fixed arrays and optionals only then |
| `RecordLayout.ScalarSizeAtMost` | tools/generate_vulkan_slang_types.py:380-412 | No valid type needs more room under the scalar rule than in C++ |
| `RecordLayout.FixedArrayAgreesIff` | tools/generate_vulkan_slang_types.py:444-448 | The built-in fixed array has its C++ size exactly if its elements start and stride as in C++ and it needs no tail padding |
| `RecordLayout.ByteArrayDiffers` | tools/generate_vulkan_slang_types.py:444-448 | A witness: one byte in a fixed array is emitted with five bytes and takes eight in C++ |
| `RecordLayout.NextFieldDecides` | tools/generate_vulkan_slang_types.py:380-412 | A witness: behind that fixed array a four-byte field closes the gap and a byte does not |
| `RecordLayout.ScalarAlignDivides` | tools/generate_vulkan_slang_types.py:380-412 | The scalar alignment of a valid type divides its C++ alignment |
| `ShardAudit.Auditor.ParseLog` | tools/reference_evidence/audit_forevervalidator_shards.py:369-587 | The line loop logs exactly the results of the shard and records no issue exactly if the log is readable and lines, summary and exit code are in order; an issue of a kind is recorded exactly for a line, the summaries or the exit file with that defect |
| `ShardAudit.Auditor.ParseJsonResult` | tools/reference_evidence/audit_forevervalidator_shards.py:589-762 | A result file is collected exactly if its required fields are there and it can be canonicalised; an issue of a kind is recorded exactly if that field has that defect, the code being compared with the one written out for every status |
| `ShardAudit.Auditor.ParseJsonResults` | tools/reference_evidence/audit_forevervalidator_shards.py:764-776 | All result files of a shard in order: those with their required fields are collected, and no issue exactly if every one passes its checks |
| `ShardAudit.Auditor.VerifyCoverage` | tools/reference_evidence/audit_forevervalidator_shards.py:778-903 | No issue exactly if nothing refers outside the corpus, every replay passes its checks, and the shard counts agree; each kind of issue exactly for its own defect |
| `ShardAudit.Auditor.Run` | tools/reference_evidence/audit_forevervalidator_shards.py:1197-1202 | The verdict is good exactly if every check of discovery, parsing and coverage passes, and then every corpus replay is accounted for once; an issue of a kind is recorded exactly if the defect of that kind is there, with the result code that every status demands written out |
| `ShardAudit.ReplayOkMeansAccounted` | tools/reference_evidence/audit_forevervalidator_shards.py:778-891 | The coverage checks of a replay hold exactly if it has one logged result and either one error and no JSON or one JSON of the same shard and validity |
| `ShardAudit.CleanAuditAccountsForCorpus` | tools/reference_evidence/audit_forevervalidator_shards.py:1076-1131 | Without issues every corpus replay is accounted for once, the declared totals sum to the corpus size, and JSON results plus errors equal the corpus size |
| `ShardAudit.SeverityIsWorst` | tools/reference_evidence/audit_forevervalidator_shards.py:543-549 | The expected exit code is 2 exactly if some result is an error and 0 exactly if all are valid |
| `ShardAudit.Auditor.DiscoverCorpus` | tools/reference_evidence/audit_forevervalidator_shards.py:258-295 | The corpus lists every identity that is found once; no issue exactly if the root is a directory, holds a replay, and no two paths are one replay |
| `ShardAudit.Auditor.DiscoverShards` | tools/reference_evidence/audit_forevervalidator_shards.py:297-367 | No issue exactly if the root is a directory, holds a run log, and every result file of the tree is claimed by exactly one shard |
| `BranchSyntax.ReduceKeepsMeaning` | tools/generate_vulkan_timeline_shader.py:578-657 | Deciding every branch on a listed flag keeps the behaviour of a program in every environment that agrees with the table |
| `BranchFolding.HeadIs` | tools/generate_vulkan_timeline_shader.py:602-603 | The search recognises exactly the branches on one, possibly negated, name |
| `BranchFolding.PassBraced` | tools/generate_vulkan_timeline_shader.py:585-596 | Counting braces from an opening brace of a printed program finds the brace that closes it |
| `BranchFolding.RestEndIs` | tools/generate_vulkan_timeline_shader.py:612-648 | The walk along a printed chain ends where the chain ends, or in front of its first `else if constexpr` |
| `BranchRuns.FoldLeavesTail` | tools/generate_vulkan_timeline_shader.py:602-655 | A fold puts a block around what the flag selects from the links up to the first `else if constexpr`, and leaves the other links behind the block |
| `BranchRuns.FoldIsRightIff` | tools/generate_vulkan_timeline_shader.py:602-655 | A fold replaces the whole branch by a block around what the flag selects if and only if no link behind it is an `else if constexpr` |
| `BranchRuns.FoldIsProgramIff` | tools/generate_vulkan_timeline_shader.py:612-648 | The fold of a printed branch is again the text of a program under that same condition and no other; otherwise an `else` dangles |
| `BranchRuns.FoldDangles` | tools/generate_vulkan_timeline_shader.py:612-648 | A witness: folding the first branch of `if (A) {} else if constexpr (B) {}` leaves no program |
| `BranchRuns.FoldShrinks` | tools/generate_vulkan_timeline_shader.py:649-655 | Every fold of any text makes it shorter, so the loop ends |
| `BranchRuns.MatchingBrace` | tools/generate_vulkan_timeline_shader.py:585-596 | The depth loop finds the brace that the depth function finds, or none |
| `BranchRuns.FoldBooleanTemplateBranches` | tools/generate_vulkan_timeline_shader.py:578-657 | The loops compute the folding function; for any text no branch on a listed flag is left; the text of a program becomes the text of a program without listed branches that equals, up to block braces, the program with all of them decided, if every `else if constexpr` link behind a listed flag is on a flag that the table lists earlier or the branch is discarded before its flag is tried |
| `BranchRuns.FoldFirst` | tools/generate_vulkan_timeline_shader.py:600-656 | One turn folds the first flag in table order that has a head, at its leftmost one |
| `BranchRuns.FoldAllFolds` | tools/generate_vulkan_timeline_shader.py:578-657 | On the text of a program that folding handles, the function never fails and yields the text of the folded program |
| `BranchRuns.NothingLeft` | tools/generate_vulkan_timeline_shader.py:598-657 | On any text, what folding returns has no head on a listed flag |
| `BranchRuns.OrderDecides` | tools/generate_vulkan_timeline_shader.py:598-601 | A witness that the table order matters: that program is covered with B listed before A and not the other way round |
| `BranchRuns.DiscardedBodyIsHandled` | tools/generate_vulkan_timeline_shader.py:598-601 | A witness that discarded branches are exempt: the same program inside a branch that discards it and is tried before |
| `BranchRuns.RoutineDangles` | tools/generate_vulkan_timeline_shader.py:578-657 | A witness for the whole routine: with only A listed it returns `{} else if constexpr (B) {}`, which is no program |
| `BranchRuns.FoldingKeepsMeaning` | tools/generate_vulkan_timeline_shader.py:578-657 | What folding returns behaves like the original in every environment that agrees with the table |
| `CallForests.WrapTwice` | tools/generate_vulkan_search_shader.py:76-102 | Wrapping twice is wrapping once if and only if no wrapped call reads as the arguments of a bare name in front of it |
| `CallForests.WrapUnwrap` | tools/generate_vulkan_search_shader.py:270-287 | Unwrapping undoes wrapping if and only if no parenthesis of the text reads as a wrapped call, except one taken for an argument parenthesis |
| `CallForests.CalledIsSafe` | tools/generate_vulkan_search_shader.py:76-102 | Both conditions hold when the name is always followed by its arguments and nothing is wrapped yet |
| `CallForests.NameBeforeCall` | tools/generate_vulkan_search_shader.py:76-102 | `Name Name(x)` is wrapped differently the second time |
| `CallForests.StarredNameBeforeCall` | tools/generate_vulkan_search_shader.py:270-287 | `(*Name Name(x))` contains no wrapped call, and unwrapping does not undo its wrapping |
| `CallWrapping.WrapPass` | tools/generate_vulkan_search_shader.py:76-102 | The back-to-front splices on the text of a forest produce the text of the wrapped forest |
| `CallWrapping.UnwrapPass` | tools/generate_vulkan_search_shader.py:270-287 | The back-to-front splices at non-overlapping matches produce the text of the unwrapped forest, and fail exactly when that does |
| `CallInsertions.BalancedIsPrinted` | tools/generate_vulkan_search_shader.py:76-102 | Exactly the texts with balanced parentheses are texts of forests |
| `CallInsertions.PrintIsInjective` | tools/generate_vulkan_search_shader.py:76-102 | The forest of a balanced text is unique |
| `CallInsertions.WrappingInserts` | tools/generate_vulkan_search_shader.py:75-102 | On a text with balanced parentheses, wrapping writes `(*` in front of every name that a parenthesised group follows behind blanks and newlines, and `)` behind the group, unless `(*` stands directly in front or the name heads an inline definition, one with `inline` before it on its line and a brace behind the group; nothing else changes |
| `CallRewriting.WrapTextTwice` | tools/generate_vulkan_search_shader.py:76-102 | On a balanced text wrapping never fails, and wrapping the result again leaves it alone exactly under the stated condition |
| `CallRewriting.WrapTextUndone` | tools/generate_vulkan_search_shader.py:270-287 | On a balanced text wrapping and then unwrapping gives back the text exactly under the stated condition |
| `CallRewriting.CalledTextIsSafe` | tools/generate_vulkan_search_shader.py:270-287 | On a balanced text in which the name is always called and nothing is wrapped yet the two rewriters are inverse and wrapping is idempotent |
| `CallRewriting.DereferencePointerCalls` | tools/generate_vulkan_search_shader.py:76-102 | The match search and the splicing loop compute the wrapping pass on any text, or fail together with it; on a balanced text the result is the text with exactly those insertions that the calls it shows demand |
| `CallRewriting.UndereferenceProxyCalls` | tools/generate_vulkan_search_shader.py:270-287 | The match search and the splicing loop compute the unwrapping pass, or fail exactly when that does |

## Left out

- Floating-point physics, collision geometry, rounding modes, and the numbers the evaluators compute.
- Cancellation, failing physics steps, stunts scoring, and `executedTickCount`, which differs between the two forms of the search by design.
- SearchDevice.Device.PhysicsThread: cancellation, input validation and failing steps; likewise EvaluateThread, FusedIteration and FusedThread.
- SearchDevice.Device.constructor: timeline descriptors and results, and the storage addresses in the scratch.
- SearchTicks.BatchWinnerIsFlatScan: leaves out searches in which an incumbent finish time prunes candidates, since pruned slots drop samples that the flat scan sees, and scripted searches, whose merge of samples is not a first-wins scan; `SearchTicks.ScriptedWinnerIsMaximal` covers those.
- BranchRuns.FoldBooleanTemplateBranches: says nothing of programs in which a fold leaves a link dangling that a later fold around it discards, because the texts in between are not programs; for texts that are not printed programs it promises only that no listed head is left and that the text does not grow; branches without braces and conditions that contain braces are outside the grammar.
- BranchRuns.FoldOne: the two error messages of the source are one failure here.
- InputNormalization.StableSort: an insertion sort stands for the library's stable sort.
- EditTable.Table.ApplyTo: overlapping edits that are not inside a removed range are not covered; the source does not reject them.
- UnifiedPatch.ApplyUnifiedPatch: patch lines come with their role already read, so header syntax and multi-file patches are not modelled.
- TypeGraph.Generator.TypeName: the table of replacements that is looked up first, by which a type with a short name already in use is not registered; enumerations.
- TypeGraph.Generator.AddRecord: a field whose type was registered before adds no recorded dependency, so no claim is made about the order of all field types.
- RecordLayout.ScalarSizeIsCppSize: for records the condition is sufficient; a record can end at its C++ size although a field in it lands elsewhere.
- BranchFolding.SimpleHead: text without a blank between `if` or `constexpr` and the parenthesis, which the pattern of the source passes over.
- ShardAudit.Auditor.ParseLog: an exit file that cannot be read and one that holds no integer are one issue, and so are the two defects of a summary line; warnings, the diagnostics between a validate line and its result, and the resolution of replay paths are not modelled; lines come with their role already recognised.
- ShardAudit.Auditor.ParseJsonResult: the warning on a status that the auditor does not know.
- ShardAudit.Auditor.DiscoverShards: run logs are found in distinct directories, so the issue on two logs with one shard name is not modelled.
- ShardAudit.Auditor.VerifyCoverage: the extra issues on repeated replays outside the corpus, which only come with the issues on those replays.
- RejectionSampler.WordSource.UniformFromZeroThroughU32: the Mersenne Twister itself; uniformity is counted over words, not proved of the generator.
- EventBuffer.Buffer.InsertSwitchChannel: the starts and lengths that the generator draws are parameters.
- The other modifiers of event lists (deletion by rank, smoothing, canonicalisation), which would repeat the same arguments.
- The differential tools for the optimized CPU kernels, whose kernels are not part of this model.
- One-off regular-expression replacements, Clang cursor walking, hipify, and `eliminate_local_address_aliases`.
- Command lines, subprocesses, files, hashing, JSON printing, host snapshots and timing.
