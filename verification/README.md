# A verified model of the vLLM fork's hardest parts

Dafny models of the logic in this vLLM fork that is easiest to get subtly wrong, with proofs about
every input, every run or every reachable state:

* **KV-cache eviction** (`vllm/kv_evict`): choosing the blocks to evict, nulling them in the worker's
  block table, queueing them, handing them back to the scheduler's block pool, and reading the
  shortened table. The worker and the scheduler are one state machine. In the engine's order of steps
  the safety of every run from start-up is proved under one obligation, that no request which lost
  blocks is put back into the batch: no row ever names a block that is free or held by somebody else,
  and no block leaks. The worker's hook and the scheduler's reclaim loop are steps of that machine.
* **The chunked selective scan** (`vllm/_xpu_ops.py`) and the chunk table it is driven by
  (`mamba_attn.py`): chunking, overwriting inputs in place, caching intermediate states, and the order
  in which the grid is launched do not change the result, which is the closed form of the recurrence.
  From the metadata builder to the kernel, the slot of every block a prefill touches ends up with the
  state at the end of that block. However a prompt is cut into prefills, each loading the state the one
  before it left, outputs and final state are those of one run over all its tokens.
* **Graph partition signatures** (`vllm/env_override.py`): one backward pass decides what each
  partition takes, returns and frees. Every signature, and exactly when the partitions run, is given in
  terms of the graph alone, with mutated and unstored buffers.
* **The build-time report** (`tools/report_build_time_ninja.py`): the event sweep shares every moment
  equally among the running tasks, and the log reader cuts out the last build.
* **The chunked device allocator** (`csrc/cumem_allocator.cpp`, ROCm branches): chunk sizes in wrapping
  64-bit arithmetic, creating, mapping, rolling back and cycling, over a driver that may fail at any call.
* **Layer collapsing** (`vllm/model_inspection.py`), **flat log-probabilities** (`vllm/logprobs.py`),
  **output merging** (`vllm/outputs.py`), the **bad-word filter** (`vllm/logits_process.py`), the
  **anchored patcher** (`skive/patch_vllm.py`) and the **int8 quantiser** (`vllm/_xpu_ops.py`).

Floating-point numbers are exact reals, `exp` is any function with the law of exponentials where a
proof needs it, and rounding is any rounding to a nearest integer. Driver statuses, importance scores,
log lines and the decision which request is scheduled are parameters that may take any value.

Where a promised property is false of the code, the model keeps the code, a lemma shows a concrete
input, and an if-and-only-if lemma gives the exact condition:

| property | holds iff | failing input |
|---|---|---|
| compaction reads exactly the surviving tokens | the last block is kept or full (`CompactionExact`) | `NoLocalWindowCutsRead` |
| after an eviction the read is exact whatever the scores | the last block is full, nothing is to be evicted, it is a sink, or the local window covers it and the blocks allocated ahead (`WindowCoversIff`) | `BlockAheadCutsRead` |
| an unscheduled request can be put back into the batch | none of its blocks was evicted and no stale slot falls on its blocks (`UnparkSafeIff`, `UnparkInOrderIff`) | `UnparkWitness` |
| a request id can be given blocks | no stale slot falls among them (`AdmitSafeIff`, `GrowSafeIff`) | `AdmitWitness`, `GrowWitness` |
| the planned chunks cover the request | none of the three sums wraps (`PlannedCoversIff`) | `LargestSettingWraps` |
| a flat slice reads as the list slice | its step is positive, it selects one position or only empty ones (`SliceReadsIff`) | `BackwardWitness` |
| merging is associative | no index that has log-probabilities loses them on the way (`AssociativeIff`) | `AssociativeWitness` |
| the log reader keeps the longest consistent run | end times fall at the cut, or the build repeats the command before it with other times (`LongestIff`) | `ResetDropsTooMuch` |
| the kept earliest start is the earliest | no start is negative or the last one is the smallest (`EarliestIff`) | `EarliestWitness` |
| the kept latest end is the latest | some end is not negative (`LatestIff`) | `LatestWitness` |
| a child name keeps signatures apart | no colon after its first character is followed by a class name and a parenthesis on a line that closes or is the last one (`SafeNameIff`) | `RealCollision` |
| the codes fit eight bits | at most eight bits are asked for (`FitsIff`) | in the lemma itself |

The contracts of the allocator state the exact memory after every failed driver call: an error code left
over when handles are created leaves the first handle behind, and a failed access call leaves everything
mapped (`CreateAndMap`, `Malloc`).

`Arith`, `Seqs`, `AnyOrder`, `Sorting`, `Text`, `BlockTable`, `Wrappers` and `Liveness` hold what several
models share.

## Model

| member | source | states |
|---|---|---|
| `Selection.RealPositions` | vllm/kv_evict/integration.py:708-774 | exactly the real slots of a row, strictly increasing |
| `Selection.PlanEviction` | vllm/kv_evict/selection.py:21-54 | within budget nothing is planned; above it the candidates are exactly the real slots between sinks and local window, in order, and the number to evict reaches the budget or takes them all |
| `Selection.StableSortOrders` | vllm/kv_evict/selection.py:57-71 | the sorted candidates are ordered by score, ties by index |
| `Selection.ChoiceIsLowest` | vllm/kv_evict/selection.py:57-71 | the choice is the front of every arrangement of the candidates by (score, index): no unchosen one precedes a chosen one |
| `Selection.ChosenAreCandidates` | vllm/kv_evict/selection.py:21-71 | chosen slots are outside sinks and local window, each once |
| `Selection.EvictedDistinctReal` | vllm/kv_evict/integration.py:708-774 | evicted positions are distinct positions of real blocks |
| `Selection.EvictionReachesBudget` | vllm/kv_evict/integration.py:708-774 | the number of blocks left is the budget, or the protected blocks when those are more |
| `Selection.ProtectedSurvive` | vllm/kv_evict/selection.py:21-54 | sinks and the local window keep their blocks |
| `Selection.LowestEvicted` | vllm/kv_evict/selection.py:21-71 | a candidate of strictly lowest score goes whenever anything is to be evicted |
| `Selection.GoesIff` | vllm/kv_evict/selection.py:21-71 | a real block goes iff it lies between sinks and local window and fewer blocks of that stretch precede it by (score, index) than the row is over budget |
| `Selection.AlwaysSurvivesIff` | vllm/kv_evict/selection.py:21-71 | a block survives whatever the scores iff nothing is to be evicted or it is a sink or in the local window |
| `Selection.EvictionSettles` | vllm/kv_evict/integration.py:708-774 | evicting again at once changes nothing, whatever the new scores |
| `Selection.NullSlots` | vllm/kv_evict/integration.py:708-774 | in place: exactly the reported slots become null, the padding is untouched |
| `Selection.EvictRow` | vllm/kv_evict/integration.py:708-774 | in place: the row becomes the specified eviction of the old row and the evicted slots are reported |
| `Compaction.SortIsPartition` | vllm/kv_evict/compaction.py:85-88 | the stable argsort by the retained key lists the retained columns in order, then the others in order |
| `Compaction.CompactIsFilter` | vllm/kv_evict/compaction.py:79-101 | the gathered row is a filter: retained ids first in order, nulls behind |
| `Compaction.GatherAt` | vllm/kv_evict/compaction.py:63-65 | token i of a read is slot i mod block size of the block at i div block size |
| `Compaction.ReadOfRetained` | vllm/kv_evict/compaction.py:79-101 | reading the retained blocks over the shortened length gives the original read without the evicted blocks |
| `Compaction.CompactionExact` | vllm/kv_evict/compaction.py:79-101 | compaction names exactly the surviving tokens in order iff the last block was kept or is full |
| `Compaction.CompactIdentity` | vllm/kv_evict/compaction.py:39-101 | a row comes back unchanged iff nothing inside its length was evicted and its padding is null |
| `Compaction.DecodeReadsLive` | vllm/kv_evict/compaction.py:103-157 | a decode reads exactly the live tokens; any other query, and a row nothing was evicted from, keeps its row and length |
| `Compaction.EvictThenReadExact` | vllm/kv_evict/compaction.py:103-157 | after every history of growth, with blocks ahead of the tokens or not, and eviction whose local windows cover the block of the last token and those ahead, the read is exact |
| `Compaction.WindowCoversIff` | vllm/kv_evict/compaction.py:103-157 | that condition is exact: the read after one eviction is exact for all scores iff the last block is full, nothing is to be evicted, it is a sink, or the window covers it and the blocks ahead |
| `Compaction.NoLocalWindowCutsRead` | vllm/kv_evict/compaction.py:103-157 | without a local window a read can be cut short (two blocks, three tokens) |
| `Compaction.BlockAheadCutsRead` | vllm/kv_evict/compaction.py:103-157 | so it can with a window of one block and one block allocated ahead |
| `EvictionSteps.RowConserves` | vllm/kv_evict/integration.py:777-913 | what leaves a row is queued, block by block |
| `EvictionSteps.WithinBudgetUntouched` | vllm/kv_evict/integration.py:777-913 | a row within budget loses nothing |
| `EvictionSteps.BatchConserves` | vllm/kv_evict/integration.py:777-913 | over a whole batch, blocks left plus blocks queued is the number before |
| `EvictionSteps.Worker.MaxExcess` | vllm/kv_evict/integration.py:777-913 | the largest excess over the budget among the listed rows |
| `EvictionSteps.Worker.EvictOne` | vllm/kv_evict/integration.py:777-913 | one row: evicted as specified, its slots queued and counted in total and for its request |
| `EvictionSteps.Worker.EvictOver` | vllm/kv_evict/integration.py:777-913 | all listed rows: rows, queue, counter and per-request counts are those of the specification |
| `EvictionSteps.Worker.PostStep` | vllm/kv_evict/integration.py:777-913 | on a multiple of the period, or with a row a margin over, every row of the batch ends at its retained count; otherwise rows and queue are as before; steps, evictions and the evictions of every request are counted |
| `EvictionSteps.SteppedRow` | vllm/kv_evict/integration.py:777-913 | unless the hook defers, every row is evicted on its own terms; `HookSettles` says when it defers |
| `EvictionSteps.HookSettles` | vllm/kv_evict/integration.py:777-913 | on every multiple of the period and whenever a row is a margin over, the hook brings every row to its retained count; on all other steps it changes nothing |
| `EvictionSteps.PeriodSettles` | vllm/kv_evict/integration.py:777-913 | whatever happens in between, one of any period of calls in a row settles the batch it finds |
| `EvictionSteps.HookQueues` | vllm/kv_evict/integration.py:777-913 | a slot is queued iff its block left its row, under its request and the group of the batch |
| `EvictionSteps.CountForIs` | vllm/kv_evict/integration.py:869-883 | a request's count is the number of queued slots that name it |
| `EvictionSteps.SteppedConserves` | vllm/kv_evict/integration.py:777-913 | the hook moves blocks from rows to queue and loses none |
| `EvictionSteps.SteppedBound` | vllm/kv_evict/integration.py:777-913 | however often eviction was deferred, a row ends within the margin of the budget or at its protected blocks |
| `EvictionSteps.Worker.FarOver` | vllm/kv_evict/integration.py:832-837 | with a row over budget, the excess test decides whether some row is a margin over |
| `EvictionSteps.Worker.Queue` | vllm/kv_evict/integration.py:869-883 | one request's evicted slots: nulled, queued and counted |
| `EvictionSteps.HookRun` | vllm/kv_evict/integration.py:869-883 | the hook's loop over the rows is a run of enabled eviction steps of the protocol |
| `EvictionSteps.SteppedIsRun` | vllm/kv_evict/integration.py:777-913 | whatever the hook does to a batch is what a run of enabled eviction steps does to the protocol state: same rows, same queue, nothing else touched |
| `EvictionSteps.KVCacheManager.FreeBlock` | vllm/v1/core/block_pool.py:419-441 | one reference less; the block joins the free queue at zero |
| `EvictionSteps.KVCacheManager.Reclaim` | vllm/kv_evict/integration.py:947-987 | exactly the queued slots of known requests become null in the tables, freeing them is the protocol's drain, and the free queue grows by the returned number |
| `EvictionSteps.ReclaimIs` | vllm/kv_evict/integration.py:947-987 | a drain nulls exactly the entries some queued item names |
| `EvictionProtocol.GiveKeeps` | vllm/v1/core/block_pool.py:333-363 | allocating blocks to a request keeps the invariant |
| `EvictionProtocol.ReleaseKeeps` | vllm/v1/core/single_type_kv_cache_manager.py:363-379 | freeing a request keeps the invariant |
| `EvictionProtocol.EvictKeeps` | vllm/kv_evict/integration.py:708-774 | an eviction by the worker keeps the invariant |
| `EvictionProtocol.ReclaimOneKeeps` | vllm/kv_evict/integration.py:947-987 | freeing one queued slot keeps the invariant |
| `EvictionProtocol.DrainKeeps` | vllm/v1/engine/core.py:472-490 | draining the queue keeps the invariant and empties it |
| `EvictionProtocol.DrainIs` | vllm/kv_evict/integration.py:947-987 | a drain nulls exactly the waiting slots of a table |
| `EvictionProtocol.StepKeeps` | vllm/kv_evict/integration.py:708-987 | every enabled, guarded step keeps the invariant |
| `EvictionProtocol.InitialIsSound` | vllm/v1/core/block_pool.py:333-363 | the empty system satisfies the invariant |
| `EvictionProtocol.RunIsSafe` | vllm/kv_evict/integration.py:708-987 | at the end of every guarded run a worker row names only the block the scheduler holds there, never a free one, no two rows share one, and every block is free or held |
| `EvictionProtocol.ReclaimSynchronises` | vllm/kv_evict/integration.py:947-987 | after a reclaim the worker's rows equal the scheduler's tables |
| `EvictionProtocol.UnparkSafeIff` | vllm/v1/worker/gpu_model_runner.py:1368-1401 | re-adding a request from its cached block list is safe iff none of its blocks was ever evicted and no stale slot falls on a block it holds or gets |
| `EvictionProtocol.AdmitSafeIff` | vllm/kv_evict/integration.py:947-987 | giving blocks to a request id is safe iff no queued slot of an earlier life falls among them |
| `EvictionProtocol.GrowSafeIff` | vllm/kv_evict/integration.py:947-987 | giving a running request more blocks is safe iff no queued slot of an earlier life falls among them |
| `EvictionEffects.AdmitEffect` | vllm/v1/core/block_pool.py:333-363 | an admitted request gets the front of the free queue as its table, cached list and row, and nobody else's tables change |
| `EvictionEffects.GrowEffect` | vllm/v1/core/block_pool.py:333-363 | a growing request keeps its tables and row and gets the front of the free queue behind them |
| `EvictionEffects.UnparkEffect` | vllm/v1/worker/gpu_model_runner.py:1368-1401 | a request put back gets its row from its cached list, with the new blocks behind it |
| `EvictionEffects.ReleaseEffect` | vllm/v1/core/single_type_kv_cache_manager.py:363-379 | a released request's real blocks, and only those, join the end of the free queue, the last of its table first; its tables are gone |
| `EvictionEffects.EvictEffect` | vllm/kv_evict/integration.py:708-774 | an eviction nulls exactly the listed entries of the worker's row and queues them in that order |
| `EvictionEffects.ParkEffect` | vllm/v1/worker/gpu_model_runner.py:1368-1401 | leaving the batch drops the row and nothing else |
| `EvictionEffects.ReclaimEffect` | vllm/kv_evict/integration.py:947-987 | a reclaim nulls exactly the waiting slots in the scheduler's tables, empties the queue and leaves the worker alone |
| `EvictionProtocol.EvictionStrandsCache` | vllm/v1/worker/gpu_input_batch.py:378-378 | after one evicted and reclaimed block the cached list differs from the scheduler's |
| `EvictionRuns.TrackStep` | vllm/v1/engine/core.py:443-490 | in the engine's order every enabled step is guarded, unless it puts a request back that lost blocks |
| `EvictionRuns.ReclaimTracks` | vllm/v1/engine/core.py:472-490 | a reclaim keeps apart the requests that lost blocks and those that did not |
| `EvictionRuns.EngineRunIsSafe` | vllm/v1/engine/core.py:443-490 | from start-up every run in the engine's order that never puts back a request which lost blocks is safe |
| `EvictionRuns.UnparkInOrderIff` | vllm/v1/worker/gpu_model_runner.py:1368-1401 | in the engine's order putting a request back is safe iff it lost no block |
| `EvictionRuns.UnparkWitness` | vllm/v1/worker/gpu_model_runner.py:1368-1401 | one block, evicted and reclaimed, request parked: putting it back names a block it no longer owns |
| `EvictionRuns.AdmitWitness` | vllm/kv_evict/integration.py:947-987 | a request id released and admitted again before the reclaim loses its new block |
| `EvictionRuns.GrowWitness` | vllm/kv_evict/integration.py:947-987 | the same with a block handed out after the second admission |
| `SelectiveScan.ScanSplit` | vllm/_xpu_ops.py:611-677 | cutting a sequence anywhere, state and outputs continue from the state at the cut |
| `SelectiveScan.OutsAt` | vllm/_xpu_ops.py:658-667 | output i is computed from the state after exactly i + 1 tokens |
| `SelectiveScan.ScanToken` | vllm/_xpu_ops.py:623-682 | one token in place: new state, and the outputs over delta and z |
| `SelectiveScan.ScanChunk` | vllm/_xpu_ops.py:613-677 | a chunk extends the scanned part of the buffers and the state to its end |
| `SelectiveScan.RunChunk` | vllm/_xpu_ops.py:613-703 | a chunk also stores the state to its own slot |
| `SelectiveScan.ScanInstance` | vllm/_xpu_ops.py:542-714 | in place and for all chunk sizes: the outputs of one unbroken run, and every chunk's state in its slot |
| `SelectiveScan.ChunkSchedule` | vllm/_xpu_ops.py:589-709 | the loop's running position selects the specified store slot of every chunk |
| `SelectiveScan.StoreIndexExact` | vllm/_xpu_ops.py:679-703 | chunk c stores to block first + c and ends exactly where that block ends |
| `SelectiveScan.StoredStateExact` | vllm/_xpu_ops.py:679-703 | a stored slot holds the recurrence over exactly the tokens up to its chunk's end |
| `SelectiveScan.ResumeExact` | vllm/_xpu_ops.py:542-714 | a run resumed from any stored slot gives the outputs and final state of the uninterrupted run, for any schedule with distinct slots |
| `ScanResume.LastBlock` | vllm/v1/attention/backends/mamba_attn.py:344-360 | the last scheduled block of a request is the first one plus its number of chunks less one |
| `ScanResume.StoreIndexAll` | vllm/_xpu_ops.py:679-703 | every chunk, the last included, stores to its own block in order |
| `ScanResume.StoreSlotsDistinct` | vllm/_xpu_ops.py:679-703 | on a built table all store slots are pairwise distinct when the row repeats none in the prefill's own columns; null blocks before and padding behind them do not matter |
| `ScanResume.ChunkReachesBoundary` | vllm/_xpu_ops.py:589-703 | the chunks up to c cover exactly the tokens up to the end of block c, or all of them |
| `ScanResume.PrefillStores` | vllm/_xpu_ops.py:542-714 | after a run driven by a built table the slot of each block holds the recurrence up to the end of that block, and resuming from it is exact |
| `ScanResume.PrefillFrame` | vllm/_xpu_ops.py:542-714 | slots outside the prefill's own columns keep their states |
| `ScanResume.Schedule` | vllm/v1/attention/backends/mamba_attn.py:227-366 | from the batch's token counts to the chunk sizes and store slots of one request |
| `ScanResume.Launched` | vllm/_xpu_ops.py:494-557 | the instance a prefill launches: chunk sizes and store slots from the built table, the load slot from the column of the last computed token |
| `ScanResume.Prefill` | vllm/_xpu_ops.py:542-714 | metadata, schedule and kernel in place, end to end: nothing happens when the load column names the null block; otherwise every block's state is saved at its end and can be resumed from |
| `ScanResume.LastSlot` | vllm/v1/attention/backends/mamba_attn.py:343-358 | the column the next prefill loads from is the last one stored to, and holds the state after all tokens |
| `ScanResume.StartsThere` | vllm/_xpu_ops.py:494-557 | a following prefill starts from the state after all tokens of the one before |
| `ScanResume.PrefillsAreOne` | vllm/_xpu_ops.py:494-714 | any number of prefills of one prompt give the outputs and the final state of one run over all its tokens |
| `ScanResume.PrefillsSave` | vllm/_xpu_ops.py:494-714 | and the slot of the last block ends up with the state of that run |
| `ScanKernel.FoldIsLane` | vllm/_xpu_ops.py:631-659 | each state element evolves by its own scalar recurrence |
| `ScanKernel.LaneIsClosedForm` | vllm/_xpu_ops.py:641-659 | the scalar recurrence is the decayed start plus every input decayed by the steps after it |
| `ScanKernel.ScanIsClosedForm` | vllm/_xpu_ops.py:623-677 | the kernel's state after any sequence is that closed form over the pulses it computes, for every element |
| `ScanKernel.StateIsClosedForm` | vllm/_xpu_ops.py:623-659 | the same with the step (bias added, softplus where asked for) and the input (step times u times B) written out |
| `ScanKernel.OneToken` | vllm/_xpu_ops.py:623-659 | one token: an element decays by exp(step times A) and gains step times u times B |
| `ScanKernel.OutputOfZero` | vllm/_xpu_ops.py:661-664 | where C is zero the output is D times u, or zero without D |
| `ScanKernel.OutputOfUnit` | vllm/_xpu_ops.py:661-664 | where C picks element i the output is the closed form of that element over the tokens so far, plus D times u |
| `ScanKernel.OutputLinear` | vllm/_xpu_ops.py:661-664 | apart from D times u the output is linear in C; with the two rows above this fixes it for every C |
| `ScanKernel.GateExact` | vllm/_xpu_ops.py:669-675 | the gated output times 1 + exp(-z) is the output times z |
| `ScanGrid.RunKernel` | vllm/_xpu_ops.py:494-714 | one program instance changes memory as specified, and nothing on a null slot |
| `ScanGrid.NullSlotIdle` | vllm/_xpu_ops.py:508-557 | an instance on the null block changes nothing; on any other its last slot gets the state over all its tokens, from its own slot where there is an initial state and from zero where there is none |
| `ScanGrid.RunsCommute` | vllm/_xpu_ops.py:559-587 | two instances with disjoint rows and slots commute |
| `ScanGrid.LaunchOrderIrrelevant` | vllm/_xpu_ops.py:900-902 | every launch order of a grid of disjoint instances leaves the same memory |
| `ScanGrid.RowsApart` | vllm/_xpu_ops.py:559-587 | the addressed rows of different (batch, dim) pairs do not overlap, in the packed and in the dense layout |
| `ScanGrid.RowsTile` | vllm/_xpu_ops.py:559-587 | packed sequences lie one behind the other in the line of their dimension; dense rows begin one stride after each other |
| `ScanGrid.LaidOutIsGridOk` | vllm/_xpu_ops.py:559-587 | instances placed by the layout form a grid of disjoint instances when no sequence stores to a slot another one uses; loading a shared slot is fine |
| `ChunkMetadata.AppendWhole` | vllm/v1/attention/backends/mamba_attn.py:227-287 | appends the block-sized chunks of the remaining tokens to the table |
| `ChunkMetadata.AppendRequest` | vllm/v1/attention/backends/mamba_attn.py:227-287 | appends one request's chunks to the table |
| `ChunkMetadata.ComputeChunkMetadata` | vllm/v1/attention/backends/mamba_attn.py:227-287 | the table lists the start of every chunk and the total, the request of every chunk, and each request's last chunk |
| `ChunkMetadata.OwnerAt` | vllm/v1/attention/backends/mamba_attn.py:227-287 | a chunk is listed under the one request it belongs to |
| `ChunkMetadata.WholeBoundary` | vllm/v1/attention/backends/mamba_attn.py:227-287 | every chunk but the last ends on a block boundary |
| `ChunkMetadata.LensAreBlockChunks` | vllm/v1/attention/backends/mamba_attn.py:227-287 | the first chunk ends the current block and the middle ones are whole blocks |
| `ChunkMetadata.BuiltTable` | vllm/v1/attention/backends/mamba_attn.py:227-287 | read between those bounds, the table lists exactly that request's chunks |
| `ChunkMetadata.BuiltBounds` | vllm/_xpu_ops.py:591-605 | the kernel reads from one after the previous request's last chunk to the request's own last chunk |
| `ChunkMetadata.KernelPositionsExact` | vllm/_xpu_ops.py:589-703 | on the built table the kernel's position counter is the token's absolute position and chunk c goes to its own block |
| `Quantizer.ErrorWithinHalfScale` | vllm/_xpu_ops.py:724-752 | dequantising gives each value back to within half the scale, in both modes, for any nearest rounding |
| `Quantizer.SymmetricScaleExact` | vllm/_xpu_ops.py:736-740 | the symmetric scale is the least one, not below 0.00001, that brings every magnitude within the largest code |
| `Quantizer.AsymmetricScaleExact` | vllm/_xpu_ops.py:741-744 | the asymmetric scale is the least one, not below 0.00001, that brings every difference within the code range |
| `Quantizer.SymmetricNeverClamps` | vllm/_xpu_ops.py:736-749 | in symmetric mode the clamp never acts |
| `Quantizer.AsymmetricClampsByOne` | vllm/_xpu_ops.py:741-749 | in asymmetric mode the clamp moves a value by at most one |
| `Quantizer.QuantizeMonotone` | vllm/_xpu_ops.py:745-749 | quantisation keeps the order of a row |
| `Quantizer.SymmetricUsesRange` | vllm/_xpu_ops.py:736-749 | unless the scale is at its floor, a value of largest magnitude gets a largest code |
| `Quantizer.AsymmetricUsesRange` | vllm/_xpu_ops.py:741-749 | unless the scale is at its floor, the row reaches both ends of the code range to within one |
| `Quantizer.FitsIff` | vllm/_xpu_ops.py:732-749 | all codes fit the eight-bit type iff at most eight bits are used |
| `Quantizer.RowMax` | vllm/_xpu_ops.py:735-735 | the largest value of the row, and one of its values |
| `Quantizer.RowMin` | vllm/_xpu_ops.py:734-734 | the smallest value of the row, and one of its values |
| `PartitionSignature.UnionNames` | vllm/env_override.py:238-270 | the union of outputs, accesses and last uses over the nodes of a partition; `UnionsAre` says what is in each |
| `PartitionSignature.UnionsAre` | vllm/env_override.py:238-270 | a name is in a union iff some node of the partition outputs it, loads or stores it, or uses it last |
| `PartitionSignature.InputsIff` | vllm/env_override.py:238-280 | a partition takes a name iff a node loads or stores it and none outputs it, it is the real name of such a name, or it is freed there without being output |
| `PartitionSignature.Turn` | vllm/env_override.py:235-334 | one partition: its signature and the names unmet before it |
| `PartitionSignature.TurnAt` | vllm/env_override.py:235-334 | the turn of partition k extends the pass by its signature and says whether every returned name has a node |
| `PartitionSignature.GetSignatures` | vllm/env_override.py:210-336 | all signatures in order, each as `SignatureIff` gives it, or the lookup failure, exactly when `LookupsIff` says |
| `PartitionSignature.ReturnedIff` | vllm/env_override.py:238-312 | a partition returns a name iff it is a real name that is produced or mutated and unmet, or an input that is not freed |
| `PartitionSignature.UnmetIsLive` | vllm/env_override.py:332-334 | the names carried by the pass are exactly those some later partition, or the graph, takes before anybody makes them |
| `PartitionSignature.SignatureIff` | vllm/env_override.py:238-330 | inputs, freed inputs, outputs and constants of every signature, name by name, and its cudagraph flag, in terms of the nodes of the graph alone |
| `PartitionSignature.LookupsIff` | vllm/env_override.py:309-313 | the pass fails iff some partition has to return a name without a node |
| `PartitionSignature.NeedIsLive` | vllm/env_override.py:210-336 | what a run with these signatures needs before a partition is exactly what is live there in the graph |
| `PartitionSignature.NeverHanded` | vllm/env_override.py:268-312 | a second name, or a name without storage, is live as long as somebody takes it |
| `PartitionSignature.RunsCleanIff` | vllm/env_override.py:210-336 | with the signatures of the pass every partition finds its inputs and every graph output survives iff everything live in the graph at the beginning is given and no partition frees what is live after it, unless it makes it again |
| `PartitionSignature.WellScheduledRuns` | vllm/env_override.py:210-336 | so it does when what is taken is given or made earlier and what is freed is not taken later |
| `PartitionSignature.OutputReturned` | vllm/env_override.py:238-312 | the last partition that makes a graph output returns it |
| `PartitionSignature.NothingDeadReturned` | vllm/env_override.py:238-312 | a name that is not an input is returned only if it is produced and live, or mutated under a name wanted later |
| `PartitionSignature.InputFate` | vllm/env_override.py:268-312 | what a partition takes is gone after it if freed there and not made again, and handed on otherwise |
| `NinjaSweep.StretchIsUniform` | tools/report_build_time_ninja.py:198-256 | strictly between two neighbouring events the set of running tasks does not change |
| `NinjaSweep.ActiveIsRunning` | tools/report_build_time_ninja.py:229-254 | over a stretch of positive length the running table holds exactly the tasks that cover it |
| `NinjaSweep.StopFinds` | tools/report_build_time_ninja.py:248-254 | a stop finds its task running, zero-length tasks included, unless the task ends before it starts |
| `NinjaSweep.RunTracks` | tools/report_build_time_ninja.py:238-255 | after any number of events the tables agree with the reference shares |
| `NinjaSweep.SharesAreBusy` | tools/report_build_time_ninja.py:241-244 | the shares of all tasks add up to the time with at least one running task |
| `NinjaSweep.SweepIsExact` | tools/report_build_time_ninja.py:207-256 | the sweep fails iff some task ends before it starts; otherwise nothing is left running, every weight is the task's share, and the total is the busy time |
| `NinjaSweep.ArrangementIrrelevant` | tools/report_build_time_ninja.py:223-228 | no result depends on how events with equal keys are ordered |
| `NinjaSweep.WeightWithinDuration` | tools/report_build_time_ninja.py:74-89 | every weight is between zero and the task's own duration |
| `NinjaSweep.BusyBounds` | tools/report_build_time_ninja.py:207-256 | busy time is at most elapsed time, with equality iff there is no idle stretch |
| `NinjaSweep.TotalAgainstLength` | tools/report_build_time_ninja.py:207-256 | with the kept bounds right, the weights sum to latest minus earliest iff the build was never idle, and never to more |
| `NinjaSweep.EarliestIff` | tools/report_build_time_ninja.py:209-214 | the kept value is the earliest start iff no start is negative or the last one is the smallest |
| `NinjaSweep.EarliestWitness` | tools/report_build_time_ninja.py:209-214 | starts at -2 and -1: the later one is kept |
| `NinjaSweep.LatestIff` | tools/report_build_time_ninja.py:210-216 | the kept value is the latest end iff some end is not negative |
| `NinjaSweep.LatestWitness` | tools/report_build_time_ninja.py:210-216 | one task ending at -1: zero is kept |
| `NinjaSweep.LengthIsSpan` | tools/report_build_time_ninja.py:207-216 | the sweep runs from the kept earliest to the kept latest time iff both are right |
| `NinjaSweep.SortedIsScheduled` | tools/report_build_time_ninja.py:218-228 | the stable sort arranges all start and stop events by time, starts first |
| `NinjaSweep.OnEvent` | tools/report_build_time_ninja.py:238-255 | one turn of the loop on the running table, the clocks and the task's weight |
| `NinjaSweep.Sweep` | tools/report_build_time_ninja.py:230-256 | the loop writes every task's share into it and returns the busy time, for any arrangement of the events |
| `NinjaSweep.SweepSorted` | tools/report_build_time_ninja.py:227-256 | sorting the collected events and sweeping over them gives the busy time and all shares |
| `NinjaSweep.CollectEvents` | tools/report_build_time_ninja.py:207-219 | bounds, processor time and event list of all entries |
| `NinjaSweep.CpuIsLoad` | tools/report_build_time_ninja.py:207-217 | the processor time is the sum over all stretches of their length times the number of tasks running in them |
| `NinjaSweep.SummarizeEntries` | tools/report_build_time_ninja.py:198-256 | fails iff there are no entries or one ends before it starts; otherwise length, processor time, total and all weights |
| `NinjaLog.GroupIsExact` | tools/report_build_time_ninja.py:133-148 | grouping keeps every command once, in order of first appearance, with exactly its names in order |
| `NinjaLog.NamesCount` | tools/report_build_time_ninja.py:133-148 | a command has one name for each of its records |
| `NinjaLog.NameAt` | tools/report_build_time_ninja.py:133-148 | the name of a record stands at the place that counts the earlier records of its command |
| `NinjaLog.HashesOrdered` | tools/report_build_time_ninja.py:133-148 | the commands stand in the order of their first records |
| `NinjaLog.GroupKeepsFirst` | tools/report_build_time_ninja.py:133-148 | consistent or not, an entry has the times of the first record of its command |
| `NinjaLog.GroupKeepsTimes` | tools/report_build_time_ninja.py:133-148 | in a consistent run every entry has the times of all its records |
| `NinjaLog.CutIsConsistent` | tools/report_build_time_ninja.py:124-143 | the build being read is consistent, and its first record did not fit what came before |
| `NinjaLog.ConflictIff` | tools/report_build_time_ninja.py:124-143 | the reader's comparisons decide exactly whether a record conflicts with the build |
| `NinjaLog.LastBuildRead` | tools/report_build_time_ninja.py:112-148 | the result is the grouping of one block of records reaching the end of the log, with rising end times and one pair of times per command |
| `NinjaLog.LongestIff` | tools/report_build_time_ninja.py:124-143 | that block is the longest consistent one iff it is the whole log, end times fall at the cut, or a record of it repeats the command before the cut with other times |
| `NinjaLog.FallingEndCutsLongest` | tools/report_build_time_ninja.py:124-132 | a reset because end times fall always leaves the longest consistent run |
| `NinjaLog.ResetDropsTooMuch` | tools/report_build_time_ninja.py:124-143 | three records where the reset drops one that still fits |
| `NinjaLog.OnRecord` | tools/report_build_time_ninja.py:122-147 | one record: reset when it conflicts, then add it |
| `NinjaLog.ReadTargets` | tools/report_build_time_ninja.py:104-148 | the last build or all builds, a failure on a wrong header or number, broken lines skipped |
| `ChunkPlan.BaseChunkExact` | csrc/cumem_allocator.cpp:24-42 | a usable setting is kept exactly in bytes, anything else gives 256 MB |
| `ChunkPlan.AlignUpExact` | csrc/cumem_allocator.cpp:319-319 | rounding up is exact unless the sum wraps, and then it is zero |
| `ChunkPlan.AlignUpZeroIff` | csrc/cumem_allocator.cpp:345-346 | a positive size rounds up to zero iff the sum wraps |
| `ChunkPlan.LargestSettingWraps` | csrc/cumem_allocator.cpp:344-348 | the largest accepted setting makes the chunk size zero and the count a division by zero |
| `ChunkPlan.ChunkCountExact` | csrc/cumem_allocator.cpp:347-348 | the count is the ceiling, or zero when the sum wraps |
| `ChunkPlan.PlanCovers` | csrc/cumem_allocator.cpp:354-369 | chunks are positive multiples of the granularity, no larger than a chunk, and add up to the aligned size |
| `ChunkPlan.PlanAt` | csrc/cumem_allocator.cpp:354-369 | chunk i is a whole chunk or what is left after i of them, whichever is smaller |
| `ChunkPlan.PlanChunks` | csrc/cumem_allocator.cpp:344-369 | the loop fills in exactly that list |
| `ChunkPlan.PlannedCoversIff` | csrc/cumem_allocator.cpp:319-369 | the chunks cover the request iff none of the three sums wraps |
| `CumemAllocator.Tiling` | csrc/cumem_allocator.cpp:160-179 | every byte of the range lies in a chunk |
| `CumemAllocator.NoOverlap` | csrc/cumem_allocator.cpp:160-179 | no two chunks overlap |
| `CumemAllocator.MappedAt` | csrc/cumem_allocator.cpp:160-179 | after mapping, chunk i lies at its own address with its own handle |
| `CumemAllocator.UnmapAll` | csrc/cumem_allocator.cpp:165-171 | taking the mapped chunks away again gives back the old mappings |
| `CumemAllocator.FirstErrorIs` | csrc/cumem_allocator.cpp:216-233 | the reported error is zero iff no call failed, and otherwise what the first failing call returned |
| `CumemAllocator.UnmappedIff` | csrc/cumem_allocator.cpp:216-226 | a chunk counts as unmapped iff its own call succeeded |
| `CumemAllocator.ReleasedIff` | csrc/cumem_allocator.cpp:228-233 | a handle counts as released iff its own call succeeded |
| `CumemAllocator.AddressesAre` | csrc/cumem_allocator.cpp:160-179 | the addresses of a range are the base plus the sizes of the chunks before each one |
| `CumemAllocator.Device.Check` | csrc/cumem_allocator.cpp:63-74 | an error is remembered, never cleared |
| `CumemAllocator.Device.Create` | csrc/cumem_allocator.cpp:151-151 | a new live handle of the given size, or nothing changed |
| `CumemAllocator.Device.Map` | csrc/cumem_allocator.cpp:163-163 | a live handle of exactly that size at a free address, or nothing changed |
| `CumemAllocator.Device.EnsureContext` | csrc/cumem_allocator.cpp:85-93 | the error code stays clear iff it was clear and every context call succeeded |
| `CumemAllocator.Device.ReleaseAll` | csrc/cumem_allocator.cpp:228-233 | releases live handles only, each once; exactly the handles whose call succeeded are gone, and the first error is reported |
| `CumemAllocator.Device.UnmapChunks` | csrc/cumem_allocator.cpp:216-226 | unmaps mapped chunks only, each once; exactly the chunks whose call succeeded are gone, and the first error is reported |
| `CumemAllocator.Device.CreateAll` | csrc/cumem_allocator.cpp:150-159 | one handle per chunk, or a failed call after which no handle is left; a stale error leaves the first |
| `CumemAllocator.Device.MapAll` | csrc/cumem_allocator.cpp:160-180 | the range tiled, or a failed call after which a clean rollback leaves mappings and handles as before and no rollback touches anything outside the range |
| `CumemAllocator.Device.Undo` | csrc/cumem_allocator.cpp:164-177 | exactly the mappings and handles whose call succeeded are gone; without an error all of them |
| `CumemAllocator.Device.BackRange` | csrc/cumem_allocator.cpp:150-190 | create, map, give access: exact state after each way it can end |
| `CumemAllocator.Device.CreateAndMap` | csrc/cumem_allocator.cpp:95-193 | success iff the error code ends clear; no residue after a failed creation or mapping; everything left after a failed access call; the first handle left after a stale error |
| `CumemAllocator.Device.UnmapAndRelease` | csrc/cumem_allocator.cpp:195-239 | exactly the chunks and handles whose call succeeded are gone, without an error all of them; the first error is reported |
| `CumemAllocator.Device.Sleep` | csrc/cumem_allocator.cpp:566-661 | the range is given back and no handle left iff no call failed |
| `CumemAllocator.Device.Wake` | csrc/cumem_allocator.cpp:664-729 | the range is tiled again with new handles, or a call failed and everything else is as it was |
| `CumemAllocator.Device.Reserve` | csrc/cumem_allocator.cpp:300-333 | context, granularity and reservation calls, stopping at the first error |
| `CumemAllocator.Device.SleepAndWake` | csrc/cumem_allocator.cpp:566-729 | one cycle restores the tiling with new handles, or a call failed and everything outside the range is as it was; the error code is cleared |
| `CumemAllocator.Device.Cycle` | csrc/cumem_allocator.cpp:566-729 | after any number of cycles without an error the range is tiled and no handle is left over; a failed cycle leaves everything outside the range as it was |
| `CumemAllocator.Device.Malloc` | csrc/cumem_allocator.cpp:299-427 | null iff the error code is set; an error code left by an earlier failure makes it fail without changing anything; on success, and after a failed access call, the range is tiled; after a failed creation or mapping with a clean rollback nothing is left |
| `CumemAllocator.PlannedPositive` | csrc/cumem_allocator.cpp:344-369 | every planned chunk list meets what allocation needs |
| `ModelInspection.WalkUnique` | vllm/model_inspection.py:36-41 | a preorder listing of children determines them, whatever follows it |
| `ModelInspection.ListingUnique` | vllm/model_inspection.py:36-41 | equal preorder listings belong to equal trees |
| `ModelInspection.SignatureInjective` | vllm/model_inspection.py:36-41 | with unambiguous child names, colons and line breaks included, two modules have the same signature text iff they are the same tree |
| `ModelInspection.SignatureLines` | vllm/model_inspection.py:36-41 | a signature with two levels written out: a line for each module in preorder, dotted names before the colon |
| `ModelInspection.ColonCollides` | vllm/model_inspection.py:36-41 | for every name a:b, what stands behind the colon can be read as the child's information instead |
| `ModelInspection.RealCollision` | vllm/model_inspection.py:8-41 | two modules with descriptions and names as the code meets them, with different trees and one signature |
| `ModelInspection.AmbiguousCollides` | vllm/model_inspection.py:8-41 | every ambiguous name occurs in two printable trees with one signature |
| `ModelInspection.OtherReading` | vllm/model_inspection.py:8-41 | an ambiguous name, line breaks included, before suitable details reads as one or several children with unambiguous names |
| `ModelInspection.SafeNameIff` | vllm/model_inspection.py:8-41 | a name keeps signatures apart iff no colon after its first character is followed by a class name and a parenthesis on a line that closes or is the last one |
| `ModelInspection.GroupsAreClasses` | vllm/model_inspection.py:101-107 | a group holds all copies of its representative and nothing else |
| `ModelInspection.ChildInOneGroup` | vllm/model_inspection.py:101-124 | every numbered child is in exactly one group and equals the child printed for it |
| `ModelInspection.CopiesOrdered` | vllm/model_inspection.py:101-107 | the members of a group stand in the order of the children |
| `ModelInspection.GroupChildren` | vllm/model_inspection.py:101-110 | the loop builds those groups, none empty, and puts them in the order of their first members' indices |
| `IndexRanges.ExpandRanges` | vllm/model_inspection.py:44-58 | expanding the ranges gives back the list |
| `IndexRanges.RangesMaximal` | vllm/model_inspection.py:50-56 | for distinct indices no two neighbouring ranges could be merged |
| `IndexRanges.RangeRoundTrip` | vllm/model_inspection.py:54-57 | reading one printed range gives it back, negative ends included |
| `IndexRanges.SingleHasNoDash` | vllm/model_inspection.py:54-57 | a range is printed without a dash between two ends iff it is a single index |
| `IndexRanges.FormatIndexRanges` | vllm/model_inspection.py:44-58 | the loop prints exactly the ranges of the sorted list, and fails on an empty one |
| `IndexRanges.PrintedRangesRoundTrip` | vllm/model_inspection.py:44-58 | parsing and expanding the printed text gives all the indices in rising order |
| `IndexRanges.PrintedRangesMaximal` | vllm/model_inspection.py:44-58 | distinct indices are printed as maximal ranges |
| `IndexRanges.PrintedRuns` | vllm/model_inspection.py:44-58 | two runs of three are printed as two ranges, two indices apart one by one, as the documented example has it |
| `Logprobs.AppendReads` | vllm/logprobs.py:63-72 | an appended dictionary reads back last and all others read as before |
| `Logprobs.AsDictKeys` | vllm/logprobs.py:63-72 | a dictionary has exactly the ids of its items |
| `Logprobs.AsDictLast` | vllm/logprobs.py:63-72 | an id has the entry of its last item |
| `Logprobs.ForwardSliceReads` | vllm/logprobs.py:121-133 | a slice with positive step reads as the selected positions and is a valid container again |
| `Logprobs.SliceReadsIff` | vllm/logprobs.py:121-133 | a slice reads as the list slice iff its step is positive, it selects one position, or all it selects is empty |
| `Logprobs.BackwardWitness` | vllm/logprobs.py:121-133 | two positions of one item each, read with step -1, do not read as the reversed list |
| `Logprobs.SelectedOrdered` | vllm/logprobs.py:121-133 | a slice selects valid positions, rising or falling with its step; which ones is in the next two rows |
| `Logprobs.ForwardSelects` | vllm/logprobs.py:121-133 | with a positive step exactly the positions from the lower to below the upper bound at multiples of the step, negative bounds counted from the end and both cut off at the ends |
| `Logprobs.BackwardSelects` | vllm/logprobs.py:121-133 | the mirror image for a negative step |
| `Logprobs.LastSelected` | vllm/logprobs.py:121-133 | the slice [-k:] selects the last k positions |
| `Logprobs.LastSliceReads` | vllm/v1/engine/output_processor.py:395-395 | so the slice a streamed output takes reads as the last k positions |
| `Logprobs.StepReads` | vllm/logprobs.py:63-152 | every operation does to the flat container what it does to a list of dictionaries |
| `Logprobs.RunReads` | vllm/logprobs.py:63-206 | after any run of operations, slices of slices included, the container reads back as the plain list; slices go forward or select at most one position |
| `Logprobs.FlatLogprobs.AppendPosition` | vllm/logprobs.py:63-72 | in place: one more position, reading as its dictionary |
| `Logprobs.FlatLogprobs.AppendFast` | vllm/logprobs.py:74-93 | in place: one more position, reading as the dictionary of the zipped lists, cut at the shortest |
| `Logprobs.FlatLogprobs.Extend` | vllm/logprobs.py:95-98 | in place: all positions appended in order |
| `Logprobs.DictsAt` | vllm/logprobs.py:95-98 | position i of what is appended is the dictionary of item list i |
| `Logprobs.FlatLogprobs.Get` | vllm/logprobs.py:112-120 | the dictionary at an index, negative ones from the end, or the range error |
| `Logprobs.FlatLogprobs.Slice` | vllm/logprobs.py:121-133 | a new container holding the specified slice, whose positions `ForwardSelects` and `BackwardSelects` give; fails iff the step is zero or nothing is selected |
| `Logprobs.AppendForNextPosition` | vllm/logprobs.py:175-206 | the flat container gets the dictionary the plain list would get |
| `Logprobs.RankListAt` | vllm/logprobs.py:184-190 | the sampled token has its own rank, the others count up from one, as many as were asked for |
| `OutputMerge.PerIndex` | vllm/outputs.py:151-173 | adding a list gives each index exactly its own completions, in order |
| `OutputMerge.Aggregated` | vllm/outputs.py:154-167 | an index ends with the concatenated text, tokens and log-probabilities and the last finish data |
| `OutputMerge.JoinOfTwo` | vllm/outputs.py:154-167 | the join of two, field by field: the earlier one's text, tokens and log-probabilities in front, its identity, and the later one's finish data |
| `OutputMerge.LastWins` | vllm/outputs.py:168-170 | without aggregation the last completion of an index wins |
| `OutputMerge.MergeOkIff` | vllm/outputs.py:160-162 | the assertion fails iff an index starts without log-probabilities and later gets some |
| `OutputMerge.StopsAtFirst` | vllm/outputs.py:151-173 | a failing list stops at its first failing completion, with everything before it added |
| `OutputMerge.AddKeepsDistinct` | vllm/outputs.py:151-173 | indices stay distinct and in order; new ones are appended |
| `OutputMerge.PushAll` | vllm/outputs.py:151-173 | folding c into b first and then into a equals folding one after the other, when log-probabilities pass through |
| `OutputMerge.AssociativeIff` | vllm/outputs.py:145-173 | when the left fold succeeds, the right one succeeds with the same result iff no index with log-probabilities loses them in between |
| `OutputMerge.UniformIsAssociative` | vllm/outputs.py:145-173 | with uniformly present or absent log-probabilities both folds succeed and agree |
| `OutputMerge.AssociativeWitness` | vllm/outputs.py:145-173 | log-probabilities, none, then some: one after the other succeeds, joining the last two first fails |
| `OutputMerge.RequestOutput.AddCompletion` | vllm/outputs.py:151-173 | the inner loop: the first completion with the index is replaced or joined, or has only text and tokens joined when the assertion fails; without one the completion is appended; all others stay |
| `OutputMerge.RequestOutput.Add` | vllm/outputs.py:145-173 | finished flag, transfer parameters and outputs after adding one output, also when an assertion stops it |
| `OutputMerge.RequestOutput.AddStream` | vllm/outputs.py:145-173 | any stream of outputs folded in order, up to the first failed assertion; finished iff it was or one of them is |
| `BadWords.NeverBannedIff` | vllm/logits_process.py:64-86 | a text can be produced without completing a word iff no word occurs in it as a contiguous block |
| `BadWords.MatchIff` | vllm/logits_process.py:71-82 | comparing the prefix and the last token decides whether the word is completed |
| `BadWords.NoBadWords.CheckIds` | vllm/logits_process.py:106-121 | true iff all token ids are in range |
| `BadWords.NoBadWords.InitBias` | vllm/logits_process.py:88-104 | the cached bias is minus infinity exactly at the one-token words |
| `BadWords.NoBadWords.LastTokenBias` | vllm/logits_process.py:64-86 | minus infinity exactly at the tokens that complete a longer word; fails iff a word is empty |
| `BadWords.NoBadWords.Call` | vllm/logits_process.py:56-86 | a token is masked iff it completes a bad word and otherwise keeps its logit; the two errors happen exactly for ids out of range and empty words |
| `BadWords.GenerationIsClean` | vllm/logits_process.py:56-104 | a generation that never picks a masked token contains no bad word |
| `BadWords.CleanIsPossible` | vllm/logits_process.py:56-104 | a text without bad words is never masked |
| `BadWords.Generate` | vllm/logits_process.py:52-104 | one filter object, its cache reused, accepts a text iff no bad word occurs in it |
| `Patcher.FirstIsFirst` | skive/patch_vllm.py:73-78 | no occurrence lies before the place that is replaced |
| `Patcher.CountOneIff` | skive/patch_vllm.py:73-74 | the anchor check passes iff the anchor occurs and no second occurrence lies clear of the first |
| `Patcher.EditInserts` | skive/patch_vllm.py:77-78 | replacing the anchor only inserts the new text beside it |
| `Patcher.EditShows` | skive/patch_vllm.py:70-78 | making an edit makes its own skip test true |
| `Patcher.ShownIff` | skive/patch_vllm.py:70-72 | an edit counts as made iff the text has the marker and the insertion's first line that is not blank, without the blanks around it |
| `Patcher.FirstLineExists` | skive/patch_vllm.py:70-72 | every insertion that is not all blank has such a line |
| `Patcher.AppliedOnce` | skive/patch_vllm.py:66-83 | an edit that does not show is made on every text that has the anchor once, right before it or right behind it |
| `Patcher.OtherOutcomes` | skive/patch_vllm.py:66-76 | no file iff it is missing, skipped iff the edit shows, an anchor error iff it does not show and the anchor is not there exactly once |
| `Patcher.HarmlessKeeps` | skive/patch_vllm.py:70-78 | an edit whose anchor cannot overlap a line never splits it |
| `Patcher.RunFaithful` | skive/patch_vllm.py:46-83 | in every run of edits and reverts each backup is the original file and a file without one is untouched |
| `Patcher.RestoreFaithful` | skive/patch_vllm.py:172-184 | a revert restores exactly the listed files and keeps the backups |
| `Patcher.RevertRestores` | skive/patch_vllm.py:172-184 | after any run a revert brings back every original file |
| `Patcher.UnsavedEditStays` | skive/patch_vllm.py:46-52 | with backups off a first edit cannot be reverted |
| `Patcher.PassIdleIff` | skive/patch_vllm.py:422-436 | a pass completes and changes no file iff every edit already shows |
| `Patcher.ReportIff` | skive/patch_vllm.py:431-436 | a completed pass reports no change iff every edit already showed |
| `Patcher.RepeatedPassIdle` | skive/patch_vllm.py:422-436 | repeating a completed pass changes nothing when no edit of it cut an earlier first line or the marker in two |
| `Patcher.NoSplitsSpares` | skive/patch_vllm.py:422-436 | edits whose anchors cannot overlap the marker or an earlier first line never do that, on any disk |
| `Patcher.Tree.Backup` | skive/patch_vllm.py:46-52 | the first copy is kept |
| `Patcher.Tree.ApplyEdit` | skive/patch_vllm.py:66-83 | outcome, file and backup of one edit, as `AppliedOnce` and `OtherOutcomes` give them |
| `Patcher.Tree.Revert` | skive/patch_vllm.py:172-184 | the loop restores every listed file that has a backup |
| `Patcher.Tree.RunPass` | skive/patch_vllm.py:422-436 | the edits in order, stopping at a failure, with the report whether anything changed |

## Left out

- EvictionProtocol.RunIsSafe: prefix caching is not modelled, so every held block has one owner and reference count one.
- EvictionProtocol.RunIsSafe: holds for guarded runs. The three guards have exact conditions in `UnparkSafeIff`, `AdmitSafeIff` and `GrowSafeIff`; in the order of the engine's plain step only the one on putting a request back is left (`EngineRunIsSafe`). The engine step with a batch queue may schedule before it reclaims, so for it all three remain.
- EvictionRuns.EngineRunIsSafe: that the scheduler never puts back a request which lost blocks is assumed, not derived from the scheduler.
- EvictionSteps.SteppedIsRun: a batch names each request once.
- EvictionSteps.Worker.PostStep: importance scores are parameters; computing them from keys, values and queries is not modelled.
- ScanResume.PrefillsAreOne: that nobody overwrites the last slot between two prefills is the link between them, not derived from the block pool.
- SelectiveScan.ScanInstance: the outputs overwrite their inputs as the caller passes them; separate output buffers are not modelled apart from that.
- ScanKernel.ScanIsClosedForm: exact reals; rounding to 32 bits and storage in smaller types is not modelled.
- Quantizer.ErrorWithinHalfScale: exact reals; the cast of the scale to the input type is not modelled.
- PartitionSignature.RunsCleanIff: a real name is its own real name; chains of mutated names are not modelled. The order inside the ordered sets and the symbolic inputs are not modelled either.
- NinjaSweep.SummarizeEntries: exact reals instead of floats; the printed tables by extension are not modelled.
- NinjaLog.ReadTargets: times stay integral milliseconds and lines come already split into fields.
- CumemAllocator.Device.Malloc: takes the chunk list of `ChunkPlan.PlanChunks`; the Python callbacks, host allocation failures and chunk counts beyond a 32-bit loop counter are not modelled.
- CumemAllocator.Device.Malloc: releasing the reserved address range after a failure is only a driver call here; the set of reserved ranges is not modelled.
- ModelInspection.SignatureInjective: child names are non-empty and without dots, as the framework demands; modules shared between two places are not modelled.
- ModelInspection.GroupChildren: the indentation and labels of the printed lines are not modelled; the printed ranges in them are (`IndexRanges`).
- Logprobs.RunReads: no slice with a negative step that selects two positions or more; `SliceReadsIff` says what such a slice reads.
- OutputMerge.RequestOutput.Add: completions are values, so sharing one completion object between two outputs is not modelled.
- BadWords.NoBadWords.Call: the vocabulary has the same size in every call; turning words into token ids is not modelled.
- Patcher.RepeatedPassIdle: one copy of each earlier first line and of the marker stays whole; a copy that only comes about across an insertion is not counted. `PassIdleIff` is exact for any disk.
- Patcher.Tree.ApplyEdit: the review diffs and printed messages are not modelled; stripping knows blanks, tabs and line ends.
- The CUDA branches of the allocator, the fused attention kernel, scoring and the other wrappers around foreign kernels are not modelled.
- The memory planner of `vllm/env_override.py` and its other patches are not modelled.
