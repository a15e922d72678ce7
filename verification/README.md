# Verified models of six course programs

This project models the hard parts of six C programs and proves what they are for.

- **Key-value log** (`m9/kvdb.c`; modules `Bytes`, `KvRecord`, `Framing`, `KvLog`, `KvCrash`,
  `KvPowerLoss`, `KvStore`, `KvLocks`, `KvProgress`). The database file is a byte string. A put is a list of
  effects (truncate, one append per byte, sync, one overwrite per byte of the commit word, sync)
  that a crash or a failing system call may cut anywhere. `KvStore` is the program over a file
  object; `KvCrash` proves crash atomicity over whole runs, `KvPowerLoss` what the syncs are for; `KvLocks` is the lock protocol as a
  state machine for any number of processes and threads that may die at any step, and
  `KvProgress` shows that its calls end.
- **Allocator** (`m5/mymalloc.c`; `HeapList`, `HeapRuns`, `HeapMemory`, `HeapProgram`).
  `HeapList` states the operations on the block list, `HeapRuns` proves invariants of all runs,
  `HeapMemory` is the doubly linked list in memory, proved to refine the block list, and
  `HeapProgram` puts both together for whole runs.
- **Parallel transformer** (`m6/gpt.c`, `m6/thread.h`). `Transformer` is the forward pass as a
  function of rows. `Buffers`, `Kernels`, `AttentionKernel`, `AttentionRange`, `ForwardPass`
  and `Generation` are the loops over flat float buffers, proved to compute it. `Causality`
  proves that no position depends on a later one. `ParallelFor`, `ParallelRuns`,
  `ParallelProgress` and `Threads` are about the fork-join loop, `AttentionIndex`,
  `AttentionColumns` and `KernelLocality` about which cells a kernel touches.
  `ParallelKernels`, `KernelsInParallel`, `AttentionSteps`, `AttentionParallel` and
  `AttentionDetermined` take each kernel store by store under arbitrary interleavings, and
  `Activations`, `ParallelCalls`, `ParallelForward` and `PassExists` put them together on one
  block of memory. Floats are an arbitrary type with arbitrary operations (`Floats`);
  `ExactArithmetic` says what the pass computes where they are those of the real numbers, and
  `Indexing` has the flat-index lemmas.
- **Worker pool** (`m7/httpd.c`; `HttpdPool`, `RequestQueue`, `PoolQueue`). The two condition
  variables as a step system with wait sets and spurious wakeups, the linked queue, and the
  two put together.
- **Maze** (`m1/labyrinth.c`; `MazeGrid`, `MazeSearch`, `MazeGame`). Path connectivity, the
  recursive search over a mutable grid, and load, move and save over many runs.
- **Process forest** (`m2/pstree.c`; `ForestTable`, `ForestTermination`, `ForestPrint`,
  `ForestCounts`, `ForestProgram`). Child lists from arbitrary parent pointers, sorting,
  printing.

Places where the code does not meet what one would expect of it, each with its exact condition:

- A read error during the scan of `kvdb_put` is taken for the end of the log, and the put then
  truncates committed records: `KvCrash.PutKeepsRecordsIff`, `KvCrash.ReadErrorLosesData`.
- A read error during the scan of `kvdb_get` makes it return the value found so far, an older
  one or none, without an error: `KvStore.GetIsCurrentIff`, `KvStore.ReadErrorReturnsOlderValue`.
- The two scans of the log see the same entries if and only if no good record stands on the
  walk of `kvdb_get` behind the valid prefix: `KvLog.SameEntriesIff`, per key
  `KvLog.SameAnswerIff`. Every file that runs can produce is of that kind.
- `extend_heap` returns the predecessor of a fresh chunk even if it did not merge with it:
  `HeapList.GrowthIff`, on reachable heaps `HeapRuns.MallocServesIff`, with a run that meets it,
  `HeapRuns.BadPlaceIsReached`.
- Requests above 2^64 - 4128 bytes are not refused but given a block that is too small, because
  page rounding, and in the last seven bytes already the first rounding, wraps:
  `HeapList.GrowBytesFit`, `HeapRuns.MallocRoomIff`. In the last 40 bytes the sum of
  `split_block` wraps as well: `HeapList.SplitKeepsIff`.
- Thread slots are never reused, so a run gets through if and only if the table has room for
  all the threads it ever spawns: `Threads.Pool.RunLoops`; `Threads.TableSufficesIff` turns
  this into a number of layers, 15 from one token with four workers.
- Where the head count does not divide the channels, some columns of the attention output are
  not written and show what memory held: `KernelLocality.OutOwnedIff`,
  `AttentionDetermined.DeterminedIff`.
- Printing the process forest does not terminate if and only if an ancestor-or-self of the
  entry of pid 0 names 0 as its parent: `ForestTermination.TerminatesIff`. Where it terminates,
  an entry is printed twice if and only if it is below an entry of parent 0 and below one
  without a parent: `ForestCounts.PrintedTwiceIff`.

## Model

| member | source | states |
|---|---|---|
| `Bytes.Le32RoundTrip` | m9/kvdb.c:23-31 | The four little-endian bytes of a header field decode to the field. |
| `KvRecord.Fnv1a` | m9/kvdb.c:33-40 | The loop computes the FNV-1a fold of the bytes from the given seed, modulo 2^32. |
| `KvRecord.FnvAppend` | m9/kvdb.c:33-50 | Hashing two strings in turn is hashing their concatenation. |
| `KvRecord.RecordChecksum` | m9/kvdb.c:42-50 | Chaining the hash over both lengths, key and value from the published basis gives the hash of their concatenation. |
| `KvRecord.XorBits` | m9/kvdb.c:36 | A bit of the exclusive or is set exactly if one of the two operands has it. |
| `KvRecord.FnvOfLetter` | m9/kvdb.c:33-40 | The published FNV-1a value of the letter a. |
| `KvRecord.FnvStepInjective` | m9/kvdb.c:35-38 | A step of the hash tells any two states apart, and for one state any two bytes: multiplication by the prime can be undone modulo 2^32. |
| `KvRecord.ChecksumSeesByte` | m9/kvdb.c:42-50 | Changing exactly one byte of key or value changes the checksum. |
| `KvRecord.DamageIsSeen` | m9/kvdb.c:284-286 | A good record with one byte of its magic number, commit word, checksum, key or value changed is not good. |
| `KvRecord.Layout` | m9/kvdb.c:22-29 | Where each field stands, byte by byte. |
| `KvRecord.ImageDecodes` | m9/kvdb.c:199-206 | A record as put writes it decodes to its key and value, and is valid exactly if its commit word is set. |
| `KvRecord.HeadIsLocal` | m9/kvdb.c:99-130 | All that the scans look at lies inside the record: whatever follows it changes nothing. |
| `Framing.ScanConcat` | m9/kvdb.c:93-133 | For any self-delimiting format: frames in front of anything are found again, in order, and the rest is scanned on its own. |
| `Framing.SpanIsLongest` | m9/kvdb.c:93-133 | For any self-delimiting format: the scan stops at the end of the longest prefix that is a concatenation of frames. |
| `KvLog.RecordsAreLocal` | m9/kvdb.c:87-134 | Valid committed records are such a format. |
| `KvLog.PrefixEndIsLongestLog` | m9/kvdb.c:87-134 | `valid_prefix_end` is the end of the longest prefix that is a concatenation of valid committed records, and no longer prefix is one. |
| `KvLog.PrefixKept` | m9/kvdb.c:87-134 | Truncating at the prefix end leaves the prefix and its entries unchanged; what is put behind it extends it by exactly its own valid prefix and entries. |
| `KvLog.RecordIsLog` | m9/kvdb.c:199-226 | A complete committed record is its own valid prefix and holds exactly its entry, so appending one moves the end by its length. |
| `KvLog.PartialScan` | m9/kvdb.c:100-109 | A scan that can read only part of the file finds the whole valid prefix if and only if all of it is readable. |
| `KvLog.LastValueIsLookup` | m9/kvdb.c:284-299 | Keeping the last match while reading in file order is looking the key up in the map of the entries. |
| `KvLog.GetScanIsLast` | m9/kvdb.c:254-303 | `kvdb_get` returns the last value for the key among the good records on its walk from whole record to whole record. |
| `KvLog.SameEntriesIff` | m9/kvdb.c:87-134 | For every file the two scans see the same entries if and only if no good record stands on the walk behind the valid prefix. |
| `KvLog.SameAnswerIff` | m9/kvdb.c:254-303 | For every file and key they give the same answer if and only if no good record for the key stands there, or the last one repeats the value of the prefix. |
| `KvLog.ScansAgree` | m9/kvdb.c:254-303 | On a file that is valid records and at most one torn record, which hides no good record, `kvdb_get` returns exactly the last value in the valid prefix. |
| `KvLog.CleanWhenCut` | m9/kvdb.c:258-281 | A file of valid records and at most one torn one is still of that kind however it is cut off, so that the scans agree also on what reads deliver of it. |
| `KvLog.ScansDisagreeBehindUncommitted` | m9/kvdb.c:254-303 | A committed record behind a whole uncommitted one is returned by `kvdb_get` although it lies outside the valid prefix. |
| `KvLog.UncleanMayAgree` | m9/kvdb.c:254-303 | Two whole uncommitted records are a file no run leaves, and the scans agree on it. |
| `KvCrash.EffectsReachStage` | m9/kvdb.c:212-226 | The file after any number of effects of a put, in closed form: old prefix, partial record, record with a partly written commit word, committed record. |
| `KvCrash.TailShape` | m9/kvdb.c:212-226 | Cut anywhere, also inside the commit word, the bytes behind the prefix are torn and hold no entry, or are the whole record with its one entry. |
| `KvCrash.StageShape` | m9/kvdb.c:183-230 | Whatever stood behind the valid prefix, the put leaves a clean file whose entries are the old ones and, if it landed, the new one. |
| `KvCrash.PutIsAtomic` | m9/kvdb.c:183-230 | One put, cut anywhere: no committed entry is lost, the new entry is there whole or not at all, and it is there if all effects happened. |
| `KvCrash.PutKeepsRecordsIff` | m9/kvdb.c:104-108 | Behind its truncation, whether or not it lands, a put keeps exactly the committed entries and its own contribution if and only if its scan could read the whole valid prefix. |
| `KvCrash.ReadErrorLosesData` | m9/kvdb.c:104-108 | With a read error at the head of the file a completed put of another key makes a committed key unreadable. |
| `KvCrash.RunsKeepTheLog` | m9/kvdb.c:183-230 | From an empty file, for any sequence of puts each cut anywhere, the file is clean and its log is exactly the committed entries in order. |
| `KvCrash.RunsAreReadable` | m9/kvdb.c:232-323 | After any such run `kvdb_get` sees exactly the map of the committed entries. |
| `KvCrash.CrashAtomicity` | m9/kvdb.c:183-230 | After any run one more put leaves readers with the map they had or that map with the key updated, and updated if it was accepted and all its effects happened, which is when it returns 0. |
| `KvPowerLoss.SyncedFirst` | m9/kvdb.c:212-226 | At every point of a put: nothing of it is durable before the first sync, the whole record with a zero commit word from then on, and the committed record exactly after the last sync; between the syncs only bytes of the commit word are unsynced. |
| `KvPowerLoss.PowerLossIsAtomic` | m9/kvdb.c:217-226 | A power failure after the first sync that loses any of the unsynced bytes leaves the old entries, with the new one exactly if no byte of the commit word is lost, and so always once the put has returned 0. |
| `KvStore.Store.ReadAllOrEof` | m9/kvdb.c:68-85 | For every way the system splits reads: 1 exactly if all bytes are there, which are then delivered; 0 exactly at the end of the file. |
| `KvStore.Store.WriteAll` | m9/kvdb.c:52-66 | For every way the system splits writes: the bytes that fit the budget are appended, and 0 is returned exactly if all did. |
| `KvStore.Store.ReadRecord` | m9/kvdb.c:99-123 | Reads a record exactly if a whole one stands at the offset, and then its header fields, key and value, leaving the offset behind it. |
| `KvStore.Store.ValidPrefixEnd` | m9/kvdb.c:87-134 | The loop computes the end of the longest valid log in what can be read. |
| `KvStore.Store.Transact` | m9/kvdb.c:212-226 | File and synced file are the closed forms for the number of effects that happened; 0 is returned exactly if all happened. |
| `KvStore.Store.Put` | m9/kvdb.c:183-230 | The file is that of the put cut where its effects stopped; 0 is returned if and only if the key has 1 to 65536 bytes, the value at most 16 MiB, and all effects happened, and then everything is synced. |
| `KvStore.Store.Get` | m9/kvdb.c:232-323 | -1 exactly if nothing is found or the key is out of bounds; otherwise the number of bytes stored, the lesser of the length of the value and length - 1, those bytes and a terminating zero in the buffer. |
| `KvStore.GetAfterRun` | m9/kvdb.c:232-323 | On every file that cut puts can produce, and wherever reads begin to fail, `kvdb_get` finds the last value for the key among the entries reads deliver; these are a prefix of the committed entries, and all of them if no read fails in the valid prefix. |
| `KvStore.GetIsCurrentIff` | m9/kvdb.c:258-281 | With reads failing from any byte on, `kvdb_get` finds the last committed value if and only if no entry for the key stands behind what it could read, or the last such entry repeats the last one it read. |
| `KvStore.ReadErrorReturnsOlderValue` | m9/kvdb.c:258-281 | Two puts of a key and a read error behind the first record: `kvdb_get` returns the older value. |
| `KvLocks.OneHolder` | m9/kvdb.c:136-153 | Two threads never work on the file at once. |
| `KvLocks.LocksStep` | m9/kvdb.c:136-153 | Every step, also a failing one, a read error and the death of a process, keeps locks and program places consistent. |
| `KvLocks.DataStep` | m9/kvdb.c:183-323 | Every step, also a failing one and a read error, keeps the file equal to the sequential run of the turns, with the holder's progress accounted for. |
| `KvLocks.Linearizable` | m9/kvdb.c:136-153 | In every reachable state, read errors in the scans of puts and lookups included, the file is what the calls leave when run one after the other in lock order, each with the reads it had, and every reply is the one of that run, or reports a failed system call. |
| `KvLocks.PutReplies` | m9/kvdb.c:210-229 | In every reachable state a put that replied returned 0 if and only if all its effects happened. |
| `KvLocks.NeverStuck` | m9/kvdb.c:136-153 | Whenever a call is under way, some call under way can take a step: the lock order never deadlocks. |
| `KvLocks.MutexFree` | m9/kvdb.c:136-147 | Whoever holds the process mutex finds its handle's mutex free. |
| `KvLocks.SequentialIsRun` | m9/kvdb.c:183-230 | The sequential order of any interleaving in which every put scanned to the end of the valid prefix, whether or not a read failed behind it, is one of the runs for which crash atomicity is proved. |
| `KvLocks.AnswersAreLastCommitted` | m9/kvdb.c:232-323 | If the puts before it scanned to the end of the valid prefix, a lookup that was answered got the last value committed by the turns before it, turns of dead processes included; if a read of its own failed, if and only if no entry for the key was missed or the last one missed repeats the last one read. |
| `KvProgress.StepUses` | m9/kvdb.c:136-323 | Every step of a call under way, failing, with a read error or not, uses up work, also when other calls make the file longer. |
| `KvProgress.CallsEnd` | m9/kvdb.c:136-323 | From every reachable state, with no new calls, the calls under way take a bounded number of steps, and when none can step all have returned. |
| `HeapList.RequestSizeFits` | m5/mymalloc.c:18-27 | The rounded request is a multiple of 8, at least 8, and has room for the request if and only if the sum does not wrap. |
| `HeapList.RequestSizeIsLeast` | m5/mymalloc.c:22-27 | A request is rounded to the least multiple of 8 that is at least 8 and holds it. |
| `HeapList.ChunkFitsIff` | m5/mymalloc.c:100-104 | For every rounded request the chunk obtained has room for it and a header if and only if it is at most 2^64 - 4128; above, only the minimum chunk is obtained. |
| `HeapList.GrowBytesFit` | m5/mymalloc.c:18-31 | The same for every request of 64 bits before rounding; up to the bound the chunk is whole pages. |
| `HeapList.GrowBytesIsLeast` | m5/mymalloc.c:100-104 | The chunk asked for is the least number of whole pages, at least 64 KiB, that holds the header and the request. |
| `HeapList.HugeRequestGetsSmallBlock` | m5/mymalloc.c:125-146 | A request of 2^64 - 4096 bytes on the empty heap is given a block of 65504 bytes. |
| `HeapList.FirstFit` | m5/mymalloc.c:91-98 | The result is the first free block that is large enough; none before it is. |
| `HeapList.CoalesceKeeps` | m5/mymalloc.c:61-70 | Merging keeps the list sorted and well shaped, over exactly the same bytes. |
| `HeapList.SplitKeeps` | m5/mymalloc.c:72-89 | Where its sum does not wrap, splitting keeps the list sorted and well shaped, over exactly the same bytes. |
| `HeapList.SplitKeepsIff` | m5/mymalloc.c:72-89 | For every size of 64 bits, splitting keeps the list well formed if and only if its sum does not wrap or it does nothing. |
| `HeapList.InsertKeeps` | m5/mymalloc.c:37-59 | Inserting a block over free bytes keeps the order and adds exactly its bytes. |
| `HeapList.ReleaseCoalesces` | m5/mymalloc.c:148-162 | After `myfree` no two touching blocks are both free. |
| `HeapList.TakeCoalesces` | m5/mymalloc.c:125-146 | Neither are they after an allocation from the list. |
| `HeapList.ExtendCoalesces` | m5/mymalloc.c:100-123 | Neither are they after growing by a well-placed chunk. |
| `HeapList.GrowthIff` | m5/mymalloc.c:100-123 | When nothing fits, the block `extend_heap` returns is free and large enough if and only if the chunk has no predecessor or touches a free one. |
| `HeapList.MallocThenFree` | m5/mymalloc.c:125-162 | An allocation served from the list and its free restore the list exactly, split or not. |
| `HeapRuns.StepKeeps` | m5/mymalloc.c:125-162 | Every call keeps: sorted, 8-aligned, sizes multiples of 8, exactly tiling the obtained bytes, fully coalesced, in use exactly the live allocations with room for their requests. |
| `HeapRuns.RunKeeps` | m5/mymalloc.c:125-162 | The same over every run of allocations and valid frees. |
| `HeapRuns.LivePayloadsDisjoint` | m5/mymalloc.c:125-162 | In every reachable heap live payloads are 8-aligned, inside obtained memory, and do not overlap. |
| `HeapRuns.LittleIsWasted` | m5/mymalloc.c:72-89 | In every reachable heap a block in use has room for its request and is less than 47 bytes larger than it, or than 8: what can be split off has been. |
| `HeapRuns.FreeBlocksAreMaximalRuns` | m5/mymalloc.c:61-70 | With nothing live, every block is free and is a maximal contiguous run of obtained bytes. |
| `HeapRuns.CanonicalForm` | m5/mymalloc.c:148-162 | The block list of an empty heap is determined by the bytes it covers. |
| `HeapRuns.FreeingAllIsCanonical` | m5/mymalloc.c:148-162 | Two runs that obtained the same bytes and freed everything, in any order, end with the same block list. |
| `HeapRuns.RoundTrip` | m5/mymalloc.c:125-162 | In every reachable heap an allocation without growth followed by its free restores heap and list exactly. |
| `HeapRuns.BadPlaceHandsOutLiveMemory` | m5/mymalloc.c:117-120 | If the chunk's predecessor is in use, `mymalloc` returns the address of a live allocation. |
| `HeapRuns.BadPlaceIsReached` | m5/mymalloc.c:117-120 | A run with lawful regions that meets the bad place: one request for a whole chunk, the next region right behind it, and the second request gets the address of the first. |
| `HeapRuns.MallocServesIff` | m5/mymalloc.c:100-146 | For every reachable heap, every growing request of 64 bits and every fresh region: what `mymalloc` returns is not live and has room if and only if the region lies below the list or touches a free predecessor and the request is at most 2^64 - 4128. |
| `HeapRuns.MallocRoomIff` | m5/mymalloc.c:125-146 | For every request of 64 bits on every reachable heap, served from the list or by growing in a good place, the memory handed out has room for it if and only if it is at most 2^64 - 4128. |
| `HeapMemory.LinksInverse` | m5/mymalloc.c:37-59 | In a linked list of headers prev and next are inverse, addresses ascend along next, and only the ends have null links. |
| `HeapMemory.LinkInsert` | m5/mymalloc.c:37-59 | The pointer updates of an insertion leave mutually inverse prev and next along the new list. |
| `HeapMemory.LinkMerge` | m5/mymalloc.c:61-70 | So do those of a merge. |
| `HeapMemory.LinkSplit` | m5/mymalloc.c:72-89 | So do those of a split. |
| `HeapMemory.Allocator.InsertBlock` | m5/mymalloc.c:37-59 | The walk inserts the block at its address-ordered place; memory links exactly the new list. |
| `HeapMemory.Allocator.CoalesceWithNext` | m5/mymalloc.c:61-70 | Memory refines merging on the list. |
| `HeapMemory.Allocator.SplitBlock` | m5/mymalloc.c:72-89 | Memory refines splitting on the list; the headers stay linked unless the sum wraps. |
| `HeapMemory.Allocator.FindFreeBlock` | m5/mymalloc.c:91-98 | The walk finds the first fitting block, or null. |
| `HeapMemory.Allocator.ExtendHeap` | m5/mymalloc.c:100-123 | Memory refines growing on the list, with the block it returns. |
| `HeapMemory.Allocator.Malloc` | m5/mymalloc.c:125-146 | Memory and result refine `mymalloc` on the list; the headers stay linked unless the sum of the split wraps. |
| `HeapMemory.Allocator.Free` | m5/mymalloc.c:148-162 | Memory refines `myfree` on the list; null does nothing. |
| `HeapProgram.Perform` | m5/mymalloc.c:125-162 | One call on memory that refines a reachable heap refines the next heap; what a run promises of its actions is all the code needs. A pointer handed out was not live before and is now. |
| `HeapProgram.PerformAll` | m5/mymalloc.c:125-162 | After any sequence of calls from the empty heap memory refines the heap of that run. |
| `HeapProgram.AfterEveryRun` | m5/mymalloc.c:125-162 | After every run, together: links inverse and ascending, blocks tiling the obtained bytes, live payloads aligned, large enough and disjoint. |
| `Transformer.AllInHeadsIff` | m6/gpt.c:269-274 | Every column belongs to a head if and only if the head count divides the channels. |
| `Floats.MaxIsGreatest` | m6/gpt.c:399-404 | For every strict weak order: the running maximum is no less than its start value and every element, and is one of them. |
| `Causality.AttentionAgree` | m6/gpt.c:269-326 | If two inputs agree on positions 0..p of a batch, so do the outputs of attention, also for different lengths, if what the outputs held agrees there in the columns of no head. |
| `Causality.StreamAgree` | m6/gpt.c:685-720 | The same for the residual stream after any number of layers. |
| `Causality.ForwardIsCausal` | m6/gpt.c:614-726 | For all weights, layer counts, head counts and lengths: token sequences that agree on positions 0..p get the same logits and probabilities at p, if what the attention outputs held agrees there in the columns of no head; what columns of a head held does not matter. |
| `Causality.DividedGapsAgree` | m6/gpt.c:269-326 | Where the head count divides the channels, every two memories agree in that sense. |
| `Kernels.EncoderRange` | m6/gpt.c:133-146 | The rows of the range hold the encoded tokens; all other cells are unchanged. |
| `Kernels.RowStats` | m6/gpt.c:179-192 | The loops compute mean and reciprocal deviation of a row. |
| `Kernels.LayerNormRange` | m6/gpt.c:172-202 | The rows of the range hold the normalised rows, with their means and deviations; all else is unchanged. |
| `Kernels.DotLoop` | m6/gpt.c:238-241 | The loop accumulates the products left to right from its start value. |
| `Kernels.MatmulRange` | m6/gpt.c:229-243 | The cells of the range hold the product with the transposed weights plus bias; all else is unchanged. |
| `Kernels.GeluRange` | m6/gpt.c:351-358 | The cells of the range hold the activation of the same cells of the input. |
| `Kernels.ResidualRange` | m6/gpt.c:372-377 | The cells of the range hold the sums. |
| `Kernels.SoftmaxOne` | m6/gpt.c:399-412 | Exponentials stored first and divided in place leave the softmax of the row. |
| `Kernels.SoftmaxRange` | m6/gpt.c:391-414 | The rows of the range hold the softmax rows; all else is unchanged. |
| `AttentionKernel.HeadPart` | m6/gpt.c:280-319 | The pointer arithmetic lands on the query, key or value of the unit's head. |
| `AttentionKernel.ScoreLoop` | m6/gpt.c:284-296 | The scores of positions 0..t are stored, with their maximum. |
| `AttentionKernel.ScaleLoop` | m6/gpt.c:304-312 | Scaling in place leaves the attention weights, and zero for the positions behind t. |
| `AttentionKernel.MixLoop` | m6/gpt.c:314-324 | Accumulating in place leaves the weighted sum of the visible values. |
| `AttentionKernel.AttentionUnit` | m6/gpt.c:275-325 | One unit stores exactly its scores, its weights and its output, and nothing else. |
| `AttentionRange.UnitFits` | m6/gpt.c:269-326 | What a unit stores is its part of the attention tensor, at its cells, for every channel and head count. |
| `AttentionRange.AttentionRange` | m6/gpt.c:269-326 | After the units of the range, their cells hold the attention tensor, all other cells are unchanged, and all weights of the units are still stored. |
| `AttentionRange.AllUnitsDone` | m6/gpt.c:328-342 | After all units the buffer holds the attention tensor, over what it held in columns of no head. |
| `ForwardPass.LayerNormForward` | m6/gpt.c:204-217 | The whole buffer holds the normalised rows. |
| `ForwardPass.MatmulForward` | m6/gpt.c:245-257 | The whole buffer holds the product. |
| `ForwardPass.AttentionForward` | m6/gpt.c:328-342 | The whole buffer holds the attention tensor, over what it held in columns of no head. |
| `ForwardPass.AttentionHalf` | m6/gpt.c:709-713 | The buffers chained through the attention half hold that half of the layer. |
| `ForwardPass.FeedForwardHalf` | m6/gpt.c:714-718 | The buffers chained through the feed-forward half hold that half. |
| `ForwardPass.Forward` | m6/gpt.c:614-726 | The flat buffers left by the whole pass hold the logits and probabilities of the row model, for every channel and head count. |
| `Generation.SampleMult` | m6/gpt.c:744-755 | The result is the first index at which the running sum passes one half, or the last. |
| `Generation.RowOfPrefix` | m6/gpt.c:789-792 | The row a token is sampled from is the same in every longer sequence and in every memory that agrees in the columns of no head. |
| `Generation.Generate` | m6/gpt.c:789-797 | Every generated token is the one sampled from a pass over those before it, whatever the fresh memory of that pass held; the prompt is kept. |
| `Generation.GenerationIsOnePass` | m6/gpt.c:789-797 | A sequence is what generation leaves if and only if one pass over it selects each token at its place, for all memories that agree in the columns of no head. |
| `Generation.DividedPassesAgree` | m6/gpt.c:789-797 | Where the head count divides the channels, the memories of all passes agree in that sense. |
| `Generation.GenerationIsDetermined` | m6/gpt.c:789-797 | Sequences with the same prompt that a single pass confirms token by token are equal, for all memories that agree in the columns of no head. |
| `ExactArithmetic.ExponentsAreSafe` | m6/gpt.c:399-409 | Over the reals: no exponential of a softmax is above 1, and if an input is above the start value of the maximum one of them is 1 and the sum at least 1. |
| `ExactArithmetic.SoftmaxIsDistribution` | m6/gpt.c:391-414 | Over the reals: the probabilities are positive, add up to one, and are in the order of the logits. |
| `ExactArithmetic.ProbsAreDistributions` | m6/gpt.c:722-725 | Over the reals: every row of probabilities of a forward pass is positive and adds up to one. |
| `ExactArithmetic.SampleIsMedian` | m6/gpt.c:744-755 | Over the reals: the tokens before the sampled one have at most half of the probability, with it more than half; the fallback is never taken. |
| `ExactArithmetic.ScoresAre` | m6/gpt.c:284-296 | Over the reals: a score times the root of the head size is the sum of products of query and key of the head. |
| `ExactArithmetic.WeightsAreSoftmax` | m6/gpt.c:298-312 | Over the reals: the attention weights are the softmax of the scores, the zero test notwithstanding. |
| `ExactArithmetic.AttentionIsAverage` | m6/gpt.c:314-324 | Over the reals: an attention output lies between any bounds that the values of its column lie between at the positions it sees. |
| `ExactArithmetic.EncodeIs` | m6/gpt.c:133-147 | Over the reals: token embedding plus position embedding, cell by cell. |
| `ExactArithmetic.MatmulIs` | m6/gpt.c:229-243 | Over the reals: bias plus the sum of products of the input with the row of weights. |
| `ExactArithmetic.GeluIs` | m6/gpt.c:351-358 | Over the reals: the activation differs from its mirror image by its argument, and for a positive one lies between half of it and all of it. |
| `ExactArithmetic.LayerNormCentres` | m6/gpt.c:172-200 | Over the reals, with unit weights: the normalised row adds up to zero, and its mean square is the variance over the variance plus epsilon. |
| `ExactArithmetic.LayerNormScales` | m6/gpt.c:172-200 | Over the reals: weights and bias scale and shift that row element by element. |
| `ExactArithmetic.ZeroHalves` | m6/gpt.c:685-720 | Over the reals: both halves of a layer add to the residual stream; where the last projection is zero they leave it as it is. |
| `ParallelFor.SomeSlice` | m6/gpt.c:101-108 | Every index of the range lies in a slice. |
| `ParallelFor.OneSlice` | m6/gpt.c:101-108 | No index lies in two slices, and no slice leaves the range, also where trailing slices start past its end. |
| `ParallelFor.SlicesAreEven` | m6/gpt.c:100-108 | No slice is longer than the range divided by the number of slices, rounded up. |
| `ParallelRuns.AnyScheduleIsSerial` | m6/gpt.c:73-118 | For kernels that write their own cells and read own or read-only cells, every interleaving of any slicing ends in the memory of the serial loop. |
| `ParallelRuns.ParallelForIsSerial` | m6/gpt.c:82-118 | The same for the slices `parallel_for` computes, for every worker count. |
| `ParallelRuns.EveryIndexOnce` | m6/gpt.c:82-118 | In every finished run each index of the range has had each of its steps once and in order, and no other index any. |
| `Threads.Pool.Spawn` | m6/thread.h:44-61 | The next slot is taken and gets the next id, unless the table is full. |
| `Threads.Pool.Join` | m6/thread.h:63-73 | All slots are dead afterwards; none is freed. |
| `Threads.Pool.Fork` | m6/gpt.c:73-118 | Fails exactly if the table overflows; otherwise the spawned threads find the slices 0..n-2, each its own, and the caller has the last. |
| `Threads.Pool.ParallelLoop` | m6/gpt.c:82-118 | A loop from fork to join gets through if and only if its threads fit the table, which then has that many more slots. |
| `Threads.Pool.PassLoops` | m6/gpt.c:673-725 | The same for all loops of a forward pass, for every worker count and all sizes. |
| `Threads.Pool.RunLoops` | m6/gpt.c:789-797 | The same for the whole generation loop: it gets through if and only if the slots in use and all threads it spawns fit the table. |
| `Threads.RunSpawnsLinear` | m6/gpt.c:789-797 | How many threads a run spawns, for every prompt, limit, worker count and size: a part outside the layers and the same part for every layer. |
| `Threads.TableSufficesIff` | m6/thread.h:44-61 | For every prompt, limit, worker count and size, a run fits the table if and only if its threads outside the layers do and it has at most as many layers as what they leave divided by what each layer adds; from one token to ten, with sizes no smaller than the worker count, that is 46 layers with two workers, 23 with three, and 15 with four, with 258 L + 90 slots. |
| `AttentionIndex.DecodeInRange` | m6/gpt.c:276-279 | Batch, position and head of a unit are in range and determine it. |
| `AttentionIndex.AttCellsDisjoint` | m6/gpt.c:281-282 | A cell of preatt or att belongs to one unit and one place in it. |
| `AttentionIndex.OutCellsDisjoint` | m6/gpt.c:314-315 | A cell of out belongs to one unit and one place in it. |
| `AttentionIndex.AttentionIsSafe` | m6/gpt.c:275-325 | For all sizes: every cell read or written is inside its tensor, and distinct units write distinct cells. |
| `AttentionColumns.ColumnOwnedIff` | m6/gpt.c:314-324 | A cell of out is in the part of a unit if and only if its column belongs to a head. |
| `AttentionColumns.AllOwnedIff` | m6/gpt.c:314-324 | All cells of out are written if and only if the head count divides the channels. |
| `KernelLocality.AttentionIsLocal` | m6/gpt.c:269-326 | In one memory block, whatever the values, attention writes own cells and reads own or read-only cells. |
| `KernelLocality.AttentionInParallel` | m6/gpt.c:328-342 | Attention under `parallel_for` leaves the memory of its serial loop for every worker count and interleaving. |
| `KernelLocality.OutOwnedIff` | m6/gpt.c:269-326 | In memory, every cell of out is owned by a unit if and only if the head count divides the channels. |
| `KernelLocality.UnownedCellKept` | m6/gpt.c:328-342 | A cell no unit owns keeps what it held under every interleaving. |
| `ParallelProgress.RunsEnd` | m6/gpt.c:82-118 | No interleaving takes more steps than the work at the start: parallel loops end. |
| `ParallelProgress.ParallelForEnds` | m6/gpt.c:82-118 | For every worker count runs are bounded in length and one exists in which all workers finish. |
| `ParallelKernels.FillInParallel` | m6/gpt.c:73-118 | Kernels that go over their own cells in passes: for every worker count and interleaving each cell ends with all its passes applied to the initial memory, and no other cell changes. |
| `ParallelKernels.TensorInParallel` | m6/gpt.c:73-118 | If the cells are those of a tensor, memory ends holding that tensor. |
| `KernelsInParallel.MatmulInParallel` | m6/gpt.c:229-257 | Under any interleaving the output tensor is the product, and nothing else changes. |
| `KernelsInParallel.GeluInParallel` | m6/gpt.c:351-364 | The same for the activation. |
| `KernelsInParallel.ResidualInParallel` | m6/gpt.c:372-384 | The same for the sum of two tensors. |
| `KernelsInParallel.EncoderInParallel` | m6/gpt.c:133-158 | The same for the encoding of the tokens. |
| `KernelsInParallel.SoftmaxInParallel` | m6/gpt.c:391-424 | The same for the softmax, whose second pass divides what the first has stored. |
| `KernelsInParallel.LayerNormInParallel` | m6/gpt.c:172-217 | The same for the layer norm, with the means and deviations of all rows. |
| `AttentionSteps.UnitStep` | m6/gpt.c:275-325 | Each store of a unit takes the closed form of its rows to the next: scores, exponentials, weights, zeroes, partial sums. |
| `AttentionSteps.UnitEnd` | m6/gpt.c:275-325 | After its last store a unit's rows are its scores, its weights padded with zeroes, and its output. |
| `AttentionParallel.AttentionTensorInParallel` | m6/gpt.c:269-342 | For every channel and head count and however the stores of the units are interleaved, every unit's scores, weights and output are in place, the output tensor is the attention of the input over what it held, and nothing else changes. |
| `AttentionDetermined.DeterminedIff` | m6/gpt.c:328-342 | The output of attention is determined by its input, over all memories, worker counts and interleavings, if and only if the head count divides the channels. |
| `Activations.InsideTotal` | m6/gpt.c:625-652 | Every tensor of every layer lies inside the allocated block. |
| `Activations.TensorsApart` | m6/gpt.c:496-514 | Different tensors, and different layers of one, do not overlap. |
| `ParallelForward.LayerLeaves` | m6/gpt.c:674-720 | The ten calls of a layer, each interleaved in any way, take the residual stream to that of the next layer. |
| `ParallelForward.ForwardInParallel` | m6/gpt.c:614-726 | The whole pass in one block of memory, with any worker count and any interleaving of every loop, leaves the logits and probabilities of the row model; what memory held enters only through columns of no head. |
| `ParallelForward.ParallelPassIsCausal` | m6/gpt.c:614-726 | Two such passes over sequences that agree on positions 0..p, with different lengths, worker counts, interleavings and initial memories, leave the same cells of logits and probabilities at position p, if their memories agree there in columns of no head. |
| `ParallelForward.DividedHasSameGaps` | m6/gpt.c:614-726 | Where the head count divides the channels, any two memories do. |
| `PassExists.PassEnds` | m6/gpt.c:614-726 | From every memory of the right size there is such a pass. |
| `HttpdPool.StepKeeps` | m7/httpd.c:297-344 | Every step keeps: log, held and queued requests numbered in order, each held once, nobody asleep who must run. |
| `HttpdPool.LogIsInAcceptOrder` | m7/httpd.c:92-102 | In every reachable state the log is 0, 1, 2, ..., the queue holds the last accepted requests in order, and each one between is held by one worker. |
| `HttpdPool.NoLostWakeup` | m7/httpd.c:95-100 | If a worker is blocked unsignalled on the queue, the queue is no longer than the number of signalled workers; none is blocked unsignalled while it is its turn to log. |
| `HttpdPool.NextIsHeldOrQueued` | m7/httpd.c:92-102 | While a request is not logged, some worker holds the next one to log, or it is at the queue head and no worker waits to log. |
| `HttpdPool.SomeWorkerCanRun` | m7/httpd.c:332-344 | While a request is not logged, some worker can run. |
| `HttpdPool.MeasureStep` | m7/httpd.c:332-344 | Every worker step uses up work; accepted requests and spurious wakeups add a bounded amount. |
| `HttpdPool.AllIsLoggedInTheEnd` | m7/httpd.c:332-344 | From every reachable state workers alone take a bounded number of steps, and when none is possible every accepted request is logged. |
| `RequestQueue.Queue.Enqueue` | m7/httpd.c:297-316 | The chain is the old one with the request at its end, under the next number. |
| `RequestQueue.Queue.Dequeue` | m7/httpd.c:318-330 | The oldest request is taken, and the chain is the rest. |
| `PoolQueue.AcceptRequest` | m7/httpd.c:297-316 | An accepted request goes to the end of the chain as it does to the end of the step system's queue, under the number it is logged by. |
| `PoolQueue.TakeRequest` | m7/httpd.c:318-330 | The linked queue refines the queue of the step system: a worker gets the oldest request under its number, or sleeps exactly if there is none. |
| `MazeGrid.ClosedHolds` | m1/labyrinth.c:325-339 | A set closed under floor neighbours holds the end of every path that starts in it. |
| `MazeGrid.ConnectedIsAboutFloor` | m1/labyrinth.c:270-302 | Connectivity depends only on which cells are floor. |
| `MazeSearch.ExploreNeighbours` | m1/labyrinth.c:334-338 | The four recursive calls together explore what one call must. |
| `MazeSearch.Dfs` | m1/labyrinth.c:325-339 | The marks added are floor reachable from the cell, closed under floor neighbours; terminates by the number of unmarked cells. |
| `MazeSearch.CountFloor` | m1/labyrinth.c:272-284 | The number of floor cells, and a floor cell if there is one. |
| `MazeSearch.ExploredDecides` | m1/labyrinth.c:290-301 | A search from one floor cell marks every floor cell exactly if the floor is connected. |
| `MazeSearch.IsConnected` | m1/labyrinth.c:270-302 | True if and only if every two floor cells are joined by a path of adjacent floor cells. |
| `MazeGame.LoadShape` | m1/labyrinth.c:98-172 | A map that loads is rectangular, within the limits, over the allowed characters, and connected. |
| `MazeGame.LoadIff` | m1/labyrinth.c:98-172 | A file loads as a map if and only if the map is rectangular, within the limits, of valid characters and connected, and the file is its rows, each ended by a newline, the last also by the end of the file or, in front of it, a terminator and what follows. |
| `MazeGame.SaveThenLoad` | m1/labyrinth.c:246-268 | Every such map loads back identically from what is saved. |
| `MazeGame.MoveIs` | m1/labyrinth.c:203-244 | The same in terms of cells for the move as a function of maps. |
| `MazeGame.MoveEvolves` | m1/labyrinth.c:203-244 | A move keeps wall and floor of every cell, and each player's count, except that a missing player may become exactly one. |
| `MazeGame.PlayKeeps` | m1/labyrinth.c:203-268 | The same for a program run that loads, moves and saves; the file stays loadable. |
| `MazeGame.MazeRuns` | m1/labyrinth.c:98-268 | Over any number of runs the file stays loadable and connected, with the same walls and floor and the same players up to first appearances. |
| `MazeGame.Labyrinth.LoadMap` | m1/labyrinth.c:98-172 | Succeeds exactly if the file parses to a connected map, which is then the map. |
| `MazeGame.Labyrinth.FindFirst` | m1/labyrinth.c:174-194 | The first cell of the character in row-major order; (-1, -1) exactly if it is on no cell. |
| `MazeGame.Labyrinth.MovePlayer` | m1/labyrinth.c:203-244 | From the first cell of the player, or the first empty one if the player is missing, up and down lead one row, left and right one column away; the move succeeds exactly if that cell is inside and empty, and then the player stands there, the cell it left is empty and all others are unchanged. Otherwise the map is unchanged. |
| `MazeGame.Labyrinth.SaveMap` | m1/labyrinth.c:246-268 | The written text is the rows, each ended by a newline. |
| `ForestTable.CompareIsOrder` | m2/pstree.c:254-268 | Both comparators are total preorders. |
| `ForestTable.SortedKeeps` | m2/pstree.c:270-295 | Sorting neither loses nor repeats an entry. |
| `ForestTable.StrCmpMeans` | m2/pstree.c:254-262 | The comparison of names is negative exactly if the first comes before the second in that order, and zero exactly if they are equal. |
| `ForestTable.SortedMeans` | m2/pstree.c:254-295 | Sorted by number, pids never descend; by name, names never descend in the order of the first differing character, a proper prefix first, nor pids among equal names. |
| `ForestTable.SortedIsUnique` | m2/pstree.c:270-295 | Where pids are distinct the order is unique, whatever the sorting algorithm. |
| `ForestPrint.DepthBelowSize` | m2/pstree.c:323-338 | Where printing terminates, no entry is printed deeper than the table is long. |
| `ForestPrint.TreeLines` | m2/pstree.c:323-338 | Every line of a tree stands at the distance of its entry from a root. |
| `ForestPrint.ForestBelow` | m2/pstree.c:297-338 | For every table printing terminates on: under every printed entry its child list follows one level deeper, exactly and in order. |
| `ForestPrint.RootsBelow` | m2/pstree.c:297-321 | The entries printed without indentation are exactly the roots, in order. |
| `ForestPrint.LinePrinted` | m2/pstree.c:297-338 | The line of an entry at a depth is printed once if its ancestor at that distance is a root, and never otherwise. |
| `ForestPrint.PrintedPerRoot` | m2/pstree.c:297-338 | An entry is printed as often as there are roots among its ancestors and itself. |
| `ForestCounts.PrintedExactlyOnce` | m2/pstree.c:297-338 | Without an entry of pid 0, an entry is printed once if its parent chain reaches a root and never otherwise, always at its ancestor count. |
| `ForestCounts.PrintedTwiceIff` | m2/pstree.c:297-338 | With an entry of pid 0, an entry is printed twice if and only if it is at or below an entry of parent 0 and at or below one without a parent, once if and only if exactly one of the two holds, and never more. |
| `ForestCounts.PrintedTwice` | m2/pstree.c:305-311 | A table of two entries one of which is printed twice. |
| `ForestProgram.Forest.FindProcessIndex` | m2/pstree.c:216-223 | The first entry of the pid, or -1. |
| `ForestProgram.Forest.BuildTree` | m2/pstree.c:225-252 | The child list of every entry is its children in table order. |
| `ForestProgram.Forest.SortTree` | m2/pstree.c:270-295 | Every child list is a sorted permutation of its children. |
| `ForestProgram.Forest.PrintTree` | m2/pstree.c:323-338 | The output grows by the lines of the tree; terminates on every table without a loop through pid 0, although parent pointers may be cyclic. |
| `ForestProgram.Forest.CollectRoots` | m2/pstree.c:297-313 | For every table the roots are exactly the entries of parent 0 or without a parent in the table, sorted. |
| `ForestProgram.Forest.PrintForest` | m2/pstree.c:297-321 | For every table printing terminates on, the output grows by the forest of sorted roots and child lists. |
| `ForestTermination.TerminatesIff` | m2/pstree.c:297-338 | For every table, printing terminates if and only if no ancestor-or-self of the entry of pid 0 names 0 as its parent, and then no recursion is deeper than the table is long. |
| `ForestTermination.NoPidZeroTerminates` | m2/pstree.c:297-338 | Tables without an entry of pid 0 always print, whatever cycles they contain. |
| `ForestTermination.SelfParentedZeroLoops` | m2/pstree.c:297-338 | A table of one entry of pid 0 and parent 0 does not terminate. |

## Left out

- `m3/sperf.c`, `m4/crepl.c`, `m8/fsrecov.c`: process plumbing, foreign calls and bounds checks; they would add only easy members.
- Key-value log: up to the first sync of a put, writes reach the disk in program order, and a truncation is one effect; from then on any unsynced bytes may be lost (`KvPowerLoss`). Out-of-memory branches, `kvdb_open`, `kvdb_close` and file descriptors shared across fork are left out.
- KvCrash.CrashAtomicity: runs without read errors only, because with them it is false; `KvCrash.PutKeepsRecordsIff` says exactly when.
- KvLocks.SequentialIsRun: where a put whose reads failed lost records the order need not be one of these runs; `KvCrash.PutKeepsRecordsIff` says when it does.
- Allocator: each call is one atomic step under the spin lock, which is not modelled; the block contents are not part of memory; `vmalloc` is an environment step that returns fresh page-aligned regions of the address space.
- HeapRuns.RunKeeps: requests are at most 2^64 - 4128 and each fresh chunk is placed below the list or behind a free block it touches; `HeapRuns.MallocRoomIff` and `HeapList.GrowthIff` say what these conditions are worth.
- HeapMemory.Allocator.SplitBlock: headers are whole records, so that a wrapped split writing one header over the bytes of another is seen only as a list that is no longer linked.
- Floats: operations are uninterpreted or, in `ExactArithmetic`, those of the reals, with exponential, root and tangent given by the properties used of them; nothing is said about rounding. Checkpoint loading, parsing of the environment and of tokens are left out; token ids are below the vocabulary size.
- ForwardPass.Forward: each layer's tensors are separate buffers, and buffers a kernel only reads are passed as contents; in `ParallelForward` they are stretches of one block. It calls each kernel over its whole range; slices and interleavings are the matter of `ParallelForward.ForwardInParallel`. There is at least one layer, since with none the source reads in front of a tensor.
- ParallelForward.ForwardInParallel: stores are atomic and seen at once, and registers are functions of what a unit has read and stored. The weights are rows outside the block, which nobody writes. Losses are not computed.
- Integer overflow of `int` tensor sizes in `m6/gpt.c` is not modelled.
- Worker pool: each critical section is one step, sequence numbers are naturals, `handle_request` is one step that returns; sockets, parsing, CGI and time stamps are left out.
- RequestQueue.Queue.Dequeue: returns null where the source would wait; waiting is modelled in `HttpdPool`.
- Maze: option parsing, printing and a crash in the middle of `saveMap` are left out; a map file is a sequence of characters.
- Process forest: reading `/proc`, output text and out-of-memory branches are left out; `qsort` is any sorted permutation, here an insertion sort.
- ForestProgram.Forest.PrintForest: for tables on which printing terminates; `ForestTermination.TerminatesIff` says which these are.
