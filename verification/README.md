# Redbit, modelled in Dafny

Redbit stores hierarchical entities in typed key/value tables and indexes a block chain with them. This project models
five parts of it and proves what they are for.

* **Merge buffer.** `Runs`, `Gallop`, `BufferLevels`, `BufferDrain`, `SortBuffer`, `BufferHistory`, `BufferOrder`: the
  binary counter of sorted runs that collects inserts before a flush, its galloping merge and its drain. The class is
  shown to do what a specification on sequences says, and the specification to sort, to keep arrival order, to stay
  logarithmic over every sequence of operations, and to drain equal keys in arrival order exactly under a stated
  condition.
* **Sharded routing and the flush barrier.** `Router`, `IndexShards`, `IndexCache`, `Hook`, `StoreMany`,
  `FlushBarrier`, `BarrierProgram`, `InputRows`, with `Bags` for sums over shards: index shards answer queries and feed
  the shards of two input tables over FIFO queues. Every interleaving of the threads of a store is shown to flush each
  destination once, after its last row, with the rows of a sequential run over one unsharded index: one row for every
  input of the stored transactions, which points to the output that the input spends. Which commits never end is told
  exactly: those of a transaction that sends no signal on a context whose flushes a store has deferred.
* **Synchronisation.** `ReorderBuffer`, `WeightBatcher`, `SortStage`, `ForkLink`, `ForkPersist`: blocks arrive in any
  order, leave in height order and in uniquely determined batches, are linked to a stored ancestor and replace the losing
  branch. `WriteContext` says when a commit ends on a context that serves transaction after transaction; the barrier
  proves it and the replacement depends on it.
* **Entity trees.** `Pointers`, `EntityTree`, `EntityFilter`, `EntityDelete`, `EntityCommit`: pointers as index paths with
  their bytes and their text, and entities flattened into nested tables, read by ranges, filtered, deleted by cascade and
  committed table by table.
* **Arithmetic.** `CacheAllocation` and `Partitioning`: largest-remainder division of the cache, and little-endian bytes
  modulo the shard count. `Basics` holds facts that several components need.

Every theorem is about all inputs, all runs or all reachable states. Code that works in place is a class or a method over
arrays, sequences or maps that is proved against a function; the functions carry the theorems. Where the code does not
meet what one would expect of it, the project keeps the code, names an input and states when it does.

Keys that are compared as bytes of fixed width are integers here, values are arbitrary, hashes are integers.
`dafny verify dfyconfig.toml` checks the project.

## Model

| member | source | states |
|---|---|---|
| Runs.MergeCharacterised | redbit/src/storage/sort_buffer.rs:363-437 | A sequence is the one-element-at-a-time merge of two sorted runs if and only if it is sorted and keeps, for every key, the left pairs and then the right pairs in their order |
| Runs.StableSortCharacterised | redbit/src/storage/sort_buffer.rs:44 | A sequence is the stable sort of a run if and only if it is sorted and keeps the order of the pairs of every key |
| Runs.MergeTakeLeft | redbit/src/storage/sort_buffer.rs:405-417 | Taking a whole block from the left, up to the upper bound of the right head, is what the plain merge does |
| Runs.MergeTakeRight | redbit/src/storage/sort_buffer.rs:419-431 | Taking a whole block from the right, up to the lower bound of the left head, is what the plain merge does |
| Gallop.GallopRightSlice | redbit/src/storage/sort_buffer.rs:273-315 | The search returns the lower bound in a sorted slice, with at most 2*log2(result)+2 comparisons (one for result zero) |
| Gallop.GallopLeftSlice | redbit/src/storage/sort_buffer.rs:319-361 | The search returns the upper bound in a sorted slice, with the same bound on comparisons |
| Gallop.MergeSortedByKeyGallop | redbit/src/storage/sort_buffer.rs:363-437 | The galloping merge ends and returns exactly the plain stable merge of its sorted inputs |
| BufferLevels.CarryArrivals | redbit/src/storage/sort_buffer.rs:137-186 | After a push of a sorted run, every key is stored in arrival order from the highest level down: what was stored before, then the new run |
| BufferLevels.CarryBalanced | redbit/src/storage/sort_buffer.rs:137-186 | A push keeps at least 2^k pairs in every occupied level k |
| BufferLevels.CarryAccount | redbit/src/storage/sort_buffer.rs:137-186 | Merges performed plus runs stored grow by at most one with a push |
| BufferLevels.FarthestIsGreatest | redbit/src/storage/sort_buffer.rs:57-79 | The scan finds the run with the greatest last key, and every lower level ends strictly before it |
| BufferLevels.ExtendArrivals | redbit/src/storage/sort_buffer.rs:116-130 | Extending the run that ends last keeps arrival order at whatever level it is stored |
| BufferLevels.AppendArrivals | redbit/src/storage/sort_buffer.rs:48-134 | An appending push keeps every key in arrival order, on all of its branches |
| BufferLevels.AppendBalanced | redbit/src/storage/sort_buffer.rs:48-134 | An appending push keeps at least 2^k pairs in every occupied level k |
| BufferLevels.AppendAccount | redbit/src/storage/sort_buffer.rs:48-134 | Merges plus runs grow by at most one with an appending push |
| BufferLevels.RunsAreLogarithmic | redbit/src/storage/sort_buffer.rs:7-8 | Balanced levels with r occupied slots store at least 2^r - 1 pairs |
| BufferLevels.ArrivalsDetermineContents | redbit/src/storage/sort_buffer.rs:10-12 | If every key is stored as in a history, the stored pairs are the pairs of the history |
| BufferDrain.ReduceSorts | redbit/src/storage/sort_buffer.rs:230-262 | Merging the two shortest runs until one is left gives a sorted permutation of all of them |
| BufferDrain.DrainSorts | redbit/src/storage/sort_buffer.rs:188-263 | A drain returns a sorted permutation of everything stored, on all of its branches |
| BufferDrain.DrainFaithful | redbit/src/storage/sort_buffer.rs:188-263 | A key that lives in one run comes out of the drain in the order in which it is stored |
| BufferDrain.DrainStable | redbit/src/storage/sort_buffer.rs:188-263 | If every key is stored in one run as in the history, the drain is the stable sort of the history |
| SortBuffer.PopHeap | redbit/src/storage/sort_buffer.rs:243-244 | The heap yields the shortest run, and of equally short ones that with the greatest index |
| SortBuffer.MergeTwoShortest | redbit/src/storage/sort_buffer.rs:242-258 | One round of the reduction merges the two shortest pooled runs and queues the result under a fresh index |
| SortBuffer.ReducePool | redbit/src/storage/sort_buffer.rs:230-262 | The loop over pool and heap computes the reduction |
| SortBuffer.Concatenate | redbit/src/storage/sort_buffer.rs:221-228 | The loop of the fast path concatenates the runs |
| SortBuffer.MergeBuffer.FromSorted | redbit/src/storage/sort_buffer.rs:35-40 | A buffer built from a sorted run stores what a push of that run onto an empty buffer leaves, or nothing if the run is empty |
| SortBuffer.MergeBuffer.Clear | redbit/src/storage/sort_buffer.rs:26-28 | Clearing drops all levels |
| SortBuffer.MergeBuffer.IsEmpty | redbit/src/storage/sort_buffer.rs:31-33 | The buffer is empty exactly when no pair is stored |
| SortBuffer.MergeBuffer.MergeUnsorted | redbit/src/storage/sort_buffer.rs:42-46 | Pushing any run carries its stable sort through the levels |
| SortBuffer.MergeBuffer.AppendSorted | redbit/src/storage/sort_buffer.rs:48-134 | The in-place append does to the levels what the specification of an appending push says, and merges only when it falls back to the carry |
| SortBuffer.MergeBuffer.MergeSorted | redbit/src/storage/sort_buffer.rs:137-186 | The in-place carry loop does to the levels what the specification of a push says, ends, and performs exactly as many gallop merges as that says |
| SortBuffer.MergeBuffer.TakeSorted | redbit/src/storage/sort_buffer.rs:188-263 | A drain returns what the specification says and leaves the buffer empty |
| SortBuffer.MergeBuffer.Runs | redbit/src/storage/sort_buffer.rs:266-268 | The loop returns the cardinality of the set of occupied levels |
| BufferHistory.After | redbit/src/storage/sort_buffer.rs:42-263 | After every sequence of pushes, clears and drains: levels are balanced, every key is stored in arrival order, and the merges performed plus the runs stored do not exceed the non-empty pushes |
| BufferHistory.TakeReturnsHistory | redbit/src/storage/sort_buffer.rs:188-263 | The drain of every reachable buffer is a sorted permutation of what was pushed since the last clear or drain, and its stable sort if no key is stored in two levels, so if the pushed keys are distinct or one run is stored |
| BufferHistory.RunsWithinLogarithm | redbit/src/storage/sort_buffer.rs:266-268 | In every reachable buffer n pairs occupy at most log2(n+1) runs |
| BufferHistory.OutsidePushesNeverMerge | redbit/src/storage/sort_buffer.rs:137-186 | A buffer whose every push comes after everything stored, or before it, never merges and holds one run at most |
| BufferHistory.EveryDrain | redbit/src/storage/sort_buffer.rs:188-263 | Every drain of every sequence of operations returns what the pushes alone determine |
| BufferHistory.Replay | redbit/src/storage/sort_buffer.rs:42-268 | Running the class over any sequence of operations returns those drains, stays within the logarithmic number of runs, and performs no more merges than pushes less stored runs |
| BufferHistory.SplitKeyComesOutOfOrder | redbit/src/storage/sort_buffer.rs:207-228 | Three pushes after which the drain is not the stable sort: a key stored in two levels comes out newest first |
| BufferOrder.PushedOnceDrainsStable | redbit/src/storage/sort_buffer.rs:188-263 | If no key came in two non-empty pushes since the last clear or drain, however often within one, the drain is the stable sort of the pushes |
| BufferOrder.DrainVisits | redbit/src/storage/sort_buffer.rs:204-262 | The drain holds every key run by run, in the order in which concatenation or reduction visits the levels |
| BufferOrder.OrderVisitsOnce | redbit/src/storage/sort_buffer.rs:204-262 | Concatenation and reduction visit every occupied level exactly once |
| BufferOrder.StableExactly | redbit/src/storage/sort_buffer.rs:204-262 | For pushed pairs that can be told apart, the drain is the stable sort of the pushes if and only if it visits the higher of any two levels that share a key first; that it is sufficient needs no assumption on the pairs |
| Router.RoutedExactly | redbit/src/storage/router.rs:57-77 | A bucket holds exactly the pairs whose shard it is, each as often as in the batch |
| Router.BucketsPartition | redbit/src/storage/router.rs:57-77 | The buckets of all shards together are the batch |
| Router.RoutedOnce | redbit/src/storage/router.rs:198-205 | A queried position goes, once, to the shard of its value and to no other |
| Router.ShardedRouter.Bucket | redbit/src/storage/router.rs:57-77 | The bucketing loop gives every shard its pairs in batch order |
| Router.ShardedRouter.MergeUnsortedInserts | redbit/src/storage/router.rs:99-114 | Every shard is sent its bucket if that is not empty, and then the signal if there is one |
| Router.ShardedRouter.ReadyForFlush | redbit/src/storage/router.rs:116-121 | Every shard is sent the signal once |
| Router.ShardedRouter.WriteInsertNow | redbit/src/storage/router.rs:137-144 | The insert goes to the one shard of the pair |
| Router.ShardedRouter.QueryAndWrite | redbit/src/storage/router.rs:183-216 | Every shard is sent the positions of its values, or nothing if it has none and the batch is not the last; a router that is not partitioned by value refuses |
| IndexShards.InsertRefines | redbit/src/storage/router.rs:137-144 | A routed insert is an insert into the unsplit table if and only if the key is new or keeps its shard |
| IndexShards.LookupRefines | redbit/src/storage/table_index_write.rs:65-78 | The shard of a value answers from its table what the unsplit table answers |
| IndexCache.NeverStale | redbit/src/storage/table_index_write.rs:9-19 | Whatever is inserted, deleted and evicted, the cache of recent keys holds only keys that are stored for their values |
| IndexCache.AnyKeyExactly | redbit/src/storage/table_index_write.rs:65-78 | Through a cache that is not stale a value is found exactly if the table has it and answered by one of its keys; it is the key the table answers, whatever is cached, if and only if the value has at most one key |
| IndexCache.FoundAfter | redbit/src/storage/table_index_write.rs:10-61 | Through the cache an inserted key is the one found for its value at once, whatever was stored; after a delete that found its row, and after an eviction, it is the first stored key; other values answer as before |
| IndexShards.ShardedIndex.InsertNow | redbit/src/storage/table_index_write.rs:10-20 | On the shard of the value the key has the new value and its row, and every other row stays; the other shards stay. The shards then hold the unsplit table with the new row if and only if the key is new or keeps its shard |
| IndexShards.ShardedIndex.DeleteKv | redbit/src/storage/router.rs:158-168 | For any shards: those asked lose the value of the key and the row of the key at that value, and keep every other row; the others stay; the answer is true exactly if some shard had both rows. Shards that hold one table have lost the key everywhere |
| IndexShards.InsertThenDelete | redbit/src/storage/table_index_write.rs:50-61 | Inserting a new key and deleting it says true and restores every shard |
| Hook.Sink | chains/btc/src/hook.rs:7-31 | The sink sends both tables the rows of all answers, and the signal: every row is keyed by the transaction and the position of its input, of which 16 bits count, and a pointer row names the found transaction and the spent index, or the coinbase marker, or the marker of a missing one. An answer without a reference makes it fail and send nothing |
| Hook.RouterSendsTo | redbit/src/storage/router.rs:99-121 | The send loops of a batch put on each channel what the router promises that shard, signal last |
| Hook.SinkSendsTo | chains/btc/src/hook.rs:28-29 | The two routers of the sink reach their own channels only |
| FlushBarrier.MovesKeepPending | redbit/src/storage/tx_fsm.rs:47-124 | Whatever thread moves, what a destination still expects from a source changes only when the destination takes its first message |
| FlushBarrier.TakeMessage | redbit/src/storage/tx_fsm.rs:47-124 | Taking a message keeps the account of signals and rows of a destination |
| FlushBarrier.RunKeepsExpects | redbit/src/storage/tx_fsm.rs:47-124 | Every interleaving keeps that account |
| FlushBarrier.BarrierIsSafe | redbit/src/storage/tx_fsm.rs:89-117 | In every interleaving a destination never fails, has at most one signal per source, and flushes exactly when asked to and signalled by all, with all its rows and nothing left to come |
| FlushBarrier.QuietMeansFlushed | redbit/src/storage/tx_fsm.rs:89-117 | When no thread can move, every destination has flushed all its rows |
| FlushBarrier.StarvedForEver | redbit/src/storage/tx_fsm.rs:89-105 | A destination that is asked to flush when the signals are there, and is sent none, flushes in no interleaving |
| FlushBarrier.DirectForEver | redbit/src/storage/tx_fsm.rs:118-120 | A destination that is sent nothing and asked to flush at once keeps doing only that, in every interleaving |
| FlushBarrier.RunsAreBounded | redbit/src/storage/tx_fsm.rs:126-134 | Every interleaving spends one unit of a fixed budget per move |
| FlushBarrier.QuietRun | redbit/src/storage/tx_fsm.rs:126-134 | From every state some interleaving goes on until no thread can move |
| StoreMany.CollectRefs | macros/src/relationship/store.rs:39-48 | The references of a transaction join the collected ones unless an output would be spent twice |
| StoreMany.StoreTransactions | macros/src/entity/store.rs:105-118 | Storing transactions inserts every hash and then asks one query for all references; on a double spend it stops after the hash of the first transaction that has one, without a query |
| StoreMany.StoreBlocks | macros/src/entity/store.rs:105-118 | Storing blocks stores their transactions in order; it stops at the first block that spends an output twice, and succeeds if there is none |
| StoreMany.BlockSignals | macros/src/entity/store.rs:107-111 | Of all operations of a storing call that is the last one, the last operation and no other carries the signal, also when the last block has no inputs |
| BarrierProgram.QueuedProgram | redbit/src/storage/router.rs:183-216 | The writing thread gives every index shard its commands in order |
| BarrierProgram.StreamEnds | chains/btc/src/hook.rs:7-31 | What one index shard sends to one destination over a whole store of at least one block is inserts followed by one signal |
| BarrierProgram.UnsignalledStream | chains/btc/src/hook.rs:7-31 | Without the signal it is inserts only, and without a query nothing |
| BarrierProgram.ShardsResolveOnce | redbit/src/storage/router.rs:198-214 | Over all shards the rows of a query are those of one unsharded lookup per reference |
| BarrierProgram.ShardedRowsAreSequential | redbit/src/storage/router.rs:183-216 | For any shard counts and partitioners, each destination is sent exactly the rows that a sequential run over one unsharded index writes and that belong to it |
| BarrierProgram.IdsPartition | redbit/src/storage/router.rs:57-77 | The shards of the id table are together sent exactly the id rows of the sequential run |
| BarrierProgram.PointersPartition | redbit/src/storage/router.rs:57-77 | The shards of the pointer table are together sent exactly the pointer rows of the sequential run |
| BarrierProgram.InitialExpects | redbit/src/storage/tx_fsm.rs:47-124 | A store of at least one block starts in a state that satisfies the barrier invariant |
| BarrierProgram.StoreIsSafe | redbit/src/storage/tx_fsm.rs:89-117 | Storing any blocks, also none, in every interleaving: no destination fails, each flushes exactly when asked to and signalled by every index shard, and what it then writes are the rows of the sequential run |
| BarrierProgram.StoreCompletes | redbit/src/storage/tx_fsm.rs:89-117 | All interleavings have the same length, and at the end a destination has flushed the rows of the sequential run if and only if the flush was not deferred before or a block is stored; otherwise it never flushes |
| InputRows.EveryInputWritten | chains/btc/src/hook.rs:7-31 | When a store of blocks is done, in every interleaving, the shards of each input table together have written one row for every input of the blocks; its pointer names the output of the first transaction with the spent hash, among those stored before and those of the blocks up to its own, or a marker if there is none |
| InputRows.SpendFindsOutput | chains/btc/src/hook.rs:16-17 | If exactly one transaction has the spent hash, a shard of the pointer table has written the row of the input, and that names this transaction and the spent output |
| BarrierProgram.CommitEndsExactly | redbit/src/storage/table_writer.rs:122-141 | The commit of a transaction ends in every interleaving if and only if its flushes are not deferred, by itself or by an earlier transaction of the context, or its operations carry the signal |
| BarrierProgram.ContextEndsExactly | redbit/src/storage/table_writer.rs:51-54 | All commits on one context end if and only if no transaction that stores nothing follows one that stores a block |
| BarrierProgram.ReplacementHangs | macros/src/entity/chain.rs:171-178 | A store and then the deletes of a replacement on the same context: in no interleaving does a destination of the second commit flush |
| ReorderBuffer.FirstsAreFirst | chain/src/reorder_buffer.rs:70-74 | A block is kept for a height exactly if it is the first to arrive for it |
| ReorderBuffer.ReorderBuffer.constructor | chain/src/reorder_buffer.rs:44-52 | A new buffer expects its lower bound and holds nothing |
| ReorderBuffer.ReorderBuffer.Insert | chain/src/reorder_buffer.rs:58-81 | After every insertion history the next height is the least one not arrived, pending are the first arrivals above it, the greatest height and the late count are those of the history, and the insertion releases the first arrivals from the old next height to the new one, as long as one 32-bit height is missing |
| ReorderBuffer.ReorderBuffer.Drain | chain/src/reorder_buffer.rs:75-79 | The release loop takes the contiguous prefix out of the pending blocks and ends |
| ReorderBuffer.ReorderBuffer.GapSpan | chain/src/reorder_buffer.rs:90-96 | There is a gap exactly if something is pending, from the least missing to the greatest seen height |
| WeightBatcher.CutIsUnique | chain/src/weight_batcher.rs:58-89 | A stream can be cut at first possible points in one way only |
| WeightBatcher.WeightBatcher.PushWith | chain/src/weight_batcher.rs:58-74 | Batches and buffer always are the stream so far, cut wherever weight or capacity was first reached |
| WeightBatcher.WeightBatcher.Flush | chain/src/weight_batcher.rs:76-84 | A flush hands out the rest, which is empty in Immediate mode |
| SortStage.Sort | chain/src/syncer.rs:141-188 | The stage sends the cut of the gap-free prefix of first arrivals, the rest last, as long as one 32-bit height is missing |
| SortStage.OutputIsPrefix | chain/src/syncer.rs:141-188 | Together the batches are the first arrivals from the start up to the first missing height |
| SortStage.ArrivalOrderIsIrrelevant | chain/src/syncer.rs:141-188 | With one block per height, the batches depend only on which heights arrive, not on order or duplicates |
| ForkLink.LinkShape | chain/src/syncer.rs:278-318 | A fork is a run of fetched blocks, oldest first, that name each other as parents and end in the given block |
| ForkLink.LinkExact | chain/src/syncer.rs:288-305 | The fork is empty exactly if the direct parent is neither stored nor served, and starts at an anchor exactly if all missing ancestors are served |
| ForkLink.LinkCause | chain/src/syncer.rs:278-318 | The walk fails exactly if at its last block the index or the node fails, with that error, and panics exactly if it finds a header there that is not right below |
| ForkLink.MissingGrandparentLeavesGap | chain/src/syncer.rs:295-303 | A case in which a missing grandparent goes unnoticed and a block is stored above a gap |
| ForkPersist.BlockChain.StoreBlocks | macros/src/entity/chain.rs:162-169 | Blocks are stored one after the other in one transaction, whose commit ends unless there are none and the flushes of the context are deferred; with a store hook they are deferred from then on |
| ForkPersist.BlockChain.UpdateBlocks | macros/src/entity/chain.rs:171-181 | Everything at the heights of the blocks is deleted in a transaction of its own; if the flushes of the context are deferred its commit does not end, and otherwise the blocks are stored |
| ForkLink.StoppedBetween | macros/src/entity/chain.rs:171-181 | A stop between the two commits leaves the chain below the fork if and only if the fork reaches the tip; otherwise no chain at all |
| ForkPersist.PersistOrLink | chain/src/syncer.rs:320-337 | Old batches are stored as they come. Otherwise some number of blocks is persisted, each adding nothing, storing itself alone or replacing what stands at the heights of its fork; unless these are all, the next block stops the batch: its walk failed with the error or panicked, and nothing more is done, or its deletes are done and their commit does not end. The only demand on the node is that walking back along its answers ends |
| ForkPersist.LinkEachExactly | chain/src/syncer.rs:327-336 | A batch near the tip has that outcome and no other |
| ForkLink.PlaceAboveTip | macros/src/entity/chain.rs:162-181 | A fork that hangs on the stored chain and ends above its tip leaves a gap-free linked chain |
| ForkLink.PlaceBelowTip | macros/src/entity/chain.rs:162-181 | A fork that ends at or below the tip leaves a chain if and only if it ends in the stored hash, or replaces the tip together with its parent |
| ForkLink.PlacedAt | macros/src/entity/chain.rs:162-181 | A placed fork changes the headers of its own heights and no others |
| ForkLink.LinkHangs | chain/src/syncer.rs:278-318 | On a stored chain with honest hashes the walk never panics, and if all missing ancestors are served its fork hangs on the chain |
| ForkLink.PlacedExactly | chain/src/syncer.rs:328-335 | Commits that end given, a placed fork leaves a chain up to the block at the next height if and only if the missing ancestors of that block are served |
| ForkLink.AloneExactly | chain/src/syncer.rs:288-305 | The fork of a served block is that block alone if and only if its parent is stored |
| ForkPersist.LinkOne | chain/src/syncer.rs:328-335 | A block at the next height moves the tip up by one and leaves a chain if and only if all its missing ancestors are served and either its parent is stored or the flushes of the context are not deferred; then everything below the fork stays. If the node fails nothing is stored |
| ForkPersist.LinkEachKeepsChain | chain/src/syncer.rs:327-336 | A batch near the tip leaves a chain after every block if and only if each block can be linked in that sense when its turn comes |
| ForkPersist.ServedBatch | chain/src/syncer.rs:327-336 | A batch whose blocks can all be linked is persisted whole, with its last block at the tip |
| ForkPersist.RunLeavesChain | chain/src/syncer.rs:327-336 | After any number of blocks that could be linked in their turn there is a chain up to the last of them, which is the tip |
| ForkPersist.StopLeavesChain | chain/src/syncer.rs:327-336 | If then the node fails, the headers are a chain up to the last linked block and nothing is stored above; the walk does not panic; if a served replacement hangs, the chain below its fork is left |
| ForkPersist.ReplacementHangs | chain/src/syncer.rs:328-335 | On a context with deferred flushes a served fork of several blocks hangs: the headers at its heights are deleted, and the chain below it is what stays |
| ForkPersist.DeferredExtendsOnly | chain/src/syncer.rs:327-336 | On a context with deferred flushes a batch leaves a chain after every block if and only if it is linked and its first block names the tip |
| ForkPersist.LaterBlockRepairs | chain/src/syncer.rs:327-336 | A case in which the chain after the whole batch is whole although an earlier block left a gap: a later branch fills it, on a context that has not stored anything |
| ForkLink.StoredAsItComes | chain/src/syncer.rs:324-325 | A batch far below the tip keeps the chain if and only if it is linked and its first block names the tip |
| ForkPersist.RunKeepsChain | chain/src/syncer.rs:202-236 | In every state of every run of batches that arrive well, on one context, the stored chain is gap-free and linked |
| CacheAllocation.ComputeSharesMb | redbit/src/storage/cache.rs:36-51 | The loop rounds every quota down and keeps its remainder, with saturated products |
| CacheAllocation.GiveUnits | redbit/src/storage/cache.rs:59-65 | The loop gives one unit to each of the first shares with a weight, while units last |
| CacheAllocation.DistributeRemainderMb | redbit/src/storage/cache.rs:53-68 | Sort by remainder, give out, sort back by index, in place |
| CacheAllocation.CollectAllocationsMb | redbit/src/storage/cache.rs:70-86 | Every column is divided by its shards; a column without shards makes the program panic |
| CacheAllocation.AllocateCacheMb | redbit/src/storage/cache.rs:9-27 | The result is the allocation per shard, zero if there is nothing to allocate |
| CacheAllocation.FinalAt | redbit/src/storage/cache.rs:53-68 | A column ends with its rounded share, plus one if fewer than all units went to weighted shares before it |
| CacheAllocation.AllocatedExactlyIf | redbit/src/storage/cache.rs:19-24 | The allocations add up to the total if and only if what is left over the rounded quotas is at most the number of weighted columns, and never exceed it |
| CacheAllocation.AllocatedExactly | redbit/src/storage/cache.rs:3-5 | Without overflow the allocations add up to the total |
| CacheAllocation.OverflowLoses | redbit/src/storage/cache.rs:45 | A case within the range of the configuration, 128 gigabytes over two columns of weight 2^48, in which a saturated product loses half of the cache |
| CacheAllocation.QuotaRounded | redbit/src/storage/cache.rs:44-48 | Without overflow a column gets its quota rounded down or up, and an exact quota exactly |
| CacheAllocation.LargestRemaindersFirst | redbit/src/storage/cache.rs:53-65 | The columns rounded up are those with the largest remainders, first ones first |
| CacheAllocation.WeightlessGetsNothing | redbit/src/storage/cache.rs:39-43 | A column without weight gets nothing, also with overflow |
| CacheAllocation.LossOverShards | redbit/src/storage/cache.rs:70-86 | Dividing the columns over their shards loses at most one megabyte for every shard but one of a column, and nothing else is lost |
| Partitioning.LeModFoldChunk | redbit/src/storage/partitioning.rs:123-133 | The fold computes the next power and the value so far modulo m, within 128 bits |
| Partitioning.PartitionBytesLe | redbit/src/storage/partitioning.rs:113-120 | The shard is the little-endian value of the bytes modulo n |
| Partitioning.FoldComposes | redbit/src/storage/partitioning.rs:123-133 | Folding two chunks is folding them joined |
| Partitioning.IncLe | redbit/src/utils.rs:33-41 | The in-place increment adds one modulo 256^len |
| Partitioning.ConsecutiveKeysCoverShards | redbit/src/storage/partitioning.rs:113-120 | Of n consecutive keys exactly one goes to each of n shards |
| Partitioning.LowBytesDecide | redbit/src/storage/partitioning.rs:113-120 | If n divides 256^j, only the first j bytes of a key matter |
| Pointers.FkRangeIsChildren | redbit/src/lib.rs:138-140 | At any depth the range of a pointer holds exactly its children if its last index has a next one of its width, and nothing if that is the greatest, where the addition wraps around |
| Pointers.RangeOfPointers | redbit/src/macro_rules.rs:410-430 | Both bounds of a range are pointers of the child type, also after the greatest index |
| Pointers.DecodeEncode | redbit/src/macro_rules.rs:377-398 | Decoding the encoded bytes gives the pointer back |
| Pointers.EncodeDecode | redbit/src/macro_rules.rs:377-398 | Exactly the byte strings of the right size decode, each to a pointer that encodes to it |
| Pointers.AsLeBytes | redbit/src/macro_rules.rs:389-396 | Encodings have exactly the size of the pointer type |
| Pointers.BytesOfIndex | redbit/src/macro_rules.rs:389-396 | The bytes of every index stand at the place that the widths before it give, lowest byte first |
| Pointers.NextIndexIs | redbit/src/macro_rules.rs:422-427 | The next index is one more under the same parent, and zero after the greatest one |
| Pointers.ParsePrint | redbit/src/macro_rules.rs:529-543 | Parsing the printed form of a pointer gives it back, at any depth |
| Pointers.PrintInjective | macros/src/pk/pointer_impls.rs:17-21 | Different pointers of one type print differently |
| Pointers.ParsedIsPointer | redbit/src/macro_rules.rs:505-543 | Whatever parses is a pointer of the type, within the width of every index |
| Pointers.PrintParse | redbit/src/macro_rules.rs:505-543 | Printing what was parsed and parsing it again changes nothing |
| Pointers.ParseExactly | redbit/src/macro_rules.rs:505-543 | A text parses to a pointer if and only if it is a pointer of the type and the text its indices in decimal with dashes between them, each with a plus sign or none and any number of zeros before it |
| Pointers.FormatExactly | redbit/src/macro_rules.rs:505-543 | The format is wrong if and only if the number of dashes is; any other text that does not parse has a bad index |
| EntityTree.Store | macros/src/entity/store.rs:31-38 | The generated store writes the rows of an entity into its tables, field after field |
| EntityTree.StoreMany | macros/src/entity/store.rs:105-118 | The generated loop stores instance after instance, which is storing all of them table by table |
| EntityTree.StoreAllAppend | macros/src/entity/store.rs:105-118 | Storing one list of entities after another is storing both |
| EntityTree.RoundTrip | macros/src/entity/compose.rs:13-20 | Well-formed entities stored under fresh keys are read back as range reads see them, with the lists at a greatest index empty; they are read back as they were if and only if no list stands at a greatest index |
| EntityTree.SeenExactly | redbit/src/lib.rs:138-140 | An entity is seen as it is if and only if every list of children stands at an index that has a next one |
| EntityTree.ErrorNamesMissing | macros/src/column/init.rs:40-45 | A read that fails names a row that is missing: its path leads to a table that must have one at its pointer, which is the pointer read or one below it |
| EntityTree.StoreFrame | macros/src/entity/store.rs:105-118 | Storing leaves the read of every entity that stands apart as it was, errors included |
| EntityTree.ChildKeysAre | macros/src/relationship/init.rs:89-96 | The range read of a pointer finds the keys right below it in ascending order, or nothing after the greatest index |
| EntityFilter.ComposeManyLoop | macros/src/entity/compose.rs:83-104 | The collecting loop returns the matching entities, leaving out errors under a query and stopping at the first one without |
| EntityFilter.FilteredReadIsFilter | macros/src/entity/compose.rs:43-55 | Reading through a nested query is filtering the whole entity: every column matches, every queried child survives, every list keeps a child, and survivors carry the filtered children |
| EntityFilter.FilterSelects | macros/src/entity/compose.rs:43-55 | The filtering keeps an entity if and only if every column holds what is asked of it, every queried child is there and selected, and every list has a selected child; it trims the entity to these children |
| EntityFilter.StoredIsSelected | macros/src/entity/compose.rs:43-55 | What range reads see of a stored entity is found through a query if and only if it is selected in that sense, and comes trimmed |
| EntityFilter.ColumnSelects | redbit/src/rest.rs:98-110 | A stored entity with non-empty lists, asked for one column, is found as it is if and only if the value of the column stands to the operand as the operator says: equal, not equal, less, at most, greater, at least, or among the options |
| EntityFilter.FilteredReadAgrees | macros/src/entity/compose.rs:43-55 | For all tables: the filtered read is the filtering of the whole read, errors passed on, if and only if the whole read succeeds, or every field before the first broken one survives and that one is no queried list and, if it is a queried child, is there and agrees itself |
| EntityFilter.StoredThenFiltered | macros/src/entity/compose.rs:43-55 | A stored entity read through a query is the filtering of what range reads see of it, so of the entity itself if no list stands at a greatest index |
| EntityFilter.EmptyQuery | macros/src/relationship/init.rs:98-109 | A query that asks nothing drops an entity with an empty list and no other |
| EntityCommit.BrokenChildLeftOut | macros/src/entity/compose.rs:91-95 | In tables that a stopped delete of a root leaves, the whole read fails and the filtered read says that nothing matches |
| EntityDelete.Delete | macros/src/entity/delete.rs:14-18 | The generated delete of one pointer takes away its key, its row in every column and everything of its children, at any depth, and nothing else; it says true if and only if all of that was there, optional children not asked about |
| EntityDelete.DeleteMany | macros/src/entity/delete.rs:28-32 | The generated loops take away what stands at the pointers, key by key, row by row and child by child, and say true, for pointers that stand apart, if and only if all of it was there |
| EntityDelete.DeletesExactly | macros/src/relationship/delete.rs:31-49 | That effect and that condition, for all tables and any pointers that stand apart |
| EntityDelete.NotStoredSaysFalse | macros/src/entity/delete.rs:14-18 | Deleting pointers of which one is not stored says false |
| EntityDelete.DeleteUndoesStore | macros/src/relationship/delete.rs:31-49 | Deleting what was stored under fresh keys restores every table, also with pointers that were not stored, if and only if no list of the stored entities stands at a greatest index; otherwise children stay behind |
| EntityDelete.DeleteSaysTrue | macros/src/relationship/delete.rs:31-49 | A delete reports success if all its pointers were stored, also when it leaves children behind |
| EntityDelete.StoreThenDelete | macros/src/entity/delete.rs:14-18 | Storing an entity and deleting it says true in any case, and restores the tables if and only if no list of the entity stands at a greatest index |
| EntityDelete.DeleteFrame | macros/src/relationship/delete.rs:31-49 | Whatever the tables hold, a delete leaves the read of every entity that stands apart as it was |
| EntityCommit.NewRootReads | redbit/src/storage/table_writer_api.rs:117-120 | Wherever a transaction on roots stops between commits, a root that is new reads, whole or through any query, as before if its key is not there and as after if it is |
| EntityCommit.StoppedStoreReads | redbit/src/storage/table_writer.rs:127-129 | Wherever a store of new roots stops, each of them is absent or reads as a whole, and every entity that stands apart reads as before |
| EntityCommit.StoppedDeleteReads | redbit/src/storage/table_writer.rs:127-129 | Wherever a delete stops, a root reads as it did if and only if its key and every row and key of it are still there |
| EntityCommit.DeletedIsPart | macros/src/relationship/delete.rs:31-49 | A delete only takes away rows and keys |
| EntityCommit.StoppedBetweenCommits | macros/src/field_parser.rs:634-636 | Tables in which the root key and the key of its child are there and the column of the child is not arise from a stopped delete |

## Left out

- Writing sorted runs into database tables, rollbacks and durability: a table is a map, a flush hands over its rows.
- IndexShards.LookupRefines: speaks of the tables; IndexCache says when a cache in front of one answers the same, and the barrier program asks the tables.
- The writers without a deferred flush: in a commit that does not end they commit by themselves, so the deletes of the headers are taken to be done; the rest of such a commit is not modelled.
- Disconnected channels: every sender is connected, so sending does not fail; a destination that has flushed takes no further commands.
- The direct sorted write of the router (`redbit/src/storage/router.rs:123-135`) and deletes by a key partitioner: the first is the same bucketing, the second one shard's delete.
- Hooks under a one-to-one child: the generated `store` calls them as the last one for every instance, which is outside the block and transaction schema of the barrier.
- Tokio scheduling and shutdown: an arbitrary arrival order, an arbitrary stopping point and an arbitrary interleaving stand for them.
- Completeness of the pipeline: the processing stage drops its last partial buffer at the end of its input, so only the gap-free prefix of what reaches the sort stage is claimed.
- Pushes of equal pairs: if the pushed pairs cannot be told apart, `StableExactly` gives the sufficient half of its condition only, because which copy came first then does not show in the result.
- Moves per element in the merge buffer: the comment at `redbit/src/storage/sort_buffer.rs:8` bounds them by a logarithm, but the prepend path moves a whole run; merges and runs are bounded instead.
- Heap and stable sort of the standard library: functions with the library's specification, computed by insertion.
- Overflow checks: the next index wraps around as in a build without them, and a range whose bounds are out of order is empty; a build with them stops there instead. The height after the greatest 32-bit one is a precondition.
- ForkPersist.RunKeepsChain: assumes that every batch arrives well; LinkEachKeepsChain and StoredAsItComes say that a batch that does not leaves no chain after some block.
- Nodes whose answers lead back without end: the walk does not end on them, so they are a precondition.
- Error texts: a failed read names the field it failed at, also where the text of the code names the pointer only.
- EntityTree.Store: returns the new tables as values; the in-place change of table files behind shared contexts is not modelled.
- EntityTree.StoreMany: the narrowing of the last-call flag and the hook call are modelled in StoreMany.StoreBlocks for the block schema, not for every schema.
- EntityDelete.DeleteMany: works on values like the store.
- EntityTree.RoundTrip: columns of index and dictionary tables are maps from pointers; their reverse rows are modelled for one index table in IndexShards only.
- Network clients, the REST interface, configuration, logging, statistics, address codecs and block parsing: no exact specification or delegated to libraries.
- Size batching, retries, sample generators and streams of entities: easy next to the rest.
