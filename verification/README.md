# Verified model of the DataAgent key-value engine

The engine is a C++ key-value store: clients send text commands over a line protocol, every
session runs transactions, and the storage layer executes them optimistically (OCC).  A
transaction draws a start timestamp, copies rows under a per-row latch, and at commit sorts
its rows, latches them in order, re-checks their write timestamps, draws an end timestamp
while it still holds every latch, writes back and releases.

The project models the parts that are hard to get right and proves what they promise for
every input, every run and every interleaving.

| modules | what they model |
|---|---|
| `RowOrder`, `OccModel` | the engine as a small-step system: any number of transactions, every shared action one step, write-back in two halves |
| `OccSerial`, `OccStructure`, `OccVersions`, `OccPreserve`, `OccOps` | the serial reference, the invariants, and their preservation by every step |
| `OccTheorems`, `OccCauses`, `OccLostUpdate`, `OccProgress` | serializability, snapshot reads, timestamps, atomicity, when an access or a commit must succeed, lost updates, deadlock freedom |
| `OccMemory`, `OccRowApi`, `OccSort`, `OccTxnMan`, `OccEngine` | the same engine as imperative code (`Row_occ`, `txn_man`, `OptCC`) under arbitrary interference, tied step by step to the system above |
| `IndexConcurrent`, `IndexHash` | the chained hash index: latched inserters with latch-free readers, and the linked structure in place |
| `ArenaPool`, `ArenaUse`, `MemAlloc` | the thread-local arena allocator, how it uses its memory, and its thread table, with THREAD_ALLOC on |
| `RowLayout` | table schemas and rows as byte buffers |
| `LocalView`, `LocalTxn` | `Read` and `Write` inside one transaction, with hash collisions and C strings |
| `LineProtocol`, `Session`, `SessionText` | line reading, tokenizing, PUT parsing, the session state machine, and what clients say and hear |

## How the pieces connect

`OccMemory.Memory` is the shared memory as one thread sees it: between any two actions of
the thread, the other transactions take any steps the system allows.  Its validity says that
the trace so far is a run of the small-step system, so every theorem about runs applies to
whatever the imperative `TxnMan` code does (`OccEngine.EngineSerializable`).

Every lemma carries `{:induction false}`: inductive proofs are written out, none is found by
the verifier's automatic induction.

## Findings

- `txn_man::get_row` looks a row up in the access set by primary key alone
  (`Storage/System/txn.cpp:75-84`), while `validate` orders rows by table and primary key.
  Serializability therefore holds for all runs exactly when no two rows of the database share
  a primary key; `OccTheorems.SharedKeyBreaks` gives the failing run.
- A key of 128 bytes or more is stored cut, so it can be inserted but not read back, and keys
  with embedded NUL bytes that collide share a row.  `LocalView.LocalViewIff` says exactly
  which key sets are safe; NUL-free keys of at most 127 bytes always are.
- A PUT stores what follows the second space of the line, so a second blank before the key
  makes the key part of the value (`SessionText.ExtraSpaceShiftsValue`).
- An insert is visible to other transactions before it commits
  (`LocalView.InsertIsPublished`).
- Column offsets are 32-bit; fields tile the tuple exactly when the declared sizes add up
  below 2^32 (`RowLayout.LayoutTilesIff`).

## Model

| member | source | states |
|---|---|---|
| `OccTheorems.Serializable` | Storage/concurrency_control/occ.cpp:29-69 | in every run over rows with distinct primary keys, replaying the committed transactions one after another in end timestamp order gives every recorded read the value it saw, and every row no committer is writing holds the replay's final value |
| `OccTheorems.SerializableIffUniqueKeys` | Storage/System/txn.cpp:73-105 | all runs on a database are serializable if and only if no two of its rows share a primary key |
| `OccTheorems.SharedKeyBreaks` | Storage/System/txn.cpp:75-84 | for any two rows with one primary key, a concrete run whose commit is not serializable |
| `OccTheorems.SnapshotForEveryone` | Storage/concurrency_control/occ_row.cpp:21-36 | every transaction, even one that aborts, first copies of each row exactly the version made by the commits that ended before it started; with distinct primary keys all its reads come from that snapshot plus its own writes |
| `OccTheorems.BeginSeesAllCommits` | Server/kv_api.cpp:120-131 | a transaction that begins now has every commit so far in its snapshot |
| `OccTheorems.StampIsNewer` | Storage/concurrency_control/occ_row.cpp:47-53 | the assertion that a stamp is newer than the row's write timestamp holds in every run |
| `OccTheorems.OnlyCommittersWrite` | Storage/concurrency_control/occ_row.cpp:47-53 | a step changes a shared row only for a committer that holds its latch, only to the committer's local copy and end timestamp, and write timestamps never go back |
| `OccTheorems.AllOrNothing` | Storage/System/txn.cpp:195-232 | a transaction is in the history exactly when it committed, with exactly its WR-marked rows, and once its write-back is over none of those writes is missing |
| `OccCauses.AccessIff` | Storage/concurrency_control/occ_row.cpp:21-36 | in every run, a first access is let through if and only if no commit that ended after the transaction began has written the row, and then it copies the version at the start timestamp |
| `OccCauses.CheckIff` | Storage/concurrency_control/occ_row.cpp:42-45 | in every run, validating a row fails if and only if a commit that ended after the transaction began has written it |
| `OccCauses.CommitsUnlessOvertaken` | Storage/concurrency_control/occ.cpp:44-63 | in every run, a transaction whose validation failed was overtaken on one of its rows, and no commit was overtaken on any of its rows before its own place in the history |
| `OccVersions.CopyIsSnapshot` | Storage/concurrency_control/occ_row.cpp:21-36 | a copy let through by the timestamp comparison is the version at the start timestamp |
| `OccStructure.StepStructure` | Storage/concurrency_control/occ.cpp:44-66 | every step keeps latches and holders in one-to-one agreement, commit orders strictly sorted and access sets indexed exactly by primary key |
| `OccPreserve.StepInv` | Storage/concurrency_control/occ.cpp:29-69 | every step of every transaction keeps the whole invariant: unique timestamps below the counter, validated rows unchanged under their latch, each row tagged with the version it holds |
| `OccPreserve.ReachableInv` | Storage/concurrency_control/occ.cpp:29-69 | the invariant holds in every reachable state |
| `OccOps.ReachableOps` | Storage/System/txn.cpp:73-105 | with distinct primary keys, every transaction's operations run alone on its first copies return what it saw and end in its local copies |
| `OccLostUpdate.NoLostUpdates` | Storage/concurrency_control/occ.cpp:44-68 | when every committed writer of a row reads it and writes f of what it read, the row ends as f applied once per such commit, for every f and every run |
| `OccLostUpdate.CountersAddUp` | db_test.py:333-356 | with increments, the final value is the initial value plus the number of committed increments |
| `OccProgress.WaitsClimb` | Storage/concurrency_control/occ.cpp:32-52 | along the waits-for relation the wanted rows strictly increase in (table, primary key) order |
| `OccProgress.NoWaitCycle` | Storage/concurrency_control/occ.cpp:32-52 | the waits-for relation has no cycle in any reachable state |
| `OccProgress.DeadlockFree` | Storage/concurrency_control/occ.cpp:44-66 | while any transaction is inside an engine call, some such transaction can take its next step |
| `OccProgress.LatchComesFree` | Storage/concurrency_control/occ_row.cpp:38-40 | a transaction waiting for a latch gets it free without any step of its own |
| `OccProgress.Quiesce` | Storage/concurrency_control/occ.cpp:44-66 | from every reachable state, engine steps alone lead to one where every call has returned and no latch is held |
| `RowOrder.BeforeMeans` | Storage/concurrency_control/occ.cpp:34-36 | rows are ordered by table name as in a dictionary, then by primary key |
| `RowOrder.BeforeTransitive` | Storage/concurrency_control/occ.cpp:34-36 | the order of the sort is transitive (with irreflexivity and totality: a strict total order on rows) |
| `RowOrder.BeforeTotal` | Storage/concurrency_control/occ.cpp:34-36 | two different rows are always ordered one way |
| `OccRowApi.AccessRow` | Storage/concurrency_control/occ_row.cpp:21-36 | under interference, the row is refused only when a commit newer than the start has written it, and always when one had before the call; a refusal changes nothing for the transaction, otherwise the copy is the row's version at the start timestamp |
| `OccRowApi.LatchRow` | Storage/concurrency_control/occ_row.cpp:38-40 | waits until the row is free and takes it |
| `OccRowApi.ValidateRow` | Storage/concurrency_control/occ_row.cpp:42-45 | true exactly when the row's write timestamp is not newer than the start timestamp |
| `OccRowApi.GetEndTs` | Storage/System/manager.cpp:28-34 | draws a timestamp at least the counter seen before and leaves the counter one above it |
| `OccRowApi.WriteRow` | Storage/concurrency_control/occ_row.cpp:47-53 | the row ends with the written data and the end timestamp, whatever happens in between its two halves |
| `OccRowApi.ReleaseRow` | Storage/concurrency_control/occ_row.cpp:55-57 | the row's latch is free afterwards |
| `OccSort.Sort` | Storage/concurrency_control/occ.cpp:32-42 | the bubble sort leaves a permutation of the slots in ascending row order and the rest of the array alone |
| `OccTxnMan.TxnMan.constructor` | Storage/System/txn.cpp:21-37 | a new transaction has an empty access set and a start timestamp drawn from the counter |
| `OccTxnMan.TxnMan.GetRow` | Storage/System/txn.cpp:73-105 | a recorded primary key is answered from its slot, marked WR on demand, and never refused; a new one is copied into the next slot, or refused for the same cause as `AccessRow`; slots, `record_pos`, `wr_cnt` and the allocated prefix stay exact |
| `OccTxnMan.TxnMan.ReadValue` | Storage/System/txn.cpp:122-136 | a recorded row gives its local copy, a new one its version at the start timestamp, and the read is recorded with the value returned; only a new row overtaken by a newer commit is refused |
| `OccTxnMan.TxnMan.WriteValue` | Storage/System/txn.cpp:178-192 | a successful write is recorded, marks its row WR and changes only that local copy; only a new row overtaken by a newer commit is refused |
| `OccTxnMan.TxnMan.SortSlots` | Storage/concurrency_control/occ.cpp:32-42 | the sorted slots list the access set in strictly ascending order, so each row is latched at most once |
| `OccTxnMan.TxnMan.LatchAll` | Storage/concurrency_control/occ.cpp:44-52 | latches rows in order and stops at the first that fails validation, with `lock_cnt` counting exactly those taken |
| `OccTxnMan.TxnMan.Cleanup` | Storage/System/txn.cpp:209-232 | on commit the WR rows are written back last to first; on abort shared memory is untouched; either way the local copies are dropped and the access set is empty |
| `OccTxnMan.TxnMan.ReleaseAll` | Storage/concurrency_control/occ.cpp:65-66 | releases exactly the latches taken |
| `OccTxnMan.TxnMan.Validate` | Storage/concurrency_control/occ.cpp:29-69 | under any interference the transaction ends holding no latch, its access set unchanged in between; it aborts only when a commit newer than its start has written one of its rows, and when it commits no such commit precedes it in the history |
| `OccTxnMan.TxnMan.Abort` | Storage/System/txn.cpp:195-201 | a user abort changes no shared row, latch or commit |
| `OccTxnMan.TxnMan.GetRwSet` | Storage/concurrency_control/occ.cpp:71-92 | splits the access set by mark, in slot order, with both size assertions true |
| `OccTxnMan.TestValid` | Storage/concurrency_control/occ.cpp:94-102 | true exactly when the two row sets are disjoint |
| `OccEngine.EngineSerializable` | Storage/concurrency_control/occ.cpp:29-69 | whatever the imperative code and interference did, the memory's commits are serializable and every unlatched row holds the replay's value |
| `OccEngine.FinishedFate` | Storage/System/txn.cpp:195-201 | a finished transaction committed exactly the operations it completed, or appears nowhere in the history |
| `OccEngine.UpdateRow` | Server/kv_api.cpp:120-180 | a client's start, read, write, commit commits one read-modify-write of the row, or leaves no commit and was overtaken by another commit to that row |
| `IndexConcurrent.StepInv` | Storage/DataFormat/index_hash.cpp:52-161 | every step of every reader and inserter keeps the buckets equal to the multimap of the events so far |
| `IndexConcurrent.Linearizable` | Storage/DataFormat/index_hash.cpp:52-161 | in every interleaving the event log is a correct sequential history of a multimap, and each finished operation has its event in it |
| `IndexConcurrent.ReturnsAnswerTheCall` | Storage/DataFormat/index_hash.cpp:52-161 | in every run, what a thread is about to return answers the arguments of its latest call: the event for exactly those arguments lies between the state of the call and now, and a lookup returns the item inserted last under that key at that moment, or nothing if there was none |
| `IndexConcurrent.EveryCallTakesEffectOnce` | Storage/DataFormat/index_hash.cpp:52-161 | calls made, events logged and calls still pending balance: each operation takes effect once and nothing else does |
| `IndexConcurrent.LookupIsLastInsert` | Storage/DataFormat/index_hash.cpp:116-131 | looking a key up in the multimap of a log gives the item inserted last under it |
| `IndexConcurrent.WaitsForAMover` | Storage/DataFormat/index_hash.cpp:40-49 | an inserter that cannot take its latch waits for another inserter that can take its next step |
| `IndexConcurrent.PresentKeysAreFound` | Storage/DataFormat/index_hash.cpp:82-161 | a latch-free lookup finds every key present when it was called; what it returns was the front item (or the absence) at the moment of its event |
| `IndexConcurrent.OnlyLatchesBlock` | Storage/DataFormat/index_hash.cpp:104-161 | readers and inserters past their latch never wait and never follow a link to a node that does not exist |
| `IndexHash.HashIndex.constructor` | Storage/DataFormat/index_hash.cpp:7-17 | an index with no key and no latch held |
| `IndexHash.HashIndex.IndexInsert` | Storage/DataFormat/index_hash.cpp:52-66 | the item becomes the newest of its key, all else unchanged, one node per key in the bucket its hash names |
| `IndexHash.HashIndex.InsertItem` | Storage/DataFormat/index_hash.cpp:104-132 | the same for the walk and both branches on the linked nodes |
| `IndexHash.HashIndex.IndexRead` | Storage/DataFormat/index_hash.cpp:82-94 | returns the item of the last insert under the key, or none when there was none |
| `IndexHash.NewestIsLastInsert` | Storage/DataFormat/index_hash.cpp:116-131 | the front item of a key is the one inserted last under it |
| `IndexHash.ReadItem` | Storage/DataFormat/index_hash.cpp:146-161 | the first node of the chain with the key, or none after passing them all |
| `IndexHash.WalkAnswers` | Storage/DataFormat/index_hash.cpp:146-161 | what a walk meets decides membership in the multimap |
| `IndexHash.StoresAppend` | Storage/DataFormat/index_hash.cpp:116-127 | appending a node for a new key refines inserting into the multimap |
| `IndexHash.StoresPush` | Storage/DataFormat/index_hash.cpp:128-131 | replacing the front item of a node refines inserting under an existing key |
| `ArenaPool.PoolNeverOverlaps` | Storage/System/mem_alloc.cpp:32-58 | after any allocations and frees by any threads, live payloads are pairwise disjoint, inside an obtained buffer and as large as their class; live and free blocks partition the carved ones; every free block waits in an arena of its own class |
| `ArenaUse.BuffersAreUsedUp` | Storage/System/mem_alloc.cpp:37-45 | in every run each buffer is cut into blocks from its start, and what is left at its end is the tail some arena is still carving or too short for another block |
| `ArenaUse.AllocUndoesFree` | Storage/System/mem_alloc.cpp:46-58 | in every run, the next allocation in the arena a block was freed to hands out that block, with live blocks, free lists, carved blocks and buffers as before the free |
| `ArenaPool.CarveInv` | Storage/System/mem_alloc.cpp:32-51 | carving a block keeps the invariant and hands out an address never carved before |
| `ArenaPool.TakeInv` | Storage/System/mem_alloc.cpp:46-49 | taking the head of a free list keeps the invariant |
| `ArenaPool.GiveInv` | Storage/System/mem_alloc.cpp:53-58 | pushing a live block of the arena's class keeps the invariant |
| `MemAlloc.Allocator.constructor` | Storage/System/mem_alloc.cpp:8-21 | an empty thread table of four slots per thread and one more, and an empty pool |
| `MemAlloc.Allocator.RegisterThread` | Storage/System/mem_alloc.cpp:74-87 | the table maps the new id to its arena and every other id as before; the probing ends because a slot is spare |
| `MemAlloc.Allocator.Unregister` | Storage/System/mem_alloc.cpp:89-98 | no thread is registered any more |
| `MemAlloc.Allocator.GetArenaId` | Storage/System/mem_alloc.cpp:100-112 | a registered id finds its own arena, any other id arena 0; the probing ends |
| `MemAlloc.FillSlot` | Storage/System/mem_alloc.cpp:78-84 | filling the first empty slot on the probe path refines a map update |
| `MemAlloc.EmptyMeansAbsent` | Storage/System/mem_alloc.cpp:104-109 | meeting an empty slot before the id means the id is not registered |
| `MemAlloc.Allocator.GetSizeId` | Storage/System/mem_alloc.cpp:114-122 | the smallest class that fits |
| `MemAlloc.Allocator.Alloc` | Storage/System/mem_alloc.cpp:142-154 | sizes over 1024 go to malloc; otherwise the calling thread's arena of the smallest class that fits serves the block freed there last, or a newly carved one, obtaining a buffer only when too little is left |
| `MemAlloc.Allocator.ArenaAlloc` | Storage/System/mem_alloc.cpp:32-51 | serves the head of the arena's free list, or a new block of its class when the list is empty |
| `MemAlloc.Allocator.Free` | Storage/System/mem_alloc.cpp:125-136 | the block is no longer live and heads the free list of the calling thread's arena of the block's own class |
| `MemAlloc.FreedIsNextServed` | Storage/System/mem_alloc.cpp:46-58 | a freed block is the next one served from that arena, and then the pool is as before |
| `RowLayout.LayoutTilesIff` | Storage/DataFormat/catalog.cpp:19-27 | the fields have their declared sizes and tile the tuple without overlap or gap if and only if the sizes add up below 2^32 |
| `RowLayout.LayoutKeeps` | Storage/DataFormat/catalog.cpp:19-27 | each column keeps its name, type and position among the columns, and its size modulo 2^32 |
| `RowLayout.PatchField` | Storage/DataFormat/row.cpp:59-68 | bytes written to a field read back and every other field is as before |
| `RowLayout.FieldsDetermineRow` | Storage/DataFormat/row.cpp:105-111 | rows that agree on every field are equal byte for byte |
| `RowLayout.Catalog.constructor` | Storage/DataFormat/catalog.cpp:11-17 | a schema with no column yet |
| `RowLayout.Catalog.AddCol` | Storage/DataFormat/catalog.cpp:19-27 | the column is appended with the next id, at the running 32-bit offset |
| `RowLayout.Catalog.GetFieldId` | Storage/DataFormat/catalog.cpp:29-37 | the first column of that name |
| `RowLayout.Row.SetValue` | Storage/DataFormat/row.cpp:59-63 | the whole field holds the given bytes, every other field is unchanged |
| `RowLayout.Row.SetValueSized` | Storage/DataFormat/row.cpp:65-68 | a prefix of the field is replaced, the rest of it and every other field unchanged |
| `RowLayout.Row.SetNamed` | Storage/DataFormat/row.cpp:70-73 | the same for the first column of a name |
| `RowLayout.Row.GetValue` | Storage/DataFormat/row.cpp:93-96 | the position where the bytes of the field start |
| `RowLayout.Row.CopyRow` | Storage/DataFormat/row.cpp:105-111 | every field equals the source row's, which keeps its own |
| `LocalView.LocalViewIff` | Storage/System/txn.cpp:112-193 | for every hash function: in all runs on a set of keys, reads repeat, see the transaction's own writes (cut to 1023 bytes) and are never changed by a colliding key, if and only if the keys fit their buffer and colliding keys differ as C strings |
| `LocalView.NulFreeKeysFit` | Storage/System/txn.cpp:152-155 | NUL-free keys of at most 127 bytes always qualify |
| `LocalView.LocalViewAnswers` | Storage/System/txn.cpp:112-193 | on such keys every call answers as the transaction's earlier successful calls say, whatever happens to the shared store in between |
| `LocalView.LocalCopiesOverlay` | Storage/System/txn.cpp:73-105 | in every run on any keys, the local copies are the first copies overlaid with the successful writes, unmarked rows are unchanged, and buffers stay terminated |
| `LocalView.EveryAnswer` | Storage/System/txn.cpp:73-193 | in every run on any keys, the stores the calls met determine each answer: the first copy of a row is the stored row at its first access (refused when newer than the start) or the row inserted, every read returns it overlaid with the transaction's writes, and exactly the rows written to are marked WR |
| `LocalView.FirstOfferIs` | Storage/System/txn.cpp:92-104 | the row first offered is that of the earliest call on its hash that could copy one |
| `LocalView.FirstRead` | Storage/System/txn.cpp:118-136 | the first read of an indexed row returns the stored value exactly when the stored key matches and the row is not newer than the transaction |
| `LocalView.InsertIsPublished` | Storage/System/txn.cpp:146-176 | an insert is visible to every other transaction at once, before its own commits, and touches no other key |
| `LocalView.UpdateStaysLocal` | Storage/System/txn.cpp:178-192 | reads and updates leave the shared store as it was |
| `LocalView.PerformEffect` | Storage/System/txn.cpp:122-136 | a call touches only the row its key hashes to; on a recorded row it succeeds exactly when the row carries its key |
| `LocalView.SuccessKnown` | Storage/System/txn.cpp:127-136 | a successful call on a key that fits leaves its row recorded under exactly that key, with the value read or written: a collision never yields another key's value |
| `LocalView.BufferHolds` | Storage/System/txn.cpp:152-155 | a string copied into a zeroed buffer reads back cut at its first NUL and at the buffer size less one |
| `LocalView.LongKeyForgotten` | Storage/System/txn.cpp:152-163 | an inserted key of 128 bytes or more is not found again |
| `LocalView.TwinKeysMix` | Storage/System/txn.cpp:185-190 | two colliding keys equal as C strings overwrite each other |
| `LocalTxn.TxnView.Read` | Storage/System/txn.cpp:112-137 | under any change of the store since the last call, returns the answer the stores met so far determine; a row read for the first time gives the stored value exactly when its key matches and it is not newer than the start |
| `LocalTxn.TxnView.Write` | Storage/System/txn.cpp:139-193 | succeeds as the stores met so far determine; then the local copy holds the value cut to 1023 bytes, and the store changes only by an insert |
| `LineProtocol.ReadLine` | Server/server.cpp:46-64 | the next line without carriage returns and the position after it; fails exactly when the stream ends first or the line is over 64 KiB |
| `LineProtocol.SplitWs` | Server/session.cpp:17-23 | the words of the line |
| `LineProtocol.SplitSpelling` | Server/session.cpp:17-23 | splitting recovers the words of any line spelled from words and blank gaps |
| `LineProtocol.EveryLineIsSpelled` | Server/session.cpp:17-23 | every line is such a spelling of its words: nothing but blanks is dropped |
| `LineProtocol.PutRoundTripIff` | Server/session.cpp:92-99 | a PUT that is sent comes out with exactly its key and value, and the stream goes on right after it, if and only if the key is a word and the value has no line break, is not blank and fits the line limit |
| `LineProtocol.PutCrLfRoundTripIff` | Server/server.cpp:57-62 | the same with lines ended by CR LF |
| `LineProtocol.StripLast` | Server/server.cpp:61 | every character but a carriage return is kept, in order |
| `Session.Lifecycle` | Server/session.cpp:34-134 | for everything a client can send and the engine can answer, each transaction begun is finished exactly once and in order, ids increase, data calls go to the open transaction and no call hits a null handle |
| `Session.OneReplyPerLine` | Server/session.cpp:40-133 | every line served gets exactly one reply |
| `Session.TrackBalances` | Server/kv_api.cpp:120-180 | calls in good order begin and finish the same ids in the same order |
| `Session.KvApi.BeginTxn` | Server/kv_api.cpp:120-131 | always succeeds, with a fresh context and an id above all earlier ones |
| `Session.KvApi.Get` | Server/kv_api.cpp:133-141 | OK with the value or NOT_FOUND, ERROR only on a null handle |
| `Session.KvApi.Put` | Server/kv_api.cpp:143-151 | OK or ERROR as the write goes, ERROR on a null handle |
| `Session.KvApi.Commit` | Server/kv_api.cpp:153-167 | the handle is null afterwards; OK or ABORT as validation goes |
| `Session.KvApi.AbortTxn` | Server/kv_api.cpp:169-180 | the handle is null afterwards |
| `Session.ServeLine` | Server/session.cpp:52-132 | reply, engine calls and next state of every command in every state; the flag agrees with the handle |
| `SessionText.CommandIff` | Server/session.cpp:58-131 | the first word of a line, in any letter case and with any blanks around it, decides the command |
| `SessionText.StartTurn` | Server/session.cpp:60-71 | a line spelling START begins one transaction, whose id the client hears, unless one is open |
| `SessionText.GetTurn` | Server/session.cpp:72-86 | a line spelling GET and one key asks the engine for that key in the open transaction, and the client hears the value found or that there is none |
| `SessionText.PutTurn` | Server/session.cpp:87-104 | a line spelling PUT stores what follows its second space under its second word, and the client hears whether it was stored |
| `SessionText.PutKeyValue` | Server/session.cpp:96-101 | PUT with single spaces, in any letter case, stores exactly the key and value that were sent |
| `SessionText.CommitTurn` | Server/session.cpp:105-114 | a line spelling COMMIT commits the open transaction, closes it, and the client hears the verdict |
| `SessionText.AbortTurn` | Server/session.cpp:115-122 | a line spelling ABORT aborts the open transaction and closes it |
| `SessionText.QuitLine` | Server/session.cpp:123-129 | END, QUIT or EXIT aborts what is open, answers BYE, and nothing after it is served |
| `SessionText.UnknownTurn` | Server/session.cpp:130-132 | any other first word makes no engine call |
| `SessionText.HearBegan` | Server/session.cpp:68 | a client recovers the transaction id from the reply |
| `SessionText.HearValue` | Server/session.cpp:83 | a client recovers the value from the reply, whatever it contains |
| `SessionText.NumberOfDecimal` | Server/session.cpp:68 | decimal digits spell the number they were made from |
| `SessionText.PutScript` | Server/session.cpp:40-134 | start, put, commit as text: one transaction stores exactly that key and value and commits, and the client hears id, put and verdict |
| `Session.HandleClient` | Server/session.cpp:34-134 | the whole session: welcome plus one reply per line, the specified calls, and an idle handle at the end |

## Left out

- The INSERT branch of `Write` in the OCC theorems: it publishes its row in the index before validation, and an aborted insert leaves an item pointing at a freed row. Inserts are in the index and local-view models; the local view assumes that no aborted insert left such an item.
- Rows are named by (table, primary key) in the OCC model, and `Row_occ` and `row_t` are one versioned row there; row bytes are in `RowLayout`, so a row copy is one step and a torn copy under the latch is not represented.
- OccTxnMan.TxnMan.GetRow: requires fewer than MAX_ROW_PER_TXN recorded rows for a new row, because the source writes past its array otherwise; the limit on inserts is not part of `LocalView`.
- Memory is sequentially consistent and a latch that others free is eventually granted; pthread internals and compiler memory-model effects are not modelled.
- Timestamps and ids are unbounded; wrap-around of the 64-bit counters is not modelled. Batched timestamps are off in the source and not modelled.
- IndexHash.HashIndex.IndexRead: items are identities; the list behind the front item is not stored in the nodes (the source leaves the last `next` unset), only in the specification. There is one partition; `node_cnt` is never maintained by the source.
- MemAlloc.Allocator.Alloc: a size over 1024 is reported as left to malloc, and the path with the pool switched off is not modelled; malloc returns buffers apart from those it returned before.
- MemAlloc.Allocator.RegisterThread: for new non-zero ids with a slot to spare; in a full table the source probes forever. Pool calls are taken one at a time, so races of unregistered threads on arena 0 are not represented; arenas are records inside the pool value.
- RowLayout.Row.SetValueSized: for sizes within the field; a larger size overwrites the next field. The typed getters and setters are not modelled.
- LocalTxn.TxnView.Read: the access set is the map from primary key to local copy; slots and `record_pos` are in `OccTxnMan`.
- Session.HandleClient: storage outcomes are inputs; sockets, interrupted system calls, failed sends, the accept loop and threads are left out.
- File loading, schema parsing, table and workload set-up, statistics, clocks, `merge_idx_key` and `myrand`, and the Python agent and test clients would only add easy members.
