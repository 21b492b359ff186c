# TellStore: models and proofs

TellStore is a multi-version key/value store with two storage engines, a lock-free index, an ordered log and a query
compiler.  This project models its concurrent protocols, its version handling, its garbage collectors and its scan
compiler in Dafny 4.11 and proves what they are for.  `dafny verify dfyconfig.toml` checks everything.

| file | part of the system |
|---|---|
| `OpenAddressing.dfy`, `HashAnswers.dfy`, `HashProgress.dfy` | the lock-free hash table: one atomic access per step, any number of threads; what its operations answer, and that they end |
| `VersionChain.dfy` | the version list of a key in the log-structured store, one compare-and-swap per step |
| `VersionWrites.dfy`, `VersionChecks.dfy` | what a transaction finds of its own writes and reverts, and what its writes succeed on |
| `VersionLookup.dfy` | a lookup in that list whose steps interleave with all others |
| `DeltaMain.dfy` | the update log of the delta-main store: iterator, lookups, write checks, reverts |
| `RowStoreGc.dfy` | collection of row-store records |
| `Relocation.dfy` | moving a record to a new place while writers are at work, as a transition system |
| `RowStoreScan.dfy` | the row-store scan with its version intervals |
| `ScanCompiler.dfy` | parsing a batch of queries, the row program |
| `ColumnScan.dfy` | the column program with vector and scalar loops on a flat result array |
| `Aggregation.dfy` | vectorised aggregation of integer columns |
| `ColumnPage.dfy` | column pages: gathering, heap offset correction, materialisation, capacity |
| `OrderedLog.dfy`, `LogProgress.dfy` | log pages and the sealed head under concurrency; progress of a thread that goes on alone |
| `CuckooTable.dfy`, `CuckooModifier.dfy` | the copy-on-write cuckoo hash table |
| `RecordLayout.dfy` | schemas and row records |
| `SchemaFormat.dfy` | the serialised form of a schema |
| `Common.dfy` | types shared by the models |

Code that shares memory between threads is a transition system: a step is one atomic load, store or compare-and-swap
together with the thread-local decisions up to the next access, and a theorem speaks about every state of every run.
Code that runs on its own is imperative, with loops where the source loops and classes where the source has objects with
fields, and every method is proved against a function of its inputs or of the old state.

What is assumed: sequential consistency; memory that an epoch protects is not reused; snapshots are read sets with no
version above their own (`sees(v, u)`: version u is in the read set of version v), transitive where a theorem says so;
a transaction reverts only its own version and only while it is running; versions up to the lowest active one are never
written or reverted any more; under an epoch a pointer in the hash table belongs to one key and one residency and is
inserted once.

## Findings

Properties that one would expect and that the code does not have.  Each comes with its failing inputs and with a statement
of exactly when the code is right.

* **Row-store collection and reverts.** The early return of `collect` takes a revert at or below `minVersion` for an
  element already collected and drops the tuple below it; an insert record that only a revert hides is collected as if it
  were visible.  Failing: `RowStoreGc.RevertLosesKey`, `RowStoreGc.RevertedInsertComesBack`; exactly:
  `RowStoreGc.FaithfulExactly`.
* **Collection keeps deletions.** The code asserts that the oldest element of a rewritten record is a tuple, but it drops
  one trailing deletion only, and there are two if a transaction has inserted a deleted key and deleted it again.  Failing:
  `RowStoreGc.DeletionIsKept`; exactly: `RowStoreGc.OldestIsTuple`.
* **Writes below a reverted base version.** After the newest element of a base record has been reverted, a write of a
  lower version is accepted (the assertion against it is off in release builds).  The operation that follows cuts it off:
  the reverted element comes back, or the write is lost, for insert records and for main records with several elements,
  and also if the write has been reverted itself.  Failing: `DeltaMain.BaseComesBack`,
  `DeltaMain.NewestElementComesBack`, `DeltaMain.WriteUnderBaseIsLost`, `DeltaMain.RevertedWriteUnderBase`; exactly:
  `DeltaMain.RightStepExactly` for one more operation and `DeltaMain.RightExactly` for all accepted histories.
* **Scans need transitive read sets.** Otherwise the interval test can admit two versions of a key.  Failing:
  `RowStoreScan.TransitivityIsNeeded`; exactly: `RowStoreScan.AdmittedExactly`.
* **The sealed head can get stuck.** After the sealed head has been moved to the end of a closed page, the check for a new
  next page returns without moving it if the first entry there is not sealed yet (`util/Log.cpp:441-451`), and the thread
  that seals this entry does not find the sealed head there.  An append that acquires its slot and loses it to the closing
  of the page (`util/Log.cpp:94-101`) leaves an unsealed word at the end of the page that holds the sealed head there, too.
  Nothing moves it later (`OrderedLog.StuckForGood`); safety is not affected.  Failing: `OrderedLog.HeadGetsStuck`,
  `OrderedLog.LostSlotStops`; exactly: `OrderedLog.RestsExactly`.
* **Column scans need registers of 128 bits.** A pass over single elements leaves null pointers behind, and `buildQuery`,
  other than the code for fields and merges, makes a second pass after it (`deltamain/colstore/LLVMColumnMapScan.cpp:613-621`).
  Failing: every register of 64 to 127 bits; exactly: `ColumnScan.BuildColumnScan`, which also says that the program is
  right whenever there is one.
* **A rehash never grows the table.** It is meant to double the pages above a usage of 80 percent and to halve them below 20
  (`util/CuckooHash.cpp:245-250`); the thresholds are 125 and 500 percent, so a table of more than three pages always
  shrinks.  Failing: `CuckooTable.FullTableShrinks`; exactly: `CuckooTable.NeverGrows`, `CuckooTable.IntendedExactly`.
* **The size counter of the cuckoo table.** A rehash inserts every entry again and each insertion counts
  (`util/CuckooHash.cpp:190-191`).  The size is right after an insertion if and only if it did not rehash; a rehash adds at
  least the number of entries (`CuckooModifier.Modifier.Insert`, `CuckooModifier.Modifier.Rehash`).
* **Schemas with large indexes.** The counts of indexes and of their fields and the lengths of their names are written with
  16 bits and not checked.  Failing: `SchemaFormat.LongIndexIsLost`; exactly: `SchemaFormat.RoundTripExactly`.

Three things are modelled as the code has them although comments say otherwise: `insert` of the cuckoo table returns true
when it inserted or replaced, not when the key existed (`util/CuckooHash.hpp:141-142`); the offset of a heap entry counts
from the start of the page (`deltamain/colstore/ColumnMapPage.hpp:74`); `internalRevert` reports a base record without need
for a revert as "not handled" and the search goes on in the next table (`deltamain/Table.cpp:402-404`).

## Model

| member | source | states |
|---|---|---|
| OpenAddressing.LinearProbing | util/OpenAddressingHash.cpp:75-77 | positions hash + offset modulo the capacity visit every bucket at most once, for every hash function |
| OpenAddressing.WordTests | util/OpenAddressingHash.hpp:149-174 | the mask tests on the pointer word tell free, deleted, invalid, inserting and live buckets apart, and masking gives back the pointer |
| OpenAddressing.NextKeepsInv | util/OpenAddressingHash.cpp:71-346 | every atomic access of insert, update, erase and get keeps the invariant on claims, rival inserts and overflow chains |
| OpenAddressing.AtMostOneLiveBucket | util/OpenAddressingHash.cpp:71-122 | in every state of every run at most one bucket holds an unmarked pointer for a table and key |
| OpenAddressing.ScanEndsBehindOwn | util/OpenAddressingHash.cpp:219-223 | the conflict scan meets a free bucket only behind its own bucket (asserted in the code) |
| OpenAddressing.LookupMissesNoKey | util/OpenAddressingHash.cpp:304-346 | a get that finds nothing for a key that was live when it was called overlapped the erase of that residency |
| OpenAddressing.SearchMissesNoKey | util/OpenAddressingHash.cpp:304-346 | the same at the step in which the search of a get, update or erase gives up |
| HashAnswers.AnswersAreTrue | util/OpenAddressingHash.cpp:71-211 | in every run every answer is decided by one access of its operation: an insert answers true if and only if that access makes a bucket of its key live with its data, an update if and only if it exchanges the expected pointer, an erase if and only if it takes it away or its search has ended, a get if and only if it has a pointer |
| HashAnswers.RivalIsHanded | util/OpenAddressingHash.cpp:163-198 | a failed insert, update or erase that leaves a bucket with the live pointer of its key hands out this pointer |
| HashProgress.EndsAlone | util/OpenAddressingHash.cpp:71-346 | from every state that any others have left behind an operation that goes on alone returns, after a number of accesses linear in the capacity |
| HashProgress.FrontInsertWins | util/OpenAddressingHash.cpp:258-277 | of two concurrent inserts of a key the one in the bucket in front wins |
| OpenAddressing.NextKeepsInv2 | util/OpenAddressingHash.cpp:163-198 | under the terms of use in the header (unique pointers, epochs) what a thread has read of a bucket stays consistent with its pointer |
| OpenAddressing.NextKeepsInv3 | util/OpenAddressingHash.cpp:225-293 | what a conflict scan has read next to a pointer with the inserting marker is the key of that pointer while the insert is in progress |
| OpenAddressing.ReturnedPointerIsLive | util/OpenAddressingHash.cpp:225-300 | a pointer handed to a caller, by get or as the rival of a failed insert, update or erase, was the live pointer of the caller's key at the second pointer load, or at the failed swap that was to invalidate the rival |
| OpenAddressing.SwapHitsOwnKey | util/OpenAddressingHash.cpp:124-155 | every successful update or erase changes the one bucket with its own key, and after an erase no bucket has it |
| VersionChain.Get | logstructured/Table.hpp:191-213 | the lookup loop over the raw list computes the read of the list of valid records, with error code and newest flag |
| VersionChain.ReadIsFirst | logstructured/Table.hpp:191-213 | the first version that the snapshot reads decides the lookup; the error code and the flag say whether it was the newest |
| VersionChain.NextKeepsInv | logstructured/VersionRecordIterator.cpp:91-264 | every compare-and-swap of writers, reverts, clean-up and garbage collection keeps the invariant of the list |
| VersionChain.StepList | logstructured/VersionRecordIterator.cpp:91-149 | the effect of each step on the list of valid records: push, rename, pop, cut or none |
| VersionChain.WalkIsSorted | logstructured/VersionRecordIterator.cpp:202-264 | in every reachable state the walk ends, valid versions strictly decrease, raw versions never increase |
| VersionChain.RecordsPersist | logstructured/ChainedVersionRecord.hpp:122-215 | records are never rewritten, and an invalid record never changes again |
| VersionChain.OnlyInvalidationUnlinks | logstructured/VersionRecordIterator.cpp:91-131 | a valid record leaves the list only by its own invalidation or a truncation above it |
| VersionChain.NoLostUpdate | logstructured/Table.cpp:128-182 | in every run every version sits directly above one in its writer's read set |
| VersionChain.WritersSeeEachOther | logstructured/Table.cpp:235-298 | of two versions on a list the newer one's writer had the older in its read set, so transactions that do not see each other never both write a key |
| VersionChain.OwnIsNewest | logstructured/Table.cpp:192-225 | the valid record a running transaction wrote is the first of the list |
| VersionChain.ExpiredIsShadowed | logstructured/GcScanProcessor.cpp:134-143 | an expired record that is invalidated lies below a record every snapshot reads |
| VersionChain.MaintenanceKeepsLookup | logstructured/GcScanProcessor.cpp:126-158 | no step of the garbage collection or of clean-up changes a lookup by a snapshot that reads all versions up to the minimum, including the error code |
| VersionChain.ForeignWriteIsInvisible | logstructured/Table.cpp:184-225 | a write or revert is invisible to snapshots without the writer's version |
| VersionChain.SnapshotIsStable | logstructured/Table.hpp:191-213 | snapshot isolation over runs: a snapshot keeps reading the same tuple or none, whatever others write, revert or collect |
| VersionWrites.WriteIsFound | logstructured/Table.cpp:94-113 | from the swap of an insert, update, removal or replacement on, while its transaction is running and neither replaces nor reverts it, every snapshot with its version finds the data of the write, or nothing after a removal |
| VersionWrites.CommittedWriteIsFound | logstructured/Table.hpp:191-213 | and so does every snapshot with its version and none of those written later, whatever others write, revert or collect |
| VersionWrites.RevertRestores | logstructured/Table.cpp:192-225 | after a revert a snapshot finds what it found before the write |
| VersionWrites.SealedLast | logstructured/Table.cpp:94-124 | a record stays unsealed, and so unwritable, until its own thread has set its predecessor to expire and seals it |
| VersionWrites.AllSealed | logstructured/Table.cpp:80-124 | when no thread is at work every record of the log is sealed, those of failed writes too |
| VersionChecks.WriteMeetsLookup | logstructured/Table.cpp:128-182 | in the state of its swap an insert meets no tuple in its own transaction's lookup, and an update or removal meets the newest version |
| VersionChecks.NextKeepsReach | logstructured/GcScanProcessor.cpp:126-158 | a published valid record that has left the list is out of reach: the walk from the head ends above its version |
| VersionLookup.StepKeepsTrack | logstructured/VersionRecordIterator.cpp:91-149 | from any record a lookup may stand on, also one that has been unlinked, the walk keeps leading to the record its snapshot reads, through every step of other threads |
| VersionLookup.MoveKeepsTrack | logstructured/VersionRecordIterator.cpp:50-58 | so does every access of the lookup: going on, passing an invalid record, returning to the previous record or to the head |
| VersionLookup.LookupIsAtomic | logstructured/Table.hpp:191-213 | a lookup that interleaves with writers, reverts, clean-up and collection finds the tuple that a lookup in any single state between its first and its last access finds |
| DeltaMain.UpdateRecordIterator.constructor | deltamain/Record.cpp:65-83 | the iterator starts at the first record that is not reverted |
| DeltaMain.UpdateRecordIterator.Next | deltamain/Record.cpp:85-115 | delivers what the recursive description of the pass over the unsorted chain delivers, in strictly decreasing versions |
| DeltaMain.InternalGet | deltamain/Table.hpp:242-281 | the lookup reads the update records and then the base elements they do not hide |
| DeltaMain.GetBase | deltamain/rowstore/RowStoreRecord.hpp:152-177 | the lookup in a record reads the elements below the lowest version of the update log |
| DeltaMain.ReadIsFirst | deltamain/rowstore/RowStoreRecord.hpp:152-177 | the first version that the snapshot reads decides the lookup; the error code and the flag say whether it was the newest |
| DeltaMain.CanUpdate | deltamain/Table.cpp:344-360 | a newest version the writer does not see refuses the write; otherwise an insert is allowed if and only if the writer's own lookup finds no tuple, an update or removal if and only if it finds the newest version |
| DeltaMain.BaseCanUpdate | deltamain/rowstore/RowStoreRecord.cpp:102-123 | the same for the elements of a record |
| DeltaMain.AcceptedExactly | deltamain/Table.cpp:292-342 | for every accepted history at or above the base version: which writes are accepted, in terms of the stack and the writer's lookup |
| DeltaMain.InternalRevert | deltamain/Table.cpp:362-436 | a revert record is appended exactly if the newest visible version is the transaction's own; when it refuses or passes the key on |
| DeltaMain.BaseCanRevert | deltamain/rowstore/RowStoreRecord.cpp:125-159 | the decision of a base record: nothing, revert or refuse |
| DeltaMain.UndoingMeans | deltamain/Table.cpp:381-408 | a revert is appended exactly if the transaction's own version is the newest, and refused exactly if it is found further down in the update log, or in the record if the log shows nothing |
| DeltaMain.ViewIsVisible | deltamain/Record.cpp:93-103 | one pass with a cut at the base version finds exactly the records that no older-or-equal version met before hides |
| DeltaMain.VisibleSorted | deltamain/Record.cpp:65-115 | the versions delivered strictly decrease, whatever the chain looks like |
| DeltaMain.ViewIsStack | deltamain/Record.cpp:85-115 | for every history of accepted writes and reverts at or above the base version the lookup sees exactly a push and pop stack |
| DeltaMain.RevertedWriteIsInvisible | deltamain/Table.cpp:362-436 | a write followed by its revert takes away the newest version if it was the transaction's own, and otherwise leaves every lookup by every snapshot as it was |
| DeltaMain.BaseComesBack | deltamain/Record.cpp:72-73 | the failing history for an insert record: a write below a reverted base brings the base back, for all read sets that accept it |
| DeltaMain.NewestElementComesBack | deltamain/Record.cpp:93-103 | the failing history for a main record with several elements |
| DeltaMain.WriteUnderBaseIsLost | deltamain/Record.cpp:93-103 | the failing history in which nothing comes back and a write is lost |
| DeltaMain.RevertedWriteUnderBase | deltamain/Record.cpp:93-103 | the failing history in which the write below the base version has been reverted itself |
| DeltaMain.ViewIsRecent | deltamain/Record.cpp:65-115 | for every accepted history, also with operations below the base version, the lookup sees the stack of the operations since the last of them, put on the base record |
| DeltaMain.RightStepExactly | deltamain/Record.cpp:72-103 | for every accepted history for which the lookups are right and any further operation: they stay right if and only if the newest operation is not below the base version, or the new one is not above it, or the base elements older than the new one are those older than the newest with that one on top |
| DeltaMain.RightExactly | deltamain/Record.cpp:72-103 | for every accepted history of any length: after each of its operations the lookups see the stack if and only if every operation below the base version agrees in this way with the one that follows it |
| RowStoreGc.CollectElements | deltamain/rowstore/RowStorePage.cpp:130-151 | the collected elements are the specified ones: update log, base, trailing delete dropped |
| RowStoreGc.CollectBase | deltamain/rowstore/RowStoreRecord.cpp:73-100 | the elements a base record adds |
| RowStoreGc.FaithfulExactly | deltamain/rowstore/RowStoreRecord.cpp:77-79 | collection is indistinguishable for all snapshots that read up to the minimum, now and after further writes, if and only if no revert swallows a tuple and no reverted insert is resurrected |
| RowStoreGc.RevertFreeIsFaithful | deltamain/rowstore/RowStorePage.cpp:130-164 | chains without reverts are always collected rightly |
| RowStoreGc.CollectionKeepsReads | deltamain/rowstore/RowStorePage.cpp:166-177 | a lookup on the rewritten record, with all updates that arrived during the collection, gives the same tuple or none |
| RowStoreGc.InvalidatedHasNothing | deltamain/rowstore/RowStorePage.cpp:153-159 | an invalidated record had no tuple for any such snapshot |
| RowStoreGc.OnlyNeededIsKept | deltamain/rowstore/RowStorePage.cpp:130-164 | all collected elements but the oldest are newer than the minimum, and the oldest is newer or a tuple |
| RowStoreGc.KeptTupleIsRead | deltamain/rowstore/RowStorePage.cpp:130-164 | for every tuple that is kept there is a snapshot with all versions up to the minimum that reads it |
| RowStoreGc.DeletedIsDropped | deltamain/rowstore/RowStorePage.cpp:148-159 | a key whose newest version is a deletion not newer than the minimum loses its record |
| RowStoreGc.OldestIsTuple | deltamain/rowstore/RowStorePage.cpp:148-161 | the oldest element is a tuple, as asserted, if and only if not both of the two oldest gathered elements are deletions |
| RowStoreGc.DeletionIsKept | deltamain/rowstore/RowStorePage.cpp:148-161 | the failing history: a record is rewritten although only a deletion is left |
| RowStoreGc.RewrittenSound | deltamain/rowstore/RowStorePage.cpp:173-176 | the old chain over the rewritten record agrees with its elements however far later reverts uncover it, so that it can be collected again |
| RowStoreGc.RevertLosesKey | deltamain/rowstore/RowStoreRecord.cpp:77-79 | the failing input: a readable tuple lost after a revert below the minimum |
| RowStoreGc.RevertedInsertComesBack | deltamain/Record.cpp:35-43 | the failing input: a reverted insert collected again |
| Relocation.Lookup | deltamain/Table.hpp:244-252 | from any record of the key the links lead to the current one, whose reads are returned |
| Relocation.NextKeepsInv | deltamain/rowstore/RowStorePage.cpp:84-177 | every step of writers and collector, which rewrites a record or copies one that needs no cleaning, keeps the records linked, the chain sound and its reads those of the full history |
| Relocation.LookupsSeeAllUpdates | deltamain/Table.cpp:292-342 | in every run, over any number of collections and moves, a lookup from any old or new record finds what it would find had all successful updates stayed on the first record |
| Relocation.SwapHitsCurrentRecord | deltamain/Table.cpp:323-337 | an update succeeds only on the current record, never on a replaced or invalid one, and its check still holds then |
| Relocation.InvalidIsFinal | deltamain/rowstore/RowStorePage.cpp:154-158 | an invalidated record takes no update any more |
| Relocation.UncleanedIsCollected | deltamain/rowstore/RowStoreRecord.cpp:58-71 | a record that needs no cleaning is copied with exactly the elements that would be collected |
| RowStoreScan.ProcessUpdateRecord | deltamain/rowstore/RowStoreScanProcessor.cpp:137-154 | the tuples of the update log with their intervals |
| RowStoreScan.ProcessRecord | deltamain/rowstore/RowStoreScanProcessor.cpp:71-135 | the scan of a record hands out the intervals of the versions a lookup considers |
| RowStoreScan.AdmittedIsRead | util/ScanQuery.hpp:355-360 | for lists of versions whose writers saw all below, the interval test admits exactly the tuple a lookup returns |
| RowStoreScan.AdmittedExactly | util/ScanQuery.hpp:355-360 | for every list of versions and every snapshot the admitted intervals are exactly the tuple of the lookup if and only if, behind the first readable version, every readable tuple stands directly below a readable version |
| RowStoreScan.ScanAgreesWithLookup | deltamain/rowstore/RowStoreScanProcessor.cpp:71-154 | for every history and every transaction with transitive read sets the scan admits exactly the version the lookup returns, or none |
| RowStoreScan.ScanSeesAllUpdates | deltamain/rowstore/RowStoreScanProcessor.cpp:71-154 | in every state of every run with collections and moves, a scan of the key from any old or new record admits exactly the version a lookup finds had all updates stayed on the first record |
| RowStoreScan.TransitivityIsNeeded | util/ScanQuery.hpp:355-360 | the failing history: two accepted updates, and a transaction whose scan admits two versions |
| ScanCompiler.SameSelection | util/LLVMScan.cpp:130-141 | equal selections of well-formed queries have equally many conjuncts: what sharing relies on |
| ScanCompiler.WindowExactly | util/LLVMRowScan.cpp:227-249 | the version filter keeps exactly the rows that some snapshot with the base version and the version of the query reads |
| ScanCompiler.PartitionIsUnique | util/LLVMRowScan.cpp:227-249 | every row is in exactly one partition of a modulus |
| ScanCompiler.PartitionsTakeTurns | util/LLVMRowScan.cpp:227-249 | the next 2^shift keys are in the next partition |
| ScanCompiler.BuildAst | util/LLVMScan.cpp:95-258 | the tree of a batch: queries with the same selection, and only they, share a group of slots and are marked as shared; predicates are placed in the group of their owner, and every slot counts its predicates |
| ScanCompiler.BuildPredicate | util/LLVMRowScan.cpp:188-225 | the target slot of a predicate and its combination with what the slot holds |
| ScanCompiler.EmittedCorrect | util/LLVMRowScan.cpp:188-226 | after the predicate code a slot is written if some predicate goes there, and holds their disjunction or conjunction |
| ScanCompiler.MergedIsCnf | util/LLVMRowScan.cpp:250-267 | the slots a query combines are its conjunctive normal form, shared or not |
| ScanCompiler.BuildRowScan | util/LLVMRowScan.cpp:46-272 | the program is the predicate code in field order followed by the results |
| ScanCompiler.RowScanCorrect | util/LLVMRowScan.cpp:46-272 | for every batch of well-formed queries, every row and any previous content, slot i ends as query i's normal form and version filter and partition filter |
| ScanCompiler.Scan | util/LLVMScan.cpp:343-360 | over a stream of rows with one result array every row is handed to exactly the queries that accept it |
| ColumnScan.ElementsAreIndependent | deltamain/colstore/LLVMColumnMapScan.cpp:258-280 | on the flat array an element's slots end as its own instructions leave them, in whatever order those of other elements come |
| ColumnScan.OnlyEvents | deltamain/colstore/LLVMColumnMapScan.cpp:161-170 | the vector and the scalar loop together execute the code once for every element of the range |
| ColumnScan.BuildColumnScan | deltamain/colstore/LLVMColumnMapScan.cpp:58-622 | there is a program if and only if the registers have at least 128 bits, and then it does the specified code to every element |
| ColumnScan.BuildFields | deltamain/colstore/LLVMColumnMapScan.cpp:83-159 | the loops of the fields with separate flags for vector and scalar loops do the specified code to every element |
| ColumnScan.SameCode | deltamain/colstore/LLVMColumnMapScan.cpp:122-159 | the vector loops leave the flags that the scalar loops leave, and the code of every element is that of the row program |
| ColumnScan.MergedOffsetIsStart | deltamain/colstore/LLVMColumnMapScan.cpp:762-786 | the merge counter meets the offset of a query exactly if the query owns its conjuncts |
| ColumnScan.MergesCorrect | deltamain/colstore/LLVMColumnMapScan.cpp:762-793 | merging groups in place, once per group, completes every result and keeps the groups needed later |
| ColumnScan.ElementCorrect | deltamain/colstore/LLVMColumnMapScan.cpp:605-793 | for every element the column code gives the same answers as the row program |
| ColumnScan.ScanPage | deltamain/colstore/LLVMColumnMapScan.cpp:58-120 | a page scan, from the queries to the flat result array, answers every query for every element of the range, for all registers of at least 128 bits; there is none for smaller ones |
| Aggregation.StepCombine | deltamain/colstore/LLVMColumnMapAggregation.cpp:108-149 | aggregating into one lane aggregates into the combination of all, with 64-bit wrap-around |
| Aggregation.VectorLoop | deltamain/colstore/LLVMColumnMapAggregation.cpp:209-334 | the lanes combined are the left fold of the elements processed |
| Aggregation.Reduce | deltamain/colstore/LLVMColumnMapAggregation.cpp:336-394 | the halving reduction gives the combination of all lanes and reads no undefined lane |
| Aggregation.Aggregate | deltamain/colstore/LLVMColumnMapAggregation.cpp:203-526 | for every column, selection and power-of-two lane count the program computes the left fold, value and null flag |
| Aggregation.FoldMin | deltamain/colstore/LLVMColumnMapAggregation.cpp:111-117 | the fold is a least value: a bound of all chosen elements that is one of them or the start |
| Aggregation.FoldMax | deltamain/colstore/LLVMColumnMapAggregation.cpp:119-125 | the same for the greatest |
| Aggregation.FoldSum | deltamain/colstore/LLVMColumnMapAggregation.cpp:127-138 | the fold is the wrapped sum of the chosen elements |
| Aggregation.FoldCount | deltamain/colstore/LLVMColumnMapAggregation.cpp:140-142 | the fold is the wrapped number of chosen elements |
| Aggregation.FoldNull | deltamain/colstore/LLVMColumnMapAggregation.cpp:303-309 | the result stays null exactly if it was and nothing was chosen |
| ColumnPage.Materialize | deltamain/colstore/LLVMColumnMapMaterialize.cpp:48-209 | an element of a page is read back as the record it stands for: values, rebased offsets, heap |
| ColumnPage.Modifier.WriteData | deltamain/colstore/ColumnMapPage.cpp:533-587 | a row record is added as the next element |
| ColumnPage.Modifier.WriteDelete | deltamain/colstore/ColumnMapPage.cpp:500-515 | a deletion is added with heap entries that keep the ends of its neighbours right |
| ColumnPage.Modifier.AddCleanAction | deltamain/colstore/ColumnMapPage.cpp:410-436 | a range of an older page is added with its heap moved and its offsets corrected |
| ColumnPage.Modifier.Flush | deltamain/colstore/ColumnMapPage.cpp:612-695 | the flushed page stands for all elements added, in order |
| ColumnPage.HoldsRange | deltamain/colstore/ColumnMapPage.cpp:419-435 | one correction for a whole range keeps every element's heap data and the end of the element behind it |
| ColumnPage.ColumnsInOrder | deltamain/colstore/ColumnMapPage.cpp:52-64 | headers, values and heap entries of a page follow each other without overlap, each from the next multiple of 8 on |
| ColumnPage.PaddingSuffices | deltamain/colstore/ColumnMapContext.hpp:73-89 | 17 bytes cover the padding of a page, for every schema and element count |
| ColumnPage.PaddingIsTight | deltamain/colstore/ColumnMapContext.hpp:81 | and no smaller bound would |
| ColumnPage.HeapFits | deltamain/colstore/ColumnMapPage.cpp:52-64 | while the accumulated fill size is within the limit the columns end before the heap begins |
| OrderedLog.NextKeepsInv | util/Log.cpp:37-453 | every access of append, page creation, seal and advance keeps the invariant of the log |
| OrderedLog.EntriesTile | util/Log.cpp:59-107 | acquired entries of a page do not overlap and leave no gap, in every run |
| OrderedLog.EntrySizeIsLeast | util/Log.hpp:60-75 | the size of an entry is the least multiple of 16 with room for header and payload |
| OrderedLog.EntriesAreAligned | util/Log.cpp:76-80 | in every run entries, offsets and returned entries lie at multiples of 16 (asserted in the code) and within the page |
| OrderedLog.ClosedIsFrozen | util/Log.hpp:326-328 | the offset of a closed page never changes |
| OrderedLog.ReturnedEntryIsOwned | util/Log.cpp:86-105 | an entry that append returns lies below the offset of its page, is unsealed and belongs to one thread |
| OrderedLog.BelowOffsetIsEntry | util/Log.cpp:377-379 | a position below the offset is an acquired entry (asserted in the code) |
| OrderedLog.SealedHeadIsSafe | util/Log.cpp:348-410 | every entry before the sealed head is sealed, across pages, in every reachable state |
| OrderedLog.SealedHeadMovesForward | util/Log.cpp:405-410 | the sealed head only moves forward |
| OrderedLog.HeadMovesForward | util/Log.cpp:291-338 | so does the head |
| OrderedLog.SequentialIsExact | util/Log.cpp:264-273 | when operations run one at a time the sealed head is exactly the first unsealed entry or the end of the log |
| OrderedLog.RestsExactly | util/Log.cpp:412-451 | under every interleaving, when no thread is at work the sealed head rests at an unsealed entry or at the end of the log if and only if it does not rest at the end of a page with a successor, be it free or taken by a lost slot |
| OrderedLog.StuckForGood | util/Log.cpp:264-273 | once it rests there it never moves again |
| OrderedLog.HeadGetsStuck | util/Log.cpp:436-451 | the failing run of two appends, for every size of which no two entries fit on a page |
| OrderedLog.LostSlotStops | util/Log.cpp:86-101 | the failing run of two appends in which one of them loses its slot: all entries of the log are sealed and the sealed head stays at its start |
| LogProgress.EndsAlone | util/Log.cpp:76-453 | from every reachable state that any others have left behind a thread that goes on alone appends and seals its entry, passes on the sealed head and returns, after a bounded number of accesses |
| CuckooTable.GetValue | util/CuckooHash.cpp:58-67 | get trusts the first slot with the key and is right despite stale and zeroed slots |
| CuckooTable.PlaceStep | util/CuckooHash.cpp:158-186 | one displacement keeps every key but the displaced one, which can go into the next table |
| CuckooTable.UpdateStep | util/CuckooHash.cpp:195-213 | replacing or clearing a value in place changes nothing else |
| CuckooTable.CopyStep | util/CuckooHash.cpp:277-283 | copying one slot of the old pages |
| CuckooTable.EmptyTable | util/CuckooHash.cpp:254-265 | fresh pages hold no key, although every slot carries the key 0 |
| CuckooTable.NeverGrows | util/CuckooHash.cpp:242-250 | a rehash of a table that is not overfull keeps three pages and halves any larger number |
| CuckooTable.IntendedExactly | util/CuckooHash.cpp:245-250 | the number of pages is the intended one if and only if the usage is below 20 percent, or for three pages up to 80 percent |
| CuckooTable.FullTableShrinks | util/CuckooHash.cpp:245-250 | the failing table: six full pages become three |
| CuckooModifier.Modifier.Cow | util/CuckooHash.cpp:226-240 | the first write to a page goes to a copy; the contents stay |
| CuckooModifier.Modifier.Get | util/CuckooHash.cpp:111-125 | the lookup of the modifier |
| CuckooModifier.Modifier.Insert | util/CuckooHash.cpp:127-193 | whenever it returns, through all displacements and nested rehashes, the map is the old one with the key inserted or replaced, or unchanged; no base page is written; it returns without a rehash if the key is found or the specified walk of twenty rounds ends; the size counter is right if and only if there was no rehash |
| CuckooModifier.Modifier.Remove | util/CuckooHash.cpp:195-213 | the map without the key; no base page is written |
| CuckooModifier.Modifier.Rehash | util/CuckooHash.cpp:242-291 | the map is unchanged, every page is the modifier's own and fresh, exactly the base pages out of use are marked for deletion; the size counter grows by at least the number of entries |
| CuckooModifier.Modifier.NumPages | util/CuckooHash.cpp:243-252 | the number of pages stays three times a power of two (asserted in the code) and is the specified one |
| RecordLayout.AddField | common/Record.cpp:60-100 | refuses exactly existing names, exceeded limits and schemas with indexes; keeps names distinct, alignments descending and the count of nullable fields |
| RecordLayout.AddIndex | tellstore/Record.hpp:326-334 | an index of a new name is added behind the others, one of an existing name changes nothing; names of indexes stay distinct |
| RecordLayout.BuildLayout | common/Record.cpp:204-243 | offsets, null bytes and static size of a record |
| RecordLayout.FieldsAreAligned | common/Record.cpp:319-346 | every field is aligned (asserted in the code) |
| RecordLayout.FieldsAreDisjoint | common/Record.cpp:222-242 | fields do not overlap each other, the null bytes or the heap |
| RecordLayout.NullBytesAreDistinct | common/Record.cpp:226-236 | nullable fields have null bytes of their own |
| RecordLayout.Align8IsLeast | common/Record.cpp:204-243 | offsets and sizes are aligned to the least multiple of 8 |
| RecordLayout.LayoutOfSchema | common/Record.cpp:204-267 | the offsets, null bytes, heap and size of a small record in numbers |
| RecordLayout.Create | common/Record.cpp:279-368 | fails exactly if a value that must not be null is missing, otherwise the buffer holds every field of the tuple |
| RecordLayout.ToGenericTuple | client/Table.cpp:53-106 | reading a created record gives back the tuple |
| RecordLayout.SizesAgree | common/Record.cpp:245-267 | the size of a tuple and the size of its record agree |
| SchemaFormat.Serialize | common/Record.cpp:125-156 | the bytes written behind any prefix whose length is a multiple of four are those of the format |
| SchemaFormat.BytesOfField | common/Record.cpp:130-137 | the bytes of every field in numbers |
| SchemaFormat.BytesOfSchema | common/Record.cpp:125-156 | the bytes of a schema with an index in numbers |
| SchemaFormat.SerializedLength | common/Record.cpp:102-123 | the computed length is the number of bytes written, for every schema |
| SchemaFormat.Deserialize | common/Record.cpp:158-197 | the reader computes the parse of the format |
| SchemaFormat.FieldsRoundTrip | common/Record.cpp:125-176 | the fields are always read back, with their order and the count of nullable ones |
| SchemaFormat.RoundTripExactly | common/Record.cpp:125-197 | for every schema that addField and addIndex build, wherever it lies in a message: reading gives it back and ends behind it if and only if the number of indexes, their numbers of fields and the lengths of their names fit into 16 bits |
| SchemaFormat.LongIndexIsLost | common/Record.cpp:143-155 | the failing schema: an index on 65536 fields is read as an index on none |

## Left out

- OpenAddressing.LinearProbing: does not model hash values so large that hash + capacity overflows 64 bits; the source's loop then has no iterations.
- OpenAddressing: `forEach` and its iteration are left out, as is the reuse of memory after an epoch.
- VersionChain.MaintenanceKeepsLookup: covers the compare-and-swap form of the invalidation of expired records, not the plain two-word store of release builds.
- VersionChain: non-transactional tables and running out of memory.
- VersionLookup.LookupIsAtomic: gives the tuple or none, not the error code and the newest flag; new versions may turn "not found" into "not in snapshot" while a lookup is under way.
- RowStoreGc.CollectionKeepsReads: gives the same tuple or none; the error code can change from "not in snapshot" to "not found" when an unreadable deletion is dropped.
- Relocation.LookupsSeeAllUpdates: covers runs without an unfaithful collection and without writes below a base version, for which the findings above show that the code is wrong; one key, truncation of the update log by the epoch scheme not modelled.
- RowStoreGc: filling pages (`internalAppend`), the decision which pages need cleaning, and the insert hash table around the records.
- ScanCompiler.RowScanCorrect: a predicate is an arbitrary boolean function of the row; comparisons, null handling, string matching and the bytes of the query buffer are not modelled.
- ColumnScan.ScanPage: registers of less than 64 bits, into which a field would not fit; a program that cannot be built is no result, not the crash of the builder.
- Aggregation.Aggregate: integer fields only; floating-point aggregation depends on rounding and on the seed for MAX.
- ColumnPage.Modifier.Flush: the four-byte prefix of heap entries, keys, versions and newest pointers of the elements, and which versions the column-map collector keeps; that collector can drop a recent delete together with older data.
- OrderedLog: truncation of the tail and the unordered log.
- CuckooModifier.Modifier.Insert: an insertion need not terminate; `fuel` bounds nested and repeated rehashes, and nothing is claimed when it runs out.
- RecordLayout.ToGenericTuple: values are byte strings, so conversions between numbers and bytes are left out, except for the 32-bit offsets.
- SchemaFormat.RoundTripExactly: field types NULLTYPE and NOTYPE and other codes that the code asserts not to occur; the order in which the map of indexes is traversed; reading past the end of a message gives no schema.
- Networking, client fibers, the commit manager, code generation by LLVM, and page management.
