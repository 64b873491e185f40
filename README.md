# Raven.Storage LSM core in Dafny

A model of the log-structured merge engine of `Raven.Storage`, a C# port of
LevelDB's design, with proofs about it. The model has eight groups.

- **Leveled version metadata** (`version.dfy`, `version_set.dfy`, `compaction_state.dfy`):
  - per-level file lists;
  - the score-based choice of the next compaction level (`Finalize`, `MaxBytesForLevel`);
  - where a flushed memtable lands (`PickLevelForMemTableOutput`);
  - the key-range overlap queries, including level 0's restart-until-fixed-point scan in `GetOverlappingInputs`;
  - seek charging (`UpdateStats`) and its level-0 part in `TryGet`;
  - the version-set counters and the compaction output list.
- **Bloom filter probe** (`bloom.dfy`): the offset-array guards, the fail-open cases, and the k-probe double hashing on 32-bit unsigned arithmetic.
- **Write path** (`storage_writer.dfy`, `storage_state.dfy`):
  - the group commit: queue, batch-group selection under a byte budget, the sequence-number advance, logging and applying;
  - the ordered room-for-write cascade and the memtable switch;
  - the compaction scheduling guard and the memtable compaction (level-0 table, version edit, `LogAndApply`);
  - the obsolete-file keep rule;
  - `CreateNewLog`, `BuildTable` and the `SetCurrentFile` contents rule.
- **Write batch and its log record codec** (`write_batch.dfy`, `log_record.dfy`, `binary.dfy`):
  - `Put`, `Delete`, `Prepare` and `Apply`;
  - the record layout `[seq:8][opCount:4]{[op:1][varint keyLen][key]([size][value])?}*`, encoded to bytes and decoded back.
  - Integers are little-endian. The key length uses the .NET 7-bit encoding, which equals unsigned LEB128 (DWARF version 4, section 7.6) for non-negative values.
- **Table lookup** (`table.dfy`):
  - the two-level seek (the first index entry at or after the key, the filter short-circuit, the first block entry at or after the key);
  - the block-cache hit and miss rule;
  - the key scan.
- **Manual compaction driver** (`manual_compactor.dfy`): the in-progress/done guard, the advance of the range start, and the levels a range compaction visits.
- **Supporting modules**:
  - `keys.dfy`: bytewise user-key order and the internal-key order, with newer sequences first;
  - `memtable.dfy`: the memtable's arena and entry list;
  - `config.dfy`: the configuration constants and their ordering assumptions;
  - `wrappers.dfy`: `Option` and `Result`.

Classes keep the source's mutable objects and their fields: `Version`, `VersionSet`,
`CompactionState`, `BloomFilter`, `WriteBatch`, `StorageState`, `VersionEdit`,
`StorageWriter`, `OutstandingWrite`, `Table` and `ManualCompactor`. Each
state-changing method is specified by its whole new state, or by a
specification function of its inputs, and the lemmas beside those functions
state the properties.

Defects in the source are modelled as they are written, with a lemma that
shows each one:

- `MaybeScheduleCompaction`'s inverted `NeedsCompaction` test (`SchedulingInverted`).
- `SetCurrentFile`'s `Substring` call, which always throws (`CurrentFileContentsAlwaysFails`). As a result, a first `LogAndApply` never installs a version (`LogAndApplyNeverInstalls`).
- The operator precedence in `WriteBatch.Size` (`SizeCountsOnlyEmptyKeyPuts`).
- The decoder reads a put's 4-byte size into the low half of an 8-byte buffer whose high half still holds the sequence's high bytes. The round trip therefore holds only below sequence 2^32 (`RecordRoundTrip`), and a record at sequence 2^32 fails to decode (`HighSequenceBreaksRoundTrip`).
- `SomeFileOverlapsRange` always answers false above level 0. So a range compaction only visits level 0 (`MaxLevelWithFilesIsOne`).
- The `IndexOf != Count - 1` keep rule for table and temp files (`TableKeepRule`).
- A batch group logs all its batches at one sequence number, and `LastSequence` grows by the number of batches, not operations (`GroupSharesSequence`).

The nondeterministic parts of the system are parameters:

- whether a file can be opened (`openFails`, `ioFails`);
- the version builder's result (`built`);
- the memtable iterator's keys (`keys`);
- the table builder's file size (`builderFileSize`);
- the directory listing (`listing`) and the version set's live files (`liveFiles`);
- the compactions the version set picks for a range (`picks`);
- the filter policy's hash (`hashKey`) and a table's block reader (`readBlock`).

Awaiting a task ends a step with a "waiting" outcome.

## Model

| member | source | states |
|---|---|---|
| Versions.Version.constructor | Raven.Storage/Impl/Version.cs:19-30 | NumberOfLevels level lists, taken as empty where the source leaves null slots (see Left out), score unscored (-1), compaction level -1, no file to compact and file-to-compact level -1 |
| Versions.Version.Finalize | Raven.Storage/Impl/Version.cs:48-88 | the chosen level lies in [0, NumberOfLevels-2] and its score is >= 0; it is that level's score, no scored level scores higher, and every lower level scores strictly lower (the lowest level of maximal score wins, by the strict `>`); files and the file to compact are unchanged |
| Versions.BestUpToIsLowestMaximum | Raven.Storage/Impl/Version.cs:51-84 | over any number of scored levels, the running best starting from -1 is a level in range, with that level's score, >= 0, maximal, and strictly above every lower level |
| Versions.BestAtLeastOneIff | Raven.Storage/Impl/Version.cs:79-87 | the best score is >= 1 iff some scored level's score is >= 1 |
| Versions.LevelScoreExamples | Raven.Storage/Impl/Version.cs:57-77 | level 0 with at least Level0CompactionTrigger files scores >= 1; an empty level scores 0 |
| Versions.MaxBytesForLevel | Raven.Storage/Impl/Version.cs:90-102 | the limit is at least 10 MiB for every level |
| Versions.MaxBytesForLevelIsPower | Raven.Storage/Impl/Version.cs:90-102 | MaxBytesForLevel(L) = 10 * 2^20 * 10^(max(L,1)-1) |
| Versions.MaxBytesForLevelIncreasing | Raven.Storage/Impl/Version.cs:90-102 | the limit is strictly increasing from level 1 on |
| Versions.AnyFileOverlaps | Raven.Storage/Impl/Version.cs:187 | true iff some file is neither after the smallest key nor before the largest key |
| Versions.SomeFileOverlapsRange | Raven.Storage/Impl/Version.cs:180-203 | for disjoint sorted files (levels > 0) always false, as written; otherwise true iff some file has neither smallest > file.Largest nor largest < file.Smallest |
| Versions.Version.OverlapInLevel | Raven.Storage/Impl/Version.cs:175-178 | false at every level > 0; at level 0 true iff some level-0 file overlaps [smallest, largest] |
| Versions.Version.PickLevelForMemTableOutput | Raven.Storage/Impl/Version.cs:104-128 | 0 whenever a level-0 file overlaps; never above MaxMemCompactLevel; every level passed on the way allowed the push (no overlap at level+1, grandparent overlap <= MaxGrandParentOverlapBytes); below MaxMemCompactLevel it stopped because the next push was not allowed |
| Versions.Version.GetOverlappingInputs | Raven.Storage/Impl/Version.cs:130-173 | above level 0 the result is exactly the files intersecting [begin, end] in order; at level 0 it is exactly the files intersecting a final range that only widened from [begin, end], each bound moved to an existing file's bound, and every input lies within the final range (the restart loop stops at that fixed point) |
| Versions.OverlappingMembers | Raven.Storage/Impl/Version.cs:141-151 | a file is returned iff it is in the level and intersects the range by user key |
| Versions.CountBelowShrinks | Raven.Storage/Impl/Version.cs:156-161 | widening the start to a file's smallest key strictly lowers the number of file bounds beyond the range (the restart's termination measure) |
| Versions.CountAboveShrinks | Raven.Storage/Impl/Version.cs:162-167 | widening the end to a file's largest key strictly lowers the number of file bounds beyond the range |
| Versions.CountBelowMonotone | Raven.Storage/Impl/Version.cs:156-161 | a smaller start never has more file bounds below it |
| Versions.CountAboveMonotone | Raven.Storage/Impl/Version.cs:162-167 | a larger end never has more file bounds above it |
| Versions.Version.UpdateStats | Raven.Storage/Impl/Version.cs:205-219 | always false; with no seek file nothing changes; otherwise exactly that file's AllowedSeeks drops by one, and it becomes the file to compact only when its seeks are <= 0 and none was nominated (first nomination wins) |
| Versions.ContainingFrom | Raven.Storage/Impl/Version.cs:249-253 | exactly the indices of level-0 files whose [smallest, largest] holds the key |
| Versions.InsertByFileNumber | Raven.Storage/Impl/Version.cs:254 | inserting keeps the indices sorted by descending file number and adds exactly one index |
| Versions.SortByFileNumberDesc | Raven.Storage/Impl/Version.cs:254 | a permutation of the indices sorted by descending file number |
| Versions.Level0Candidates | Raven.Storage/Impl/Version.cs:249-261 | indices into level 0, sorted newest first |
| Versions.Level0CandidatesExact | Raven.Storage/Impl/Version.cs:249-254 | the candidates are exactly, as a multiset, the level-0 files containing the key |
| Versions.FirstDecisive | Raven.Storage/Impl/Version.cs:277-305 | every earlier candidate was NotFound, and the one returned (if any) is not |
| Versions.Version.TryGetLevel0 | Raven.Storage/Impl/Version.cs:229-305 | the level-0 search probes the newest containing file first and stops at the first decisive answer; the first file probed is charged once a second is probed |
| Versions.ProbeInOrder | Raven.Storage/Impl/Version.cs:277-305 | the probe loop yields the decision of the first decisive probe, the charged file and the last file read, as ProbeOutcome defines them |
| VersionSets.VersionSet.constructor | Raven.Storage/Impl/VersionSet.cs:8-9 | LastSequence 0 and a fresh current version, with levels taken as empty, unscored and with no file to compact, so no compaction is needed; the counters this file does not declare start at PrevLogNumber 0, LogNumber 0, NextFileNumber 2 and ManifestFileNumber 0 (see Left out) |
| VersionSets.VersionSet.SetLastSequence | Raven.Storage/Impl/VersionSet.cs:14-22 | only a value >= LastSequence is accepted (the Debug.Assert); it is stored and nothing else changes |
| VersionSets.VersionSet.GetNumberOfFilesAtLevel | Raven.Storage/Impl/VersionSet.cs:39-42 | the length of the current version's level list, reading no more than that |
| VersionSets.NeedsCompactionAfterFinalize | Raven.Storage/Impl/VersionSet.cs:30-37 | for a finalized current version, NeedsCompaction holds iff some scored level has score >= 1 or there is a file to compact |
| VersionSets.FullLevel0NeedsCompaction | Raven.Storage/Impl/VersionSet.cs:30-37 | a finalized version with at least Level0CompactionTrigger level-0 files needs compaction |
| VersionSets.VersionSet.NewFileNumber | Raven.Storage/Impl/VersionSet.cs:44-47 | hands out the next file number and moves the counter past it |
| VersionSets.VersionSet.ReuseFileNumber | Raven.Storage/Impl/VersionSet.cs:49-52 | takes back the number handed out last |
| CompactionStates.CompactionState.constructor | Raven.Storage/Impl/Compactions/CompactionState.cs:41-47 | no outputs and SmallestSnapshot -1 |
| CompactionStates.NewOutput | Raven.Storage/Impl/Compactions/CompactionState.cs:51-57 | the given file number, empty smallest and largest keys, size 0 |
| CompactionStates.CompactionState.AddOutput | Raven.Storage/Impl/Compactions/CompactionState.cs:49-58 | appends exactly one such output and leaves the earlier ones unchanged; it becomes the current output |
| CompactionStates.CompactionState.Outputs | Raven.Storage/Impl/Compactions/CompactionState.cs:19-25 | the output list itself, in the order AddOutput appended it |
| CompactionStates.CompactionState.CurrentOutput | Raven.Storage/Impl/Compactions/CompactionState.cs:27-33 | the last output added; there must be one |
| Bloom.BloomFilter.constructor | Raven.Storage/Filtering/BloomFilter.cs:15-23 | stores the fields; the entry count is (Capacity - 5 - offset) / 4, truncated toward zero |
| Binary.RotateRight17 | Raven.Storage/Filtering/BloomFilter.cs:61 | the result is (h / 2^17 + h * 2^15) mod 2^32, the logical right shift plus the wrapping left shift; its low 15 bits are h's high 15 bits and its high 17 bits are h's low 17 bits |
| Binary.RotationOrIsSum | Raven.Storage/Filtering/BloomFilter.cs:61 | on 32-bit words, `(x >> 17) \| (x << 15)` equals x / 2^17 + (x mod 2^17) * 2^15, the sum RotateRight17 computes on integers (the step from words to integers is under Left out) |
| Binary.RotateRight17Examples | Raven.Storage/Filtering/BloomFilter.cs:61 | bit 0 moves to bit 15, bit 17 to bit 0 and bit 31 to bit 14 |
| Binary.DivTrunc | Raven.Storage/Filtering/BloomFilter.cs:22 | C# integer division, truncating toward zero for negative dividends |
| Bloom.OffsetReadsInBounds | Raven.Storage/Filtering/BloomFilter.cs:22-37 | for every index below the entry count, both 4-byte reads at offset+4*index and offset+4*index+4 lie inside the array |
| Bloom.BloomFilter.KeyMayMatch | Raven.Storage/Filtering/BloomFilter.cs:30-43 | an index >= the entry count matches (fail open); start > limit or limit > Capacity matches nothing; otherwise the slice [start, limit) decides; a read outside the array is an error |
| Bloom.BloomFilter.SliceKeyMayMatch | Raven.Storage/Filtering/BloomFilter.cs:45-71 | the probe method computes exactly what SliceMayMatch specifies |
| Bloom.BloomFilter.ProbeAll | Raven.Storage/Filtering/BloomFilter.cs:60-70 | the k-probe loop with `h += delta` wrapping at 2^32 answers exactly Probes from probe 0 |
| Bloom.BloomFilter.ProbesStep | Raven.Storage/Filtering/BloomFilter.cs:64-68 | a set bit moves the probe on to the next hash without changing the answer |
| Bloom.AddModStep | Raven.Storage/Filtering/BloomFilter.cs:68 | adding delta with 32-bit wrap-around gives the double-hash value of the next probe, (h + (i+1)*delta) mod 2^32 |
| Bloom.ShortSliceMatchesNothing | Raven.Storage/Filtering/BloomFilter.cs:47-49 | a slice shorter than 2 bytes matches no key |
| Bloom.ReservedProbeCountMatches | Raven.Storage/Filtering/BloomFilter.cs:52-58 | a stored probe count above 30 matches every key |
| Bloom.ProbedByteInSlice | Raven.Storage/Filtering/BloomFilter.cs:51-65 | every probed byte lies in [start, limit-1), since bitpos/8 < len-1 |
| Bloom.ProbesAllSet | Raven.Storage/Filtering/BloomFilter.cs:62-70 | within the slice, probes never read out of range and answer true iff every probed bit is set |
| Bloom.SliceMatchesIffAllBitsSet | Raven.Storage/Filtering/BloomFilter.cs:45-71 | for a well-formed slice with k <= 30, with delta = RotateRight17(h), C#'s `(h >> 17) \| (h << 15)`, the answer is true iff all k positions (h + i*delta mod 2^32) mod ((len-1)*8) have their bit set; k = 0 matches |
| WriteBatches.WriteBatch.constructor | Raven.Storage/WriteBatch.cs:18 | an empty operation list |
| WriteBatches.WriteBatch.OperationCount | Raven.Storage/WriteBatch.cs:40-43 | the number of operations |
| WriteBatches.WriteBatch.Put | Raven.Storage/WriteBatch.cs:45-53 | appends exactly one put at the end, earlier operations unchanged; the count grows by one |
| WriteBatches.WriteBatch.Delete | Raven.Storage/WriteBatch.cs:55-62 | appends exactly one delete at the end, earlier operations unchanged; the count grows by one |
| WriteBatches.SizeCountsOnlyEmptyKeyPuts | Raven.Storage/WriteBatch.cs:35-38 | as written, `Key.Count + x.Op == Put ? Length : 0` is 0 for every delete and every put with a non-empty key |
| WriteBatches.SizeOfEmptyKeyPut | Raven.Storage/WriteBatch.cs:35-38 | a put with an empty key adds its value's length |
| WriteBatches.AppliedEntries | Raven.Storage/WriteBatch.cs:64-71 | entry i carries operation i's key and handle at sequence seq+i; puts get Value and deletes get Deletion |
| WriteBatches.WriteBatch.Apply | Raven.Storage/WriteBatch.cs:64-71 | the memtable gains exactly AppliedEntries, in list order, after its earlier entries |
| WriteBatches.PreparedCount | Raven.Storage/WriteBatch.cs:73-82 | how many operations Prepare handles: all of them, or up to and including the first delete whose missing stream is disposed |
| WriteBatches.PreparedStopsAtDelete | Raven.Storage/WriteBatch.cs:75-81 | without DontDisposeStreamsAfterWrite, preparation ends right after the first delete |
| WriteBatches.WriteBatch.Prepare | Raven.Storage/WriteBatch.cs:73-82 | each prepared operation's value is appended to the arena and its handle recorded; entries unchanged; ok iff every operation was prepared |
| LogRecords.WriteToLog | Raven.Storage/WriteBatch.cs:84-112 | the bytes written are EncodeRecord of the sequence and all the group's operations, batch after batch, or the first unreadable handle |
| LogRecords.HeaderOfRecord | Raven.Storage/WriteBatch.cs:88-93 | a record below sequence 2^32 reads back its sequence, and the op count over four zero bytes |
| LogRecords.OpLayout | Raven.Storage/WriteBatch.cs:95-109 | an operation is laid out as its type byte (Put 0, Delete 1), the varint key length, the key and, for a put only, the 4-byte size and the value |
| LogRecords.EncodeOpsOk | Raven.Storage/WriteBatch.cs:95-109 | prepared operations within the formats' limits always encode |
| LogRecords.VarintRoundTrip | Raven.Storage/WriteBatch.cs:137 | the .NET 7-bit decoder reads back an encoded value |
| LogRecords.VarintReadBack | Raven.Storage/WriteBatch.cs:137 | a key length below 2^31 reads back as itself, with the key right after it |
| LogRecords.ReadVarint | Raven.Storage/WriteBatch.cs:137 | a successful read consumes at least one byte and stays in the record |
| LogRecords.DecodeOp | Raven.Storage/WriteBatch.cs:135-157 | a decoded operation has no handle and carries a value iff it is a put; other type bytes are rejected |
| LogRecords.DecodeBody | Raven.Storage/WriteBatch.cs:143-157 | a delete reads nothing more; a put reads its size and value; any other type is an invalid operation |
| LogRecords.CopyLength | Raven.Storage/WriteBatch.cs:152 | the value copy never reads past the record |
| LogRecords.DecodeEncodedOp | Raven.Storage/WriteBatch.cs:135-157 | decoding one encoded operation yields it as Put or Delete rebuilds it, and leaves zeros in the buffer's upper half |
| LogRecords.Replayed | Raven.Storage/WriteBatch.cs:143-154 | a decoded operation is exactly what Put or Delete appends |
| LogRecords.DecodeEncodedOps | Raven.Storage/WriteBatch.cs:133-158 | decoding the encoding of n operations yields those n operations in order |
| LogRecords.RecordRoundTrip | Raven.Storage/WriteBatch.cs:84-157 | below sequence 2^32, a group's record decodes back to its sequence and all its operations in order |
| LogRecords.HighSequenceBreaksRoundTrip | Raven.Storage/WriteBatch.cs:149-150 | at sequence 2^32 a put's size is read over stale sequence bytes: an empty put followed by a delete encodes, but the record does not decode |
| LogRecords.HighSequenceDecoding | Raven.Storage/WriteBatch.cs:127-157 | the decoder reads that record's put size as 2^32, the put swallows the delete, and the second read finds the end of the stream |
| LogRecords.DecodeLog | Raven.Storage/WriteBatch.cs:119-168 | one result per record, in order, or the first record's error |
| LogRecords.ReadFromLog | Raven.Storage/WriteBatch.cs:114-169 | fails iff DecodeLog fails, with the same error; otherwise record k becomes a LogReadResult with record k's sequence and a single batch holding all of its operations |
| LogRecords.ReadRecord | Raven.Storage/WriteBatch.cs:121-165 | reads one record into a fresh batch: the header, then opCount operations replayed with Put and Delete |
| LogRecords.ReadOps | Raven.Storage/WriteBatch.cs:133-158 | the operation loop appends exactly what DecodeOps decodes, or stops with its error |
| LogRecords.ReadOp | Raven.Storage/WriteBatch.cs:135-157 | one iteration: reads a type byte, key length and key, and a put's value, then replays the operation into the batch |
| Binary.LittleEndianRoundTrip | Raven.Storage/WriteBatch.cs:90-93 | BitConverter's little-endian bytes of a value that fits read back as that value |
| Binary.FromLittleEndianRoundTrip | Raven.Storage/WriteBatch.cs:127-131 | reading bytes as a little-endian number and writing it back gives the same bytes |
| Binary.Int32 | Raven.Storage/Filtering/BloomFilter.cs:32 | the 32-bit two's-complement wrap of an integer, the identity in range |
| StorageStates.StorageState.constructor | Raven.Storage/Impl/StorageState.cs:15-42 | an empty memtable, where the source leaves it null (see Left out), no immutable memtable, no open logs, nothing scheduled, and a completed background task |
| StorageStates.StorageState.CreateNewLog | Raven.Storage/Impl/StorageState.cs:44-59 | on success a log with the next file number is open and LogFileNumber is that number; on failure the number is handed back and the log writer and LogFileNumber are unchanged |
| StorageStates.VersionEdit.constructor | Raven.Storage/Impl/StorageWriter.cs:245 | an edit with no numbers set and no files |
| StorageStates.VersionEdit.FillIn | Raven.Storage/Impl/StorageState.cs:67-76 | a missing log number takes LogNumber; a log number < LogNumber or >= NextFileNumber is rejected with the edit untouched; an accepted edit gets the missing prev-log number, NextFileNumber and LastSequence |
| StorageStates.StorageState.BuildVersion | Raven.Storage/Impl/StorageState.cs:78-84 | the new version has the builder's files and is scored as Finalize specifies |
| StorageStates.StorageState.WriteDescriptor | Raven.Storage/Impl/StorageState.cs:86-147 | the edit is logged iff a descriptor writer exists and no I/O fails; a descriptor created here is always closed and its file deleted again |
| StorageStates.StorageState.LogAndApply | Raven.Storage/Impl/StorageState.cs:61-149 | a rejected log number installs nothing; an install makes the finalized new version current with the edit's log and prev-log numbers; nothing installs without an existing descriptor writer or when I/O fails; the exception is swallowed |
| StorageStates.LogAndApplyNeverInstalls | Raven.Storage/Impl/StorageState.cs:89-147 | once there is no descriptor writer, any number of LogAndApply calls never installs a version and the writer stays absent |
| StorageStates.Substring | Raven.Storage/Impl/StorageState.cs:154 | String.Substring succeeds iff start and length lie inside the string, and then copies exactly those characters |
| StorageStates.CurrentFileContentsAlwaysFails | Raven.Storage/Impl/StorageState.cs:151-154 | the CURRENT contents can never be formed: the substring from after the database name, as long as the whole name, runs off the end |
| StorageStates.StorageState.SetCurrentFile | Raven.Storage/Impl/StorageState.cs:151-165 | always throws before any file is touched |
| StorageStates.StorageState.BuildTable | Raven.Storage/Impl/StorageState.cs:179-231 | the keys go to the builder in iterator order; a non-empty memtable gives the first key as smallest, the last as largest and size > 0; an empty one gives size 0 and deletes the table and temp files |
| StorageStates.BuildTableBoundsCover | Raven.Storage/Impl/StorageState.cs:200-210 | for a memtable iterated in key order, every key lies between the recorded smallest and largest keys |
| StorageWriters.OutstandingWrite.constructor | Raven.Storage/Impl/StorageWriter.cs:28-33 | the batch, its size, and a running result |
| StorageWriters.OutstandingWrite.Done | Raven.Storage/Impl/StorageWriter.cs:37-45 | true iff the result task has completed (faulted and cancelled included) |
| StorageWriters.StorageWriter.constructor | Raven.Storage/Impl/StorageWriter.cs:48-51 | an empty queue and no pending outputs |
| StorageWriters.StorageWriter.Enqueue | Raven.Storage/Impl/StorageWriter.cs:60-61 | a fresh running write for the batch is appended to the queue |
| StorageWriters.MaxGroupSize | Raven.Storage/Impl/StorageWriter.cs:367-369 | 1 MiB, or headSize + 128 KiB when the head is below 128 KiB |
| StorageWriters.StorageWriter.BuildBatchGroup | Raven.Storage/Impl/StorageWriter.cs:362-380 | the head write, then the longest FIFO prefix of the rest whose cumulative size stays within MaxGroupSize; the head is not charged |
| StorageWriters.BatchGroupIsLongest | Raven.Storage/Impl/StorageWriter.cs:371-378 | one more follower would exceed the budget |
| StorageWriters.BatchGroupUnique | Raven.Storage/Impl/StorageWriter.cs:362-380 | the batch group of a queue is unique |
| StorageWriters.PrepareAll | Raven.Storage/Impl/StorageWriter.cs:95-98 | every batch is prepared in order; the operations are unchanged except for handles; ok iff every batch could be prepared |
| StorageWriters.GroupEntries | Raven.Storage/Impl/StorageWriter.cs:102-105 | one memtable entry per operation of the group |
| StorageWriters.GroupEntryAt | Raven.Storage/Impl/StorageWriter.cs:102-105 | the entry of operation i of batch k is at sequence currentSequence + i |
| StorageWriters.GroupSharesSequence | Raven.Storage/Impl/StorageWriter.cs:102-105 | the first operations of all batches of a group get the same sequence number (each batch restarts at currentSequence) |
| StorageWriters.ApplyAll | Raven.Storage/Impl/StorageWriter.cs:102-105 | the memtable gains exactly GroupEntries, batch after batch |
| StorageWriters.MarkCompleted | Raven.Storage/Impl/StorageWriter.cs:110-114 | every write of the group has a completed result |
| StorageWriters.StorageWriter.Commit | Raven.Storage/Impl/StorageWriter.cs:100-114 | one record is appended to the log, the entries to the memtable, LastSequence is set and every write is completed |
| StorageWriters.StorageWriter.CommitGroup | Raven.Storage/Impl/StorageWriter.cs:95-114 | on success the log gains exactly the group's encoded record, the memtable the group's entries, LastSequence the new value, and all writes complete; on failure nothing changes |
| StorageWriters.StorageWriter.WriteGroup | Raven.Storage/Impl/StorageWriter.cs:80-114 | the group is the batch group; it logs from LastSequence+1; on success LastSequence grew by the number of batches, the record is the group's encoding and every write completed; on failure nothing of this changed |
| StorageWriters.StorageWriter.RoomThenWrite | Raven.Storage/Impl/StorageWriter.cs:75-114 | the leader makes room and, when there is room, writes its group as WriteGroup specifies; otherwise no write completes and LastSequence is unchanged |
| StorageWriters.StorageWriter.WriteStep | Raven.Storage/Impl/StorageWriter.cs:58-121 | a write that is not at the head waits and a write already done returns, both changing nothing; the head writes its group (LastSequence + group size, every group write completed, the record logged) |
| StorageWriters.RoomCaseOf | Raven.Storage/Impl/StorageWriter.cs:126-175 | the cascade's cases in their fixed order |
| StorageWriters.StorageWriter.MakeRoomForWrite | Raven.Storage/Impl/StorageWriter.cs:123-177 | in order: a faulted task fails; at most one slowdown delay; room ends it; an immutable memtable or a full level 0 waits; otherwise the switch (old memtable immutable, a fresh one, a new log, a scheduling attempt) and then room; a failed switch or any non-switch case leaves the state unchanged |
| StorageWriters.SwitchThenRoom | Raven.Storage/Impl/StorageWriter.cs:147-175 | after a switch the next round always finds room |
| StorageWriters.StorageWriter.MaybeScheduleCompaction | Raven.Storage/Impl/StorageWriter.cs:179-199 | nothing changes when already scheduled, shutting down, or when there is no immutable memtable and NeedsCompaction holds; otherwise the compaction is scheduled and its task runs |
| StorageWriters.SchedulesImmutable | Raven.Storage/Impl/StorageWriter.cs:182-197 | with an immutable memtable, a compaction is scheduled iff none is and the store is not shutting down |
| StorageWriters.SchedulingInverted | Raven.Storage/Impl/StorageWriter.cs:190-196 | without one, the guard schedules only when NeedsCompaction is false (the condition as written) |
| StorageWriters.StorageWriter.RunCompaction | Raven.Storage/Impl/StorageWriter.cs:201-232 | compacts the immutable memtable if there is one (else OK); success clears it and a failure keeps it; the scheduled flag stays set |
| StorageWriters.StorageWriter.CompactMemTable | Raven.Storage/Impl/StorageWriter.cs:238-265 | with no immutable memtable it is an error that changes nothing; otherwise a level-0 table is written, and the install succeeds iff the log file number lies in [LogNumber, NextFileNumber], a descriptor writer exists and no I/O fails; on success the immutable memtable is gone, the new files are installed, LogNumber is the log file, PrevLogNumber 0 |
| StorageWriters.StorageWriter.InstallFlush | Raven.Storage/Impl/StorageWriter.cs:251-262 | sets prev-log 0 and the log number, applies the edit, and on success clears the immutable memtable and deletes the obsolete files |
| StorageWriters.StorageWriter.WriteLevel0Table | Raven.Storage/Impl/StorageWriter.cs:325-360 | a new file number is pending only while the table is built; a non-empty table is added to the edit at the level PickLevelForMemTableOutput chooses (0 on a level-0 overlap, never above MaxMemCompactLevel); an empty one is not added |
| StorageWriters.IndexOf | Raven.Storage/Impl/StorageWriter.cs:293 | the first index of a number in the list, or -1 |
| StorageWriters.RemoveFirst | Raven.Storage/Impl/StorageWriter.cs:334 | List.Remove: drops the first occurrence only |
| StorageWriters.RemoveAppended | Raven.Storage/Impl/StorageWriter.cs:330-334 | adding then removing a number leaves the pending outputs as they were, as a multiset, and exactly when the number was not already pending |
| StorageWriters.TableKeepRule | Raven.Storage/Impl/StorageWriter.cs:292-299 | a table or temp file is deleted iff its first position in the live list is the last position (for an absent number: iff the list is empty) |
| StorageWriters.CurrentLogKept | Raven.Storage/Impl/StorageWriter.cs:284-286 | a log file at or above LogNumber, or equal to PrevLogNumber, is kept |
| StorageWriters.Obsolete | Raven.Storage/Impl/StorageWriter.cs:275-320 | exactly the listed files the keep rule does not keep |
| StorageWriters.StorageWriter.DeleteObsoleteFiles | Raven.Storage/Impl/StorageWriter.cs:267-323 | the live files are added to pendingOutputs (the same list), and exactly the obsolete files are deleted, in listing order |
| Tables.Table.constructor | Raven.Storage/Reading/Table.cs:21-85 | a cache exactly when MaxBlockCacheSizePerTableFile > 0; the index block, and the filter LoadFilter specifies |
| Tables.OpenTable | Raven.Storage/Reading/Table.cs:21-85 | a file shorter than the footer is rejected; otherwise a table with the cache and filter the constructor sets |
| Tables.LoadFilter | Raven.Storage/Reading/Table.cs:48-77 | no policy, no filter; with a policy, a filter is loaded iff the first meta-index entry not below "filter." + policy name compares equal to that name under the meta-index comparator, and it is the policy's filter over that entry's block |
| Tables.Table.CreateBlockIterator | Raven.Storage/Reading/Table.cs:153-185 | the right block in every case; without a cache it is read afresh; a hit changes nothing; a miss reads it, raises its usage and caches it under its handle |
| Tables.Lookup | Raven.Storage/Reading/Table.cs:127-151 | nothing when every index entry is below the key; an answer passed the filter, is in the selected block at or after the key, and every earlier block entry is below the key |
| Tables.Table.InternalGet | Raven.Storage/Reading/Table.cs:127-151 | the answer Lookup specifies; no block is read when the index seek fails or the filter rules the key out |
| Tables.IndexSeekSelects | Raven.Storage/Reading/Table.cs:131-138 | in a table built from increasing keys, the index seek for a stored key selects its block |
| Tables.BlockSeekFinds | Raven.Storage/Reading/Table.cs:143-148 | the block seek finds the stored key's entry |
| Tables.SeekKeyAtOrBefore | Raven.Storage.Tests/SST/ReadWrite.cs:42-62 | a key stored at sequence 1 is at or after a seek for it at any higher sequence |
| Tables.SeekFindsBuiltKey | Raven.Storage.Tests/SST/ReadWrite.cs:42-69 | a table built from strictly increasing keys at sequence 1, with a filter without false negatives, answers a seek for each key at a higher sequence with that key's entry |
| Tables.Table.AllKeys | Raven.Storage/Reading/Table.cs:97-125 | every data block's keys, blocks in index order and keys in block order |
| Tables.AllKeysOfBuilt | Raven.Storage/Reading/Table.cs:97-125 | for a table built from blocks, the scan yields the blocks' keys concatenated |
| ManualCompactors.ManualCompactor.constructor | Raven.Storage/Impl/Compactions/ManualCompactor.cs:16-35 | level 0, not done, not in progress, the whole key range |
| ManualCompactors.ManualCompactor.CompactionToProcess | Raven.Storage/Impl/Compactions/ManualCompactor.cs:37-44 | Done becomes true exactly when there is no compaction |
| ManualCompactors.SeekKey | Raven.Storage/Impl/Compactions/ManualCompactor.cs:62-63 | the user key with MaxSequenceNumber and ValueForSeek, before every stored entry of that key |
| ManualCompactors.StopRound | Raven.Storage/Impl/Compactions/ManualCompactor.cs:82-98 | the first round without a compaction or with no inputs |
| ManualCompactors.ManualCompactor.CompactAsync | Raven.Storage/Impl/Compactions/ManualCompactor.cs:51-109 | in progress: an error that changes nothing; shutting down: an error; a scheduled background compaction: waiting; each partial compaction moves Begin to the largest key of its last input; every ending but a wait leaves Done true and InProgress false |
| ManualCompactors.MaxLevelWithFiles | Raven.Storage/Impl/Compactions/ManualCompactor.cs:113-123 | the highest level >= 1 whose files overlap the range, or 1 |
| ManualCompactors.MaxLevelWithFilesIsOne | Raven.Storage/Impl/Compactions/ManualCompactor.cs:113-123 | since no level above 0 ever overlaps, as written, that level is always 1 |
| ManualCompactors.ManualCompactor.CompactRangeAsync | Raven.Storage/Impl/Compactions/ManualCompactor.cs:111-130 | computes that level, then compacts levels 0 .. m-1 in ascending order, stopping at the first level that does not complete |

## Left out

- File I/O: opening, writing, renaming and deleting files, directory listing, log block framing and memory-mapped files. Each appears as what it decides: a failure flag, a listing parameter, a list of deleted files, or the records of a log.
- Concurrency: `AsyncLock`, `AsyncMonitor`, the pulse event, `Task.Factory.StartNew`, `Task.Delay` and `Thread.Sleep`. Awaiting a task ends a step with a waiting outcome; the write path is one sequential step per call.
- The pending-write queue is never dequeued in the source; the model keeps it so, and no dequeue is modelled.
- Floating-point scores are rationals compared by cross-multiplication, so rounding of C# doubles is not modelled.
- Comparators: user keys are ordered bytewise, the default comparator, instead of an abstract order. The meta-index comparator (`CaseInsensitiveComparator`, which is not part of this model) is an unconstrained parameter `compareNames` of the table file, so nothing is assumed about case folding.
- Unseen collaborators are parameters or small stand-ins: `MemTable` (an arena and an entry list), `Builder` (`built`), `TableBuilder` (`builderFileSize`), `Block` (a sequence of entries whose seek is the first entry at or after the key), `Footer` (an encoded length of 48, LevelDB's value), `LruCache` (a map without eviction or capacity), `FilterPolicy` (`hashKey`, `createFilter`), `Snapshot.Write` and `VersionEdit.EncodeTo`.
- `VersionSet.AddLiveFiles` is the `liveFiles` parameter; `VersionSet.CompactRange` and `RunCompactionAsync` are the `picks` parameter.
- `EnsureTableFileCreated` (`state.MakeRoomForWriteAsync`, which `StorageState` does not define) and `CompactMemTableAsync` are not modelled.
- VersionSets.VersionSet.NewFileNumber: throws `NotImplementedException` in the source; modelled as the usual counter.
- VersionSets.VersionSet.ReuseFileNumber: throws `NotImplementedException` in the source; modelled as handing back the last number.
- Versions.Version.constructor: the source allocates an array of null level slots (Version.cs:23); the model starts every level as an empty list, so a read of an unfilled slot, which throws in the source, is not modelled.
- VersionSets.VersionSet.constructor: VersionSet.cs:9 calls a parameterless `Version` constructor that Version.cs does not define; it is read as a version with empty levels. `LogNumber`, `NextFileNumber` and `ManifestFileNumber` are used by StorageState.cs and StorageWriter.cs but not declared in VersionSet.cs; the model adds them with LevelDB's initial values 0, 2 and 0.
- StorageStates.StorageState.constructor: the source never assigns `MemTable` before the first memtable switch (StorageWriter.cs:172), so a first write would dereference null at StorageWriter.cs:97 or 147; the model starts with an empty memtable and does not capture that null dereference.
- Binary.RotationOrIsSum: the identity is stated on 32-bit words; that the word operations agree with the integer arithmetic of RotateRight17 is not proved, since the solver does not finish the conversion between `bv32` and `int`.
- Versions.Version.UpdateStats: `FileMetadata` is a shared object in the source, and the `AllowedSeeks` decrement (Version.cs:210) is seen by every version and edit holding that file; the model keeps file metadata as values in each version, so a seek charge is seen only by the version charged.
- WriteBatches.WriteBatch.Prepare: the unseen `MemTable.Write` is taken to succeed for a delete's null stream, storing nothing and returning a handle.
- The three-argument `Version` constructor throws; `new Version(Options, VersionSet)` in `LogAndApply` is read as a fresh empty version.
- StorageStates.StorageState.LogAndApply: void in the source; the model returns whether the version was installed.
- The level >= 1 branch of `TryGet`: it uses `TryFindFile`, which is not shown, with the found index in the opposite sense. Only the level-0 search and seek charging are modelled.
- `CompactionStats`, the stopwatch. `CompactMemTable` calls `CompactionStats[level].Add` on an array whose slots are never filled (StorageState.cs:32); if `CompactionStats` is a class, that call throws, and the model does not capture that failure.
- `Debug.Assert(PrevLogNumber == 0)` and the `Dispose` paths (the old log writer, builders, blocks, filters).
- Exceptions thrown by `FilterPolicy.CreateFilter` in the table constructor.
- StorageWriters.StorageWriter.WriteLevel0Table: `currentVersion != null` always holds in the model, since the version set always has a current version.
- The descriptor file name layout is a simple concatenation; only its length matters to `SetCurrentFile`.
- The checked `opCount` sum can overflow for more than `int.MaxValue` operations; the model's keys and values are below 2^31 bytes in the round trip.
- ManualCompactors.ManualCompactor.CompactAsync: with `BackgroundCompactionScheduled` set it loops for ever in the source, since nothing clears the flag; the model stops with a waiting outcome.
- ManualCompactors.ManualCompactor.CompactAsync: `state.BackgroundTask` is taken as non-null once the range is compacted, so the outer loop ends.
- The Nevar B-tree engine, `Storage.cs`, `IStorageCommands.cs` and `FileSystem.cs`: facade, interface and name formatting, outside this core.
