# A verified model of the LSM column store

This project models, in Dafny, a single-node LSM column store with a SQL executor, and proves
what its parts promise. `dafny verify dfyconfig.toml` checks all of it.

What is modelled, module by module:

- **The LSM engine as one map.** `SkipLists` is the linked skip list with its forward pointers,
  spliced in place; `MemTables` adds size accounting and freezing. `MergeHeaps`, `Merges` and
  `MergeIterators` are the k-way merge on a binary heap. `LsmModel` says what readers see through
  segments and memtables, and what the column encoders make of the rows of a segment; `LsmEngine` is
  the engine object. `LogRecords` is the replay of the log, `Recovery` the machine of an engine with
  its files, `Crashes` what a crash shows and loses, `Restarts` any number of them. `SegmentSearch`,
  `PrimaryIndexes` and `SegmentLoading` are the lookups and the reload of segments. Throughout, the
  last write to a key wins.
- **The byte formats.** `WriteAheadLogs` frames records, `WalCodec` is the batch payload,
  `ColumnCodecs` the column encodings, `SegmentFiles` the segment file, `Bitmaps` the word-packed
  bitmap, over the little-endian numbers of `Bytes`; `FlushedFiles` composes them, from a memtable to
  its segment file and back.
- **The query layer.** `Expressions` is the meaning of SQL expressions; `Analyzer` builds the plan of a
  SELECT and says what it returns, from the stored rows to the answer; `Plans`, `Aggregation` and
  `Limits` execute plans on chunks; `Folding`, `PlanRules`, `ColumnPruning` and `Optimizer` are the
  rewrite rules, and `StoredValues` says which stored values a scan hands on unchanged;
  `SparseIndexes` and `SegmentPruning` skip segments by statistics, which `SegmentStatistics` derives
  from the encoded columns; `Like` is the pattern matcher.
- **Concurrency, caching and the memory engine.** `GroupCommits` is the group-commit protocol over
  all interleavings; `BlockCaches` the LRU cache; `MemoryEngines` the in-memory engine.

Conventions. Strings and keys are byte sequences. Floating point and the text of values are
parameters (`FloatOps`): every theorem holds for any choice of them, NaN included, unless it names a
law it needs. Objects the program updates in place are classes whose methods are proved against
functions of the old state; random skip-list levels, checksums and I/O outcomes are parameters.

Where the code does not keep what it promises, the model follows the code and says exactly when it
does keep it:

- LIKE tests the literal case before the wildcard case, so a subject with a percent sign can be
  missed (`Like.CorrectIffNoPercent`).
- A LIMIT whose count is close to 2^64 wraps and returns nothing (`Limits.LimitCorrectIff`).
- BOOL columns do not survive a flush or a compaction: their packed words are encoded as one word a
  row, so a column of false and true comes back as true and false (`LsmModel.EncodedIff`,
  `LsmModel.TwoRowsSwap`, `FlushedFiles.FlushedFileIsExactIff`). Theorems about contents take `all`:
  with it they speak of all values and ask that what was encoded kept its BOOL columns, as tables
  without BOOL columns always do; without it they hold of every run and hide BOOL values, not their
  NULL marks.
- A batch that holds one value of type NULL cannot be decoded and is skipped at replay; one of 65536
  rows or more, or with a key, name or string of 65536 bytes or more, does not come back either, the
  fields being 16 bits wide (`WalCodec.SurvivesReplayIff`, `Crashes.RowsReadIff`, `Crashes.NullIsLost`).
- A segment whose footer exceeds the reader's limits is written and then refused
  (`SegmentFiles.FooterReads`).
- Segment files are loaded in the order of their names, 10 before 9, after which scans and point
  reads may disagree (`SegmentLoading.NameOrderIff`, `SegmentLoading.LoadedReadersAgreeIff`).
- Dictionary statistics bound nothing (`SparseIndexes.DictStatsRightIff`), and skipping a segment can
  expose an older version (`SegmentPruning.PruningInvisibleIff`).
- Pushdown evaluates WHERE on the stored value instead of the column's. INSERT leaves some values
  with another type than their column, such as a string in a TIMESTAMP column or a fraction in an
  INT32 column, and for these the optimized query returns other rows (`PlanRules.AbsorbsIff`,
  `StoredValues.InsertedSurvivesIff`, `PlanRules.StoredStringIsFound`).
- A select list of bare columns gets no projection: the answer has the scanned columns in table order,
  so that SELECT b, a returns a, b and SELECT a ... WHERE c = 1 returns c too
  (`Analyzer.ListShownIff`, `Analyzer.SwappedColumns`).
- SUM and AVG get a column of their argument's type: over integers the result is cut to an integer, and
  over a computed argument the query fails (`Analyzer.SumColumnIff`). GROUP BY over no rows returns one
  row (`Aggregation.NoRowsOneGroup`).
- Of values whose types do not compare both `<=` and `>=` hold (`Expressions.ComparisonMeans`), and a
  text inserted into a BOOL column reads as false (`StoredValues.InsertedStoresIff`).
- GROUP BY compares texts: NULL and the string it prints as share a group (`Aggregation.NullGroupIff`),
  and once two columns may hold zero bytes, these move between columns (`Aggregation.SeparatesIff`).
- A row slice of a boolean column copies whole words (`Bitmaps.BoolSliceCorrectIff`).
- Rotating the log closes the old file without syncing it (`GroupCommits.RotationReleasesUndurable`,
  `GroupCommits.ReleasedDurableIff`), and recovery never reads the file set aside
  (`Recovery.RotatedKeyIsLostIff`).
- A tombstone is lost at a flush (`LsmModel.FlushInvisibleIff`) and in a crash
  (`Crashes.CrashInvisibleIff`), and after a second recovery a write can be skipped
  (`Recovery.NextWriteSurvivesIff`, `Restarts.RestartSafeIff`, `Restarts.SecondRecoveryCanLoseAWrite`).
- Column pruning is right only because pushdown runs first
  (`ColumnPruning.PruningAFilterLosesColumns`).

## Model

| member | source | states |
|---|---|---|
| `Keys.LessMeans` | pkg/storage/memtable.go:111-122 | one key is less than another exactly when at the first place where they differ it has ended or has the smaller byte |
| `Keys.OrderLaws` | pkg/storage/memtable.go:111-122 | key comparison, byte by byte, is a strict total order on all byte strings |
| `SortedEntries.UpsertSorted` | pkg/storage/memtable.go:125-161 | putting into the ordered entries keeps them strictly ascending and changes the map at that key only |
| `SortedEntries.RemoveSorted` | pkg/storage/memtable.go:177-210 | deleting keeps them strictly ascending and removes exactly that key from the map |
| `SortedEntries.LookupIsMap` | pkg/storage/memtable.go:164-170 | looking a key up by lower bound is looking it up in the map, present or absent |
| `SortedEntries.SliceFacts` | pkg/storage/memtable.go:215-253 | the entries from start to end stand for the map restricted to that closed range |
| `SortedEntries.SortedCanonical` | pkg/storage/memtable.go:401-412 | a map has exactly one strictly ascending representation |
| `Values.KeptShows` | pkg/storage/column.go:195-225 | what a column shows of a value, part by part: its number, bits, text or instant under the type of the column when the types agree or both are integers, NULL otherwise; and exactly these values it accepts |
| `SkipLists.LevelIsFilter` | pkg/storage/memtable.go:111-122 | following level i visits, in order and once each, exactly the nodes of that height or more |
| `SkipLists.LevelsAreNested` | pkg/storage/memtable.go:111-122 | every node on level i+1 is on level i |
| `SkipLists.TargetsAfterInsert` | pkg/storage/memtable.go:139-160 | after an insertion, for every node and level, which node the link leads to: the new one exactly when it lies between |
| `SkipLists.SpliceLinks` | pkg/storage/memtable.go:139-160 | rewriting only the links in the predecessor buffer re-establishes the link structure of all levels |
| `SkipLists.UnspliceLinks` | pkg/storage/memtable.go:190-201 | bypassing a node on the levels it has re-establishes the link structure of the remaining nodes |
| `SkipLists.SkipList.FindLess` | pkg/storage/memtable.go:111-122 | ends at the last node below the key and leaves in the buffer the last node below it on every level in use |
| `SkipLists.SkipList.Insert` | pkg/storage/memtable.go:139-160 | links a new node of any height in place: the contents are the old ones with the entry upserted |
| `SkipLists.SkipList.Put` | pkg/storage/memtable.go:125-161 | for every random level: the contents are the old ones with the key set, and the previous value is returned |
| `SkipLists.SkipList.Delete` | pkg/storage/memtable.go:177-210 | the contents are the old ones without the key, the removed value is returned, and the level shrinks to the tallest node |
| `SkipLists.SkipList.Unlink` | pkg/storage/memtable.go:187-209 | takes the found node out of every level it is on |
| `SkipLists.SkipList.LowerLevel` | pkg/storage/memtable.go:203-207 | the list level ends at the height of the tallest remaining node |
| `SkipLists.SkipList.Get` | pkg/storage/memtable.go:164-170 | finds exactly what the contents hold under the key |
| `SkipLists.SkipList.ScanRange` | pkg/storage/memtable.go:215-253 | returns exactly the entries with start <= key <= end, in order |
| `SkipLists.SkipList.All` | pkg/storage/memtable.go:401-412 | returns all entries in order |
| `MemTables.SizeAfterUpdate` | pkg/storage/memtable.go:279-324 | an upsert changes the sum of the entry sizes by the new entry minus the one it replaces; a removal by the one it removes |
| `MemTables.MemTable.Put` | pkg/storage/memtable.go:279-298 | a frozen table refuses; otherwise the entry is set and the size stays the sum of all entry sizes |
| `MemTables.MemTable.Delete` | pkg/storage/memtable.go:309-324 | a frozen table refuses; otherwise the key goes and the size stays the sum of all entry sizes |
| `MemTables.MemTable.Get` | pkg/storage/memtable.go:301-306 | finds exactly what the table holds |
| `MemTables.MemTable.ScanRange` | pkg/storage/memtable.go:328-338 | returns exactly the entries of the closed range, in order |
| `MemTables.MemTable.All` | pkg/storage/memtable.go:401-412 | returns all entries in order |
| `MemTables.MemTable.ShouldFlush` | pkg/storage/memtable.go:367-371 | full exactly when the sum of the entry sizes reaches the limit |
| `MergeHeaps.RootIsLeast` | pkg/storage/iterator.go:258-263 | in a heap the root is at most every node: least key, and among equal keys the newest source |
| `MergeHeaps.MergeHeap.Down` | pkg/storage/iterator.go:368-381 | sifting down restores the heap order from the damaged node on, permuting the nodes |
| `MergeHeaps.MergeHeap.Up` | pkg/storage/iterator.go:269-271 | sifting up restores the heap order, permuting the nodes |
| `MergeHeaps.MergeHeap.Init` | pkg/storage/iterator.go:296-318 | builds a heap of exactly the given nodes |
| `MergeHeaps.MergeHeap.Push` | pkg/storage/compaction.go:151-151 | adds one node and keeps the heap |
| `MergeHeaps.MergeHeap.Pop` | pkg/storage/iterator.go:273-279 | removes the root, which was least, and keeps the heap of the rest |
| `MergeHeaps.MergeHeap.FixRoot` | pkg/storage/iterator.go:368-381 | restores the heap after the root was replaced |
| `Merges.MergedKeys` | pkg/storage/iterator.go:254-263 | the merged map has a key exactly when some source holds it |
| `Merges.MergedAt` | pkg/storage/iterator.go:254-263 | the merged map gives a key the value of the highest source that holds it |
| `Merges.LeastHeadWins` | pkg/storage/iterator.go:321-381 | the least unread head is the least key not yet emitted and carries the winning value |
| `Merges.EmitStep` | pkg/storage/iterator.go:360-366 | emitting it extends the output by the next key of the union |
| `Merges.Complete` | pkg/storage/iterator.go:321-354 | when all sources are read, the output is the whole union, strictly ascending |
| `Merges.RemainingAdvance` | pkg/storage/iterator.go:368-381 | every advance of a source reduces the number of entries left by exactly one |
| `MergeIterators.MergeFront.AdvanceHeapTop` | pkg/storage/iterator.go:368-381 | moves one source on and restores the heap of heads; one entry fewer remains |
| `MergeIterators.MergeIterator.Next` | pkg/storage/iterator.go:321-366 | emits the next key of the union with its winning value, or reports the end exactly when all has been emitted |
| `MergeIterators.MergeIterator.SkipCurrent` | pkg/storage/iterator.go:343-354 | skips every older version of the key just emitted |
| `MergeIterators.MergeAll` | pkg/storage/iterator.go:467-498 | the iterator delivers each key of the union once, ascending, from the highest source holding it |
| `MergeIterators.MergeForCompaction` | pkg/storage/compaction.go:165-233 | the compaction merge delivers the same map, except that a row under the empty key is dropped |
| `LsmModel.StoreReadBack` | pkg/storage/segment_codec.go:51-71 | a row in storage form read back and stored again is unchanged |
| `LsmModel.StoreShows` | pkg/storage/segment_codec.go:51-71 | a stored row has a cell for every column, each showing the value the row holds under its name, NULL when it holds none or one the column does not accept |
| `LsmModel.ReadIsWritten` | pkg/storage/engine_ops.go:248-264 | a row that is read shows under every column what was written there, whatever integer type it was written with |
| `LsmModel.ViewAfterPut` | pkg/storage/engine.go:156-203 | a put into the newest source changes what readers see at that key only |
| `LsmModel.EncodedIff` | pkg/storage/encoding.go:310-441 | rows given to the encoders come back from a segment as they were exactly when no BOOL column holds a true value below its first row; the packed words of a BOOL column are taken for one word a row |
| `LsmModel.TwoRowsSwap` | pkg/storage/encoding.go:310-441 | a BOOL column of false and true comes back as true and false |
| `LsmModel.FlushEffect` | pkg/storage/engine.go:225-287 | flushing any number of frozen tables leaves what readers see, up to tombstones that come back as rows of NULLs and, unless every flushed table keeps them, up to BOOL values |
| `LsmModel.FlushInvisibleIff` | pkg/storage/engine.go:225-287 | a complete flush is invisible to every scan exactly when no row that decides its key is a tombstone and each of them reads back from its segment as it was |
| `LsmModel.CompactEffect` | pkg/storage/compaction.go:272-382 | replacing the segments by the one merged and encoded segment changes nothing readers see, BOOL values apart unless the merged rows keep them |
| `LsmModel.BatchSets` | pkg/storage/engine_ops.go:92-146 | of the rows of a batch under one key the last decides |
| `LsmModel.LastWriteIsSeen` | pkg/storage/engine_ops.go:92-146 | over every run of writes, batches, deletes, rotations, flushes and compactions, a key shows, cell by cell and in the terms of `Values.Shows`, the columns of the last successful operation on it, a single write or a row of a batch; BOOL values too when everything encoded since kept its BOOL columns |
| `LsmModel.AbsentStays` | pkg/storage/engine_ops.go:248-264 | a key no successful operation touches stays absent |
| `LsmModel.FinalKeys` | pkg/storage/engine_ops.go:92-194 | after a run the contents hold exactly the keys there before and those touched with success |
| `LsmModel.RunIsVisible` | pkg/storage/engine_ops.go:92-298 | after a run from nothing whose flushes were complete, a range shows exactly the keys under which the run leaves a row, each cell showing what the row holds for its column, BOOL values included when everything encoded kept its BOOL columns |
| `LsmModel.DeleteHidesUntilFlush` | pkg/storage/engine_ops.go:152-194 | a delete hides its key and every older version until a flush: without one it stays hidden, after a complete one it shows a row of NULLs |
| `SegmentSearch.FindRowByKey` | pkg/storage/segment.go:415-432 | binary search finds the row exactly when the key is present |
| `SegmentSearch.FindRowByKeyGE` | pkg/storage/segment.go:436-454 | finds the first row not below the key, or reports that there is none |
| `SegmentSearch.FindRowByKeyLE` | pkg/storage/segment.go:458-476 | finds the last row not above the key, or reports that there is none |
| `SegmentSearch.ComputeRange` | pkg/storage/segment.go:481-495 | delimits exactly the rows with start <= key <= end, or reports that there are none |
| `SegmentSearch.SegmentScan` | pkg/storage/iterator.go:125-233 | a segment iterator delivers exactly the rows of the range, in order |
| `PrimaryIndexes.PrimaryIndex.RegisterSegment` | pkg/index/primary.go:30-44 | adds the segment and keeps the index ordered by least key; zero ids and inverted ranges are refused |
| `PrimaryIndexes.PrimaryIndex.UnregisterSegment` | pkg/index/primary.go:47-58 | removes exactly one segment of that id, or reports that there is none |
| `PrimaryIndexes.KeyInRangeMeans` | pkg/index/primary.go:166-171 | a key is covered when it is at least the least key of the segment and at most its greatest |
| `PrimaryIndexes.RangeOverlapIff` | pkg/index/primary.go:173-178 | two key ranges overlap exactly when some key is in both |
| `PrimaryIndexes.PrimaryIndex.Lookup` | pkg/index/primary.go:62-99 | returns exactly the segments whose key range covers the key |
| `PrimaryIndexes.PrimaryIndex.Range` | pkg/index/primary.go:104-131 | returns exactly the segments whose key range meets the interval |
| `LsmEngine.SortSegsById` | pkg/storage/compaction.go:161-163 | sorting the segments by id permutes them |
| `LsmEngine.OrderingUnique` | pkg/storage/compaction.go:161-163 | segments with distinct ids have only one order by id |
| `LsmEngine.Engine.RotateMemTable` | pkg/storage/engine_ops.go:51-59 | freezing the active table changes nothing readers see |
| `LsmEngine.Engine.Write` | pkg/storage/engine.go:156-203 | sets the key to the row in storage form, which shows every written value its column accepts, and takes one version; an empty key is refused |
| `LsmEngine.Engine.WriteBatch` | pkg/storage/engine_ops.go:92-146 | writes the rows in order, the last row of a key winning, or none if a key is empty |
| `LsmEngine.Engine.Delete` | pkg/storage/engine_ops.go:155-194 | leaves a tombstone under the key |
| `LsmEngine.Engine.AddSegment` | pkg/storage/engine_ops.go:30-49 | appends a segment with its level, map entry and key range |
| `LsmEngine.Engine.DrainImmutable` | pkg/storage/engine.go:217-222 | hands over all frozen tables and the active one, nothing lost |
| `LsmEngine.Engine.Flush` | pkg/storage/engine.go:225-252 | exactly the tables before the first one that stops it are written, one segment each, and the others stay queued: a table stops it when its disk write fails, some column has no type, or it holds a value that is neither NULL nor of the type of its column nor an integer in an integer column; it succeeds exactly when none does; readers see the same up to tombstones and, unless each table written keeps them, BOOL values |
| `LsmEngine.Engine.FlushOne` | pkg/storage/flusher.go:63-85 | writes one table as a segment under the same keys, every cell showing what the table holds for its column, BOOL values as the column encoders leave them |
| `LsmEngine.Engine.CollectSegmentsByLevel` | pkg/storage/engine.go:371-381 | returns the segments of a level, in order |
| `LsmEngine.Engine.Compact` | pkg/storage/compaction.go:336-382 | succeeds exactly when there is nothing at level 0, or every column has a type and the disk does not fail; then one segment at level 1 is left, the encoded merge of all, else nothing changes; readers see the same but BOOL values, and those only if the merged rows do not keep them |
| `LsmEngine.Engine.RemoveCompactedSegments` | pkg/storage/compaction.go:386-409 | keeps exactly the merged segment, last in the list, in every structure |
| `LsmEngine.Engine.Get` | pkg/storage/engine_ops.go:248-264 | returns the live row readers see under the key, each column showing what was written, and nothing for absent or deleted keys |
| `LsmEngine.Engine.GetFromSegments` | pkg/storage/engine_ops.go:266-298 | through the range index, the filter and the ids, returns the row of the newest segment holding the key |
| `LsmEngine.Engine.BuildScanIterators` | pkg/storage/iterator.go:435-454 | the sources of a scan merge to all data restricted to the range |
| `LsmEngine.Engine.ScanRange` | pkg/storage/iterator.go:467-498 | lists exactly the live keys of the range, each once, ascending, with the row readers see, each column showing what was written |
| `LsmEngine.Engine.Run` | pkg/storage/engine_ops.go:30-298 | every sequence of operations, failures included, is a run of the specification from the contents before it |
| `FlushedFiles.NullBitmap` | pkg/storage/column.go:204-241 | marks exactly the NULL rows |
| `FlushedFiles.PackBools` | pkg/storage/column.go:138-147 | packs 64 rows to a word, bit by bit |
| `FlushedFiles.EncodeBitmap` | pkg/storage/encoding.go:310-333 | writes one bit a row: whether the word of that index has a bit set |
| `FlushedFiles.DecodeBitmap` | pkg/storage/encoding.go:428-441 | reads one bit a row |
| `FlushedFiles.EncodeColumn` | pkg/storage/flusher.go:153-179 | encodes a column of any type so that the bytes stand for its values |
| `FlushedFiles.ColumnReadsBack` | pkg/storage/segment_codec.go:51-115 | every value of an encoded column comes back, BOOL values as the packed words have them |
| `FlushedFiles.EncodeColumns` | pkg/storage/flusher.go:63-113 | one encoded column for each column of the table, each standing for its values |
| `FlushedFiles.WrittenRowsReadBack` | pkg/storage/segment_codec.go:38-136 | rows encoded, written to a segment file with their keys, read and decoded are the rows the model says a segment gives back |
| `FlushedFiles.FlushedFileIsExactIff` | pkg/storage/flusher.go:63-179 | the file of a flushed memtable gives its rows in storage form exactly when none of its BOOL columns holds a true value below the first row |
| `LogRecords.RecordReadsIff` | pkg/storage/wal_record.go:30-73 | an appended record is read back with all its rows exactly when its batch fits the 16-bit fields and holds no value of type NULL; none is read back with more |
| `LogRecords.FindLastCheckpoint` | pkg/storage/wal_record.go:98-120 | finds the greatest flushed version any checkpoint records |
| `LogRecords.ApplySingleWriteRecord` | pkg/storage/wal_record.go:157-171 | puts the row when it is newer than the checkpoint, nothing when the payload cannot be decoded |
| `LogRecords.ApplyBatchWriteRecord` | pkg/storage/wal_record.go:173-190 | puts exactly the decoded rows newer than the checkpoint and returns their greatest version |
| `LogRecords.ReplayRecords` | pkg/storage/wal_record.go:122-215 | from the raw records of the file: the memtable holds the last readable write to each key newer than the checkpoint |
| `LogRecords.MaxVersionMeans` | pkg/storage/wal_record.go:122-155 | the version carried on is the greatest among the replayed rows |
| `Recovery.InvPreserved` | pkg/storage/engine.go:156-313 | every step of logging, refusing, applying, rotating tables or the log, flushing, compacting and restarting keeps the relation between log file, tables and segments |
| `Recovery.RecoveryIsExact` | pkg/storage/wal_record.go:193-307 | at every crash point of every run from an empty directory, restarts included, replaying the records of the file over the segments gives what applying all logged rows gives, when every appended batch survives replay, restarts were safe and unflushed rows are in the current file |
| `Recovery.RotatedKeyIsLostIff` | pkg/storage/wal.go:267-330 | after the log was rotated a crash loses a key exactly when every row logged under it is unflushed and in a file set aside |
| `Recovery.ReplayTwice` | pkg/storage/wal_record.go:124-141 | flushing what a replay put into the memtable and replaying the same log over the new segment changes nothing, BOOL values apart unless the table keeps them |
| `Recovery.CheckpointIsFlushed` | pkg/storage/engine.go:290-313 | a checkpoint claims no row of the file that is not flushed, nor a version still to come |
| `Recovery.NextWriteSurvivesIff` | pkg/storage/wal_record.go:209-212 | the first version given out after a recovery is above the checkpoint exactly when the checkpoint is below 2 or some newer row was replayed |
| `Crashes.RecoveredIsTheView` | pkg/storage/wal_record.go:193-215 | readers of the recovered engine see exactly the recovered rows |
| `Crashes.CrashRevives` | pkg/storage/wal_record.go:157-171 | a crash changes what readers see in one way: tombstones in memory, which the log does not hold, come back as rows of NULLs |
| `Crashes.CrashInvisibleIff` | pkg/storage/wal_record.go:157-171 | readers cannot tell the crash exactly when no tombstone is in memory |
| `Crashes.CrashAnywhere` | pkg/storage/wal.go:67-101 | from the bytes of the log file, cut anywhere inside a further record, to the contents: what is recovered is what applying all logged rows gives |
| `Crashes.LostSegmentIff` | pkg/storage/wal_record.go:217-307 | a segment file that cannot be loaded is missed exactly when it decides some key with a row older segments do not have |
| `Crashes.RowsReadIff` | pkg/storage/wal_record.go:122-141 | over every run without a rotation of the log, all logged rows are read back exactly when every appended batch survives |
| `Crashes.NullIsLost` | pkg/storage/wal_record.go:157-171 | one inserted NULL: the row is logged, applied and shown, and gone after a crash |
| `Restarts.RestartsAreExact` | pkg/storage/wal_record.go:193-307 | over any number of crashes and restarts, at every moment the engine shows what applying all logged rows shows, under the conditions of `Recovery.RecoveryIsExact` |
| `Restarts.RestartSafeIff` | pkg/storage/wal_record.go:209-212 | a new key written after a restart and before the next crash is shown, with everything else as logged, exactly when the restart was safe |
| `Restarts.SecondRecoveryCanLoseAWrite` | pkg/storage/wal_record.go:161-163 | a run with two flushes and three restarts, one of them unsafe, after which a logged write is not shown |
| `SegmentLoading.NameOrderIff` | pkg/storage/wal_record.go:217-252 | two segment files stand in id order exactly when the smaller id is at most the leading digits of the larger |
| `SegmentLoading.SameDigitsInOrder` | pkg/storage/wal_record.go:255-285 | ids with the same number of digits stand in order |
| `SegmentLoading.TenBeforeNine` | pkg/storage/wal_record.go:255-285 | segment 10 is listed before segment 9 |
| `SegmentLoading.ScanPicksMerged` | pkg/storage/iterator.go:467-498 | a scan takes a key from the last source in list order |
| `SegmentLoading.ListedInIdOrderIff` | pkg/storage/wal_record.go:255-285 | a directory lists its segment files in id order exactly when every two of their ids satisfy that |
| `SegmentLoading.ReadersAgreeIff` | pkg/storage/wal_record.go:267-285 | a scan and a point read over a list of segments agree on every content exactly when the list is ascending by id |
| `SegmentLoading.LoadedReadersAgreeIff` | pkg/storage/wal_record.go:255-285 | after loading a directory they agree on every content exactly when every two of the ids list in order |
| `SegmentLoading.LoadFiles` | pkg/storage/wal_record.go:255-288 | keeps every readable segment in directory order, at level 0 and in the map, fails only when no segment file can be read, and returns the greatest id |
| `SegmentLoading.LoadSegments` | pkg/storage/wal_record.go:255-307 | after that registers them: on success the map matches the list, if the ids are distinct, and the index holds exactly their key ranges |
| `Like.LikeMatch` | pkg/query/compare.go:75-101 | the two-pointer loop terminates and, for a subject without a percent sign, decides the recursive meaning of LIKE |
| `Like.ScanIsLike` | pkg/query/compare.go:75-101 | backtracking to the latest percent sign is enough, for every such subject and every pattern |
| `Like.CorrectIffNoPercent` | pkg/query/compare.go:82-85 | it is right for every pattern exactly when the subject holds no percent sign |
| `Expressions.FlipMeaning` | pkg/query/compare.go:126-140 | exchanging the operands and flipping the operator keeps every comparison |
| `Expressions.AdditiveOverflowExact` | pkg/query/executor_expr.go:219-231 | the addition and subtraction tests report an overflow exactly when the result leaves 64 bits |
| `Expressions.MulOverflowExact` | pkg/query/executor_expr.go:233-252 | so does the division-based multiplication test, for all operands and signs |
| `Expressions.IntArithmeticExact` | pkg/query/executor_expr.go:196-238 | each operation gives the mathematical result when it fits, an error exactly when it does not, NULL on division by zero |
| `Expressions.ComparisonMeans` | pkg/query/compare.go:12-28 | every comparison of two values: integers as numbers, other numbers as floats, strings byte by byte, truth values and instants as numbers; of other types both orders hold and equality does not |
| `Expressions.ArithmeticMeans` | pkg/query/executor_expr.go:172-238 | integer arithmetic on values is exact or an error; a quotient leaves a remainder smaller than the divisor with the sign of the dividend |
| `Expressions.FloatArithmeticMeans` | pkg/query/executor_expr.go:172-194 | with a float on one side both operands are taken as floats, and only division by zero gives NULL |
| `Expressions.NegationMeans` | pkg/query/executor_expr.go:135-157 | negation is the complement in 64 bits under the type of the integer, twice gives it back, and is an error for what is no number |
| `Expressions.LogicMeans` | pkg/query/executor_expr.go:60-112 | AND, OR and NOT on truth with NULL as false, which errors they pass over, and NULL for NULL elsewhere |
| `Expressions.EvalSeesRefs` | pkg/query/executor_expr.go:31-58 | an expression depends only on the columns it references, values and errors alike |
| `Folding.FoldPreservesEval` | pkg/query/optimizer_constant_folding.go:50-118 | folding changes neither the value nor the error of any expression on any row |
| `Folding.FoldIdempotent` | pkg/query/optimizer_constant_folding.go:50-118 | folding twice is folding once, so a tree shared by two nodes may be folded through both |
| `Folding.FoldKeepsRefs` | pkg/query/optimizer_constant_folding.go:50-118 | folding introduces no column reference |
| `Folding.FoldsEverything` | pkg/query/optimizer_constant_folding.go:50-118 | folding leaves no comparison, AND or OR of two constants and no NOT of one |
| `Folding.ConstantFolds` | pkg/query/optimizer_constant_folding.go:50-118 | an expression of constants under these operators becomes the constant it evaluates to |
| `Folding.MergeConjuncts` | pkg/query/optimizer_helpers.go:61-70 | joins the conjuncts with AND from the left, nothing for an empty list |
| `Folding.SplitMeansAnd` | pkg/query/optimizer_helpers.go:51-57 | the split conjuncts evaluated in order give the truth of the predicate, with its error |
| `Folding.SplitMergePreserves` | pkg/query/optimizer_helpers.go:51-70 | splitting and merging again keeps the value and the error on every row |
| `Chunks.RowValuesByIndex` | pkg/query/executor_expr.go:13-28 | reading a column by name in the row map is reading the cell at its index |
| `Chunks.CoerceStores` | pkg/query/executor_ops.go:286-312 | a converted value fits its column exactly when the column can be made to hold the value: NULL, its own type, numbers and truth values in integer columns, integers and truth values in FLOAT64, anything in BOOL; and is then the number, its conversion or its truth |
| `Aggregation.TrySimplePlan` | pkg/query/executor_aggregate.go:191-223 | accepts exactly the aggregates whose expressions are all resolved columns of the input, with their indexes |
| `Aggregation.AggregateRowsSlow` | pkg/query/executor_aggregate.go:142-178 | the general path forms the specified groups over every chunk list |
| `Aggregation.AggregateRowsFast` | pkg/query/executor_aggregate.go:228-255 | the fast path forms the same accumulators in the same group order, and groups alike on the GROUP BY columns |
| `Aggregation.GroupsMean` | pkg/query/executor_aggregate.go:155-168 | a group exists exactly when a row has its key; it has folded exactly those rows, and keeps the first |
| `Aggregation.SeparatesIff` | pkg/query/executor_aggregate.go:366-387 | the key text keeps all tuples of GROUP BY texts apart exactly when zero bytes can occur in at most one column |
| `Aggregation.SameGroupIff` | pkg/query/executor_aggregate.go:366-387 | with zero bytes in the texts of one GROUP BY column at most, two rows share a group exactly when the texts agree column by column |
| `Aggregation.NullGroupIff` | pkg/query/executor_aggregate.go:366-387 | on a string column NULL shares a group with a stored string exactly when that string is what NULL prints as |
| `Aggregation.ZeroByteMergesGroups` | pkg/query/executor_aggregate.go:366-387 | with a zero byte in a string, rows that differ share a group |
| `Aggregation.OrderMeans` | pkg/query/executor_aggregate.go:161-166 | groups come out in the order their first rows come in, each once |
| `Aggregation.AccumulatorMeans` | pkg/query/executor_aggregate.go:316-330 | an accumulator has folded its argument over the rows of its group, skipping those where it fails |
| `Aggregation.AggregateMeans` | pkg/query/executor_aggregate.go:40-112 | over the values of its argument COUNT is their number, NULLs included; SUM is NULL exactly when none is valid, else their sum as floats from zero and from the left; AVG is that sum divided by the number of valid ones; MIN and MAX are valid values no other beats |
| `Aggregation.ArgsMean` | pkg/query/executor_aggregate.go:316-330 | the values are those of the argument on exactly the rows of the group where it evaluates, one NULL a row for COUNT(*) |
| `Aggregation.GroupedAnswerMeans` | pkg/query/executor_aggregate.go:332-364 | for any rows: one output row for each group in the order of first appearance, each cell holding the first row's GROUP BY value or the aggregate over exactly the rows of the group, as the column holds it; or the first group and column that cannot hold theirs |
| `Aggregation.NoRowsOneGroup` | pkg/query/executor_aggregate.go:170-175 | over no rows there is one row: COUNT 0, the other aggregates and GROUP BY columns NULL |
| `Aggregation.ExtremeMeans` | pkg/query/executor_aggregate.go:61-112 | MIN and MAX return one of the values that no other beats, NULL exactly when all are NULL |
| `Aggregation.ColumnIsOrdered` | pkg/common/types.go:164-191 | the values of one non-float column are ordered, so that holds for them |
| `Aggregation.SameGroupsSameOutput` | pkg/query/executor_aggregate.go:332-364 | groups alike on the GROUP BY columns give the same output rows or the same failure |
| `Aggregation.BuildOutput` | pkg/query/executor_aggregate.go:332-364 | one row per group, in group order; the first value that does not fit its column fails the query |
| `Aggregation.ExecuteAggregate` | pkg/query/executor_aggregate.go:115-140 | by whichever path applies, the output rows are, cell by cell, the groups of the input rows with their GROUP BY values and their COUNT, SUM, AVG, MIN and MAX as the output columns hold them, one group for empty input included; it fails exactly at the first group and column that cannot hold its value |
| `Aggregation.AggregatedSeesRefs` | pkg/query/executor_aggregate.go:142-178 | the result depends only on the columns the aggregate references |
| `Limits.ExecuteLimit` | pkg/query/executor_ops.go:315-361 | the chunk loop refines its recursive form, 64-bit sums included |
| `Limits.LimitFromMeans` | pkg/query/executor_ops.go:315-361 | rows offset to offset+count of the input, or nothing when the first slice end passes 2^64 |
| `Limits.LimitCorrectIff` | pkg/query/executor_ops.go:343-348 | LIMIT is right exactly when that slice end fits in 64 bits or there is nothing to return |
| `Limits.LimitWithinRange` | pkg/query/executor_ops.go:315-361 | it is right whenever offset + count fits in 64 bits |
| `Limits.LargestCountLosesRows` | pkg/query/executor_ops.go:343-348 | the largest count with an offset of one loses the row |
| `Plans.BuildChunksFromEntries` | pkg/query/executor.go:238-268 | every stored row in order, each cell showing the value stored under the column as the column holds it, NULL where it cannot; full chunks of 1024 rows and one shorter at the end; no column, no chunk |
| `Plans.FilterChunk` | pkg/query/executor_ops.go:66-72 | keeps exactly the rows on which the condition evaluates, without error, to something true, in their order |
| `Plans.ExecuteFilter` | pkg/query/executor_ops.go:13-33 | the same over the rows of all chunks, in order, with no empty chunk passed on |
| `Plans.SelectedMeans` | pkg/query/executor.go:195-212 | the scan keeps exactly the stored rows on which its predicate holds, in key order |
| `Plans.ProjectChunk` | pkg/query/executor_ops.go:252-282 | cell i of output row j is the value of expression i on input row j as the output column holds it, converted if not accepted; the query stops exactly when some expression fails or some value cannot be held, with the error of the first such row and expression |
| `Plans.ExecuteProject` | pkg/query/executor_ops.go:207-229 | the same over all rows of all chunks, in order, dropping empty chunks |
| `Plans.ExecuteNode` | pkg/query/executor.go:57-72 | execution of any plan is the specified result or error |
| `StoredValues.EvalSame` | pkg/query/executor_expr.go:31-58 | expressions cannot tell apart rows that hold the same contents under other integer types |
| `StoredValues.SurvivesIff` | pkg/query/executor.go:270-292 | a well-formed stored value survives the scan exactly when it is NULL, has the type of the column, or both are integers, and both or neither dates if a predicate may read its text |
| `StoredValues.InsertedSurvivesIff` | pkg/server/server_handlers.go:210-240 | which literals INSERT stores in a form that survives, for every literal and column type |
| `StoredValues.InsertedStoresIff` | pkg/server/server_handlers.go:210-240 | what INSERT stores is scanned as the column holds the literal, exactly when it can hold it and is not a BOOL column given a text or an instant |
| `StoredValues.TellingTells` | pkg/query/executor.go:270-292 | for every value that does not survive, a predicate on its column accepts it stored and rejects it scanned |
| `PlanRules.CanPushThroughProject` | pkg/query/optimizer_predicate_pushdown.go:87-103 | true exactly when every referenced column is in the input schema |
| `PlanRules.SplitPredicateByAggregate` | pkg/query/optimizer_predicate_pushdown.go:107-138 | separates the conjuncts that mention an aggregate output column from those that do not |
| `PlanRules.PushDown` | pkg/query/optimizer_predicate_pushdown.go:22-82 | pushdown terminates on every plan: it keeps the number of other nodes and never adds leading filters |
| `PlanRules.ScanAbsorbsFilter` | pkg/query/optimizer_predicate_pushdown.go:45-51 | a scan with the predicate of the filter above it may absorb the filter, if the stored values of the filtered columns survive the scan |
| `PlanRules.AbsorbsIff` | pkg/query/optimizer_predicate_pushdown.go:45-51 | a scan absorbs every predicate over its columns, those with LIKE included or not, exactly when every stored value of those columns survives it, its text included or not |
| `PlanRules.StoredStringIsFound` | pkg/query/optimizer_predicate_pushdown.go:45-51 | with the string 2 stored in a TIMESTAMP column, the filter finds nothing and the absorbed predicate one row |
| `PlanRules.PushDownPreserves` | pkg/query/optimizer_predicate_pushdown.go:22-82 | under the same condition pushdown keeps rows, chunk boundaries, schema and errors, and leaves no filter |
| `PlanRules.FoldNodeFolds` | pkg/query/optimizer_constant_folding.go:23-48 | the folding rule leaves nothing to fold in any predicate or projection of a plan |
| `PlanRules.FoldNodePreserves` | pkg/query/optimizer_constant_folding.go:23-48 | folding a plan changes nothing about any plan |
| `ColumnPruning.BuildPrunedSchema` | pkg/query/optimizer_column_pruning.go:114-125 | the first definition of each kept column, in order |
| `ColumnPruning.KeptInOrder` | pkg/query/optimizer_column_pruning.go:92-110 | pruning keeps exactly the needed columns, in the order of the scan |
| `ColumnPruning.PrunedSchemaMeans` | pkg/query/optimizer_column_pruning.go:92-125 | the pruned schema holds exactly the kept columns with their definitions |
| `ColumnPruning.PruneScanAgrees` | pkg/query/optimizer_column_pruning.go:92-110 | a pruned scan delivers the same rows in the same chunks, alike on the needed columns |
| `ColumnPruning.PruneAgrees` | pkg/query/optimizer_column_pruning.go:58-90 | through every node the pruned plan fails alike or delivers alike, and exactly alike above a projection or aggregation |
| `ColumnPruning.PrunePreserves` | pkg/query/optimizer_column_pruning.go:21-110 | pruning changes no result of a plan that ends in a projection, an aggregation or a bare scan, limits aside |
| `ColumnPruning.PruneKeepsNeeded` | pkg/query/optimizer_column_pruning.go:58-110 | after pruning no scan keeps a column that nothing above it mentions |
| `ColumnPruning.PruningAFilterLosesColumns` | pkg/query/optimizer_column_pruning.go:67-70 | directly under a filter it drops every column the filter does not mention |
| `Analyzer.HasAggregateIff` | pkg/query/analyzer_aggregate.go:20-36 | the test that makes a query an aggregation finds exactly the expressions from which a call is collected |
| `Analyzer.AggregateIff` | pkg/query/analyzer_aggregate.go:37-43 | the calls that aggregate are COUNT, SUM, MIN, MAX and AVG in any letter case, each parsed as its function |
| `Analyzer.RequiredMeans` | pkg/query/analyzer.go:262-296 | the scanned columns are exactly the mentioned ones, in table order |
| `Analyzer.ItemColumns` | pkg/query/analyzer.go:298-323 | an item of the list gives one output column, named by its alias or as it prints, of its type; `*` gives those of the table |
| `Analyzer.BareIff` | pkg/query/analyzer.go:325-352 | a projection is left out exactly for a lone `*` and for lists of columns, literals and `*` without alias |
| `Analyzer.TypeOfMeans` | pkg/query/plan.go:257-313 | a value an expression takes on a row whose values have their columns' types has the type the analyzer gives the expression |
| `Analyzer.ReadRowMeans` | pkg/query/executor_expr.go:13-28 | what expressions read under a column is what the scan shows of it |
| `Analyzer.MatchingMeans` | pkg/query/analyzer.go:68-99 | the matching rows are exactly those on which WHERE holds as they are stored and as they are read, in table order |
| `Analyzer.FilteredScanReturns` | pkg/query/analyzer.go:68-99 | the scan and the filter deliver the matching rows under the scanned columns |
| `Analyzer.SelectReturns` | pkg/query/analyzer.go:39-140 | every resolved SELECT, from the table to the answer. Plain: one output row for each matching row, in order, with the values of the select list as its columns hold them. Grouped: the groups of exactly the matching rows, and the select list over them. Then the rows from offset to offset + count. Or the error of the first matching row, or group, and column that has none |
| `Analyzer.PlainFailsInEvaluation` | pkg/query/executor_ops.go:219-226 | a query without grouping fails in no other way than by the error of an expression: the columns of the answer always hold their values |
| `Analyzer.ListShownIff` | pkg/query/analyzer.go:325-352 | a list of bare columns gets no projection and is returned as selected exactly when it names columns in table order, none twice, and WHERE mentions no other |
| `Analyzer.ShownListAnswers` | pkg/query/analyzer.go:325-352 | when it is, the answer holds the values of the list as a projected one does |
| `Analyzer.SwappedColumns` | pkg/query/analyzer.go:325-352 | SELECT b, a returns a, b |
| `Analyzer.PrintsAlike` | pkg/query/analyzer_aggregate.go:139-159 | an aggregate call prints like the aggregate collected from it, letter case aside |
| `Analyzer.ReferenceShown` | pkg/query/analyzer_aggregate.go:139-159 | a column in the select list of a grouped query shows the output column of that name, NULL when there is none |
| `Analyzer.CallShown` | pkg/query/analyzer_aggregate.go:139-159 | an aggregate call in the list shows the last aggregate that prints like it |
| `Analyzer.SumColumnIff` | pkg/query/plan.go:232-246 | SUM and AVG are stored under the type of their argument: not at all unless that is a number or truth value, which it never is for a computed argument; as they are exactly for FLOAT64, cut to an integer for integers |
| `Analyzer.ExtremeFitsIff` | pkg/query/plan.go:231-246 | MIN and MAX can be stored exactly when their argument is a column or a literal, or has no value |
| `Analyzer.CountFits` | pkg/query/plan.go:231-235 | COUNT always can |
| `Analyzer.GroupByFits` | pkg/query/executor_aggregate.go:345-352 | GROUP BY values always can |
| `Optimizer.SelectPlansQualify` | pkg/query/analyzer.go:68-139 | every plan built for a resolved SELECT, the stored values of whose WHERE columns survive the scan, meets the conditions of the optimizer theorem |
| `Optimizer.OptimizePreserves` | pkg/query/optimizer.go:32-38 | if the stored values of filtered columns survive their scan, pushdown, folding and pruning in this order keep rows, chunks, schema and errors |
| `Optimizer.OptimizeIsComplete` | pkg/query/optimizer.go:32-38 | the optimized plan has no filter left, nothing left to fold, and under projections and aggregations only scans of columns something above mentions |
| `Optimizer.OptimizedSelectIsSelect` | pkg/query/analyzer.go:90-139 | optimizing the plan of any resolved SELECT changes nothing, if the stored values of the columns its WHERE mentions survive the scan |
| `Optimizer.OptimizedSelectReturns` | pkg/query/analyzer.go:39-140 | so the optimized SELECT returns what `Analyzer.SelectReturns` says, the matching rows being exactly those whose WHERE evaluates to true as they are stored |
| `SparseIndexes.SkipIsSafe` | pkg/index/sparse.go:110-135 | no value within the bounds satisfies a comparison that is skipped, whatever the type of the literal |
| `SparseIndexes.SkipIff` | pkg/index/sparse.go:110-135 | on integers a segment is skipped exactly when no number within its bounds satisfies the comparison; only != never skips |
| `SparseIndexes.BuiltDescribes` | pkg/index/sparse.go:150-191 | the running statistics of an integer column are attained bounds and the exact NULL count |
| `SparseIndexes.SparseIndex.BuildFromColumnVector` | pkg/index/sparse.go:150-191 | stores those statistics under segment and column, nothing for an empty column |
| `SparseIndexes.SparseIndex.RegisterColumnStat` | pkg/index/sparse.go:70-86 | stores the footer statistics, without values when a bound is empty |
| `SparseIndexes.SparseIndex.UnregisterSegment` | pkg/index/sparse.go:98-107 | forgets exactly the statistics of that segment and keeps all others |
| `SparseIndexes.ComputeIntStats` | pkg/storage/segment.go:217-241 | least and greatest non-NULL word of a plain integer column, as eight bytes, none when all are NULL |
| `SparseIndexes.ComputeRLEMinMax` | pkg/storage/segment.go:171-208 | least and greatest non-NULL run value; zero and zero for rows without a run |
| `SparseIndexes.FooterStatBounds` | pkg/index/sparse.go:207-232 | footer statistics bound a column whose every value was among the numbers scanned |
| `SparseIndexes.DictStatsDoNotBound` | pkg/storage/segment.go:164-169 | dictionary statistics skip a segment that holds the searched string |
| `SparseIndexes.DictStatsRightIff` | pkg/storage/segment.go:164-169 | they are right about every comparison with every literal exactly when an end of the dictionary is empty, so that nothing is skipped, or no string sorts outside its first and last |
| `SegmentPruning.ExtractColumnPredicates` | pkg/query/predicate_extractor.go:22-43 | collects the comparisons of a column with a literal among the conjuncts, in order |
| `SegmentPruning.ExtractIsComplete` | pkg/query/predicate_extractor.go:22-81 | every conjunct that compares a named column with a constant is extracted, in order, the constant turned to the right, and nothing else |
| `SegmentPruning.ConjunctMeans` | pkg/query/predicate_extractor.go:49-81 | a row the conjunct accepts satisfies the extracted predicate, the flipped form included |
| `SegmentPruning.ExtractMeans` | pkg/query/predicate_extractor.go:22-81 | a row the whole predicate accepts satisfies every extracted one |
| `SegmentPruning.CanSkip` | pkg/storage/engine_ops.go:415-426 | skips exactly when one predicate on a known column is ruled out by the statistics |
| `SegmentPruning.SkippedSegmentRejects` | pkg/storage/engine_ops.go:415-426 | no row of a skipped segment is accepted, for every AND/OR/NOT predicate |
| `SegmentPruning.PruningIsInvisible` | pkg/storage/engine_ops.go:383-411 | filtering after skipping gives the rows of filtering everything, if no key whose newest holder is skipped lies below it in a source that is not |
| `SegmentPruning.PruningInvisibleIff` | pkg/storage/engine_ops.go:383-411 | exactly under this condition on the keys pruning is invisible for every content whose skipped rows are rejected |
| `SegmentPruning.SkippingExposesOldRows` | pkg/storage/engine_ops.go:383-411 | two rows under one key: skipping the newer segment brings the old row back |
| `SegmentPruning.BuildScanIteratorsWithPruning` | pkg/storage/engine_ops.go:383-411 | the sources merge to the kept data restricted to the range; memtables are never skipped |
| `SegmentPruning.ScanRangeWithPruning` | pkg/storage/engine_ops.go:350-379 | lists the live kept rows of the range, each key once, ascending |
| `SegmentPruning.FilteredScanIsExact` | pkg/storage/engine_ops.go:342-426 | a WHERE over the pruned scan keeps exactly the rows it keeps of the whole data |
| `SegmentPruning.DisjointSegmentsSuffice` | pkg/storage/engine_ops.go:383-411 | segments that share no key meet the condition, whichever are skipped |
| `SegmentStatistics.ChoosesRLE` | pkg/storage/encoding.go:107-119 | run-length encoding exactly when there is at most one run for every two rows |
| `SegmentStatistics.EncodeInts` | pkg/storage/encoding.go:60-73 | encodes an integer column, plain or run-length, to bytes that stand for it |
| `SegmentStatistics.ComputeColumnStat` | pkg/storage/segment.go:119-151 | counts the NULL marks and scans the words or the runs |
| `SegmentStatistics.ColumnStatBounds` | pkg/storage/segment.go:171-241 | statistics computed from the bytes an integer column was encoded to, plain or run-length, bound every value of the column |
| `SegmentStatistics.BuildFooter` | pkg/storage/segment.go:332-336 | the footer of a built segment bounds each of its integer columns |
| `SegmentStatistics.LoadFromSegment` | pkg/index/sparse.go:138-147 | registering that footer gives statistics that bound the segment, and changes nothing about other segments |
| `SegmentStatistics.IndexSegments` | pkg/storage/wal_record.go:294-299 | the statistics of any list of segments with distinct ids, built and registered, bound all of them |
| `SegmentStatistics.IndexedScan` | pkg/storage/engine_ops.go:342-426 | from encoding to scan: over segments that share no key, the rows a WHERE on integer columns keeps of the pruned scan are exactly those it keeps of all data |
| `Bitmaps.PackedIsCanonical` | pkg/common/bitmap.go:187-197 | with zero padding, equal contents means equal words |
| `Bitmaps.Bitmap.Set` | pkg/common/bitmap.go:55-62 | sets that bit and no other; beyond the length nothing |
| `Bitmaps.Bitmap.Clear` | pkg/common/bitmap.go:65-72 | clears that bit and no other |
| `Bitmaps.Bitmap.Flip` | pkg/common/bitmap.go:111-118 | flips that bit and no other |
| `Bitmaps.Bitmap.And` | pkg/common/bitmap.go:121-132 | the conjunction on the common length, false beyond the other; also with itself |
| `Bitmaps.Bitmap.Or` | pkg/common/bitmap.go:135-147 | the disjunction over the longer length |
| `Bitmaps.Bitmap.Xor` | pkg/common/bitmap.go:150-162 | the exclusive or over the longer length |
| `Bitmaps.Bitmap.Not` | pkg/common/bitmap.go:167-184 | negates every bit and keeps the padding zero |
| `Bitmaps.Bitmap.Equals` | pkg/common/bitmap.go:187-197 | equal exactly when the contents are |
| `Bitmaps.Bitmap.Count` | pkg/common/bitmap.go:85-91 | the number of true bits |
| `Bitmaps.Bitmap.ForEach` | pkg/common/bitmap.go:309-320 | visits the true positions |
| `Bitmaps.IndicesMean` | pkg/common/bitmap.go:309-320 | each once, ascending, exactly the true ones, as many as are counted |
| `Bitmaps.Bitmap.IsEmpty` | pkg/common/bitmap.go:101-108 | empty exactly when no bit is true |
| `Bitmaps.Bitmap.Grow` | pkg/common/bitmap.go:292-305 | extends with false bits, never shortens |
| `Bitmaps.Bitmap.Clone` | pkg/common/bitmap.go:222-229 | a new bitmap with the same contents |
| `Bitmaps.Bitmap.CopyFrom` | pkg/common/bitmap.go:234-288 | copies exactly the requested bits from any unaligned start, and changes no other |
| `Bitmaps.Bitmap.ToBytes` | pkg/common/bitmap.go:201-219 | the bits packed into bytes, low bit first |
| `Bitmaps.Bitmap.FromBytes` | pkg/common/bitmap.go:26-47 | the bits of the bytes |
| `Bitmaps.BytesKeepBits` | pkg/common/bitmap.go:201-219 | every bit survives the round trip; the last byte is filled with zeros |
| `Bitmaps.BitsKeepBytes` | pkg/common/bitmap.go:26-47 | every byte string survives the opposite round trip |
| `Bitmaps.BoolSliceCorrectIff` | pkg/storage/column.go:280-287 | a row slice of a boolean column is right for every content exactly when it is empty or starts on a word boundary |
| `WriteAheadLogs.Wal.MaybeRotate` | pkg/storage/wal.go:267-320 | a file at its maximum is set aside and an empty one opened |
| `WriteAheadLogs.Wal.Append` | pkg/storage/wal.go:104-124 | adds one framed record; a payload over 8 MB is refused with nothing written |
| `WriteAheadLogs.Wal.AppendBatch` | pkg/storage/wal.go:128-166 | adds all records in one write, or none when one is too large |
| `WriteAheadLogs.AppendEach` | pkg/storage/wal.go:104-124 | appending one by one writes the same bytes, if no rotation falls in between |
| `WriteAheadLogs.ReplayWAL` | pkg/storage/wal.go:363-407 | returns the valid records from the start and the offset after them |
| `WriteAheadLogs.EncodedIsValid` | pkg/storage/wal.go:332-352 | an encoded record is valid wherever it stands and reads back |
| `WriteAheadLogs.ReplayOfEncoded` | pkg/storage/wal.go:363-407 | encoded records followed by no valid frame replay to exactly those records |
| `WriteAheadLogs.CutRecordIsInvalid` | pkg/storage/wal.go:372-390 | a record whose write was cut short anywhere is not valid |
| `WriteAheadLogs.ReplayAfterCrash` | pkg/storage/wal.go:363-407 | after a crash in the middle of one more record, exactly the earlier records and the offset of their end |
| `WriteAheadLogs.ReplayIsEncoded` | pkg/storage/wal.go:67-101 | on any bytes, what is replayed encodes to exactly the bytes before the offset, and no valid record starts there |
| `WalCodec.SerializeBatchWriteRecord` | pkg/storage/wal_codec.go:25-57 | rows in order with consecutive versions |
| `WalCodec.DeserializeBatchWriteRecord` | pkg/storage/wal_codec.go:67-110 | decodes the payload or refuses it when any part is malformed |
| `WalCodec.ColumnReads` | pkg/storage/wal_codec.go:130-195 | a column reads back, except that a value of type NULL is refused |
| `WalCodec.DecodeOfEncoded` | pkg/storage/wal_codec.go:25-110 | an encoded batch gives its rows and versions back, or nothing when one value has type NULL; of 65536 rows or more only as many as the wrapped count |
| `WalCodec.SurvivesReplayIff` | pkg/storage/wal_codec.go:25-110 | a batch comes back as it was written exactly when it has fewer than 65536 rows, each of them keys, names, strings and column counts below 65536, and no value of type NULL |
| `WalCodec.OrderDoesNotMatter` | pkg/storage/wal_codec.go:50-53 | the order in which a row map is iterated does not change the decoded map |
| `ColumnCodecs.MarkerIsFree` | pkg/storage/encoding_dict.go:91-112 | at every dictionary size no valid index is the NULL marker, and both fit the width |
| `ColumnCodecs.IndexWidthMeans` | pkg/storage/encoding_dict.go:88-101 | slot numbers take the narrowest of one, two and four bytes that also leaves room for the NULL marker |
| `ColumnCodecs.EncodeDict` | pkg/storage/encoding_dict.go:10-64 | every row has its code in its slot: the marker, or the place of its string in a dictionary without repetition |
| `ColumnCodecs.DecodeDict` | pkg/storage/encoding_dict.go:66-86 | decodes row by row; an index outside the dictionary fails |
| `ColumnCodecs.DictRoundTrip` | pkg/storage/encoding_dict.go:10-86 | the same NULL rows and the same strings elsewhere |
| `ColumnCodecs.FindRuns` | pkg/storage/encoding.go:267-308 | maximal runs that expand to the column, NULL rows holding zero |
| `ColumnCodecs.EncodeRLE` | pkg/storage/encoding.go:267-308 | sixteen bytes a run, the bytes holding the maximal runs of the column |
| `ColumnCodecs.DecodeRLE` | pkg/storage/encoding.go:404-426 | expands the runs up to the row count; missing rows are zero |
| `ColumnCodecs.RLERoundTrip` | pkg/storage/encoding.go:267-426 | the same NULL rows and the same integers elsewhere |
| `ColumnCodecs.EncodePlainStrings` | pkg/storage/encoding.go:237-265 | offsets cut the data back into the stored strings |
| `ColumnCodecs.DecodePlainStrings` | pkg/storage/encoding.go:335-370 | refuses too few or inconsistent offsets, otherwise cuts the data |
| `ColumnCodecs.PlainStringsRoundTrip` | pkg/storage/encoding.go:237-370 | every string comes back, NULL rows as empty |
| `ColumnCodecs.WordsRoundTrip` | pkg/storage/encoding.go:179-387 | integer, timestamp and float columns come back word by word |
| `SegmentFiles.BlockReads` | pkg/storage/segment_serialize.go:11-179 | a written column block reads back and the reader stops at its end |
| `SegmentFiles.SkipIsRead` | pkg/storage/segment_serialize.go:296-331 | on any bytes the reader accepts, skipping advances exactly as far as reading |
| `SegmentFiles.SkipColumnBlock` | pkg/storage/segment_serialize.go:296-331 | the skipping loop computes that advance |
| `SegmentFiles.ReadColumns` | pkg/storage/segment_serialize.go:276-294 | reads blocks until the end, or fails at the first bad one |
| `SegmentFiles.ColumnsRead` | pkg/storage/segment_serialize.go:276-294 | all written columns come back in order |
| `SegmentFiles.FooterReads` | pkg/storage/segment_codec.go:206-373 | a footer reads back exactly when it is within the size limits; beyond them it is written and then refused |
| `SegmentFiles.SerializeKeys` | pkg/storage/segment.go:371-390 | count, then length and bytes of each key; nothing for no keys |
| `SegmentFiles.DeserializeKeys` | pkg/storage/segment.go:392-412 | reads keys until the count or the first that is cut short |
| `SegmentFiles.KeysRoundTrip` | pkg/storage/segment.go:371-412 | the keys come back in order |
| `SegmentFiles.Serialize` | pkg/storage/segment_serialize.go:182-223 | header, blocks, footer and footer offset |
| `SegmentFiles.SegmentRoundTrip` | pkg/storage/segment_serialize.go:182-274 | a segment file gives the same columns, footer and row count back, and is refused exactly when its footer is over the limits |
| `SegmentFiles.BuiltSegmentKeys` | pkg/storage/segment.go:356-366 | the keys of a built segment come back with it |
| `GroupCommits.StepKeepsInv` | pkg/storage/group_committer.go:60-157 | every step of any writer or syncer keeps every waiter in one place and every release justified |
| `GroupCommits.RunKeepsInv` | pkg/storage/group_committer.go:60-157 | so does every interleaving |
| `GroupCommits.NeverLost` | pkg/storage/group_committer.go:122-157 | a submitted waiter is queued, held by one syncer or closed |
| `GroupCommits.ClosedOnce` | pkg/storage/group_committer.go:148-156 | no channel is closed twice |
| `GroupCommits.ReleasedIsDurable` | pkg/storage/group_committer.go:122-157 | a waiter released by a Sync was appended before it began, and is durable unless the log was rotated in between |
| `GroupCommits.DurableIff` | pkg/storage/group_committer.go:122-157 | a record is durable exactly when some Sync that succeeded covers it |
| `GroupCommits.ReleasedDurableIff` | pkg/storage/group_committer.go:122-157 | a released waiter is durable exactly when it was not rotated away from its own Sync or another one covers it |
| `GroupCommits.UnsyncedOnlyWhenFull` | pkg/storage/group_committer.go:138-150 | only a queue over 4096 closes waiters without a Sync |
| `GroupCommits.RoundReleases` | pkg/storage/group_committer.go:122-157 | a round that nothing interrupts takes the whole queue: it releases every queued waiter in the order they came, makes the records of the current file durable and leaves the queue empty |
| `GroupCommits.RoundFails` | pkg/storage/group_committer.go:122-146 | a round whose Sync fails puts the queue back in order, dropping exactly the oldest beyond 4096 |
| `GroupCommits.RotationReleasesUndurable` | pkg/storage/wal.go:267-320 | a rotation, which closes the old file unsynced, lets a waiter be released undurable |
| `BlockCaches.BlockCache.Get` | pkg/storage/cache.go:52-83 | finds exactly what is cached and makes it the most recent |
| `BlockCaches.BlockCache.Put` | pkg/storage/cache.go:87-138 | keeps map, list and segment index in agreement and the bytes within capacity; a new key evicts least recent first and no more than needed |
| `BlockCaches.BlockCache.EvictFor` | pkg/storage/cache.go:121-131 | drops from the back the fewest entries that make room |
| `BlockCaches.BlockCache.Invalidate` | pkg/storage/cache.go:166-187 | removes exactly the columns of the segment; the others keep their place |
| `BlockCaches.SwapOutMeans` | pkg/storage/cache.go:146-162 | removal by overwriting with the last key loses only that key |
| `BlockCaches.FoundIsLastPut` | pkg/storage/cache.go:52-187 | over every run, what is found is the data last put, with no invalidation since |
| `BlockCaches.RecencyIsLastUse` | pkg/storage/cache.go:52-187 | over every run the list holds the cached keys in the order of their last use |
| `MemoryEngines.SortMeans` | pkg/storage/memory/engine.go:136-139 | the stable sort is in order and keeps the last write to each key last |
| `MemoryEngines.Dedup` | pkg/storage/memory/engine.go:140-153 | the in-place pass leaves one entry per key, strictly ascending, the last one |
| `MemoryEngines.SortedDedupIsUpserts` | pkg/storage/memory/engine.go:87-153 | append, sort and deduplicate is upserting one by one |
| `MemoryEngines.MemoryEngine.Write` | pkg/storage/memory/engine.go:51-80 | sets the key under the next version; empty keys and a closed engine are refused |
| `MemoryEngines.MemoryEngine.WriteBatch` | pkg/storage/memory/engine.go:87-110 | the result of writing the rows one by one, versions included |
| `MemoryEngines.MemoryEngine.Delete` | pkg/storage/memory/engine.go:114-131 | removes exactly that key |
| `MemoryEngines.MemoryEngine.Get` | pkg/storage/memory/engine.go:157-170 | finds exactly what the map holds, nothing once closed |
| `MemoryEngines.MemoryEngine.ScanRange` | pkg/storage/memory/engine.go:175-204 | the rows of the range in order, an empty bound not bounding |
| `MemoryEngines.RangedMeans` | pkg/storage/memory/engine.go:185-204 | those are exactly the entries in range, strictly ascending |

## Left out

- Concurrency inside the engine: writes, flushes and compactions are atomic steps; while a flush runs, drained tables are in neither list, and a compaction takes its segment id late.
- Recovery.RecoveryIsExact: appends and syncs succeed or leave no bytes; versions stay below 2^64; segments are taken in the order of their ids, for which see `SegmentLoading.LoadedReadersAgreeIff`, and all of them are loaded, for which see `SegmentFiles.FooterReads` and `Crashes.LostSegmentIff`. A checkpoint's JSON is a pair of functions that undo each other, and the column metadata in it is not modelled.
- LsmModel.RunIsVisible: flushes are complete; a flush that fails half way may have brought back any of the tombstones, as `LsmModel.FlushEffect` says.
- The engine's memtables are modelled by their contents; the linked structure behind them is `SkipLists`, and the node slab allocator is not modelled.
- Range scans read decoded columns directly: the block cache is proved on its own, and a decode error inside an iterator is not modelled.
- FlushedFiles.WrittenRowsReadBack: at most 2^30 rows, and lengths the file's 32-bit fields hold.
- Compression, the bloom filter and the checksum are abstract: the filter has no false negatives, the checksum is any 32-bit function, and column data is taken after decompression.
- Optimizer.OptimizePreserves: filters stand on a scan that has the same predicate, as in every plan the analyzer builds; a filter above a projection or an aggregation is rewritten by the same rule but not meant to be preserved. The stored values of filtered columns survive the scan, without which it is false (`PlanRules.AbsorbsIff`); where the filter uses LIKE, that is taken to depend on the text of its operands only.
- Optimizer.OptimizedSelectIsSelect: the same condition, for the columns WHERE mentions; Optimizer.OptimizedSelectReturns likewise.
- Analyzer.SelectReturns: SELECT over one table with its names resolved; SELECT without FROM and the errors of resolution are not modelled. For an offset and count whose sum passes 2^64 see `Limits.LimitCorrectIff`.
- Aggregation.AggregateMeans: COUNT, SUM and AVG of fewer than 2^63 values; that no other value beats MIN and MAX is said of values in an order, as in `Aggregation.ColumnIsOrdered`.
- PlanRules.AbsorbsIff: its necessary half uses that dates print with two dashes, other integers with at most one, and that a half is not zero in floating point.
- Filter by typed column vectors: the meaning of a filter is row-by-row evaluation; the shortcut that reads a column by its table index on a pruned schema is not modelled.
- Key ranges taken from WHERE clauses, which compare decimal text byte by byte, are not modelled.
- SegmentPruning.FilteredScanIsExact: predicates on integer columns only, since dictionary statistics are not bounds; float conversion is assumed monotone.
- SegmentStatistics.ComputeColumnStat: integer columns only; the statistics of other columns are given. Run-length columns carry no separate NULL marks, so their NULL count is zero, as in the program.
- SegmentLoading.ReadersAgreeIff: the two readers are stated on lists of segments in any order; the engine's own scan and point read are proved for the ascending order its other operations keep.
- BlockCaches.BlockCache: list elements are named by their keys; the gap between the read lock and the write lock in a lookup is not modelled, nor is the separate cache of column statistics.
- Bitmaps.Bitmap: a word is its sequence of 64 bits, and lengths stay below 2^32 - 63 so that rounding up to words does not wrap.
- ColumnCodecs.EncodeDict: at most 2^30 rows, so that slot positions fit in 32 bits.
- WalCodec.DecodeOfEncoded: key, name and string lengths and the columns of one row below 2^16, since beyond them the bytes are read as something else, which need not fail; that nothing beyond them comes back is `WalCodec.SurvivesReplayIff`. Fields a value's type does not use come back as zero.
- MemoryEngines: the library's stable sort is modelled by insertion, which gives the same, unique result.
- File renames, directory listing and other I/O failure paths of the log and the flusher.
- SQL parsing, EXPLAIN, the catalog, the network servers, configuration and metrics.
- Garbage collection of cached slices and buffer pools.
