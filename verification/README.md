# LevelDB and nanopb, as shipped with KeyStore: a model in Dafny

The KeyStore app ships two libraries that hold its hard code: LevelDB, a log-structured merge store, and nanopb, a
schema-driven protocol-buffer encoder and decoder. This project models both and proves what they are for. Verify
it with `dafny verify dfyconfig.toml`.

LevelDB keeps entries of a user key, a sequence and a value or tombstone in a log, a memtable and seven levels of
sorted tables, and promises to behave as one map with snapshots. The main results, over every run or every input:

- The store is a map: a read through memtable, immutable memtable and tables, at the current sequence or a held
  snapshot, finds what the map built by the writes finds (`StoreMeaning.StoreIsAMap`), and an iterator built of
  skip-list, level-0 and concatenated level iterators lists exactly that map (`StoreIterator.NewIterator`,
  `StoreIterator.IteratorIsTheMap`).
  Every step keeps the levels sorted, disjoint and layered (`StoreInvariant.NextKeepsInv`); the classes that carry
  the steps out are proved to take only such steps (`Database.DB`).
- A compaction preserves every read at or above the oldest snapshot if and only if no tombstone is dropped at the
  edge of its lower inputs in front of an older value left behind there (`CompactionMeaning.CompactionPreservesReads`).
  The condition is not vacuous: boundary files are added to the upper inputs only, and `Straddle.DeletedKeyReturns`
  is a run from the empty store after which a deleted key is back. The comments in db/version_set.cc say that
  boundary files keep this from happening; the model follows the code.
- Input selection is a closure: the restarting level-0 scan ends with exactly the files reached through chains of
  overlapping ranges (`CompactionInputs.GetOverlappingInputs`), and no file is left that starts after the chosen
  largest key with its user key (`CompactionInputs.AddBoundaryInputs`). The pickers choose exactly what the rules of
  the source say (`CompactionPick.SetupOtherInputs`, `CompactionPick.RoundRobin`), a background step flushes a waiting
  memtable first (`Database.DB.BackgroundCompaction`), and no output table overlaps too much of the level after the
  next (`CompactionWork.DoCompactionWork`).
- Iterators are two-way cursors: the skip-list, block, two-level, merging and database iterators each move exactly
  as on a sorted list, across changes of direction, and they are stacked as the source stacks them.
- A log cut at any byte replays exactly the records wholly before the cut and reports nothing
  (`LogRecovery.CutLogReplays`). With group commit running as interleaved steps, a crash in any state recovers whole
  groups (`CommittedLog.CrashRecoversGroups`) and every synced write (`CommittedLog.SyncedWriteSurvives`); replaying
  all logs gives back the history without a hole exactly if nothing is kept behind a log that lost operations
  (`LogReplay.NoHoleIff`). Groups are as large as the rules allow (`GroupCommit.GroupIsMaximal`), and every writer can
  always be answered (`GroupProgress.EveryoneAnswered`).
- Whatever is in a log file, a record read from it is there fragment by fragment, each with its checksum
  (`LogSoundness.RecordStands`), and recovery with paranoid checks succeeds exactly if nothing is wrong
  (`Recovery.ParanoidReplays`).
- No file that a reader, a task or a recovery still needs is deleted, in any state of any run with flushes inside
  compactions, errors, crashes and crashes while opening again (`SafeDeletion.NothingNeededIsDeleted`), and from every
  one of them the database can be opened again (`Reopening.AlwaysReopens`).
- Searches of the skip list that interleave with insertions store by store find every finished key and end; the LRU
  cache counts charges and references exactly over any run; the strided CRC is the byte-at-a-time fold; a table
  lookup never misses, through index separators and stored filters; replaying a manifest is applying its edits one
  by one.

For nanopb, decoding undoes encoding for every good schema and every message fitting it, through nested, packed and
union fields (`NanopbRoundTrip.RoundTrip`). A message written with one schema and read with another, each with fields
the other lacks at any depth, is read if and only if no required field is missing, and gives what both know
(`NanopbRoundTrip.SchemaEvolves`). Whatever the bytes, a message decoded fits its schema
(`NanopbSoundness.DecodedFits`). The streams, the circular field iterator and the sizing pass are proved to do what the
byte functions say. One thing the decoder's comments do not say came out: a 32-bit varint with wrong bits 32 to 34 is
taken if the bits around them look like a sign extension (`NanopbFormat.Varint32Exact`).

The formats are pinned by their bytes: literal examples of log records, batches, edits, blocks, fields and checksums
stand beside the general theorems.

Code that changes state in place is a class with loops and invariants, proved against functions; protocols are
state machines over their steps. Each `.dfy` file is one module. Nothing in the model performs input or output: the
bytes of a file are a sequence, and every failure of the environment is a step or a parameter.

## Model

| member | source | states |
|---|---|---|
| VersionSearch.SearchRunAnswers | KeyStore/Pods/leveldb-library/db/memtable.cc:100-134 | In any sorted run, seeking the lookup key and testing the user key of the entry found reports the newest entry at or below the snapshot, a tombstone as deleted, and nothing exactly when no entry is visible. |
| VersionSearch.AnswersAreReads | KeyStore/Pods/leveldb-library/db/memtable.cc:117-130 | What a search reports is what a read of the specification yields: the value of the newest visible entry, with a tombstone reading as absent. |
| VersionSearch.FindFile | KeyStore/Pods/leveldb-library/db/version_set.cc:88-106 | The binary search splits a sorted level: every file before the result ends before the key, every file from it on does not. |
| VersionSearch.SearchSortedLevel | KeyStore/Pods/leveldb-library/db/version_set.cc:364-379 | In a sorted level the one file the binary search lands on decides: no other file can hold the newest visible entry. |
| VersionSearch.SearchLevelZero | KeyStore/Pods/leveldb-library/db/version_set.cc:347-363 | Trying the level-0 files that cover the key, newest number first, finds the newest visible entry of the whole level. |
| VersionSearch.ShallowestDecides | KeyStore/Pods/leveldb-library/db/version_set.cc:338-341 | When levels are layered, the newest visible entry of the first level that has one is the newest of the version. |
| VersionSearch.Get | KeyStore/Pods/leveldb-library/db/version_set.cc:326-421 | The staged search of a valid version answers exactly with the newest entry at or below the snapshot among all its tables, which is what a read of the table contents yields, or with nothing when none is visible. |
| VersionSearch.ContentsWellKeyed | KeyStore/Pods/leveldb-library/db/dbformat.cc:47-66 | In a valid version no two table entries share user key and sequence, so the newest visible entry is unique. |
| CompactionInputs.SomeFileOverlapsRange | KeyStore/Pods/leveldb-library/db/version_set.cc:125-161 | By scan or by binary search, true exactly if some file's user-key range meets the given range, open ends included. |
| CompactionInputs.WideningProgress | KeyStore/Pods/leveldb-library/db/version_set.cc:543-556 | Each restart of the level-0 scan leaves strictly fewer file ends outside the range, so the restarts end. |
| CompactionInputs.GetOverlappingInputs | KeyStore/Pods/leveldb-library/db/version_set.cc:519-559 | In level 0 the result is exactly the set of files reached from the range through chains of overlapping user-key ranges; in a deeper level exactly the files meeting it, in order. |
| CompactionInputs.GetRange | KeyStore/Pods/leveldb-library/db/version_set.cc:1205-1224 | The pair is the least smallest and the greatest largest key, each attained by some input. |
| CompactionInputs.FindLargestKey | KeyStore/Pods/leveldb-library/db/version_set.cc:1326-1340 | The key is the largest of some file and at or above that of every file. |
| CompactionInputs.FindSmallestBoundaryFile | KeyStore/Pods/leveldb-library/db/version_set.cc:1344-1362 | The file found starts after the key with the same user key and no other such file starts before it; none found means there is none. |
| CompactionInputs.AddBoundaryInputs | KeyStore/Pods/leveldb-library/db/version_set.cc:1378-1401 | The choice is extended one least boundary file at a time, and in the end no file of the level starts after the largest chosen key with its user key. |
| CompactionPick.OverlappingContiguous | KeyStore/Pods/leveldb-library/db/version_set.cc:519-559 | The files of a sorted level that meet a range are a contiguous run of the level. |
| CompactionPick.BoundaryKeepsRun | KeyStore/Pods/leveldb-library/db/version_set.cc:1378-1401 | Boundary files continue a contiguous run of a sorted level, and then every file left behind is newer, for each shared user key, than what is taken. |
| CompactionPick.PickCompaction | KeyStore/Pods/leveldb-library/db/version_set.cc:1270-1322 | The inputs chosen are good: closed under overlap in level 0, a run below it, leaving only newer entries behind. They are what the file read too often, or the first file behind the last compaction of the level, wrapping around, reaches in level 0, completed with boundary files, the overlapping files one level down and, at no cost there and below 25 file sizes, more of the level. |
| CompactionPick.SetupOtherInputs | KeyStore/Pods/leveldb-library/db/version_set.cc:1403-1462 | Completing a choice gives good inputs that contain it, and exactly these: the choice with boundary files, or, if the same number of lower files is met and sizes stay below 25 file sizes, what both reach in the level with its boundary files; all lower files met; and as grandparents the files two levels down that meet the whole. |
| CompactionPick.SizePrefix | KeyStore/Pods/leveldb-library/db/version_set.cc:1476-1487 | The cut-off prefix is the shortest one holding the size limit, or everything. |
| CompactionPick.CompactRange | KeyStore/Pods/leveldb-library/db/version_set.cc:1464-1495 | A range compaction has good inputs, completed from the files of the range, below level 0 from their shortest prefix holding a file size; there is none exactly when no file meets the range. |
| CompactionPick.RoundRobin | KeyStore/Pods/leveldb-library/db/version_set.cc:1285-1299 | Where the last compaction of a sorted level left off at a file, the next one picks the file behind it, and after the last file the first. |
| CompactionPick.PickLevelForMemTableOutput | KeyStore/Pods/leveldb-library/db/version_set.cc:491-516 | The level is at most 2, and above 0 no file of it or of a shallower level meets the key range; what stops it above level 2 is a file of level 0 or of the next level meeting the range, or more than ten file sizes of such files two levels down. |
| CompactionWork.Compaction.IsBaseLevelForKey | KeyStore/Pods/leveldb-library/db/version_set.cc:1533-1552 | Asked with nondecreasing keys, the pointers that never move back still answer exactly whether a table deeper than the output level covers the key. |
| CompactionWork.Compaction.ShouldStopBefore | KeyStore/Pods/leveldb-library/db/version_set.cc:1554-1576 | The grandparent pointer passes exactly the files ending before the key; the output is to be cut if and only if the files passed since the last cut, leaving out those before the first key asked about, hold more than ten file sizes. |
| CompactionWork.DoCompactionWork | KeyStore/Pods/leveldb-library/db/db_impl.cc:890-999 | The tables written, one after another, are the merged entries without exactly those hidden by a newer one at or below the oldest snapshot and the base-level tombstones at or below it; and of no table do the grandparent files that end within it hold more than ten file sizes. |
| CompactionWork.CompletedAscend | KeyStore/Pods/leveldb-library/db/version_set.cc:1449-1454 | The grandparents the pickers give end one behind the other, as that bound needs. |
| CompactionInstall.LowerStaysAside | KeyStore/Pods/leveldb-library/db/version_set.cc:1403-1412 | A file of the lower level that is not an input lies wholly on one side of every input entry. |
| CompactionInstall.UpperStaysNewer | KeyStore/Pods/leveldb-library/db/version_set.cc:1403-1427 | Files left behind at or above the input level are newer, for every shared user key, than every entry read by the compaction. |
| CompactionInstall.InstallKeepsValid | KeyStore/Pods/leveldb-library/db/db_impl.cc:860-876 | Installing the outputs keeps every level below 0 sorted and disjoint and every shallower place newer than every deeper one for each user key. |
| CompactionMeaning.OlderIsHidden | KeyStore/Pods/leveldb-library/db/db_impl.cc:940-942 | An entry older than one of the same user key at or below the snapshot is dropped, however many lie between them. |
| CompactionMeaning.BehindDropped | KeyStore/Pods/leveldb-library/db/db_impl.cc:943-955 | Behind a dropped tombstone, what is still visible of the key can only be in a table of the lower level that stays and follows all inputs. |
| CompactionMeaning.ResurrectsMeansChanged | KeyStore/Pods/leveldb-library/db/version_set.cc:1403-1412 | If the last table taken from the lower level shares a user key with the table behind it, and the newest visible entry of that key is a dropped tombstone in front of a value there, a read of the key turns from absent to a value. |
| CompactionMeaning.CompactionPreservesReads | KeyStore/Pods/leveldb-library/db/db_impl.cc:890-999 | A compaction preserves every read at or above the oldest snapshot if and only if that case does not arise; it can be tested on the inputs before the compaction runs. |
| CompactionMeaning.CleanEdgeSuffices | KeyStore/Pods/leveldb-library/db/version_set.cc:1403-1422 | In particular every such read is preserved when no user key straddles the edge of the lower inputs. |
| Straddle.DeletedKeyReturns | KeyStore/Pods/leveldb-library/db/version_set.cc:1403-1412 | A run from the empty store, of writes, flushes, a snapshot and two compactions, after which a read at the current sequence finds the old value of a key that the writes deleted: boundary files are added to the upper inputs only. |
| VersionBuilder.Builder.Apply | KeyStore/Pods/leveldb-library/db/version_set.cc:650-692 | Per level, a number is deleted exactly if it was or is deleted and no addition revives it, and additions join their level in order. |
| VersionBuilder.Builder.SaveTo | KeyStore/Pods/leveldb-library/db/version_set.cc:695-754 | Every level saved is in order and holds exactly the files of base and additions whose number is not deleted. |
| VersionBuilder.MergeLevel | KeyStore/Pods/leveldb-library/db/version_set.cc:699-722 | Merging base files around each addition by upper bound yields the ordered level without the deleted numbers. |
| ManifestReplay.SortedUnique | KeyStore/Pods/leveldb-library/db/version_set.cc:592-604 | The order of a level and its members fix the list. |
| ManifestReplay.ReplayIsStepwise | KeyStore/Pods/leveldb-library/db/version_set.cc:924-1000 | One builder fed a base and all later edits saves the same versions as applying and saving after every edit, when no file number is added twice to a level. |
| ManifestReplay.Recover | KeyStore/Pods/leveldb-library/db/version_set.cc:886-1011 | Replaying the edits of a manifest yields the version that was current after the last of them. |
| StoreInvariant.EditInstalls | KeyStore/Pods/leveldb-library/db/version_set.cc:650-692 | Applying the edit of a compaction takes exactly the inputs out of the version and puts exactly the outputs in. |
| StoreInvariant.PlacingKeepsValid | KeyStore/Pods/leveldb-library/db/version_set.cc:491-516 | A table over newer entries may be placed at any level no file at or above which meets its range, and the version stays sorted and layered. |
| StoreInvariant.FlushView | KeyStore/Pods/leveldb-library/db/db_impl.cc:535-566 | Writing the immutable memtable out changes no visible entry. |
| StoreInvariant.NextKeepsInv | KeyStore/Pods/leveldb-library/db/db_impl.cc:688-767 | Every write, memtable switch, flush, compaction, trivial move and snapshot step keeps the store's invariant: memtables sorted and newer than the tables, levels sorted, disjoint and layered, file numbers unique, snapshots ascending. |
| StoreMeaning.HistoryMeaning | KeyStore/Pods/leveldb-library/db/memtable.cc:75-98 | Reading the log of all writes at a sequence finds what the map built by the writes up to there holds. |
| StoreMeaning.WriteRefines | KeyStore/Pods/leveldb-library/db/db_impl.cc:1202-1245 | A batch extends the map by its operations in order, at every snapshot. |
| StoreMeaning.CompactRefinesIff | KeyStore/Pods/leveldb-library/db/db_impl.cc:878-1036 | A compaction step keeps the store a refinement of the map if and only if no tombstone is dropped at the edge of its lower inputs in front of a value. |
| StoreMeaning.MoveView | KeyStore/Pods/leveldb-library/db/db_impl.cc:718-734 | Moving a single file one level down changes no visible entry. |
| StoreMeaning.StoreIsAMap | KeyStore/Pods/leveldb-library/db/db_impl.cc:1100-1145 | Over any run from the empty store whose compactions are harmless, a read at the current sequence or at a held snapshot finds exactly what the map built by the writes up to there holds. |
| StoreMeaning.CompactionKeeps | KeyStore/Pods/leveldb-library/db/db_impl.cc:946-960 | In a compaction step an input entry is in an output table if and only if the entry before it is not a newer one of its key at or below the oldest held snapshot, or the last sequence if none is held, and it is not a tombstone at or below that whose key no deeper table covers. |
| Database.MergeFiles | KeyStore/Pods/leveldb-library/db/version_set.cc:1237-1268 | The merged compaction input lists the entries of all input files, each once, in internal-key order. |
| Database.TablesWritten | KeyStore/Pods/leveldb-library/db/db_impl.cc:811-858 | Tables cut out of the surviving entries are valid, sorted and disjoint and hold exactly those entries. |
| Database.StagesDecide | KeyStore/Pods/leveldb-library/db/db_impl.cc:1122-1136 | The first of memtable, immutable memtable and tables that knows the key has its newest visible entry. |
| Database.DB.Write | KeyStore/Pods/leveldb-library/db/db_impl.cc:1185-1258 | The memtable gains exactly the operations of the batch, under the sequences right after the last one, which advances by their number. |
| Database.DB.SwitchMemTable | KeyStore/Pods/leveldb-library/db/db_impl.cc:1346-1366 | The memtable becomes the immutable one and an empty one takes over. |
| Database.DB.Get | KeyStore/Pods/leveldb-library/db/db_impl.cc:1100-1145 | The staged search of memtable, immutable memtable and tables answers as a read of everything in the store at the snapshot, or at the current sequence, does. |
| Database.DB.LogAndApply | KeyStore/Pods/leveldb-library/db/version_set.cc:801-884 | The current version becomes the one a fresh builder makes of it and the edit. |
| Database.DB.CompactMemTable | KeyStore/Pods/leveldb-library/db/db_impl.cc:502-566 | The flush is a step of the store: the immutable memtable is gone, and its entries are in one new table at the level that the placing rule stops at, or nowhere for an empty memtable. |
| Database.DB.Compact | KeyStore/Pods/leveldb-library/db/db_impl.cc:878-1036 | Merging, dropping, cutting and installing together are one compaction step of the store on the given inputs, and no output overlaps too much of the grandparents. |
| Database.DB.InstallCompactionResults | KeyStore/Pods/leveldb-library/db/db_impl.cc:860-876 | The version becomes the result of the edit that deletes the inputs and adds the outputs one level down. |
| Database.DB.TrivialMove | KeyStore/Pods/leveldb-library/db/db_impl.cc:718-734 | Moving the only input file is a step of the store. |
| Database.DB.BackgroundCompaction | KeyStore/Pods/leveldb-library/db/db_impl.cc:688-767 | A waiting immutable memtable is flushed first. Otherwise the step compacts inputs picked as asked for, moves them if and only if it is not a range and they are one file with nothing below and at most ten file sizes two levels down, and does nothing only for a range no file of the level meets; the place to go on from is the largest key taken. |
| Database.DB.GetSnapshot | KeyStore/Pods/leveldb-library/db/db_impl.cc:1166-1169 | The snapshot is the current last sequence and joins the held ones. |
| Database.DB.ReleaseSnapshot | KeyStore/Pods/leveldb-library/db/db_impl.cc:1171-1174 | The released snapshot is no longer held; nothing else changes. |
| SnapshotList.Snapshots.Oldest | KeyStore/Pods/leveldb-library/db/snapshot.h:46-50 | The oldest snapshot is a live one at or below every live one. |
| SnapshotList.Snapshots.Empty | KeyStore/Pods/leveldb-library/db/snapshot.h:45 | True exactly if no snapshot is live. |
| SnapshotList.Snapshots.Newest | KeyStore/Pods/leveldb-library/db/snapshot.h:51-54 | The newest snapshot is a live one at or above every live one. |
| SnapshotList.Snapshots.New | KeyStore/Pods/leveldb-library/db/snapshot.h:57-72 | The circular links then run through the old snapshots and the new one at the end. |
| SnapshotList.Snapshots.Delete | KeyStore/Pods/leveldb-library/db/snapshot.h:79-86 | The links then run through the other snapshots in their order, wherever the deleted one stood. |
| DbIterator.LiveAscending | KeyStore/Pods/leveldb-library/db/db_iter.cc:26-38 | The list the iterator walks has strictly ascending user keys. |
| DbIterator.LiveIsTheMap | KeyStore/Pods/leveldb-library/db/db_iter.cc:26-38 | A key and value are on that list exactly if a read of the key at the iterator's sequence finds the value. |
| DbIterator.DBIter.FindNextUserEntry | KeyStore/Pods/leveldb-library/db/db_iter.cc:168-198 | The scan stops at the first entry that is to be seen and not to be skipped, and passes none. |
| DbIterator.DBIter.FindPrevUserEntry | KeyStore/Pods/leveldb-library/db/db_iter.cc:227-267 | The backward scan ends with the newest visible value of the nearest live key at or before its start, although it meets older entries first. |
| DbIterator.DBIter.Next | KeyStore/Pods/leveldb-library/db/db_iter.cc:141-166 | From either direction, moves to the following live key. |
| DbIterator.DBIter.Prev | KeyStore/Pods/leveldb-library/db/db_iter.cc:200-225 | From either direction, moves to the preceding live key. |
| DbIterator.DBIter.Seek | KeyStore/Pods/leveldb-library/db/db_iter.cc:269-281 | Moves to the first live key at or after the target. |
| DbIterator.DBIter.SeekToFirst | KeyStore/Pods/leveldb-library/db/db_iter.cc:283-292 | Moves to the first live key. |
| DbIterator.DBIter.SeekToLast | KeyStore/Pods/leveldb-library/db/db_iter.cc:294-299 | Moves to the last live key. |
| MergingIterator.ShownForward | KeyStore/Pods/leveldb-library/table/merger.cc:148-161 | Among children standing after a cut of the union, one shows the next entry of the union and none an earlier one. |
| MergingIterator.SeekAside | KeyStore/Pods/leveldb-library/table/merger.cc:64-71 | A child sought to the current key stands after it on a different key, and one step back stands before it. |
| IteratorWrapper.IteratorWrapper.Next | KeyStore/Pods/leveldb-library/table/iterator_wrapper.h:51-55 | Moves whichever iterator is behind it to the following entry, and keeps whether it is valid and its key. |
| IteratorWrapper.IteratorWrapper.Prev | KeyStore/Pods/leveldb-library/table/iterator_wrapper.h:56-60 | Moves whichever iterator is behind it to the preceding entry, and keeps whether it is valid and its key. |
| IteratorWrapper.IteratorWrapper.Seek | KeyStore/Pods/leveldb-library/table/iterator_wrapper.h:61-65 | Moves whichever iterator is behind it to the first entry at or after the target, and keeps whether it is valid and its key. |
| IteratorWrapper.IteratorWrapper.SeekToFirst | KeyStore/Pods/leveldb-library/table/iterator_wrapper.h:66-70 | Moves whichever iterator is behind it to the first entry, and keeps whether it is valid and its key. |
| IteratorWrapper.IteratorWrapper.SeekToLast | KeyStore/Pods/leveldb-library/table/iterator_wrapper.h:71-75 | Moves whichever iterator is behind it to the last entry, and keeps whether it is valid and its key. |
| MergingIterator.MergingIterator.FindSmallest | KeyStore/Pods/leveldb-library/table/merger.cc:148-161 | The child with the smallest key shows the entry of the union right after the cut. |
| MergingIterator.MergingIterator.FindLargest | KeyStore/Pods/leveldb-library/table/merger.cc:163-176 | The child with the largest key shows the entry of the union right before the cut. |
| MergingIterator.MergingIterator.Next | KeyStore/Pods/leveldb-library/table/merger.cc:55-79 | Moves to the following entry of the sorted union, repositioning the other children after a change of direction. |
| MergingIterator.MergingIterator.Prev | KeyStore/Pods/leveldb-library/table/merger.cc:81-108 | Moves to the preceding entry of the sorted union, likewise. |
| MergingIterator.MergingIterator.Seek | KeyStore/Pods/leveldb-library/table/merger.cc:47-53 | Moves to the first entry of the union at or after the target. |
| MergingIterator.MergingIterator.SeekToFirst | KeyStore/Pods/leveldb-library/table/merger.cc:31-37 | Moves to the first entry of the union. |
| MergingIterator.MergingIterator.SeekToLast | KeyStore/Pods/leveldb-library/table/merger.cc:39-45 | Moves to the last entry of the union. |
| TwoLevelIterator.SeekWhole | KeyStore/Pods/leveldb-library/table/two_level_iterator.cc:82-87 | Seeking the index and then the block it names is seeking the concatenated blocks. |
| TwoLevelIterator.TwoLevelIterator.InitDataBlock | KeyStore/Pods/leveldb-library/table/two_level_iterator.cc:146-164 | The data iterator afterwards runs over the block of the current index entry, opened again only if the handle differs. |
| TwoLevelIterator.TwoLevelIterator.SkipEmptyDataBlocksForward | KeyStore/Pods/leveldb-library/table/two_level_iterator.cc:115-126 | Ends on the first entry of the next block that has one, or past the end. |
| TwoLevelIterator.TwoLevelIterator.SkipEmptyDataBlocksBackward | KeyStore/Pods/leveldb-library/table/two_level_iterator.cc:128-139 | Ends on the last entry of the nearest earlier block that has one, or before the beginning. |
| TwoLevelIterator.TwoLevelIterator.Seek | KeyStore/Pods/leveldb-library/table/two_level_iterator.cc:82-87 | Moves to the first entry of the concatenation at or after the target. |
| TwoLevelIterator.TwoLevelIterator.SeekToFirst | KeyStore/Pods/leveldb-library/table/two_level_iterator.cc:89-94 | Moves to the first entry of the concatenation. |
| TwoLevelIterator.TwoLevelIterator.SeekToLast | KeyStore/Pods/leveldb-library/table/two_level_iterator.cc:96-101 | Moves to the last entry of the concatenation. |
| TwoLevelIterator.TwoLevelIterator.Next | KeyStore/Pods/leveldb-library/table/two_level_iterator.cc:103-107 | Moves to the following entry of the concatenation, across empty blocks. |
| TwoLevelIterator.TwoLevelIterator.Prev | KeyStore/Pods/leveldb-library/table/two_level_iterator.cc:109-113 | Moves to the preceding entry of the concatenation, across empty blocks. |
| StoreIterator.LevelIndexed | KeyStore/Pods/leveldb-library/db/version_set.cc:164-228 | The file list of a sorted level, indexed by largest keys, meets what the two-level iterator needs. |
| StoreIterator.RunsMerge | KeyStore/Pods/leveldb-library/db/db_impl.cc:1062-1087 | Memtables, level-0 tables and concatenated levels of any reachable store are sorted runs without a common entry that merge into the sorted listing of the store. |
| StoreIterator.ListingExists | KeyStore/Pods/leveldb-library/db/db_impl.cc:1062-1087 | Every reachable store has a sorted listing of its entries, into which these runs merge. |
| StoreIterator.NewChild | KeyStore/Pods/leveldb-library/db/memtable.cc:46-73 | Each run gets an iterator that is a cursor on it: over the skip list of a memtable, over a level-0 table, or over the file index of a deeper level. |
| StoreIterator.AddIterators | KeyStore/Pods/leveldb-library/db/version_set.cc:230-246 | There is one such child for each memtable, level-0 table and deeper level, and no child touches another. |
| StoreIterator.NewIterator | KeyStore/Pods/leveldb-library/db/db_impl.cc:1147-1157 | The iterator made of them walks the live keys of the store: a key is listed with a value exactly if a read of the store, at the snapshot or the current sequence, finds that value. |
| StoreIterator.IteratorIsTheMap | KeyStore/Pods/leveldb-library/db/db_impl.cc:1147-1157 | Over any run with harmless compactions, an iterator at the current sequence or a held snapshot lists exactly the map built by the writes up to there. |
| Crc32c.ByteShiftLinear | KeyStore/Pods/leveldb-library/util/crc32c.cc:276-377 | The step function is linear over exclusive or. |
| Crc32c.Step4Is | KeyStore/Pods/leveldb-library/util/crc32c.cc:312-325 | A lane word through the four stride tables is the lane moved by sixteen zero bytes, combined with the word. |
| Crc32c.Rotated | KeyStore/Pods/leveldb-library/util/crc32c.cc:327-343 | Feeding the oldest of four lanes and rotating them feeds the word to the register the lanes stand for. |
| Crc32c.ByteTableBasis | KeyStore/Pods/leveldb-library/util/crc32c.cc:18-82 | The literal byte table agrees with the step function at the powers of two. |
| Crc32c.Extend | KeyStore/Pods/leveldb-library/util/crc32c.cc:276-377 | For every start value, length and alignment the strided loop computes the byte-at-a-time fold. |
| Crc32c.LetterValue | KeyStore/Pods/leveldb-library/util/crc32c.cc:276-376 | The checksum of the letter a is 0xc1d04330. |
| Crc32c.BufferValue | KeyStore/Pods/leveldb-library/util/crc32c.cc:267-274 | The checksum of TestCRCBuffer is 0xdcbc59fa, the value by which the source tests the hardware. |
| Crc32c.MaskValue | KeyStore/Pods/leveldb-library/util/crc32c.h:22-32 | The mask of that value is 0x5678a450. |
| Crc32c.MaskUnmask | KeyStore/Pods/leveldb-library/util/crc32c.h:24-38 | Masking undoes unmasking: every word is the mask of one checksum. |
| Crc32c.ExtendedConcat | KeyStore/Pods/leveldb-library/util/crc32c.h:15-17 | Extending by two strings in turn is extending by their concatenation. |
| Crc32c.UnmaskMask | KeyStore/Pods/leveldb-library/util/crc32c.h:29-38 | Unmasking undoes masking. |
| Coding.FixedBack | KeyStore/Pods/leveldb-library/util/coding.cc:9-33 | A fixed-width little-endian number reads back. |
| Coding.FixedDigits | KeyStore/Pods/leveldb-library/util/coding.cc:9-33 | The bytes of a fixed-width number are its digits in base 256, least significant first. |
| Coding.VarintBack | KeyStore/Pods/leveldb-library/util/coding.cc:112-140 | A varint in front of any bytes reads back with its length, within any limit it fits. |
| Coding.VarintDigits | KeyStore/Pods/leveldb-library/util/coding.cc:47-90 | Each byte of a varint is seven bits of the number, least significant first, and only the last is below 128. |
| Coding.VarintTells | KeyStore/Pods/leveldb-library/util/coding.cc:111-157 | What the decoder takes for a varint ends at the first byte below 128, and there is none exactly if none of the bytes within the limit is. |
| Coding.EncodeVarint32 | KeyStore/Pods/leveldb-library/util/coding.cc:47-73 | The unrolled encoder writes the same bytes as the general varint. |
| Coding.EncodeVarint64 | KeyStore/Pods/leveldb-library/util/coding.cc:81-90 | The loop writes the varint of its value. |
| Coding.GetVarint | KeyStore/Pods/leveldb-library/util/coding.cc:142-157 | The decoding loop yields value and length of the varint in front, or fails exactly if there is none within the limit. |
| Coding.PrefixedBack | KeyStore/Pods/leveldb-library/util/coding.cc:98-101 | A length-prefixed string in front of any bytes reads back and leaves them. |
| Coding.PrefixedCut | KeyStore/Pods/leveldb-library/util/coding.cc:171-193 | A length-prefixed string cut short anywhere is not read. |
| LogFormat.FragmentAt | KeyStore/Pods/leveldb-library/db/log_writer.cc:34-108 | Each fragment of a log lies within one 32 KB block, and its bytes are those of its header and data. |
| LogWriter.OffsetTells | KeyStore/Pods/leveldb-library/db/log_writer.cc:44-63 | The block offset kept by the writer determines the padding and room of the next fragment. |
| LogWriter.Writer.EmitPhysicalRecord | KeyStore/Pods/leveldb-library/db/log_writer.cc:82-108 | Header with masked checksum, length and type, then the data, are appended. |
| LogWriter.Writer.AddRecord | KeyStore/Pods/leveldb-library/db/log_writer.cc:34-80 | Whatever the length, empty included, the file afterwards is the log of the old records and the new one. |
| LogReader.Reader.FillBuffer | KeyStore/Pods/leveldb-library/db/log_reader.cc:191-217 | With too little buffered, the next block is read and a short trailer skipped; false exactly at the end of the file. |
| LogReader.Reader.ParseBuffer | KeyStore/Pods/leveldb-library/db/log_reader.cc:219-271 | The front of the buffer read as a fragment, with the rest of the buffer dropped when it is malformed. |
| LogReader.Reader.ReadPhysicalRecord | KeyStore/Pods/leveldb-library/db/log_reader.cc:189-271 | Finds what parsing the file from the current position finds, with the same number of corruptions reported. |
| LogReader.Reader.ReadRecord | KeyStore/Pods/leveldb-library/db/log_reader.cc:56-174 | Yields the next record of the file from the current position, reporting fragments that do not fit together. |
| LogReader.RecoverLog | KeyStore/Pods/leveldb-library/db/db_impl.cc:419-441 | Reading until nothing comes yields all records of the file from its start. |
| LogSoundness.PieceTells | KeyStore/Pods/leveldb-library/db/log_reader.cc:184-266 | Whatever is in the file, a physical read hands on a fragment only if the bytes at its place are exactly those the writer would write for it, masked checksum included, within one block; damage takes the rest of the block and is reported, unless type and length are zero; and the end of the file is found only behind less than a header or less than the length announced. |
| LogSoundness.RecordStands | KeyStore/Pods/leveldb-library/db/log_reader.cc:57-182 | Whatever is in the file, a record read is there as one full fragment, or as a first, middle and last ones without a gap, each with its checksum; and if nothing was reported, nothing but empty fragments and zeroed places were passed over before it. |
| LogSoundness.LogBytes | KeyStore/Pods/leveldb-library/db/log_writer.cc:82-108 | The file of the one record a: masked checksum, length, type and data. |
| LogSoundness.BlockFills | KeyStore/Pods/leveldb-library/db/log_writer.cc:34-80 | A block has room for 32761 bytes of one record; one byte more takes a second fragment. |
| LogRecovery.StoredChecksum | KeyStore/Pods/leveldb-library/db/log_reader.cc:237-249 | The checksum stored with a fragment unmasks to the checksum of its type and data. |
| LogRecovery.PieceAt | KeyStore/Pods/leveldb-library/db/log_reader.cc:189-271 | Of a log cut at any byte, a physical read at a fragment boundary finds the fragment if it is whole, and else the end without a report. |
| LogRecovery.RecordAt | KeyStore/Pods/leveldb-library/db/log_reader.cc:74-153 | Of a log cut at any byte, reading on from any fragment of a record yields the record if it is whole, and else nothing without a report. |
| LogRecovery.CutLogReplays | KeyStore/Pods/leveldb-library/db/log_reader.cc:56-174 | For any records and any cut of the written file, exactly the records wholly before the cut are read, in order, and nothing is reported. |
| WriteBatch.Iterate | KeyStore/Pods/leveldb-library/db/write_batch.cc:42-80 | The loop hands out the operations in the bytes up to the first malformed one, and succeeds exactly if there is none and the count agrees. |
| WriteBatch.BatchBack | KeyStore/Pods/leveldb-library/db/write_batch.cc:42-96 | Iterating over an encoded batch hands out its operations, and the header gives its sequence and count. |
| WriteBatch.BatchCut | KeyStore/Pods/leveldb-library/db/write_batch.cc:42-79 | A batch cut short anywhere is not taken for a batch. |
| WriteBatch.BatchBytes | KeyStore/Pods/leveldb-library/db/write_batch.cc:98-110 | The bytes of a batch with a put and a deletion. |
| WriteBatch.WriteBatch.Put | KeyStore/Pods/leveldb-library/db/write_batch.cc:98-103 | The bytes become those of the batch with the put added. |
| WriteBatch.WriteBatch.Delete | KeyStore/Pods/leveldb-library/db/write_batch.cc:105-109 | The bytes become those of the batch with the deletion added. |
| WriteBatch.WriteBatch.Append | KeyStore/Pods/leveldb-library/db/write_batch.cc:144-148 | The bytes become those of the batch with the other batch's operations added. |
| WriteBatch.WriteBatch.SetSequence | KeyStore/Pods/leveldb-library/db/write_batch.cc:94-96 | Only the sequence of the batch changes. |
| Recovery.RecoverLogFile | KeyStore/Pods/leveldb-library/db/db_impl.cc:371-487 | Replays every record into memtable insertions, tracking the largest sequence, with short records and corruption fatal only under paranoid checks. |
| Recovery.RecoverLogs | KeyStore/Pods/leveldb-library/db/db_impl.cc:350-362 | Replays the logs one after another, each from the largest sequence seen so far, and stops at the first failure. |
| Recovery.CommittedPrefixRecovered | KeyStore/Pods/leveldb-library/db/db_impl.cc:371-487 | A log of committed batches cut at any byte recovers the operations of exactly the batches wholly before the cut, under the sequences they were committed with. |
| Recovery.CutLogRecovered | KeyStore/Pods/leveldb-library/db/db_impl.cc:371-487 | The same from any largest sequence seen before: that grows to the last sequence of the batches recovered, and stays if there is none. |
| Recovery.LenientReplays | KeyStore/Pods/leveldb-library/db/db_impl.cc:400-459 | Without paranoid checks, whatever is in the file, recovery inserts the well-formed operations of all records long enough, under the sequences their headers give, keeps the largest sequence, and counts every corruption. |
| Recovery.ParanoidReplays | KeyStore/Pods/leveldb-library/db/db_impl.cc:370-459 | With paranoid checks it succeeds if and only if nothing is reported and every record is a well-formed batch, then does the same, and otherwise has inserted no more. |
| GroupCommit.GroupLength | KeyStore/Pods/leveldb-library/db/db_impl.cc:1262-1307 | A group has its leader, goes no further than the queue, and has no writer asking for a sync unless the leader does. |
| GroupCommit.GroupIsMaximal | KeyStore/Pods/leveldb-library/db/db_impl.cc:1272-1304 | A group ends where the queue does, before a writer asking for a sync that the leader did not ask for, or before a batch with which the sizes would exceed the cap: the first size plus 128 KB if that size is at most 128 KB, else 1 MB. |
| GroupCommit.GroupWithinCap | KeyStore/Pods/leveldb-library/db/db_impl.cc:1272-1304 | The batches of a group that has more than that of its leader stay within the cap. |
| GroupCommit.BuildBatchGroup | KeyStore/Pods/leveldb-library/db/db_impl.cc:1260-1306 | The loop over the queue gathers exactly the group's operations in queue order. |
| GroupCommit.NextKeepsInv | KeyStore/Pods/leveldb-library/db/db_impl.cc:1185-1258 | Every step of every writer keeps the invariant: queue order, sequences handed out, what is logged and what is inserted agree. |
| GroupCommit.FirstComeFirstServed | KeyStore/Pods/leveldb-library/db/db_impl.cc:1191-1257 | Over any run, writers leave the queue in the order they came, each exactly once. |
| GroupCommit.AddsAscend | KeyStore/Pods/leveldb-library/db/db_impl.cc:1202-1210 | Successful groups insert under strictly ascending sequences, none beyond those handed out. |
| GroupCommit.ReadersSeeWholeGroups | KeyStore/Pods/leveldb-library/db/db_impl.cc:1215-1245 | At every moment the insertions at or below the published sequence are exactly those of the groups served, none of the group being served. |
| GroupCommit.SuccessMeansCommitted | KeyStore/Pods/leveldb-library/db/db_impl.cc:1185-1258 | A writer told that it succeeded is a member of exactly one group, which succeeded; its operations are in the memtable together under consecutive sequences; with a batch, its group's record is in a log and holds its operations; and if it asked for a sync, that record is among those a sync covered. |
| GroupCommit.MembersApart | KeyStore/Pods/leveldb-library/db/db_impl.cc:1260-1306 | The operations of different successful writers lie in places of the memtable that do not overlap, in queue order. |
| GroupCommit.EveryAddHasOneWriter | KeyStore/Pods/leveldb-library/db/db_impl.cc:1185-1258 | Over any run every published insertion is of exactly one successful writer. |
| GroupCommit.EveryRecordHasOneGroup | KeyStore/Pods/leveldb-library/db/db_impl.cc:1215-1245 | Over any run the logs, closed ones first, hold one record for each logged group, in order, and then at most that of the group being served. |
| GroupCommit.LeaderGetsItsSwitch | KeyStore/Pods/leveldb-library/db/db_impl.cc:1308-1388 | A successful writer without a batch that led its group was alone in it and had the memtable switched. |
| GroupCommit.FollowerGetsNoSwitch | KeyStore/Pods/leveldb-library/db/db_impl.cc:1260-1306 | A concrete run in which a writer without a batch joins another's group and is told success, although the memtable was never switched. |
| GroupCommit.BrokenStays | KeyStore/Pods/leveldb-library/db/db_impl.cc:1229-1240 | After a failed sync every later group fails. |
| GroupProgress.EveryoneAnswered | KeyStore/Pods/leveldb-library/db/db_impl.cc:1185-1258 | From every state reached, the machine can go on until every waiting writer is answered, and all are told success unless a sync has failed or the group being served has. |
| CommittedLog.CrashRecoversGroups | KeyStore/Pods/leveldb-library/db/db_impl.cc:1215-1245 | In every state of every run in which every record was appended, a group being logged, synced or inserted included, any of the logs cut at any byte recovers exactly the operations of the groups wholly before the cut, under the sequences they were given. |
| CommittedLog.SyncedWriteSurvives | KeyStore/Pods/leveldb-library/db/db_impl.cc:1224-1240 | The operations of a successful write that asked for a sync are recovered, under the sequences they were committed with, from its log cut anywhere that keeps the records the last sync covered. |
| LogReplay.CrashRecoversLogs | KeyStore/Pods/leveldb-library/db/db_impl.cc:337-366 | In every state of every run in which every record was appended, whatever a crash leaves of each log, replaying the logs from any one on inserts exactly the operations of the records that are whole, each under its sequence, and reports nothing. |
| LogReplay.NoHoleIff | KeyStore/Pods/leveldb-library/db/db_impl.cc:337-366 | What comes back follows the history without a hole if and only if nothing is kept of the logs behind one that lost operations. |
| LogReplay.OnlyLastCut | KeyStore/Pods/leveldb-library/db/db_impl.cc:1360-1382 | In particular when only the last log is cut, as when the process dies but not the machine. |
| ManifestCodec.EncodeTo | KeyStore/Pods/leveldb-library/db/version_edit.cc:41-85 | The loops append the fields that are set, then compaction pointers, deleted files and new files, in that order. |
| ManifestCodec.DecodeFrom | KeyStore/Pods/leveldb-library/db/version_edit.cc:107-205 | The loop reads fields up to the end of the input, failing on the first unknown or malformed one. |
| ManifestCodec.EditBack | KeyStore/Pods/leveldb-library/db/version_edit.cc:26-205 | Decoding an encoded edit gives the edit back, behind the compaction pointers of the object decoded into. |
| ManifestCodec.EditBytes | KeyStore/Pods/leveldb-library/db/version_edit.cc:41-85 | The bytes of an edit with every field set. |
| ManifestCodec.UnknownTagFails | KeyStore/Pods/leveldb-library/db/version_edit.cc:117-199 | A field with any other tag makes the input no edit. |
| ManifestCodec.LevelFails | KeyStore/Pods/leveldb-library/db/version_edit.cc:97-105 | So does a level beyond the seventh. |
| ManifestCodec.DecodeUndoesEncode | KeyStore/Pods/leveldb-library/db/version_edit.cc:26-39 | Decoding undoes encoding if and only if the object decoded into has no compaction pointers: clearing does not clear them. |
| SkipList.SearchStepKeeps | KeyStore/Pods/leveldb-library/db/skiplist.h:260-322 | Every load of a search keeps it on a node it may stand on, and at the end it stands between the last key passed and the first not passed. |
| SkipList.LinkKeeps | KeyStore/Pods/leveldb-library/db/skiplist.h:362-367 | Storing the predecessor's link makes the key part of one more level, and all levels stay sorted and nested. |
| SkipList.WriterKeepsInv | KeyStore/Pods/leveldb-library/db/skiplist.h:336-368 | After every single store of an insertion each level is a sorted sublist of the level below, and no key is lost. |
| SkipList.SearchFindsKey | KeyStore/Pods/leveldb-library/db/skiplist.h:260-281 | A search whose loads interleave with insertions finds every key whose insertion had finished when it began, and only keys that are there. |
| SkipList.SearchFindsLast | KeyStore/Pods/leveldb-library/db/skiplist.h:283-322 | Likewise the search for the last key before a key, and for the last key. |
| SkipList.SearchEnds | KeyStore/Pods/leveldb-library/db/skiplist.h:260-322 | Among insertions of any finite set of keys a search makes at most twelve loads for each of them and twelve more. |
| SkipList.List.FindGreaterOrEqual | KeyStore/Pods/leveldb-library/db/skiplist.h:260-281 | The first key at or after the given one, or none. |
| SkipList.List.FindLessThan | KeyStore/Pods/leveldb-library/db/skiplist.h:283-302 | The last key before the given one, or the head. |
| SkipList.List.FindLast | KeyStore/Pods/leveldb-library/db/skiplist.h:304-322 | The last key, or the head of an empty list. |
| SkipList.List.Contains | KeyStore/Pods/leveldb-library/db/skiplist.h:370-378 | True exactly if the key is in the list. |
| SkipList.List.Insert | KeyStore/Pods/leveldb-library/db/skiplist.h:336-368 | The list then holds the old keys and the new one, with all levels linked. |
| SkipList.ListIterator.Next | KeyStore/Pods/leveldb-library/db/skiplist.h:206-210 | Moves to the next key of the list as it is then, keys inserted meanwhile included. |
| SkipList.ListIterator.Prev | KeyStore/Pods/leveldb-library/db/skiplist.h:212-221 | Moves, by a search, to the last key before, or to none. |
| SkipList.ListIterator.Seek | KeyStore/Pods/leveldb-library/db/skiplist.h:223-226 | Moves to the first key at or after the target. |
| SkipList.ListIterator.SeekToFirst | KeyStore/Pods/leveldb-library/db/skiplist.h:228-231 | Moves to the first key. |
| SkipList.ListIterator.SeekToLast | KeyStore/Pods/leveldb-library/db/skiplist.h:233-239 | Moves to the last key, or to none in an empty list. |
| MemTable.CodeOrder | KeyStore/Pods/leveldb-library/db/memtable.cc:28-34 | The numbers by which the list orders encoded entries are in the order of internal keys, and tell them apart. |
| MemTable.MemTable.Add | KeyStore/Pods/leveldb-library/db/memtable.cc:75-98 | The entry goes to its place among the sorted entries of the memtable, as the store's write step says. |
| MemTable.MemTable.InsertInto | KeyStore/Pods/leveldb-library/db/write_batch.cc:115-136 | The operations of a batch become entries under consecutive sequences, as the store's write step says. |
| MemTable.MemTable.Get | KeyStore/Pods/leveldb-library/db/memtable.cc:100-134 | One seek in the skip list and a look at the user key answer as searching the sorted entries does. |
| MemTable.MemTableIterator.Current | KeyStore/Pods/leveldb-library/db/memtable.cc:56-60 | The entry decoded at the list's node is the one the iterator stands on. |
| MemTable.MemTableIterator.Next | KeyStore/Pods/leveldb-library/db/memtable.cc:54 | Moves to the following entry. |
| MemTable.MemTableIterator.Prev | KeyStore/Pods/leveldb-library/db/memtable.cc:55 | Moves to the preceding entry. |
| MemTable.MemTableIterator.Seek | KeyStore/Pods/leveldb-library/db/memtable.cc:51 | Moves to the first entry at or after the target. |
| MemTable.MemTableIterator.SeekToFirst | KeyStore/Pods/leveldb-library/db/memtable.cc:52 | Moves to the first entry. |
| MemTable.MemTableIterator.SeekToLast | KeyStore/Pods/leveldb-library/db/memtable.cc:53 | Moves to the last entry. |
| HandleTable.HandleTable.FindPointer | KeyStore/Pods/leveldb-library/util/cache.cc:114-120 | Ends at the handle of the key if the table has one, else at the end of the key's bucket. |
| Hashing.MaskReduces | KeyStore/Pods/leveldb-library/util/cache.cc:114-120 | For a power of two, masking the hash with one less gives its remainder, the bucket the specification speaks of. |
| HandleTable.HandleTable.Lookup | KeyStore/Pods/leveldb-library/util/cache.cc:74-76 | The handle the table maps the key to, if any. |
| HandleTable.HandleTable.Insert | KeyStore/Pods/leveldb-library/util/cache.cc:82-99 | The table maps the key to the new handle and is otherwise unchanged, through growth; the handle replaced is returned; a table that gained a handle has as many buckets as handles at least. |
| HandleTable.HandleTable.Remove | KeyStore/Pods/leveldb-library/util/cache.cc:94-102 | The table loses exactly the key, and its handle is returned. |
| HandleTable.HandleTable.Resize | KeyStore/Pods/leveldb-library/util/cache.cc:122-147 | Moving every handle to its new bucket keeps the map, and there are then as many buckets as handles at least. |
| HandleTable.MoveOk | KeyStore/Pods/leveldb-library/util/cache.cc:131-140 | Moving one handle to the front of its new bucket keeps every handle reachable exactly once. |
| LruRings.UnlinkKeepsRing | KeyStore/Pods/leveldb-library/util/cache.cc:239-242 | Unlinking an item leaves a ring of the others in their order. |
| LruRings.AppendKeepsRing | KeyStore/Pods/leveldb-library/util/cache.cc:244-250 | Linking an item before the head leaves a ring with it at the end. |
| LruCache.DropGood | KeyStore/Pods/leveldb-library/util/cache.cc:307-316 | Taking an entry that the table let go of off its list and off the usage restores the cache's invariant. |
| LruCache.RefGood | KeyStore/Pods/leveldb-library/util/cache.cc:217-223 | Another handle moves an unused entry to the list of used ones and keeps the invariant. |
| LruCache.ReleaseGood | KeyStore/Pods/leveldb-library/util/cache.cc:225-237 | A handle given back frees the entry, or moves it to the newest end of the unused ones, or only counts down, and keeps the invariant. |
| LruCache.CacheFacts | KeyStore/Pods/leveldb-library/util/cache.cc:150-215 | What the invariant means: usage is the total charge of cached entries, references are handles plus one if cached, the two lists hold the cached entries parted by whether a client holds them, the table is the map of cached keys, and freed entries are gone and freed once. |
| LruCache.LRUCache.Lookup | KeyStore/Pods/leveldb-library/util/cache.cc:252-259 | The entry for the key with one more handle, taken off the unused ones if it was there; the other entries, the usage and what was freed stay. |
| LruCache.LRUCache.Release | KeyStore/Pods/leveldb-library/util/cache.cc:261-264 | One handle less; the deleter runs, for this entry alone, exactly if it was the last reference, and a cached entry left without handles becomes the newest unused one. |
| LruCache.LRUCache.Erase | KeyStore/Pods/leveldb-library/util/cache.cc:318-321 | The key leaves the cache and the usage falls by its charge; its entry, and no other, is freed, exactly if no client holds it. |
| LruCache.LRUCache.EvictOver | KeyStore/Pods/leveldb-library/util/cache.cc:295-302 | The oldest unused entries are freed, in order: the least number of them that brings the usage within capacity, or all. |
| LruCache.LRUCache.Insert | KeyStore/Pods/leveldb-library/util/cache.cc:266-305 | The key maps to the new entry with one handle; the entry it replaces and then the oldest unused ones, no more than needed, leave, exactly the unreferenced ones are added to what was freed, and entries in use stay; with no capacity the entry is not cached. |
| LruCache.LRUCache.Prune | KeyStore/Pods/leveldb-library/util/cache.cc:323-333 | Exactly the unused entries are freed, oldest first. |
| BlockFormat.EntryAt | KeyStore/Pods/leveldb-library/table/block_builder.cc:72-106 | In the block the bytes from one entry's offset to the next are the entry's header, unshared key and value. |
| BlockFormat.RestartsEvery | KeyStore/Pods/leveldb-library/table/block_builder.cc:72-89 | Restart points are at every interval-th entry. |
| BlockFormat.BlockBytes | KeyStore/Pods/leveldb-library/table/block_builder.cc:10-26 | The bytes of a block of three entries with two restart points. |
| BlockFormat.DecodeBack | KeyStore/Pods/leveldb-library/table/block.cc:54-74 | The fast and the slow path of the entry header both read back what was written. |
| BlockBuilder.BlockBuilder.SharedWith | KeyStore/Pods/leveldb-library/table/block_builder.cc:80-85 | The loop finds the longest common prefix. |
| BlockBuilder.BlockBuilder.Add | KeyStore/Pods/leveldb-library/table/block_builder.cc:72-106 | Buffer, restart points, counter and last key become those of the block with the pair added. |
| BlockBuilder.BlockBuilder.Finish | KeyStore/Pods/leveldb-library/table/block_builder.cc:62-70 | The block is the entries followed by the restart array and its length. |
| BlockIterator.EntryRead | KeyStore/Pods/leveldb-library/table/block.cc:224-251 | Decoding where an entry starts yields its header, the rest of its key and its value. |
| BlockIterator.RestartStored | KeyStore/Pods/leveldb-library/table/block.cc:99-102 | The stored restart array gives the offsets of the restart entries. |
| BlockIterator.BlockIter.ParseNextKey | KeyStore/Pods/leveldb-library/table/block.cc:224-251 | The iterator moves to the following pair, with its whole key rebuilt, or to the end. |
| BlockIterator.BlockIter.Next | KeyStore/Pods/leveldb-library/table/block.cc:137-140 | Moves to the following pair. |
| BlockIterator.BlockIter.Prev | KeyStore/Pods/leveldb-library/table/block.cc:142-161 | Moves to the preceding pair, also where the restart index lags behind the current entry. |
| BlockIterator.BlockIter.Seek | KeyStore/Pods/leveldb-library/table/block.cc:163-201 | Binary search among restart points and a scan land on the first pair whose key is not before the target. |
| BlockIterator.BlockIter.SeekToFirst | KeyStore/Pods/leveldb-library/table/block.cc:203-206 | Moves to the first pair. |
| BlockIterator.BlockIter.SeekToLast | KeyStore/Pods/leveldb-library/table/block.cc:208-213 | Moves to the last pair. |
| Bloom.CreateFilter | KeyStore/Pods/leveldb-library/util/bloom.cc:28-54 | A bit of the filter is set if and only if it is one of the probes of a key; its bits are the least multiple of 8 at or above 64 and the bits asked for. |
| Bloom.ProbeIs | KeyStore/Pods/leveldb-library/util/bloom.cc:46-51 | The j-th probe of a key is its hash plus j times the hash rotated right by 17 bits, in 32 bits. |
| Bloom.MarkedIs | KeyStore/Pods/leveldb-library/util/bloom.cc:50 | Bits of a byte are counted from the least significant. |
| Bloom.KeyMayMatch | KeyStore/Pods/leveldb-library/util/bloom.cc:56-80 | With at most 30 probes stored, true exactly if all probe bits of the key are set; so no key put in is missed. |
| FilterBlock.FilterBlockBuilder.StartBlock | KeyStore/Pods/leveldb-library/table/filter_block.cc:21-27 | Filters exist for all windows before the block's, the waiting keys in the first of them. |
| FilterBlock.FilterBlockBuilder.GenerateFilter | KeyStore/Pods/leveldb-library/table/filter_block.cc:51-75 | One more filter, which matches every key waiting and has no bit but their probes, and is empty if none waits; the earlier ones are unchanged. |
| FilterBlock.FilterBlockBuilder.Finish | KeyStore/Pods/leveldb-library/table/filter_block.cc:35-49 | The bytes are the filters, the offset of each, where the offsets start and the window size; and whatever blocks and keys came before, every key is matched at the offset of its block. |
| FilterBlock.StoredParts | KeyStore/Pods/leveldb-library/table/filter_block.cc:40-48 | The trailer, whose last byte is 11, the offset array and the filters read back from the bytes. |
| FilterBlock.FilterBlockReader.MadeReads | KeyStore/Pods/leveldb-library/table/filter_block.cc:77-88 | A reader made from the bytes of filters has parsed what they are. |
| FilterBlock.FilterBlockReader.KeyMayMatch | KeyStore/Pods/leveldb-library/table/filter_block.cc:90-104 | For any contents the reader answers as the filter stored for the window does, passes what it has no filter for or cannot make sense of, and rejects at an empty one; made from the bytes of filters it answers exactly as the filter of the window does. |
| FilterBlock.KeyInItsWindow | KeyStore/Pods/leveldb-library/table/filter_block.cc:21-33 | Over any sequence of blocks started and keys added, every key ends in the filter of the 2 KB window its block starts in. |
| FilterBlock.WindowOnly | KeyStore/Pods/leveldb-library/table/filter_block.cc:21-33 | And no filter is made from any other key: each was added for a block starting in the filter's window, or before any block. |
| Separators.BeforeTotal | KeyStore/Pods/leveldb-library/util/comparator.cc:25-27 | The byte order is total and strict. |
| Separators.FindShortestSeparator | KeyStore/Pods/leveldb-library/util/comparator.cc:29-50 | The start cut behind the first byte that differs, that byte one higher, exactly if there is room between the bytes; else unchanged. So it is at or behind the start and, if changed, before the limit. |
| Separators.FindShortSuccessor | KeyStore/Pods/leveldb-library/util/comparator.cc:52-64 | The key cut behind its first byte that is not 0xff, that byte one higher; unchanged if it has none. |
| Separators.FindInternalSeparator | KeyStore/Pods/leveldb-library/db/dbformat.cc:69-86 | The earliest internal key of the user key so shortened, if it became shorter, and else the start unchanged. |
| Separators.FindInternalSuccessor | KeyStore/Pods/leveldb-library/db/dbformat.cc:88-101 | Likewise behind the key, with no limit. |
| ByteKeys.RanksKeepOrder | KeyStore/Pods/leveldb-library/util/comparator.cc:25-27 | For any finite set of byte keys their ranks are integers in the same order, so that what holds of integer keys holds of them. |
| ByteKeys.RankedOrder | KeyStore/Pods/leveldb-library/db/dbformat.cc:51-67 | Likewise for internal keys. |
| ByteKeys.SeparatorFits | KeyStore/Pods/leveldb-library/db/dbformat.cc:69-101 | What the comparator makes of byte keys, between two or behind the last, is an index key the table builder may choose. |
| Table.FoundInBlock | KeyStore/Pods/leveldb-library/table/table.cc:216-244 | The index key found leads to the block that holds the first entry at or after the lookup key. |
| Table.InternalGet | KeyStore/Pods/leveldb-library/table/table.cc:216-244 | Seeks the index, consults the filter for the block's offset, and hands on the block's first entry at or after the key. |
| Table.LookupNeverMisses | KeyStore/Pods/leveldb-library/table/table.cc:216-244 | For any table that holds the entries, with or without a filter, a lookup reports what searching all entries reports: the newest entry of the user key at or below the sequence, never another. |
| TableBuilder.TableBuilder.Add | KeyStore/Pods/leveldb-library/table/table_builder.cc:94-123 | The table built so far holds one more entry; a pending block gets its index key first. |
| TableBuilder.TableBuilder.Flush | KeyStore/Pods/leveldb-library/table/table_builder.cc:125-139 | The entries waiting become a block, and the filter builder starts the window of the next. |
| TableBuilder.TableBuilder.Finish | KeyStore/Pods/leveldb-library/table/table_builder.cc:198-253 | The finished table holds exactly the entries added, each block below its index key and the next block above it, and every key is in the filter of its block. |
| SafeDeletion.StepKeeps | KeyStore/Pods/leveldb-library/db/db_impl.cc:223-278 | Every reader, memtable switch, flush (inside a compaction too), compaction, move, manifest write, error, crash and each step of opening again keeps the invariant on reference counts, files on disk and possible manifests. |
| SafeDeletion.NothingNeededIsDeleted | KeyStore/Pods/leveldb-library/db/db_impl.cc:223-278 | In every state of every run the tables of every held version, the tables being written, installed or merged, and, for every manifest a crash could leave, its tables and the logs it needs are on disk. |
| SafeDeletion.CrashLosesNothing | KeyStore/Pods/leveldb-library/db/db_impl.cc:280-369 | A crash in any state of any run, while a database is being opened included, can be recovered from with any manifest it could leave: no table named is missing, and every log whose records the manifest does not cover is on disk and will be replayed. |
| SafeDeletion.OpenedHoldsAll | KeyStore/Pods/leveldb-library/db/db_impl.cc:1474-1515 | Once a database is open again, exactly the tables made or kept are on disk, every manifest that could be read names them, and the records of every log begun before the new one are in them. |
| Reopening.AlwaysReopens | KeyStore/Pods/leveldb-library/db/db_impl.cc:1474-1515 | Whatever the state a crash comes in, and whichever manifest it leaves, the database can be opened again, with nothing left to be flushed and no error. |
| SafeDeletion.CleanLeavesNoGarbage | KeyStore/Pods/leveldb-library/db/version_set.cc:1167-1177 | With no task under way and no reader left, a clean-up leaves exactly the current version's tables and the logs in use. |
| SafeDeletion.CleaningInTheWindowLosesTheFlush | KeyStore/Pods/leveldb-library/db/version_set.cc:841-865 | While a flush's edit is being written with the mutex released, a clean-up by anyone else would delete its table unless an error is recorded: one background task at a time is needed. |
| NanopbScalars.Varint32Back | KeyStore/Pods/nanopb/pb_decode.c:187-247 | The 32-bit varint decoder reads back what the encoder writes, with its sign-extension checks and 8-bit position counter. |
| NanopbScalars.ScalarBack | KeyStore/Pods/nanopb/pb_decode.c:1328-1517 | Every value of every scalar type that fits its field reads back as it was. |
| NanopbScalars.PackedBack | KeyStore/Pods/nanopb/pb_decode.c:418-450 | A packed array reads back in order, behind the items there already. |
| NanopbEvolution.TaggedArrive | KeyStore/Pods/nanopb/pb_decode.c:451-463 | Items each behind their own tag read back in order, whether their type can be packed or not, unless an item lacks what the reader requires. |
| NanopbEvolution.SlotArrives | KeyStore/Pods/nanopb/pb_decode.c:406-483 | The bytes of a field of any rule and type, nested messages and unions included, fill exactly its slot of the reader's message, if the reader has it, and change nothing if not. |
| NanopbEvolution.UnknownSkipped | KeyStore/Pods/nanopb/pb_decode.c:321-333 | The bytes of a field the reader does not know, of any rule and type, before any others do not change what is decoded. |
| NanopbRoundTrip.SchemaEvolves | KeyStore/Pods/nanopb/pb_decode.c:928-1076 | A message written with one schema and read with another, each with fields the other lacks, in any order and at any depth, fields of the reader being no narrower: decoding succeeds if and only if none of the first 64 required fields of a message is missing, and then gives what both schemas have, defaults elsewhere; what follows a zero byte is not looked at. |
| NanopbRoundTrip.RoundTrip | KeyStore/Pods/nanopb/pb_decode.c:928-1076 | For every good schema and every message fitting it, decoding the encoded bytes succeeds and gives the message back up to the contents of what is not there. |
| NanopbSoundness.DecodedFits | KeyStore/Pods/nanopb/pb_decode.c:928-1076 | Whatever the bytes, a message that is decoded fits its schema: every number in the range of its field, every string terminated within its storage, every array within its bound, and at most one member of each union chosen. |
| NanopbSoundness.DecodedEncodes | KeyStore/Pods/nanopb/pb_decode.c:928-1076 | So it can be encoded again, and then decodes to the same. |
| NanopbFormat.Varint32Exact | KeyStore/Pods/nanopb/pb_decode.c:187-247 | Of all 64-bit numbers the 32-bit varint decoder takes exactly those below 2^32 and those whose bit 31 and groups above bit 34 look like a sign extension, of which it keeps the low 32 bits, whatever bits 32 to 34 are. |
| NanopbFormat.WrittenIff | KeyStore/Pods/nanopb/pb_encode.c:238-337 | A field takes no bytes if and only if it is not there, or, for a proto3 singular one, is zero. |
| NanopbFormat.NumberZero | KeyStore/Pods/nanopb/pb_common.c:78-95 | A message type without fields reads field number 0 as a value of its own, which any other skips by its wire type. |
| NanopbFormat.NumberBytes | KeyStore/Pods/nanopb/pb_encode.c:608-664 | The bytes of the number 150 under tag 1. |
| NanopbFormat.NegativeBytes | KeyStore/Pods/nanopb/pb_encode.c:630-643 | Minus one takes ten bytes, or one with zigzag. |
| NanopbFormat.PackedBytes | KeyStore/Pods/nanopb/pb_encode.c:147-208 | The bytes of a packed array of two numbers. |
| NanopbIterator.FieldIter.Next | KeyStore/Pods/nanopb/pb_common.c:20-76 | Moves to the following field, or back to the first and says so. |
| NanopbIterator.FieldIter.Find | KeyStore/Pods/nanopb/pb_common.c:78-95 | Walking round from anywhere finds the field with the tag exactly if there is one; an empty message type yields its terminator for tag zero. |
| NanopbInput.IStream.Read | KeyStore/Pods/nanopb/pb_decode.c:102-137 | Reads exactly so many bytes of what remains, or fails because fewer remain. |
| NanopbInput.IStream.DecodeVarint32 | KeyStore/Pods/nanopb/pb_decode.c:187-253 | The loop over the stream decodes what the byte function decodes, failing exactly when it does. |
| NanopbInput.IStream.DecodeVarint | KeyStore/Pods/nanopb/pb_decode.c:255-276 | Likewise for 64 bits. |
| NanopbDecoder.MakeStringSubstream | KeyStore/Pods/nanopb/pb_decode.c:372-385 | The substream is the length-prefixed piece and the stream goes on behind it; fails exactly if the piece is not there whole. |
| NanopbDecoder.CloseStringSubstream | KeyStore/Pods/nanopb/pb_decode.c:387-403 | What the substream left unread is dropped and the stream is behind the piece. |
| NanopbDecoder.DecodeScalar | KeyStore/Pods/nanopb/pb_decode.c:1328-1517 | Decodes a scalar as the byte function does, failing exactly when it does. |
| NanopbDecoder.SkipField | KeyStore/Pods/nanopb/pb_decode.c:321-333 | Skips an unknown field of any wire type as the byte function does, of which `NanopbEvolution.UnknownSkipped` says what that means. |
| NanopbDecoder.DecodePacked | KeyStore/Pods/nanopb/pb_decode.c:418-450 | Decodes items until the substream ends, failing when the array is full. |
| NanopbDecoder.DecodeField | KeyStore/Pods/nanopb/pb_decode.c:406-483 | Decodes one field into its slot as the byte function does, dropping the other members of a union. |
| NanopbDecoder.Decode | KeyStore/Pods/nanopb/pb_decode.c:928-1076 | Decoding a message from a stream, with the circular field search and the required-field flags, is the decoding of its remaining bytes. |
| NanopbDecoder.CheckRequired | KeyStore/Pods/nanopb/pb_decode.c:1038-1072 | True exactly if each of the first 64 required fields was seen. |
| NanopbOutput.OStream.Write | KeyStore/Pods/nanopb/pb_encode.c:103-128 | Appends the bytes, or only counts them, or fails exactly if there is no room. |
| NanopbOutput.OStream.EncodeVarint | KeyStore/Pods/nanopb/pb_encode.c:608-628 | Writes the varint, failing exactly if it does not fit. |
| NanopbOutput.FixedSize | KeyStore/Pods/nanopb/pb_encode.c:165-177 | The size computed for packed fixed-width items is what writing them takes. |
| NanopbOutput.EncodePacked | KeyStore/Pods/nanopb/pb_encode.c:147-208 | Writes tag, size and items; the size computed or counted first is the size of the items. |
| NanopbOutput.EncodeItem | KeyStore/Pods/nanopb/pb_encode.c:209-236 | Writes one item behind its tag, failing exactly if it cannot be encoded or both do not fit. |
| NanopbOutput.EncodeUnpacked | KeyStore/Pods/nanopb/pb_encode.c:209-236 | Writes each item after its own tag, failing exactly if one cannot be encoded or does not fit. |
| NanopbOutput.EncodeSubmessage | KeyStore/Pods/nanopb/pb_encode.c:717-765 | The two passes write the length and the message, failing exactly if it cannot be encoded or does not fit. |
| NanopbOutput.EncodeField | KeyStore/Pods/nanopb/pb_encode.c:341-426 | Writes the field if it is there, by its rule. |
| NanopbOutput.Encode | KeyStore/Pods/nanopb/pb_encode.c:528-550 | Writes exactly the specified bytes of the message, failing exactly if it cannot be encoded or does not fit. |
| NanopbOutput.GetEncodedSize | KeyStore/Pods/nanopb/pb_encode.c:567-577 | The sizing pass counts exactly what the writing pass emits. |
| NanopbOutput.FittingTaken | KeyStore/Pods/nanopb/pb_encode.c:528-550 | The encoder takes every message that fits its schema. |
| NanopbOutput.ScalarTaken | KeyStore/Pods/nanopb/pb_encode.c:769-912 | Of the scalars a field's storage can hold it takes exactly those that fit, and a string without a terminator. |

## Left out

- VersionSearch.Get: user keys are integers wherever versions, compactions, memtables, tables and iterators are modelled, standing for any total order a comparator gives; byte keys appear in the separators and blocks, and `ByteKeys` ranks them.
- CompactionWork.DoCompactionWork: the bound on grandparents is for sorted ones, as the pickers give (`CompactionWork.CompletedAscend`).
- CompactionMeaning.CompactionPreservesReads: the oldest snapshot is below the largest sequence, which the loop uses to say that no entry came before; whether an output table is full is a choice, since sizes depend on the table format.
- Database.DB.Compact: picking, merging and installing are one step; the flush that can run inside a compaction is modelled where it matters for deleting files, in `SafeDeletion`.
- Database.DB.BackgroundCompaction: which level or file triggers a compaction is a choice, as scores and seek counts only decide when, not whether, it is right; delays and waits of writers are left out with them.
- ManifestReplay.ReplayIsStepwise: needs that no edit adds a file number twice to a level, which new numbers guarantee.
- ManifestReplay.Recover: works on edits that were decoded; reading the manifest's records is the log reader's part, and the error branches of missing fields are not modelled.
- ManifestCodec.DecodeUndoesEncode: varints longer than needed are read as the source reads them, but never written.
- GroupCommit.SuccessMeansCommitted: `mem` lists the insertions into all memtables, one after another.
- CommittedLog.CrashRecoversGroups: needs every append to have succeeded; what bytes a failed append leaves is up to the file system.
- SafeDeletion.NothingNeededIsDeleted: manifests are values, so their own numbers and deletion, and the renaming of CURRENT, are not modelled; a crash may leave any manifest that a write under way could leave.
- LogReader.Reader.ReadRecord: starts at offset 0, as every caller in the store does; skipping to an initial offset and reusing an old log are left out.
- Recovery.RecoverLogs: which logs are left to replay is a parameter; `SafeDeletion` says which are there.
- Recovery.RecoverLogFile: writing a memtable out when it grows too large during recovery is modelled only as files, in `SafeDeletion`.
- Crc32c.Extend: the strided software path; the stride tables are defined by the step function, the literal byte table is compared with it at the powers of two, and the hardware instruction is not modelled.
- Coding.GetVarint: pointers into a buffer are positions.
- SkipList.SearchFindsKey: loads and stores are sequentially consistent; the weaker ordering of the source's atomics is not modelled, and the random height is a parameter.
- MemTable.MemTable.Add: the encoded entry is a value at its key of the list, not bytes of the arena, and the store's state machine holds the memtable as its sorted entries.
- MemTable.MemTableIterator.Next: the memtable does not change between its moves.
- StoreIterator.NewIterator: a level-0 table's iterator is a cursor on its entries; where the source has no child, for lack of a memtable or table, the model has one without entries.
- LruCache.LRUCache.Insert: memory is a map from pointers to records; splitting the cache into shards by hash and the destructor are left out.
- HandleTable.HandleTable.Insert: hashes are any function of the key to numbers.
- BlockIterator.BlockIter.Seek: for blocks the builder built; the branches for corrupt blocks are left out, since no such block reaches them.
- Table.LookupNeverMisses: a filter is held as a value; its bytes are proved in `FilterBlock`, while compression, block checksums and the block cache are left out.
- Bloom.CreateFilter: the hash of a key is a parameter, and so is what the bits per key times 0.69 round down to.
- FilterBlock.FilterBlockReader.KeyMayMatch: a stored window size of 64 or more, where the source's shift is undefined, shifts like any other.
- DbIterator.DBIter.FindNextUserEntry: entries whose internal key cannot be parsed, and the sampling of reads, are left out.
- MergingIterator.MergingIterator.FindSmallest: needs that no two children hold the same internal key, which holds in the store; statuses of children are left out.
- NanopbRoundTrip.RoundTrip: fields that are pointers, callbacks or extensions, and fixed-count arrays, are left out; sizes do not overflow.
- NanopbRoundTrip.SchemaEvolves: a field that both schemas have keeps its rule; an array bound, a string or bytes size and an integer width may grow.
- NanopbFormat.Varint32Exact: for numbers in their shortest form; padded varints are read as the source reads them.
- NanopbIterator.FieldIter.Find: positions in the message structure are indices.
- The Swift user interface, the one-time-password code, Firebase and its networking, environment and platform layers, the C bindings, and database repair: they hold none of the properties above.
- Properties such as the database's statistics, approximate sizes, and logging of information: they would only add easy members.
