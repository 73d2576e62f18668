# Verified models of LevelDB and nanopb

Dafny models of the two vendored libraries under `macos/Pods` that hold this repository's hard logic:
**LevelDB**, a log-structured merge-tree store, and **nanopb**, an encoder and decoder for Protocol Buffers.
`dafny verify dfyconfig.toml` checks the whole project.

## What is modelled

- *The store.* Its meaning is a flat set of versioned entries, read at a snapshot (FlatStore). Memtables, seven
  levels of table files, flushes, trivial moves, compactions and snapshots form a state machine over which layering,
  lookups and reads are proved (Levels, LayeredGet, InputSelection, Layering, CompactionWork, CompactionReads,
  StoreSteps, StoreRuns, BoundaryRule). BackgroundWork composes input selection, the input iterator, the merge loop and
  installation into such steps, OutputCuts says where its tables end, and RunningCompactions spreads a compaction over
  time, with flushes in its midst. RunChoices shows that the failing runs of LeakRun and GapRun are what these rules
  choose. User keys are integers, which stand for ranks under the user's comparator (Order,
  Separators.RankedKeysCompare).
- *Durability.* Logs, tables, manifest, background work, deletion of obsolete files, crashes and recovery interleave in
  a second state machine (CrashSafety, CrashReads); MergeRules and StoreCrashes show that runs of the leveled store are
  runs of it. VersionBuilder, VersionEdits, ManifestRecovery and ManifestSnapshots cover version edits from bytes to
  installed version.
- *Concurrency.* Group commit (GroupCommit) and the skip list with lock-free readers (SkipLists) are state machines
  over all interleavings; the skip list is also a class.
- *Files.* The fragmented log (LogFormat, LogWriting, LogReading, LogDelivery, LogAssembly, LogTruncation), also
  when its bytes are damaged (LogEvidence, LogIntegrity), blocks (Blocks, BlockBuilders, BlockIterators), filters
  (Bloom, FilterLayout, FilterBlocks), and table files from rows to bytes and back (Separators,
  Tables, TableFormat, TableFiles, TableDrafts, TableParts, TableBuilders).
- *Iterators.* DbIterator, MergingIterators and TwoLevelIterators refine cursors on a visible map, on a sorted union and
  on a concatenation (Cursors, Flattening); StoreIterators puts them over a whole store.
- *The block cache.* HandleTables, LruLists, LruCaches, and the order of eviction as clients see it (LruOrder).
- *nanopb.* Descriptors, structs and what it means to hold the same message (ProtoMessages), scalars (ProtoScalars),
  field iteration and required bits (ProtoFields), the encoder (ProtoEncoding), the decoder as functions
  (ProtoDecoding) and as methods over streams (ProtoDecoder), the round trip (ProtoProgress, ProtoRoundTrip) and what
  every successful call guarantees (ProtoGuarantees), and messages of other descriptors (ProtoEvolution).
- *The formats byte by byte.* WireVectors.

Classes model the source's objects and their methods keep the source's loops; each is proved against a function or
predicate over values, and the lemmas are about those.

## Findings

| member | source | states |
|---|---|---|
| `LeakRun.DeletedValueReturnsInARun` | macos/Pods/leveldb-library/db/version_set.cc:1384-1399 | `SetupOtherInputs` applies the boundary rule to the inputs of `level` but not to those of `level + 1`. Two next-level tables may meet inside a user key, a tombstone ending the first and the deleted value starting the second. A compaction that selects only the first drops the tombstone, and the value is read again. The run starts from an empty store. Its first compaction is a manual one, for which no trivial move is tried (`db_impl.cc:708-734`); its output is cut between tombstone and value, as the code does where the tombstone brings the table to its size limit (`RunChoices.LeakRunIsTheCodes`). |
| `BoundaryRule.CompactionReadsIff` | macos/Pods/leveldb-library/db/version_set.cc:1380-1399 | The exact condition: reads change if and only if such a boundary file, starting with a value, is left behind while the tombstone that decides its key is dropped. |
| `GapRun.AcknowledgedWriteIsHidden` | macos/Pods/leveldb-library/db/db_impl.cc:917-928 | The merge loop of a compaction flushes a waiting memtable, and `PickLevelForMemTableOutput` looks for overlap with single files only. The inputs of a manual compaction may have a gap; a table flushed into the gap can enter the very level that the compaction writes, and an output may span it. Level 2 then holds one table inside another, the binary search goes past the inner one, and an acknowledged write is not found. The run starts from an empty store. |
| `RunningCompactions.FinishKeepsStructureIff` | macos/Pods/leveldb-library/db/db_impl.cc:887-1046 | The exact condition: a finished compaction keeps the store layered if and only if no output's key range spans a table flushed into the output level meanwhile. Automatic compactions have gapless inputs and always meet it (`RunningCompactions.GaplessRunsAreStructured`). |
| `ProtoRoundTrip.StringRoundTripsIff` | macos/Pods/nanopb/pb_encode.c:873-897 | A string that fills its buffer without a terminator is encoded, but the decoder of the same field refuses it; a string comes back exactly when it is shorter than its buffer. |
| `VersionEdits.EditRoundTrip` | macos/Pods/leveldb-library/db/version_edit.cc:26-39 | `Clear` keeps the compaction pointers, so decoding into an edit that already has some restores the encoded edit with the old pointers in front; into a fresh edit it is the identity. |

## Model

| member | source | states |
|---|---|---|
| `Order.RankPreservesOrder` | macos/Pods/leveldb-library/util/comparator.cc:27-29 | under any strict total order of user keys, ranks in a finite key set compare exactly as the keys do, so integer keys stand for every comparator |
| `Separators.RankedKeysCompare` | macos/Pods/leveldb-library/db/dbformat.cc:47-63 | internal keys over bytes compare as the ranked internal keys of the store modules do |
| `FlatStore.ProbeIsNewest` | macos/Pods/leveldb-library/db/memtable.cc:101-136 | seeking a sorted run for (key, snapshot) yields the newest visible entry of the key, or proves there is none |
| `Levels.FindFile` | macos/Pods/leveldb-library/db/version_set.cc:87-105 | the binary search ends where its probes lead on any list; in a sorted level that is the first file whose largest key is not before the target |
| `Levels.SomeFileOverlapsRange` | macos/Pods/leveldb-library/db/version_set.cc:121-155 | true if and only if some file of the level meets the range, for overlapping and for sorted levels |
| `LayeredGet.VersionGet` | macos/Pods/leveldb-library/db/version_set.cc:281-400 | level 0 newest first, then one file per level, stopping at the first hit: the newest visible entry of the whole version, or proof of absence |
| `LayeredGet.SearchLevels` | macos/Pods/leveldb-library/db/version_set.cc:304-321 | the levels below level 0 are searched in order, one file each, up to the first hit, whatever their lists hold |
| `LayeredGet.Get` | macos/Pods/leveldb-library/db/db_impl.cc:1110-1155 | under the layering invariant the layered lookup answers exactly the flat newest-visible read of memtable, immutable memtable and all levels, for every key and snapshot |
| `InputSelection.GetOverlappingInputs` | macos/Pods/leveldb-library/db/version_set.cc:498-538 | the restarting level-0 scan terminates and returns the files of the least range that includes the given one and is closed under overlap |
| `InputSelection.AddBoundaryInputs` | macos/Pods/leveldb-library/db/version_set.cc:1355-1378 | terminates, adds only files of the level and none twice, each starting with a user key on which one before it ends, leaves no file that starts with the user key on which the inputs end, and keeps a run a run |
| `InputSelection.FindSmallestBoundaryFile` | macos/Pods/leveldb-library/db/version_set.cc:1321-1341 | the smallest file that starts after the key with the same user key, or proof that there is none |
| `InputSelection.SetupOtherInputs` | macos/Pods/leveldb-library/db/version_set.cc:1380-1426 | exactly the files the rules select: the seed with its boundary files, every file of the next level that meets their hull, and the expansion when it takes more files, stays below the limit and adds no next-level file; inputs grown from connected files leave no gap between them |
| `Layering.PickLevelForMemTableOutput` | macos/Pods/leveldb-library/db/version_set.cc:470-496 | exactly the level the rules pick: level 0 if something there overlaps, otherwise the first level, at most two, at which the next level overlaps or the level after that holds too many overlapping bytes; nothing on the way to it overlaps |
| `Layering.FlushKeepsLayering` | macos/Pods/leveldb-library/db/db_impl.cc:500-542 | a table flushed to such a level keeps levels sorted and disjoint and keys layered |
| `Layering.MoveDownKeepsLayering` | macos/Pods/leveldb-library/db/version_set.cc:672-715 | replacing the inputs of a compaction by outputs made of their entries, none of which spans a file that stays, keeps levels sorted and disjoint and keys layered |
| `CompactionWork.Compaction.IsBaseLevelForKey` | macos/Pods/leveldb-library/db/version_set.cc:1510-1529 | the advancing per-level cursors answer, for keys asked in increasing order, what a full scan of the deeper levels answers |
| `CompactionWork.ShouldDrop` | macos/Pods/leveldb-library/db/db_impl.cc:939-973 | the two-variable drop decision equals membership in the set of entries hidden by a newer input or obsolete as tombstones |
| `CompactionWork.DoCompactionWork` | macos/Pods/leveldb-library/db/db_impl.cc:887-1046 | the merge loop writes exactly the inputs minus the dropped entries, in order, cut into well-formed tables with consecutive numbers; but for the last of them the grandparents that a table meets total at most the limit, no table was full before its last entry, and all but one of the tables that end early have used up more grandparent bytes each than the limit |
| `CompactionWork.Compaction.ShouldStopBefore` | macos/Pods/leveldb-library/db/version_set.cc:1531-1553 | the cursor passes exactly the grandparents that end before the key, and a stop is called exactly when the bytes passed since the last stop exceed the limit |
| `OutputCuts.EndsTable` | macos/Pods/leveldb-library/db/version_set.cc:1531-1553 | of the grandparents that meet a table which the loop ends, all but the last total at most the limit |
| `OutputCuts.AllPaid` | macos/Pods/leveldb-library/db/db_impl.cc:929-935 | all but one of the tables that end before they are full have used up more grandparent bytes each than the limit |
| `CompactionReads.CompactionPreservesReadsIff` | macos/Pods/leveldb-library/db/db_impl.cc:939-973 | for any store: a merge that drops by the snapshot noted when it began leaves every read at the snapshots live at its end unchanged if and only if it drops no deciding tombstone that still covers a value outside its inputs |
| `BoundaryRule.CompactionReadsIff` | macos/Pods/leveldb-library/db/version_set.cc:1380-1399 | a compaction step preserves every live read unless the smallest unselected boundary file of the next level starts with a value whose deciding tombstone the merge drops; both directions |
| `BoundaryRule.ClosedBoundaryPreservesReads` | macos/Pods/leveldb-library/db/version_set.cc:1355-1378 | where the next level's inputs end on a user key of their own (the rule applied to the input level) every live read is preserved |
| `BoundaryRule.GuardedRunsReadHistory` | macos/Pods/leveldb-library/db/db_impl.cc:887-1046 | over whole runs: if no compaction leaves such a value behind, every state reads its full write history at every live snapshot |
| `BoundaryRule.FirstLeakMisreads` | macos/Pods/leveldb-library/db/version_set.cc:1384-1399 | the first compaction of a run that leaves a value behind makes a key that the history reads as absent read as present |
| `StoreSteps.StepKeepsStructure` | macos/Pods/leveldb-library/db/db_impl.cc:544-575 | write, memtable switch, flush, trivial move, compaction, numbering and snapshot steps all keep the layering invariant and change the stored entries as stated |
| `StoreRuns.CompactStepReadsIff` | macos/Pods/leveldb-library/db/db_impl.cc:887-1046 | one compaction step preserves all live reads if and only if it is not leaky |
| `StoreRuns.RunsAreStructured` | macos/Pods/leveldb-library/db/version_set.cc:672-715 | layering holds in every state reached by steps whose compaction outputs span no file that stays (RunningCompactions says when they do not) |
| `StoreRuns.RunsReadHistory` | macos/Pods/leveldb-library/db/db_impl.cc:1110-1155 | in every state reached without a leaky compaction the stored entries read like the full history at every live snapshot |
| `StoreRuns.SnapshotsAreRepeatable` | macos/Pods/leveldb-library/db/snapshot.h:39-91 | a snapshot that stays live reads the same in all later states |
| `BoundaryLeak.DeletedValueReturns` | macos/Pods/leveldb-library/db/version_set.cc:1384-1399 | a family of legal states and legal compactions after which a deleted value is read again |
| `LeakRun.DeletedValueReturnsInARun` | macos/Pods/leveldb-library/db/version_set.cc:1384-1399 | a concrete run from the empty store, step by step, whose last compaction turns an absent key into its deleted value |
| `RunChoices.LeakRunIsTheCodes` | macos/Pods/leveldb-library/db/db_impl.cc:697-775 | the flushes and compactions of that run are those that the background thread's rules choose, for every way of measuring tables that ends one after the tombstone |
| `BackgroundWork.InputsMerge` | macos/Pods/leveldb-library/db/version_set.cc:1214-1245 | the children of the input iterator, one per level-0 file and one per deeper level, share no key and hold exactly the inputs |
| `BackgroundWork.Drain` | macos/Pods/leveldb-library/db/db_impl.cc:908-1028 | reading the merging iterator to its end yields all inputs in one sorted run |
| `BackgroundWork.MergeAndInstall` | macos/Pods/leveldb-library/db/db_impl.cc:869-1046 | the executed compaction, from the input iterator over the merge loop to the installed version, is a compaction step of the store at the oldest live snapshot, its outputs cut where the limits say |
| `BackgroundWork.CompactMemTable` | macos/Pods/leveldb-library/db/db_impl.cc:500-575 | the executed flush is a flush step of the store to the level that the rules pick, or drops an empty memtable |
| `BackgroundWork.FirstInputs` | macos/Pods/leveldb-library/db/version_set.cc:1247-1472 | in level 0 all files of the least closed range around the requested one; in a deeper level the file of an automatic compaction alone, or for a manual one the files that meet the range, up to the first with which their total reaches the limit; nothing only if no file meets the range |
| `BackgroundWork.BackgroundCompaction` | macos/Pods/leveldb-library/db/db_impl.cc:697-775 | one turn of the background thread is one step of the store: a waiting memtable first, else a move exactly when a lone automatic input meets nothing below and few grandparents, or the compaction of the selected inputs; the inputs of automatic compactions have no gap |
| `BackgroundWork.OutputsMeetFew` | macos/Pods/leveldb-library/db/version_set.cc:1424-1430 | every output of a compaction meets, in the level two below its inputs, files that total at most the limit but for the last of them, so that compacting it later stays cheap |
| `RunningCompactions.FinishKeepsStructureIff` | macos/Pods/leveldb-library/db/db_impl.cc:887-1046 | a compaction that ran while memtables were flushed keeps the store layered if and only if no output spans a table that was flushed beside its inputs |
| `RunningCompactions.RunIsStructuredIff` | macos/Pods/leveldb-library/db/db_impl.cc:915-928 | layering holds in every state of a run in which compactions take time if and only if every compaction ends clear of the tables flushed meanwhile |
| `RunningCompactions.GaplessRunsAreStructured` | macos/Pods/leveldb-library/db/version_set.cc:1247-1304 | where compactions start from gapless inputs, as automatic ones do, layering holds in every state, whatever is written and flushed meanwhile |
| `RunningCompactions.ProjectRun` | macos/Pods/leveldb-library/db/db_impl.cc:887-1046 | the store of such a run goes through a run of atomic steps, so all theorems about those hold for it |
| `RunningCompactions.SystemReadsHistory` | macos/Pods/leveldb-library/db/db_impl.cc:895-908 | and it reads its full history at every live snapshot unless a merge leaks, although merges drop by the snapshot noted when they began |
| `GapRun.AcknowledgedWriteIsHidden` | macos/Pods/leveldb-library/db/db_impl.cc:917-928 | a concrete run from the empty store in which a manual compaction and a flush during it leave an acknowledged write where lookups do not find it |
| `RunChoices.GapRunIsTheCodes` | macos/Pods/leveldb-library/db/db_impl.cc:500-542 | the flushes of that run go where the rules send them, and its manual compaction starts from the files that the rules select |
| `VersionBuilder.SaveTo` | macos/Pods/leveldb-library/db/version_set.cc:672-715 | merging sorted base files with sorted added files and leaving out deleted numbers gives the sorted list of exactly the live files |
| `VersionBuilder.Builder.Apply` | macos/Pods/leveldb-library/db/version_set.cc:629-669 | pending deletions and additions change as the edit says, a re-added number leaving the deleted set |
| `VersionBuilder.ReplayEqualsInstalling` | macos/Pods/leveldb-library/db/version_set.cc:909-975 | folding all edits through one builder leaves the files that installing each edit in turn leaves |
| `VersionBuilder.Replay` | macos/Pods/leveldb-library/db/version_set.cc:909-975 | the loop over logged edits with one save gives sorted levels equal to installing one by one |
| `VersionBuilder.InstallEdit` | macos/Pods/leveldb-library/db/version_set.cc:792-797 | one edit through a builder on the current version gives the version that installing it means |
| `VersionBuilder.ManifestReplay` | macos/Pods/leveldb-library/db/version_set.cc:777-860 | recovery rebuilds exactly the version the running database had installed last |
| `VersionEdits.VersionEdit.EncodeTo` | macos/Pods/leveldb-library/db/version_edit.cc:41-84 | writes the fields in the order and form of the manifest record |
| `VersionEdits.VersionEdit.DecodeFrom` | macos/Pods/leveldb-library/db/version_edit.cc:105-203 | parses exactly what the recursive decoder accepts, and reports failure exactly where it does |
| `VersionEdits.EditRoundTrip` | macos/Pods/leveldb-library/db/version_edit.cc:26-203 | decoding an encoded edit restores it; into an edit that is not fresh the old compaction pointers stay in front, because Clear leaves them |
| `ManifestRecovery.Recover` | macos/Pods/leveldb-library/db/version_set.cc:905-975 | from the encoded bytes of all logged edits: succeeds exactly when comparators match and the counters were logged, with sorted levels as installed one by one, the last logged counters and the last logged compaction pointer of each level |
| `ManifestRecovery.RecoveredVersionIsInstalled` | macos/Pods/leveldb-library/db/version_set.cc:862-987 | the version recovered from the logged bytes is the one installed last |
| `ManifestSnapshots.WriteSnapshot` | macos/Pods/leveldb-library/db/version_set.cc:1064-1092 | the record decodes to every file of the current version, the comparator, and exactly the nonempty compaction pointers, each once and in level order |
| `ManifestSnapshots.SnapshotInstalls` | macos/Pods/leveldb-library/db/version_set.cc:1064-1092 | installing it on an empty version gives the version it was taken of |
| `ManifestSnapshots.SnapshotManifestRecovers` | macos/Pods/leveldb-library/db/version_set.cc:862-1092 | recovery from a manifest that starts with such a record in mid-history gives the version installed last, and the compaction pointers of the record where no later edit sets one |
| `CrashSafety.StepKeepsInv` | macos/Pods/leveldb-library/db/db_impl.cc:222-378 | every step of writers, flush, compaction, deletion, crash and recovery keeps the crash invariant |
| `CrashSafety.FlushEditLosesNothing` | macos/Pods/leveldb-library/db/db_impl.cc:544-575 | the manifest edit of a flush unlists older logs only when the new table holds what they held |
| `CrashSafety.CompactionEditLosesNothing` | macos/Pods/leveldb-library/db/db_impl.cc:869-885 | the manifest edit of a compaction unlists its inputs only when outputs or justified drops account for them |
| `CrashSafety.CrashLosesNothing` | macos/Pods/leveldb-library/db/db_impl.cc:289-378 | at every moment of every run each acknowledged entry is in a listed table, in a log recovery replays, or superseded; the synced ones survive a machine crash; nothing unwritten is recovered |
| `CrashSafety.ReopenedServesEverything` | macos/Pods/leveldb-library/db/db_impl.cc:1356-1376 | a running database, also a reopened one, serves every acknowledged entry that no compaction superseded |
| `CrashSafety.DeletionsAreOfGarbage` | macos/Pods/leveldb-library/db/db_impl.cc:222-287 | no table listed by the manifest, by a live version or in pending_outputs_, and no log recovery would replay, is ever deleted |
| `CrashSafety.CollectionLeavesNoGarbage` | macos/Pods/leveldb-library/db/db_impl.cc:222-287 | once the files that a collection schedules are deleted, the disk holds exactly the live tables and the logs from the log number on |
| `CrashSafety.DeletionsFinish` | macos/Pods/leveldb-library/db/db_impl.cc:276-286 | and they can always be deleted, in any order |
| `CrashReads.StepKeepsReads` | macos/Pods/leveldb-library/db/db_impl.cc:887-1046 | every step keeps the invariant that each dropped entry is hidden by a newer one or is a tombstone with nothing older left |
| `CrashReads.RecoveredReadsHistory` | macos/Pods/leveldb-library/db/db_impl.cc:289-378 | at every moment of every run, what recovery would bring back reads, for every key, like one history that holds all acknowledged writes and nothing unwritten |
| `CrashReads.ReopenedServesRecovered` | macos/Pods/leveldb-library/db/db_impl.cc:1478-1521 | a database that finished opening serves exactly what was recoverable |
| `MergeRules.CompactionIsSoundMerge` | macos/Pods/leveldb-library/db/db_impl.cc:939-973 | a compaction of the leveled store whose next-level inputs end on a user key of their own drops only what the crash theorem allows |
| `StoreCrashes.SimulateStep` | macos/Pods/leveldb-library/db/db_impl.cc:500-575 | every step of the leveled store is a sequence of steps of the crash machine that keeps files, memtables and history in agreement |
| `StoreCrashes.RecoversEverything` | macos/Pods/leveldb-library/db/db_impl.cc:289-378 | recovery from the corresponding disk finds exactly what the store holds |
| `StoreCrashes.StoreSurvivesCrashes` | macos/Pods/leveldb-library/db/db_impl.cc:289-378 | every run of the leveled store whose next-level inputs end on a user key of their own is a run of the crash machine; at its end, and at every moment on the way, what recovery finds reads like the whole history |
| `DbIterator.DBIter.FindNextUserEntry` | macos/Pods/leveldb-library/db/db_iter.cc:177-207 | from any legal scanning state, lands on the first visible user entry or proves there is none |
| `DbIterator.DBIter.FindPrevUserEntry` | macos/Pods/leveldb-library/db/db_iter.cc:236-276 | saves the last visible user entry below the bound and leaves the inner iterator left of it |
| `DbIterator.DBIter.Seek` | macos/Pods/leveldb-library/db/db_iter.cc:278-290 | first key of the visible map at or after the target |
| `DbIterator.DBIter.SeekToFirst` | macos/Pods/leveldb-library/db/db_iter.cc:292-301 | first key of the visible map |
| `DbIterator.DBIter.SeekToLast` | macos/Pods/leveldb-library/db/db_iter.cc:303-308 | last key of the visible map |
| `DbIterator.DBIter.Next` | macos/Pods/leveldb-library/db/db_iter.cc:141-175 | next key of the visible map, from either direction |
| `DbIterator.DBIter.Prev` | macos/Pods/leveldb-library/db/db_iter.cc:209-234 | previous key of the visible map, from either direction |
| `DbIterator.YieldIsRead` | macos/Pods/leveldb-library/db/db_iter.cc:177-207 | a yielded entry is what a read of its key at the sequence returns |
| `DbIterator.ReadIsYielded` | macos/Pods/leveldb-library/db/db_iter.cc:177-207 | every key that reads as present is yielded |
| `DbIterator.PrevUndoesNext` | macos/Pods/leveldb-library/db/db_iter.cc:141-234 | Prev after Next returns to the same key and value |
| `DbIterator.PositionsAreUnique` | macos/Pods/leveldb-library/db/db_iter.cc:278-290 | the positions the methods promise are determined by the visible map alone |
| `MergingIterators.MergingIterator.Seek` | macos/Pods/leveldb-library/table/merger.cc:47-53 | first entry of the sorted union at or after the target |
| `MergingIterators.MergingIterator.Next` | macos/Pods/leveldb-library/table/merger.cc:55-79 | next entry of the union, also when the direction was reverse |
| `MergingIterators.MergingIterator.Prev` | macos/Pods/leveldb-library/table/merger.cc:81-108 | previous entry of the union, also when the direction was forward |
| `MergingIterators.CursorOnUnion` | macos/Pods/leveldb-library/table/merger.cc:148-176 | being first after, or last before, a cut is being a cursor on one sorted sequence of the union |
| `TwoLevelIterators.TwoLevelIterator.Seek` | macos/Pods/leveldb-library/table/two_level_iterator.cc:82-87 | lands on the seek position in the concatenation of all blocks, empty blocks included |
| `TwoLevelIterators.TwoLevelIterator.Next` | macos/Pods/leveldb-library/table/two_level_iterator.cc:103-126 | steps to the next entry of the concatenation |
| `TwoLevelIterators.TwoLevelIterator.Prev` | macos/Pods/leveldb-library/table/two_level_iterator.cc:109-139 | steps to the previous entry of the concatenation |
| `TwoLevelIterators.TwoLevelIterator.SeekToLast` | macos/Pods/leveldb-library/table/two_level_iterator.cc:96-101 | lands on the last entry of the concatenation |
| `TwoLevelIterators.TwoLevelIterator.CurrentEntry` | macos/Pods/leveldb-library/table/two_level_iterator.cc:32-39 | the entry of the concatenation it stands on |
| `StoreIterators.LevelIsSeparated` | macos/Pods/leveldb-library/db/version_set.cc:210-249 | the files of a sorted level, indexed by largest key, meet what the two-level iterator needs, and their concatenation is the level |
| `StoreIterators.ChildrenAreMergeable` | macos/Pods/leveldb-library/db/db_impl.cc:1072-1097 | memtables, level-0 files and deeper levels are sorted runs that share no key |
| `StoreIterators.MergedStore` | macos/Pods/leveldb-library/db/db_impl.cc:1072-1097 | they hold exactly the store, there is one sorted sequence of it, and the merging iterator walks that |
| `StoreIterators.IteratorYieldsWhatGetFinds` | macos/Pods/leveldb-library/db/db_impl.cc:1157-1167 | over it the user iterator yields a key with a value exactly when a lookup of the key returns that value |
| `GroupCommit.BuildBatchGroup` | macos/Pods/leveldb-library/db/db_impl.cc:1267-1316 | the group is the queue prefix that the size and sync rules determine, and the batch its concatenation |
| `GroupCommit.GroupIsUnique` | macos/Pods/leveldb-library/db/db_impl.cc:1267-1316 | those rules determine one prefix |
| `GroupCommit.GroupIsBounded` | macos/Pods/leveldb-library/db/db_impl.cc:1274-1316 | a group of more than one batch is at most a mebibyte, one led by at most 128 KiB grows by at most 128 KiB, and the first writer left out would break these bounds or the sync rule |
| `GroupCommit.StepKeepsInv` | macos/Pods/leveldb-library/db/db_impl.cc:1195-1265 | arrival, group building, logging, syncing, inserting and publishing keep the commit invariant |
| `GroupCommit.CompletionIsFifo` | macos/Pods/leveldb-library/db/db_impl.cc:1195-1265 | in every interleaving writers complete exactly once and in arrival order |
| `GroupCommit.AckedIsLogged` | macos/Pods/leveldb-library/db/db_impl.cc:1214-1247 | acknowledged batches have disjoint increasing sequence ranges and lie in the log, synced if their writer asked for it |
| `GroupCommit.BatchesAreAtomic` | macos/Pods/leveldb-library/db/write_batch.cc:42-80 | a reader at the published sequence sees each batch entirely or not at all, and nothing of any other |
| `SkipLists.SkipList.FindGreaterOrEqual` | macos/Pods/leveldb-library/db/skiplist.h:260-280 | least key at or after the target, and the predecessor on every level |
| `SkipLists.SkipList.FindLessThan` | macos/Pods/leveldb-library/db/skiplist.h:282-303 | greatest key below the target, or the head |
| `SkipLists.SkipList.FindLast` | macos/Pods/leveldb-library/db/skiplist.h:305-323 | the greatest key, or the head |
| `SkipLists.SkipList.Insert` | macos/Pods/leveldb-library/db/skiplist.h:335-368 | adds exactly the key and keeps every level a sorted sublist of the one below |
| `SkipLists.SkipList.Contains` | macos/Pods/leveldb-library/db/skiplist.h:370-378 | true if and only if the key is in the list |
| `SkipLists.LevelsAreSortedSublists` | macos/Pods/leveldb-library/db/skiplist.h:335-368 | at every pointer store of an insert, and between them, each level is a sorted chain contained in the level below |
| `SkipLists.SearchesAreLinearizable` | macos/Pods/leveldb-library/db/skiplist.h:260-323 | a search interleaved with an insert answers for the key set as it stands at its last level-0 read |
| `SkipLists.KeysOnlyGrow` | macos/Pods/leveldb-library/db/skiplist.h:335-368 | no step of the interleaving removes a key |
| `LogWriting.Writer.AddRecord` | macos/Pods/leveldb-library/db/log_writer.cc:34-80 | appends the record as fragments that fill blocks, pads block tails, and ends where the record length determines |
| `LogWriting.Writer.EmitPhysicalRecord` | macos/Pods/leveldb-library/db/log_writer.cc:82-108 | header with masked checksum, length and type, then the payload |
| `LogReading.Reader.ReadPhysicalRecord` | macos/Pods/leveldb-library/db/log_reader.cc:189-271 | outcome, buffer, position and reported drops as the step function says, on any bytes |
| `LogReading.Reader.ReadRecord` | macos/Pods/leveldb-library/db/log_reader.cc:56-174 | assembles fragments as the pure reader does |
| `LogIntegrity.ReturnedRecordIsBacked` | macos/Pods/leveldb-library/db/log_reader.cc:56-271 | whatever the bytes of the file: a returned record consists of fragments that stand in the file one after the other, first, middles and last, each inside one block and under the header, masked checksum included, that a writer gives; records share no fragment |
| `LogIntegrity.DamageIsReported` | macos/Pods/leveldb-library/db/log_reader.cc:189-271 | bytes that must parse as a record and that no writer wrote are reported, unless their type and length are zero, and cost no more than the rest of their block |
| `LogIntegrity.SilentCallLosesNothing` | macos/Pods/leveldb-library/db/log_reader.cc:71-174 | a call that reports no corruption returns every byte of every fragment that it read |
| `LogAssembly.ReadsWholeRecords` | macos/Pods/leveldb-library/db/log_reader.cc:71-174 | over any source that delivers physical records in order: the calls return exactly the whole records before the first cut one |
| `LogTruncation.PhysicalOnLog` | macos/Pods/leveldb-library/db/log_reader.cc:189-271 | on a byte prefix of a written log the physical reader delivers the next record, or the end without a complaint |
| `LogTruncation.TruncatedLogReadsBack` | macos/Pods/leveldb-library/db/log_reader.cc:56-271 | for every record list and every byte prefix of its log: reading returns exactly the records that lie wholly inside, in order, and reports no corruption |
| `LogFormat.UnmaskUndoesMask` | macos/Pods/leveldb-library/util/crc32c.h:25-38 | masking a checksum loses nothing |
| `LogFormat.MaskUndoesUnmask` | macos/Pods/leveldb-library/util/crc32c.h:25-38 | and every stored word is the mask of exactly one checksum |
| `Coding.Varint32RoundTrip` | macos/Pods/leveldb-library/util/coding.cc:21-114 | decoding an encoded 32-bit varint returns it and the rest |
| `Coding.Varint64RoundTrip` | macos/Pods/leveldb-library/util/coding.cc:55-143 | decoding an encoded 64-bit varint returns it and the rest |
| `Coding.EncodeVarint32` | macos/Pods/leveldb-library/util/coding.cc:21-47 | the unrolled encoder writes the seven-bit groups |
| `Coding.EncodeVarint64` | macos/Pods/leveldb-library/util/coding.cc:55-64 | the encoding loop writes the seven-bit groups |
| `Coding.ParseVarint` | macos/Pods/leveldb-library/util/coding.cc:86-131 | the decoding loops compute the recursive meaning |
| `Coding.LengthPrefixedRoundTrip` | macos/Pods/leveldb-library/util/coding.cc:72-163 | decoding a length-prefixed string returns it and the rest |
| `BlockBuilders.BlockBuilder.Add` | macos/Pods/leveldb-library/table/block_builder.cc:71-105 | the block under construction holds the old entries and the new one; every interval-th entry shares nothing, every other one all of its common prefix with the key before; the size estimate is that of the pairs |
| `BlockBuilders.BlockBuilder.Finish` | macos/Pods/leveldb-library/table/block_builder.cc:61-69 | the bytes are a block of exactly the added entries, as long as the estimate said |
| `Blocks.HeadAt` | macos/Pods/leveldb-library/table/block_builder.cc:71-93 | restart j of such a block is at entry j times the interval |
| `BlockBuilders.EntryReadsBack` | macos/Pods/leveldb-library/table/block.cc:55-77 | a written entry decodes to its shared length, suffix and value, on the fast path and the slow one |
| `BlockBuilders.Open` | macos/Pods/leveldb-library/table/block.cc:21-40 | the restart array is where its length says, and contents too short for it are rejected |
| `BlockIterators.Iter.Next` | macos/Pods/leveldb-library/table/block.cc:138-141 | the next entry of the list |
| `BlockIterators.Iter.Prev` | macos/Pods/leveldb-library/table/block.cc:143-162 | the previous entry, across restart points |
| `BlockIterators.Iter.Seek` | macos/Pods/leveldb-library/table/block.cc:164-202 | first entry at or after the target, by binary then linear search, from any prior position |
| `BlockIterators.Iter.SeekToLast` | macos/Pods/leveldb-library/table/block.cc:209-214 | the last entry |
| `BlockIterators.Iter.Value` | macos/Pods/leveldb-library/table/block.cc:129-136 | key and value are those that were added |
| `Separators.FindShortestSeparator` | macos/Pods/leveldb-library/util/comparator.cc:31-52 | the start raised by one at its first difference from the limit and cut off there, exactly where the raised byte stays below the limit's; otherwise the start itself; strictly between start and limit whenever it changes |
| `Separators.SeparatorIsShortest` | macos/Pods/leveldb-library/util/comparator.cc:31-52 | among all strings strictly between both, the separator so found is a shortest one, and the least of its length |
| `Separators.FindShortSuccessor` | macos/Pods/leveldb-library/util/comparator.cc:54-66 | the key raised at its first byte below 0xff and cut off there, or the key itself if there is none; above the key whenever it changes |
| `Separators.SuccessorIsShortest` | macos/Pods/leveldb-library/util/comparator.cc:54-66 | among all strings above the key it is a shortest one, and the least of its length |
| `Separators.FindInternalSeparator` | macos/Pods/leveldb-library/db/dbformat.cc:65-82 | the separator of the user keys with the earliest tag exactly when it is shorter, otherwise the block's last key; its user key lies strictly between both user keys whenever it changes |
| `Bloom.CreateFilter` | macos/Pods/leveldb-library/util/bloom.cc:28-54 | the bytes that setting every probe of every key gives |
| `Bloom.KeyMayMatch` | macos/Pods/leveldb-library/util/bloom.cc:56-80 | rejects exactly filters too short or lacking a probe of the key |
| `Bloom.CreatedFilterMatches` | macos/Pods/leveldb-library/util/bloom.cc:28-80 | a filter accepts every key it was created from |
| `Bloom.FilterAcceptsIff` | macos/Pods/leveldb-library/util/bloom.cc:28-80 | a filter accepts a key exactly when each probe of the key is also a probe of one of the keys it was created from |
| `Bloom.FilterSize` | macos/Pods/leveldb-library/util/bloom.cc:29-38 | a filter has the configured number of bits for each key, at least 64, rounded up to whole bytes |
| `Bloom.BloomIsLawful` | macos/Pods/leveldb-library/util/bloom.cc:17-86 | the policy made of these two satisfies what filter blocks and tables require, for any hash |
| `FilterBlocks.FilterBlockBuilder.Finish` | macos/Pods/leveldb-library/table/filter_block.cc:35-49 | the finished block answers for every offset and key what the filter of the offset's group answers; every key recorded for a block offset passes at that offset |
| `FilterBlocks.RecordedMatches` | macos/Pods/leveldb-library/table/filter_block.cc:90-104 | the reader finds the filter of the offset's group and asks it |
| `FilterBlocks.AsksGroup` | macos/Pods/leveldb-library/table/filter_block.cc:90-104 | for any key the reader's answer is that of the filter made of the keys of the offset's group, and of no other |
| `TableFormat.HandleRoundTrip` | macos/Pods/leveldb-library/table/format.cc:15-29 | decoding an encoded block handle returns it and the rest |
| `TableFormat.FooterRoundTrip` | macos/Pods/leveldb-library/table/format.cc:31-62 | decoding an encoded footer, padding and magic number included, returns both handles |
| `TableFormat.StoredReadsBack` | macos/Pods/leveldb-library/table/format.cc:64-139 | a stored block, compressed or not, passes its checksum and reads back wherever it lies in the file |
| `TableFormat.CompressionPays` | macos/Pods/leveldb-library/table/table_builder.cc:148-170 | compressed bytes are stored exactly when they save more than an eighth of the block |
| `TableBuilders.TableBuilder.Add` | macos/Pods/leveldb-library/table/table_builder.cc:94-123 | appends the row, settles the pending index entry with a separator, and writes the block to the file exactly when this row brings it to the block size |
| `TableBuilders.TableBuilder.Flush` | macos/Pods/leveldb-library/table/table_builder.cc:125-194 | writes the rows of the open block to the file, to be read back under the pending handle |
| `TableBuilders.TableBuilder.Finish` | macos/Pods/leveldb-library/table/table_builder.cc:198-253 | the bytes are a table file of exactly the added rows: footer, index, metaindex, filter and data blocks read back, the index separates the blocks, the filter accepts every key at its block, and every block but the last was ended by the row that brought it to the block size |
| `TableFiles.ReadMeta` | macos/Pods/leveldb-library/table/table.cc:82-132 | the metaindex leads to the filter |
| `TableFiles.InternalGet` | macos/Pods/leveldb-library/table/table.cc:214-242 | seeking the index block, asking the filter and seeking at most one data block, all in bytes: a row returned is the first one at or after the key, its block passed the filter, and if that row has the key's user key it is returned |
| `TableFiles.Get` | macos/Pods/leveldb-library/table/table.cc:38-80 | and so does opening the file from its footer |
| `Tables.FirstIsFound` | macos/Pods/leveldb-library/table/table.cc:214-242 | the first row at or after a key, if it has its user key, lies in the block the index seek picks, where the block seek lands on it |
| `HandleTables.HandleTable.Lookup` | macos/Pods/leveldb-library/util/cache.cc:75-77 | the table is the map |
| `HandleTables.HandleTable.Insert` | macos/Pods/leveldb-library/util/cache.cc:79-93 | map update through chains and resizing, returning the replaced entry; never more entries than buckets afterwards, and a power of two of buckets |
| `HandleTables.HandleTable.Remove` | macos/Pods/leveldb-library/util/cache.cc:95-103 | map removal, returning the removed entry |
| `HandleTables.HandleTable.Resize` | macos/Pods/leveldb-library/util/cache.cc:123-148 | rehashing in place keeps the map, with the least power of two of buckets, from four on, that takes all entries |
| `LruCaches.LRUCache.Lookup` | macos/Pods/leveldb-library/util/cache.cc:253-260 | the mapped entry with one more reference and out of the eviction list, or nothing changed |
| `LruCaches.LRUCache.ReleaseHandle` | macos/Pods/leveldb-library/util/cache.cc:262-265 | one reference less; the last one runs the deleter, or makes the entry the newest of those that may be evicted |
| `LruCaches.LRUCache.Insert` | macos/Pods/leveldb-library/util/cache.cc:267-304 | the new entry entered, the entry it replaces taken out, then exactly the oldest unreferenced entries evicted, oldest first, each only while usage exceeded the capacity |
| `LruCaches.InsertedIsCached` | macos/Pods/leveldb-library/util/cache.cc:267-304 | after Insert the handle carries its key and charge, the client holds it once, nothing held was lost, and with a capacity the table maps the key to it |
| `LruCaches.LRUCache.Erase` | macos/Pods/leveldb-library/util/cache.cc:319-322 | the key is unmapped and its entry leaves the cache |
| `LruCaches.LRUCache.Prune` | macos/Pods/leveldb-library/util/cache.cc:324-334 | every unreferenced entry is evicted, oldest release first, and nothing else |
| `LruOrder.EarlierReleaseGoesFirst` | macos/Pods/leveldb-library/util/cache.cc:226-304 | over every run of calls on an empty cache: if the last client of x released it before the last client of y did, and neither was looked up since, then an insert of another key that evicts y evicts x as well, and before it |
| `LruOrder.EarlierReleaseIsPrunedFirst` | macos/Pods/leveldb-library/util/cache.cc:324-334 | and so does a prune |
| `LruLists.ReleaseKeepsReady` | macos/Pods/leveldb-library/util/cache.cc:226-238 | lists, reference counts, usage, table agreement and run-once deleters survive a release |
| `LruLists.EraseKeepsReady` | macos/Pods/leveldb-library/util/cache.cc:308-317 | and an erase |
| `LruLists.ReplaceKeepsReady` | macos/Pods/leveldb-library/util/cache.cc:284-292 | and an insert that replaces an entry |
| `ProtoScalars.Varint32Reads` | macos/Pods/nanopb/pb_decode.c:187-247 | the loose 32-bit reader, wrap of its shift counter included, reads back every canonical 32-bit varint |
| `ProtoScalars.SignedRoundTrip` | macos/Pods/nanopb/pb_decode.c:1345-1380 | a signed integer of any legal size survives the two's complement varint and the clamp |
| `ProtoScalars.ZigzagRoundTrip` | macos/Pods/nanopb/pb_encode.c:630-639 | and the zigzag form |
| `ProtoFields.FieldIter.Find` | macos/Pods/nanopb/pb_common.c:83-104 | the circular search finds a field with the tag from any position if there is one, and otherwise returns to where it stood |
| `ProtoFields.FieldIter.Next` | macos/Pods/nanopb/pb_common.c:29-81 | data slot and required index stay in step with the field, members of a union share a slot, and the end wraps around |
| `ProtoFields.CheckSeen` | macos/Pods/nanopb/pb_decode.c:1059-1078 | comparing whole words and a remainder decides whether each of the first sixty-four required fields has its bit |
| `ProtoEncoding.OStream.Write` | macos/Pods/nanopb/pb_encode.c:103-124 | writes or counts exactly the buffer, or reports a full stream |
| `ProtoEncoding.EncodeSubmessage` | macos/Pods/nanopb/pb_encode.c:717-765 | writes length and payload, succeeds exactly when the message is encodable and fits, and never reports a changed submessage size |
| `ProtoEncoding.EncodePacked` | macos/Pods/nanopb/pb_encode.c:161-206 | key, byte length and items, with the multiplied or counted length equal to what is written |
| `ProtoEncoding.EncodeMessage` | macos/Pods/nanopb/pb_encode.c:528-550 | all fields in descriptor order, counted or written |
| `ProtoEncoding.EncodedSize` | macos/Pods/nanopb/pb_encode.c:567-576 | the sizing pass reports exactly the length of the encoding |
| `ProtoDecoder.DecodeVarint32` | macos/Pods/nanopb/pb_decode.c:187-252 | reads what the pure reader reads and leaves the stream behind it |
| `ProtoDecoder.MakeSubstream` | macos/Pods/nanopb/pb_decode.c:372-385 | a stream over exactly the payload, the parent's budget reduced at once |
| `ProtoDecoder.CloseSubstream` | macos/Pods/nanopb/pb_decode.c:387-400 | the parent stands just past the payload, whatever of it was read |
| `ProtoDecoder.DecodeField` | macos/Pods/nanopb/pb_decode.c:406-483 | one field into its slot by presence kind, with union release, packing and array bounds |
| `ProtoDecoder.DecodeMessage` | macos/Pods/nanopb/pb_decode.c:934-1082 | the loop over keys equals the pure decoder, unknown fields and required bits included, and terminates on the bytes left; the lemmas of ProtoEvolution say what it makes of bytes no encoder of its own wrote |
| `ProtoRoundTrip.StringRoundTripsIff` | macos/Pods/nanopb/pb_decode.c:1487-1523 | an encoded string decodes into the same field exactly when it leaves room for its terminator |
| `ProtoRoundTrip.MessageRoundTrip` | macos/Pods/nanopb/pb_encode.c:528-550 | decoding an encoding into a fresh struct uses every byte and gives the same message |
| `ProtoGuarantees.EncodedMessageDecodes` | macos/Pods/nanopb/pb_decode.c:1084-1096 | for every descriptor with distinct nonzero tags and every struct that fits it: the message is encodable, and decoding restores it |
| `ProtoGuarantees.MessageSound` | macos/Pods/nanopb/pb_decode.c:934-1082 | whatever the bytes, a successful decode keeps every array, string, byte field and number within its memory and type |
| `ProtoGuarantees.RequiredFieldIsRead` | macos/Pods/nanopb/pb_decode.c:1059-1078 | a successful decode came, at a turn of its loop, to a key of each of the first sixty-four required fields |
| `ProtoGuarantees.EmptyIffDefault` | macos/Pods/nanopb/pb_encode.c:240-310 | a message takes no bytes exactly when the check that keeps submessages off the wire calls it default |
| `ProtoEvolution.ValueSkips` | macos/Pods/nanopb/pb_decode.c:319-334 | a value of any type takes exactly the bytes that skipping its wire type passes over |
| `ProtoEvolution.UnknownIsSkipped` | macos/Pods/nanopb/pb_decode.c:982-996 | a field whose tag the descriptor lacks changes nothing, wherever the loop meets it |
| `ProtoEvolution.UnknownArrayIsSkipped` | macos/Pods/nanopb/pb_decode.c:982-996 | nor does a packed array that it lacks |
| `ProtoEvolution.NewerFieldsAreHarmless` | macos/Pods/nanopb/pb_decode.c:934-1082 | a reader gets its own message back, whatever fields it lacks are sent before, between and after its own |
| `ProtoEvolution.ValueArrives` | macos/Pods/nanopb/pb_decode.c:406-483 | a value under its own key replaces what a single field or a union held, and is appended to an array, also to one its encoder would pack |
| `ProtoEvolution.LastValueStays` | macos/Pods/nanopb/pb_decode.c:406-483 | of two values for one field, or for two members of one union, the last one stays |
| `ProtoEvolution.FullArrayRefuses` | macos/Pods/nanopb/pb_decode.c:461-466 | a full array refuses one more item |
| `WireVectors.IntegersOnTheWire` | macos/Pods/leveldb-library/util/coding.cc:21-76 | varints and fixed words put the low bits first, and strings follow their length |
| `WireVectors.LogHeaderOnTheWire` | macos/Pods/leveldb-library/db/log_writer.cc:82-97 | a log header byte by byte: masked checksum, length, type |
| `WireVectors.InternalKeyOnTheWire` | macos/Pods/leveldb-library/db/dbformat.cc:15-24 | an internal key byte by byte: user key, type, sequence number |
| `WireVectors.ScalarsOnTheWire` | macos/Pods/leveldb-library/db/version_edit.cc:14-84 | the tags of the manifest's numbers |
| `WireVectors.KeysOnTheWire` | macos/Pods/leveldb-library/db/version_edit.cc:14-84 | and of its comparator, compaction pointers and new files |
| `WireVectors.TrailerOnTheWire` | macos/Pods/leveldb-library/table/table_builder.cc:177-194 | a block trailer byte by byte: compression type, masked checksum |
| `WireVectors.FooterOnTheWire` | macos/Pods/leveldb-library/table/format.cc:31-41 | a footer byte by byte, padding and magic number included |
| `WireVectors.NumbersOnTheWire` | macos/Pods/nanopb/pb_encode.c:601-709 | nanopb keys and numbers byte by byte, one of each wire type |
| `WireVectors.DataOnTheWire` | macos/Pods/nanopb/pb_encode.c:669-715 | nanopb strings and byte arrays byte by byte |
| `WireVectors.ZigzagAlternates` | macos/Pods/nanopb/pb_encode.c:630-639 | the zigzag form counts 0, -1, 1, -2 and so on |

## Left out

- SignedRoundTrip: integers of a size other than 1, 2, 4 and 8 bytes are refused by both sides, and are outside the lemma.
- RankPreservesOrder: is stated for finite key sets, which is what a store holds at any moment.
- VersionEdit.DecodeFrom: error messages are not distinguished from one another.
- DoCompactionWork: how large a table is while it is built, and when it is finished, are functions of its entries that are parameters; the snapshot is below the largest sequence number, as it is in a running store; the flush inside its loop is a step of RunningCompactions.
- RecoveredReadsHistory: assumes increasing sequence numbers and merges that drop only hidden entries and tombstones with nothing older left; StoreCrashes.StoreSurvivesCrashes shows when runs of the leveled store are such.
- StoreSurvivesCrashes: the store's steps run one after the other in it, so a compaction with flushes in its midst appears as its projection; its writes are synced.
- MessageRoundTrip: encodings of 4 GiB and more, whose nested lengths the decoder's 32-bit reader cannot represent.
- EncodedMessageDecodes: the descriptor must give singular fields (no `has_` flag) a zero initial value, as proto3 does; otherwise a zero is left off the wire and comes back as the initial value.
- InternalGet: tables without a filter block, and files that the builder did not write.
- TableBuilder.Add: keys, values and blocks stay below 4 GiB together, the lengths a block can express.
- TableBuilder.Finish: the index block stays below 4 GiB; offsets are 64-bit numbers, so a file of 2^64 bytes and more is outside the promise.
- Iter.Seek: malformed blocks; the model starts from a block the builder can write, smaller than 4 GiB.
- Reader.ReadRecord: a non-zero initial offset and the resynchronisation it needs; corruptions are counted, the bytes and the reason that are reported with them are not modelled.
- LastValueStays: submessages, which are decoded into what an earlier one left.
- FilterAcceptsIff: the number of probes is any from one to thirty; that it is 0.69 times the bits for each key is not part of the model.
- AddRecord: the writer starts from an empty file or one it wrote itself.
- Insert: the height of a skip list node is a parameter, not a random number; the cache's hash is any function, and bucket masks are remainders by a power of two.
- The choice of what to compact (scores, seeks, the pointer from which the next file is taken): any file of any level, and any manual range.
- Corruption handling, repair, dumping, statistics, read sampling and the C API.
- Log reuse after a torn tail, and directory entries that a crash may lose; appends and manifest records are atomic, logs keep a durable prefix of their records.
- The compressor and the checksums: abstract functions, of which the proofs use that uncompressing undoes compressing and that the record checksum extends over concatenation.
- The byte format of a write batch, and batches that contradict their own count.
- The memtable's arena and key encoding, cache sharding, and the linked representation of snapshots and cache lists, which are sequences here.
- Weak memory: the skip list's readers and writer interleave sequentially consistent pointer reads and stores; a stale maximum height is any starting level.
- Progress and fairness of condition variables.
- Padding and aliasing of C structs: a decoded struct is a sequence of slots; memory beyond a string's terminator, an array's count or an unset union is not represented.
- nanopb callbacks, extensions, pointer fields, fixed-count arrays, the build without 64-bit types, streams other than buffers, and wrap-around of `size_t` sums.
- Release of a union member's dynamic memory: with static fields only its tag check remains, which is modelled.
