# LevelDB and nanopb, modelled and proved

The application carries two libraries in source form: the LevelDB storage
engine and the nanopb protocol buffer codec. This project models their hardest
code in Dafny and proves what they promise. `dafny verify dfyconfig.toml`
checks all of it.

**The storage engine.** The specification is one flat map: replay every
committed operation up to a sequence number. Against it stand

- the read path (`InternalKeys`, `Versions`, `DbIterator`): binary search,
  newest-first level 0, level by level lookup, and the two-way iterator;
- the tree (`InputSelection`, `VersionBuilder`, `TreeSteps`, `Compactions`,
  `CompactionSteps`, `Background`,
  `BackgroundSteps`, `Snapshots`): choosing inputs, merging,
  dropping, installing, and the two invariants every step keeps - levels are
  sorted and disjoint, and shallower data is newer;
- the whole machine (`Database`, `DatabaseRuns`, `FailingRuns`): write groups,
  memtable switches, flushes, moves, compactions, deletions, snapshots and crash
  recovery, over every run from an empty database; the history of a run is
  computed from its steps alone, and commits, logs and reads agree with it;
- the write path (`WriteBatches`, `GroupCommit`, `SkipLists`): batches in
  bytes, the writer queue as an interleaved machine, and a skip list that is
  sound after every single pointer store and beside concurrent readers;
- durability (`Log`, `LogReader`, `LogSafety`, `LogIntegrity`, `LogRecovery`,
  `Manifest`, `ManifestRecovery`, `RecoverySteps`): the block-fragmented log,
  logs and manifests cut at any byte, replay of whole groups, recovery of the
  current version, and opening a database from those bytes as a step of the
  machine;
- file garbage collection (`FileGc`, `DirectoryGc`): reference counts, pending
  outputs, the single background worker, and the directory a deletion leaves.

**The codec.** `PbVarints`, `PbSchema`, `PbFields`, `PbDecode`, `PbRoundTrip`,
`PbEncode`, `PbWire`, `PbForward`, `PbBounds` and `PbConcat` model varints with their two decoders, messages as a schema tree and
a value tree, the circular field iterator, the descriptor-driven decoder with
its required-field words, and the two-pass stream encoder; beside round trips they prove
what any bytes decode to, and what any reader of the format finds in the output.
The wire format is that of the Protocol Buffers Encoding specification, sections "Base
128 Varints", "Signed Integers", "Length-Delimited Records" and "Packed
Repeated Fields".

**How things are represented.** A user key is its position in the comparator's
order, a real number: byte strings are countable, and every order on a
countable set embeds in the reals. A table file is its sorted list of entries.
Where code works step by step it is a method with loops, or a class, proved
against a function; what the code promises is then proved about that function.
Checksums, table sizes, output cut points, the memtable size test and random
heights are parameters, so that every statement holds for all of them. The
integer codec is handed to its users as any set of functions with the
properties proved of the standard one (`Coding`, `PbSchema.Wire`).

**Found on the way.**

- The next level's inputs are picked by range alone
  (DevPost/Pods/leveldb-library/db/version_set.cc:1410-1411). If an unselected
  next-level file continues the last user key of a selected one, a compaction
  can drop a tombstone and bring a deleted value back:
  `FailingRuns.DeletedValueReappearsInRun` is a concrete run.
  `CompactionSteps.CompactionIsInvisibleIff` says exactly when reads are
  unchanged, in terms of those files, and
  `CompactionSteps.ClosedCompactionChangesNoRead` covers the case without any.
- The old log is not synced when the memtable is switched
  (DevPost/Pods/leveldb-library/db/db_impl.cc:1347-1366). A crash can lose its
  tail while a synced write in the new log survives, so that what is left is no
  prefix of what was written: `FailingRuns.CrashLosesOlderWrite` is a run,
  `Database.RecoveredPrefixIff` the exact condition. What the synced write
  itself added is never lost (`DatabaseRuns.SyncedWriteSurvives`).
- With the oldest snapshot at the maximum sequence number the drop rule takes
  the first entry of each key for a hidden one
  (`Compactions.LargestSnapshotDropsAll`); the database never gets there.
- One builder over many edits differs from installing them one by one exactly
  when a deleted file number comes back as another file, or a file added earlier
  is added again in another version (`VersionBuilder.AgreeIffHarmless`).
- Decoding a version edit leaves the receiver's compaction pointers in place
  (DevPost/Pods/leveldb-library/db/version_edit.cc:26-39), so that they stay in
  front of the decoded ones (`Manifest.EditRoundTrip`).
- nanopb encodes a string that fills its buffer without a terminator, and does
  not decode it (`PbBounds.FullStringIsRefused`); every other struct the encoder
  accepts is an in-range message (`PbEncode.AcceptedIsTyped`).
- A flushed table leaves `pending_outputs_` before it is in any version; only
  the single background worker keeps it from being deleted
  (`FileGc.CollectingEarlyLosesTable`).

## Model

| member | source | states |
|---|---|---|
| `InternalKeys.SearchRunIsNewest` | DevPost/Pods/leveldb-library/db/memtable.cc:100-134 | seeking the first key at or after (user, snapshot) in a sorted run and checking the user key yields exactly the newest entry for that user at or below the snapshot, or nothing |
| `InternalKeys.NewestLayered` | DevPost/Pods/leveldb-library/db/db_impl.cc:1100-1134 | when one set of entries is newer, key by key, than another, the newest visible entry of their union is that of the upper set if it has one, else that of the lower |
| `Versions.FindFile` | DevPost/Pods/leveldb-library/db/version_set.cc:88-106 | the binary search returns the smallest index whose file ends at or after the key, and the file count if there is none |
| `Versions.HitInOneFile` | DevPost/Pods/leveldb-library/db/version_set.cc:326-421 | in a sorted disjoint level the one file found for (user, snapshot) holds the newest visible entry of the whole level, even when the user key straddles two adjacent files |
| `Versions.SearchSorted` | DevPost/Pods/leveldb-library/db/version_set.cc:365-378 | searching the one candidate file of a sorted level finds the newest visible entry of that level |
| `Versions.SearchLevel0` | DevPost/Pods/leveldb-library/db/version_set.cc:349-364 | searching the overlapping level-0 files newest first finds the newest visible entry of level 0 |
| `Versions.Get` | DevPost/Pods/leveldb-library/db/version_set.cc:326-421 | the level by level search returns exactly the newest visible entry among all tables of the version |
| `Database.Get` | DevPost/Pods/leveldb-library/db/db_impl.cc:1100-1134 | memtable, immutable memtable, then the version: the answer is that of one flat map replayed from all committed operations up to the snapshot |
| `Database.ReplayIsView` | DevPost/Pods/leveldb-library/db/db_impl.cc:1100-1134 | newest-visible lookup over the committed entries equals lookup in the map obtained by replaying them in order |
| `InputSelection.GetOverlappingInputs` | DevPost/Pods/leveldb-library/db/version_set.cc:519-559 | terminates despite restarts; at level 0 the result is the least set closed under overlap, deeper it is exactly the files meeting the range |
| `InputSelection.FindSmallestBoundaryFile` | DevPost/Pods/leveldb-library/db/version_set.cc:1344-1362 | returns the first file that continues the user key of the given largest key, or none when no file does |
| `InputSelection.AddBoundaryInputs` | DevPost/Pods/leveldb-library/db/version_set.cc:1378-1401 | terminates; extends the inputs by boundary files one after the other until no file of the level continues the largest key |
| `InputSelection.ChainRises` | DevPost/Pods/leveldb-library/db/version_set.cc:1378-1401 | every boundary file starts after everything chosen before it, so no file is chosen twice |
| `InputSelection.SetupOtherInputs` | DevPost/Pods/leveldb-library/db/version_set.cc:1403-1447 | expanded or not: level-L inputs contain the start and are closed over continuing files, and the next level gives exactly the files meeting their user range; the start is closed first and then expanded by the rule below |
| `InputSelection.Expand` | DevPost/Pods/leveldb-library/db/version_set.cc:1416-1447 | the inputs grow exactly when the files in both levels' range, closed over continuing files, are more, have no more next-level files and stay under 25 file sizes in all; the grown set has the same guarantees and its own next-level inputs |
| `InputSelection.PickCompaction` | DevPost/Pods/leveldb-library/db/version_set.cc:1270-1322 | a compaction is picked exactly if some level scores at least 1 or a file has had too many seeks; by size it starts from the first file past the compact pointer of the first level with the greatest score, else from the sought file; its inputs are closed and the pointer moves to their end |
| `InputSelection.Finalize` | DevPost/Pods/leveldb-library/db/version_set.cc:1045-1086 | the level chosen is the first with the greatest score, and never the last level |
| `InputSelection.DueLevels` | DevPost/Pods/leveldb-library/db/version_set.cc:42-53 | a level is due for compaction exactly from four files on level 0, and from ten megabytes times ten for each level below the first |
| `InputSelection.RoundRobin` | DevPost/Pods/leveldb-library/db/version_set.cc:1284-1297 | above level 0 successive size compactions go round the level: after inputs that end with one file the next file is picked, after the last the first |
| `InputSelection.CompactRange` | DevPost/Pods/leveldb-library/db/version_set.cc:1464-1495 | a manual compaction is chosen exactly if some file meets the range; its inputs are closed, and hold every file that meets the range or, above level 0, at least the size limit |
| `InputSelection.SomeFileOverlapsRange` | DevPost/Pods/leveldb-library/db/version_set.cc:122-157 | answers whether any file meets the user range, by scan or by binary search |
| `InputSelection.PickLevelForMemTableOutput` | DevPost/Pods/leveldb-library/db/version_set.cc:491-516 | the level chosen for a flushed table, and every level above it, is free of its user range; it goes down only past levels with at most ten file sizes below in the range, and no less far |
| `VersionBuilder.Builder.Apply` | DevPost/Pods/leveldb-library/db/version_set.cc:650-692 | for any edit on existing levels: deletions first, then additions in order, each cancelling the deletion of its number and refused by the set when an equivalent file (same smallest key and number) is there |
| `VersionBuilder.ApplyForm` | DevPost/Pods/leveldb-library/db/version_set.cc:650-692 | that order of steps leaves the deletions less all numbers added, and of the added files those with no equivalent |
| `VersionBuilder.Builder.SaveTo` | DevPost/Pods/leveldb-library/db/version_set.cc:695-739 | every level comes out sorted and holds base and added files, each as often as they do, less the deleted ones; strictly sorted if no base file has an equivalent among the added |
| `VersionBuilder.SaveLevel` | DevPost/Pods/leveldb-library/db/version_set.cc:695-723 | the upper-bound merge of any sorted base with any added set is sorted and complete, with multiplicity |
| `VersionBuilder.BatchEqualsEach` | DevPost/Pods/leveldb-library/db/version_set.cc:587-755 | one builder over a list of edits gives the same files as installing the edits one at a time, if no number is added to a level twice |
| `VersionBuilder.AgreeIffHarmless` | DevPost/Pods/leveldb-library/db/version_set.cc:650-739 | the two agree after every edit if and only if no edit adds a deleted number again as a different file, nor a second version of a file added by an earlier edit |
| `VersionBuilder.ReaddedFileIsDoubled` | DevPost/Pods/leveldb-library/db/version_set.cc:650-692 | a number deleted and added again as another file leaves both files in the batch result and one in the step by step result |
| `VersionBuilder.SecondVersionIsLost` | DevPost/Pods/leveldb-library/db/version_set.cc:689-690 | a second version of an added file is refused by the batch builder's set, while step by step both versions are kept |
| `VersionBuilder.SortedUnique` | DevPost/Pods/leveldb-library/db/version_set.cc:588-606 | a level sorted by smallest key and number is determined by its set of files |
| `Compactions.BaseLevelScan.IsBaseLevelForKey` | DevPost/Pods/leveldb-library/db/version_set.cc:1533-1552 | with non-decreasing keys the advancing level pointers answer as a scan of all deeper files does |
| `Compactions.DecideDrop` | DevPost/Pods/leveldb-library/db/db_impl.cc:930-962 | the loop variables decide exactly the declarative drop rule: hidden at the oldest snapshot, or an obsolete tombstone |
| `Compactions.DoCompactionWork` | DevPost/Pods/leveldb-library/db/db_impl.cc:907-1010 | wherever outputs are cut, their concatenation is exactly the surviving entries in order, no output is empty, and one ends exactly where ShouldStopBefore or the size test ends it |
| `Compactions.DroppingIsInvisible` | DevPost/Pods/leveldb-library/db/db_impl.cc:930-962 | if nothing resurfaces, no read at or after the oldest snapshot changes |
| `Compactions.DroppingIsInvisibleIff` | DevPost/Pods/leveldb-library/db/db_impl.cc:930-962 | no read at or after the oldest snapshot changes if and only if no dropped tombstone was the only thing hiding a value outside the inputs |
| `Compactions.KeptIff` | DevPost/Pods/leveldb-library/db/db_impl.cc:930-962 | a compaction keeps exactly the entries that some snapshot from the oldest on may still read, less the deletions old enough for all of them whose key no deeper file covers |
| `Compactions.LargestSnapshotDropsAll` | DevPost/Pods/leveldb-library/db/db_impl.cc:937-949 | with the oldest snapshot at the maximum sequence number every entry is dropped |
| `CompactionSteps.MergedInputSorted` | DevPost/Pods/leveldb-library/db/version_set.cc:1237-1268 | the merged input of a compaction is sorted and holds exactly the input entries |
| `CompactionSteps.CompactionKeepsTree` | DevPost/Pods/leveldb-library/db/db_impl.cc:860-876 | installing the outputs keeps levels disjoint and sorted and every level newer than the ones below |
| `CompactionSteps.CompactionIsInvisibleIff` | DevPost/Pods/leveldb-library/db/db_impl.cc:878-1036 | reads at or after the oldest snapshot are unchanged, with any memtables on top, if and only if no dropped deletion that the oldest snapshot reads has a value below it in the unselected next-level files that continue a selected one |
| `CompactionSteps.CompactionChangesNoReadIff` | DevPost/Pods/leveldb-library/db/db_impl.cc:878-1036 | the same with the condition read off the whole database: no value anywhere outside the inputs resurfaces |
| `CompactionSteps.OlderLeftBehind` | DevPost/Pods/leveldb-library/db/version_set.cc:1403-1447 | whatever is left behind and older than an input entry of its key is in a next-level file that continues an input, or on a deeper level that keeps the tombstone |
| `CompactionSteps.ClosedCompactionChangesNoRead` | DevPost/Pods/leveldb-library/db/db_impl.cc:878-1036 | if no unselected next-level file continues a selected one, a compaction changes no read at or after the oldest snapshot |
| `CompactionSteps.LostIsChosen` | DevPost/Pods/leveldb-library/db/version_set.cc:1403-1411 | a concrete tree and inputs that input selection accepts although a next-level file continues a selected one |
| `CompactionSteps.DeletedValueReappears` | DevPost/Pods/leveldb-library/db/version_set.cc:1403-1411 | compacting those inputs makes a deleted value readable again |
| `TreeSteps.ReplacingKeepsTree` | DevPost/Pods/leveldb-library/db/version_set.cc:650-754 | replacing closed inputs by outputs made of their entries keeps both tree invariants |
| `TreeSteps.TrivialMoveKeepsTree` | DevPost/Pods/leveldb-library/db/db_impl.cc:718-728 | moving a single file with no next-level overlap keeps both tree invariants and the contents |
| `TreeSteps.FlushKeepsTree` | DevPost/Pods/leveldb-library/db/db_impl.cc:491-533 | adding a newer table at a level its range is clear down to keeps both tree invariants |
| `TreeSteps.LeftOnNextLevel` | DevPost/Pods/leveldb-library/db/version_set.cc:1403-1411 | a next-level file left behind lies wholly on one side of every input entry |
| `TreeSteps.LeftElsewhere` | DevPost/Pods/leveldb-library/db/version_set.cc:1403-1447 | files left on the inputs' level or above are newer, files left deeper are older, key by key, than all inputs |
| `Database.WriteKeepsSound` | DevPost/Pods/leveldb-library/db/db_impl.cc:1202-1237 | a write group is appended to log and memtable under consecutive sequence numbers; logs, order, tree, counters and exact reads are kept |
| `Database.SwitchKeepsSound` | DevPost/Pods/leveldb-library/db/db_impl.cc:1347-1366 | switching log and memtable changes no committed operation; the old log stays as far synced as it was |
| `Database.FlushKeepsSound` | DevPost/Pods/leveldb-library/db/db_impl.cc:535-566 | installing the immutable memtable and raising the log number keeps everything, reads included, and all commits |
| `Database.MoveKeepsSound` | DevPost/Pods/leveldb-library/db/db_impl.cc:718-728 | a trivial move keeps everything, reads included, and all commits |
| `Database.CompactKeepsSound` | DevPost/Pods/leveldb-library/db/db_impl.cc:729-738 | every compaction at the oldest live snapshot, whatever its inputs, keeps logs, order, tree and commits; reads stay exact if no dropped deletion uncovers a value |
| `Database.DeleteKeepsSound` | DevPost/Pods/leveldb-library/db/db_impl.cc:223-278 | deleting files that are neither live nor logs at or above the log number keeps everything |
| `Database.RecoverKeepsSound` | DevPost/Pods/leveldb-library/db/db_impl.cc:323-366 | recovery after a crash that cut each of the two logs in use at a group boundary not before its last sync keeps everything, and the commits are the tables' and what both logs kept |
| `Database.RecoveredPrefixIff` | DevPost/Pods/leveldb-library/db/db_impl.cc:1347-1366 | what survives a crash is a prefix of the commits if and only if the old log kept all its entries or the new log kept none |
| `Database.RecoveredSequence` | DevPost/Pods/leveldb-library/db/db_impl.cc:412-453 | the recovered last sequence number covers every recovered commit |
| `DatabaseRuns.RunKeepsSound` | DevPost/Pods/leveldb-library/db/db_impl.cc:688-767 | every state of every run of writes, switches, flushes, moves, compactions, deletions, snapshots, releases and crashes keeps both tree invariants, the logs, the commit order and the counters |
| `DatabaseRuns.RunKeepsInv` | DevPost/Pods/leveldb-library/db/db_impl.cc:688-767 | if no compaction of the run drops a deletion above a value left behind, reads stay exact in every state |
| `DatabaseRuns.ClosedIsHarmless` | DevPost/Pods/leveldb-library/db/version_set.cc:1403-1411 | a compaction that leaves no next-level file behind that continues one of its inputs uncovers nothing |
| `DatabaseRuns.RunCommitsHistory` | DevPost/Pods/leveldb-library/db/db_impl.cc:1202-1237 | in every state the committed operations are those of the run's own writes in order, less what its crashes cut, a history computed from the steps alone |
| `DatabaseRuns.RunReads` | DevPost/Pods/leveldb-library/db/db_impl.cc:1100-1134 | in every state of such a run and for every live snapshot the layered search answers as the flat map of the run's own writes |
| `DatabaseRuns.PresentReads` | DevPost/Pods/leveldb-library/db/db_impl.cc:1100-1134 | a client reading the present finds its own map: its puts and deletes applied in order, without those a crash took |
| `DatabaseRuns.IterationShowsClientMap` | DevPost/Pods/leveldb-library/db/db_impl.cc:1062-1087 | an iterator over the memtables and the tree shows exactly the client's map |
| `DatabaseRuns.SnapshotReadsItsMap` | DevPost/Pods/leveldb-library/db/db_impl.cc:1166-1174 | until a crash, a snapshot reads the client's map of the moment it was taken |
| `DatabaseRuns.SnapshotReadsRepeat` | DevPost/Pods/leveldb-library/db/db_impl.cc:1166-1174 | a held snapshot keeps reading the same map of the run's writes until a crash |
| `DatabaseRuns.RunLogsUnflushed` | DevPost/Pods/leveldb-library/db/db_impl.cc:323-366 | in every reachable state recovery would replay, from the existing logs at or above LogNumber(), exactly the writes of the run that no flush has covered |
| `DatabaseRuns.LoggedOrStored` | DevPost/Pods/leveldb-library/db/db_impl.cc:323-366 | every write of the run's history is in a log that recovery will replay or has been in a table of the version |
| `DatabaseRuns.SyncedWriteSurvives` | DevPost/Pods/leveldb-library/db/db_impl.cc:1212-1237 | what a synced write adds is in the history of every later state, whatever crashes follow |
| `FailingRuns.CrashLosesOlderWrite` | DevPost/Pods/leveldb-library/db/db_impl.cc:1347-1366 | a concrete run: an unsynced write, a memtable switch, a synced write and a crash leave the second write without the first |
| `FailingRuns.DeletedValueReappearsInRun` | DevPost/Pods/leveldb-library/db/version_set.cc:1403-1411 | a concrete run from an empty database reaches the tree in which the selected compaction makes a deleted value readable again |
| `BackgroundSteps.BackgroundTurn` | DevPost/Pods/leveldb-library/db/db_impl.cc:688-767 | from every sound state one turn of the background thread - the memtable first, else the picked compaction, moved or merged - is a step of the machine, and keeps commits and soundness; the compaction is the one most in need |
| `BackgroundSteps.AutomaticCompaction` | DevPost/Pods/leveldb-library/db/db_impl.cc:694-738 | a compaction runs exactly if one is due, on the inputs picked, and is a trivial move exactly for one file with no next-level inputs and little below them |
| `BackgroundSteps.BackgroundCompaction` | DevPost/Pods/leveldb-library/db/db_impl.cc:688-738 | a compaction as code, manual or not, is a move exactly under the trivial-move test, else a merging compaction of the machine |
| `BackgroundSteps.CompactMemTable` | DevPost/Pods/leveldb-library/db/db_impl.cc:535-566 | flushing as code, of an empty memtable too, is the machine's flush step |
| `Background.MergeDown` | DevPost/Pods/leveldb-library/db/db_impl.cc:878-1036 | merging, dropping, writing and installing as code is a compaction step on the tree, for any cut of the outputs |
| `Background.MoveDown` | DevPost/Pods/leveldb-library/db/db_impl.cc:718-728 | the trivial move as code replaces the input by itself one level down |
| `Background.FlushMemtable` | DevPost/Pods/leveldb-library/db/db_impl.cc:491-533 | writing a memtable as code adds one table at a clear level, as the machine's flush does |
| `Background.InstallCompaction` | DevPost/Pods/leveldb-library/db/db_impl.cc:860-876 | building and applying the compaction's edit replaces exactly the inputs by the outputs |
| `Background.WriteTables` | DevPost/Pods/leveldb-library/db/db_impl.cc:786-858 | each chunk becomes one stored table under a new number, bounded by its first and last key |
| `DbIterator.DBIter.Next` | DevPost/Pods/leveldb-library/db/db_iter.cc:141-166 | from either direction moves to the next shown key with its value, skipping none, or ends when there is none |
| `DbIterator.DBIter.Prev` | DevPost/Pods/leveldb-library/db/db_iter.cc:200-225 | from either direction moves to the previous shown key with its value, skipping none, or ends when there is none |
| `DbIterator.DBIter.Seek` | DevPost/Pods/leveldb-library/db/db_iter.cc:269-281 | rests on the first shown key at or after the target, with its value |
| `DbIterator.DBIter.SeekToFirst` | DevPost/Pods/leveldb-library/db/db_iter.cc:283-292 | rests on the first shown key |
| `DbIterator.DBIter.SeekToLast` | DevPost/Pods/leveldb-library/db/db_iter.cc:294-299 | rests on the last shown key |
| `DbIterator.ScanForward` | DevPost/Pods/leveldb-library/db/db_iter.cc:168-198 | the forward scan stops at the first visible live entry past the skip key |
| `DbIterator.ScanBackward` | DevPost/Pods/leveldb-library/db/db_iter.cc:227-267 | the backward scan stops below the entries of the highest shown key, holding its key and value |
| `DbIterator.ScanAll` | DevPost/Pods/leveldb-library/db/db_iter.cc:141-198 | a full forward scan lists exactly the keys visible and not deleted at the snapshot, in order, with their values |
| `Snapshots.SnapshotList.New` | DevPost/Pods/leveldb-library/db/snapshot.h:57-71 | appending rewires the ring and puts the new snapshot last |
| `Snapshots.SnapshotList.Delete` | DevPost/Pods/leveldb-library/db/snapshot.h:79-86 | deleting rewires the ring and removes exactly that snapshot |
| `Snapshots.SnapshotList.Oldest` | DevPost/Pods/leveldb-library/db/snapshot.h:47-50 | the first node has the smallest sequence number of all live snapshots |
| `Snapshots.SnapshotList.Newest` | DevPost/Pods/leveldb-library/db/snapshot.h:51-54 | the last node has the greatest sequence number of all live snapshots |
| `Snapshots.SnapshotList.SmallestSnapshot` | DevPost/Pods/leveldb-library/db/db_impl.cc:890-894 | the compaction's snapshot is a live one or the present, and none is below it |
| `SkipLists.FindGreaterOrEqual` | DevPost/Pods/leveldb-library/db/skiplist.h:261-281 | returns the first node at or after the key, and on every level the last node before it |
| `SkipLists.FindLessThan` | DevPost/Pods/leveldb-library/db/skiplist.h:284-302 | returns the last node before the key, or the head |
| `SkipLists.FindLast` | DevPost/Pods/leveldb-library/db/skiplist.h:305-322 | returns the last node, or the head of an empty list |
| `SkipLists.Contains` | DevPost/Pods/leveldb-library/db/skiplist.h:371-378 | answers membership in the set of keys on level 0 |
| `SkipLists.SkipList.Insert` | DevPost/Pods/leveldb-library/db/skiplist.h:337-368 | for every height, each single store leaves a sound list holding the old set or the old set and the key; at the end the key is in |
| `SkipLists.LinkOwn` | DevPost/Pods/leveldb-library/db/skiplist.h:362-365 | the store into the new node's own link changes nothing anyone can reach |
| `SkipLists.LinkPublish` | DevPost/Pods/leveldb-library/db/skiplist.h:362-367 | the publishing store links the node into one level and keeps every level sorted, null-terminated and contained in the one below |
| `SkipLists.ConcurrentSearch` | DevPost/Pods/leveldb-library/db/skiplist.h:261-281 | a reader interleaved with any insertions, starting from any height, stays on its level, and what it returns was the right answer at one moment of its search |
| `SkipLists.ReaderCanLoad` | DevPost/Pods/leveldb-library/db/skiplist.h:261-281 | a reader never meets an uninitialised or dangling link |
| `Log.LogWriter.AddRecord` | DevPost/Pods/leveldb-library/db/log_writer.cc:34-83 | the file grows by exactly the record's fragments with block trailers, from any file length, so also after reopening |
| `Log.FragmentsFit` | DevPost/Pods/leveldb-library/db/log_writer.cc:34-83 | no physical record crosses a 32768-byte block |
| `Log.FragmentsJoin` | DevPost/Pods/leveldb-library/db/log_writer.cc:34-83 | the payloads of the fragments joined are the record |
| `LogReader.LogReader.ReadPhysicalRecord` | DevPost/Pods/leveldb-library/db/log_reader.cc:189-271 | the loop over buffer refills and header checks computes the reference reader on every file |
| `LogReader.LogReader.ReadRecord` | DevPost/Pods/leveldb-library/db/log_reader.cc:56-174 | the loop over fragments, with every corruption report, computes the reference reader on every file |
| `LogSafety.ReadOne` | DevPost/Pods/leveldb-library/db/log_reader.cc:189-271 | where the writer put a fragment the reader returns it if the file holds all of it and end of file otherwise, without a report |
| `LogSafety.LogRoundTrip` | DevPost/Pods/leveldb-library/db/log_reader.cc:56-174 | for every list of records the reader returns exactly those records, then end of file, and reports nothing |
| `LogSafety.CutLogReadsWholeRecords` | DevPost/Pods/leveldb-library/db/log_reader.cc:56-271 | for every list of records and every byte position the cut log is read as exactly the records whole in it, and nothing is reported |
| `LogSafety.LogGrows` | DevPost/Pods/leveldb-library/db/log_writer.cc:27-31 | a log written in several sessions, each reopened at its length, is the log of all the records |
| `LogIntegrity.NothingIsInvented` | DevPost/Pods/leveldb-library/db/log_reader.cc:56-271 | from a file of any bytes the reader returns only records whose fragments stand in the file in order, with matching checksums and lengths and the types full, or first, middle, last; no byte serves two records |
| `LogIntegrity.NoByteVanishes` | DevPost/Pods/leveldb-library/db/log_reader.cc:56-180 | in every round of the reader the bytes gathered and those just read are returned, gathered on or reported, each once, and damage returns nothing |
| `WriteBatches.Iterate` | DevPost/Pods/leveldb-library/db/write_batch.cc:42-80 | the loop hands over the operations before the first error and returns the status, including a wrong count, on every byte string |
| `WriteBatches.BatchRoundTrip` | DevPost/Pods/leveldb-library/db/write_batch.cc:42-80 | a batch gives back its operations, sequence number and count |
| `WriteBatches.WriteBatch.Put` | DevPost/Pods/leveldb-library/db/write_batch.cc:98-103 | the bytes become those of the batch with one more put |
| `WriteBatches.WriteBatch.Delete` | DevPost/Pods/leveldb-library/db/write_batch.cc:105-109 | the bytes become those of the batch with one more deletion |
| `WriteBatches.WriteBatch.Append` | DevPost/Pods/leveldb-library/db/write_batch.cc:144-148 | the bytes become those of both batches' operations, with the sum of the counts |
| `WriteBatches.WriteBatch.SetSequence` | DevPost/Pods/leveldb-library/db/write_batch.cc:94-96 | only the sequence number changes |
| `WriteBatches.BatchLayout` | DevPost/Pods/leveldb-library/db/write_batch.cc:1-21 | the bytes of a small batch, literally: little-endian sequence number and count, tag 1 with key and value, tag 0 with key |
| `LogRecovery.RecoverLogFile` | DevPost/Pods/leveldb-library/db/db_impl.cc:371-489 | the loop over records, memtables and statuses computes the reference replay on every file |
| `LogRecovery.CutLogRecoversWholeGroups` | DevPost/Pods/leveldb-library/db/db_impl.cc:412-453 | for every list of write groups and every cut position, replay succeeds and inserts exactly the whole groups in order: operation i of a group under its number plus i, a put as a value, a delete as a deletion; it returns their greatest sequence number |
| `LogRecovery.RecoveredReadsAsMap` | DevPost/Pods/leveldb-library/db/db_impl.cc:412-453 | for consecutively numbered groups the recovered entries, read at the recovered sequence number, are the map of the whole groups' puts and deletes applied in order |
| `LogRecovery.AnyLogIsReplayed` | DevPost/Pods/leveldb-library/db/db_impl.cc:412-437 | whatever the records, a lenient replay takes from each whole one its operations up to the first malformed one, and a paranoid replay succeeds exactly if every whole record is a batch |
| `LogRecovery.RecoveredSequenceIsLast` | DevPost/Pods/leveldb-library/db/db_impl.cc:437-441 | for consecutive groups that number is the one of the last recovered operation |
| `LogRecovery.FullMemtablesAreWritten` | DevPost/Pods/leveldb-library/db/db_impl.cc:443-459 | on every file, each memtable written out during a replay had passed the size test, and the one left at the end has not |
| `RecoverySteps.FindLogs` | DevPost/Pods/leveldb-library/db/db_impl.cc:319-350 | the logs found are exactly those not before LogNumber() or numbered PrevLogNumber(), each once and rising, and a number is missing exactly if no name of any kind carries it |
| `RecoverySteps.DeletingKeepsListing` | DevPost/Pods/leveldb-library/db/db_impl.cc:223-278 | deleting obsolete files leaves exactly the logs recovery lists under the same log numbers, and every table of a listed version is found |
| `RecoverySteps.WriteLevel0Tables` | DevPost/Pods/leveldb-library/db/db_impl.cc:491-537 | each memtable that holds anything becomes one level-0 table under the next number, and an empty one only uses a number up |
| `RecoverySteps.ReplayFiles` | DevPost/Pods/leveldb-library/db/db_impl.cc:349-362 | the loop over the cut logs writes into tables exactly what ReplayLogs takes from the logs in use, and leaves a next file number above every log |
| `RecoverySteps.InstallTables` | DevPost/Pods/leveldb-library/db/version_set.cc:819-825 | one edit with all recovered tables installs the version that adding them one at a time reaches |
| `RecoverySteps.OpenDatabase` | DevPost/Pods/leveldb-library/db/db_impl.cc:1474-1512 | from the bytes of logs each cut anywhere after its last sync, DB::Open as code succeeds and is a recovery step of the machine keeping exactly the whole groups of each log; it opens with the tables' entries and those groups, a log numbered above every file, and a sequence number covering them |
| `Manifest.EncodeTo` | DevPost/Pods/leveldb-library/db/version_edit.cc:41-88 | writes scalars, compaction pointers, deleted files in ascending order and new files, each tagged |
| `Manifest.EncodingIsUnique` | DevPost/Pods/leveldb-library/db/version_edit.cc:69-74 | iterating the deleted-file set in order gives an edit one encoding only |
| `Manifest.DecodeFrom` | DevPost/Pods/leveldb-library/db/version_edit.cc:110-205 | the loop over tags computes the reference decoder on every byte string, errors included |
| `Manifest.EditRoundTrip` | DevPost/Pods/leveldb-library/db/version_edit.cc:41-205 | decoding an encoded edit gives it back, except that compaction pointers already in the receiver stay in front |
| `Manifest.TagsOnDisk` | DevPost/Pods/leveldb-library/db/version_edit.cc:13-24 | the tags on disk are 1 to 7 and 9, written and read; 8 is refused |
| `ManifestRecovery.ReadManifestFile` | DevPost/Pods/leveldb-library/db/version_set.cc:916-966 | the reading half of Recover computes the reference reading on every file |
| `ManifestRecovery.ReadingIsWhole` | DevPost/Pods/leveldb-library/db/version_set.cc:916-944 | a manifest is read without an error only if nothing in it is reported as corrupt, every record decodes, and no edit names another comparator; the edits are those of all its records |
| `ManifestRecovery.BuildVersion` | DevPost/Pods/leveldb-library/db/version_set.cc:986-991 | one builder over any edits that name existing levels yields strictly sorted levels with exactly the files the edits leave |
| `ManifestRecovery.Recover` | DevPost/Pods/leveldb-library/db/version_set.cc:886-1011 | on every file: an error exactly if the reading fails or no edit tells the log number, the next file number or the last sequence number; else the version built from the edits, and of each counter the last value told, the next file number moved past the new manifest's |
| `Manifest.DecodedLevels` | DevPost/Pods/leveldb-library/db/version_edit.cc:97-205 | whatever the bytes, a decoded edit names existing levels only |
| `ManifestRecovery.CutManifestReadsWholeEdits` | DevPost/Pods/leveldb-library/db/version_set.cc:916-966 | a manifest cut at any byte is read as the edits whole in it, without an error |
| `ManifestRecovery.LogAndApply` | DevPost/Pods/leveldb-library/db/version_set.cc:801-884 | completes the edit, logs it and installs the sorted levels it leads to |
| `ManifestRecovery.LogAndApplyKeepsCurrent` | DevPost/Pods/leveldb-library/db/version_set.cc:801-884 | after every LogAndApply the logged edits tell the current files, log numbers and counters, and the lists are strictly sorted while no number is added twice |
| `ManifestRecovery.WriteSnapshot` | DevPost/Pods/leveldb-library/db/version_set.cc:1088-1116 | the two loops write the edit with the comparator, every compaction pointer and every file, and nothing else |
| `ManifestRecovery.SnapshotInstalls` | DevPost/Pods/leveldb-library/db/version_set.cc:1088-1116 | that edit applied to no files gives back every level of a sorted version |
| `ManifestRecovery.RecoverRebuildsCurrent` | DevPost/Pods/leveldb-library/db/version_set.cc:886-1011 | in every state of every run, once an edit is logged, recovery from the manifest's bytes succeeds and installs, list by list, the current version, the current log numbers, and exactly the counters of the last LogAndApply, if no number was added to a level twice |
| `ManifestRecovery.Reopen` | DevPost/Pods/leveldb-library/db/version_set.cc:886-1011 | Recover as code, run on the manifest of any state of any run, returns that state's file lists and log numbers, the next file number saved last plus one, and the last sequence number saved last |
| `ManifestRecovery.RecoveredNumbersAreFree` | DevPost/Pods/leveldb-library/db/version_set.cc:991-999 | after reopening, every table of the version, the log and the new manifest have numbers below the next file number, if every table was numbered when its edit was logged |
| `GroupCommit.BuildBatchGroup` | DevPost/Pods/leveldb-library/db/db_impl.cc:1260-1306 | the group is the longest allowed prefix of the queue, its batch the members' batches in order, and tmp_batch_ is used exactly if a follower has a batch |
| `GroupCommit.GroupLimits` | DevPost/Pods/leveldb-library/db/db_impl.cc:1269-1300 | in numbers: a group led by at most 128 KB grows by at most 128 KB, another to at most 1 MB or the leader alone; it ends only at a sync writer under a leader that is none, or where the limit would be passed |
| `GroupCommit.RunKeepsInv` | DevPost/Pods/leveldb-library/db/db_impl.cc:1185-1256 | every interleaving of writers, appends, syncs, insertions, failures and completions keeps the group-commit invariant; tmp_batch_ is empty between groups |
| `GroupCommit.GroupSharesStatus` | DevPost/Pods/leveldb-library/db/db_impl.cc:1240-1251 | in every reachable state all writers of a group that has ended, its append failed or not, have returned the same status |
| `GroupCommit.EndedGroupsAreNumberedApart` | DevPost/Pods/leveldb-library/db/db_impl.cc:1206-1237 | groups that have ended, failed ones too, have disjoint increasing blocks of sequence numbers |
| `GroupCommit.NoOkAfterSyncError` | DevPost/Pods/leveldb-library/db/db_impl.cc:1219-1234 | after a failed sync no later write returns OK, and nothing more is logged or inserted |
| `GroupCommit.OkWriteIsCommittedOnce` | DevPost/Pods/leveldb-library/db/db_impl.cc:1202-1251 | a write that returned OK is at exactly one place in the log, synced if asked, and its operations are in the memtable once each under consecutive numbers |
| `GroupCommit.OnlyOkWritesAreApplied` | DevPost/Pods/leveldb-library/db/db_impl.cc:1240-1251 | a write in a finished applied group has returned OK |
| `GroupCommit.GroupsFollowQueue` | DevPost/Pods/leveldb-library/db/db_impl.cc:1240-1251 | groups follow queue order with disjoint increasing sequence blocks |
| `GroupCommit.ReadersSeeWholeGroups` | DevPost/Pods/leveldb-library/db/db_impl.cc:1212-1237 | between any two insertions a reader at LastSequence() sees exactly the finished groups and nothing of the group under way |
| `GroupCommit.EveryWriteCanReturn` | DevPost/Pods/leveldb-library/db/db_impl.cc:1185-1256 | from every reachable state the queued writers can all return without another arriving, and with OK if nothing has failed: no writer is left waiting |
| `FileGc.AddLiveFiles` | DevPost/Pods/leveldb-library/db/version_set.cc:1167-1177 | collects exactly the pending outputs and the files of every listed version |
| `FileGc.DeleteObsoleteFiles` | DevPost/Pods/leveldb-library/db/db_impl.cc:223-278 | over any directory: keeps logs from LogNumber() on and the previous log, manifests from the current one on, live tables and temporary files, and everything of other kinds; everything after a background error |
| `DirectoryGc.DeleteObsoleteFiles` | DevPost/Pods/leveldb-library/db/db_impl.cc:223-278 | on the directory of any sound state the files left are those of a deletion step: every log from LogNumber() on, so that all unflushed writes are still replayed, every table of the version, and the current manifest are there; older logs and manifests are gone |
| `FileGc.RunKeepsNeededFiles` | DevPost/Pods/leveldb-library/db/db_impl.cc:223-278 | in every reachable state every table of every held version and every table the worker is writing or about to install is on disk |
| `FileGc.ListedIffHeld` | DevPost/Pods/leveldb-library/db/version_set.cc:474-483 | a version is in the list exactly as long as the current pointer, a reader, a flush or a compaction holds it |
| `FileGc.CollectingEarlyLosesTable` | DevPost/Pods/leveldb-library/db/db_impl.cc:510-527 | a table that is built but not installed is protected by the single worker alone: collecting at that moment would delete it |
| `PbVarints.EncodeVarint64` | DevPost/Pods/nanopb/pb_encode.c:574-594 | the buffer loop writes the base-128 varint in at most ten bytes |
| `PbVarints.DecodeVarint64` | DevPost/Pods/nanopb/pb_decode.c:250-270 | the loop computes the reference 64-bit decoder on every byte string |
| `PbVarints.DecodeVarint32` | DevPost/Pods/nanopb/pb_decode.c:182-247 | the loop, with its sign-extension and overflow checks, computes the reference 32-bit decoder on every byte string |
| `PbVarints.Varint64BytesRoundTrip` | DevPost/Pods/nanopb/pb_decode.c:250-270 | every 64-bit value is read back from its at most ten bytes |
| `PbVarints.DecodersAgree` | DevPost/Pods/nanopb/pb_decode.c:182-270 | on every byte string both decoders accept they consume the same bytes and agree modulo 2^32 |
| `PbVarints.Uint32RoundTrip` | DevPost/Pods/nanopb/pb_decode.c:182-242 | the 32-bit decoder accepts every encoded uint32 and returns it |
| `PbVarints.NegativeInt32Accepted` | DevPost/Pods/nanopb/pb_decode.c:182-242 | the 32-bit decoder accepts every sign-extended negative int32 and returns its 32-bit pattern |
| `PbVarints.ZigZagBijection` | DevPost/Pods/nanopb/pb_encode.c:596-605 | ZigZag is a bijection between int64 and uint64 |
| `PbVarints.SvarintRoundTrip` | DevPost/Pods/nanopb/pb_decode.c:1240-1252 | every int64 survives ZigZag and varint encoding |
| `PbFields.IterFind` | DevPost/Pods/nanopb/pb_common.c:78-96 | from wherever the iterator stands the search goes once round and finds the next field with the tag, with the count of required fields before it, or comes back; in an empty message it finds the terminator for tag 0 |
| `PbFields.Next` | DevPost/Pods/nanopb/pb_common.c:20-76 | the iterator steps on or wraps to the first field, keeping its running count of required fields exact |
| `PbFields.FindFromAnywhere` | DevPost/Pods/nanopb/pb_common.c:78-96 | with distinct tags the place the search starts from does not matter |
| `PbFields.ComparedIff` | DevPost/Pods/nanopb/pb_decode.c:1027-1045 | with the bits 32-bit words can have, the whole-word and remaining-bit comparisons succeed exactly if every index below the count, up to 64, is marked |
| `PbFields.CheckPassesIff` | DevPost/Pods/nanopb/pb_decode.c:988-1045 | after marking bit i & 31 of word i >> 5 for the fields met, in any order and with any others, the check passes exactly if every required field, up to the sixty-fourth, was met |
| `PbFields.CompareWords` | DevPost/Pods/nanopb/pb_decode.c:1027-1045 | the loop over whole words and the test of the rest compute those comparisons |
| `PbFields.CountRequired` | DevPost/Pods/nanopb/pb_decode.c:1012-1022 | seeking to the end with the fix-up for the last field counts the required fields from any position |
| `PbDecode.DecodedHasRequired` | DevPost/Pods/nanopb/pb_decode.c:901-1049 | whatever the bytes, a message that decodes had every required field, up to the sixty-fourth, in the stream |
| `PbDecode.ReadMessage` | DevPost/Pods/nanopb/pb_decode.c:901-1049 | the tag loop with iterator, bit words, unknown fields, oneofs, packed and fixed-count arrays computes the reference decoder on every byte string |
| `PbDecode.DecodeMessage` | DevPost/Pods/nanopb/pb_decode.c:1051-1063 | decoding into defaults computes the reference decoder |
| `PbBounds.DecodedFits` | DevPost/Pods/nanopb/pb_decode.c:401-447 | whatever the bytes, a message that decodes fits its struct at every depth: numbers within their width, bytes, strings and arrays within their maximum, fixed-count arrays whole, at most one member of a oneof set |
| `PbBounds.TypedIffFits` | DevPost/Pods/nanopb/pb_decode.c:1303-1348 | in-range numbers are exactly what one, two, four and eight bytes hold, signed and unsigned, written out |
| `PbBounds.SignedDecodesIff` | DevPost/Pods/nanopb/pb_decode.c:1289-1324 | a signed field reads the varint's low 32 bits, or all 64, as two's complement, and refuses exactly what does not fit it |
| `PbBounds.UnsignedDecodesIff` | DevPost/Pods/nanopb/pb_decode.c:1326-1348 | an unsigned field refuses exactly what does not fit it |
| `PbBounds.ZigzagDecodesIff` | DevPost/Pods/nanopb/pb_decode.c:1350-1372 | a ZigZag field reads even numbers as non-negative and odd ones as negative, and refuses exactly what does not fit it |
| `PbBounds.DataDecodesIff` | DevPost/Pods/nanopb/pb_decode.c:1391-1460 | bytes and strings are refused exactly if longer than their buffer, terminator included, or than the stream |
| `PbBounds.FixedBlobDecodesIff` | DevPost/Pods/nanopb/pb_decode.c:1487-1508 | a fixed-length field takes its length, or an empty one as zeros, and nothing else |
| `PbBounds.FullStringIsRefused` | DevPost/Pods/nanopb/pb_encode.c:831-855 | the encoder writes a string that fills its buffer to the last byte, and the decoder refuses it |
| `PbBounds.BadWireTypeRefused` | DevPost/Pods/nanopb/pb_decode.c:316-326 | an unknown field of wire type 3, 4, 6 or 7 ends the decoding |
| `PbForward.SkipConsumesRecord` | DevPost/Pods/nanopb/pb_decode.c:316-326 | skipping a record of the format consumes exactly that record: a varint, 8 bytes, a length and so many bytes, or 4 bytes |
| `PbForward.ForwardCompatible` | DevPost/Pods/nanopb/pb_decode.c:924-960 | a decoder that knows any part of a message's fields returns exactly their values and consumes every byte |
| `PbConcat.LoopJoins` | DevPost/Pods/nanopb/pb_decode.c:914-986 | on two streams end to end the loop goes on with the second where it left the first |
| `PbConcat.LastValueWins` | DevPost/Pods/nanopb/pb_decode.c:401-447 | a further record of a field that is no array and no submessage replaces its value, and unsets the other members of its oneof |
| `PbConcat.SubmessageMerges` | DevPost/Pods/nanopb/pb_decode.c:1463-1485 | a further record of a submessage is decoded onto the fields already there, that of a oneof member onto defaults |
| `PbConcat.ShortArrayRefused` | DevPost/Pods/nanopb/pb_decode.c:999-1004 | a fixed-count array that ends short of its count is refused |
| `PbDecode.ReadPacked` | DevPost/Pods/nanopb/pb_decode.c:420-447 | the packed-array loop stores elements while there is room and refuses leftovers |
| `PbDecode.ReadValue` | DevPost/Pods/nanopb/pb_decode.c:1289-1508 | the field decoders, submessages through bounded substreams included, compute the reference decoder |
| `PbRoundTrip.NumberRoundTrip` | DevPost/Pods/nanopb/pb_decode.c:1289-1389 | every in-range number of every width and kind is decoded back |
| `PbRoundTrip.DataRoundTrip` | DevPost/Pods/nanopb/pb_decode.c:1391-1508 | every in-range bytes, string and fixed-length bytes value is decoded back |
| `PbRoundTrip.KindRoundTrip` | DevPost/Pods/nanopb/pb_decode.c:1463-1485 | by induction on nesting, values of every kind are decoded back |
| `PbRoundTrip.ProtobufRoundTrip` | DevPost/Pods/nanopb/pb_decode.c:901-1063 | for every well-formed schema and in-range message, decoding the encoding succeeds, passes the comparisons of the required-field words, leaves no byte, and returns the same message |
| `PbRoundTrip.NullTerminatedRoundTrip` | DevPost/Pods/nanopb/pb_decode.c:304-308 | a message with a zero byte behind it ends there, and what follows is left unread |
| `PbEncode.PutMessage` | DevPost/Pods/nanopb/pb_encode.c:494-516 | on a sizing stream or a buffer, encoding succeeds exactly if the message is acceptable and fits, and then writes or counts exactly its bytes |
| `PbEncode.PutArray` | DevPost/Pods/nanopb/pb_encode.c:126-211 | arrays are packed when possible, left out when empty, refused when over their maximum |
| `PbEncode.PutSubmessage` | DevPost/Pods/nanopb/pb_encode.c:682-730 | the size pass gives the length, and the second pass writes exactly that many bytes at every depth |
| `PbEncode.PutBody` | DevPost/Pods/nanopb/pb_encode.c:703-730 | the substream of exactly the counted size always suffices, so that the size never turns out to have changed |
| `PbEncode.GetEncodedSize` | DevPost/Pods/nanopb/pb_encode.c:533-542 | succeeds exactly if the message is acceptable, with the number of bytes it encodes to |
| `PbEncode.Encode` | DevPost/Pods/nanopb/pb_encode.c:84-119 | encoding into n bytes succeeds exactly if the encoded size is at most n, and writes exactly those bytes |
| `PbEncode.TypedMessageIsAccepted` | DevPost/Pods/nanopb/pb_encode.c:307-392 | the encoder accepts every in-range message, so that only a full buffer stops it |
| `PbEncode.AcceptedIsTyped` | DevPost/Pods/nanopb/pb_encode.c:126-136 | the encoder accepts nothing out of range: what it accepts is an in-range message, if its strings leave room for their terminators |
| `PbSchema.NanopbShapes` | DevPost/Pods/nanopb/pb_encode.c:574-633 | the codec's varints end at their first byte below 128, and its fixed-width numbers stay within their width |
| `PbConcat.NanopbPrefixStable` | DevPost/Pods/nanopb/pb_decode.c:174-294 | reading a number never depends on the bytes behind it |
| `PbWire.EncodingSplits` | DevPost/Pods/nanopb/pb_encode.c:635-672 | a reader of the format that knows no schema splits the encoding of every in-range message into exactly the records of its fields, in order, with wire types 0, 1, 2 and 5 and the payloads of the specification |
| `PbWire.SplitsRecord` | DevPost/Pods/nanopb/pb_encode.c:635-639 | every record, with its key, is read back from the front of any stream |
| `PbWire.FixedIsLittleEndian` | DevPost/Pods/nanopb/pb_encode.c:607-633 | fixed-width numbers are little-endian |

## Left out

- DatabaseRuns.RunKeepsInv: exact reads are stated for runs whose compactions uncover nothing, since without that the property is false (see `FailingRuns.DeletedValueReappearsInRun`); everything else holds for all runs.
- Database.RecoverKeepsSound: a crash cuts the logs at group boundaries; that a cut at any byte comes to that is `RecoverySteps.OpenDatabase`. Tables and manifest records are on stable storage when installed.
- BackgroundSteps.BackgroundTurn: does not model shutdown, and the seek statistics that nominate a file are a parameter.
- VersionBuilder.Builder.Apply: does not model the compaction pointers an edit carries, nor the seek allowance of new files.
- ManifestRecovery.LogAndApply: the manifest write succeeds; a failed write, after which the record may or may not be in the file, is not modelled, and neither are compaction pointers after recovery.
- GroupCommit.RunKeepsInv: a failed append leaves no record in the modelled log, while the real file may hold part of one.
- PbVarints.DecodeVarint32: does not model the wrap-around of an 8-bit bit position, which only a varint of more than 36 bytes reaches.
- PbDecode.ReadMessage: works on values, so that it does not capture writing into a struct through offsets; descriptor arrays end where their fields do, so that no field has tag 0, and defaults are zero.
- PbFields.Next: does not model the data pointers, which the offsets and sizes of a struct decide.
- LogReader.LogReader.ReadRecord: a reader opened at the start of the file; skipping to an initial offset and resynchronising are not modelled.
- SkipLists.ConcurrentSearch: every load sees the latest store; weaker memory orders are not modelled.
- FailingRuns.DeletedValueReappearsInRun: its first flush goes to level 1 and its first compaction is cut between two versions of a key; both are choices the machine leaves open.
- The memtable flush interleaved inside a running compaction, as far as reads are concerned; `FileGc` does interleave the two.
- RecoverySteps.OpenDatabase: does not model creating a new database, the lock file, or reusing the last log file.
- The 1 ms write delay.
- File system errors other than failed appends, syncs, flushes and compactions; corrupt internal keys; the table and block format, the table cache and bloom filters.
- Seek statistics, read sampling, approximate sizes and properties: heuristics and reporting.
- `repair.cc`, `dumpfile.cc`, `filename.cc` and the C bindings.
- nanopb pointer fields and allocation, callbacks, extensions, implicit proto3 presence, `PB_WITHOUT_64BIT`, and sizes beyond the range of `size_t`.
- The Swift application and the Objective-C libraries: user interface and declarations.
