# LevelDB, libuv and nanopb cores: a verified model

The repository's app builds three C and C++ libraries whose logic carries the hard promises. This project
models that logic and proves what it promises:

- **LevelDB's multi-version store** (`chatAppBug/Pods/leveldb-library`). The database is a state machine whose
  steps are the regions of `DBImpl` between two points where the mutex is released (`Storage`, with the methods
  of `DbImpl` that compute its steps); `StorageProofs`, `StorageJobs`, `Recovery` and `StorageRuns` prove what
  holds over every run, with crashes and reopenings. `Compaction` and `Tables` hold the drop rules and the
  levels, `Ranges` and `StorageRanges` the key ranges of files, `CompactionInputs`, `CompactionPicks` and `Gaps` the
  choice of input files, `CompactionSteps` what that code is to the machine's steps, `StorageLaws` what steps must
  also do, `Lookup` the layered read, `DbIterator` the iterator, `GroupCommit` and `GroupCommitProofs` the write queue,
  `KeyFormat`, `KeyBytes`, `MemTable` and `Snapshots` the layers below.
- **LevelDB's record log**: `LogFormat` (writer), `LogReader` (reader), `LogRoundTrip` (the two together), `LogLayout`
  (where its bytes lie), `LogDamage` (wrong checksums and lengths), `TornLogs` (what bytes lost from it are to the store).
- **libuv's scheduling** (`chatAppBug/Pods/Libuv-gRPC`): `TimerHeap` is the pointer-linked heap, `Timers` the timer
  loop on top of it, `TimerDeadlines` when its timers are due, `Rings` the intrusive lists, `ThreadPool`,
  `ThreadPoolProofs` and `ThreadPoolKinds` the worker protocol.
- **nanopb** (`chatAppBug/Pods/nanopb`): `Wire` and `Messages` are the format, which follows the Protocol Buffers
  encoding specification, `Decoding` a recursive decoder, `Encoder` and `Decoder` the stream code with its
  substreams, `FieldBits` the bitmap of required fields, `MessageRoundTrip` and `Acceptance` what they do together,
  `WireTypes` what keys promise, `DecodedTurns` and `DecodedFits` what any input makes of a message.
- **libuv's address codec**: `Inet` and `InetText`, the text forms of section 2.2 of RFC 4291 and section 4 of RFC 5952.

`Options`, `Entries` and `ByteStrings` are shared. Code that changes things step by step is modelled by methods and
classes, each proved against a function of its inputs or of the old state; the lemmas are about those functions.

## What the code does not keep

- `SetupOtherInputs` adds boundary files at the compaction's own level but not at level + 1. Inputs need not be
  closed under older entries there, and a compaction can bring a deleted value back
  (`CompactionInputs.DeletedValueReturns`). `CompactionInputs.InputsClosedExactly` says exactly when they are closed,
  and `CompactionPicks.InputsClosedExactly0` for compactions of level 0. The store's theorems assume closed inputs, as
  the contract `Tables.Closed`, which follows under that condition (`CompactionInputs.ChosenClosed`,
  `CompactionPicks.ChosenClosed0`).
- A manual compaction may pick files with a gap between them. A memtable flushed meanwhile can be pushed into the gap at
  the output level, the outputs may then overlap it, and the search of that level misses its keys (`Gaps`).
  `Ranges.GapExactly` says exactly when no memtable can get between the inputs. The inputs of automatic compactions have
  no such gap (`CompactionSteps.StartAutomatic`).
- The 32-bit varint reader accepts some 64-bit values that are no sign extension (`Wire.Varint32TakesMore`);
  `Wire.Varint32Accepts` says exactly which.
- nanopb encodes a string that fills its buffer without a terminator, but does not decode it, and encodes no more of a
  string than what precedes its first zero (`Acceptance.TextComesBack`); in a message that fits, strings have no zero and
  leave room for the terminator.
- A timer callback that starts a timer with a zero timeout is called again in the same pass, possibly without end
  (`Timers.ZeroTimeoutNeverEnds`). `Timers.PassExactly` says exactly when a pass is as promised.
- A log record of type 5 or 6 with a good checksum is taken for the end of the file or for a bad record
  (`LogRoundTrip.OtherTypeRead`).
- Two branches are dead: `heap_remove` compares the detached last leaf with the root after the root link, if it was
  the root's, is already cleared, and `inet_ntop6` asks at the seventh word for a run of seven words that would hold it.
  The model leaves both out.

## Assumed of code not modelled

`IsBaseLevelForKey(k)` implies that no entry for k lies below the output level (`Tables.BaseKey`).
`PickLevelForMemTableOutput` returns level 0 or a level down to which no file overlaps the table (`Ranges.PastLevels`).
Compaction inputs are closed (`Tables.Closed`) and clear of the files that stay at the output level (`Ranges.Clear`), and
for the search within levels also covered (`Ranges.Covered`); see above for when the choice of inputs makes them so.
A version lists the files of each level above 0 by their smallest keys, and no table is empty (`StorageRanges.Shows`).
The internal iterator is sorted by `InternalKeyComparator`. `InsertInto` numbers a batch's operations
consecutively. The crc is any function of the bytes.
A full disk, a full memtable, a size limit or a failed call is an argument of the step or method it affects.

## Model

| member | source | states |
|---|---|---|
| StorageRuns.EveryRun | chatAppBug/Pods/leveldb-library/db/db_impl.cc:223-1515 | From an empty database, after any sequence of writes, rotations, flushes, compactions, deletions, snapshots, errors, crashes, also amid a deletion of files, and reopenings, which a crash may also cut short: at most one background job is outstanding and a full memtable is attended to, no table of a live version or of an unfinished output is deleted, every live snapshot and reader reads the committed history, the layers are ordered, and a crash at this moment loses nothing but whole groups off the end of the newest log |
| StorageRuns.StepKeeps | chatAppBug/Pods/leveldb-library/db/db_impl.cc:535-1366 | Every region between two mutex releases keeps the invariant from which those statements follow |
| StorageRuns.DiskIsMemory | chatAppBug/Pods/leveldb-library/db/db_impl.cc:316-369 | Unless a manifest record is written but not yet installed, the tables the manifest names and a replay, in number order, of the logs Recover selects hold entry for entry what tables, imm_ and mem_ hold, and the group the writer has logged |
| StorageRuns.InvariantReads | chatAppBug/Pods/leveldb-library/db/db_impl.cc:1100-1123 | The newest state and every live snapshot and pinned reader see the history at their sequence, whatever was compacted, flushed or installed since |
| StorageRuns.InvariantLayers | chatAppBug/Pods/leveldb-library/db/db_impl.cc:1113-1131 | For every user key, all sequence numbers in mem_ exceed those in imm_, and those exceed all in the tables; within the tables the levels are ordered in the same way |
| StorageRuns.InvariantCrash | chatAppBug/Pods/leveldb-library/db/db_impl.cc:1209-1224 | For every number of groups left of the newest log, recovery after a crash now reads a prefix of the logged groups, each whole |
| StorageRanges.EveryRun | chatAppBug/Pods/leveldb-library/db/db_impl.cc:491-1036 | In every such run whose merges start from inputs no memtable can slip between, the files of each level above 0 of the current version, and of the version on disk, lie apart |
| StorageRanges.StepRanges | chatAppBug/Pods/leveldb-library/db/db_impl.cc:491-1036 | Every step keeps that, with what it needs of the running job: the files that stay are clear of its inputs, and every key between these is covered |
| StorageRanges.GetAfter | chatAppBug/Pods/leveldb-library/db/db_impl.cc:1100-1145 | After any such run, the layered lookup applied to what the state holds returns what the committed history says at any live snapshot and at the newest state |
| StorageRanges.GetFromState | chatAppBug/Pods/leveldb-library/db/db_impl.cc:1100-1145 | The same of any state whose files lie apart |
| StorageRanges.MergedRanges | chatAppBug/Pods/leveldb-library/db/db_impl.cc:860-876 | The outputs of a merge lie apart from each other and from what stays at their level, whatever was flushed meanwhile |
| StorageRanges.OpenRanges | chatAppBug/Pods/leveldb-library/db/db_impl.cc:371-489 | Recovery adds files at level 0 only |
| TornLogs.CrashedBytes | chatAppBug/Pods/leveldb-library/db/log_reader.cc:205-216 | Whatever byte prefix of the newest log a crash leaves, for every rendering of groups as records that tells them apart: the groups its reader finds are those of one of the crashes of the state machine, nothing is reported, and what is recovered reads like a prefix of the logged history |
| TornLogs.TornGroups | chatAppBug/Pods/leveldb-library/db/log_reader.cc:56-271 | Any byte prefix of a log of groups is read as the log of its first groups |
| StorageProofs.AppendKeeps | chatAppBug/Pods/leveldb-library/db/db_impl.cc:1209-1216 | Logging a group leaves the invariant; no reader sees the group yet |
| StorageProofs.InsertKeeps | chatAppBug/Pods/leveldb-library/db/db_impl.cc:1222-1224 | Inserting one more entry of the group keeps every reader, snapshot and the durable image unchanged |
| StorageProofs.PublishKeeps | chatAppBug/Pods/leveldb-library/db/db_impl.cc:1233-1236 | Advancing the last sequence makes the whole group part of the history at once |
| StorageLaws.PublishedIsSeen | chatAppBug/Pods/leveldb-library/db/db_impl.cc:1233-1236 | A reader that starts once a batch is published sees the last operation on each of its keys, a value or a deletion |
| StorageLaws.OtherKeysStay | chatAppBug/Pods/leveldb-library/db/db_impl.cc:1233-1236 | On other keys it sees what was there before |
| StorageLaws.EarlierUnchanged | chatAppBug/Pods/leveldb-library/db/db_impl.cc:1233-1236 | A reader that started earlier sees nothing of the batch |
| StorageProofs.SyncFailsKeeps | chatAppBug/Pods/leveldb-library/db/db_impl.cc:1217-1232 | A failed sync after a complete append records the error and leaves a state a crash may still recover the group from |
| StorageProofs.RotateKeeps | chatAppBug/Pods/leveldb-library/db/db_impl.cc:1346-1366 | Switching to a new log and memtable keeps the layers and what the logs hold, and gives the full memtable a job |
| StorageProofs.SnapshotKeeps | chatAppBug/Pods/leveldb-library/db/db_impl.cc:1166-1169 | A snapshot taken now is at or above the oldest one, so above every drop limit in use |
| StorageProofs.ReleaseKeeps | chatAppBug/Pods/leveldb-library/db/db_impl.cc:1171-1174 | Releasing any snapshot moves the drop limit of later compactions only upwards |
| StorageProofs.CurrentReads | chatAppBug/Pods/leveldb-library/db/db_impl.cc:1100-1123 | Tables below memtables, some entries compacted away, read like the whole history at every sequence a reader may hold |
| StorageProofs.ScheduleKeeps | chatAppBug/Pods/leveldb-library/db/db_impl.cc:648-663 | Whatever state a region leaves, the call of MaybeScheduleCompaction at its end makes the full memtable attended to and adds no second job |
| StorageLaws.ScheduledExactly | chatAppBug/Pods/leveldb-library/db/db_impl.cc:648-667 | After every step a compaction that is needed is scheduled or a job is outstanding, unless there is an error or a shutdown; and a job is scheduled only for a full memtable or a needed compaction, never a second one, and neither after an error nor in a shutdown |
| StorageLaws.FlushComesFirst | chatAppBug/Pods/leveldb-library/db/db_impl.cc:688-694 | While a full memtable waits, a background call writes it out, whatever compaction was chosen |
| StorageLaws.DropsFromHorizon | chatAppBug/Pods/leveldb-library/db/db_impl.cc:890-894 | A merge drops from the oldest sequence on that can still be read: it is the least of the live snapshots, or the last sequence if there are none |
| StorageLaws.NothingObsolete | chatAppBug/Pods/leveldb-library/db/db_impl.cc:223-278 | What a deletion leaves are just the tables in use by the current version, a reader, a running compaction or an unfinished output, and the logs from the log number on; after an error it deletes nothing |
| StorageJobs.StartKeeps | chatAppBug/Pods/leveldb-library/db/db_impl.cc:669-745 | A background call that starts a flush, a trivial move or a merge, or ends at once, keeps the invariant |
| StorageJobs.FlushFirstKeeps | chatAppBug/Pods/leveldb-library/db/db_impl.cc:906-918 | A compaction that turns aside to flush imm_ keeps its inputs, outputs and drop limit valid |
| StorageJobs.BuiltKeeps | chatAppBug/Pods/leveldb-library/db/db_impl.cc:491-562 | A flushed table that is built, empty or failed leaves the invariant, whichever level it is given |
| StorageJobs.OpenOutputKeeps | chatAppBug/Pods/leveldb-library/db/db_impl.cc:786-809 | Opening an output reserves a number no version names and protects it from deletion |
| StorageJobs.MergedKeeps | chatAppBug/Pods/leveldb-library/db/db_impl.cc:920-1036 | A merge that ends hands over outputs with which the new version reads like the old one from the drop limit on |
| StorageJobs.MergeFailsKeeps | chatAppBug/Pods/leveldb-library/db/db_impl.cc:769-784 | A failed merge gives up its outputs and nothing else |
| StorageJobs.WriteManifestKeeps | chatAppBug/Pods/leveldb-library/db/version_set.cc:801-855 | Once the manifest record is written the new version is the durable one, and a crash before it is installed is safe |
| StorageJobs.InstallKeeps | chatAppBug/Pods/leveldb-library/db/db_impl.cc:545-566 | Installing a version, then deleting what is obsolete and scheduling the next job, keeps the invariant |
| StorageJobs.DeleteKeeps | chatAppBug/Pods/leveldb-library/db/db_impl.cc:223-278 | Deleting all but live tables and logs from the log number on takes nothing a version, a reader, a job or a recovery needs |
| Recovery.CrashIsSafe | chatAppBug/Pods/leveldb-library/db/db_impl.cc:280-369 | What a crash leaves of the files after any region is a disk whose image and logs make up a prefix of the logged groups |
| Recovery.OpenKeeps | chatAppBug/Pods/leveldb-library/db/db_impl.cc:280-369 | Opening such a disk, with the logs cut into any tables, gives, once the manifest is written, a settled state with the whole surviving history |
| Recovery.SweepKeeps | chatAppBug/Pods/leveldb-library/db/db_impl.cc:1500-1505 | Deleting files and scheduling, the rest of opening, give a state with the invariant |
| Recovery.WithoutKeeps | chatAppBug/Pods/leveldb-library/db/db_impl.cc:223-278 | Whatever part of its deletions a crash leaves undone, the disk holds the same history |
| Recovery.FailedOpenKeeps | chatAppBug/Pods/leveldb-library/db/db_impl.cc:1474-1515 | A crash while opening, before the manifest is written, loses nothing |
| Recovery.RecoverLogs | chatAppBug/Pods/leveldb-library/db/db_impl.cc:316-369 | Replaying the selected logs in number order turns exactly their groups into tables and finds the greatest sequence number in them |
| Recovery.MaxSequenceTaken | chatAppBug/Pods/leveldb-library/db/db_impl.cc:435-439 | The last sequence after recovery is the one of the manifest or that of an operation replayed: no number is skipped |
| Recovery.RecoverLogFile | chatAppBug/Pods/leveldb-library/db/db_impl.cc:371-489 | Every group of a log ends up in exactly one table, in order, for every choice of when the memtable is full |
| DbImpl.DBImpl.MaybeScheduleCompaction | chatAppBug/Pods/leveldb-library/db/db_impl.cc:648-663 | The branches of the method compute the scheduling step of the state machine |
| DbImpl.DBImpl.MakeRoomTurn | chatAppBug/Pods/leveldb-library/db/db_impl.cc:1310-1370 | One turn of the loop: which of the branches is taken, and that only the last changes the state, into the rotated one |
| DbImpl.DBImpl.DeleteObsoleteFiles | chatAppBug/Pods/leveldb-library/db/db_impl.cc:223-278 | The sweep over the directory leaves exactly the live tables and the logs from the log number on |
| DbImpl.DBImpl.BackgroundCall | chatAppBug/Pods/leveldb-library/db/db_impl.cc:669-745 | The branches, ending with the rescheduling call, compute the starting step of the state machine |
| DbImpl.DBImpl.MakeRoomKeeps | chatAppBug/Pods/leveldb-library/db/db_impl.cc:1310-1370 | Whichever branch is taken, the invariant of the state machine holds afterwards |
| DbImpl.DBImpl.BackgroundCallKeeps | chatAppBug/Pods/leveldb-library/db/db_impl.cc:669-745 | The same of the start of a background call |
| DbImpl.DBImpl.TableBuiltKeeps | chatAppBug/Pods/leveldb-library/db/db_impl.cc:491-562 | The same of the region after BuildTable |
| DbImpl.DBImpl.TableBuilt | chatAppBug/Pods/leveldb-library/db/db_impl.cc:491-562 | After the table is built: version edit, failure or shutdown, as in the state machine |
| Compaction.CompactionPreservesReads | chatAppBug/Pods/leveldb-library/db/db_impl.cc:890-998 | For every sorted input, whatever newer and older entries stand around it, every user key and every snapshot at or above the drop limit: the newest visible entry reads the same before and after the hidden-entry drop and the base-level tombstone drop |
| Compaction.DoCompactionWork | chatAppBug/Pods/leveldb-library/db/db_impl.cc:878-1036 | The loop with its local state keeps the survivors in order, split over outputs with exact smallest and largest keys, each cut when it is full and earlier only where the compaction asks for it |
| Compaction.KeptExactly | chatAppBug/Pods/leveldb-library/db/db_impl.cc:931-974 | An input entry survives if and only if every newer input entry of its key is above the drop limit and it is not itself a deletion at or below the limit whose key is at its base level |
| Compaction.OneKept | chatAppBug/Pods/leveldb-library/db/db_impl.cc:946-948 | No two entries of a key survive at or below the drop limit |
| Compaction.SurvivorIff | chatAppBug/Pods/leveldb-library/db/db_impl.cc:931-974 | An entry survives exactly if some position holding it is not dropped |
| Compaction.SurvivorsSorted | chatAppBug/Pods/leveldb-library/db/db_impl.cc:976-990 | The output is in internal key order |
| Tables.CompactKeeps | chatAppBug/Pods/leveldb-library/db/db_impl.cc:860-876 | Replacing the inputs by the survivors keeps the levels ordered and all reads from the drop limit on, also when a flush added tables meanwhile |
| Tables.FlushKeeps | chatAppBug/Pods/leveldb-library/db/db_impl.cc:491-533 | Adding a flushed memtable at a level it can be pushed to keeps the levels ordered and adds its groups to what the tables read like |
| Tables.MoveKeeps | chatAppBug/Pods/leveldb-library/db/db_impl.cc:716-733 | Moving a closed file one level down changes no read |
| Tables.InputsPlaced | chatAppBug/Pods/leveldb-library/db/db_impl.cc:890-974 | In a layered version, closed inputs stand between newer and older entries as the preservation theorem requires |
| Tables.PickedAmong | chatAppBug/Pods/leveldb-library/db/version_set.cc:1270-1333 | Inputs closed under older entries at their two levels leave only newer ones above and older ones below |
| Ranges.FlushDisjoint | chatAppBug/Pods/leveldb-library/db/version_set.cc:491-516 | A memtable pushed past the levels that overlap it lies apart from the files of its level |
| Ranges.FlushClear | chatAppBug/Pods/leveldb-library/db/db_impl.cc:906-918 | Flushed while a compaction is at work, it lies apart from all inputs, if these are covered |
| Ranges.CompactDisjoint | chatAppBug/Pods/leveldb-library/db/db_impl.cc:860-876 | Replacing inputs by outputs leaves the files of each level apart |
| Ranges.MoveDisjoint | chatAppBug/Pods/leveldb-library/db/db_impl.cc:716-733 | So does moving a file down |
| Ranges.GapExactly | chatAppBug/Pods/leveldb-library/db/version_set.cc:491-516 | Every memtable that can be pushed to the output level lies apart from the range that spans all inputs, so from whatever tables they are cut into, if and only if every key in that range is in the range of some file at the levels it must pass; the ranges of the tables actually cut may be smaller |
| Ranges.PastCanPush | chatAppBug/Pods/leveldb-library/db/version_set.cc:485-516 | No overlap of ranges implies no common key |
| Ranges.OutputsApart | chatAppBug/Pods/leveldb-library/db/db_impl.cc:976-998 | Tables cut one after the other from a sorted sequence lie apart |
| Gaps.GapTaken | chatAppBug/Pods/leveldb-library/db/version_set.cc:1464-1507 | Two files with a gap between them, as a manual compaction may pick them: they meet all that compactions ask for, and yet a memtable with a key in the gap can be pushed to the output level |
| Gaps.BothPicked | chatAppBug/Pods/leveldb-library/db/version_set.cc:1464-1507 | A manual compaction of the range picks both |
| Gaps.GapFilled | chatAppBug/Pods/leveldb-library/db/db_impl.cc:878-1036 | The compaction then leaves one table that overlaps the pushed one |
| Gaps.GapMissed | chatAppBug/Pods/leveldb-library/db/version_set.cc:373-386 | The search of that level says that the key in the gap is not there, though it is |
| CompactionSteps.StartAutomatic | chatAppBug/Pods/leveldb-library/db/version_set.cc:1270-1333 | From any single file of any level PickCompaction and SetupOtherInputs choose inputs that start a step of the state machine, and one no memtable can get into, unless the file after the last input at level + 1 continues its last user key; it is a trivial move if there is one input and little below |
| CompactionSteps.OutputsCompacted | chatAppBug/Pods/leveldb-library/db/db_impl.cc:976-1017 | The outputs of the loop, under their numbers, are what the step that ends a merge asks for |
| CompactionSteps.MergeAll | chatAppBug/Pods/leveldb-library/db/db_impl.cc:878-1036 | The loop applied to the inputs of a merge makes that step possible, whatever the numbers of its output files |
| CompactionInputs.InputsClosedExactly | chatAppBug/Pods/leveldb-library/db/version_set.cc:1403-1462 | The chosen inputs are closed under older entries of the same user keys if and only if nothing was chosen at level + 1 or the file after the last chosen there does not continue its last user key |
| CompactionInputs.ChosenClosed | chatAppBug/Pods/leveldb-library/db/version_set.cc:1403-1462 | Under that condition the files chosen in a layered version meet the contract the compaction theorems ask of them |
| CompactionPicks.InputsClosedExactly0 | chatAppBug/Pods/leveldb-library/db/version_set.cc:1403-1462 | Inputs chosen from level 0 are closed under the same condition at level 1, if and only if |
| CompactionPicks.ChosenClosed0 | chatAppBug/Pods/leveldb-library/db/version_set.cc:1403-1462 | Under it they meet the contract the compaction theorems ask for |
| CompactionPicks.SetupOtherInputs0 | chatAppBug/Pods/leveldb-library/db/version_set.cc:1403-1462 | From files of level 0: all that overlap a range, and the run of level 1 that overlaps them exactly; joined files lead to joined inputs |
| CompactionPicks.PickLevel0 | chatAppBug/Pods/leveldb-library/db/version_set.cc:1306-1316 | The files that overlap the picked one, directly or through others, are joined |
| CompactionPicks.AddBoundaryInputs0 | chatAppBug/Pods/leveldb-library/db/version_set.cc:1378-1401 | At level 0 there is never a boundary file to add |
| CompactionPicks.ChosenClear | chatAppBug/Pods/leveldb-library/db/version_set.cc:1403-1462 | The files that stay at the output level are clear of the inputs |
| CompactionPicks.ChosenClear0 | chatAppBug/Pods/leveldb-library/db/version_set.cc:1403-1462 | The same of a compaction of level 0 |
| CompactionPicks.ChosenCovered | chatAppBug/Pods/leveldb-library/db/version_set.cc:1403-1462 | Joined inputs, such as any automatic compaction has, cover every key between them |
| CompactionPicks.ChosenCovered0 | chatAppBug/Pods/leveldb-library/db/version_set.cc:1403-1462 | The same of a compaction of level 0 |
| CompactionInputs.SingleJoined | chatAppBug/Pods/leveldb-library/db/version_set.cc:1285-1299 | A single picked file is joined |
| CompactionInputs.Level0Closed | chatAppBug/Pods/leveldb-library/db/version_set.cc:519-560 | At level 0 no file that stays shares a user key with an input |
| CompactionInputs.DeletedValueReturns | chatAppBug/Pods/leveldb-library/db/version_set.cc:1403-1462 | Inputs SetupOtherInputs chooses, and a compaction of them after which a deleted value is read again: boundary files are never added at level + 1 |
| CompactionInputs.SetupOtherInputs | chatAppBug/Pods/leveldb-library/db/version_set.cc:1403-1462 | Above level 0: two contiguous runs of files; the upper one ends at a boundary, the lower one overlaps it exactly; a joined pick leads to joined inputs |
| CompactionInputs.AddBoundaryInputs | chatAppBug/Pods/leveldb-library/db/version_set.cc:1378-1401 | The run grows by exactly the files that continue its last user key |
| CompactionInputs.FindSmallestBoundaryFile | chatAppBug/Pods/leveldb-library/db/version_set.cc:1343-1361 | The boundary file found has the least smallest key of all there are |
| CompactionInputs.ClosedExactly | chatAppBug/Pods/leveldb-library/db/version_set.cc:1363-1377 | Within one level a run of files is closed under older entries exactly if the next file does not continue its last user key |
| CompactionInputs.OverlappingInLevel0 | chatAppBug/Pods/leveldb-library/db/version_set.cc:519-560 | At level 0 the range grows until every file that overlaps it is inside it |
| CompactionInputs.OverlappingInLevel | chatAppBug/Pods/leveldb-library/db/version_set.cc:519-560 | Above level 0 the overlapping files are one contiguous run |
| Lookup.Get | chatAppBug/Pods/leveldb-library/db/db_impl.cc:1100-1145 | The lookup that stops at the first layer that answers returns what the union of all layers says |
| Lookup.VersionGet | chatAppBug/Pods/leveldb-library/db/version_set.cc:326-421 | Level by level, the first level that answers decides for all levels |
| Lookup.Level0Get | chatAppBug/Pods/leveldb-library/db/version_set.cc:345-372 | Only overlapping files are searched, newest first, and the first answer is right for all of level 0 |
| Lookup.LevelGet | chatAppBug/Pods/leveldb-library/db/version_set.cc:373-386 | The one file binary search finds answers; at files in order it answers for its whole level |
| Lookup.FindFile | chatAppBug/Pods/leveldb-library/db/version_set.cc:87-107 | Binary search ends where the largest keys stop being before the lookup key; at files in order that is the first such file |
| Lookup.SortedGet | chatAppBug/Pods/leveldb-library/db/memtable.cc:100-134 | The first entry at or after the lookup key decides for a sorted sequence |
| Lookup.SeekAgrees | chatAppBug/Pods/leveldb-library/db/db_iter.cc:269-281 | A read returns a value exactly if an iterator at that sequence, after Seek to the key, stands on the key with that value |
| Lookup.DisjointInOrder | chatAppBug/Pods/leveldb-library/db/version_set.cc:87-107 | Files of a level that lie apart, sorted by their smallest keys, are in the order the search needs |
| Lookup.LayeredIsSearchable | chatAppBug/Pods/leveldb-library/db/version_set.cc:326-421 | A version the state machine keeps layered is one the level-by-level search applies to, and holds the same entries |
| DbIterator.DBIter.Run | chatAppBug/Pods/leveldb-library/db/db_iter.cc:141-299 | After any interleaving of Seek, SeekToFirst, SeekToLast, Next and Prev, with its direction switches, validity, key and value are those of an index into the view |
| DbIterator.DBIter.Next | chatAppBug/Pods/leveldb-library/db/db_iter.cc:141-166 | Moves one place forward in the view from either direction |
| DbIterator.DBIter.Prev | chatAppBug/Pods/leveldb-library/db/db_iter.cc:200-225 | Moves one place back in the view from either direction |
| DbIterator.DBIter.Seek | chatAppBug/Pods/leveldb-library/db/db_iter.cc:269-281 | Stands at the first key of the view that is at least the target |
| DbIterator.DBIter.FindNextUserEntry | chatAppBug/Pods/leveldb-library/db/db_iter.cc:168-198 | The forward scan stops at the next key of the view, past deletions and hidden versions |
| DbIterator.DBIter.FindPrevUserEntry | chatAppBug/Pods/leveldb-library/db/db_iter.cc:227-267 | The backward scan stops with the newest visible version of the previous key of the view |
| DbIterator.ViewSorted | chatAppBug/Pods/leveldb-library/db/db_iter.cc:168-198 | The view holds each key at most once, in order |
| DbIterator.ViewIsRead | chatAppBug/Pods/leveldb-library/db/db_iter.cc:168-198 | The view holds exactly the keys whose newest visible entry is a value, each with that value |
| GroupCommitProofs.EveryRun | chatAppBug/Pods/leveldb-library/db/db_impl.cc:1185-1306 | Over every interleaving of writers: at most one is past the queue head, writers finish once each and in order, batches take effect with contiguous sequence numbers and their group status, a sync write that returned OK is behind a sync, and a reader sees each batch whole or not at all |
| GroupCommitProofs.StepKeeps | chatAppBug/Pods/leveldb-library/db/db_impl.cc:1185-1256 | Every region of every writer keeps the invariant |
| GroupCommitProofs.FinishKeeps | chatAppBug/Pods/leveldb-library/db/db_impl.cc:1233-1253 | A leader that finishes pops exactly its group, gives it its status and publishes its range |
| GroupCommitProofs.SyncGroup | chatAppBug/Pods/leveldb-library/db/db_impl.cc:1281-1285 | No sync writer rides under a leader that does not sync |
| GroupCommit.BuildBatchGroup | chatAppBug/Pods/leveldb-library/db/db_impl.cc:1260-1306 | The group is the longest prefix of the queue allowed by the size limit and the sync and null-batch rules, and its operations are those of its members in order |
| GroupCommitProofs.GroupBounded | chatAppBug/Pods/leveldb-library/db/db_impl.cc:1266-1306 | A group of more than one has at most 1 MiB, and at most 128 KiB more than its first batch if that has at most 128 KiB; no sync writer rides under another; and it ends before the end of the queue only where the next writer would break this |
| GroupCommit.WriteQueue.PopGroup | chatAppBug/Pods/leveldb-library/db/db_impl.cc:1239-1253 | The loop takes exactly the group off the queue, marks the others done with the status and wakes the next head |
| LogFormat.UnmaskMask | chatAppBug/Pods/leveldb-library/util/crc32c.h:29-38 | Unmask inverts Mask on every 32-bit value |
| LogFormat.Writer.AddRecord | chatAppBug/Pods/leveldb-library/db/log_writer.cc:34-80 | The do-while loop appends the rendering of the record, which depends on what is there only through its length |
| LogFormat.Writer.EmitPhysicalRecord | chatAppBug/Pods/leveldb-library/db/log_writer.cc:82-106 | Header and payload as the format has them, within the block |
| LogReader.Reader.ReadRecord | chatAppBug/Pods/leveldb-library/db/log_reader.cc:56-174 | The loop over fragments, with its state, computes the record, position, resynchronisation and corruption reports of the reading function; what these are for whole, torn and damaged logs is said by TornLog, ReadFromOffset, OtherTypeRead and DamagedLog |
| LogReader.Reader.ReadPhysicalRecord | chatAppBug/Pods/leveldb-library/db/log_reader.cc:189-271 | Buffering block by block does not show: the result is that of reading the whole file at the position; what is handed on is said by HandedOnChecked |
| LogReader.Reader.SkipToInitialBlock | chatAppBug/Pods/leveldb-library/db/log_reader.cc:33-54 | The reader starts at the block in which the initial offset lies, or at the next one within a trailer |
| LogRoundTrip.TornLog | chatAppBug/Pods/leveldb-library/db/log_reader.cc:56-271 | For every sequence of records and every byte prefix of the file, a reader at offset 0 returns exactly the records wholly in the prefix, with their header positions, and reports no corruption |
| LogRoundTrip.CompleteIsPrefix | chatAppBug/Pods/leveldb-library/db/log_reader.cc:205-216 | Those are the first records written: a torn tail loses whole records off the end |
| LogRoundTrip.WriteCrashRead | chatAppBug/Pods/leveldb-library/db/log_writer.cc:34-106 | The same of the writer and the reader composed |
| LogRoundTrip.ReadFromOffset | chatAppBug/Pods/leveldb-library/db/log_reader.cc:33-174 | A reader given any initial offset returns exactly the records whose first header starts at or after it, each with that position as its record offset |
| LogRoundTrip.ResumeBeside | chatAppBug/Pods/leveldb-library/db/log_writer.cc:27-30 | A writer resumed at the length of what another has written adds the bytes the other adds |
| LogRoundTrip.OtherTypeRead | chatAppBug/Pods/leveldb-library/db/log_reader.h:65-72 | A file that begins with a good record of type 5 yields nothing and no report, whatever follows; one of type 6 is passed over without a report; one of another unknown type is passed over and reported |
| LogRoundTrip.PhysicalReadBack | chatAppBug/Pods/leveldb-library/db/log_reader.cc:189-271 | A physical record is read back, checksum and all; cut anywhere, it is the end of the file |
| LogDamage.HandedOnChecked | chatAppBug/Pods/leveldb-library/db/log_reader.cc:221-271 | Every physical record handed on is in the file at its header, within its block, with the stored length and type, and with checksums on the crc of its type and payload is the unmasked stored one |
| LogDamage.DamagedLog | chatAppBug/Pods/leveldb-library/db/log_reader.cc:189-271 | A written log in which the physical record at h has a wrong checksum or length, and maybe more behind it in its block: with checksums on, just the records that end by h and those whose first header lies in a later block are returned, and the first report is of the bytes from h to the end of the block |
| LogLayout.LogLaidOut | chatAppBug/Pods/leveldb-library/db/log_writer.cc:34-106 | The bytes of a written log: every piece lies within a block of 32 KiB under a header of seven bytes with its little-endian length and masked crc, its type is 1, 2, 3 or 4 for a whole, first, middle or last piece, all pieces but the last reach the end of their block, and at most six zero bytes are left before a header |
| LogLayout.MaskedBits | chatAppBug/Pods/leveldb-library/util/crc32c.h:22-32 | The stored checksum is rotated right by 15 bits, with the constant added |
| KeyFormat.ParseBack | chatAppBug/Pods/leveldb-library/db/dbformat.h:165-175 | Parsing gives back the key, sequence and type that were appended |
| KeyFormat.ParsedIsEncoded | chatAppBug/Pods/leveldb-library/db/dbformat.h:165-175 | Whatever bytes parse are the encoding of what they parse to |
| KeyFormat.RanksAgree | chatAppBug/Pods/leveldb-library/db/dbformat.cc:51-67 | Comparing internal keys as bytes is comparing entries by the rank of their user keys, then by falling sequence and type, which is how the other modules represent them |
| KeyFormat.LessTotal | chatAppBug/Pods/leveldb-library/util/comparator.cc:25-27 | The bytewise order is total |
| KeyFormat.ShortestSeparator | chatAppBug/Pods/leveldb-library/util/comparator.cc:29-50 | The result is start itself exactly if the first byte that differs leaves no room; else it lies strictly between start and limit and ends with that byte |
| KeyFormat.FindShortestSeparator | chatAppBug/Pods/leveldb-library/db/dbformat.cc:69-86 | The internal separator is at or after start and before limit in internal key order, and is start itself exactly if the user key cannot be made shorter |
| KeyFormat.FindShortSuccessor | chatAppBug/Pods/leveldb-library/db/dbformat.cc:88-101 | The internal successor is at or after the key and no longer, and is the key itself exactly if the user key cannot be made shorter |
| KeyBytes.NoShorterSeparator | chatAppBug/Pods/leveldb-library/util/comparator.cc:29-50 | No key between start and limit is shorter than the separator |
| KeyBytes.NoShorterSuccessor | chatAppBug/Pods/leveldb-library/util/comparator.cc:52-64 | No key after the given one is shorter than its successor |
| KeyBytes.InternalKeyBytes | chatAppBug/Pods/leveldb-library/db/dbformat.cc:14-23 | An internal key is the user key, a byte for the type, 1 for values and 0 for deletions, and the sequence in seven bytes, lowest first |
| MemTable.PrefixedBack | chatAppBug/Pods/leveldb-library/db/memtable.cc:14-19 | A length-prefixed slice is read back |
| MemTable.EncodedParts | chatAppBug/Pods/leveldb-library/db/memtable.cc:75-98 | An arena entry holds the internal key and the value, each length-prefixed |
| MemTable.KeysCompare | chatAppBug/Pods/leveldb-library/db/memtable.cc:28-34 | Comparing encoded entries is comparing their internal keys |
| KeyBytes.EntryBytes | chatAppBug/Pods/leveldb-library/db/memtable.cc:75-98 | The bytes of an arena entry: a varint of the key length and the internal key, a varint of the value length and the value |
| KeyBytes.LookupKeyFirst | chatAppBug/Pods/leveldb-library/db/dbformat.cc:117-137 | A lookup key stands after exactly those entries of its user key that are too new for it |
| MemTable.Memtable.Add | chatAppBug/Pods/leveldb-library/db/memtable.cc:75-98 | The table gains exactly the entry and stays in order |
| MemTable.Memtable.Get | chatAppBug/Pods/leveldb-library/db/memtable.cc:100-134 | The answer is the newest visible entry of the user key: its value, its deletion, or that there is none |
| MemTable.Decides | chatAppBug/Pods/leveldb-library/db/memtable.cc:102-131 | The first entry at or after the lookup key decides: if it has the user key it is the newest visible one, else there is none |
| Snapshots.SnapshotList.New | chatAppBug/Pods/leveldb-library/db/snapshot.h:57-72 | The circular list gains the snapshot at its end and stays ordered |
| Snapshots.SnapshotList.Delete | chatAppBug/Pods/leveldb-library/db/snapshot.h:79-86 | The list loses exactly that snapshot |
| Snapshots.SnapshotList.Oldest | chatAppBug/Pods/leveldb-library/db/snapshot.h:47-50 | The first link holds the least sequence number of all live snapshots |
| Snapshots.StillAscending | chatAppBug/Pods/leveldb-library/db/snapshot.h:79-86 | Without any one snapshot the list is still ordered and its oldest is no older |
| Rings.InsertTail | chatAppBug/Pods/Libuv-gRPC/src/queue.h:92-99 | A new link at the end closes the ring again |
| Rings.Remove | chatAppBug/Pods/Libuv-gRPC/src/queue.h:101-106 | The ring closes over the removed link, which keeps its own pointers |
| Rings.Split | chatAppBug/Pods/Libuv-gRPC/src/queue.h:61-70 | One ring becomes two, cut at the link |
| Rings.Move | chatAppBug/Pods/Libuv-gRPC/src/queue.h:72-81 | All links move to the other head, and the old one is empty |
| Rings.BackAndForth | chatAppBug/Pods/Libuv-gRPC/src/queue.h:24-27 | In a ring next and prev undo each other |
| TimerHeap.Heap.Insert | chatAppBug/Pods/Libuv-gRPC/src/heap-inl.h:106-148 | The linked tree stays complete, ordered and consistent in its parent links, and gains exactly the node |
| TimerHeap.Heap.Remove | chatAppBug/Pods/Libuv-gRPC/src/heap-inl.h:150-237 | Removing any member keeps the same, and the tree loses exactly that node; both sift loops terminate |
| TimerHeap.Heap.Dequeue | chatAppBug/Pods/Libuv-gRPC/src/heap-inl.h:239-241 | The root is the node that goes |
| TimerHeap.Heap.Walk | chatAppBug/Pods/Libuv-gRPC/src/heap-inl.h:117-129 | The bits of the element count lead to the slot of that position and to the slot before it |
| TimerHeap.PathTo | chatAppBug/Pods/Libuv-gRPC/src/heap-inl.h:117-120 | The path found leads from the root to the position |
| TimerHeap.Heap.Swap | chatAppBug/Pods/Libuv-gRPC/src/heap-inl.h:72-104 | The pointer updates exchange parent and child in the tree and leave every other place alone |
| TimerHeap.RootEarliest | chatAppBug/Pods/Libuv-gRPC/src/heap-inl.h:67-69 | The root is earliest |
| TimerHeap.SiftUpStep | chatAppBug/Pods/Libuv-gRPC/src/heap-inl.h:142-147 | A swap on the way up moves the only place out of order one level up |
| TimerHeap.SiftDownStep | chatAppBug/Pods/Libuv-gRPC/src/heap-inl.h:212-227 | A swap with the smaller child moves the places out of order one level down |
| Timers.TimerLoop.RunTimers | chatAppBug/Pods/Libuv-gRPC/src/timer.c:154-171 | If the callbacks it comes to leave the due timers as they are, the pass ends, and has fired every timer due at its start exactly once, in the order of timeout and start id, and no other |
| Timers.TimerLoop.NextTimeout | chatAppBug/Pods/Libuv-gRPC/src/timer.c:133-151 | -1 exactly without a timer, 0 exactly if one is due; else no longer than the wait for any deadline, and the wait for one of them if that is less than the largest C int |
| Timers.TimerLoop.StartTimer | chatAppBug/Pods/Libuv-gRPC/src/timer.c:66-94 | A closing handle or a missing callback is refused; else the timer is armed, with the next start id, and is in the heap; StartedIsDue says when it is due |
| Timers.TimerLoop.StopTimer | chatAppBug/Pods/Libuv-gRPC/src/timer.c:97-107 | The timer is inactive and out of the heap, and nothing else changed |
| Timers.TimerLoop.AgainTimer | chatAppBug/Pods/Libuv-gRPC/src/timer.c:110-120 | A repeating timer is armed again, and one that was never started is refused; AgainIsDue says when it is due |
| TimerDeadlines.StartedIsDue | chatAppBug/Pods/Libuv-gRPC/src/timer.c:66-94 | A timer started with a timeout is due at a later time if and only if that is at least the starting time plus the timeout, or the largest 64-bit value if the sum exceeds it |
| TimerDeadlines.AgainIsDue | chatAppBug/Pods/Libuv-gRPC/src/timer.c:110-120 | A timer started again is due if and only if its repeat has elapsed since |
| TimerDeadlines.FiredIsDue | chatAppBug/Pods/Libuv-gRPC/src/timer.c:154-171 | After it has fired a timer is due again if and only if it repeats and its repeat has elapsed since it fired |
| TimerDeadlines.StartAlone | chatAppBug/Pods/Libuv-gRPC/src/timer.c:133-151 | With one timer the loop sleeps for its timeout or for the largest C int, whichever is less |
| TimerDeadlines.StartedFirst | chatAppBug/Pods/Libuv-gRPC/src/timer.c:38-58 | Of two timers with one deadline the one that was started last is not first |
| TimerDeadlines.FiresInOrder | chatAppBug/Pods/Libuv-gRPC/src/timer.c:154-171 | A pass fires timers by deadline, and those of one deadline by start id |
| Timers.TurnsPass | chatAppBug/Pods/Libuv-gRPC/src/timer.c:154-171 | As many timers as have fired have left the set of due ones |
| Timers.PassExactly | chatAppBug/Pods/Libuv-gRPC/src/timer.c:154-171 | At every point of a pass just the timers due at its start have fired or are still due, in order, if and only if every callback it comes to leaves the due timers as they are |
| Timers.HarmlessExactly | chatAppBug/Pods/Libuv-gRPC/src/timer.c:66-125 | A call leaves the due timers as they are if and only if it starts a timer that is not due for strictly later, stops one that is not due, repeats one that is not due or does not repeat, or only sets a repeat |
| Timers.HarmlessLeaves | chatAppBug/Pods/Libuv-gRPC/src/timer.c:154-171 | Callbacks that make such calls, judged where the pass makes them, meet the condition |
| Timers.RearmingLeaves | chatAppBug/Pods/Libuv-gRPC/src/timer.c:154-171 | So does a callback that always starts its own timer again for strictly later |
| Timers.ZeroTimeoutNeverEnds | chatAppBug/Pods/Libuv-gRPC/src/timer.c:154-171 | A callback that always starts its own timer with a zero timeout is called any number of times in one pass |
| Timers.FiringLeaves | chatAppBug/Pods/Libuv-gRPC/src/timer.c:166-168 | Firing a timer leaves all other due timers due and no new one |
| Timers.PassDone | chatAppBug/Pods/Libuv-gRPC/src/timer.c:154-171 | When nothing is due any more, the fired timers are those due at the start, without repetition |
| Timers.ZeroTimeoutComesBack | chatAppBug/Pods/Libuv-gRPC/src/timer.c:154-171 | One turn of such a callback: its timer is due again |
| ThreadPoolProofs.EveryRun | chatAppBug/Pods/Libuv-gRPC/src/threadpool.c:57-316 | In every reachable state each request is in exactly one place; it runs at most once and is done at most once; it is reported cancelled exactly if a cancel returned 0, and then it never runs; at most (nthreads + 1) / 2 workers do work taken from the slow queue; a non-empty slow queue has its message linked exactly once; and while work waits some live worker is running or signalled |
| ThreadPoolProofs.StepKeepsScheduled | chatAppBug/Pods/Libuv-gRPC/src/threadpool.c:57-160 | Every step keeps the throttle of the slow queue, the single message and the absence of lost wakeups |
| ThreadPoolKinds.EveryRun | chatAppBug/Pods/Libuv-gRPC/src/threadpool.c:57-160 | In every run, with kinds as the requests were submitted: a request submitted as slow is never in the work queue and one submitted as CPU work never in the slow queue, a worker runs each as what it was submitted as, twice the number of workers at slow requests is at most nthreads + 1, and no request starts before an earlier one of its kind that still waits |
| ThreadPoolKinds.WaitsForGoodReason | chatAppBug/Pods/Libuv-gRPC/src/threadpool.c:66-92 | A worker that looks goes to sleep only if nothing is queued, or if only slow work is and as many workers are at slow work as may be |
| ThreadPoolKinds.CancelsExactly | chatAppBug/Pods/Libuv-gRPC/src/threadpool.c:269-292 | A cancel succeeds exactly if the request has not been started |
| ThreadPoolProofs.StepKeepsConserved | chatAppBug/Pods/Libuv-gRPC/src/threadpool.c:57-316 | Every step moves requests between places and neither loses nor doubles one |
| ThreadPoolProofs.StepKeepsHonest | chatAppBug/Pods/Libuv-gRPC/src/threadpool.c:120-316 | Every step keeps cancelled requests from running and run requests from being reported cancelled |
| ThreadPool.Pool.PostMessage | chatAppBug/Pods/Libuv-gRPC/src/threadpool.c:142-160 | The method computes the posting step: two queues, one message in the work queue for all slow requests, and a signal to an idle worker; which queue a request is found in over a run is said by ThreadPoolKinds.EveryRun |
| ThreadPool.Pool.WorkerLook | chatAppBug/Pods/Libuv-gRPC/src/threadpool.c:66-117 | A worker that looks at the queues waits, leaves, puts the message back, or takes a request, as the state machine says |
| ThreadPool.Pool.WorkerHandOver | chatAppBug/Pods/Libuv-gRPC/src/threadpool.c:121-129 | The work that ran goes to its loop and wakes it |
| ThreadPool.Pool.WorkCancel | chatAppBug/Pods/Libuv-gRPC/src/threadpool.c:269-292 | A request that still waits is cancelled with 0 and handed to its loop; any other gives EBUSY and changes nothing |
| ThreadPool.Pool.WorkDoneOne | chatAppBug/Pods/Libuv-gRPC/src/threadpool.c:295-315 | The done callback gets ECANCELED exactly if the request was cancelled |
| MessageRoundTrip.RoundTrip | chatAppBug/Pods/nanopb/pb_decode.c:934-1095 | For every well-formed descriptor tree and every message that fits it, decoding what encoding gives succeeds, consumes all of it and yields the same message up to values marked absent |
| MessageRoundTrip.MessageBack | chatAppBug/Pods/nanopb/pb_decode.c:934-1082 | The same of a nested message, by induction over the tree |
| MessageRoundTrip.ValueBack | chatAppBug/Pods/nanopb/pb_decode.c:406-483 | A value followed by any bytes is read back and leaves those bytes |
| MessageRoundTrip.PackedRoundTrip | chatAppBug/Pods/nanopb/pb_encode.c:147-204 | A packed array is read back, element after element |
| MessageRoundTrip.ScalarRoundTrip | chatAppBug/Pods/nanopb/pb_decode.c:1334-1445 | Every scalar that fits its field size is read back |
| WireTypes.KeyAnnounces | chatAppBug/Pods/nanopb/pb_encode.c:675-707 | The wire type of a key tells what follows it: 0 a varint, 1 eight and 5 four bytes that are the number in little-endian order, 2 a length and that many bytes |
| WireTypes.OnlyThatType | chatAppBug/Pods/nanopb/pb.h:319-324 | No other wire type tells that of all values of the kind |
| WireTypes.KeyMeans | chatAppBug/Pods/nanopb/pb_encode.c:669-673 | A key is a varint of the tag and three bits of wire type |
| WireTypes.ValueSkipped | chatAppBug/Pods/nanopb/pb_decode.c:278-334 | Whatever is encoded under a key is what the decoder skips for its wire type |
| WireTypes.SkippedExactly | chatAppBug/Pods/nanopb/pb_decode.c:278-334 | And nothing else is skipped: a varint for 0, eight bytes for 1, a length and that many bytes for 2, four bytes for 5, and no other wire type |
| WireTypes.DecodesKnown | chatAppBug/Pods/nanopb/pb_decode.c:966-996 | A decoder that has any part of the descriptors a message was encoded with gets those fields as they were, and skips the others |
| DecodedFits.DecodedHeld | chatAppBug/Pods/nanopb/pb_decode.c:406-483 | Whatever the input, if decoding succeeds every number is in the range of its member, every string leaves room for its terminator, no array or byte array has more than it has room for, a fixed-count array is empty or whole, and at most one member of a oneof is present |
| DecodedFits.LeftOutExactly | chatAppBug/Pods/nanopb/pb_encode.c:240-316 | A proto3 number, byte array or string is left out exactly if it is zero or empty, an optional field or oneof member exactly if it is absent, a required field never |
| DecodedFits.Widens | chatAppBug/Pods/nanopb/pb_encode.c:767-796 | A signed value of any size is sign-extended to 64 bits on the wire, and read back by a member of any larger size |
| DecodedTurns.ValueReplaced | chatAppBug/Pods/nanopb/pb_decode.c:406-483 | Whatever was decoded before, a field that is no array takes the last value that comes for it, other members of its oneof are no longer present, and no other field changes |
| DecodedTurns.ElementAppended | chatAppBug/Pods/nanopb/pb_decode.c:457-466 | An array, packable or not, takes one more element that comes under its own key if it has room, and else the message is refused |
| DecodedTurns.RunAppended | chatAppBug/Pods/nanopb/pb_decode.c:422-455 | A packed run is added to what an array holds, if there is room for all of it, and else the message is refused |
| Acceptance.EncodeDecode | chatAppBug/Pods/nanopb/pb_encode.c:528-550 | The encoder and the decoder composed: encoding succeeds exactly if there is room for the size, and then the message comes back |
| Acceptance.RequiredOccurs | chatAppBug/Pods/nanopb/pb_decode.c:1042-1079 | If decoding any bytes succeeds, every required field among the first 64 occurred in them |
| Acceptance.SubstreamCloses | chatAppBug/Pods/nanopb/pb_decode.c:372-400 | A submessage ends in its parent exactly after its length prefix and payload |
| Acceptance.TextComesBack | chatAppBug/Pods/nanopb/pb_decode.c:1487-1523 | A string is encoded up to its first zero and decoded if that leaves room for the terminator: it comes back if and only if it has no zero and does not fill its array |
| Encoder.Encode | chatAppBug/Pods/nanopb/pb_encode.c:528-550 | The loop over the fields writes the bytes of the encoding function, whose keys KeyAnnounces describes; it succeeds exactly if the values pass their checks and there is room, and never overruns the room |
| Encoder.GetEncodedSize | chatAppBug/Pods/nanopb/pb_encode.c:567-576 | The sizing pass counts exactly the bytes the writing pass writes |
| Encoder.EncodeSubmessage | chatAppBug/Pods/nanopb/pb_encode.c:717-765 | Sizing, then writing into a substream of that size: the sizes agree, so the error for a changed size is never returned |
| Encoder.EncodeArrayTo | chatAppBug/Pods/nanopb/pb_encode.c:147-236 | Packed and unpacked arrays, with the packed size known before it is written |
| Encoder.EncodeBasicField | chatAppBug/Pods/nanopb/pb_encode.c:341-426 | The branches over the rules of a field write what the encoding function says; LeftOutExactly and KeyAnnounces say which fields that leaves out and what keys it gives the others |
| Encoder.TextSize | chatAppBug/Pods/nanopb/pb_encode.c:873-897 | The scan of a string ends at its first zero or at the end of its array |
| Encoder.OutputStream.Write | chatAppBug/Pods/nanopb/pb_encode.c:103-124 | Either all bytes are written and counted, or none and the room is not overrun |
| Decoder.DecodeBuffer | chatAppBug/Pods/nanopb/pb_decode.c:1084-1095 | Decoding a buffer into a fresh message does what the specification says of its bytes |
| Decoder.DecodeNoinit | chatAppBug/Pods/nanopb/pb_decode.c:934-1082 | The loop over the input with its iterator and bitmap terminates on every byte string, with the bytes left as the measure across nested streams, and accepts exactly what the specification accepts |
| Decoder.DecodeTurn | chatAppBug/Pods/nanopb/pb_decode.c:944-1033 | One turn of the loop: skipping unknown fields, marking required ones, counting fixed arrays |
| Decoder.DecodeElement | chatAppBug/Pods/nanopb/pb_decode.c:422-470 | An array element or a packed array, with the limit of the array |
| Decoder.InputStream.DecodeVarint32 | chatAppBug/Pods/nanopb/pb_decode.c:187-252 | The 32-bit reader with its check of the upper bytes, and end of input only at the start |
| Decoder.InputStream.DecodeVarint | chatAppBug/Pods/nanopb/pb_decode.c:255-275 | The 64-bit reader |
| Decoder.InputStream.MakeSubstream | chatAppBug/Pods/nanopb/pb_decode.c:372-385 | The substream holds exactly the announced bytes, and its parent what follows them |
| Decoder.InputStream.CloseSubstream | chatAppBug/Pods/nanopb/pb_decode.c:387-400 | Closing leaves the parent just after the payload, whatever was left of it |
| Decoder.FieldIter.Find | chatAppBug/Pods/nanopb/pb_common.c:87-104 | The cyclic search finds the first field with the tag from where it stands, or returns to where it stood |
| Decoder.FieldIter.Next | chatAppBug/Pods/nanopb/pb_common.c:29-85 | The iterator goes to the next field, and from the last one back to the first |
| FieldBits.FieldsSeen.Mark | chatAppBug/Pods/nanopb/pb_decode.c:1022-1027 | Setting a bit adds exactly that field to the set |
| FieldBits.FieldsSeen.AllSeen | chatAppBug/Pods/nanopb/pb_decode.c:1051-1076 | The test of full words and of the rest of the last one is true exactly if every required field was seen |
| Wire.VarintRoundTrip | chatAppBug/Pods/nanopb/pb_decode.c:255-275 | Every 64-bit value is read back from its varint |
| Wire.VarintAtMostTen | chatAppBug/Pods/nanopb/pb_encode.c:608-628 | A varint has at most ten bytes |
| Wire.VarintMeans | chatAppBug/Pods/nanopb/pb_encode.c:608-628 | The top bit is set on all bytes but the last, the low seven bits are the number in groups from the lowest, and no zero byte is left at the end |
| Wire.Fixed64Means | chatAppBug/Pods/nanopb/pb_encode.c:653-667 | The eight bytes are the number in little-endian order |
| Wire.EncodeVarint | chatAppBug/Pods/nanopb/pb_encode.c:608-628 | The loop writes the groups of seven bits, lowest first |
| Wire.Varint32Accepts | chatAppBug/Pods/nanopb/pb_decode.c:187-247 | The 32-bit reader accepts the varint of a 64-bit value exactly if it is below 2^32 or its upper groups look like a sign extension, and then returns its low 32 bits |
| Wire.Varint32RoundTrip | chatAppBug/Pods/nanopb/pb_decode.c:187-247 | Every value below 2^32 and every sign-extended negative 32-bit value is read back as its low 32 bits |
| Wire.Varint32TakesMore | chatAppBug/Pods/nanopb/pb_decode.c:219-233 | A value that is no sign extension and is accepted all the same |
| Wire.ZigZagRoundTrip | chatAppBug/Pods/nanopb/pb_encode.c:630-639 | Zigzag and its inverse on every signed 64-bit value, and its arithmetic meaning |
| Wire.UnZigZagRoundTrip | chatAppBug/Pods/nanopb/pb_decode.c:1285-1297 | The other direction, on every unsigned 64-bit value |
| Wire.Fixed64RoundTrip | chatAppBug/Pods/nanopb/pb_decode.c:1314-1332 | Little-endian 64-bit values are read back |
| Inet.RoundTrip6 | chatAppBug/Pods/Libuv-gRPC/src/inet.c:67-302 | Parsing what is printed gives back every one of the 2^128 addresses |
| Inet.RoundTrip4 | chatAppBug/Pods/Libuv-gRPC/src/inet.c:53-65 | The same of IPv4 addresses |
| Inet.TextBack | chatAppBug/Pods/Libuv-gRPC/src/inet.c:218-302 | Any text that leaves out a run of zero words, not only the one printed, is read back |
| Inet.FindBest | chatAppBug/Pods/Libuv-gRPC/src/inet.c:86-113 | The run that `::` stands for is the first longest one of at least two words |
| Inet.InetNtop6 | chatAppBug/Pods/Libuv-gRPC/src/inet.c:67-147 | The loop prints the words, the embedded IPv4 tail where it belongs, and `::` for that run; a buffer without room for all of it gives an error |
| InetText.MappedText | chatAppBug/Pods/Libuv-gRPC/src/inet.c:117-132 | An IPv4-mapped address is printed as `::ffff:` and the dotted address |
| InetText.CompatibleText | chatAppBug/Pods/Libuv-gRPC/src/inet.c:117-132 | An IPv4-compatible one as `::` and the dotted address |
| InetText.DottedExactly | chatAppBug/Pods/Libuv-gRPC/src/inet.c:117-132 | No other address is printed with a dot |
| InetText.HexIs | chatAppBug/Pods/Libuv-gRPC/src/inet.c:133-134 | A word is printed in lower case, without a zero in front, as its value |
| Inet.InetPton6 | chatAppBug/Pods/Libuv-gRPC/src/inet.c:218-302 | The loop with its pointers reads what the recursive reader reads, and rejects what it rejects |
| Inet.Shift | chatAppBug/Pods/Libuv-gRPC/src/inet.c:284-297 | The bytes after `::` move to the end, and zeros take their place |
| Inet.InetPton4 | chatAppBug/Pods/Libuv-gRPC/src/inet.c:179-215 | The loop reads four octets without leading zeros or overflow, and rejects all else |
| InetText.Pton4Exactly | chatAppBug/Pods/Libuv-gRPC/src/inet.c:179-215 | A string is read as an IPv4 address if and only if it is how that address is printed |
| Inet.ZoneIgnored | chatAppBug/Pods/Libuv-gRPC/src/inet.c:150-176 | A zone after a percent sign does not change the address read |

## Left out

- StorageRanges.EveryRun: runs whose merges start from covered inputs, which leaves out manual compactions of files with a gap; `StorageRuns.EveryRun` has those, too, and reads there are reads of the set of entries.
- StorageRuns.EveryRun: compaction inputs are closed and `IsBaseLevelForKey` is right by contract; a crash is a number of groups left of the newest log, to which `TornLogs.CrashedBytes` reduces any number of bytes left.
- Storage.AppendGroup: an append succeeds; failed appends followed by more writes are not modelled.
- Storage.WriteManifest: `LogAndApply` succeeds; failed manifest writes and manifest rotation are not modelled.
- Recovery.OpenKeeps: a log whose only batches are empty does not raise the last sequence by their own header's sequence number; `reuse_logs`, paranoid checks and missing files are not modelled.
- Compaction.CompactionPreservesReads: corrupt internal keys are excluded; the code passes them through.
- Manual compactions: the bookkeeping of CompactRange over several rounds, and aborting it, are not modelled; a round is a step like that of an automatic compaction, with other inputs.
- DbIterator.DBIter: corrupt internal keys, read sampling and the capacity limit of the saved value are not modelled.
- GroupCommitProofs.EveryRun: log, memtable and rotation are abstracted to one success or failure per group; `StorageRuns.EveryRun` has them.
- GroupCommit.BuildBatchGroup: the byte size of a batch is given with it.
- KeyFormat.RanksAgree: the other LevelDB modules use integer ranks for user keys; every finite set of keys embeds so.
- MemTable.Memtable: the skip list is a sorted sequence, the arena a sequence of byte strings.
- Table files, blocks, filters, caches and the file system: a table is a sorted sequence.
- LogReader.Reader: read errors of the file are not modelled, only its end.
- TimerHeap.Node: the key of a node is fixed, so each arming of a timer takes a new node where the code reuses the one inside the handle.
- Timers.TimerLoop: the owner of a node is a map where the code computes it from the address; time and the start counter are unbounded, with the clamp of the deadline at the largest 64-bit value kept; active-handle counts are left out.
- ThreadPoolProofs.EveryRun: one event loop; thread creation, `uv_once` and forking are left out; a wait may end without a signal.
- Encoder.Encode: callbacks, extensions and pointer fields are excluded; the whole encoding is shorter than 2^64 bytes; what a failed encoding leaves in the buffer is not stated beyond the room.
- Decoder.DecodeNoinit: callbacks, extensions and pointer fields are excluded; what a failed decoding leaves in the message is not stated; the bit position of a 32-bit varint is unbounded where the code has eight bits, which differ only after some thirty continuation bytes.
- DecodedTurns.ValueReplaced: not for submessages, which are decoded over what is there, and fixed-count arrays.
- DecodedFits.LeftOutExactly: not for proto3 submessages, which are left out if all their fields are, and fixed-length bytes, which are left out only if their length is zero.
- WireTypes.DecodesKnown: descriptors are left out of the message decoded, not of its submessages.
- Messages.DefaultValue: fields with an explicit default value start as zero.
- MessageRoundTrip.RoundTrip: members of a oneof keep separate slots with a presence mark where the code overlays them.
- Inet.InetNtop6: what is left in the buffer when the text does not fit is not stated.
- Memory ordering: a step is atomic.
- The app's own Swift code and the other vendored libraries: interface code and calls into services that are not shown.
