# KeystoneDB in Dafny

A model of KeystoneDB, an embedded key-value store built as a log-structured merge tree
with a write-ahead log, a skiplist memtable, seven levels of immutable table files, a
MANIFEST of whole snapshots, background compaction and multi-version reads. The project
states what the store promises and proves it, or proves exactly when it holds.

Verify everything with `dafny verify dfyconfig.toml`.

## What is modelled

The centre is a state machine (`Machine`) whose steps are the disk and lock actions of a
write, a flush, a compaction, a snapshot, an unlink, a crash and an open. `Safety` proves
that every step keeps one invariant, and `Runs`, `SnapshotTiming` and `Progress` draw the
consequences for whole runs. The specification is the plain list of client writes in log
order: a read must answer what the last write of its key says. `DiskBytes`, `ConcurrentWrites`,
`StoredReads` and `CachedStore` tie the parts to that machine: its disk is what open loads from
the bytes its steps write, with crashes at any byte of an append; group commit refines it; its
tables are read through filter, index and blocks; and its blocks come from the cache.

| part | modules |
|---|---|
| keys, versions, what a read means | `Keys`, `Entries` |
| levels, file search, scans | `Versions`, `Scanning` |
| picking, garbage collection, splitting, committing | `Picking`, `Gc`, `Layout`, `LevelSearch`, `Compaction`, `Compactor`, `Progress`, `Boundaries` |
| the store as a machine and as an object | `Machine`, `Safety`, `Runs`, `SnapshotTiming`, `FileNumbers`, `Operations`, `Database` |
| the disk as bytes, and what gets lost on it | `DiskBytes`, `LostWrites` |
| concurrent writers | `GroupCommit`, `ConcurrentWrites` |
| memtable and merge iterator | `Skiplist`, `Merging` |
| bytes: integers, CRC-32, records | `Coding`, `Buffers`, `Crc`, `Polynomial`, `Records` |
| write-ahead log | `Wal`, `WalFile` |
| MANIFEST | `Recovery`, `Manifest`, `ManifestFile` |
| table files | `Bloom`, `TableIndex`, `TableFormat`, `TableReader`, `TableIterator`, `TableWriter`, `StoredReads` |
| the file formats, field by field | `Formats` |
| block cache | `BlockCache`, `CachedStore` |

Code that updates things step by step is a method or a class here too: the database object,
the merge iterator, the skiplist with its forward pointers on the heap, the log file, the
snapshot reader, the table writer and iterator, the bloom filter and the cache. Each is
proved against a function or predicate about which the properties are then proved. Steps
that interleave (writers, cache calls, crashes) are state machines.

## What holds, and exactly when

Some things the documentation suggests hold only under a condition. Each condition is
proved to be the exact one, and a concrete failing case is given.

- A snapshot is stable exactly when the batch in flight when it was taken changes nothing
  (`SnapshotStableIff`); `get_snapshot` can run between numbering a batch and applying it,
  and then its reads can still move (`SnapshotCanMove`).
- Acknowledged writes survive any number of crashes, at any byte of a log or MANIFEST append
  (`AcknowledgedWritesSurvive`, `BytesReadLog`), under three conditions that are guards of the
  machine's steps. Each is exact for its append, and dropping it loses acknowledged writes:
  - Writes have keys and values of at most 64 MiB. A logged batch is there after a crash exactly
    then (`LoggedIff`); a longer record takes every later one with it (`LongRecordLoses`,
    `LongRecordRunLoses`).
  - A snapshot appended to the MANIFEST lists at most 65536 files, and its keys without the very
    last one take at most 262144 bytes. Only then is it read back (`SnapshotReads`), and only then
    does a flush survive an open (`FlushSurvivesIff`); no crash inside an append is needed to lose
    the put of one long key (`LongKeyRunLoses`).
  - The MANIFEST has no torn tail. Whatever is appended is reached by the reader exactly then
    (`AppendReachedIff`, `AppendReadIff`), and such an append is atomic (`AppendIsAtomic`). `open`
    does not cut a torn tail off; a flush behind one empties the log and is never read
    (`TornFlushHides`, `TornRunLoses`).
- A compaction leaves the version healthy exactly when its outputs are cut between keys
  (`HealthyAfterIff`, for automatic and forced jobs), and searching the output level answers
  right, for every key and bound and however the sort breaks ties, exactly under that condition
  (`SearchRightIff`). The byte-based split meets it exactly when the size test never passes at an entry whose
  successor has the same key (`SplitsBetweenKeysIff`). With no snapshot live at pick it always
  does (`NoSnapshotNoStraddle`); otherwise a read can go back in time (`StraddleLosesNewest`,
  from a version the store gets into, `StraddleReachable`).
  The step of `Machine` that picks a job has such a split as a condition.
- A table file answers through its index as a linear scan would exactly for the keys whose
  versions do not lie in two blocks (`IndexedLookupIff`, `IndexedSeekIff`). A key lies in two
  blocks exactly when one of its versions closes a block right after another one
  (`StraddlesIff`); a block is closed by comparing with its first key, so this happens
  (`BlockStraddleHidesNewest`). `Versions`, `Machine` and `Scanning` read a table by a linear
  scan; for keys that straddle no block that is what the files answer (`StoredGetReadsLog`,
  `ScanFiles`).
- The L0 job is safe exactly when its computed range misses no file of L1 (`PickL0SafeIff`):
  no file starts with the empty key, or the last one does, or nothing in L1 ends below the
  range. The empty string also means "not set yet", and a job picked otherwise can give wrong
  answers (`EmptyKeyBreaksPick`). The step that picks a job has this as a condition; writes
  may have the empty key.
- A job is picked exactly when compaction is needed, except for a trigger of zero with an
  empty level 0 (`JobIffNeeded`). It commits exactly when it is not a bottommost job over
  nothing but deleted keys (`TurnCommitsIff`). From every version with one file to a number and one
  entry to a sequence number the loop of the compaction thread comes to rest after a bounded number of turns, whether or not
  outputs overlap on the way (`LoopSettles`): compaction is then not needed any more, or the loop
  spins on such a job, which is picked again for ever (`DroppedJobSpins`, `GravesSpin`). A trigger
  of zero is outside: it can rewrite one file for ever (`ZeroTriggerRunsOn`).

Code and documentation disagree in places, and the model follows the code: superseded
versions at or below the oldest snapshot are dropped at every level, not only at the
bottommost; data blocks carry a checksum that is checked on every read; log records and
table entries carry a sequence number that the short layout descriptions leave out; the
MANIFEST is called torn-tail tolerant, which is true of reading it and not of appending to it.

## Model

| member | source | states |
|---|---|---|
| `Entries.LookupIsNewest` | src/sstable.cpp:307-337 | the first visible version of a key in a sorted table is the newest one a read at that bound may see |
| `Entries.FirstHitIsNewest` | src/db.cpp:362-398 | stopping at the first layer with a visible version gives the newest one over all layers, when each layer is over those behind it |
| `Entries.InsertSorted` | include/keystone/memtable.h:47-51 | inserting a version keeps (key ascending, sequence descending) order |
| `Entries.ReadAfterWrite` | src/db.cpp:263-268 | after a newer version is added, a read that sees it answers with it, and other keys are untouched |
| `Entries.ReadBelowWrite` | src/db.cpp:263-268 | a read bounded below the new version's number is untouched by it |
| `Versions.SearchIsLayered` | src/db.cpp:365-396 | the files a point read visits, in order, are layers each over the next |
| `Versions.SearchIsComplete` | src/db.cpp:376-396 | the one binary-searched file per level and all of L0 contain every stored version of the key |
| `Versions.GetReadsNewest` | src/db.cpp:352-399 | in every healthy version, get answers the newest version at or below the bound over memtable and all files |
| `Database.FindUpperBound` | src/db.cpp:381-384 | the binary search returns the number of files whose smallest key is not above the key |
| `Database.GetImpl` | src/db.cpp:352-399 | the three loops of get_impl compute that get, on every version arranged as the store keeps it |
| `Gc.CollectKeepsSurvivors` | src/db.cpp:624-645 | the one-pass keep decision keeps exactly the versions above the oldest snapshot and, per key, the newest at or below it unless it is a bottommost tombstone |
| `Gc.CollectSorted` | src/db.cpp:627-659 | the kept stream is sorted and made of input entries only |
| `Gc.SplitConcat` | src/db.cpp:646-661 | cutting the kept stream into files loses, duplicates and reorders nothing |
| `Gc.CollectOnePerKey` | src/db.cpp:573-645 | with no version above the oldest snapshot, at most one version per key is kept |
| `Gc.StrictKeysSplit` | src/db.cpp:653-655 | one version per key means no cut falls between two versions of a key |
| `Gc.SplitsBetweenKeysIff` | src/db.cpp:646-661 | for a sorted stream and any target size, the cut falls between keys if and only if the byte counter never reaches the target at an entry followed by one of the same key |
| `Compactor.WriteOutputs` | src/db.cpp:624-661 | the merge loop with its previous key, anchor flag and byte counter writes exactly the parts the declarative collection and split give |
| `Compactor.RangeOf` | src/db.cpp:507-514 | the loop over the L0 files computes the range the picker uses |
| `Compactor.CollectOverlapping` | src/db.cpp:516-520 | the filter loop yields exactly the files of a level that overlap the range, in order |
| `Compactor.OldestFile` | src/db.cpp:533-538 | the loop finds the file with the smallest number |
| `Compactor.LimitOf` | src/db.cpp:61-67 | the size limit of a level: the limit of level 1 times the multiplier to the power of the levels below it, modulo 2^64 |
| `Picking.LimitIsPower` | src/db.cpp:61-67 | multiplying level by level with wrap-around is one power modulo 2^64 |
| `Compactor.PickCompaction` | src/db.cpp:489-557 | the imperative picker returns the specified job, and for every version, options and force flag that is the job the source owes: forced, L0 or level, with exactly its inputs, output level and bottommost flag (RightJob) |
| `Picking.LevelJobIs` | src/db.cpp:528-557 | below the trigger, the smallest level over its limit gives its file with the least number and, each once, the files of the next level that overlap it, for that next level; bottommost if and only if nothing is stored deeper; no level over its limit means no job |
| `Picking.L0JobIs` | src/db.cpp:505-526 | at the trigger, the job is every L0 file and the L1 files that overlap their range, each once, for L1; bottommost if and only if nothing is stored below L1 |
| `Picking.ForcedJobIs` | src/db.cpp:492-503 | a forced job is every file of the version once, and from two files on goes to L1 as bottommost |
| `Versions.OverlapsIff` | src/db.cpp:540-545 | the overlap test holds if and only if some key lies in both ranges |
| `Picking.LevelBytesIs` | src/db.cpp:52-59 | the bytes reckoned for a level are 64 for every entry, modulo 2^64 |
| `Picking.RangeMinExact` | src/db.cpp:507-514 | the computed minimum is the true one if and only if no file starts with the empty key or the last one does |
| `Picking.PickL0SafeIff` | src/db.cpp:505-523 | the L0 job is safe to merge if and only if its computed range is exact or no L1 file ends below it |
| `Picking.OneSideOfSpan` | src/db.cpp:516-520 | a file left out lies wholly on one side of the span of everything picked |
| `Picking.PickSafe` | src/db.cpp:489-557 | a job with an output level is safe to merge (nothing left behind lies inside its span, nothing deeper is skipped when it is bottommost) if and only if it is forced, a level job, or an L0 job whose range misses no file |
| `Picking.JobOkAfterFlush` | src/db.cpp:585-665 | a flush between pick and commit leaves the job safe |
| `Boundaries.EmptyKeyBreaksPick` | src/db.cpp:507-520 | a healthy version with an empty key whose picked and committed L0 job makes a live snapshot lose its answer or, in the other order the sort may leave equal keys in, the newest read go back in time |
| `Layout.SortSorts` | src/db.cpp:168-179 | the comparator sort yields a sorted arrangement of the same files |
| `Layout.StrictUnique` | src/db.cpp:681-687 | sorted arrangements of the same files are equal, so any correct sort gives the modelled one |
| `Layout.CommittedFiles` | src/db.cpp:670-687 | the committed version holds the old files without the inputs, plus the outputs |
| `Layout.CommittedArranged` | src/db.cpp:680-687 | every level of the committed version is again in its order |
| `Layout.OutputsDisjointIff` | src/db.cpp:604-661 | output ranges are pairwise disjoint if and only if no key straddles two outputs |
| `Layout.PlannedOutputs` | src/db.cpp:588-661 | the files written for a job hold exactly the surviving versions; they have the disjoint ranges a commit needs if and only if no key straddles two of them |
| `LevelSearch.SearchRightIff` | src/db.cpp:376-396 | however equal smallest keys are sorted, searching the outputs of a job answers every key at every bound as the whole stream does if and only if no key straddles two outputs |
| `Boundaries.HealthyAfterIff` | src/db.cpp:561-703 | a committed job, automatic or forced, that was safe to pick leaves the version healthy if and only if its outputs are cut between keys |
| `Boundaries.StraddleLosesNewest` | src/db.cpp:646-661 | on a healthy version the picker's own job with a snapshot live between two versions of a key writes them into two files: the read returned the newer before and returns the older after |
| `Boundaries.StraddleReachable` | src/db.cpp:286-333 | that version, with its snapshot live, is reached by put, get_snapshot, put, flush on an empty directory |
| `Compaction.CommitKeepsLayers` | src/db.cpp:664-687 | sorted disjoint levels and every layer over the deeper ones survive a commit |
| `Compaction.NoResurrection` | src/db.cpp:634-645 | when a bottommost tombstone is dropped, no older version of its key becomes visible |
| `Compaction.CommitPreservesReads` | src/db.cpp:587-703 | every read at a protected bound answers the same before and after the commit |
| `Progress.CompactionLowersWeight` | src/db.cpp:505-557 | every committed automatic job lowers the sum over stored entries of the levels still below them, except for a zero trigger with an empty L0 |
| `Progress.CompactionTerminates` | src/db.cpp:561-715 | from any version with one file to a number, no more jobs commit in a row than the starting weight, whatever their outputs overlap with |
| `Progress.CommitKeepsCount` | src/db.cpp:664-687 | every commit under new numbers keeps one file to a number and one version to a sequence number, also when its outputs overlap |
| `Progress.JobIffNeeded` | src/db.cpp:29-36 | a job is picked if and only if compaction is needed, except for a zero trigger with an empty L0 and no L1 file that starts with the empty key |
| `Progress.NoSurvivorIff` | src/db.cpp:634-645 | no version survives a merge if and only if it is bottommost and the newest version of every key in it is a tombstone at or below the oldest snapshot |
| `Progress.TurnCommitsIff` | src/db.cpp:624-667 | a picked job writes something if and only if it is not a bottommost one over nothing but deleted keys |
| `Progress.DroppedJobSpins` | src/db.cpp:664-715 | a job that keeps nothing leaves the store as it was, with compaction as needed as before |
| `Progress.LoopSettles` | src/db.cpp:561-715 | from any such version, after no more turns than the starting weight and one, the version no longer changes, and compaction is not needed or the loop spins on a job that keeps nothing |
| `Boundaries.GravesSpin` | src/db.cpp:664-667 | two files with a tombstone of one key each: a healthy version on which the loop spins |
| `Boundaries.ZeroTriggerRunsOn` | src/db.cpp:505-523 | with a trigger of zero a file that holds the empty key is rewritten under the next number, for every number |
| `Recovery.RebuildRestores` | src/db.cpp:141-181 | loading the manifest of a version from disk and sorting the levels rebuilds that very version |
| `Recovery.LoadedFile` | src/db.cpp:146-165 | a manifest entry without keys takes the range of its table, and one with an unknown level counts as L0 |
| `Merging.MergeIterator.Pop` | src/merge_iterator.cpp:29-37 | popping a source and pushing it back keeps the heap complete and the remaining entries exactly one fewer |
| `Merging.MergeIterator.AdvanceAll` | src/merge_iterator.cpp:24-40 | in all-versions mode the next entry is the least one left, for any way the heap breaks ties |
| `Merging.MergeIterator.NextKey` | src/merge_iterator.cpp:43-66 | the inner loop consumes all versions of the key and finds the newest visible one |
| `Merging.MergeIterator.AdvanceNewest` | src/merge_iterator.cpp:42-77 | in newest mode the next entry is the newest visible version of the first key that has one and, unless kept, is not a tombstone |
| `Merging.MergeVersions` | src/db.cpp:590-596 | draining the iterator gives a sorted permutation of the union of all sources |
| `Scanning.SourcesCover` | src/db.cpp:418-448 | despite the seeks and the range filter the sources hold every stored version in range |
| `Scanning.EmitsIffGet` | src/db.cpp:450-455 | a key in range is emitted with a value exactly when get answers that value |
| `Scanning.MemRange` | src/db.cpp:423-429 | the memtable loop copies exactly the versions from start to end |
| `Scanning.GatherSources` | src/db.cpp:432-448 | the loops over the levels build the specified sources |
| `Scanning.LevelSourcesAre` | src/db.cpp:441-448 | of a deeper level exactly the files that have a key in common with the range are read, each from the start key |
| `Scanning.Scan` | src/db.cpp:414-456 | keys come out strictly ascending, and a pair comes out if and only if it is in range and get answers it |
| `Safety.ApplyKeepsInv` | src/db.cpp:260-269 | logging and applying a batch keeps the invariant and makes reads follow the longer list of writes |
| `Safety.FlushInstallKeepsInv` | src/db.cpp:290-299 | writing and installing the flushed table keeps the invariant |
| `Safety.FlushPublishKeepsInv` | src/db.cpp:301-310 | appending a snapshot that loads to an untorn manifest and switching the version keeps the invariant while the table and the log both hold the entries |
| `Safety.FlushClearKeepsInv` | src/db.cpp:312-317 | truncating the log and renewing the memtable keeps the invariant |
| `Safety.PickJobKeepsInv` | src/db.cpp:570-585 | picking a job under the lock keeps the invariant and fixes what later steps may rely on |
| `Safety.WriteOutputKeepsInv` | src/db.cpp:604-622 | writing an output file while flushes and snapshots go on keeps the invariant |
| `Safety.CommitJobKeepsInv` | src/db.cpp:664-703 | committing with such an append, after any flushes and snapshots since pick, keeps the invariant |
| `Safety.UnlinkKeepsInv` | src/db.cpp:691-706 | deleting files no version names keeps the invariant |
| `Safety.CrashKeepsInv` | src/db.cpp:260-278 | a crash between any two disk actions, losing any suffix of the batch in flight, leaves a recoverable disk |
| `Safety.TornCrashKeepsInv` | src/manifest.cpp:36-62 | a crash inside the manifest append of a flush or a commit leaves a recoverable disk and a torn tail |
| `Safety.OpenKeepsInv` | src/db.cpp:86-214 | open re-establishes the whole invariant from any such disk |
| `Safety.StepKeepsInv` | src/db.cpp:86-715 | every step of every kind keeps the invariant, under the conditions named above for writing, picking and appending |
| `Safety.InitInv` | src/db.cpp:86-214 | an empty directory satisfies it |
| `Runs.GetReadsLog` | src/db.cpp:344-399 | in every reachable state get answers what the list of durable writes says |
| `Runs.LevelsStaySorted` | src/db.cpp:604-687 | in every reachable version every level from 1 is sorted with disjoint ranges |
| `Runs.NextSeqAboveStored` | src/db.cpp:192-199 | in every reachable state next_seq_ is above every stored sequence number |
| `Runs.LogOnlyGrows` | src/db.cpp:260-278 | the list of writes that reached the log is history and only grows; what reads make of it is GetReadsLog |
| `Runs.AcknowledgedWritesSurvive` | src/db.cpp:236-279 | everything acknowledged by one state is a prefix of what every later get answers from, through crashes between and inside disk actions, while writes, snapshots and the manifest are within the three conditions above |
| `DiskBytes.StepOnBytes` | src/db.cpp:86-715 | every step, with the bytes it writes to log and manifest, keeps the disk of the machine equal to what open would load from those bytes; a crash may cut an append at any byte |
| `DiskBytes.RunOnBytes` | src/db.cpp:86-715 | so it does over every run from empty files |
| `DiskBytes.BytesReadLog` | src/db.cpp:86-214 | opening the bytes left by any run that ends in a crash gives a store whose gets answer every durable write, the acknowledged ones included |
| `LostWrites.FlushSurvivesIff` | src/db.cpp:286-324 | after a flush onto an untorn manifest, a crash and an open, the flushed version is in force if and only if its snapshot can be loaded; gets then answer every write, and otherwise the old files alone |
| `LostWrites.UnreadFlushLoses` | src/db.cpp:184-201 | after a flush whose snapshot is not in force, get answers from the old files alone, right exactly for the keys on which those agree with the memtable |
| `LostWrites.AcknowledgedWriteLost` | src/db.cpp:184-201 | every value that was only in the memtable is then lost |
| `LostWrites.LongKeyRunLoses` | src/manifest.cpp:85-97 | a run from an empty directory, bytes included, in which the acknowledged put of a long key is read, flushed without any crash, and lost |
| `LostWrites.TornRunLoses` | src/db.cpp:286-324 | a run from an empty directory, bytes included, in which an acknowledged put survives a torn flush, is flushed behind it, and is lost |
| `LostWrites.LoggedIff` | src/db.cpp:260-262 | a logged batch is loaded after a crash if and only if every write of it is within the limit of replay |
| `LostWrites.LongRecordLoses` | src/db.cpp:96-108 | in any store a logged write over the limit takes every later one along: after a crash gets answer as if none had been made |
| `LostWrites.LongRecordRunLoses` | src/db.cpp:96-108 | a long put and a short one after it, both acknowledged: the short one is read before a crash and gone after it |
| `Runs.CrashThenOpen` | src/db.cpp:86-214 | recovery yields the durable writes plus a prefix of the batch in flight, the published version, and fresh numbers |
| `Runs.CommitKeepsRead` | src/db.cpp:664-703 | a commit changes no read at a live snapshot or at any bound a later snapshot can get |
| `Runs.SnapshotStable` | src/db.cpp:328-333 | a snapshot taken with no batch in flight answers the same for every key until it is released |
| `FileNumbers.NumbersNeverReused` | src/db.cpp:24-27 | while the store stays open a file number never names two contents and never comes back after its file is unlinked |
| `Runs.NoSnapshotNoStraddle` | src/db.cpp:570-585 | with no snapshot live at pick, outputs never split a key's versions |
| `SnapshotTiming.SnapshotStableIff` | src/db.cpp:328-333 | a snapshot is stable on every continuation if and only if the batch in flight when it was taken changes nothing |
| `SnapshotTiming.SnapshotCanMove` | src/db.cpp:248-269 | a reachable state in which a snapshot is not stable |
| `Database.NumberBatch` | src/db.cpp:249-251 | the leader's loop numbers the batch consecutively |
| `Database.ApplyRecords` | src/db.cpp:97-104 | replayed or logged records end up in the memtable in sorted order with their numbers |
| `Database.OldestLive` | src/db.cpp:79-82 | the smallest live snapshot, or the largest number when there is none |
| `Database.DB.Open` | src/db.cpp:86-214 | the constructor replays and cuts the bytes of the log, loads the bytes of the manifest, and is the specified opened store, sound again |
| `Operations.OpenedSound` | src/db.cpp:86-214 | that store is in the machine's recovered state and corresponds to its bytes |
| `Database.DB.WriteBatch` | src/db.cpp:236-279 | a batch of any writes is numbered, encoded in the log format (LogLayout), appended to the log bytes, applied and acknowledged; the store is sound again when replay can read it |
| `Operations.WrittenSound` | src/db.cpp:236-279 | within the limit of replay that is the machine's numbering, logging and acknowledging, and memory and bytes correspond again |
| `Database.DB.Flush` | src/db.cpp:286-324 | a flush appends the encoded snapshot to the manifest bytes whatever they end in, installs the table, empties log and memtable; the store is sound again when the manifest was untorn and the snapshot loads |
| `Operations.FlushedSound` | src/db.cpp:286-324 | then it is the machine's three flush steps, which change no read |
| `Database.DB.GetSnapshot` | src/db.cpp:328-333 | the snapshot's number is one below next_seq_, and it is live once more than before |
| `Database.DB.ReleaseSnapshot` | src/db.cpp:335-340 | one occurrence of the snapshot goes if there is any, and all others stay |
| `Database.DB.GetNewest` | src/db.cpp:344-346 | get answers the last write of the key |
| `Database.DB.GetAt` | src/db.cpp:348-350 | get at a snapshot answers the newest version at or below it |
| `Database.DB.ScanNewest` | src/db.cpp:401-405 | scan lists exactly the keys in range that hold a value, ascending, with the last value written |
| `Database.DB.CommitOutputs` | src/db.cpp:664-703 | the commit appends the encoded snapshot of the new version and switches to it |
| `Database.DB.Compact` | src/db.cpp:561-715 | a turn of the loop is the specified change for every picked job, or none; when the job is safe to pick, cut between keys and appended to an untorn manifest that loads, the store is sound again and no read of a live or later snapshot changes |
| `Operations.CompactedSound` | src/db.cpp:561-715 | the argument for that, over the steps pick, allocate, write and commit |
| `GroupCommit.StepKeepsInv` | src/db.cpp:236-279 | every interleaving step of any number of writers keeps the queue, leader, numbering and log invariants |
| `GroupCommit.OneLeader` | src/db.cpp:243-252 | in every reachable state at most one writer leads |
| `GroupCommit.LogIsArrivals` | src/db.cpp:248-269 | in every reachable state the order of log appends is arrival order is number order is memtable order, each request once, and all of it is synced |
| `GroupCommit.ReturnedIsLogged` | src/db.cpp:273-278 | a write that has returned is in the synced log and in the memtable with its number |
| `GroupCommit.NeverStuck` | src/db.cpp:243-246 | while a writer waits, some writer can go on, and when nobody leads it is the front of the queue that can lead |
| `GroupCommit.EveryoneReturns` | src/db.cpp:236-279 | without new arrivals a run is bounded, and when it can go no further every writer has returned |
| `ConcurrentWrites.GroupStepRefines` | src/db.cpp:236-279 | every step of the writers is a step of the store (leading is numbering, logging is applying, finishing is acknowledging) or none, and keeps the correspondence, for writes within the limit of replay |
| `ConcurrentWrites.TogetherKeeps` | src/db.cpp:236-324 | so does every step of the other threads, a flush by the leader or by anyone included, and the invariant of the store holds throughout |
| `ConcurrentWrites.ReturnedWriteSurvives` | src/db.cpp:236-279 | however writers, flushes, compactions and snapshots interleave, a write that has returned is acknowledged at its place in arrival order and stays there through any later run with crashes, in the list every get answers from |
| `Skiplist.SplicedValid` | src/memtable.cpp:43-47 | linking a node of any height after its recorded predecessors keeps every level a sorted chain of the tall enough nodes |
| `Skiplist.Memtable.Descend` | src/memtable.cpp:30-36 | the multi-level descent ends at the last node before the target and records the predecessor on every level |
| `Skiplist.Memtable.Add` | src/memtable.cpp:38-48 | for every height drawn, the contents become the sorted insertion and the structure stays valid |
| `Skiplist.Memtable.Put` | src/memtable.cpp:29-49 | put inserts the version and counts its bytes |
| `Skiplist.Memtable.Del` | src/memtable.cpp:51-71 | del inserts a tombstone |
| `Skiplist.Memtable.FindVersion` | src/memtable.cpp:73-91 | the multi-level lookup answers what a linear scan of the bottom list answers |
| `Skiplist.Memtable.RawLowerBound` | src/memtable.cpp:121-129 | the multi-level seek stands where a linear seek would |
| `Skiplist.Memtable.ReadFrom` | include/keystone/memtable.h:74-87 | walking the bottom pointers reads every version from there on, in order |
| `Skiplist.LevelsNest` | src/memtable.cpp:43-47 | each level is a subsequence of the level below |
| `Skiplist.WalkIsLevel` | src/memtable.cpp:32-36 | following the pointers of a level visits exactly its nodes in order |
| `Coding.RoundTrip32` | src/coding.h:17-29 | a 32-bit word decodes to what was encoded |
| `Coding.GetThenPut32` | src/coding.h:17-29 | four bytes re-encode to themselves |
| `Coding.LenRoundTrip` | src/coding.h:17-29 | a length below 2^32 decodes to what was encoded |
| `Coding.LenFromBytes` | src/coding.h:24-29 | any four bytes are the encoding of the length they decode to |
| `Coding.SeqRoundTrip` | src/coding.h:31-51 | a number below 2^64 decodes to what was encoded |
| `Coding.SeqFromBytes` | src/coding.h:42-51 | any eight bytes are the encoding of the number they decode to |
| `Crc.BuildTable` | src/crc32.cpp:6-16 | the table holds, for every byte, eight steps of the bit-by-bit register |
| `Crc.TableIsEightSteps` | src/crc32.cpp:25-26 | one table look-up does what eight single-bit steps do |
| `Crc.Crc32` | src/crc32.cpp:22-28 | the table-driven loop computes the checksum of every byte string |
| `Polynomial.RegisterDivides` | src/crc32.cpp:11-12 | shifting a message through the 32-bit register is long division by the generator |
| `Polynomial.ChecksumIsRemainder` | src/crc32.cpp:22-28 | on every byte string the checksum is the remainder that section 8 of RFC 1952 defines |
| `Polynomial.GeneratorIs` | src/crc32.cpp:11-12 | the generator has exactly the powers of x that the standard lists |
| `Crc.BurstDetected` | src/crc32.cpp:22-28 | strings that differ only within four adjacent bytes have different checksums |
| `Crc.CheckValue` | src/crc32.cpp:22-28 | the checksum of "123456789" is 0xCBF43926, the published check value |
| `Records.BodyReads` | src/wal.cpp:42-49 | the fields of a record are read back as they were written |
| `Records.BodyOfBytes` | src/wal.cpp:112-127 | whatever is read at a position is exactly what its record encodes to |
| `Wal.RoundTripIff` | src/wal.cpp:61-137 | replay returns the appended records if and only if every key and value is at most 67108864 bytes |
| `Wal.LongRecordStops` | src/wal.cpp:104-121 | a record over the limit ends replay just before it, whatever follows |
| `Wal.ReplayLog` | src/wal.cpp:98-137 | replay returns the logged records and goes on with what follows them |
| `Wal.ReplayInLimit` | src/db.cpp:105-108 | for any file at all, what replay returns encodes to a prefix of the file |
| `Wal.ReplayCut` | src/wal.cpp:104-134 | every byte prefix of a log replays to exactly the records that lie whole in it |
| `Wal.DamageStopsReplay` | src/wal.cpp:112-130 | damage to at most four adjacent bytes of a record outside its lengths ends replay just before that record |
| `Wal.DamagedChecksum` | src/wal.cpp:105-130 | so does damage to a stored checksum |
| `Wal.CrashKeepsPrefix` | src/wal.cpp:61-91 | a crash that loses unsynced bytes leaves the synced entries and a prefix of the unsynced ones |
| `WalFile.EncodeBatch` | src/wal.cpp:64-85 | summing the sizes and filling the buffer record by record gives the bytes of the log |
| `WalFile.ReplayFile` | src/wal.cpp:98-137 | the reading loop returns the specified records for every file |
| `WalFile.ValidEnd` | src/db.cpp:105-107 | the summed offset is the length of the good prefix |
| `WalFile.AppendAfterRecovery` | src/db.cpp:105-108 | truncating there, appending a batch and replaying gives the old records and then the batch |
| `WalFile.LogFile.AppendBatch` | src/wal.cpp:61-91 | one write and, when every write is to be synced, one sync for the whole batch, none for an empty one |
| `WalFile.LogFile.Append` | src/wal.cpp:38-59 | a single record is a batch of one |
| `WalFile.LogFile.Recover` | src/db.cpp:96-109 | recovery returns what replay finds and leaves a file that is exactly their log |
| `Manifest.SnapshotReads` | src/manifest.cpp:64-129 | an appended snapshot is read back if and only if it is within the two limits, and otherwise ends the reading |
| `Manifest.AllButLastKey` | src/manifest.cpp:81-106 | a snapshot loads if and only if it has at most 65536 files and all its keys but the very last take at most 262144 bytes |
| `Manifest.SnapshotCut` | src/manifest.cpp:70-126 | a snapshot cut anywhere is not read |
| `Manifest.DamagedChecksum` | src/manifest.cpp:125-126 | a snapshot behind any other checksum than its own is not read, and the one before stays in force, whatever follows |
| `Manifest.DamagedSnapshot` | src/manifest.cpp:125-126 | nor is one with at most four adjacent bytes damaged while its count and lengths are as they were |
| `Manifest.ZeroTail` | src/manifest.cpp:125-126 | a file that ends in any number of zero bytes loads as without them |
| `Manifest.LatestAfter` | src/manifest.cpp:64-133 | any sequence of appended snapshots followed by an unreadable tail loads as the last one before the first that does not load |
| `Manifest.AppendIsAtomic` | src/manifest.cpp:36-62 | a crash during an append to a file without a torn tail leaves the previous snapshot in force, or the new one when it was written whole and loads, and leaves a torn tail if and only if the append was cut |
| `Manifest.AppendToClean` | src/manifest.cpp:36-62 | appended to any file without a torn tail a snapshot that loads is in force |
| `Manifest.AppendedIsClean` | src/manifest.cpp:36-62 | a file made of whole snapshots that load has no torn tail |
| `Manifest.AppendUnloaded` | src/manifest.cpp:64-133 | an appended snapshot over the limits leaves the last one in force, and the reader stuck in front of it |
| `Manifest.AppendReachedIff` | src/manifest.cpp:64-133 | for every file and whatever is appended to it, the reader comes to stand at the append if and only if the file had no torn tail |
| `Manifest.AppendReadIff` | src/manifest.cpp:36-133 | an appended snapshot is read at its place if and only if the file had no torn tail and the snapshot is within the limits |
| `Manifest.TornFlushHides` | src/manifest.cpp:64-133 | the second flush of a key, behind eight bytes of its torn first one, is not read |
| `Manifest.TornTailHides` | src/manifest.cpp:64-133 | behind the first eight bytes of any torn snapshot, a later one whose first file number is at least its length is not read |
| `Manifest.LongKeysGoStale` | src/manifest.cpp:85-97 | the snapshot of one file with a long key is appended and passed over, and any older snapshot that loads stays in force |
| `ManifestFile.EncodeSnapshot` | src/manifest.cpp:36-60 | sizing and filling the buffer gives the bytes of the snapshot |
| `ManifestFile.SnapshotReader.ReadU32` | src/manifest.cpp:88-97 | a number is read if and only if it ends within the buffer's initial room and within the file |
| `ManifestFile.SnapshotReader.ReadBytes` | src/manifest.cpp:99-106 | a key is read if and only if the file is long enough, growing the buffer |
| `ManifestFile.SnapshotReader.ReadFile` | src/manifest.cpp:110-122 | one turn of the entry loop reads the specified entry or fails as specified |
| `ManifestFile.LoadLatestFile` | src/manifest.cpp:64-133 | the loading loop returns the specified snapshot for every file; what damage does to that is DamagedChecksum, DamagedSnapshot and ZeroTail |
| `Formats.LogLayout` | docs/FORMAT.md:5-13 | a log record is the checksum of the rest, tag 1 for a put and 2 for a delete, and the fields in little-endian order, read by a plain base-256 reading |
| `Formats.LoggedTag` | include/keystone/wal.h:12 | the fifth byte of a logged entry is 1 for a put and 2 for a delete |
| `Formats.TagsRead` | src/db.cpp:98-102 | replay takes tag 1 for a put and every other tag for a delete without a value |
| `Formats.EntryLayout` | docs/FORMAT.md:36-46 | a table entry has tag 0 for a value and 1 for a tombstone, and the same fields |
| `Formats.IndexLayout` | docs/FORMAT.md:50-59 | the fields of an index entry |
| `Formats.FooterLayout` | docs/FORMAT.md:82-99 | the forty bytes of a footer, with version 3 and the magic number |
| `Formats.FilterLayout` | docs/FORMAT.md:61-74 | the fields of a serialised filter |
| `Formats.FileLayout` | docs/FORMAT.md:112-121 | the fields of a file entry of the MANIFEST |
| `Formats.SnapshotLayout` | docs/FORMAT.md:101-123 | a snapshot is the checksum of the rest, the number of files and the files |
| `Bloom.AddAllBits` | src/bloom.cpp:40-52 | a bit is set if and only if it is a probe of an added key |
| `Bloom.MayContainIff` | src/bloom.cpp:54-67 | the filter says maybe if and only if all probes of the key are probes of added keys; so it never denies an added key |
| `Bloom.LoadRestores` | src/bloom.cpp:69-87 | a serialised filter loads as the same filter |
| `Bloom.HashOfNothing` | src/bloom.cpp:30-38 | the halves of the hash of the empty key, as numbers |
| `Bloom.HashOfA` | src/bloom.cpp:30-38 | the halves of the published FNV-1a hash of "a", low half first |
| `Bloom.FilterSize` | src/bloom.cpp:15-26 | a filter has ten bits a key, rounded up to whole bytes |
| `Bloom.OneKeyFilter` | src/bloom.cpp:40-52 | the filter of the empty key, byte for byte: seven probes by double hashing |
| `Bloom.Hash` | src/bloom.cpp:30-38 | the hashing loop computes the two halves of the FNV-1a hash |
| `Bloom.BloomFilter.AddKey` | src/bloom.cpp:40-52 | add sets the bits of the key's probes |
| `Bloom.BloomFilter.Test` | src/bloom.cpp:54-67 | may_contain tests all of them |
| `TableIndex.BlocksHold` | src/sstable.cpp:43-47 | cutting into blocks loses and reorders nothing |
| `TableIndex.BlocksAreCut` | src/sstable.cpp:43-47 | every block but the last holds at least 4096 bytes and is followed by a key other than its first, and no block could have been cut earlier |
| `TableIndex.IndexedLookupIff` | src/sstable.cpp:257-268 | through the index a key is found as by a linear scan, at every bound, if and only if its versions do not lie in two blocks |
| `TableIndex.IndexedSeekIff` | src/sstable.cpp:438-443 | a seek starts where a linear scan would, under the same condition |
| `TableIndex.OneVersionNeverStraddles` | src/sstable.cpp:45-47 | strictly increasing keys never straddle blocks |
| `TableIndex.StraddlesIff` | src/sstable.cpp:43-47 | a key lies in two blocks if and only if an entry with that key closes a block right after another one with it |
| `TableIndex.BlockStraddleHidesNewest` | src/sstable.cpp:45-47 | a table in which a full block ends between two versions of a key and the index answers with the older |
| `TableFormat.OpenRestores` | src/sstable.cpp:164-250 | opening the file of any table recovers its index with offsets and lengths, filter, entry count, largest sequence number and version; the file of an empty table opens without a filter |
| `TableFormat.BlocksRead` | src/sstable.cpp:270-292 | every index entry reads back the bytes of its block |
| `TableFormat.DamagedBlock` | src/sstable.cpp:279-286 | a block with at most four adjacent bytes damaged is refused |
| `TableFormat.DamagedTrailer` | src/sstable.cpp:279-286 | so is a block with any other checksum than its own |
| `TableFormat.NoMagicNoTable` | src/sstable.cpp:170-195 | a file shorter than a footer, or that does not end in the magic number, is refused |
| `TableFormat.RefusedIff` | src/sstable.cpp:197-240 | a file with a footer is refused if and only if its index or filter is not where the footer says |
| `TableReader.SearchIsLookup` | src/sstable.cpp:305-338 | searching the bytes of a sorted block answers what its entries say |
| `TableReader.FindBlockIs` | src/sstable.cpp:257-268 | the binary search finds the last block whose first key is not above the key |
| `TableReader.FindBlockIdx` | src/sstable.cpp:257-268 | the loop computes that search for every index |
| `TableReader.LoadBlock` | src/sstable.cpp:270-292 | a block is read, checked and stripped of its checksum as specified, errors included; what damage does is DamagedBlock and DamagedTrailer |
| `TableReader.Get` | src/sstable.cpp:294-338 | filter, index and block scan together compute the specified answer for every file; on files of tables, whole, damaged or cut, that is GetIsIndexed, DamagedGet and CutGet |
| `TableReader.GetIsIndexed` | src/sstable.cpp:294-338 | on the file of a table that answer is the index's answer over its entries; the filter hides nothing |
| `TableReader.GetIsLinear` | src/sstable.cpp:294-338 | and a linear scan's answer for every key that does not straddle blocks |
| `TableReader.DamagedGet` | src/sstable.cpp:270-303 | with at most four adjacent bytes of one block damaged the file opens as before; a get that the filter lets through to that block fails, and every other one answers as before |
| `TableReader.CutGet` | src/sstable.cpp:277-303 | on a file cut short behind the back of an open table, a get for a block behind the cut answers not found |
| `TableReader.SearchCut` | src/sstable.cpp:305-318 | a block cut short is searched up to its last whole entry |
| `StoredReads.StoredGetIs` | src/db.cpp:352-399 | a get through memtable and table files, with filters, indexes and blocks, answers as the search over linearly read tables, for keys that straddle no block |
| `StoredReads.StoredGetReadsLog` | src/db.cpp:344-399 | so in every reachable state it answers what the list of durable writes says |
| `StoredReads.StoredSourcesAre` | src/db.cpp:418-448 | a scan that seeks through the indexes merges the same sources, when its start key straddles no block |
| `StoredReads.SeekAll` | src/db.cpp:418-448 | opening every table file, seeking by its index and reading checked blocks to the end gives the sources of such a scan |
| `StoredReads.ScanFiles` | src/db.cpp:414-456 | in every reachable state a scan over memtable and file bytes lists exactly the keys in range that hold a value, with the last one written, when its start key straddles no block |
| `TableIterator.Iterator.ParseEntry` | src/sstable.cpp:361-390 | each step yields the next entry, across block boundaries |
| `TableIterator.Iterator.SkipBelow` | src/sstable.cpp:392-422 | the seek loop skips exactly the entries below the target |
| `TableIterator.ReadAll` | src/sstable.cpp:342-432 | opening and iterating the file of a table, empty or not, yields exactly its entries in order |
| `TableIterator.SeekTable` | src/sstable.cpp:438-443 | a seek in the file yields what the index finds: every entry from the target on if and only if the target does not straddle blocks |
| `TableWriter.Writer.Add` | src/sstable.cpp:43-79 | add extends the table by one entry and keeps blocks, index, keys, count, largest number and key range right |
| `TableWriter.Writer.FlushBlock` | src/sstable.cpp:81-95 | a closed block is sealed with its checksum and indexed at its offset |
| `TableWriter.Writer.Finish` | src/sstable.cpp:97-136 | the finished file is the file of the table of the entries added |
| `TableWriter.BuildFilter` | src/sstable.cpp:115-119 | the filter holds the keys of all entries |
| `TableWriter.OpenFile` | src/sstable.cpp:164-250 | open computes the specified table or failure for every file of every version |
| `BlockCache.StoreKeepsValid` | src/block_cache.cpp:28-45 | storing keeps list and index in bijection, the byte count the sum of the sizes and within capacity; what goes is exactly the tail that does not fit |
| `BlockCache.StoreByUse` | src/block_cache.cpp:28-45 | the list stays in order of last use, so the least recently used blocks go first |
| `BlockCache.CalledIsKept` | src/block_cache.cpp:22-47 | after a miss the block is in the cache if and only if it is no larger than the capacity; a larger one empties the cache |
| `BlockCache.SecondCallHits` | src/block_cache.cpp:12-47 | of two calls in a row for a block that fits, the second finds it |
| `BlockCache.MoveKeepsInv` | src/block_cache.cpp:7-48 | every step of every interleaving of calls keeps the cache valid and true to the files |
| `BlockCache.AnswersAreTrue` | src/block_cache.cpp:7-48 | in every run of concurrent calls over files that do not change every answer is the block as it is on disk |
| `CachedStore.CacheIsTransparent` | src/sstable.cpp:270-292 | while the store stays open, however flushes, compactions and unlinks interleave with cache calls, every answer is what the file of that number holds, at every moment it exists |
| `CachedStore.BlockAtIs` | src/sstable.cpp:270-292 | at the offset of an index entry that is the bytes of its block |
| `BlockCache.LruCache.Find` | src/block_cache.cpp:12-20 | the first critical section moves a hit to the front and returns it |
| `BlockCache.LruCache.Keep` | src/block_cache.cpp:27-47 | the second one stores unless another call has, then evicts |
| `BlockCache.LruCache.GetOrLoad` | src/block_cache.cpp:7-48 | an undisturbed call returns the block as it is on disk; a hit counts as one and moves the block first with the others in order; a miss counts as one and leaves the longest front part of the block and the old list that fits |

## Left out

- File descriptors, rename, fsync and directory listing: apart from log and MANIFEST appends, disk actions are atomic steps, and a sync makes all bytes written so far durable.
- Exceptions and I/O errors: a failing read is modelled where the code checks for it, but not what callers do with a thrown exception.
- Data races of the C++ memory model, such as the unlocked size check before a flush: a flush is a step that may happen at any time.
- Batched sync mode: what survives depends on what the operating system wrote back; the machine models the mode that syncs every batch.
- Blocks and entries of table format versions 1 and 2, and opening a directory of tables without a MANIFEST.
- The waiting loop of the public compact call, thread start and stop, and the forced job with a single input file, whose output level is 0.
- The distribution of random skiplist heights and the false positive rate of the bloom filter: every height and every hash outcome is covered instead.
- Memory reclamation: files are unlinked by a step of their own once no version names them, not by reference counts.
- Wrap-around of the 64-bit sequence counter and of file numbers: writes are numbered below 2^64 - 1.
- A read that overlaps other steps: get and scan take memtable and version together under the lock and are one step here; the tables they then read never change (see `NumbersNeverReused`).
- The command line tool, benchmarks and plotting.
- ManifestFile.LoadLatestFile: a file number or level of 2^31 or more in a damaged file stays a large number, where the source gets a negative int.
- Manifest.SnapshotReads: entries have numbers below 2^31 and keys below 4 GiB, which the 32-bit fields need.
- Manifest.TornTailHides: what is in force behind other torn tails can depend on a checksum that matches by chance; `AppendReachedIff` says for all of them that the append itself is never reached.
- Safety.FlushPublishKeepsInv: the MANIFEST has no torn tail and the snapshot loads, because the result is false otherwise (see `TornRunLoses`, `LongKeyRunLoses`).
- Safety.CommitJobKeepsInv: the same condition on the append.
- Safety.CrashKeepsInv: a crash outside MANIFEST appends; `TornCrashKeepsInv` is the other one.
- Runs.AcknowledgedWritesSurvive: the same condition on the two steps that append, and writes within the limit of replay (see `LongRecordRunLoses`), in the guards of the steps.
- Runs.CrashThenOpen: the same; it starts from a state whose manifest was appended under that condition.
- ConcurrentWrites.ReturnedWriteSurvives: the same.
- Safety.PickJobKeepsInv: the range of an L0 job misses no file and the outputs are cut between keys, because the result is false otherwise (see `PickL0SafeIff`, `HealthyAfterIff`).
- Safety.StepKeepsInv: all of these conditions, as guards of the steps they are about.
- Database.DB.Flush: file numbers are below 2^31 and keys below 4 GiB, as the snapshot's fields need.
- Database.DB.Compact: the same, and not the forced job with a single input file.
- Progress.CompactionTerminates: the trigger is not zero (see `ZeroTriggerRunsOn`).
- Progress.LoopSettles: the trigger is not zero.
- Versions.GetReadsNewest: tables are read by a linear scan; `StoredGetIs` says when the files answer the same.
- Database.GetImpl: the same.
- Runs.GetReadsLog: the same, see `StoredGetReadsLog`.
- Scanning.SourcesCover: the same for a scan, see `StoredSourcesAre`.
- Scanning.GatherSources: the same.
- Scanning.Scan: the same.
