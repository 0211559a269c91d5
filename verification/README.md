# SplitKV, modelled and proved

SplitKV is a key-value store that keeps keys and value pointers in a log-structured merge tree and the
values themselves in an append-only value log. A write goes to the value log, to a write-ahead log and to an
AVL memtable. Full memtables are flushed to sorted tables, tables are compacted level by level, and a garbage
collector rewrites and deletes old value-log segments. This project states what that machinery promises and
proves it: a client sees a plain map, whatever runs in the background and wherever the process crashes.

`dafny verify dfyconfig.toml` checks everything.

## How it is built

**The engine as a state machine** (`Engine`). A step is what one thread does while it holds the locks:
append a value, log a record, apply it, rotate the memtable, install a flushed table, pop the flushed
memtable, pick, merge and install a compaction, save the manifest, the steps of a collection, a crash, the
steps of a replay. Everything else may happen between two steps. `Storage` proves that a lookup always
finds the last record logged for a key. `Values` proves that this record points at the right value.
`Refinement` joins the two into the main theorem, `Histories` and `TwoPhaseGet` draw the conclusions about
whole runs. A run is *safe* if it deletes no segment in which a key's last record lies behind a torn record.
The theorems hold for safe runs, and `Histories.EngineRefinesMapIff` proves that in every other run some
lookup goes wrong.

**The same operations as code.** `Database` holds the class `DBImpl`, whose methods work on memtable objects,
tables, value-log segments and log files, and whose contracts say what a plain map would do. `MergeLoop` is the
compaction loop, `FullCompaction` the theory behind compacting the whole range, `Lookups` the search loops.
Each method is shown to be a run of the engine's steps, so the state machine's theorems cover
what happens when they interleave.

**The structures underneath.** `AvlTree` is the pointer tree with its explicit-stack iterator, proved
against `AvlModel`. `MemTables` adds the accounting. `WriteAheadLog`, `ValueLog` and `SegmentedLog`,
`TableFormat` and `SSTables`, `Bloom`, `Crc32c` and `Coding` go down to bytes; `Checksums` is what the logs ask of a
checksum. `Layers` says how the engine's
log, tables, segments and pointers lie in those bytes, torn records included. `Archive` discharges its
assumptions for every safe run, `Disk` looks a key up through files that match a state, and `FileRuns` proves that
the files of a run always do. `TableIds` is why the files of compacted tables can be deleted.

What the plain map is, and what a batch, a merge, a collection or a record's bytes mean, is stated besides by
properties that do not mention the functions the proofs run on: the last write of a key wins
(`Histories.LastPutIsRead`, `Database.DBImpl.Write`), a merge keeps the newest version (`FullCompaction.MergeHolds`),
a segment is collected by the share of its dead bytes (`Database.DBImpl.RunGC`), damage stops a replay
(`WriteAheadLog.DamageStopsRecovery`), the checksum has its published value (`Crc32c.CheckValue`), and the formats
have their layouts.

Conventions: keys are ordered through `Rank`, an embedding of byte strings in the reals that is proved to be
the lexicographic order. A deletion reads like an absent key, so statements about lookups are up to
`Matches`, which identifies the two. Registers of the checksum are 32 bits written as sequences.

## What was found

- Collecting a segment that has a torn record in the middle loses data. After a crash the value log goes on
  appending behind the torn record. A later scan stops at the tear, but the segment is deleted all the same,
  and the values behind the tear become unreadable.
  `Histories.CollectingATornSegmentLosesAValue` is such a run. `Database.DBImpl.RunGC` says exactly which keys a
  collection loses, and that it keeps the database whole if and only if there is none, a condition on the
  state before the call; `Histories.DeleteIsSafeIff` is the same for the delete step alone.
- The comment in `MemTable::Put` says that an overwrite is always charged; the code charges a key once, and
  the model follows the code.

## Assumptions

- I/O calls succeed. One compaction and one collection run at a time. Each value-log append is indivisible.
- A crash is a process crash: completed log appends survive. If a value-log append is under way it may leave a
  torn record at the end of the active segment, or a new segment that is empty or holds a torn record, and a
  torn record stops a scan.
- A step that writes a table writes its whole file. Files that no table in use has may be deleted at any step, a
  freedom of which the code uses only part.
- A manifest save is one snapshot of the tables and the next table id, and may happen at any moment. A flushed
  table takes its id when it is installed, where the code draws it before writing the file. In the state
  machine a replay may flush after any record, where the code does so only between files;
  `Database.DBImpl.Recover` follows the code.
- Lengths fit their 32-bit fields, file offsets and sequence numbers 64 bits.
- Clocks, the file system and `MurmurHash` are parameters or absent: files are byte sequences with append
  and positioned read, and the filter works over any hash function.

## Model

| member | source | states |
|---|---|---|
| `Refinement.EngineRefinesMap` | src/db_impl.cpp:227-874 | in every safe run, one that deletes no segment in which a key's last record lies behind a tear, however batch writes, rotations, flush installs and pops, compactions, collections, manifest saves, crashes and replays interleave, a lookup at any serving moment returns exactly what a plain map holds after the writes logged so far |
| `Histories.EngineRefinesMapIff` | src/db_impl.cpp:227-874 | for every run: at every serving moment every lookup answers as the map if and only if the run is safe |
| `Refinement.StepKeeps` | src/db_impl.cpp:227-874 | each of the 21 steps keeps the engine invariant and changes the map it stands for only as a write does; the one side condition is on deleting a segment with a tear in it |
| `Refinement.GetIsSpec` | src/db_impl.cpp:260-318 | under the invariant a lookup finds the map's value, reports absent exactly when the map has no such key, and never meets an unreadable pointer |
| `Refinement.RunInv` | src/db_impl.cpp:227-874 | the invariant holds in every state of every safe run from a fresh database with at least one level |
| `Histories.LastPutIsRead` | src/db_impl.cpp:233-243 | at every serving moment of a safe run a lookup returns the value of the last logged put of the key, if no write of the key was logged after it, whatever flushes, compactions, collections, crashes and replays came since |
| `Histories.DeletedStaysDeleted` | src/db_impl.cpp:244-248 | at every serving moment of a safe run a key whose last logged write is a delete is not found |
| `Histories.UnwrittenIsNotFound` | src/db_impl.cpp:312 | a key that no step wrote is not found |
| `Histories.LastPutWins` | src/db_impl.cpp:233-243 | over the steps alone: the map the engine refines holds, for a key whose last write is a put, exactly the value put |
| `Histories.LastDeleteWins` | src/db_impl.cpp:244-248 | likewise: a key whose last write is a delete is not in that map |
| `Histories.UnwrittenIsAbsent` | src/db_impl.cpp:227-256 | likewise: a key that was never written is not in it |
| `Histories.EngineRefinesMapUntorn` | src/db_impl.cpp:227-874 | the refinement with a condition a caller can check: it holds in every run in which no crash tears a value-log record |
| `Histories.NoResurrection` | src/db_impl.cpp:532-555 | between two serving moments of a safe run a key's visible sequence number never falls, an absent key returns only through a record logged later, and no visible entry points into a deleted segment |
| `Histories.RunExtends` | src/db_impl.cpp:227-256 | the log only grows and a deleted segment id never comes back, over any stretch of any run, safe or not |
| `Histories.RecoveryFoldsLog` | src/db_impl.cpp:91-136 | in a safe run, after a crash at any step and a full replay, with flushes in mid-replay and older data in tables, every lookup is the fold of all logged records, and the new sequence counter exceeds each of them |
| `Histories.DeleteIsSafeIff` | src/db_impl.cpp:860-871 | deleting a rewritten segment changes no answer if and only if no key's last record lies behind a torn record of that segment |
| `Histories.CollectingATornSegmentLosesAValue` | src/vlog.cpp:337-346 | a concrete 15-step run, with a tear left by an append that a crash interrupts, in which collecting a segment with a tear in it makes a stored value unreadable, because the scan stops at the tear and the segment is deleted all the same |
| `TwoPhaseGet.TwoPhaseGetLinearizes` | src/db_impl.cpp:264-307 | in a safe run a lookup that finds the key in memory at one moment, or else in the tables at a later one, with any steps in between, selects an entry that was the key's current one at some moment from the first to the second |
| `TwoPhaseGet.TwoPhaseGetAnswers` | src/db_impl.cpp:264-317 | in a safe run, with the value read at a third moment and under no lock: the key is reported absent only if the map had no such key at some moment of the window, and a value that can still be read is the one the map held at some moment of the window |
| `TwoPhaseGet.WindowKeeps` | src/db_impl.cpp:355-361 | in a safe run, what every step between the two halves keeps: everything in memory or first in the tables was current at some moment of the window, because a flush installs before it pops |
| `Storage.CommitKeeps` | src/db_impl.cpp:230-250 | logging a record keeps the storage invariant: first hit in lookup order is the last record logged for the key |
| `Storage.RotateKeeps` | src/db_impl.cpp:320-333 | moving the memtable to the back of the immutable queue changes no lookup |
| `Storage.FlushInstallKeeps` | src/db_impl.cpp:390-428 | installing the oldest immutable memtable in level 0 while it is still queued changes no lookup, and makes popping it harmless |
| `Storage.PopKeeps` | src/db_impl.cpp:358-361 | popping the flushed memtable later changes no lookup, whatever ran in between |
| `Storage.InstallKeepsDisk` | src/db_impl.cpp:617-649 | a compaction install keeps levels sorted and disjoint, stores only logged versions and keeps table ids unique |
| `Storage.InstallKeepsLastLevel` | src/db_impl.cpp:532-555 | with two or more levels the last level never holds a tombstone |
| `Storage.InstallKeepsLookup` | src/db_impl.cpp:433-649 | a compaction install changes no key's visible entry, except that a tombstone may become nothing |
| `Storage.RestartKeeps` | src/db_impl.cpp:168-213 | loading the saved tables after a crash, even with some tables unreadable, establishes the replay invariant |
| `Storage.ReplayRecordKeeps` | src/db_impl.cpp:112-121 | during replay the memtable and the tables flushed since the restart answer for the replayed prefix of the log |
| `Storage.ReplayFlushKeeps` | src/db_impl.cpp:124-129 | a flush in mid-replay keeps that, although it puts older versions above newer ones |
| `Storage.ReopenKeeps` | src/db_impl.cpp:132-135 | at the end of the replay every lookup answers from the log again |
| `Values.AppendKeepsRecords` | src/vlog.cpp:114-175 | an append, with or without rotation, leaves every readable record in place and never touches a closed segment |
| `Values.ScanKeeps` | src/db_impl.cpp:725-784 | after scanning a record, every current pointer into the scanned part of the segment is among the live positions |
| `Values.CopyKeeps` | src/db_impl.cpp:792-800 | copying a live record leaves every value as it is; the copy is outside the collected segment |
| `Values.SwapKeeps` | src/db_impl.cpp:802-857 | the compare-and-swap changes no value, never undoes a newer write, and leaves one current pointer less in the segment |
| `Values.DeleteKeeps` | src/db_impl.cpp:860-871 | when the segment is deleted no current entry points into it, provided nothing live lies behind a tear |
| `Values.LogPutKeeps` | src/db_impl.cpp:233-243 | a put makes exactly its key hold exactly its value, also while its segment is about to be collected |
| `Compaction.InstallKeepsLevels` | src/db_impl.cpp:617-649 | every level from 1 down stays sorted by smallest key with pairwise disjoint ranges, although next-level inputs may reach outside the compacted range |
| `Compaction.InstallHitAtLevel` | src/db_impl.cpp:433-649 | at the compacted level the first hit survives the install; only a tombstone with nothing below it may go, even if level 0 grew since the snapshot |
| `Compaction.InstallKeepsHits` | src/db_impl.cpp:433-649 | the same seen from every level at or above the compacted one |
| `Compaction.InstallKeepsNewestFirst` | src/db_impl.cpp:433-649 | the first hit of a lookup stays the newest version stored |
| `Compaction.KeptApart` | src/db_impl.cpp:449-469 | a next-level table that is not an input lies wholly below or wholly above every merged key |
| `Compaction.InstalledFromStored` | src/db_impl.cpp:617-649 | an install stores no version that was not stored before |
| `Lsm.LevelHitIs` | src/db_impl.cpp:292-305 | in a sorted level at most one table can hold a key, so the level answers with that table's entry |
| `FullCompaction.InstallKeepsNewest` | src/db_impl.cpp:433-664 | an undisturbed compaction below empty levels keeps exactly the newest stored versions, except newest tombstones with nothing older left |
| `FullCompaction.DroppedLeavesNothing` | src/db_impl.cpp:532-555 | where a tombstone is dropped no older version of the key is stored anywhere |
| `FullCompaction.LastLevelIsNewest` | src/db_impl.cpp:666-680 | with the upper levels empty, the last level holds for a key exactly the newest version stored at the start if that is a value, and nothing otherwise |
| `MergeLoop.FindMin` | src/db_impl.cpp:497-512 | the smallest key any iterator stands on, or that all are exhausted |
| `MergeLoop.FindWinner` | src/db_impl.cpp:514-530 | the index of the newest version of the key among the iterators, the first on a tie |
| `MergeLoop.ExistsDeeper` | src/db_impl.cpp:535-550 | whether any level from the given one down holds the key, asking tables only within their key range |
| `MergeLoop.AdvanceAll` | src/db_impl.cpp:593-598 | every iterator standing on the key moves by one and no other moves |
| `MergeLoop.Decide` | src/db_impl.cpp:514-555 | what is kept of the smallest key: its newest version, or nothing for a tombstone that no deeper level needs |
| `MergeLoop.AddEntry` | src/db_impl.cpp:557-591 | the output stays cut at the size limit with consecutive ids, and its entries are the old ones and the new one |
| `MergeLoop.MergeTables` | src/db_impl.cpp:470-615 | the merge terminates with a sorted disjoint run of tables that holds for every key exactly its merged entry, numbered in order and cut by size |
| `MergeLoop.ProgressStep` | src/db_impl.cpp:496-599 | one round of the merge: the run answers for every key up to the one just merged |
| `MergeLoop.RemainingFalls` | src/db_impl.cpp:593-598 | the total of remaining iterator entries strictly falls when an iterator advances |
| `Lists.EraseInputs` | src/db_impl.cpp:621-637 | erasing the inputs one by one by file id removes exactly the tables with those ids |
| `Operations.CompactKeeps` | src/db_impl.cpp:433-655 | a whole compaction, as a run of its steps, keeps the invariant for the same map |
| `Operations.RelocateKeeps` | src/db_impl.cpp:792-857 | a whole relocation of one record, as a run of its steps, keeps the invariant for the same map |
| `Lookups.ImmutableGet` | src/db_impl.cpp:271-277 | the first hit among the immutable memtables, newest first |
| `Lookups.LevelZeroGet` | src/db_impl.cpp:286-291 | the first hit in level 0, newest first |
| `Lookups.LevelGet` | src/db_impl.cpp:296-303 | the hit of a sorted level; skipping tables by key range loses nothing |
| `Lookups.TablesGet` | src/db_impl.cpp:282-307 | the first hit over all levels in order |
| `Database.DBImpl.constructor` | src/db_impl.cpp:25-33 | a fresh database stands for the empty map |
| `Database.DBImpl.Append` | src/vlog.cpp:114-175 | the record goes to the active segment, or to a new one exactly when it would overflow a non-empty one, the offset counter stays the size of the active segment, and the returned location is where the record lies |
| `Database.DBImpl.Write` | src/db_impl.cpp:227-258 | for every key, the last entry of the batch that names it decides: a put leaves exactly its value, a delete leaves nothing; keys the batch does not name keep what they had. The log grows by one record per entry, in order, with its key and kind and the next sequence numbers |
| `Database.DBImpl.MaybeScheduleFlush` | src/db_impl.cpp:320-333 | the memtable is rotated and a new log started exactly when it is full; no value changes |
| `Database.DBImpl.FindLatest` | src/db_impl.cpp:264-307 | the first hit in lookup order through real memtable objects and tables |
| `Database.DBImpl.Get` | src/db_impl.cpp:260-318 | returns the map's value for a key it has and not found for any other |
| `Database.DBImpl.FlushMemTable` | src/db_impl.cpp:390-431 | a non-empty memtable becomes a sorted table of level 0 with the next id and exactly its contents, and the manifest is saved; an empty one changes nothing |
| `Database.DBImpl.FlushOldest` | src/db_impl.cpp:345-361 | the oldest immutable memtable becomes the newest table of level 0, saved in the manifest, and leaves the queue; no value changes |
| `Database.DBImpl.FlushRound` | src/db_impl.cpp:345-386 | with nothing to flush nothing happens; otherwise the oldest immutable memtable leaves the queue, no level but the last is over its limit afterwards, and no value changes |
| `Database.DBImpl.CompactDue` | src/db_impl.cpp:364-384 | afterwards no level but the last is over its limit; four or more tables in level 0 have left it; with no level due nothing changes |
| `Database.NeedsCompaction` | src/db_impl.cpp:364-380 | level 0 is due with four tables, level n when its files exceed 10 MB times ten to the n - 1 |
| `Database.PowersMultiply` | src/db_impl.cpp:375-378 | the limits of the levels are powers: the factor from one level to the next is always the same |
| `Database.TotalSizeIsAdditive` | src/db_impl.cpp:370-374 | the size of a level is the sum of the sizes of its tables |
| `Database.KeyRange` | src/db_impl.cpp:449-459 | the smallest and the largest key of the inputs: bounds on all of them, each attained by a table |
| `Database.FindOverlapping` | src/db_impl.cpp:461-469 | exactly the next-level tables neither wholly above nor wholly below the range, in order |
| `Database.DBImpl.CompactLevel` | src/db_impl.cpp:433-664 | an invalid level is refused and an empty one left alone; otherwise the level is emptied and only the next one changes: its tables that overlap the level give way to tables that hold of every key exactly its newest version among those merged, a tombstone only if a table further down holds the key; the manifest is saved and no value changes |
| `FullCompaction.MergeHolds` | src/db_impl.cpp:514-555 | a version is in the merged tables if and only if it is the newest of its key among the inputs and, if a tombstone, some table two or more levels down holds the key |
| `Database.DBImpl.CompactRange` | src/db_impl.cpp:666-680 | leaves all levels but the last empty and the last holding exactly the newest version of each key whose newest version is a value; no value changes |
| `Database.DBImpl.OldestSegment` | src/db_impl.cpp:700-715 | the smallest segment id below the active one, if there is one |
| `Database.DBImpl.ScanSegment` | src/db_impl.cpp:717-787 | the positions up to the first tear whose record is the newest version of its key, and the bytes of both kinds |
| `Database.DBImpl.Swap` | src/db_impl.cpp:802-857 | the key is pointed at its copy, with a new sequence number and log record, exactly if its newest entry still is the original |
| `Database.DBImpl.RunGC` | src/db_impl.cpp:682-874 | collects the oldest closed segment if and only if its scan saw a record and the bytes of the scanned records that are not their key's newest version are at least the threshold's share of all scanned bytes: always when none is current and the threshold is at most one, never when all are and it is positive. After a collection the segment is gone, every key whose last record lay behind a tear of it is unreadable and every other key reads as the map says, so the database stays whole if and only if there was no such key |
| `Database.LiveOrDead` | src/db_impl.cpp:717-787 | the scanned bytes are those of the current records and those of the others |
| `Database.DBImpl.Recover` | src/db_impl.cpp:91-136 | after a crash, with any tables lost and whatever an interrupted append left, the database stands for the same map, the log is unchanged and the sequence counter exceeds every logged number; every saved table that still opens is back, and below level 0 nothing else is |
| `Database.DBImpl.ReplayFlushIfFull` | src/db_impl.cpp:124-129 | between two log files a full memtable, and only a full one, becomes the newest table of level 0 |
| `Bytes.RankIsLexicographic` | src/avl_tree.h:110-123 | the order used in all proofs is the unsigned byte-wise string order of the tree's comparator |
| `Bytes.FirstDifferenceDecides` | src/avl_tree.h:110-123 | that order, without recursion: one key is less if it agrees with the other up to a place where it ends or has the smaller byte |
| `AvlModel.BalanceRepairs` | src/avl_tree.h:195-218 | one single or double rotation repairs a height difference of two, in all four cases, and keeps heights exact |
| `AvlModel.InsertBalanced` | src/avl_tree.h:221-239 | insertion keeps exact heights and balance factors within one |
| `AvlModel.RemoveBalanced` | src/avl_tree.h:247-275 | removal, successor replacement included, keeps exact heights and balance factors within one |
| `AvlModel.InsertIsListInsert` | src/avl_tree.h:221-239 | insertion into the tree is insertion into its sorted in-order list |
| `AvlModel.RemoveIsListRemove` | src/avl_tree.h:247-275 | removal from the tree is removal from its sorted in-order list |
| `AvlModel.ListInsertIsUpdate` | src/avl_tree.h:103-107 | insertion is map update, keeps the list strictly ascending and grows it exactly when the key is new |
| `AvlModel.ListRemoveIsRemoval` | src/avl_tree.h:126-131 | removal is map removal, keeps the list strictly ascending and shrinks it exactly when the key was there |
| `AvlModel.LookupIsFind` | src/avl_tree.h:110-123 | the search path answers as the map does |
| `AvlModel.SizeAtLeastFib` | src/avl_tree.h:150-160 | a tree of height h holds at least Fib(h + 2) - 1 keys |
| `AvlModel.DepthIsLogarithmic` | src/avl_tree.h:150-160 | no path of the tree is longer than about twice the binary logarithm of the number of keys, the depth being measured and not the stored height |
| `AvlTree.Tree.SizeBound` | src/avl_tree.h:133-134 | the stored height of the root is the depth of the tree, and the size counter is at least Fib(h + 2) - 1 and at least 2 to the h / 2, less one |
| `AvlTree.RotateRight` | src/avl_tree.h:168-176 | the pointer rotation computes the model's rotation and reuses exactly the same nodes |
| `AvlTree.RotateLeft` | src/avl_tree.h:184-192 | likewise to the left |
| `AvlTree.Balance` | src/avl_tree.h:195-218 | the pointer rebalancing computes the model's, in all four cases |
| `AvlTree.InsertAt` | src/avl_tree.h:221-239 | recursive insertion on the pointer tree computes the model's tree, with only new nodes added, and reports whether the key was new |
| `AvlTree.RemoveAt` | src/avl_tree.h:247-275 | recursive removal on the pointer tree computes the model's tree within the old nodes, and reports whether the key was there |
| `AvlTree.FindMin` | src/avl_tree.h:241-244 | the node with the smallest key |
| `AvlTree.Tree.Insert` | src/avl_tree.h:103-107 | map update, with order, balance and the size counter kept |
| `AvlTree.Tree.Remove` | src/avl_tree.h:126-131 | map removal, with order, balance and the size counter kept |
| `AvlTree.Tree.Find` | src/avl_tree.h:110-123 | the map's value for the key, if any |
| `AvlTree.Iterator.PushLeft` | src/avl_tree.h:65-70 | the subtree's entries come before what the stack still had to visit |
| `AvlTree.Iterator.Next` | src/avl_tree.h:42-48 | the top entry is visited and the rest is what was left; at the end nothing happens |
| `AvlTree.Walk` | src/avl_tree.h:25-73 | a walk visits every entry exactly once in strictly increasing key order and terminates |
| `MemTables.FootprintInsert` | src/memtable.cpp:51-64 | a new key is charged its size once and an overwrite nothing |
| `MemTables.MemTable.Put` | src/memtable.cpp:41-67 | map update with a value entry, with exact memory accounting |
| `MemTables.MemTable.Delete` | src/memtable.cpp:70-93 | map update with a tombstone, with exact memory accounting |
| `MemTables.MemTable.Get` | src/memtable.cpp:96-106 | the map's entry for the key, if any |
| `MemTables.MemTable.ShouldFlush` | src/memtable.cpp:109-111 | true exactly when the lengths of the distinct keys plus 88 bytes for each reach the limit |
| `MemTables.MemTable.Count` | src/memtable.cpp:117-120 | the number of distinct keys |
| `MemTables.MemTable.GetSortedEntries` | src/memtable.cpp:123-136 | the memtable's map as a strictly ascending list |
| `Pointers.PointerRoundTrip` | src/memtable.cpp:15-31 | a value pointer decodes to itself, whatever follows it |
| `Crc32c.StepsAreLinear` | src/crc32.cpp:20-26 | shifting is linear over exclusive or, for any number of shifts |
| `Crc32c.TableStep` | src/crc32.cpp:49-51 | the table-driven byte update equals shifting the byte's eight bits into the register one at a time |
| `Crc32c.BuildTable` | src/crc32.cpp:16-29 | every table entry is the register after eight shifts of its index |
| `Crc32c.Crc32Extend` | src/crc32.cpp:44-53 | the table-driven checksum equals the bit-at-a-time shift register for every start value and every input |
| `Crc32c.PolynomialTerms` | src/crc32.cpp:17 | the polynomial has exactly the seventeen terms below the 32nd that section 12.1 of RFC 3720 gives |
| `Crc32c.CheckValue` | src/crc32.cpp:44-53 | the checksum of the digits 123456789 is the published 0xE3069283, which fixes the polynomial, the bit order and both inversions |
| `Crc32c.ExtendConcat` | src/crc32.h:8-18 | extending by one buffer and then another equals extending by their concatenation, in spite of the inversions |
| `Crc32c.UpdateIsInjective` | src/crc32.cpp:49-51 | the byte update is injective in the register and in the byte |
| `Crc32c.OneByteIsDetected` | src/crc32.cpp:44-53 | two inputs that differ in exactly one byte have different checksums |
| `Coding.Fixed32RoundTrip` | src/coding.cpp:12-39 | four little-endian bytes decode to what was encoded, whatever follows |
| `Coding.Fixed32Inverse` | src/coding.cpp:33-39 | any four bytes are the encoding of what they decode to |
| `Coding.Fixed64RoundTrip` | src/coding.cpp:21-51 | eight little-endian bytes decode to what was encoded, whatever follows |
| `Coding.FixedBytes` | src/coding.cpp:12-31 | byte by byte: the lowest eight bits come first |
| `Coding.EncodeVarint` | src/coding.cpp:57-76 | the encoding loop produces the seven-bit groups, lowest first |
| `Coding.ReadVarint` | src/coding.cpp:78-128 | the one-byte path and the general loop together are one decoder |
| `Coding.VarintRoundTrip` | src/coding.cpp:57-128 | decoding undoes encoding for every 32- and 64-bit value, whatever follows, and consumes exactly the encoded bytes |
| `Coding.VarintFitsBuffer` | src/coding.cpp:146-156 | an encoding takes at most 5 or 10 bytes |
| `Coding.VarintContinues` | src/coding.cpp:57-76 | the high bit is set on every byte but the last |
| `Coding.VarintRefusedIff` | src/coding.cpp:78-128 | a decoder fails if and only if no byte without the continuation bit comes in time, that is among the bytes given and the first 5 or 10 |
| `Coding.PrefixedSlicesRoundTrip` | src/coding.cpp:162-178 | any list of length-prefixed slices reads back as itself |
| `WriteAheadLog.Recover` | src/wal.cpp:130-247 | the recovery loop returns everything up to the first record that is cut short, does not parse or fails its checksum |
| `WriteAheadLog.TornTail` | src/wal.cpp:47-247 | from any byte prefix of a log, recovery returns exactly the records wholly contained in it, in order with all fields, for any checksum function |
| `WriteAheadLog.WholeRecordsIsLargest` | src/wal.cpp:158-175 | the number of records returned is the largest whose encodings fit in the prefix |
| `WriteAheadLog.LogRoundTrip` | src/wal.cpp:47-247 | an undamaged log reads back as itself |
| `WriteAheadLog.DamageStopsRecovery` | src/wal.cpp:185-198 | in any log, one changed byte of a record outside its length field makes recovery return exactly the records in front of it, for any checksum that detects one changed byte |
| `WriteAheadLog.Crc32cStopsRecovery` | src/wal.cpp:185-198 | the same for CRC32C, with no assumption left |
| `WriteAheadLog.RecordLayout` | src/wal.cpp:47-107 | where checksum, length and content of a record lie |
| `WriteAheadLog.Log.AddRecord` | src/wal.cpp:47-107 | appends exactly the record's encoding to the file |
| `ValueLog.ReadBack` | src/vlog.cpp:193-269 | a record reads back with its key and value through a pointer to it, wherever it lies and whatever the checksum |
| `ValueLog.CorruptionIsDetected` | src/vlog.cpp:215-266 | any single changed byte of a record outside its key-length field makes a read report corruption, for a checksum that detects one changed byte |
| `ValueLog.Crc32cDetectsCorruption` | src/vlog.cpp:215-266 | the same for CRC32C, with no assumption left |
| `ValueLog.WrongSizeIsRefused` | src/vlog.cpp:219-241 | a pointer to a record whose size is not that of the value is answered with corruption, as long as the lengths add up within 32 bits |
| `ValueLog.NewReader` | src/vlog.cpp:272-362 | the scanning loop reports everything up to the first damage, with offsets |
| `ValueLog.ScanIsExact` | src/vlog.cpp:296-358 | a scan of any byte prefix of a segment reports exactly the whole records in it, in order, at their offsets |
| `ValueLog.DamageStopsScan` | src/vlog.cpp:337-346 | in any segment, one changed byte of a record outside its two length fields makes the scan report exactly the records in front of it |
| `SegmentedLog.AppendOnly` | src/vlog.cpp:90-175 | over any run of appends and rotations every returned pointer differs from every other one, earlier ones included, and at the end still leads to its record, and so does every older one |
| `SegmentedLog.PlaceReadsBack` | src/vlog.cpp:193-269 | a pointer that leads to a record reads it back from the segment's bytes |
| `SegmentedLog.RunKeepsSizes` | src/vlog.cpp:124-129 | over any run every segment stays within the size limit or holds a single record |
| `SegmentedLog.RunPacks` | src/vlog.cpp:124-129 | segments are numbered without gaps, and none is closed for a record that would have fitted in it |
| `SegmentedLog.VLog.RotateFile` | src/vlog.cpp:90-111 | the next segment id becomes active and empty |
| `SegmentedLog.VLog.Append` | src/vlog.cpp:114-175 | the bytes on disk follow the append-only model, and the returned location is the one the model gives |
| `SegmentedLog.VLog.ReadAt` | src/vlog.cpp:193-269 | a pointer that leads to a record returns its key and value |
| `SegmentedLog.VLog.Scan` | src/vlog.cpp:272-362 | a scan from offset 0 reports exactly the segment's records, in order, at their pointer offsets |
| `Bloom.CreateFilter` | src/bloom_filter.cpp:76-105 | the filter has the size the source computes, and exactly the positions of the keys are marked |
| `Bloom.MayContain` | src/bloom_filter.cpp:114-131 | true exactly if every position of the key is marked; an empty filter rejects everything |
| `Bloom.NoFalseNegatives` | src/bloom_filter.cpp:76-131 | a filter never rejects a key it was built from, for any hash function |
| `Bloom.DoubleHashing` | src/bloom_filter.cpp:76-131 | the first position is the first hash reduced to the filter, and each further one is the second hash away from the last, with the seeds of the source |
| `TableFormat.EntryRoundTrip` | src/sstable.cpp:49-64 | an entry parses back to itself, whatever follows, and consumes exactly its bytes |
| `TableFormat.ReadEntryAt` | src/sstable.cpp:242-302 | the reads of 64, 128 and all bytes together parse the entry at the offset, or fail exactly when it is truncated or its length is malformed |
| `TableFormat.ReadsEntry` | src/sstable.cpp:242-302 | reading at the offset of the i-th entry yields it and the offset of the next |
| `TableFormat.LoadSparseIndex` | src/sstable.cpp:193-224 | the loading loop parses the whole index, or fails exactly when it is malformed |
| `TableFormat.IndexRoundTrip` | src/sstable.cpp:70-79 | an index reads back as itself |
| `TableFormat.OpenRoundTrip` | src/sstable.cpp:66-128 | a finished file opens with the index, the filter, the count and the data end it was written with |
| `TableFormat.WrongMagicIsRefused` | src/sstable.cpp:155-178 | a file shorter than a footer, or whose last eight bytes are not the magic number, does not open |
| `TableFormat.MagicBytes` | src/sstable.cpp:8 | the eight bytes of the magic number as they lie in the file |
| `TableFormat.EntryLayout` | src/sstable.cpp:49-64 | where length, key, type, sequence number and pointer of an entry lie |
| `TableFormat.FileLayout` | src/sstable.cpp:66-128 | where data, index, filter and the six footer fields lie |
| `SSTables.Writer.Add` | src/sstable.cpp:22-64 | appends the entry, indexes the first and every interval-th entry, keeps smallest and largest key; refused after finishing |
| `SSTables.Writer.Finish` | src/sstable.cpp:66-128 | the finished file opens as a reader of exactly the entries added, if they ascend; a second call is refused |
| `SSTables.Store` | src/sstable.cpp:22-128 | for every strictly ascending list and every interval, writing and finishing gives a file that opens as a reader of exactly that list, with exactly every interval-th entry indexed |
| `SSTables.FindBlock` | src/sstable.cpp:313-331 | the binary search separates the index around the key |
| `SSTables.OnlyInBlock` | src/sstable.cpp:313-336 | the key can lie only in the block the search picks |
| `SSTables.ScanBlock` | src/sstable.cpp:337-358 | the linear scan of that block answers for the whole list |
| `SSTables.RejectedIsAbsent` | src/sstable.cpp:305-307 | a key the stored filter rejects is not in the list |
| `SSTables.Get` | src/sstable.cpp:304-359 | a table lookup equals lookup in the list the table was written from, for every key |
| `SSTables.Iterator.SeekToFirst` | src/sstable.cpp:376-379 | stands on the first entry, or is invalid for an empty table |
| `SSTables.Iterator.Next` | src/sstable.cpp:424-427 | moves to the next entry, or becomes invalid after the last |
| `SSTables.Iterator.Seek` | src/sstable.cpp:381-418 | stands on the first entry not below the target, or is invalid when there is none |
| `SSTables.ReadAll` | src/sstable.cpp:376-453 | iteration yields exactly the list, in order |
| `Layers.OffsetNamesPosition` | src/db_impl.cpp:772-774 | comparing byte offsets, as the liveness test does, is comparing positions, whatever bytes torn records left in the segment |
| `Layers.OffsetsStay` | src/vlog.cpp:156-161 | a position keeps its byte offset when the segment grows |
| `Layers.SlotReadsBack` | src/vlog.cpp:193-269 | reading a segment file at a record's offset yields the engine's record, whatever tears surround it |
| `Layers.PointerNamesRecord` | src/db_impl.cpp:772-774 | a byte pointer translates back to the record it was made for |
| `Layers.CrashKeepsAPrefix` | src/db_impl.cpp:107-122 | for any translation of pointers that can be undone, a crash that leaves any byte prefix of a log leaves the engine exactly the records whose bytes are all there |
| `Layers.TableLookupIsFind` | src/db_impl.cpp:286-303 | a lookup in the table's list of stored entries finds what the engine's table holds for the key |
| `Layers.DataBytesIsBlockSize` | src/db_impl.cpp:580-591 | the size by which a compaction cuts its output tables is the size of their data blocks in the file |
| `Archive.RunArchive` | src/db_impl.cpp:233-243 | in every safe run every record ever logged points at a value-log record of its key, deleted segments included |
| `Archive.LogSurvivesCrash` | src/db_impl.cpp:91-122 | in every safe run the bytes of the log with the real byte pointers, cut anywhere, replay to exactly the engine's records whose bytes are all there, whatever has been collected since |
| `Disk.WriteTable` | src/db_impl.cpp:398-424 | writing a table puts a file on disk that opens as a reader of exactly its entries, and leaves other files alone |
| `Disk.TablesGet` | src/db_impl.cpp:280-307 | searching the table files level by level finds the stored form of the engine's hit |
| `Disk.ReadValue` | src/db_impl.cpp:309-317 | reading the segment file at the stored pointer yields the engine's value |
| `Disk.Get` | src/db_impl.cpp:260-318 | when the files hold the tables and segments of a state, a lookup through memtables, table files and segment files with torn gaps in them returns what the plain map holds |
| `FileRuns.AppendKeepsFiles` | src/vlog.cpp:114-175 | an append adds exactly the bytes of one record to the active or a new segment file, and the files go on being the images of the segments |
| `FileRuns.AppendedAtTheEnd` | src/vlog.cpp:150-156 | the offset an append returns is the size the file had |
| `FileRuns.StepKeepsTables` | src/db_impl.cpp:390-431 | every step keeps the files of the tables in use and of the saved manifest intact: new tables never take an id that is in use or saved |
| `FileRuns.RunOnDisk` | src/db_impl.cpp:227-874 | at every moment of a safe run, files that change only as its steps change them hold the engine's segments, torn bytes included, and tables |
| `FileRuns.GetInRun` | src/db_impl.cpp:260-318 | at every serving moment of a safe run a lookup through the memtables and the files of the run, with its real byte pointers, returns what the plain map holds after the writes logged so far |
| `TableIds.RunIds` | src/db_impl.cpp:393-397 | in every safe run no two tables of the levels, of the manifest or of a pending compaction share an id |
| `TableIds.InputFilesMayGo` | src/db_impl.cpp:655-661 | deleting the files of a compaction's inputs once it is installed touches no table in use |

## Left out

- Database.DBImpl: its tables, logs and segments are values rather than files; `Layers`, `Archive`, `Disk` and `FileRuns` connect them to the byte formats from outside its methods.
- Database.DBImpl.RunGC: runs undisturbed; collection interleaved with writers, flushes and compactions is covered by `Refinement.EngineRefinesMap`. The garbage ratio is computed in the reals.
- Database.DBImpl.CompactRange: the full result is for an undisturbed call, as the newest versions may otherwise change meanwhile.
- Histories.RecoveryFoldsLog: the log is what survived; that the bytes a crash leaves are a prefix of whole records is `Archive.LogSurvivesCrash`.
- ValueLog.CorruptionIsDetected: a changed key-length byte is excluded, since the record's extent then changes and the read computes a 32-bit length that may wrap.
- WriteAheadLog.DamageStopsRecovery: a changed byte of the length field is excluded, since the checksum is then taken of other bytes.
- ValueLog.DamageStopsScan: changed bytes of the two length fields are excluded for the same reason.
- ValueLog.NewReader: a torn record followed by further records is not shown to stop the scan, as that depends on the checksum of the bytes that follow.
- Manifest text format: modelled as a saved list of tables; keys with white space or empty keys do not read back in the source.
- Flush liveness: the wait condition is read under another lock than the one it is changed under, so no claim is made that every rotated memtable is flushed.
- Destructor: it flushes the active memtable before older immutable ones; reopening relies on the replay.
- The final value-log read of `Get` racing with a segment deletion: `TwoPhaseGet.TwoPhaseGetAnswers` says that the answer is right unless the segment is gone; how often that happens is not modelled.
- Batch atomicity across a crash: each entry of a batch is its own log record, so only the prefix property holds.
- `SSTableReader::LargestKey`: approximate in the source; the writer's metadata is modelled.
- Bloom false-positive rate, hash internals, statistics, command-line and network tools, benchmarks, status strings: no law of the engine depends on them.
