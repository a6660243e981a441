# A verified model of MyNews' two storage libraries

The application vendors two libraries that carry all of its state handling: LevelDB, a log-structured
key-value store, and nanopb, a protobuf encoder and decoder. This project models both in Dafny and proves
what they promise. `dafny verify dfyconfig.toml` checks everything.

## LevelDB

An entry is a user key, a sequence number, a type (value or deletion) and a value. The meaning of a read is
stated once, naively, over a set of entries: the newest entry of the key at or below the snapshot decides.
Everything else is measured against that.

- **Lookup.** `Versions` proves that memtable, immutable memtable, level 0 newest first and one
  binary-searched file per deeper level answer exactly the naive read, also when a user key spans two files
  of one level. `Files` holds the searches over one level, with the restarting loop of
  `GetOverlappingInputs`.
- **Compaction.** `Compactions` and `CompactionWork` model the loop with its monotone cursors and prove which
  entries survive, where the outputs are cut and why, and how many grandparent bytes each overlaps;
  `CompactionMeaning` proves that no live read changes while what stays outside the inputs is newer. `Picking` and
  `PickedInputs` prove which inputs `PickCompaction` and `SetupOtherInputs` choose, what that guarantees, and that a
  memtable flush installed in the middle cannot collide with the outputs.
- **Two boundary cases.** `PickCompaction` does not check what files outside the inputs hold of their user keys. Above
  level 0 it starts from one file: `CompactionLookups.PickSplit` runs it on a searchable version where it takes the
  newer of two files that share a key, to be moved down, and `CompactionLookups.GetAfterSplit` gets the old value. At
  every level the inputs below are the files that overlap those above, no more: `DroppedDeletion.CompactUncovering` runs
  it, and the compaction, from level 0 on a version where the deletion of a key is an input and the value it hides is
  not, and `DroppedDeletion.GetUncovered` gets that value. `CompactionReads.CompactionAnswersIff` says, in terms of the
  inputs and of what stays outside them, exactly when every answer of `Version::Get` to a live snapshot is the read
  before the compaction. The step systems therefore require closed inputs (`Closed`) to start one.
- **Whole runs.** `Engine` and `EngineProof` interleave inserts, publication, switches, flushes, compactions,
  moves and snapshots; `Durable*` adds the files: logs, tables, the manifest, pinned versions, garbage
  collection, crashes at any step and recovery, including crashes during recovery. A step is one stretch of
  code between two releases of the mutex, or one file operation. `DurableAdds` proves that no level is ever given
  a file number twice, so the one builder of `VersionSet::Recover` reads back what the edits produced;
  `DurableReads` that reads are right while a version is being installed; `DurableRuns` and `DurableReopen` that
  recovery finds all it needs in every reachable state, that it can be completed, and what the reopened store reads;
  `DurableBytes` that it does so from the bytes of the manifest and the logs, however a crash has cut them.
- **Files on disk.** `LogFormat`, `LogReader` and `LogRoundTrip` cover the block-fragmented log and torn tails,
  `LogSeek` reading from an offset, `LogDamage` reading any bytes at all; `VersionEdits`, `VersionBuilder`, `Manifest` and `ManifestReplay` the manifest;
  `WriteBatches` the bytes of a batch and `LogRecovery` the replay of a log into memtables; `EditDamage` and
  `BatchDamage` records that are not as they were written; `DurableEdits` that what `LogAndApply` writes is what the
  step system assumes;
  `ObsoleteFiles` and `FileRefs` what may be deleted.
- **Self-contained algorithms.** `DbIter` (the bidirectional iterator against a cursor over the live list),
  `SkipLists` (every single pointer store, with a concurrent reader), `GroupCommit` (the writer queue),
  `Snapshots`, `DbFormat`.

## nanopb

`PbSchema` describes message types and structures, `PbWire` the wire format, `PbEncoding` and `PbDecoding`
what is written and what is read as functions, and `PbEncoder`, `PbDecoder`, `PbIterator` and `PbRequired` the
streams, the iterator and the bitmap as the source has them, proved against those functions.
The main results are the round trip (`PbRoundTrip`), the merge law (`PbDecoding`), the two-pass sizing
protocol (`PbEncoder`), exactly when an input lacks what is required of it (`PbMissing`), that a reader with other
fields than the writer loses nothing of its own (`PbOlderReader`), and that any input that decodes gives a well-formed
message (`PbWellFormed`).
`BYTES_HEADER` is 4 because the application builds nanopb with `PB_FIELD_32BIT`.

## Reading the proofs

Objects the source updates in place are classes whose methods are proved against functions; concurrent
behaviour is a step system with an invariant. Every lemma carries `{:induction false}`: each induction is
written out. Three results differ from what an operation promises. `VersionEdit::Clear` leaves the compaction
pointers in place, so `DecodeFrom` inverts `EncodeTo` exactly when the edit decoded into has none
(`VersionEdits.RoundTripIff`). A reader that starts at an offset can report a drop in a log that is intact,
exactly when the record before the first one it returns goes on beyond the block the reader starts in
(`LogSeek.SeekIsQuietIff`). And the picked inputs of a compaction can change reads at any level, as said above.

## Model

| member | source | states |
|---|---|---|
| Entries.NewestExists | MyNews/Pods/leveldb-library/db/memtable.cc:108-142 | a read finds a newest entry if and only if some entry of the key is at or below the snapshot |
| Entries.SameNewestSameRead | MyNews/Pods/leveldb-library/db/db_impl.cc:1109-1154 | two collections of entries with the same newest visible entries give the same read |
| Files.FindFile | MyNews/Pods/leveldb-library/db/version_set.cc:86-105 | the binary search finds the first file that ends at or after the key: all earlier files end before it, no later one does |
| Files.SomeFileOverlapsRange | MyNews/Pods/leveldb-library/db/version_set.cc:107-156 | answers whether some file meets the user-key range, by a linear scan at level 0 and by one probe after a binary search elsewhere |
| Files.GetOverlappingInputs | MyNews/Pods/leveldb-library/db/version_set.cc:531-572 | terminates despite its restarts; at level 0 it returns exactly the files meeting the least range that contains [begin, end] and that no meeting file sticks out of; elsewhere exactly the files meeting [begin, end]; whatever the range gained is covered by the inputs |
| Files.FilterGrows | MyNews/Pods/leveldb-library/db/version_set.cc:1367-1373 | a wider range meets at least as many files, and the very same ones when the counts are equal |
| Files.GetRange | MyNews/Pods/leveldb-library/db/version_set.cc:1224-1247 | the tightest internal-key range around the files |
| Versions.SeekFindsNewest | MyNews/Pods/leveldb-library/db/version_set.cc:268-281 | one seek to (key, snapshot) in a sorted run finds the newest visible entry of the key, or shows there is none |
| Versions.MemGet | MyNews/Pods/leveldb-library/db/memtable.cc:108-142 | a hit is the newest visible entry of the memtable, a miss means there is none |
| Versions.Version.TableGet | MyNews/Pods/leveldb-library/db/version_set.cc:268-281 | with a filter that never hides a key, a table lookup finds the newest visible entry or shows there is none |
| Versions.Version.CoveringNewestFirst | MyNews/Pods/leveldb-library/db/version_set.cc:357-372 | exactly the level-0 files whose range holds the key, in descending file numbers |
| Versions.Version.GetLevelZero | MyNews/Pods/leveldb-library/db/version_set.cc:357-428 | stopping at the first level-0 file that answers gives the newest visible entry of the whole level |
| Versions.Version.GetDeeper | MyNews/Pods/leveldb-library/db/version_set.cc:373-428 | looking at the one file found by binary search gives the newest visible entry of the level, also when the user key spans two files |
| Versions.Version.Get | MyNews/Pods/leveldb-library/db/version_set.cc:332-429 | finds the newest visible entry of the shallowest level that has one, which is the newest of the version when deeper levels are older; a miss means no level has one |
| Versions.DbGet | MyNews/Pods/leveldb-library/db/db_impl.cc:1109-1154 | memtable, immutable memtable, then version: the result is the naive read over all entries of the store |
| Versions.ShallowestHit | MyNews/Pods/leveldb-library/db/version_set.cc:344-429 | under the level-order invariant a hit at the shallowest level that has the key beats every deeper level |
| Versions.SearchedFile | MyNews/Pods/leveldb-library/db/version_set.cc:373-388 | what the binary search leaves to look at: the file at the index decides the read of its whole level |
| Versions.Version.PickLevelForMemTableOutput | MyNews/Pods/leveldb-library/db/version_set.cc:502-528 | the level is at most 2, no level down to it has a file meeting the range, and it stops only for an overlap one level down or too many overlapping bytes two levels down |
| Picking.FirstAfterPointer | MyNews/Pods/leveldb-library/db/version_set.cc:1305-1317 | the first file past the compaction pointer, or the first of the level when the pointer has passed them all |
| Picking.FirstAfterIsUnique | MyNews/Pods/leveldb-library/db/version_set.cc:1305-1317 | there is one such file |
| Picking.PickGoesOn | MyNews/Pods/leveldb-library/db/version_set.cc:1305-1317 | a file is not picked again while some file lies past the pointer its compaction left |
| Picking.SameMeeting | MyNews/Pods/leveldb-library/db/version_set.cc:1367-1373 | the growth step, guarded only by equal counts, keeps the very same level-L+1 inputs |
| Picking.GrowKeepsPicked | MyNews/Pods/leveldb-library/db/version_set.cc:1358-1389 | after the growth step the inputs are still gapless, isolated at level 0, and contain the old ones |
| Picking.GrownIsUnique | MyNews/Pods/leveldb-library/db/version_set.cc:1356-1389 | the growth step has one possible outcome |
| Picking.VersionSet.Grow | MyNews/Pods/leveldb-library/db/version_set.cc:1356-1389 | the level-L inputs become all level-L files the inputs of both levels reach (at level 0 those meeting the least closed range around them) exactly when there are level-L+1 inputs, these files are more, their bytes with those of level L+1 stay below the limit, and they meet no further level-L+1 file; otherwise nothing changes |
| Picking.VersionSet.SetupOtherInputs | MyNews/Pods/leveldb-library/db/version_set.cc:1345-1411 | the level-L+1 inputs are exactly the files meeting the level-L inputs, which grow exactly when the growth step says so; the inputs together leave no gap between their ends, the grandparents are the files meeting them, and the pointer moves to the largest key |
| Picking.VersionSet.PickCompaction | MyNews/Pods/leveldb-library/db/version_set.cc:1291-1343 | an automatic pick exists exactly when something triggers it; it starts from the file past the pointer or the file of the seek trigger, at level 0 with all files of the least closed range around it, and its level-L inputs are that choice, grown exactly when the growth step says so; they are gapless, isolated at level 0 and complete at level L+1; the pointer moves to their largest key |
| Picking.MoveIsCheap | MyNews/Pods/leveldb-library/db/version_set.cc:1466-1474 | a trivial move moves one file that meets no file of the next level and at most ten target file sizes of the one after |
| PickedInputs.PickedIsReady | MyNews/Pods/leveldb-library/db/version_set.cc:1345-1411 | no other level-L+1 file interrupts the merged range of freshly picked inputs |
| PickedInputs.FlushMissesCompaction | MyNews/Pods/leveldb-library/db/version_set.cc:502-528 | a memtable file placed at the output level or deeper while the inputs are in the version lies wholly outside the range of the compaction |
| PickedInputs.FlushKeepsReady | MyNews/Pods/leveldb-library/db/db_impl.cc:917-926 | a flush installed in the middle of a compaction leaves the outputs installable |
| PickedInputs.FlushKeepsClosed | MyNews/Pods/leveldb-library/db/db_impl.cc:917-926 | a flush keeps the inputs older than what else their level holds of their keys |
| PickedInputs.TrivialMoveIff | MyNews/Pods/leveldb-library/db/db_impl.cc:717-734 | a trivial move keeps the version searchable if and only if the other files of its level hold nothing older of its keys |
| CompactionLookups.CompactionLooksUpIff | MyNews/Pods/leveldb-library/db/db_impl.cc:866-885 | after a compaction is installed, lookups find the newest visible entry of the installed version for all keys and snapshots if and only if no surviving input entry leaves an older entry of its key behind at level L |
| CompactionLookups.LookupsRightIff | MyNews/Pods/leveldb-library/db/version_set.cc:332-429 | the same in terms of the outputs: lookups are right if and only if what stays at level L is newer than what moved down |
| CompactionLookups.PickSplit | MyNews/Pods/leveldb-library/db/version_set.cc:1291-1343 | PickCompaction, run on two files of level 1 that share a user key, takes the newer one alone, as a trivial move |
| CompactionLookups.GetAfterSplit | MyNews/Pods/leveldb-library/db/version_set.cc:332-429 | after that move Version::Get answers with the old value while the newest entry says another |
| CompactionReads.DropsKeepReadsIff | MyNews/Pods/leveldb-library/db/db_impl.cc:945-972 | dropping entries changes no read of a live snapshot if and only if under each dropped deletion that a live reader can see lies nothing, or another deletion, outside the inputs |
| CompactionReads.CompactionKeepsReadsIff | MyNews/Pods/leveldb-library/db/db_impl.cc:866-885 | installing a compaction changes no read of a live snapshot under the same condition and no other |
| CompactionReads.CompactionAnswersIff | MyNews/Pods/leveldb-library/db/db_impl.cc:866-885 | every answer of Version::Get to a live snapshot after the installation is the read before it if and only if no dropped deletion uncovers a value and, for each surviving input a live reader can see, what level L keeps of its key up to it is nothing or reads the same |
| CompactionReads.NothingOlderNothingFound | MyNews/Pods/leveldb-library/db/version_set.cc:332-429 | the second half holds when no surviving input leaves an older entry of its key behind at level L |
| DroppedDeletion.CompactUncovering | MyNews/Pods/leveldb-library/db/version_set.cc:1291-1411 | PickCompaction from level 0 takes the file with a deletion but not the file with the value it hides, and the compaction drops the deletion |
| DroppedDeletion.OnlyUncovering | MyNews/Pods/leveldb-library/db/db_impl.cc:958-969 | the version installed is searchable and nothing older is left at level 0: only the condition on dropped deletions fails |
| DroppedDeletion.GetUncovered | MyNews/Pods/leveldb-library/db/version_set.cc:332-429 | Version::Get gives the deleted value afterwards, where it gave none before |
| Compactions.Compaction.AdvanceCursor | MyNews/Pods/leveldb-library/db/version_set.cc:1488-1500 | advancing one cursor past the files that end before the key decides whether a file of the level holds it |
| Compactions.Compaction.IsBaseLevelForKey | MyNews/Pods/leveldb-library/db/version_set.cc:1484-1503 | on nondecreasing keys the monotone cursors give the answer of a full scan of the levels from L+2 on |
| Compactions.Compaction.ShouldStopBefore | MyNews/Pods/leveldb-library/db/version_set.cc:1505-1526 | counts exactly the grandparent bytes that end between the previous key and this one, and says stop exactly when the sum since the last stop exceeds the limit |
| Compactions.BytesBetweenAdds | MyNews/Pods/leveldb-library/db/version_set.cc:1505-1526 | grandparent bytes of adjacent key ranges add up |
| CompactionWork.CutBefore | MyNews/Pods/leveldb-library/db/db_impl.cc:929-936 | the open output is closed before a key exactly when the grandparent bytes counted since the last stop pass the limit there; every closed output stays within the limit and no entry is lost |
| CompactionWork.ShouldDrop | MyNews/Pods/leveldb-library/db/db_impl.cc:939-973 | an entry is dropped exactly when a newer entry of its key at or below the smallest snapshot precedes it, or it is an old enough deletion with nothing deeper to hide |
| CompactionWork.AddToOutput | MyNews/Pods/leveldb-library/db/db_impl.cc:983-1004 | appends exactly that entry; an output is closed here only when it has grown to the size limit, and none reaches it before its last entry |
| CompactionWork.DoCompactionWork | MyNews/Pods/leveldb-library/db/db_impl.cc:887-1020 | the outputs, joined, are exactly the entries the drop rules keep, and each overlaps at most MaxGrandParentOverlapBytes of grandparents; no output reaches the size limit before its last entry, every output but the last was closed because it had reached it or because the grandparent bytes since the last stop pass the limit at the key that follows, and at every such key an output ends |
| CompactionMeaning.DroppedMeans | MyNews/Pods/leveldb-library/db/db_impl.cc:945-972 | looking back at one entry decides exactly: shadowed by a newer entry no live reader can miss, or a deletion with nothing below |
| CompactionMeaning.Survivors | MyNews/Pods/leveldb-library/db/db_impl.cc:945-972 | the surviving entries are exactly those neither shadowed nor obsolete |
| CompactionMeaning.CompactionKeepsReads | MyNews/Pods/leveldb-library/db/db_impl.cc:938-972 | every read at a snapshot at or above the smallest live one is the same before and after |
| CompactionOutputs.OutputsAreTables | MyNews/Pods/leveldb-library/db/db_impl.cc:813-885 | the outputs written as tables are valid, ordered and disjoint, and hold exactly the surviving entries |
| CompactionOutputs.FilterSorted | MyNews/Pods/leveldb-library/db/version_set.cc:1391-1395 | the grandparents are in order of their largest keys, which the cursor of ShouldStopBefore needs |
| Transitions.FlushKeepsOk | MyNews/Pods/leveldb-library/db/db_impl.cc:488-532 | adding the table of newer entries at the chosen level keeps the version searchable and adds exactly its entries |
| Transitions.InstallKeepsOrder | MyNews/Pods/leveldb-library/db/db_impl.cc:866-885 | the level order survives an installation if and only if what stays at level L is newer than what moves down |
| Transitions.InstallOkIff | MyNews/Pods/leveldb-library/db/db_impl.cc:866-885 | installing a compaction keeps the version searchable if and only if level L leaves nothing behind that is older than the outputs |
| Transitions.InputsOccurOnce | MyNews/Pods/leveldb-library/db/version_set.cc:1476-1482 | the entries of the inputs occur nowhere else in the version |
| EngineProof.FlushIsNewest | MyNews/Pods/leveldb-library/db/db_impl.cc:488-532 | the number taken before the mutex was released is still the newest of level 0 when the table is installed |
| EngineProof.StartIsSafe | MyNews/Pods/leveldb-library/db/db_impl.cc:958-969 | with closed inputs, dropping a base-level deletion can uncover nothing |
| EngineProof.FinishKeepsReads | MyNews/Pods/leveldb-library/db/db_impl.cc:866-885 | after the installation every live snapshot reads what the history says |
| EngineProof.NextKeepsInv | MyNews/Pods/leveldb-library/db/db_impl.cc:887-1053 | every step of the store keeps the invariant, compactions and flushes interleaved |
| EngineProof.ReachableReadsHistory | MyNews/Pods/leveldb-library/db/db_impl.cc:1109-1154 | in every reachable state lookup is applicable and a read at any live snapshot returns what the full history of writes says |
| Snapshots.SnapshotList.New | MyNews/Pods/leveldb-library/db/snapshot.h:42-51 | the new snapshot is linked at the newest end of the circular list, the others keep their order |
| Snapshots.SnapshotList.Delete | MyNews/Pods/leveldb-library/db/snapshot.h:53-58 | exactly that snapshot leaves the list and the ring stays linked both ways |
| Snapshots.SnapshotList.Oldest | MyNews/Pods/leveldb-library/db/snapshot.h:39 | the first element after the dummy head is the first snapshot still held |
| Snapshots.SnapshotList.Newest | MyNews/Pods/leveldb-library/db/snapshot.h:40 | the element before the dummy head is the last snapshot taken |
| Snapshots.SnapshotList.Empty | MyNews/Pods/leveldb-library/db/snapshot.h:38 | the head linked to itself means that no snapshot is held |
| Snapshots.TakingKeepsHeld | MyNews/Pods/leveldb-library/db/db_impl.cc:1175-1178 | taking a snapshot at a last sequence number that never goes down keeps the list ascending and bounded by it |
| Snapshots.ReleasingKeepsHeld | MyNews/Pods/leveldb-library/db/db_impl.cc:1180-1183 | releasing a snapshot keeps the list ascending, and the oldest one can only move up |
| DbIter.LiveListIsReads | MyNews/Pods/leveldb-library/db/db_iter.cc:173-203 | the list the iterator walks is exactly the set of keys that read as present, with the values they read as |
| DbIter.LiveSorted | MyNews/Pods/leveldb-library/db/db_iter.cc:146-171 | the keys of that list strictly ascend |
| DbIter.DBIter.FindNextUserEntry | MyNews/Pods/leveldb-library/db/db_iter.cc:173-203 | stops at the first live entry above the skipped key, or at the end when there is none; terminates |
| DbIter.DBIter.FindPrevUserEntry | MyNews/Pods/leveldb-library/db/db_iter.cc:232-272 | ends at the last live entry at or before the inner position, or invalid when there is none; terminates |
| DbIter.DBIter.Next | MyNews/Pods/leveldb-library/db/db_iter.cc:146-171 | moves the reference cursor forward, also when it has to change direction |
| DbIter.DBIter.Prev | MyNews/Pods/leveldb-library/db/db_iter.cc:205-230 | moves the reference cursor backward, also when it has to change direction |
| DbIter.DBIter.Seek | MyNews/Pods/leveldb-library/db/db_iter.cc:274-286 | moves the reference cursor to the first key at or after the target |
| DbIter.DBIter.SeekToFirst | MyNews/Pods/leveldb-library/db/db_iter.cc:288-297 | moves the reference cursor to the first key |
| DbIter.DBIter.SeekToLast | MyNews/Pods/leveldb-library/db/db_iter.cc:299-304 | moves the reference cursor to the last key |
| DbIter.RunOps | MyNews/Pods/leveldb-library/db/db_iter.cc:146-304 | after any legal call sequence validity, key and value are those of the reference cursor over the live list |
| LogFormat.Writer.EmitPhysicalRecord | MyNews/Pods/leveldb-library/db/log_writer.cc:84-109 | appends the seven header bytes and the payload, within the block |
| LogFormat.Writer.EmitFragment | MyNews/Pods/leveldb-library/db/log_writer.cc:45-80 | one turn of the loop pads out a block without room for a header and emits the longest fragment that fits, with the type its place in the record gives |
| LogFormat.Writer.AddRecord | MyNews/Pods/leveldb-library/db/log_writer.cc:36-82 | appends the record cut into fragments over blocks, an empty record as one header |
| LogFormat.FragmentStaysInBlock | MyNews/Pods/leveldb-library/db/log_writer.cc:44-69 | no fragment crosses a block boundary, only a fragment that fills its block is not the last, and an empty first fragment occurs exactly when a header just fits |
| LogReader.Reader.ReadPhysicalRecord | MyNews/Pods/leveldb-library/db/log_reader.cc:199-281 | gives the record, the end, the skip or the drop the bytes at the position call for, and reports what it drops |
| LogReader.Reader.SkipToInitialBlock | MyNews/Pods/leveldb-library/db/log_reader.cc:36-58 | starts at the block that can hold the first header at or after the initial offset |
| LogReader.Reader.HandleFragment | MyNews/Pods/leveldb-library/db/log_reader.cc:76-180 | one turn of the loop does what the fragment type and the state of the reassembly call for, reports included |
| LogReader.Reader.ReadRecord | MyNews/Pods/leveldb-library/db/log_reader.cc:60-182 | returns the next record of the file from where the reader stands, with its offset and the reports, seeking first if it has not; once the file has ended, nothing more |
| LogReader.Reader.Assemble | MyNews/Pods/leveldb-library/db/log_reader.cc:70-182 | the loop of ReadRecord puts together the next record and reports what it drops on the way |
| LogRoundTrip.ReadsRecord | MyNews/Pods/leveldb-library/db/log_reader.cc:60-182 | the fragments of one record are put together again, or the log ends if they are torn |
| LogRoundTrip.SkipsRecord | MyNews/Pods/leveldb-library/db/log_reader.cc:84-93 | fragments of a record whose first header is before the initial offset are passed over, never glued; exactly those at or after the offset are reported that follow one before it |
| LogRoundTrip.StartBlockMissesNothing | MyNews/Pods/leveldb-library/db/log_reader.cc:36-58 | the first block read does not start behind a header at or after the initial offset, inside a block trailer included |
| LogRoundTrip.StartBlockIsLatestIff | MyNews/Pods/leveldb-library/db/log_reader.cc:36-58 | nor does it start a block too early, except six bytes before the end of a block, where no header fits |
| LogRoundTrip.LogRoundTrips | MyNews/Pods/leveldb-library/db/log_reader.cc:60-182 | reading the file AddRecord wrote gives exactly the list of records, without a report |
| LogRoundTrip.TornLogReadsWholeRecords | MyNews/Pods/leveldb-library/db/log_reader.cc:60-182 | reading any byte prefix gives exactly the records lying wholly inside it, without a report |
| LogSeek.SeekReadsSuffix | MyNews/Pods/leveldb-library/db/log_reader.cc:36-93 | a reader with any initial offset returns exactly the records whose first header is at or after it and that lie wholly inside the file, and reports exactly what is left of the record before them where it goes on behind the block the reader starts in |
| LogSeek.SeekIsQuietIff | MyNews/Pods/leveldb-library/db/log_reader.cc:84-93 | seeking into an intact log reports nothing if and only if the reader starts at or after the offset, or no record starts before the offset, or the last one that does ends within the first block the reader looks at |
| LogSeek.SeekReportsIntactLog | MyNews/Pods/leveldb-library/db/log_reader.cc:84-93 | one intact record of 40000 bytes, read from offset 1, is reported as a drop of 7239 bytes |
| LogDamage.ReadIsIntact | MyNews/Pods/leveldb-library/db/log_reader.cc:199-281 | over any bytes: a fragment that is returned stands in the file with the checksum of its type and payload, inside one block |
| LogDamage.IntactIsRead | MyNews/Pods/leveldb-library/db/log_reader.cc:253-279 | a fragment that stands there intact is returned, or passed over in silence when it begins before the initial offset |
| LogDamage.DamageIsDropped | MyNews/Pods/leveldb-library/db/log_reader.cc:226-267 | where none stands, the rest of the block is given up and reported, but for a header of zeros and one the end of the file cuts short |
| LogDamage.ReturnedIsWritten | MyNews/Pods/leveldb-library/db/log_reader.cc:60-182 | over any bytes: a record that is returned is written in the file at the offset given, as one intact fragment or as several in the right order with nothing between them |
| LogDamage.AllReturnedAreWritten | MyNews/Pods/leveldb-library/db/log_reader.cc:60-182 | so is every record of a whole reading |
| LogDamage.AllIsAccountedFor | MyNews/Pods/leveldb-library/db/log_reader.cc:60-182 | over any bytes: what is taken from the file for a record is in the record or in a report, byte for byte; only a record begun at the end and not ended goes unreported |
| LogDamage.TypeSixIsSilent | MyNews/Pods/leveldb-library/db/log_reader.cc:161-178 | an intact fragment of an unknown type is reported, but for type 6, which is taken for a bad record and goes unmentioned |
| LogRoundTrip.ReadLog | MyNews/Pods/leveldb-library/db/db_impl.cc:411-458 | reading until there is no more gives the records and the reports of the reference reading |
| LogRoundTrip.ReadTornLog | MyNews/Pods/leveldb-library/db/db_impl.cc:411-458 | over what a crash left of a written log: the whole records, no report |
| Coding.VarintRoundTrip | MyNews/Pods/leveldb-library/db/version_edit.cc:41-86 | a varint is read back with what follows it |
| Coding.SliceRoundTrip | MyNews/Pods/leveldb-library/db/version_edit.cc:41-86 | a length-prefixed string is read back with what follows it |
| Coding.FixedRoundTrip | MyNews/Pods/leveldb-library/db/dbformat.cc:18-21 | a fixed-width little-endian integer is read back |
| VersionEdits.VersionEdit.Clear | MyNews/Pods/leveldb-library/db/version_edit.cc:26-39 | resets everything but the compaction pointers |
| VersionEdits.VersionEdit.EncodeTo | MyNews/Pods/leveldb-library/db/version_edit.cc:41-86 | writes the fields in the order of the format |
| VersionEdits.VersionEdit.DecodeFrom | MyNews/Pods/leveldb-library/db/version_edit.cc:109-210 | reads fields until the input ends; any malformed field is a corruption |
| EditDamage.TornEditIff | MyNews/Pods/leveldb-library/db/version_edit.cc:109-210 | a record cut short decodes exactly when it is cut between two fields, and then into what the fields before it say |
| EditDamage.UnknownIsCorrupt | MyNews/Pods/leveldb-library/db/version_edit.cc:109-210 | behind any fields, an unknown tag or a level there is not makes the record a corruption |
| VersionEdits.DecodesFields | MyNews/Pods/leveldb-library/db/version_edit.cc:109-210 | decoding the encoding of a list of fields applies them in order |
| VersionEdits.DecodeInvertsEncode | MyNews/Pods/leveldb-library/db/version_edit.cc:41-210 | DecodeFrom inverts EncodeTo, the compaction pointers already present staying in front |
| VersionEdits.RoundTripIff | MyNews/Pods/leveldb-library/db/version_edit.cc:26-39 | an edit comes back as itself if and only if it is decoded into one without compaction pointers |
| VersionEdits.RoundTrip | MyNews/Pods/leveldb-library/db/version_edit.cc:41-210 | decoding into a new edit gives back the edit encoded |
| VersionBuilder.SavedMeans | MyNews/Pods/leveldb-library/db/version_set.cc:711-757 | SaveTo yields the files of base and added that are not deleted, in order |
| VersionBuilder.EditMeans | MyNews/Pods/leveldb-library/db/version_set.cc:632-757 | after one edit a level has the additions of the edit and those of the files before that the edit does not delete; a file it both deletes and adds is there |
| VersionBuilder.OrderedUnique | MyNews/Pods/leveldb-library/db/version_set.cc:605-620 | a level is determined by its files: two lists in builder order with the same members are equal |
| VersionBuilder.ReplayEqualsHistory | MyNews/Pods/leveldb-library/db/version_set.cc:665-772 | applying all edits to one builder and saving once gives, per level, the same list as saving after each |
| Manifest.Builder.Apply | MyNews/Pods/leveldb-library/db/version_set.cc:665-709 | records deletions first, then additions, each addition taking its number off the deleted ones |
| Manifest.Builder.MaybeAddFile | MyNews/Pods/leveldb-library/db/version_set.cc:759-772 | drops a file whose number is deleted and keeps any other |
| Manifest.UpperBound | MyNews/Pods/leveldb-library/db/version_set.cc:725-731 | the first base file that comes after the added one, from the cursor on |
| Manifest.Builder.SaveLevel | MyNews/Pods/leveldb-library/db/version_set.cc:714-739 | the merge of base and added files, cut at each added file by upper_bound, leaves out exactly the deleted ones |
| Manifest.Builder.SaveTo | MyNews/Pods/leveldb-library/db/version_set.cc:711-757 | every level becomes the merge of its base and added files without the deleted ones |
| ManifestReplay.ReplayIsHistory | MyNews/Pods/leveldb-library/db/version_set.cc:939-1014 | with each (level, number) added at most once, one builder over all records gives the files and pointers of the edits applied one by one |
| ManifestReplay.SnapshotIsState | MyNews/Pods/leveldb-library/db/version_set.cc:1102-1130 | the snapshot edit, applied to nothing, is the version and its pointers |
| ManifestReplay.RecoverRecords | MyNews/Pods/leveldb-library/db/version_set.cc:939-1014 | decodes, checks and applies every record, and fails exactly when a record is corrupt, the comparator differs, or a counter is missing |
| ManifestReplay.Recover | MyNews/Pods/leveldb-library/db/version_set.cc:905-1025 | recovery over the bytes of the manifest is recovery over its whole records |
| ManifestReplay.RecoversHistory | MyNews/Pods/leveldb-library/db/version_set.cc:905-1006 | a manifest cut off anywhere: recovery succeeds exactly when its whole records name no other comparator and give all three counters, and then yields the version, pointers and numbers those records produced |
| ManifestReplay.VersionSet.WriteSnapshot | MyNews/Pods/leveldb-library/db/version_set.cc:1102-1130 | appends one record: the current files and pointers as an edit |
| ManifestReplay.VersionSet.NextVersion | MyNews/Pods/leveldb-library/db/version_set.cc:835-841 | Apply and SaveTo give the edited version, in order |
| ManifestReplay.VersionSet.LogAndApply | MyNews/Pods/leveldb-library/db/version_set.cc:820-903 | the last record of the manifest has the edit own files and pointers, its log numbers where it gives them and the current ones where it does not, and the current counters; these log numbers become the current ones, the counters stay, and the new state is the old one with the record applied; a first call puts a snapshot before it |
| DurableEdits.WriteEdit | MyNews/Pods/leveldb-library/db/version_set.cc:820-903 | on the version set of a running store, what LogAndApply writes of an edit that adds new tables carries the counters the steps of the store assume |
| DurableEdits.LogFlushed | MyNews/Pods/leveldb-library/db/db_impl.cc:531-563 | the edit of CompactMemTable names the current log, what LogAndApply writes of it is the flush step of the store, and installing that step leaves the version set driving the store |
| DurableEdits.LogFinished | MyNews/Pods/leveldb-library/db/db_impl.cc:866-885 | the edit of InstallCompactionResults names no log, so the one the manifest names stays; what LogAndApply writes of it is the step that ends the compaction |
| DurableEdits.DrivesInstalled | MyNews/Pods/leveldb-library/db/version_set.cc:884-893 | when the record is installed, version, log number, manifest and counters of version set and store agree again |
| ManifestReplay.Reopen | MyNews/Pods/leveldb-library/db/version_set.cc:905-1025 | recovering from the manifest that LogAndApply wrote gives back the version, its pointers and the log number |
| DurableFiles.LevelFollows | MyNews/Pods/leveldb-library/db/version_set.cc:711-757 | the list the builder saves for a level is the metadata of the edited level |
| DurableProof.CollectKeepsFiles | MyNews/Pods/leveldb-library/db/db_impl.cc:218-272 | deleting obsolete files deletes no table of a live version and no output of a running compaction |
| DurableProof.TailAfterFlush | MyNews/Pods/leveldb-library/db/db_impl.cc:534-565 | once the immutable memtable is in a table, only the current log is needed |
| DurableRecovery.RecoveredVersion | MyNews/Pods/leveldb-library/db/db_impl.cc:274-363 | whatever way recovery cuts the logs into tables, the files recover to the durable version plus exactly the entries of the logs not yet in it |
| DurableAdds.UpKeepsAdds | MyNews/Pods/leveldb-library/db/version_set.cc:820-903 | every step of the running store gives a level only file numbers it never had: flushed and compacted tables are new, moves go deeper |
| DurableAdds.OpenKeepsAdds | MyNews/Pods/leveldb-library/db/version_set.cc:1102-1130 | so does the manifest a newly opened store starts with |
| DurableAdds.ReadsBackRecord | MyNews/Pods/leveldb-library/db/version_set.cc:905-1006 | the one builder of Recover reads back the version, pointers and numbers the edits produced |
| DurableReads.NextKeepsReaders | MyNews/Pods/leveldb-library/db/db_impl.cc:534-565 | what readers hold while a version is installed stays a store whose reads are right, at every step |
| DurableRuns.NextSysKeeps | MyNews/Pods/leveldb-library/db/db_impl.cc:1490-1532 | every step, crashes and recoveries included, keeps the files recoverable, the manifest replayable and the readers right |
| DurableRuns.HistoryIsLogged | MyNews/Pods/leveldb-library/db/db_impl.cc:1222-1242 | the history consists of exactly the batches whose log records are complete |
| DurableRuns.RecoveryFindsAll | MyNews/Pods/leveldb-library/db/db_impl.cc:303-341 | in every reachable state, running or crashed, the manifest reads back with its three counters and the durable version, and every table of that version is on disk |
| DurableRuns.RecoveryReadsLogged | MyNews/Pods/leveldb-library/db/db_impl.cc:274-486 | whatever recovery arrives at is a searchable version whose reads are those of exactly the batches with complete log records, with a last sequence number above all of them |
| DurableRuns.OpenedReadsLogged | MyNews/Pods/leveldb-library/db/db_impl.cc:1490-1532 | a store just opened reads exactly what was logged, at every snapshot it can give out |
| DurableRuns.ReadersSeeLogged | MyNews/Pods/leveldb-library/db/db_impl.cc:1109-1154 | in every reachable state, also while a version is being installed, DBImpl::Get may be called on the memtables and the version readers hold, and every live snapshot reads what was logged |
| DurableRuns.LiveTablesExist | MyNews/Pods/leveldb-library/db/db_impl.cc:218-272 | in every reachable state each table of a referenced version and each output of a running compaction is on disk with its contents |
| DurableReopen.Reopens | MyNews/Pods/leveldb-library/db/db_impl.cc:1490-1532 | from any crashed state the steps of DB::Open can be taken to the end, however the logs are cut into memtables |
| DurableReopen.CrashRecovery | MyNews/Pods/leveldb-library/db/db_impl.cc:274-486 | wherever a run crashes, during recovery included, opening the store again succeeds without any write, and it then reads exactly the batches with complete log records, with a last sequence number above all of them |
| DurableReopen.CutExists | MyNews/Pods/leveldb-library/db/db_impl.cc:438-449 | what the logs hold can always be cut into memtables |
| DurableReopen.CrashIsRecoverable | MyNews/Pods/leveldb-library/db/db_impl.cc:274-486 | so every crash can be recovered from, whatever the run before it |
| DurableBytes.ManifestReadsBack | MyNews/Pods/leveldb-library/db/version_set.cc:905-1025 | over any prefix of the manifest that holds its whole records, VersionSet::Recover gives the state they say |
| DurableBytes.LogReadsBack | MyNews/Pods/leveldb-library/db/db_impl.cc:411-458 | over any such prefix of a log, its records give exactly the complete batches and their last sequence number |
| DurableBytes.RecoverLogs | MyNews/Pods/leveldb-library/db/db_impl.cc:343-361 | the log files the manifest still needs, in order, give tables of consecutive stretches of all their entries and the largest sequence number |
| DurableBytes.RecoverBytes | MyNews/Pods/leveldb-library/db/db_impl.cc:274-363 | in every reachable state, from any bytes a crash leaves of manifest and logs, recovery succeeds; its tables and last sequence number are those with which the run goes on to a store that reads exactly the batches with complete log records |
| WriteBatches.ContentsReadBack | MyNews/Pods/leveldb-library/db/write_batch.cc:42-80 | a batch is read back as its updates, numbered on from its sequence number, with their count and the number of the last |
| WriteBatches.ReadBackIff | MyNews/Pods/leveldb-library/db/write_batch.cc:111-134 | a list of entries comes back from its batch if and only if it is numbered on |
| WriteBatches.WriteBatch.SetSequence | MyNews/Pods/leveldb-library/db/write_batch.cc:90-96 | changes the sequence number and no update |
| WriteBatches.WriteBatch.Add | MyNews/Pods/leveldb-library/db/write_batch.cc:98-109 | Put and Delete append one update and count it |
| WriteBatches.WriteBatch.Append | MyNews/Pods/leveldb-library/db/write_batch.cc:141-145 | the updates of the other batch follow, counted |
| WriteBatches.Iterate | MyNews/Pods/leveldb-library/db/write_batch.cc:42-80 | inserts the updates up to the end or the first fault, with rising sequence numbers, and says which it was |
| WriteBatches.InsertInto | MyNews/Pods/leveldb-library/db/write_batch.cc:128-134 | the memtable receives the entries of the batch; success means that none was malformed and that there were as many as the header says |
| BatchDamage.TornRecords | MyNews/Pods/leveldb-library/db/write_batch.cc:42-80 | of a batch cut short the updates whose records are whole are handed over, and it is a fault unless the cut is between two records |
| BatchDamage.UnknownTypeFails | MyNews/Pods/leveldb-library/db/write_batch.cc:42-80 | a record of an unknown type is a fault: what is before it is handed over and nothing behind it |
| LogRecovery.CompleteBatches | MyNews/Pods/leveldb-library/db/db_impl.cc:411-458 | what a crash leaves of a log of batches decodes to exactly the batches whose records are complete, and their headers give the last sequence number |
| LogRecovery.RecordsAreApart | MyNews/Pods/leveldb-library/db/db_impl.cc:415-445 | every record is replayed by itself, whatever the records around it |
| LogRecovery.OneRecordReplayed | MyNews/Pods/leveldb-library/db/db_impl.cc:415-445 | a record too small to be a batch is passed over, any other leaves its entries |
| LogRecovery.Dump | MyNews/Pods/leveldb-library/db/db_impl.cc:488-532 | a memtable is written as one table of its entries, an empty one as none |
| LogRecovery.RecoverLogFile | MyNews/Pods/leveldb-library/db/db_impl.cc:365-486 | the tables hold the entries the records of the log give, cut into consecutive stretches: after the first batch that makes the memtable bigger than the write buffer, and nowhere else but at the end; the sequence number returned is the largest the headers give |
| ObsoleteFiles.AddLiveFiles | MyNews/Pods/leveldb-library/db/version_set.cc:1185-1196 | adds exactly the numbers listed at some level of some version |
| ObsoleteFiles.DeleteObsoleteFiles | MyNews/Pods/leveldb-library/db/db_impl.cc:218-272 | deletes exactly the names that are not needed: logs below the log number other than the previous log, older manifests, tables and temporary files neither live nor pending |
| ObsoleteFiles.DeletionIsCollection | MyNews/Pods/leveldb-library/db/db_impl.cc:218-272 | whatever part of that has happened before a crash is a collection step of the store |
| ObsoleteFiles.OnlyNeededStays | MyNews/Pods/leveldb-library/db/db_impl.cc:218-272 | when all of it is deleted, the tables left are those the store needs and the logs left those the manifest may still ask for |
| FileRefs.FileTable.Drop | MyNews/Pods/leveldb-library/db/version_set.cc:66-84 | a file object loses one reference and goes when it was the last |
| FileRefs.FileTable.Build | MyNews/Pods/leveldb-library/db/version_set.cc:632-662 | after a builder is gone, every file has as many references as there are versions listing it |
| FileRefs.FileTable.DeleteVersion | MyNews/Pods/leveldb-library/db/version_set.cc:66-84 | deleting a version takes one reference from each of its files, and the counts stay exact |
| FileRefs.InSomeVersion | MyNews/Pods/leveldb-library/db/version_set.cc:66-84 | a file object exists exactly as long as some version lists it |
| GroupCommit.BuildBatchGroup | MyNews/Pods/leveldb-library/db/db_impl.cc:1269-1314 | the group is the front of the queue up to the first writer that must not join: a sync writer behind a non-sync leader, or one whose batch makes it too large |
| GroupCommit.GroupIsBounded | MyNews/Pods/leveldb-library/db/db_impl.cc:1278-1301 | a group takes at most a megabyte beside the batch of its leader, and behind a batch of up to 128K at most 128K more |
| GroupCommit.StepsKeep | MyNews/Pods/leveldb-library/db/db_impl.cc:1194-1265 | every step of the queue keeps its invariant |
| GroupCommit.ReadsSeeWholeGroups | MyNews/Pods/leveldb-library/db/db_impl.cc:1211-1246 | a read at LastSequence sees exactly the published records, never part of a group |
| GroupCommit.HeadIsRunnable | MyNews/Pods/leveldb-library/db/db_impl.cc:1200-1262 | no lost wakeup: a queue without a leader has a head that can lead, and an answered writer can return |
| GroupCommit.GroupsAreConsecutive | MyNews/Pods/leveldb-library/db/db_impl.cc:1211-1246 | records take consecutive disjoint ranges of sequence numbers, hold the batches of their members in order, and a record with a sync member is synced |
| GroupCommit.ExactlyOnceInOrder | MyNews/Pods/leveldb-library/db/db_impl.cc:1194-1265 | each batch is committed exactly once, in order of arrival, and nothing else is |
| SkipLists.WalkIsSorted | MyNews/Pods/leveldb-library/db/skiplist.h:262-281 | following the pointers of a level visits exactly its nodes, in ascending order |
| SkipLists.PrepareKeepsGood | MyNews/Pods/leveldb-library/db/skiplist.h:363-367 | writing a pointer of a node not linked at that level changes nothing a reader can see |
| SkipLists.PublishKeepsGood | MyNews/Pods/leveldb-library/db/skiplist.h:363-369 | the one store that links a node at a level keeps every level a sorted part of the level below |
| SkipLists.SearchStepOk | MyNews/Pods/leveldb-library/db/skiplist.h:262-281 | one load of a search moves on without passing the first node at or after the key, and makes progress |
| SkipLists.StepsKeep | MyNews/Pods/leveldb-library/db/skiplist.h:337-370 | after every single store of Insert and every load of a search, the list is sound and the search is on track |
| SkipLists.LevelsAreSortedSublists | MyNews/Pods/leveldb-library/db/skiplist.h:337-370 | in every reachable state, also with the height already raised, each level is a sorted sublist of the level below |
| SkipLists.SearchSkipsNothing | MyNews/Pods/leveldb-library/db/skiplist.h:262-281 | a search overlapping inserts ends at a node at or after the key and skips no such node present when it began; until then its next load can be made |
| SkipLists.SkipList.FindGreaterOrEqual | MyNews/Pods/leveldb-library/db/skiplist.h:262-281 | the first node at or after the key, and on every level the last node before it |
| SkipLists.SkipList.FindLessThan | MyNews/Pods/leveldb-library/db/skiplist.h:284-302 | the last node before the key, or the head |
| SkipLists.SkipList.FindLast | MyNews/Pods/leveldb-library/db/skiplist.h:304-322 | the last node, or the head of an empty list |
| SkipLists.SkipList.Contains | MyNews/Pods/leveldb-library/db/skiplist.h:372-380 | whether the key is in the set |
| SkipLists.SkipList.Insert | MyNews/Pods/leveldb-library/db/skiplist.h:337-370 | adds exactly the key to the set, whatever height is drawn and whatever the new memory holds |
| SkipLists.Iterator.Seek | MyNews/Pods/leveldb-library/db/skiplist.h:225-228 | stands at the first node at or after the target |
| SkipLists.Iterator.Next | MyNews/Pods/leveldb-library/db/skiplist.h:208-212 | stands at the next node |
| SkipLists.Iterator.Prev | MyNews/Pods/leveldb-library/db/skiplist.h:214-223 | stands at the node before, or nowhere at the first |
| DbFormat.ParseInvertsAppend | MyNews/Pods/leveldb-library/db/dbformat.h:176-186 | parsing a packed internal key gives it back, up to the largest sequence number |
| DbFormat.CompareMeans | MyNews/Pods/leveldb-library/db/dbformat.cc:50-66 | on the bytes the comparator orders by user key ascending, then by sequence number and type descending |
| DbFormat.ReadMemEntry | MyNews/Pods/leveldb-library/db/memtable.cc:108-142 | the entry layout of Add is read back: the value or a deletion if the user key is the one sought, a miss otherwise |
| DbFormat.InternalCodecIsGood | MyNews/Pods/leveldb-library/db/version_edit.cc:88-96 | internal keys as they are written satisfy what the manifest needs of a key codec |
| PbWire.Varint32ReadBack | MyNews/Pods/nanopb/pb_decode.c:182-247 | the 32-bit reader gives back every 32-bit value the encoder writes |
| PbWire.VarintReadBack | MyNews/Pods/nanopb/pb_decode.c:250-270 | the 64-bit reader gives back every 64-bit value the encoder writes |
| PbWire.TagReadBack | MyNews/Pods/nanopb/pb_encode.c:635-639 | a tag from 1 to 2^29-1 and its wire type are read back |
| PbWire.StringReadBack | MyNews/Pods/nanopb/pb_decode.c:367-395 | a length-prefixed string is cut out exactly |
| PbWire.SkipFieldLocal | MyNews/Pods/nanopb/pb_decode.c:316-326 | skipping a field never depends on the bytes behind it |
| PbWire.Varint32Local | MyNews/Pods/nanopb/pb_decode.c:182-247 | a varint that is read does not depend on the bytes behind it |
| PbWire.SkipFieldIff | MyNews/Pods/nanopb/pb_decode.c:273-326 | a field can be skipped exactly when its wire type is one of the four and its bytes are all there; what is left are the last of the bytes |
| PbWire.ShortVarint32Iff | MyNews/Pods/nanopb/pb_decode.c:182-247 | a 32-bit varint of at most five bytes is accepted exactly when its value has 32 bits, and is then that value |
| PbWire.NegativeReadBack | MyNews/Pods/nanopb/pb_decode.c:210-232 | a negative 32-bit number in the ten bytes the encoder writes for it is accepted as its 32 bits |
| PbSchema.Text | MyNews/Pods/nanopb/pb_encode.c:831-855 | the string is what stands before the first NUL, at most the size of its buffer |
| PbSchema.Find | MyNews/Pods/nanopb/pb_common.c:78-95 | the first field with the tag, or none |
| PbIterator.FieldIter.Next | MyNews/Pods/nanopb/pb_common.c:20-76 | steps to the next field, or wraps to the first and says so, with the count of required fields before it exact |
| PbIterator.FieldIter.Begin | MyNews/Pods/nanopb/pb_common.c:8-18 | stands at the first field, and says whether there is one |
| PbIterator.FieldIter.FindTag | MyNews/Pods/nanopb/pb_common.c:78-95 | finds the field with the tag from wherever it stands, with a result that does not depend on where that is; without one it comes back to its place |
| PbEncoding.FixedArraySize | MyNews/Pods/nanopb/pb_encode.c:145-153 | the 4*count and 8*count shortcuts are the size of the data that is then written |
| PbEncoding.GoodMessageEncodes | MyNews/Pods/nanopb/pb_encode.c:494-516 | encoding a well-formed message never fails |
| PbEncoder.VarintBytes | MyNews/Pods/nanopb/pb_encode.c:574-594 | the loop builds the varint: seven bits a byte, the continuation bit off on the last |
| PbEncoder.TenBytesSuffice | MyNews/Pods/nanopb/pb_encode.c:576-591 | ten bytes are enough for every 64-bit value |
| PbEncoder.StringLength | MyNews/Pods/nanopb/pb_encode.c:846-851 | stops at the first NUL or at the size of the buffer |
| PbEncoder.OStream.BufWrite | MyNews/Pods/nanopb/pb_encode.c:72-82 | copies exactly those bytes behind what is there, inside the buffer |
| PbEncoder.OStream.Write | MyNews/Pods/nanopb/pb_encode.c:101-119 | succeeds exactly when there is room, and then has written those bytes or, sizing, has counted them |
| PbEncoder.OStream.EncodeVarint | MyNews/Pods/nanopb/pb_encode.c:574-594 | writes or counts the varint, exactly when there is room for it |
| PbEncoder.OStream.EncodeNumeric | MyNews/Pods/nanopb/pb_encode.c:734-808 | writes the number in the form of its type; an unknown field size is an error |
| PbEncoder.OStream.EncodeOne | MyNews/Pods/nanopb/pb_encode.c:734-868 | writes a value in the form of its field type, or fails as that type demands |
| PbEncoder.OStream.EncodeElements | MyNews/Pods/nanopb/pb_encode.c:155-180 | the elements of a packed array, counted in the first pass and written in the second, are the same bytes |
| PbEncoder.OStream.EncodeSizedData | MyNews/Pods/nanopb/pb_encode.c:145-181 | the length written before packed data is the length of the data |
| PbEncoder.OStream.EncodeRepeated | MyNews/Pods/nanopb/pb_encode.c:126-211 | an array too long for its field is an error; otherwise packed or tagged elements are written, nothing for none |
| PbEncoder.OStream.EncodeSubmessage | MyNews/Pods/nanopb/pb_encode.c:682-730 | writes the length the counting pass found and then the message; succeeds exactly when the message encodes and all of it has room |
| PbEncoder.OStream.EncodeContent | MyNews/Pods/nanopb/pb_encode.c:702-729 | the second pass writes exactly as many bytes as the first one counted, so the error for a changed size cannot occur |
| PbEncoder.OStream.EncodeBasicField | MyNews/Pods/nanopb/pb_encode.c:307-392 | a field is written or left out as its rule says (`PbRoundTrip.LeftOutIff`), or fails (`PbRoundTrip.EncodeFailsIff`) |
| PbEncoder.OStream.Encode | MyNews/Pods/nanopb/pb_encode.c:494-516 | a writing stream receives, and a sizing stream counts, exactly the encoding of the message, without the fields `PbRoundTrip.LeftOutIff` names; failure means an error in it or no room |
| PbEncoder.GetEncodedSize | MyNews/Pods/nanopb/pb_encode.c:533-542 | the size reported is the number of bytes the message encodes to |
| PbEncoder.EncodeIntoBuffer | MyNews/Pods/nanopb/pb_encode.c:84-99 | a buffer of the reported size or more suffices, a smaller one is refused |
| PbDecoder.Struct.SetToDefaults | MyNews/Pods/nanopb/pb_decode.c:812-895 | every field holds its default afterwards |
| PbDecoder.IStream.Read | MyNews/Pods/nanopb/pb_decode.c:100-132 | takes that many bytes, or fails when fewer are left |
| PbDecoder.IStream.DecodeVarint32 | MyNews/Pods/nanopb/pb_decode.c:182-242 | gives the 32-bit value, with the overflow rules for bits above 31, and reports the end of the stream only before the first byte |
| PbDecoder.IStream.DecodeVarint | MyNews/Pods/nanopb/pb_decode.c:250-270 | gives the 64-bit value of at most ten bytes |
| PbDecoder.IStream.SkipField | MyNews/Pods/nanopb/pb_decode.c:273-326 | skips a field by its wire type, an unknown one being an error |
| PbDecoder.IStream.DecodeTag | MyNews/Pods/nanopb/pb_decode.c:293-314 | gives tag and wire type, and tells the end of a message, by its bytes or by a zero, from an error |
| PbDecoder.IStream.MakeSubstream | MyNews/Pods/nanopb/pb_decode.c:367-380 | cuts out exactly the bytes of a length-prefixed string, or fails when the stream is too short |
| PbDecoder.IStream.CloseSubstream | MyNews/Pods/nanopb/pb_decode.c:382-395 | the stream goes on behind the substream, whatever of it was left unread |
| PbDecoder.IStream.DecodeNumeric | MyNews/Pods/nanopb/pb_decode.c:1240-1389 | gives the number if it fits the field, and fails otherwise |
| PbDecoder.IStream.DecodeByteString | MyNews/Pods/nanopb/pb_decode.c:1391-1508 | gives the bytes if the field has room for them; an empty fixed-length string is all zeros |
| PbDecoder.IStream.DecodeNested | MyNews/Pods/nanopb/pb_decode.c:1463-1485 | decodes a submessage from its own substream into the structure there is, or into a fresh one for array elements and union members |
| PbDecoder.IStream.DecodePackedArray | MyNews/Pods/nanopb/pb_decode.c:420-448 | appends the elements of the substream, and fails when the array overflows or an element is bad |
| PbDecoder.IStream.DecodeStaticField | MyNews/Pods/nanopb/pb_decode.c:401-475 | changes the structure as the rule of the field says: has_, _count and which_ members included |
| PbDecoder.IStream.DecodeKey | MyNews/Pods/nanopb/pb_decode.c:933-996 | one turn of the loop: a known field is decoded and its bit set if it is required, an unknown one skipped |
| PbDecoder.IStream.DecodeNoinit | MyNews/Pods/nanopb/pb_decode.c:901-1049 | succeeds exactly when the specification does (`PbMissing.DecodesIff`), and then leaves the structure it gives; on success the tag of each of the first 64 required fields is among those the input has |
| PbDecoder.CountRequired | MyNews/Pods/nanopb/pb_decode.c:1012-1022 | walking on from wherever the iterator stands counts all required fields, the last one included |
| PbDecoder.PbDecode | MyNews/Pods/nanopb/pb_decode.c:1051-1063 | defaults, then decoding: the outcome is that of the specification; on success the tag of each of the first 64 required fields is among those the input has |
| PbMissing.StepTakes | MyNews/Pods/nanopb/pb_decode.c:316-326 | decoding a field takes the bytes that skipping by the wire type of its kind takes |
| PbMissing.DecodesIff | MyNews/Pods/nanopb/pb_decode.c:1006-1046 | an input decodes exactly when it would with no field required and the tags it has, found by a walk that decodes nothing, include each of the first 64 required fields; the structure does not depend on which fields are required |
| PbMissing.UnreadKeeps | MyNews/Pods/nanopb/pb_decode.c:901-1004 | a field the input does not have keeps what it held, but for a union member whose place another takes |
| PbMissing.AbsentIsInit | MyNews/Pods/nanopb/pb_decode.c:830-899 | after pb_decode a field the input did not have holds the value of its description: an optional one is absent and holds its default |
| PbMissing.TagZero | MyNews/Pods/nanopb/pb_decode.c:933-962 | behind a key with tag 0 and a wire type other than 0 a type with fields passes over the bytes and one without fields fails |
| PbMissing.EmptyIsZeros | MyNews/Pods/nanopb/pb_decode.c:1487-1508 | a fixed-length byte string given as empty is all zeros |
| PbRequired.Mark | MyNews/Pods/nanopb/pb_decode.c:988-993 | sets the bit of the field and no other; beyond the first 64 nothing is tracked |
| PbRequired.CheckRequired | MyNews/Pods/nanopb/pb_decode.c:1024-1045 | the word-by-word check passes if and only if each of the first 64 required fields was met |
| PbRequired.RanksMetIsAllRequired | MyNews/Pods/nanopb/pb_decode.c:1006-1046 | checking by rank among the required fields is checking by field |
| PbDecoding.LoopConcat | MyNews/Pods/nanopb/pb_decode.c:919-997 | decoding a joined to b is decoding a and going on with b |
| PbDecoding.DecodingMerges | MyNews/Pods/nanopb/pb_decode.c:901-1049 | if a and then b decode, neither cut short by a zero tag, then a joined to b decodes into the same structure |
| PbDecoding.MergeIsExact | MyNews/Pods/nanopb/pb_decode.c:919-1048 | without required fields a joined to b decodes if and only if b decodes after a, with the same result |
| PbDecoding.OccurrencesMerge | MyNews/Pods/nanopb/pb_decode.c:1475-1480 | a submessage field that occurs twice is decoded like one occurrence with both contents |
| PbDecoding.ZeroTagHides | MyNews/Pods/nanopb/pb_decode.c:305-309 | a zero tag ends the message successfully and hides what follows |
| PbRoundTrip.NumberRoundTrip | MyNews/Pods/nanopb/pb_decode.c:1289-1389 | a number of the range of its field comes back, negative, zigzag and fixed ones included |
| PbRoundTrip.PackedRoundTrip | MyNews/Pods/nanopb/pb_decode.c:420-448 | packed data decodes element after element |
| PbRoundTrip.UnpackedRoundTrip | MyNews/Pods/nanopb/pb_decode.c:449-459 | tagged elements are appended in order to those there are, of packable kinds too |
| PbRoundTrip.PackedInOne | MyNews/Pods/nanopb/pb_encode.c:126-213 | a packable array is written as one length-delimited field that decodes to its elements |
| PbRoundTrip.FiveByteNegative | MyNews/Pods/nanopb/pb_decode.c:1289-1325 | a negative number encoded in five bytes as 32 bits is read as that number by a four-byte field |
| PbRoundTrip.EmptyFieldIsDefault | MyNews/Pods/nanopb/pb_encode.c:215-303 | what the proto3 check leaves out is the default the decoder starts from, nested messages included |
| PbRoundTrip.LeftOutIff | MyNews/Pods/nanopb/pb_encode.c:215-392 | exactly what is left out: a proto3 number, bytes array or string if and only if it is the default, a proto3 submessage if and only if each of its fields would be left out, fixed-length bytes only when of length 0; an absent optional field, an empty array, an unchosen union member; never a required field |
| PbRoundTrip.EncodesToNothingIff | MyNews/Pods/nanopb/pb_encode.c:494-516 | a message is encoded as nothing if and only if each of its fields is left out |
| PbRoundTrip.EncodeFailsIff | MyNews/Pods/nanopb/pb_encode.c:126-392 | exactly when encoding fails, room apart: a bytes array longer than its field, a number of a size there is not, an array with too many elements, or a part that fails |
| PbRoundTrip.ValueRoundTrip | MyNews/Pods/nanopb/pb_decode.c:1391-1508 | a value of any field type, nested messages included, comes back with what follows it untouched |
| PbRoundTrip.MessageRoundTrip | MyNews/Pods/nanopb/pb_decode.c:901-1049 | decoding into defaults gives the message, all required fields met, no byte left |
| PbRoundTrip.EncodeThenDecode | MyNews/Pods/nanopb/pb_encode.c:494-516 | encoding a well-formed message succeeds, and decoding it gives the same message up to absent optional values and bytes behind terminators |
| PbRoundTrip.SameMessageIff | MyNews/Pods/nanopb/pb_decode.c:829-864 | the round trip changes nothing if and only if absent optional fields hold their defaults and strings end at their first NUL |
| PbRoundTrip.EncodingsDiffer | MyNews/Pods/nanopb/pb_encode.c:494-516 | two messages with the same encoding are the same message |
| PbOlderReader.ValueSkipped | MyNews/Pods/nanopb/pb_decode.c:273-326 | skipping by wire type takes exactly what the encoder wrote for a value of that type |
| PbOlderReader.FieldIgnored | MyNews/Pods/nanopb/pb_decode.c:933-962 | whatever is written for a field with an unknown tag, arrays included, changes nothing |
| PbOlderReader.OtherReaderReads | MyNews/Pods/nanopb/pb_decode.c:901-1049 | a reader and a writer that agree on the fields both have: decoding what the writer encodes succeeds exactly when the writer has each of the first 64 fields the reader requires, and then gives the writer values of the common fields and defaults elsewhere |
| PbOlderReader.OlderReaderReads | MyNews/Pods/nanopb/pb_decode.c:933-962 | what a writer with more fields encodes, a reader with any part of them decodes into that part of the message |
| PbWellFormed.NumberIsGood | MyNews/Pods/nanopb/pb_decode.c:1289-1389 | a number that is decoded lies in the range of its field |
| PbWellFormed.BytesAreGood | MyNews/Pods/nanopb/pb_decode.c:1391-1508 | a byte string that is decoded fits its buffer, a C string with its terminator |
| PbWellFormed.ChooseIsReady | MyNews/Pods/nanopb/pb_decode.c:461-470 | after a union member is decoded no other member of the union is chosen, whatever was chosen before |
| PbWellFormed.FieldIsReady | MyNews/Pods/nanopb/pb_decode.c:401-475 | decoding a field keeps the structure well-formed: counts within arrays, values within fields |
| PbWellFormed.DecodedIsGood | MyNews/Pods/nanopb/pb_decode.c:1051-1063 | any input that decodes at all decodes into a well-formed message |
| PbWellFormed.DecodedReencodes | MyNews/Pods/nanopb/pb_decode.c:1051-1063 | what was decoded, from whatever input, encodes again and is then read back as the same message |

## Left out

- Versions.Version.TableGet: a table is its sorted list of entries and the filter policy any test that never hides a key; block format, index, compression, caches and bloom filters are not modelled.
- Versions.Version.Get: the seek statistics (`GetStats`, `UpdateStats`, `RecordReadSample`) that trigger seek compactions are left out; a seek compaction is one of the triggers of `PickCompaction`.
- Entries.NewestExists: user keys are integers; the code sees them only through the user's comparator. Their bytes appear in `DbFormat` and `VersionEdits` through a codec.
- CompactionWork.DoCompactionWork: the mutex release and the flush inside the loop are steps of `Engine` and `Durable`, not of this method; the size of an output is a parameter, input iterators are the merged list, and every key parses.
- Picking.VersionSet.PickCompaction: that the inputs are closed under user keys does not follow from the code, at level L above 0 (`CompactionLookups.PickSplit`) nor at level L+1 (`DroppedDeletion.CompactUncovering`); it is a condition of starting a compaction in the step systems. The scores that choose the level are a parameter.
- Picking.VersionSet.SetupOtherInputs: manual compactions (`CompactRange`), whose inputs may leave gaps, are not covered. The pointer it records in the edit as well is part of `ManifestReplay`.
- EngineProof.ReachableReadsHistory: I/O errors, `bg_error_`, shutdown, `MaybeScheduleCompaction`'s choice of moment and the slowdown triggers of `MakeRoomForWrite` are left out; a step may happen whenever its data allow.
- DurableReopen.CrashRecovery: appended bytes survive a crash and renaming CURRENT is atomic; I/O errors, `reuse_logs`, `paranoid_checks`, `prev_log_number`, corrupt files and `repair.cc` are left out. The comparator's name in the manifest is the empty one.
- DurableBytes.RecoverBytes: batches and edits fit the 32-bit lengths of their formats (`Batchable`, `ValidEdit`); the table files stay values.
- WriteBatches.InsertInto: sequence numbers above `kMaxSequenceNumber`, which an assertion of the memtable excludes, are not cut to 56 bits.
- ObsoleteFiles.DeleteObsoleteFiles: names are already parsed; the table cache and the info log are left out.
- FileRefs.FileTable.Build: version reference counts themselves and the linked list of versions are a list of versions.
- Snapshots.SnapshotList.Delete: the step systems use the list of numbers this class is proved against; the check that a snapshot belongs to the list is left out.
- DbIter.DBIter.Next: the merged inner iterator is a sorted list; the branch at `db_iter.cc:159-163` cannot be reached from a state the operations leave, keys are not corrupt, and read sampling is left out.
- LogReader.Reader.ReadRecord: the checksum is any function of type and payload, and reading never fails. A header that claims the reader's own end-of-file code (5) as its type, which no writer produces, would end one call but not the next; calls after it are not covered. The seek results are about written logs, which a crash may have cut.
- VersionEdits.RoundTrip: lengths are below 2^32, as the varint32 of the format demands, and the codec of keys is a parameter that `DbFormat.InternalCodecIsGood` supplies.
- GroupCommit.BuildBatchGroup: batch contents are lists of operations and their sizes a parameter; condition variables are wakeup flags.
- SkipLists.SkipList.Insert: the memory model below atomic, ordered pointer stores is not modelled; the random height is a parameter.
- DbFormat.CompareMeans: the separator functions that shorten index keys (`FindShortestSeparator`, `FindShortSuccessor`) are left out.
- PbSchema.Find: struct layout and offsets are not modelled; a structure is a list with one slot per field, a union one slot per member of which at most one is chosen. Callbacks, extensions, pointer fields and arrays of fixed count are left out.
- PbWire.Varint32ReadBack: the bit position of an over-long varint does not wrap at 256, as `uint_fast8_t` would after 36 bytes.
- PbEncoder.OStream.Write: `size_t` is unbounded, so the results are about messages whose size fits; output callbacks and I/O errors are left out.
- PbDecoder.IStream.Read: input is a buffer; reading through a callback, and what a failed decode leaves in the structure, are left out.
- PbRequired.Mark: a word is the set of its one bits.
- PbRoundTrip.EncodeThenDecode: a nested structure is a value inside its parent, not an address.
- The application itself (`MyNews/MyNews`), Alamofire and Firebase are user interface, network glue and declarations.
- `c.cc`, `dumpfile.cc`, `filename.cc`, `GetProperty`, option sanitising, logging and `util/`, `table/` are wrappers or bodies that are not part of this model.
