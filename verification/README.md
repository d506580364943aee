# ZenFS in Dafny

ZenFS is a log-structured file system for zoned block devices. This project models its metadata
log and recovery, the extents and append paths of its files, its zone allocator, garbage
collection by migration, and the descriptor cache of its zonefs backend, and proves what each of
them promises over all inputs and all runs.

## Layers

- **Codecs and log.** `Common`, `Coding` and `Blocks` hold shared definitions, fixed and varint integers, length-prefixed
  slices and padding to blocks. `Codec` and `SuperblockCodec` encode and decode files, log
  records and the superblock; `MetaLog` frames records in a metadata zone, and `LogSpace` says how
  much room they take.
- **Replay and namespace.** `Replay` is `RecoverFrom` with its record handlers, `HardLinks` the
  decoding of a snapshot into shared file objects. `Operations` says what each operation does to the
  names, the files in memory, the log and the metadata logged last, as functions; `Namespace` is the
  running file system, whose methods do exactly that and say when replaying the log gives back the
  memory.
- **Rolling.** `MetaRoll` is the state machine of the metadata zones, with a crash possible after
  every write, and the search of `Mount` for the zone to recover from. Every operation of the file
  system that loses no snapshot is a run of it. `MountImage` reads, decodes and replays the bytes of the zones,
  whatever they are, and `EndToEnd` puts the layers together.
- **One file.** `ZoneData` and `ZoneFiles` say what extents read, what a file has pending, and
  what recovery gives. `ZoneFileIO` has the `ZoneFile` object with its three append paths and the
  in-place work on the buffer; `WritableFile` the buffering above it; `FileReads` positioned reads.
- **All files.** `Volume` is one state machine over all files and zones: appends in the steps of
  the code (blocks, then the count of their bytes; list, then the active extent start), zone
  switches, closes, records of a file in their steps (the size is read, the list is read, the start
  is read, the record is logged, all extents count as synced; a roll is that for every file),
  deletions, the read lock and the write lock, readers, migration in its single steps, finishing and
  resetting of zones, and crashes. `Accounting` is about what extents charge to zones.
  `VolumeFrame`, `VolumeSteps` and `VolumeMoves` prove that each step keeps the invariant,
  `VolumeStarts` that every active extent start, in memory, in a record or in the log, stays with the
  extents that it is behind, `VolumeCrash` what a crash at any point gives every file, `VolumeRaces`
  and `VolumeSizes` when the log of a file and its logged size are exact, `VolumeSafety` what follows
  for every run, `VolumeSchedules` has runs in which things overlap and
  what they lose, and `VolumeRoutines` has appends, reads, deletions and garbage collection on top of the steps.
- **Allocator.** `Allocator` has busy flags, open and active tokens, finishing, resetting and the
  choice of zones.
- **Descriptor cache.** `FdCache` has the list and the index, against a reference LRU.

In `Volume`, every written byte carries the number of the file it was written for, every file the
last pair of a number of extents and an active extent start that belong together, and every start
that was read the number of extents that it is behind. In
`Operations`, the memory has of every file the metadata that was logged last, and in `Namespace`
also the steps that the metadata zones have taken. These are not in the implementation; they are
what lets the model say that recovery never gives a file another file's data, whatever has
overlapped before the crash (`CrashGivesOwnBytes`, `RecoveredIsNobodyElses`), when it loses nothing,
and what replaying the log gives.

## Assumptions

- An append to a zone is atomic, for records and for data: a crash comes before or after it.
- Backend reads and writes that do not fail make progress, and a read of a negative length fails;
  Finish, Reset and Close succeed, and no zone goes offline.
- The block size is greater than 8 and divides the capacity of a zone, the 128 KiB step of a
  migration and the 1 MiB buffer. All IO zones have the same capacity, which is below the zone
  size; `ResolvesIffCapacityBelowSize` shows that recovery needs the latter.
- Two pushes of extents of one file do not overlap, nor does a push by a sync overlap a zone switch
  or a close. That a push falls into an append, and an append into a push, are steps of the model.
- After a restart, the write pointer that the backend reports for a zone to which a logged start
  points is where its data ends, also when the zone is full; `ReportedIff` shows that recovery needs
  exactly that.
- The CRC is an arbitrary function of the payload.

## Where the code does not do what one would expect

- A snapshot that is larger than a metadata zone leaves the log in a zone with only a superblock,
  and the file system goes on: the next acknowledged record is lost, or makes the volume
  unmountable, and the next roll resets the only snapshot (`RecordSurvivesIffSnapshotFits`,
  `StrandedDeletion`, `NextRollKeepsAHolderIffSnapshotFits`).
- A record reads the size of a file, then its list of extents, then its active extent start, while
  its writer may change them. Recovery then has bytes twice (`PushListStartLog`), misses them
  (`ListPushStartLog`), or has them all and a size that does not count them (`SizePushListLog`);
  `ThreeReads` is the exact condition. An extent that is pushed before the record is marked is in no
  later update (`PushBeforeMark`). A roll that ends between the replacement of a list and its record
  makes that record empty, and the file is lost (`EmptyReplacement`,
  `ReplacementInsideRoll`). When these do not overlap, everything is exact (`OrderlyRunsCrashCleanly`).
- A sync by another thread may push an extent when an append has written its blocks and not yet
  counted them. The next extent then begins behind the bytes that it is for, also without a crash
  (`TornPush`; `PushKeepsBytesIff`). When an append writes its blocks between the parts of a push, the
  start goes behind them, and they are in no extent (`AppendInsidePush`; `AdvanceKeepsBytesIff`). A push
  keeps everything if and only if neither happens (`WholePushKeepsBytesIff`).
- Sizes of appends and lengths of migrated extents are passed as 32-bit integers: of an append of
  4 GiB only the rest modulo 4 GiB is stored, with success (`ZoneFile.Append`), and an extent of
  4 GiB is given a new place that does not have its bytes (`MigrateData`, `CopyReadsIff`). In zones
  below 4 GiB no extent is that long (`SmallExtents`).
- The record of a new file for which there is no room is dropped, because the file is not yet in
  `files_` when the snapshot is taken (`CreateFile`). Deleting that file later makes the volume
  unmountable (`DeletingUnloggedFileCorrupts`), and a link to it is lost (`SecondNameIsLost`).
- Renaming a file onto itself deletes it; renames and links that could not be logged are rolled
  back but report success (`RenameFile`, `LinkFile`).
- After the replace record of a migration was lost, the next update duplicates the extents of the
  file (`UpdateAfterLostReplace`).
- When the persist of a new zone fails, the file writes to a zone that the log does not know
  (`UnknownZoneIsLost`); when that of a close fails, the file keeps its zone and has forgotten
  where it writes (`StartForgotten`).
- With a capacity equal to the zone size, a file that filled its zone is given the next zone at
  recovery (`FullZoneResolvesToNext`).
- With a limit of 0 the limits of the descriptor cache and of the open zones wrap around
  (`LimitHoldsFromOne`, `LastSlotIsForWal`). When the superblock sequence wraps, Mount takes the
  old zone until it is reset (`NewZoneWinsUnlessWrapped`), which loses nothing acknowledged. When
  offset and length of a read overflow 64 bits, the file size does not clip it (`ReadIsClipped`), and
  when length and device offset do, the extent does not (`StepStaysIff`).
- The length of a read is passed to the device as a signed 32-bit integer: a read that wants 2 GiB or
  more of one extent fails (`PositionedRead`).
- After a flush that fails in the middle, the buffer is as full as it was, so that the next flush, or
  the close, stores bytes again that are in the file; only a flush that fails before it has stored
  anything can be repeated (`FlushTwice`).
- A backend that reports the end of the zone as the write pointer of a full zone gives a directly
  written file the gap behind the capacity at recovery, and makes the recovery of a sparse one fail
  (`ReportedIff`).
- A positioned append to a buffered file compares the offset with what was flushed, so it is
  accepted and lands elsewhere when something is in the buffer (`PositionedAppend`).
- Closing a zone that is still empty and filling a zone by migration lose active tokens, and
  `GetMigrateTargetZone` keeps its open token on every path but one.

## Model

| member | source | states |
|---|---|---|
| Coding.FixedRoundTrip | fs/io_zenfs.cc:39-47 | a fixed-width little-endian integer below its bound is read back, and the rest of the input is left |
| Coding.PutOfFixedValue | fs/io_zenfs.cc:39-47 | and the other way: the bytes of a fixed-width integer are those of the value that is read from them |
| Coding.VarintRoundTrip | fs/io_zenfs.cc:94-104 | the varint length of a slice is read back for every 32-bit length |
| Coding.SliceRoundTrip | fs/io_zenfs.cc:94-104 | a length-prefixed slice is read back, and the rest of the input is left |
| Codec.ExtentRoundTrip | fs/io_zenfs.cc:35-47 | an encoded extent is decoded to itself |
| Codec.FileRoundTrip | fs/io_zenfs.cc:68-105 | an encoded file, with id, size, hint, extents, time, active start, sparse flag and links, is decoded to itself by the tag loop |
| Codec.FileIsSound | fs/io_zenfs.cc:139-209 | whatever bytes are accepted as a file begin with its tag and its id, every field has its width, every extent is in an IO zone, and no name is empty |
| Codec.BadFieldIsRefused | fs/io_zenfs.cc:160-204 | an extent outside of the IO zones or not 16 bytes long, an empty name, or an unknown tag behind the fields of any file makes it corrupt, whatever follows |
| Codec.ShortFieldIsRefused | fs/io_zenfs.cc:151-187 | so does a field of a fixed width that is cut off |
| Codec.EntriesRoundTrip | fs/fs_zenfs.cc:1375-1387 | the entries of a snapshot are decoded to the same list |
| Codec.BadEntryIsRefused | fs/fs_zenfs.cc:1444-1463 | a snapshot with one corrupt entry is corrupt, wherever that entry is |
| Codec.DeletionRoundTrip | fs/fs_zenfs.cc:1465-1490 | id and name of a deletion record are read back |
| Codec.CountsRoundTrip | fs/fs_zenfs.cc:1504-1528 | the reset counts of all IO zones are read back |
| Codec.CountsIff | fs/fs_zenfs.cc:1515-1528 | reset counts are accepted if and only if there is one for every IO zone, and are then those that the bytes encode |
| Codec.RecordRoundTrip | fs/fs_zenfs.cc:1550-1606 | every kind of log record that is written is dispatched and decoded to itself |
| Codec.RecordIsSound | fs/fs_zenfs.cc:1547-1606 | whatever bytes are accepted as a record begin with its tag, and all in it is as its type demands, so that an unknown tag is refused; without room for a tag they end the log |
| SuperblockCodec.LayoutRoundTrip | fs/fs_zenfs.cc:37-72 | decoding what was encoded gives every field of the superblock |
| SuperblockCodec.DecodesIff | fs/fs_zenfs.cc:37-72 | bytes are accepted as a superblock if and only if they are the 512 bytes of one with the magic number and the version of this file system |
| SuperblockCodec.SuperblockRoundTrip | fs/fs_zenfs.cc:74-90 | the 512 bytes that are written decode to the same superblock with the sequence number one higher, modulo 2^32 |
| MetaLog.FrameRoundTrip | fs/fs_zenfs.cc:136-169 | from the position of a framed record in a zone, the next record is exactly that one, and the position after it is the end of its frame |
| MetaLog.ChecksumCovers | fs/fs_zenfs.cc:136-169 | the checksum of a frame is that of all its bytes behind the checksum, up to the padding |
| MetaLog.ReadsIff | fs/fs_zenfs.cc:200-243 | from a block of a log a record is read if and only if its header, with the checksum of its length and its bytes, and its payload stand there |
| MetaLog.DamagedIff | fs/fs_zenfs.cc:232-237 | a block is refused if and only if no record stands there |
| MetaLog.ChangedIsDamaged | fs/fs_zenfs.cc:232-237 | no record stands where the payload of one was changed, if the changed bytes have another checksum |
| MetaLog.LogRoundTrip | fs/fs_zenfs.cc:171-243 | behind any number of records of a log that fits in a zone, the next record is the next one written, and after the last one the log ends |
| MetaLog.ZenMetaLog.AddRecord | fs/fs_zenfs.cc:136-169 | the padded frame is appended if and only if it fits; otherwise nothing changes |
| MetaLog.ZenMetaLog.ReadBytes | fs/fs_zenfs.cc:171-198 | the bytes at the read position, the end of the log at the write pointer, and the move of the position |
| MetaLog.ZenMetaLog.ReadRecord | fs/fs_zenfs.cc:200-243 | from a block of a log: the record that stands there, or an error if and only if none stands there; the position then moves to the next block |
| MetaLog.ZenMetaLog.ReadAll | fs/fs_zenfs.cc:1538-1548 | reading until the end of the log gives exactly the records that were added, in order |
| LogSpace.AddToLog | fs/fs_zenfs.cc:136-169 | on a zone with a superblock and these records, the next record is appended if and only if there is room for its frame, and the zone then has one record more |
| LogSpace.TakenIsLength | fs/fs_zenfs.cc:136-169 | the write pointer of a zone is behind the frames of its superblock and its records |
| Operations.SomeMemoryDoesNotFit | fs/fs_zenfs.cc:613-626 | however large a metadata zone is, the snapshot of a memory in which names and links are inverse does not fit in it when one file has enough extents |
| Operations.SnapshotIsSnapshot | fs/fs_zenfs.cc:1375-1387 | the entries of a snapshot, one for every name in the order of names, cover all names with the metadata of their files |
| Replay.RecoverFrom | fs/fs_zenfs.cc:1530-1614 | the loop over records computes the fold of the log: it stops at an end record or a record that cannot be applied, and a later snapshot replaces the table |
| Replay.SnapshotExact | fs/fs_zenfs.cc:1444-1463 | a snapshot gives back every name, one file per id with all its metadata, and a next id above all ids |
| Replay.UpdateExact | fs/fs_zenfs.cc:1403-1442 | an update or replace record rebinds the names of one file, sets all its metadata, extends or replaces its extents, and leaves all other files as they were |
| Replay.MergeGivesFile | fs/io_zenfs.cc:211-238 | merging the delta of a file gives exactly the file in memory if and only if the log has its synced extents; merging a replacement always does |
| Replay.CreateExact | fs/fs_zenfs.cc:1403-1442 | the record of a file that the log does not have adds exactly that file with all its metadata |
| Replay.DropLive | fs/fs_zenfs.cc:1476-1502 | the file of a removed name stays if and only if it has another name, and no other file goes |
| Replay.RebindConsistent | fs/fs_zenfs.cc:1403-1442 | after an update has replaced the names of a file, names and link lists are inverse again |
| Replay.DeletionExact | fs/fs_zenfs.cc:1476-1502 | a deletion record removes one name, and the file with its last name; all other metadata of all files stay |
| HardLinks.DecodeSnapshotFrom | fs/fs_zenfs.cc:1444-1463 | although a file with k names is encoded k times, names of one file share one object and names of two do not, and the zones are charged once per live object |
| HardLinks.KeepObject | fs/fs_zenfs.cc:1444-1463 | the first entry of a file adds its object under all its names and keeps the bookkeeping sound |
| HardLinks.DropObject | fs/io_zenfs.cc:262-273 | a repeated entry inserts nothing, so that its object is destroyed and its charges are taken back |
| HardLinks.Complete | fs/fs_zenfs.cc:1375-1387 | after all entries, all names are there with the metadata of their files |
| Namespace.ZenFs.EncodeSnapshot | fs/fs_zenfs.cc:1375-1387 | the iteration over `files_` gives exactly the entries of a snapshot, in the order of names |
| Namespace.ZenFs.PersistRecord | fs/fs_zenfs.cc:636-717 | with room behind the log, the record is appended if the device works and lost otherwise; without room, a device that works gives a log of one snapshot of the memory, or of none if that does not fit, and one that fails loses the record, or the snapshot, by when it fails; a crash after any step that the metadata zones take meanwhile recovers what the log gave before or gives afterwards |
| Namespace.ZenFs.LogVersion | fs/fs_zenfs.cc:745-771 | the given version of the file is in memory, with all its extents synced if and only if it was logged; names and links are inverse whatever happens; an appended version keeps the log replayable if and only if the log has the file or the file has one name, and what replay gives of every file changes by exactly this version |
| Namespace.ZenFs.SyncFileMetadata | fs/fs_zenfs.cc:745-771 | of all metadata in memory only the time of the file changes; the record has its extents that were not synced; with a device that works and a snapshot that fits, what replay gives of the file is its metadata with the new time; replaying the log gives of every file what was logged last, unless a roll lost its snapshot |
| Namespace.ZenFs.ReplaceExtents | fs/fs_zenfs.cc:719-742 | of all metadata in memory only the list of the file changes, to the one given, and once logged replay gives that list; when the record is lost, no extent counts as synced and the log is as before |
| Namespace.ZenFs.Write | fs/io_zenfs.cc:461-477 | a write changes size, hint, extents and active start of one file as it says, appends to its extents, and nothing else, and counts none of it as synced |
| Namespace.ZenFs.DeleteFile | fs/fs_zenfs.cc:796-826 | removes exactly one name from the file and, with the last one, the file, or puts the name back at the end of the links, and leaves the metadata of all other files; the log can be replayed afterwards if and only if it had the file and no roll lost its snapshot, and then gives of every file what was logged last |
| Namespace.ZenFs.RenameFile | fs/fs_zenfs.cc:1241-1283 | names, links, times and the log after a rename, for existing and equal destinations and each outcome of both records, with all other metadata as it was; and when replaying the log gives of every file what was logged last |
| Namespace.ZenFs.LinkFile | fs/fs_zenfs.cc:1297-1326 | names and links after a link and each outcome of its record, with all other metadata as it was; the log can be replayed if and only if it had the file and no roll lost its snapshot, and then gives of every file what was logged last |
| Namespace.ZenFs.CreateFile | fs/fs_zenfs.cc:1060-1114 | an empty file without extents under a new id, with this one name, time and sparse flag, and all else as it was or as the deletion left it; replaying the log gives of every file what was logged last, and the log has the new file if and only if its record was appended, which is so if and only if its frame fits behind the log and the device works |
| Namespace.Run | fs/fs_zenfs.cc:745-826 | after every run of operations, memory, log and metadata logged last are those of the operations one after the other, with names and links inverse; unless a step harms the log, replaying it gives of every file exactly the metadata that was logged last, and the names of all files but those created by a roll, and the log is on the zone in use of a run of the metadata zones |
| Namespace.RollTracks | fs/fs_zenfs.cc:613-626 | a log that starts with a snapshot of the memory is in full agreement with it, and has all metadata |
| Namespace.VersionTracks | fs/fs_zenfs.cc:745-771 | a logged delta or replacement of a file in the log keeps the names mirrored and merges into what replay gives of that file |
| Namespace.NewVersionTracks | fs/fs_zenfs.cc:1403-1442 | a logged version of a file that the log does not have, with one name, brings the file into the log |
| Namespace.SecondNameIsLost | fs/fs_zenfs.cc:1403-1442 | with two names, only the first one gets into the log, which does not mirror the memory any more |
| Namespace.DeletionTracks | fs/fs_zenfs.cc:1465-1474 | a logged deletion keeps the names mirrored |
| Namespace.DeletingUnloggedFileCorrupts | fs/fs_zenfs.cc:1476-1502 | a deletion record makes the recovery fail if and only if the log does not have the file |
| Namespace.UpdateAfterLostReplace | fs/fs_zenfs.cc:745-771 | after a lost replacement the next update leaves the file with both lists; it is right if and only if the logged list was empty |
| Namespace.LastIsVersion | fs/fs_zenfs.cc:745-771 | what was logged last of a file, after a version of it was logged, is the file in memory, if and only if the log had its synced extents, or the record replaces them, or the file is new |
| Namespace.RenameBinds | fs/io_zenfs.cc:751-775 | renaming a link to a free name and back gives the former names |
| Namespace.LinkBinds | fs/io_zenfs.cc:751-775 | adding a free link binds it to the file, and removing it gives the former links |
| MetaRoll.Mount | fs/fs_zenfs.cc:1617-1715 | Mount takes a zone if and only if it has a snapshot and no zone that is tried before it, by sequence number and position, has one or is unreadable |
| MetaRoll.HolderIsUnique | fs/fs_zenfs.cc:1663-1703 | at most one zone is the one to recover from |
| MetaRoll.InsertSorted | fs/fs_zenfs.cc:1663-1665 | the zones in descending order of sequence number and position, with none lost |
| MetaRoll.AllocateMetaZone | fs/zbd_zenfs.cc:755-780 | the first metadata zone that is not busy is reset and taken, if there is one |
| MetaRoll.ZoneForRoll | fs/zbd_zenfs.cc:755-780 | when only the log in use is busy, that is the zone that the state machine of rolling takes |
| MetaRoll.StepKeepsInv | fs/fs_zenfs.cc:636-717 | every step of appending, rolling, crashing and mounting keeps the invariant, but for a snapshot for which there is no room in a roll at run time |
| MetaRoll.RunKeepsInv | fs/fs_zenfs.cc:636-717 | the invariant holds after every number of steps of every run whose snapshots fit |
| MetaRoll.CrashSafe | fs/fs_zenfs.cc:1617-1746 | in every state of every run whose snapshots fit, with 32-bit sequence numbers that may wrap, a mount gives the last acknowledged table or that of the operation in progress |
| MetaRoll.MountAfterCrash | fs/fs_zenfs.cc:1617-1715 | a mount after a crash anywhere in such a run succeeds with one of those two tables, and with the acknowledged one between operations |
| MetaRoll.RecordSurvivesIffSnapshotFits | fs/fs_zenfs.cc:636-689 | after a roll, the next acknowledged record that changes anything survives a crash if and only if the snapshot of the roll fit in its zone |
| MetaRoll.NextRollKeepsAHolderIffSnapshotFits | fs/zbd_zenfs.cc:755-780 | after a roll, the zone that the next roll resets is not the only one with a snapshot, if and only if the snapshot of the first roll fit |
| MetaRoll.StrandedDeletion | fs/fs_zenfs.cc:1476-1502 | after an acknowledged deletion in a log without a snapshot nothing can be mounted, if and only if the sequence number has not wrapped around |
| MetaRoll.ResetKeepsAHolder | fs/zbd_zenfs.cc:755-780 | while snapshots fit, a metadata zone that is reset is never the only one with the snapshot that is needed |
| MetaRoll.NewZoneWinsUnlessWrapped | fs/fs_zenfs.cc:74-90 | with its snapshot the new zone is the one to recover from, before the old one is reset, if and only if its 32-bit sequence number has not wrapped around |
| MetaRoll.AppendSteps | fs/fs_zenfs.cc:704-717 | a record that fits and can be replayed is a run of the metadata zones, which ends with it in the log; after every step the acknowledged table and that in progress are those of the log without and with it |
| MetaRoll.RollSteps | fs/fs_zenfs.cc:636-689 | a roll whose snapshot fits is a run of the metadata zones, which ends with the snapshot in the new zone, with only the old and the new table in between |
| MetaRoll.CarriedIsHeld | fs/fs_zenfs.cc:1617-1715 | between operations the zone in use is the one to recover from, and its table is that of the log |
| MountImage.ReadZone | fs/fs_zenfs.cc:1634-1661 | the superblock and then the log: a zone that has no record, or a damaged one, in the place of the superblock is passed over, and another superblock than that of this device is refused |
| MountImage.ReadLog | fs/fs_zenfs.cc:1530-1614 | the loop that reads and decodes record by record, up to an end record or the end of the log |
| MountImage.RefusedIff | fs/fs_zenfs.cc:122-134 | a zone whose superblock was read is refused if and only if that has another magic number, version, block size or zone size, or more zones than the device |
| MountImage.DamagedZone | fs/fs_zenfs.cc:1538-1545 | a log in which one block that begins a record is damaged is corrupt as a whole, whatever stands before it, but an end record, and behind it; with a damaged superblock the zone is passed over |
| MountImage.ZoneRoundTrip | fs/fs_zenfs.cc:1634-1661 | the bytes of a zone that was written with a superblock and records decode to that superblock number and those records, also when the zone was finished behind its end record |
| MountImage.ImageAppend | fs/fs_zenfs.cc:136-169 | the frame of a record for which there is room extends the bytes of a zone to those with the record |
| MountImage.ImageFinish | fs/fs_zenfs.cc:660-664 | finishing a zone behind its end record leaves the bytes an image of the same log |
| MountImage.SeenRecovers | fs/fs_zenfs.cc:1680-1703 | recovery from a zone gives what its log gives, and fails for good if that cannot be read |
| MountImage.MountBytes | fs/fs_zenfs.cc:1617-1715 | from any bytes of the metadata zones: Mount fails if a superblock is not that of this device, and otherwise takes exactly the zone with the newest snapshot, unless the log of one that is tried before cannot be read or replayed |
| MountImage.MountBytesAfterCrash | fs/fs_zenfs.cc:1617-1746 | from the bytes after a crash anywhere in a run whose snapshots fit: the acknowledged table or that of the operation in progress |
| EndToEnd.MountFileSystem | fs/fs_zenfs.cc:1617-1715 | mounting the bytes of the metadata zones of a file system after any run of harmless operations gives of every file exactly the metadata logged last, with names that mirror the memory; from full agreement all names and exactly the synced extents |
| EndToEnd.RunFromEmpty | fs/fs_zenfs.cc:1772-1833 | harmless operations on an empty file system lead to a memory, a log and zones from which it can be mounted, and what is mounted is determined by the operations |
| ZoneData.WalkAppend | fs/io_zenfs.cc:647-691 | the walk over segments that lands on the end of the data finds one more extent after one more segment was appended, and lands on its end |
| ZoneData.WalkSegment | fs/io_zenfs.cc:666-688 | one turn of the walk finds the payload of a segment and steps over header, payload and padding |
| ZoneData.ContentFrame | fs/io_zenfs.cc:370-459 | writes behind the write pointer do not change what a list of extents reads |
| ZoneData.ContentAt | fs/io_zenfs.cc:326-336 | where the bytes of an extent are in the content of its file |
| FileReads.GetExtent | fs/io_zenfs.cc:326-336 | finds the extent of a file offset if and only if the offset is below the total length, and the offset in its zone |
| FileReads.PositionedRead | fs/io_zenfs.cc:370-459 | for all extents, offsets and lengths that do not overflow with a device offset: exactly the slice of the content, clipped to the file size and to the extents, if and only if less than 2 GiB are wanted of every extent; nothing and an error otherwise |
| FileReads.Read | fs/zbd_zenfs.cc:1061-1085 | with short reads of the backend, a positive length is read as a whole, and a length of 0 or less is an error |
| FileReads.StepStaysIff | fs/io_zenfs.cc:416-419 | a turn of a read stays in its extent if and only if length and device offset do not overflow 64 bits to a value before the end of the extent |
| FileReads.ReadIsClipped | fs/io_zenfs.cc:406-410 | a read is clipped by request, file size and extents, if and only if offset plus length do not overflow 64 bits to a value within the file size while the extents are longer than the file |
| ZoneFiles.AllocateOk | fs/io_zenfs.cc:479-494 | a new active zone keeps the invariant of a file and its content |
| ZoneFiles.CloseOk | fs/io_zenfs.cc:275-290 | closing the active zone with nothing pending keeps them |
| ZoneFiles.SyncOk | fs/io_zenfs.cc:321-324 | a sync in any state keeps them |
| ZoneFiles.DirectWriteOk | fs/io_zenfs.cc:627-641 | a direct write appends to the content and to the region that recovery reads |
| ZoneFiles.PushOk | fs/io_zenfs.cc:461-477 | making an extent of the pending bytes changes nothing of the content and leaves nothing pending |
| ZoneFiles.GrowOk | fs/io_zenfs.cc:497-607 | blocks with a payload append exactly the payload to the content; for sparse files the walk still finds all unsynced extents |
| ZoneFiles.RecoverSparse | fs/io_zenfs.cc:647-741 | recovery of a sparse file rebuilds exactly the list of extents that its appends had pushed |
| ZoneFiles.RecoverPlain | fs/io_zenfs.cc:693-741 | recovery of another file gives the synced content and what stands behind the logged active extent start |
| ZoneFiles.RecoverGivesContent | fs/io_zenfs.cc:693-741 | after a crash at any point, recovery gives a sparse file its extents, a direct file everything appended, and every file its synced extents first |
| ZoneFiles.SyncRecovers | fs/io_zenfs.cc:693-741 | once all metadata is persisted, recovery gives every kind of file exactly what was appended, without padding |
| ZoneFiles.ClosedOk | fs/io_zenfs.cc:311-319 | closing keeps the content and makes it what recovery gives |
| ZoneFiles.StartForgotten | fs/io_zenfs.cc:311-319 | a file whose close could not be logged is in order if and only if it has no active zone |
| ZoneFiles.UnknownZoneIsLost | fs/io_zenfs.cc:479-494 | when the persist of a new zone fails, recovery finds what it found before: the content is complete if and only if nothing is written to that zone |
| ZoneFiles.FullZoneResolvesToNext | fs/zbd_zenfs.cc:212-217 | with a capacity equal to the zone size, recovery of a file that filled its zone takes the data of the next zone |
| ZoneFiles.ResolvesIffCapacityBelowSize | fs/zbd_zenfs.cc:212-217 | every position up to the write pointer is found in its own zone if and only if the capacity is below the zone size |
| ZoneFiles.ReportedIff | fs/zbd_zenfs.cc:148-158 | with a write pointer that the backend reports at or behind the end of the data, recovery gives what it gives otherwise if and only if it is at the end; a directly written file gets the gap, and the recovery of a sparse one fails |
| ZoneFiles.Device.Append | fs/zbd_zenfs.cc:171-200 | all of the data is stored at the write pointer, by any number of partial writes, if and only if it fits |
| ZoneFiles.Device.MigrateData | fs/io_zenfs.cc:1089-1124 | the steps of 128 KiB store exactly the blocks of the low 32 bits of the length at the write pointer of the target, and the copy reads like the extent if and only if the extent is shorter than 4 GiB |
| ZoneFileIO.ZoneFile.AllocateNewZone | fs/io_zenfs.cc:479-494 | the file holds a zone that nobody held and that has room, if and only if there is one, and no other; its content is as before |
| ZoneFileIO.ZoneFile.LeaveFullZone | fs/io_zenfs.cc:535-546 | at the end of a turn the zone is left if and only if it is full, and what is left of the data stands at the front of the buffer |
| ZoneFileIO.ZoneFile.BufferedAppend | fs/io_zenfs.cc:497-550 | the content grows by the buffer, or by a prefix of it when no zone is free, over any number of zones, each of which is left only when it is full; padding never overwrites what is yet to be written, and nothing else is touched |
| ZoneFileIO.ZoneFile.BufferedTurn | fs/io_zenfs.cc:513-535 | one turn stores as much as fits, padded with zeros to a block, and what is left still stands in the buffer |
| ZoneFileIO.ZoneFile.SparseAppend | fs/io_zenfs.cc:552-607 | the same with a header in front of every segment |
| ZoneFileIO.ZoneFile.SparseTurn | fs/io_zenfs.cc:568-593 | one turn stores as much as fits as one segment of header, payload and padding, and what is left still stands in the buffer |
| ZoneFileIO.ZoneFile.Append | fs/io_zenfs.cc:610-645 | the content grows by the low 32 bits of the length of the data, or by a prefix of that when no zone is free, over any number of zones, each of which is left only when it is full; by all of the data if and only if that is shorter than 4 GiB |
| ZoneFileIO.ZoneFile.PushExtent | fs/io_zenfs.cc:461-477 | what is pending becomes one extent, if anything is; the content is as before |
| ZoneFileIO.ZoneFile.PersistMetadata | fs/io_zenfs.cc:321-324 | after success a crash gives exactly the content; a lost record changes nothing |
| ZoneFileIO.ZoneFile.CloseWR | fs/io_zenfs.cc:311-319 | after success the zone is released, the log has no active extent, and a crash gives exactly the content; after a lost record the file is in order if and only if it had no active zone |
| ZoneFileIO.ZoneFile.RecoverAfterCrash | fs/io_zenfs.cc:693-741 | at any time, recovery succeeds, begins with the synced extents, and loses nothing of direct and sparse files |
| ZoneFileIO.RecoverSparseExtents | fs/io_zenfs.cc:647-691 | the loop over headers finds what the walk over segments finds |
| ZoneFileIO.RecoverMethod | fs/io_zenfs.cc:693-741 | Recover computes the recovery function |
| ZoneFileIO.TurnFits | fs/io_zenfs.cc:513-526 | the padded size of a turn fits in the zone, and there is padding only at the end of the data |
| WritableFile.ZonedWritableFile.FlushBuffer | fs/io_zenfs.cc:941-960 | the buffer is moved to the file as a whole, or a prefix of it when no zone is free; then the buffer is as full as before, and as it was if and only if nothing was stored, which is so if and only if the file had no zone and there was none |
| WritableFile.ZonedWritableFile.FlushTwice | fs/io_zenfs.cc:941-960 | after a flush that fails and one that succeeds, the file has exactly what was appended if and only if it had no zone before the first and there was none; otherwise it has as many bytes more as the first has stored |
| WritableFile.ZonedWritableFile.BufferedWrite | fs/io_zenfs.cc:962-989 | file and buffer together grow by exactly the data if and only if it is shorter than 4 GiB, over any number of flushes; what fits in the buffer cannot fail, and the rest fails only when no zone is free |
| WritableFile.ZonedWritableFile.Append | fs/io_zenfs.cc:991-1014 | file and buffer together grow by exactly the data, buffered or direct, if and only if it is shorter than 4 GiB; the write position grows by all of it |
| WritableFile.ZonedWritableFile.PositionedAppend | fs/io_zenfs.cc:1016-1044 | refused when the offset is not the write position; accepted when it is and the data fits in the buffer; and the data lands at the offset if and only if the buffer was empty |
| WritableFile.ZonedWritableFile.DataSync | fs/io_zenfs.cc:860-882 | after success a crash gives the file everything that was appended, in all three modes; only a buffered file needs the log for that, and fails without it; a sparse one does not ask it |
| WritableFile.ZonedWritableFile.Fsync | fs/io_zenfs.cc:884-901 | the same, and the log has all extents, or the call fails |
| WritableFile.ZonedWritableFile.Close | fs/io_zenfs.cc:926-939 | everything appended is in the file, which has no active zone; a second close does nothing; a close that could not be logged stays open |
| Accounting.SwapSum | fs/fs_zenfs.cc:719-742 | while a list is replaced, old list and moved extents charge a zone as much as new list and replaced extents |
| Accounting.ZoneSumsAddUp | fs/zbd_zenfs.cc:512-518 | over all zones, a list of extents charges its length |
| Accounting.ChargeIsCells | fs/zbd_zenfs.cc:512-518 | disjoint extents charge a zone as many bytes as they cover of it |
| VolumeSteps.StAllocated | fs/io_zenfs.cc:479-494 | the log learning of a new active zone keeps what holds of a writer, with the logged pair and with the one that is being encoded |
| VolumeSteps.WriteKeeps | fs/io_zenfs.cc:627-639 | the blocks of a direct append, which are not counted yet, keep the invariant, append to their file, and leave the bytes of all others |
| VolumeSteps.GrowKeeps | fs/io_zenfs.cc:497-607 | the same for a buffered or sparse append whose extent is in the list before extent_start_ follows |
| VolumeSteps.PushKeeps | fs/io_zenfs.cc:461-477 | unless it falls between the write and the count of an append, a push puts the new extent in the list, charged, and disjoint from all others, before extent_start_ follows; bytes stay |
| VolumeSteps.AdvanceKeeps | fs/io_zenfs.cc:474-476 | unless an append has written since, extent_start_ and extent_filepos_ then follow without a change of the bytes |
| VolumeSteps.EncodeListKeeps | fs/io_zenfs.cc:79-86 | reading the list of a record at any moment after its size keeps the invariant, and what is read are extents of the file |
| VolumeSteps.LogKeeps | fs/fs_zenfs.cc:704-717 | logging a record, whatever happened to the file since its size, list and start were read, keeps the invariant and all bytes |
| VolumeSteps.MarkKeeps | fs/io_zenfs.h:122-129 | counting all extents as synced at any later moment keeps them too |
| VolumeSteps.DestroyKeeps | fs/io_zenfs.cc:262-273 | destroying a file object gives back exactly what it was charged |
| VolumeSteps.UnusedZone | fs/zbd_zenfs.cc:782-799 | a free zone with no used capacity has no extent of any live file and no active extent start |
| VolumeSteps.ResetKeeps | fs/zbd_zenfs.cc:90-134 | a reset keeps the invariant and the bytes of all files |
| VolumeMoves.LockKeeps | fs/io_zenfs.h:168-191 | every step of the read lock and of the write lock keeps the counter of readers exact |
| VolumeMoves.MoverExcludesReaders | fs/io_zenfs.h:168-191 | in every state with the invariant, so in every run: when the writer is past its wait loop, nobody reads the file and nobody is past the read lock |
| VolumeMoves.ReadChunkKeeps | fs/io_zenfs.cc:416-450 | a short read of the device gives a reader the next bytes of the content |
| VolumeMoves.MoveCopyKeeps | fs/fs_zenfs.cc:2075-2127 | copying one extent of less than 4 GiB keeps the invariant and all bytes, and charges the target |
| VolumeMoves.ReplaceKeeps | fs/io_zenfs.cc:743-749 | replacing the list past the wait loop keeps the invariant, the charges and all bytes, also while a record of the file is under way |
| VolumeMoves.UnsyncKeeps | fs/fs_zenfs.cc:719-725 | so does MetadataUnsynced |
| VolumeMoves.DropKeeps | fs/fs_zenfs.cc:732-739 | giving up the old extents keeps the accounts exact |
| VolumeStarts.MemoryBelongs | fs/io_zenfs.cc:89-95 | at every moment, also in the middle of a push, a zone switch or a close, the active extent start that a record reads is behind a known number of the extents of the file: with the two in the log the file would be in order |
| VolumeStarts.StepKeepsStarts | fs/io_zenfs.cc:461-494 | every step of every file keeps that, for the start in memory, in a record that is under way and in the log, whether or not the log is exact |
| VolumeCrash.FileRecovers | fs/io_zenfs.cc:693-741 | after a crash at any point, with exact logs or not, recovery of every named file succeeds, begins with the logged list, and gives nothing but bytes written for this file; of a direct or sparse file it gives as many as were appended, with those more that the logged list has and the logged start is not behind, or less; with an exact log it gives exactly the bytes that were appended, and none twice |
| VolumeCrash.CrashCountsIff | fs/io_zenfs.cc:713-741 | after a crash with an exact log, file_size_ counts all bytes of the extents, if and only if the logged size is the length of the logged list or there is something to recover |
| VolumeCrash.CrashKeepsInv | fs/fs_zenfs.cc:548-559 | after a crash at which all logs are exact and a mount the volume is in order: disjoint extents, exact accounts, free zones |
| VolumeCrash.CrashIsIdempotent | fs/fs_zenfs.cc:548-559 | a second crash and mount gives the same volume |
| VolumeRaces.MixedPairs | fs/io_zenfs.cc:68-105 | for the list of extents read at one moment and the active extent start at another: the recovered extents are exact if and only if no extent was pushed in between, in either order |
| VolumeRaces.ThreeReads | fs/io_zenfs.cc:68-105 | for size, list and start read at three moments: reads of the recovered file give everything that was appended, if and only if there were as many extents at the reads of list and start, and the size counts the list or there is something behind the start |
| VolumeRaces.RecordRecoversIff | fs/io_zenfs.cc:68-95 | in every state in which a record of a direct or sparse file is logged whose list has the extents that there were when it was read: a crash gives a file from which reads give all bytes if and only if its list was read with as many extents as its start is behind, and its size counts all bytes of the list or there is something behind the start |
| VolumeRaces.SnapshotInsidePush | fs/io_zenfs.cc:461-477 | a snapshot between the two assignments of a push: recovery has the pushed bytes twice |
| VolumeRaces.PushInsideSnapshot | fs/io_zenfs.cc:461-477 | a push between the two reads of a snapshot: recovery misses the pushed bytes |
| VolumeRaces.UpdateMissesNothingIff | fs/io_zenfs.cc:68-105 | an update has the whole list if and only if the log has all extents that count as synced |
| VolumeRaces.ReplacementMissesNothingIff | fs/fs_zenfs.cc:719-725 | a replace record has the whole list if and only if nothing counts as synced, and none of it if everything does |
| VolumeRaces.OrderlyStaysCalm | fs/fs_zenfs.cc:745-771 | while records of a file, from the read of the size on, and changes of its list do not overlap, every step keeps the log of every file exact |
| VolumeSizes.SizeIsKnown | fs/io_zenfs.cc:72-73 | outside of a push, what file_size_ does not count of a file with nothing missed stands behind its active extent start |
| VolumeSizes.OrderlyStaysSized | fs/fs_zenfs.cc:745-771 | in such steps, every logged size holds: it is the length of the logged list, or there is something to recover, whatever is written or reset |
| VolumeSizes.StepMissesNothing | fs/io_zenfs.cc:713-741 | file_size_ of every file counts all that was appended and counted, after every step but a crash at which a logged size does not hold |
| VolumeSchedules.PushListStartLog | fs/fs_zenfs.cc:613-626 | a run from an empty volume, every action possible, that ends in a crash: a record reads the list after an extent was pushed and the start before it follows, and the mounted file has its bytes twice |
| VolumeSchedules.ListPushStartLog | fs/fs_zenfs.cc:613-626 | such a run with the list before and the start after a push: the mounted file has its size and none of its bytes |
| VolumeSchedules.SizePushListLog | fs/io_zenfs.cc:713-717 | such a run with an append and a push between the size and the list: the mounted file has all its bytes and a size of nothing |
| VolumeSchedules.PushBeforeMark | fs/fs_zenfs.cc:619-624 | such a run with a push between the log and the mark of a record: after a later record of the file, the mounted file has none of its bytes |
| VolumeSchedules.PushKeepsBytesIff | fs/io_zenfs.cc:461-474 | the first part of a push, in which the list gets its extent, keeps the bytes of a file if and only if no append is between its write and its count |
| VolumeSchedules.AdvanceKeepsBytesIff | fs/io_zenfs.cc:475-476 | the last part, in which extent_start_ follows, keeps them if and only if the write pointer has not moved since |
| VolumeSchedules.WholePushKeepsBytesIff | fs/io_zenfs.cc:461-477 | a whole push with an append of any length in its middle keeps the bytes and has those of the append if and only if no append was between its write and its count at the beginning, and none wrote in the middle |
| VolumeSchedules.AppendInsidePush | fs/io_zenfs.cc:461-477 | a run without a crash in which an append writes and counts in the middle of a push: the file counts these bytes and does not have them |
| VolumeSchedules.TornPush | fs/io_zenfs.cc:627-641 | a run without a crash in which a sync pushes in the middle of an append: the next extent begins behind the write pointer of its bytes |
| VolumeSchedules.CopyReadsIff | fs/io_zenfs.cc:1089-1124 | the new place of a migrated extent reads like the extent if and only if the extent is shorter than 4 GiB |
| VolumeSchedules.EmptyReplacement | fs/fs_zenfs.cc:719-742 | when a roll marks a file after MetadataUnsynced, the replace record is empty, and after the drop of the old extents a crash gives a file without bytes |
| VolumeSchedules.ReplacementInsideRoll | fs/fs_zenfs.cc:719-742 | a run from an empty volume, every action possible, to such a migration of a closed file: after a crash the file has its size and none of its bytes |
| VolumeSafety.StepKeepsInv | fs/fs_zenfs.cc:2045-2134 | every step of every kind keeps the invariant and the bytes of every file, but for what it appends, except for a push between a write and its count, a write between the parts of a push, and the copy of an extent of 4 GiB; a crash does so when the log of every file is exact |
| VolumeSafety.SmallExtents | fs/fs_zenfs.cc:2083-2110 | in zones below 4 GiB every copied extent is shorter than that |
| VolumeSafety.RunKeepsInv | fs/fs_zenfs.cc:2045-2134 | the invariant holds in every state of every run without these and with such crashes, for all interleavings, and every start is with the extents that it is behind |
| VolumeSafety.CrashGivesOwnBytes | fs/io_zenfs.cc:693-741 | in every state of every such run, also where records, pushes and migrations have overlapped: a crash loses no file with a name and gives it nothing but its own bytes, beginning with the logged list, in exactly the number that list and start say; and with an exact log all of them |
| VolumeSafety.RecoveredIsNobodyElses | fs/io_zenfs.cc:693-741 | what a crash gives one file is disjoint from every live extent of every other file and from what the crash gives that |
| VolumeSafety.OrderlyRunsCrashCleanly | fs/fs_zenfs.cc:745-771 | in runs in which records and changes of the list of a file do not overlap, and no sync an append, the log of every file is exact and its size holds at every crash |
| VolumeSafety.FileHasWhatWasAppended | fs/io_zenfs.cc:497-645 | in every run without an overlap of a sync and an append, with crashes at which logs are exact and their sizes hold, and with other files, migration, resets and records, a file has exactly what was appended to it, in order, and its size counts all of it but what is yet to be counted (a buffered one in runs without a crash) |
| VolumeSafety.FileHasWhatWasAppendedSoFar | fs/io_zenfs.cc:497-645 | without a crash that is so for every file and every interleaving of pushes, records and migrations in which no sync overlaps an append and no copied extent is of 4 GiB |
| VolumeSafety.NobodyReadsWhileReplacing | fs/io_zenfs.h:168-191 | in every state of every run with such crashes: past the wait loop of the write lock there is no reader, and none past the read lock |
| VolumeSafety.ResetLosesNothing | fs/zbd_zenfs.cc:782-799 | a zone that may be reset has nothing of a list of a file, of a replacement under way, of the log or of a record under way, of a reader or of a writer, and no active extent start in memory, in a record or in the log, exact or not, points to it |
| VolumeSafety.ListGrowsUnderReaders | fs/io_zenfs.h:168-191 | while anybody reads a file, or is past the read lock, its list only grows at the end: every read sees one list |
| VolumeSafety.ReadIsComplete | fs/io_zenfs.cc:370-459 | a reader that cannot go on has the content from its offset, up to what it asked for and to the end of the extents, whatever happened meanwhile |
| VolumeSafety.LiveExtentsAreDisjoint | fs/io_zenfs.cc:461-477 | in every reachable state, extents of one or two files, and those that a migration holds twice, are disjoint and in the written part of a zone |
| VolumeSafety.UsedIsWritten | fs/zbd_zenfs.cc:136-146 | the used capacity of a zone is never negative and at most what is written, so that its reclaimable space does not wrap |
| VolumeSafety.SpaceOf | fs/zbd_zenfs.cc:504-526 | free, used and reclaimable space are sums over the zones, none negative, together at most the total capacity |
| VolumeSafety.UsedIsLengthOfFiles | fs/zbd_zenfs.cc:512-518 | the used capacity of the device is the length of all live extents, each charged once |
| VolumeSafety.MigrationConservesUsed | fs/fs_zenfs.cc:719-742 | between two states at rest in which the files have the same bytes, the used capacity of the device is the same |
| VolumeRoutines.MountedVolume.Persist | fs/fs_zenfs.cc:745-771 | a record of a file of which nobody else encodes one: lost without any change, or logged and marked as a whole, and then the log has the size and start of the file, and its list, or that list joined to the logged one, and all extents count as synced |
| VolumeRoutines.MountedVolume.AllocateNewZone | fs/io_zenfs.cc:479-494 | some free zone with room becomes active and the log learns of it, if and only if there is one |
| VolumeRoutines.MountedVolume.Append | fs/io_zenfs.cc:610-645 | on a volume with any other files: the content of the file grows by the low 32 bits of the length of the data, or by a prefix of that when no free zone has room, over any number of zones, and no other file changes |
| VolumeRoutines.MountedVolume.AppendTurn | fs/io_zenfs.cc:505-533 | one turn of a buffered or sparse append on a volume: the zone has the payload, with header and padding, the file has the payload, and no other file changes |
| VolumeRoutines.MountedVolume.Read | fs/io_zenfs.cc:370-459 | a read in the steps of a reader, with any number of short reads, gives exactly the bytes from the offset, up to what was asked for and to the end of the extents, and leaves lock, readers and everything else as they were |
| VolumeRoutines.MountedVolume.Delete | fs/fs_zenfs.cc:796-826 | the file loses its name; its object goes, and its bytes are charged to no zone any more, if and only if nobody writes, reads or moves it; no other file changes |
| VolumeRoutines.MountedVolume.MigrateExtent | fs/fs_zenfs.cc:2083-2127 | one extent below 4 GiB is copied to a zone that was free, which is released again; or nothing changes, because no free zone has room for it; zones only fill |
| VolumeRoutines.MountedVolume.MigrateFileExtents | fs/fs_zenfs.cc:2045-2134 | when the wanted extents are below 4 GiB, the bytes of every file stay, also when a reader stops the migration or its record is lost; when it is done every wanted extent has moved for which any free zone has room, and no other; the log has the new list, and busy flags and the used capacity of the device are as before |
| VolumeRoutines.MountedVolume.SyncFileExtents | fs/fs_zenfs.cc:719-742 | the list is replaced only when there is no reader, and the old extents are given up only when the new list is in the log |
| VolumeRoutines.MountedVolume.FinishZone | fs/zbd_zenfs.cc:148-158 | a free zone with data has no room any more, and keeps what it has |
| VolumeRoutines.MountedVolume.ResetUnusedIOZones | fs/zbd_zenfs.cc:782-799 | exactly the free zones without used capacity are empty afterwards, and can be written to again, and no file changed |
| Allocator.LastSlotIsForWal | fs/zbd_zenfs.cc:801-824 | a grant that is not for a WAL leaves the last open slot free if and only if at least one open zone is allowed |
| Allocator.VictimExists | fs/zbd_zenfs.cc:886-930 | in a sequential run without lost tokens, there is a zone to finish whenever all active tokens are taken |
| Allocator.TokensCoverZones | fs/zbd_zenfs.cc:801-853 | partially written and fresh held zones are at most the active tokens, zones held by files at most the open tokens, and equal to them without wear leveling |
| Allocator.Run | fs/zbd_zenfs.cc:1121-1237 | every run of allocations, writes, closes, drops, resets and both kinds of migration does what its operations say, one after the other, and stays within the limits of active and open tokens; without wear leveling files hold exactly as many zones as there are open tokens |
| Allocator.DiffMeans | fs/zbd_zenfs.cc:626-643 | the lifetime difference orders zones as it should: for a file without a hint only its own kind will do; for any other the one that outlives it by the least, then one of its own lifetime, and none that it outlives |
| Allocator.ZonedBlockDevice.ApplyFinishThreshold | fs/zbd_zenfs.cc:855-884 | exactly the free partial zones with less room than the threshold are finished, and their tokens given back |
| Allocator.ZonedBlockDevice.FinishCheapestIOZone | fs/zbd_zenfs.cc:886-930 | the first free partial zone with the least capacity is finished and its token given back, or there is none |
| Allocator.ZonedBlockDevice.GetBestOpenZoneMatch | fs/zbd_zenfs.cc:932-970 | of the free zones in use that have room, in lifetimes: the zone taken is one than which none is closer to the file, the last of these, and no other busy flag changed |
| Allocator.ZonedBlockDevice.AllocateEmptyZone | fs/zbd_zenfs.cc:989-1050 | the zone taken is the first of the most worn empty ones for hints below SHORT and of the least worn ones otherwise |
| Allocator.ZonedBlockDevice.FinishUntilToken | fs/zbd_zenfs.cc:1190-1197 | with a token free no zone is finished; otherwise just as many as it takes, none while one with less room is left; the loop ends, and in a sequential run with a token |
| Allocator.ZonedBlockDevice.AllocateIOZone | fs/zbd_zenfs.cc:1121-1237 | the whole outcome, within the limits. A zone in use is given to a file with a hint only if it outlives the file and none is in between, or has its lifetime, none outlives it and no token is free; to one without a hint only if it has its lifetime. An empty one is opened only if there is none of these; zones are finished for it only without a token, those with the least room, and no more than needed |
| Allocator.ZonedBlockDevice.ReuseZone | fs/zbd_zenfs.cc:1155-1187 | a zone in use is given out under exactly these conditions, and otherwise nothing changes |
| Allocator.ZonedBlockDevice.CloseActiveZone | fs/io_zenfs.cc:275-290 | the open token is given back, the active one if and only if the zone is full; that of an empty zone is lost |
| Allocator.ZonedBlockDevice.ResetUnusedIOZones | fs/zbd_zenfs.cc:782-799 | exactly the free zones with data but none in use are empty, with one reset more and no lifetime, and tokens stay exact |
| Allocator.ZonedBlockDevice.TakeMigrateZone | fs/zbd_zenfs.cc:1101-1119 | of the free zones in use that have room the one whose lifetime is closest to that of the file, also one that the file outlives if there is no other, is taken without tokens |
| Allocator.ZonedBlockDevice.ReleaseMigrateZone | fs/zbd_zenfs.cc:1087-1099 | the flag is cleared; the active token of a zone that is not partial is lost |
| Allocator.ZonedBlockDevice.GetMigrateTargetZone | fs/zbd_zenfs.cc:645-753 | the most worn empty zone if there is one and an active token for it, with the lifetime of the file; otherwise, of the zones in use with room and a suitable lifetime, the first of those with the highest product of resets and reclaimable part, and the most resets, or none if there is none; the open token is given back if and only if there was an empty zone and no active token for it, and an active token is taken with an empty zone only |
| FdCache.TraceByRecency | fs/zonefs_zenfs.cc:48-90 | after any trace with limits of at least 1, the list is in exact order of last use and within its limit |
| FdCache.EvictsLeastRecent | fs/zonefs_zenfs.cc:57-62 | what an operation drops was used before everything it keeps |
| FdCache.LimitHoldsFromOne | fs/zonefs_zenfs.cc:73 | opening a file keeps the limit if and only if the limit is at least 1 |
| FdCache.EveryOperation | fs/zonefs_zenfs.cc:48-91 | a hit moves its zone to the front and keeps the order of the others; a miss puts it there and drops only what then exceeds the limit; Put cuts out one zone; Resize keeps as many as the new limit allows |
| FdCache.ZoneFsFileCache.Get | fs/zonefs_zenfs.cc:64-83 | list and index refine one step of the reference LRU; after a miss that opens a file the list is one longer, up to its limit |
| FdCache.ZoneFsFileCache.Put | fs/zonefs_zenfs.cc:48-55 | list and index refine one step of the reference LRU |
| FdCache.ZoneFsFileCache.Resize | fs/zonefs_zenfs.cc:85-91 | list and index refine one step of the reference LRU |
| FdCache.ZoneFsFileCache.Prune | fs/zonefs_zenfs.cc:57-62 | the most recent part of the list is kept, and the index agrees |

## Left out

- MetaRoll.CrashSafe: a torn record, which Mount reports as corruption, is not a step, nor is a device error in a roll, which leaves the log like a snapshot that does not fit.
- MetaRoll.RunKeepsInv: runs at run time whose snapshot does not fit; what becomes of these is stated by the two lemmas named with it and by `StrandedDeletion`.
- MountImage.MountBytesAfterCrash: that the records of a run can be encoded, and that the zones hold their bytes, is a precondition; `ImageAppend` and `ImageFinish` keep it.
- Namespace.Run: after a step that harms the log, only memory and log are stated; the operations say exactly when one does. Device errors in a roll behind the move to the new zone are not steps of the metadata zones.
- ZoneFileIO.ZoneFile.AllocateNewZone: the persist at its end succeeds, and `UnknownZoneIsLost` says what follows otherwise. The choice of the zone is any free one with room; the choice by lifetime and wear is in `Allocator`.
- ZoneFileIO.ZoneFile.CloseWR: that the write lock is given up before the zone is closed is not modelled.
- ZoneFileIO.ZoneFile.RecoverAfterCrash: a buffered file that crashes after a flush that was not synced also gets the padding; only its synced content is stated.
- WritableFile.ZonedWritableFile.FlushBuffer: which bytes stand in the buffer after a failure that has stored something; only their number is stated.
- VolumeSafety.StepKeepsInv: of buffered and sparse appends, blocks and list are one step, because only a crash could tell, which forgets the list; a roll is the records of all files one by one, which allows more than the code does. A push by a sync is a step only while the writer is not in a push, a zone switch or a close. A writer whose record of a new zone is lost does not go on, and neither does a mover whose replace record is lost.
- VolumeSafety.RunKeepsInv: a crash at which the log of a file is not exact gives what `CrashGivesOwnBytes` says, and of runs that go on behind it nothing is stated; nor is it behind a push and an append that overlap or a copy of 4 GiB, but for what `VolumeSchedules` has.
- VolumeSafety.ReadIsComplete: that a read is clipped by file_size_ is part of what the reader asks for; the clipping is in `FileReads`.
- VolumeRoutines.MountedVolume.MigrateFileExtents: for files that are not sparse. A reader at the time of the call ends it as waiting; in `Volume` the mover waits in steps. The target zone is any free one with room.
- VolumeRoutines.MountedVolume.Append: direct appends; buffered and sparse ones are methods of `ZoneFile` only.
- EndToEnd.MountFileSystem: the per-file logs of `Volume` are not joined with the log of `Namespace`, which has extents as device offsets.
- Replay.RecoverFrom: the record handlers are functions on values; the object sharing of a snapshot is in `HardLinks`. That a zone without a snapshot, which Mount then does not take, leaves next_file_id_ raised is not modelled.
- Allocator.ZonedBlockDevice.AllocateIOZone: zones are values in a sequence, updated by the methods; a wait for a token that no other thread gives back is an outcome.
- FdCache.ZoneFsFileCache.Get: the index maps to nodes instead of list positions.
- Sparse files are not migrated: only `.sst` files are, and only `.log` files are sparse.
- The auxiliary file system, directories, their renames and rollbacks, and recursive deletion.
- The triggers of wear leveling, metrics, logging, JSON dumps, tools, and the system calls of both backends.
- Reset counts across restarts: they are written at shutdown only and are not part of snapshots.
- `migrating_` as a lock, the alignment of direct reads, cache invalidation, Truncate, RangeSync, and reopening a sparse file in direct mode.
- Concurrency inside the allocator: its methods are sequential; interleavings of files, readers, records, migration and resets are in `Volume`.
