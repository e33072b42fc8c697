# A verified model of the LevelDB storage engine and the nanopb codec

The repository vendors two C and C++ libraries that carry its logic: the LevelDB storage engine and nanopb, an
encoder and decoder for Protocol Buffers. This project models both in Dafny and proves what they are for.

The storage engine is modelled in layers, each against a simple specification.

- **The state machine** (`DbFormat`, `Version`, `Storage`, `Compaction`, `CompactionJob`, `ExactCompaction`,
  `InputSelection`, `Builder`, `Reads`, `Database`, `DatabaseInvariant`, `Recovery`, `RecoveryPossible`, `Runs`,
  `BoundaryFiles`). The specification is a history of numbered writes; a read at snapshot `s` returns the newest entry
  with a number at most `s`. One action is what happens between two points at which other threads can run or the machine
  can crash: group writes, memtable switches, flushes, picking and running compactions, trivial moves, logging and
  installing versions, deleting files, crashes, stray files of interrupted operations, and reopening. Here a table file
  is a sorted sequence of entries, and a log is a sequence of records.
- **Writers** (`WriteBatch`, `GroupCommit`, `WriterQueue`): the batch format, the choice of a group, and all schedules of
  concurrent writers and readers.
- **Cursors** (`Cursor`, `DbIter`, `Merger`, `Concatenation`, `TwoLevel`): each is a position in one sorted sequence.
- **Files** (`Coding`, `LogFormat`, `VersionEdit`, `Comparator`, `Block`, `BlockIter`, `Bloom`, `FilterBlock`, `Table`,
  `TableBuilder`, `Crc32c`, `Formats`): bytes on disk. `Formats` gives them in numbers; `LogFormat`
  justifies records that a crash leaves whole or absent, and `Table` and `TableBuilder` justify tables as sorted
  sequences.
- **Memory** (`SkipList`, `CacheTable`, `LruCache`): pointer structures as indices into an arena. The skip list is read
  while one writer inserts; a schedule interleaves single pointer stores with single moves of a search.

The codec is `PbFields` (descriptors, values, the field iterator, defaults), `PbEncode` and `PbDecode` (both directions
as functions), `PbEncoder` and `PbDecoder` (the procedures over streams, proved to compute those functions),
`PbRoundTrip` and `PbDefaults` (which messages and which descriptors survive encoding and decoding), `PbWire` (the bytes
that other programs see, and readers that know fewer fields) and `PbLimits` (what is refused). The wire format is
that of the Protocol Buffers encoding guide, sections "Base 128 Varints", "Message Structure" and "Packed Repeated
Fields". Sizes are those of a build with 32-bit `pb_size_t` and 64-bit `size_t`.

Classes model what the program updates in place; functions and lemmas say what the procedures compute.
`dafny verify dfyconfig.toml` checks everything.

Premises that the code does not establish are named:

- `InputSelection.BoundaryClosed`: no file of the output level that stays shares a boundary user key with an input of
  that level. `SetupOtherInputs` extends only the inputs of the upper level by boundary files. The state machine starts
  compactions only where it holds. `BoundaryFiles.DeletedValueReturns` is an input on which it fails and a deleted value
  comes back, and `ExactCompaction.PickedKeepsExactly` says exactly when a compaction is harmless without it.
- `Builder.NeverHeld`: a file number is never added again to a level that held it. Every edit of the state machine
  satisfies it (`DatabaseInvariant`), so it is a premise only of the lemmas about arbitrary lists of edits.
- User keys of the state machine are positions in the comparator's order, written as real numbers: byte strings are
  countable, and every countable total order embeds in the rationals. `Comparator` and the table modules use bytes.

Hash functions, checksums, filter policies of filter blocks and compaction scores are arbitrary functions or choices, so
the results hold for each of them. Where the documentation and the code differ the model follows the code: `Clear` of a
version edit leaves the compaction pointers, so `DecodeFrom` appends to those already there.

## Model

| member | source | states |
|---|---|---|
| Runs.StepInv | SpotiFriend/Pods/leveldb-library/db/db_impl.cc:182-1370 | every action of writers, readers, the background thread, a crash and an opening keeps the invariant of disk, memory and history |
| Runs.RunInv | SpotiFriend/Pods/leveldb-library/db/db_impl.cc:182-1370 | every state reachable from a new database satisfies that invariant, whatever the interleaving |
| Runs.Read | SpotiFriend/Pods/leveldb-library/db/db_impl.cc:1100-1145 | a read pinned at any earlier moment, through its memtable, immutable memtable and version, returns the newest history entry at or before its snapshot, whatever ran in between |
| Runs.HistoryGrows | SpotiFriend/Pods/leveldb-library/db/db_impl.cc:1185-1256 | over every run, crashes included, the acknowledged history, which `RunInv` ties to disk and memory, only grows: nothing acknowledged is lost or reordered |
| Runs.ReadInRun | SpotiFriend/Pods/leveldb-library/db/db_impl.cc:1100-1145 | whenever a run has a reader in progress, what its memtables and version answer is the history's answer at its snapshot, in every state of the run that has the snapshot, earlier or later, crashes and reopenings included |
| Runs.ReadAcknowledged | SpotiFriend/Pods/leveldb-library/db/db_impl.cc:1100-1256 | what was acknowledged at some point of a run is what a read at any later point returns, after any crashes and reopenings, unless the key was written again |
| Runs.ScanInRun | SpotiFriend/Pods/leveldb-library/db/db_impl.cc:1062-1159 | what an iterator made at any point of a run shows, key by key, is what the history shows at its snapshot |
| Runs.CrashHistory | SpotiFriend/Pods/leveldb-library/db/db_impl.cc:1204-1236 | after a crash at any point the disk stands (`Recoverable`) for the acknowledged writes plus the group in flight, whole if its record reached the log, else absent |
| Runs.StepHistory | SpotiFriend/Pods/leveldb-library/db/db_impl.cc:1204-1236 | one action changes the history, which `StepInv` ties to disk and memory, by nothing or by the whole group being written, and only publication or a crash does |
| Runs.PinnedForever | SpotiFriend/Pods/leveldb-library/db/db_impl.cc:1166-1175 | what a snapshot sees is the same at every later point of a run |
| Runs.PinnedFilesOnDisk | SpotiFriend/Pods/leveldb-library/db/db_impl.cc:223-278 | no deletion ever takes away a table file that a reader, the current version or a running compaction refers to |
| RecoveryPossible.ReopenPossible | SpotiFriend/Pods/leveldb-library/db/db_impl.cc:280-489 | in every reachable closed state there is an opening that succeeds: recovery never gets stuck on what a crash left behind |
| Recovery.ReopenInv | SpotiFriend/Pods/leveldb-library/db/db_impl.cc:280-489 | opening re-establishes the invariant with the history unchanged |
| Recovery.RecoveryReads | SpotiFriend/Pods/leveldb-library/db/db_impl.cc:280-489 | replaying the manifest and the logs finds the installed version, the entries after the flush point and the last sequence number |
| Recovery.RecoverStores | SpotiFriend/Pods/leveldb-library/db/db_impl.cc:371-489 | tables written from the logs, added at level 0 one after the other, complete the version to the whole history, wherever the memtable is cut |
| Recovery.RecoveredVersion | SpotiFriend/Pods/leveldb-library/db/db_impl.cc:280-368 | the version after opening stores the whole history and the new manifest rebuilds it |
| Recovery.SnapshotBuilt | SpotiFriend/Pods/leveldb-library/db/version_set.cc:1088-1116 | the snapshot edit that begins a manifest rebuilds exactly the version it was made from |
| Recovery.ManifestBuilt | SpotiFriend/Pods/leveldb-library/db/version_set.cc:886-1011 | snapshot followed by the logged edit, replayed through one builder, gives exactly the version that was installed |
| Version.FindFile | SpotiFriend/Pods/leveldb-library/db/version_set.cc:88-106 | binary search returns the first file whose largest key is at or after the key |
| Version.Level0Candidates | SpotiFriend/Pods/leveldb-library/db/version_set.cc:343-363 | the level-0 files whose range spans the key, newest first; searching them in this order finds the newest entry |
| Version.Get | SpotiFriend/Pods/leveldb-library/db/version_set.cc:326-421 | level by level, stopping at the first hit, returns the newest visible entry among all tables of the version |
| Version.TableGetFinds | SpotiFriend/Pods/leveldb-library/db/version_set.cc:263-276 | seeking to the lookup key in one table gives the newest visible entry of the key in it |
| Storage.FindsIsLookup | SpotiFriend/Pods/leveldb-library/db/version_set.cc:326-421 | what the version search finds is what the write history says, deletion markers included |
| Storage.FlushKeeps | SpotiFriend/Pods/leveldb-library/db/db_impl.cc:491-566 | adding the flushed memtable at the chosen level extends what the version stores to the whole history and keeps levels ordered |
| Reads.Get | SpotiFriend/Pods/leveldb-library/db/db_impl.cc:1100-1145 | memtable, then immutable memtable, then version: the first answer is the newest history entry at or before the snapshot |
| Compaction.CompactionKeeps | SpotiFriend/Pods/leveldb-library/db/db_impl.cc:878-999 | replacing the inputs by the outputs keeps the version ordered and its answers right for every reader at the smallest snapshot or later, however many flushes happened meanwhile |
| Compaction.VisibleAfter | SpotiFriend/Pods/leveldb-library/db/db_impl.cc:937-963 | for any key and snapshot >= the smallest one, the two drop rules change nothing that is visible |
| Compaction.OutputsAre | SpotiFriend/Pods/leveldb-library/db/db_impl.cc:937-963 | what is left of the inputs: all entries too new for the smallest snapshot, and per key the newest that it sees, unless that is a deletion marker without a deeper file that has the key in its range |
| Compaction.NothingBelow | SpotiFriend/Pods/leveldb-library/db/version_set.cc:1533-1552 | when no file two levels down or deeper spans the key of a dropped marker, every remaining entry of the key is newer than it |
| Compaction.ReadyAfterFlush | SpotiFriend/Pods/leveldb-library/db/db_impl.cc:908-918 | a memtable flushed while a compaction runs, to the level the engine picks, leaves the compaction as safe as before |
| Compaction.MoveKeeps | SpotiFriend/Pods/leveldb-library/db/db_impl.cc:718-733 | a trivial move changes no answer and keeps levels ordered |
| CompactionJob.DoCompactionWork | SpotiFriend/Pods/leveldb-library/db/db_impl.cc:878-999 | the one-pass loop writes exactly the entries that neither drop rule removes, into sorted disjoint files; none goes on after it is full, and each but the last ends because it is full or because the grandparents passed since the last stop exceed the limit; none overlaps more bytes of grandparents than allowed |
| CompactionJob.StopIsFirst | SpotiFriend/Pods/leveldb-library/db/version_set.cc:1554-1576 | a stop for the grandparents is at the first key at which those since the last stop exceed the limit |
| CompactionJob.Job.ShouldStopBefore | SpotiFriend/Pods/leveldb-library/db/version_set.cc:1554-1576 | counts the grandparents passed since the first key or the last stop, and stops exactly when they exceed the limit |
| CompactionJob.Job.IsBaseLevelForKey | SpotiFriend/Pods/leveldb-library/db/version_set.cc:1533-1552 | for non-decreasing queries the monotone level pointers answer whether no file at level+2 or deeper spans the key |
| ExactCompaction.KeepsExactly | SpotiFriend/Pods/leveldb-library/db/db_impl.cc:937-963 | without any hypothesis: a compaction changes what some reader sees if and only if it revives a value, a condition on the inputs and the files that stay |
| ExactCompaction.PickedKeepsExactly | SpotiFriend/Pods/leveldb-library/db/version_set.cc:1403-1462 | for every compaction the engine picks, reads at the smallest snapshot or later stay right if and only if no value is revived; the new version can be searched in either case |
| ExactCompaction.PickedStaysOrdered | SpotiFriend/Pods/leveldb-library/db/version_set.cc:1403-1462 | levels stay sorted and disjoint and shallower entries newer after any picked compaction, also without the boundary hypothesis |
| ExactCompaction.ReadyRevivesNothing | SpotiFriend/Pods/leveldb-library/db/version_set.cc:1378-1462 | under the boundary hypothesis nothing can be revived |
| BoundaryFiles.DeletedValueReturns | SpotiFriend/Pods/leveldb-library/db/version_set.cc:1403-1462 | a concrete version and a selection that the engine makes for which the hypothesis fails and a deleted value comes back |
| InputSelection.PickCompaction | SpotiFriend/Pods/leveldb-library/db/version_set.cc:1270-1322 | the compaction is that of the trigger: the sought file, or the first file of the level after the compact pointer, or the first one past the end; to it come only level-0 files that overlap, boundary files and the accepted growth. It leaves no newer-than-left-behind file, includes every overlapping file of the next level and has a hull without gaps; pointer and grandparents are those of the result; with the boundary hypothesis it is ready to run |
| InputSelection.PickSeed | SpotiFriend/Pods/leveldb-library/db/version_set.cc:1275-1301 | the file that the trigger names: the sought one, or the first that ends after the compact pointer, or the first of the level |
| InputSelection.SeedInputs | SpotiFriend/Pods/leveldb-library/db/version_set.cc:1303-1317 | at level 0 the files of the least closed range around the file, deeper the file alone |
| InputSelection.Expand | SpotiFriend/Pods/leveldb-library/db/version_set.cc:1424-1452 | the growth is taken exactly if it adds files, stays below the limit of bytes and brings in no file of the next level |
| InputSelection.SetupOtherInputs | SpotiFriend/Pods/leveldb-library/db/version_set.cc:1403-1462 | boundary extension, next-level inputs and optional growth give a gap-free selection that keeps the chosen files |
| InputSelection.GetOverlappingInputs | SpotiFriend/Pods/leveldb-library/db/version_set.cc:519-559 | the restart loop ends; at level 0 the result is the least set of files closed under overlap that covers the range |
| InputSelection.AddBoundaryInputs | SpotiFriend/Pods/leveldb-library/db/version_set.cc:1378-1401 | terminates without duplicates, and no file of the level starts after the inputs' largest key with the same user key |
| InputSelection.FindLargestKey | SpotiFriend/Pods/leveldb-library/db/version_set.cc:1326-1340 | the largest key among the files, or none for no files |
| InputSelection.FindSmallestBoundaryFile | SpotiFriend/Pods/leveldb-library/db/version_set.cc:1344-1362 | the file with the smallest key among those that continue the given key's user key |
| InputSelection.SameCountSameFiles | SpotiFriend/Pods/leveldb-library/db/version_set.cc:1429-1452 | a growth that finds as many next-level files as before finds the same ones |
| InputSelection.LeftBehindIsNewer | SpotiFriend/Pods/leveldb-library/db/version_set.cc:1403-1462 | files left behind in the input level are newer per user key than the inputs of that level |
| InputSelection.LeftBehindIsApart | SpotiFriend/Pods/leveldb-library/db/version_set.cc:1403-1462 | under the boundary hypothesis files left behind in the output level share no user key range with any input |
| InputSelection.PickLevelForMemTableOutput | SpotiFriend/Pods/leveldb-library/db/version_set.cc:491-516 | the chosen level never passes a file that overlaps the memtable nor grandparents beyond the limit, and it stops early only for one of the two |
| InputSelection.SomeFileOverlapsRange | SpotiFriend/Pods/leveldb-library/db/version_set.cc:122-157 | true exactly when some file of the level overlaps the range, by linear or by binary search |
| Builder.VersionBuilder.SaveTo | SpotiFriend/Pods/leveldb-library/db/version_set.cc:695-739 | the saved version is the base with all edits applied, each level in directory order |
| Builder.SaveLevel | SpotiFriend/Pods/leveldb-library/db/version_set.cc:700-738 | merging sorted base and added files, minus the deleted ones, gives the level in order |
| Builder.BuiltStep | SpotiFriend/Pods/leveldb-library/db/version_set.cc:650-692 | giving one more edit to the builder equals applying it to the version built so far |
| Builder.ReplayAgrees | SpotiFriend/Pods/leveldb-library/db/version_set.cc:886-1011 | replaying any list of edits through one builder gives the version reached by installing them one at a time |
| Builder.BuiltOnce | SpotiFriend/Pods/leveldb-library/db/version_set.cc:695-739 | the built version is unique |
| DbIter.UserCursor.Seek | SpotiFriend/Pods/leveldb-library/db/db_iter.cc:269-281 | positions at the first live user key at or after the target |
| DbIter.UserCursor.SeekToFirst | SpotiFriend/Pods/leveldb-library/db/db_iter.cc:283-292 | positions at the first live key |
| DbIter.UserCursor.SeekToLast | SpotiFriend/Pods/leveldb-library/db/db_iter.cc:294-299 | positions at the last live key |
| DbIter.UserCursor.Next | SpotiFriend/Pods/leveldb-library/db/db_iter.cc:141-166 | moves to the next live key, also right after moving backwards |
| DbIter.UserCursor.Prev | SpotiFriend/Pods/leveldb-library/db/db_iter.cc:200-225 | moves to the previous live key, also right after moving forwards |
| DbIter.UserCursor.FindNextUserEntry | SpotiFriend/Pods/leveldb-library/db/db_iter.cc:168-198 | stops at the first entry that is visible, newest for its key, not deleted and not skipped |
| DbIter.UserCursor.FindPrevUserEntry | SpotiFriend/Pods/leveldb-library/db/db_iter.cc:227-267 | going backwards keeps the newest visible version of each key and stops at the last live one |
| DbIter.UserCursor.Key | SpotiFriend/Pods/leveldb-library/db/db_iter.cc:64-67 | the user key at the position in the live map, in both directions |
| DbIter.UserCursor.Value | SpotiFriend/Pods/leveldb-library/db/db_iter.cc:68-71 | the newest visible value at the position, in both directions |
| DbIter.LiveAscends | SpotiFriend/Pods/leveldb-library/db/db_iter.cc:141-299 | the live entries have strictly increasing user keys: each key appears once |
| DbIter.LiveIsSeek | SpotiFriend/Pods/leveldb-library/db/db_iter.cc:141-299 | a key is live with an entry exactly when a point lookup finds that entry and it is a value |
| DbIter.ScanIsHistory | SpotiFriend/Pods/leveldb-library/db/db_iter.cc:141-299 | a scan over memtables and version yields exactly the keys and values that the write history shows at the snapshot |
| Merger.MergingCursor.Seek | SpotiFriend/Pods/leveldb-library/table/merger.cc:47-53 | positions every child and the whole at the first union entry at or after the target |
| Merger.MergingCursor.SeekToFirst | SpotiFriend/Pods/leveldb-library/table/merger.cc:31-37 | positions at the first entry of the sorted union |
| Merger.MergingCursor.SeekToLast | SpotiFriend/Pods/leveldb-library/table/merger.cc:39-45 | positions at the last entry of the sorted union |
| Merger.MergingCursor.Next | SpotiFriend/Pods/leveldb-library/table/merger.cc:55-79 | moves one place forward in the sorted union, repositioning the other children after a turn |
| Merger.MergingCursor.Prev | SpotiFriend/Pods/leveldb-library/table/merger.cc:81-108 | moves one place back in the sorted union, repositioning the other children after a turn |
| Merger.MergingCursor.FindSmallest | SpotiFriend/Pods/leveldb-library/table/merger.cc:148-161 | selects a child with the smallest current key, or none |
| Merger.MergingCursor.FindLargest | SpotiFriend/Pods/leveldb-library/table/merger.cc:163-176 | selects a child with the largest current key, or none |
| TwoLevel.TwoLevelCursor.Seek | SpotiFriend/Pods/leveldb-library/table/two_level_iterator.cc:82-87 | positions at the first entry at or after the target in the concatenation of all blocks |
| TwoLevel.TwoLevelCursor.Next | SpotiFriend/Pods/leveldb-library/table/two_level_iterator.cc:103-107 | moves one place forward in the concatenation |
| TwoLevel.TwoLevelCursor.Prev | SpotiFriend/Pods/leveldb-library/table/two_level_iterator.cc:109-113 | moves one place back in the concatenation |
| TwoLevel.TwoLevelCursor.SkipEmptyDataBlocksForward | SpotiFriend/Pods/leveldb-library/table/two_level_iterator.cc:115-126 | terminates, skipping empty blocks without losing the place |
| TwoLevel.TwoLevelCursor.SkipEmptyDataBlocksBackward | SpotiFriend/Pods/leveldb-library/table/two_level_iterator.cc:128-139 | terminates, skipping empty blocks backwards without losing the place |
| TwoLevel.SeekInBlock | SpotiFriend/Pods/leveldb-library/table/two_level_iterator.cc:82-87 | seeking in the index and then in one block agrees with seeking in the concatenation |
| SkipList.List.FindGreaterOrEqual | SpotiFriend/Pods/leveldb-library/db/skiplist.h:260-282 | returns the first node at or after the key, and in every level the node after which the key belongs |
| SkipList.List.PublishPointer | SpotiFriend/Pods/leveldb-library/db/skiplist.h:360-367 | after every single pointer store each level is a sorted chain contained in the one below |
| SkipList.List.Insert | SpotiFriend/Pods/leveldb-library/db/skiplist.h:336-368 | adds exactly the key, through any tower height and any old contents of the new pointers; the node is on as many levels as its height and on no more |
| SkipList.List.Contains | SpotiFriend/Pods/leveldb-library/db/skiplist.h:371-378 | true exactly for inserted keys |
| SkipList.List.SearchStep | SpotiFriend/Pods/leveldb-library/db/skiplist.h:260-303 | one move of a search keeps its invariant relative to the keys present when it began, and lowers the bound on the moves left |
| SkipList.OneMoreMove | SpotiFriend/Pods/leveldb-library/db/skiplist.h:360-367 | a store that publishes a node on a level raises the bound on the moves left of any search by at most one |
| SkipList.SearchGrows | SpotiFriend/Pods/leveldb-library/db/skiplist.h:260-303 | a search in progress survives every pointer store of the writer |
| SkipList.AnswersGrow | SpotiFriend/Pods/leveldb-library/db/skiplist.h:260-303 | an answer stays an answer for the keys present when the search began |
| SkipList.LinkChain | SpotiFriend/Pods/leveldb-library/db/skiplist.h:360-367 | one release store makes the new node part of the chain of its level |
| SkipList.Interleave | SpotiFriend/Pods/leveldb-library/db/skiplist.h:260-368 | for every schedule of the writer's stores and one reader's moves, no key present when the search began lies between its target and its result, and the search has ended once its moves are as many as the nodes of all levels plus the stores |
| LogFormat.Writer.AddRecord | SpotiFriend/Pods/leveldb-library/db/log_writer.cc:34-80 | appends the image of one record: fragments that never cross a block boundary, zero trailers included |
| LogFormat.Writer.EmitPhysicalRecord | SpotiFriend/Pods/leveldb-library/db/log_writer.cc:82-108 | appends header and payload of one fragment |
| LogFormat.Reader.ReadRecord | SpotiFriend/Pods/leveldb-library/db/log_reader.cc:56-174 | in any file whatever, a record that is returned stands there whole: consecutive fragments with matching checksums, of type full or first, middles and last, and without a report only reserved space, empty fragments and those of types 5 and 6 are passed over; on a log cut at any byte, the next record is returned exactly if it is whole, and no corruption is reported |
| LogFormat.Reader.ReadPhysicalRecord | SpotiFriend/Pods/leveldb-library/db/log_reader.cc:189-271 | returns the next fragment, skipping trailers; any fragment it returns has a matching length and checksum; the end of the file is reported only where a fragment is cut off, and every bad one is counted but reserved space |
| LogFormat.ReadAll | SpotiFriend/Pods/leveldb-library/db/log_reader.cc:56-271 | reading any byte prefix of a log returns exactly the records wholly inside it, with nothing dropped as corrupt |
| LogFormat.WholeIsPrefix | SpotiFriend/Pods/leveldb-library/db/log_reader.cc:56-271 | a record counts as inside exactly when the log up to its end fits |
| LogFormat.UnmaskMask | SpotiFriend/Pods/leveldb-library/util/crc32c.h:22-38 | unmasking undoes masking of checksums |
| Formats.FragmentsAre | SpotiFriend/Pods/leveldb-library/db/log_format.h:14-31 | a record is one fragment of type 1, or fragments of type 2, 3, ..., 3, 4, all but the last ending with a block of 32768 bytes, and together they are the record |
| Formats.HeaderIs | SpotiFriend/Pods/leveldb-library/db/log_writer.cc:82-108 | a header is checksum, length and type in seven bytes, lowest byte first, and none begins in the last six bytes of a block |
| Formats.MaskIs | SpotiFriend/Pods/leveldb-library/util/crc32c.h:22-31 | masking rotates right by 15 bits and adds 0xa282ead8 |
| Coding.EncodeVarint32 | SpotiFriend/Pods/leveldb-library/util/coding.cc:47-73 | the case-by-case encoder writes the base-128 form |
| Coding.EncodeVarint64 | SpotiFriend/Pods/leveldb-library/util/coding.cc:81-90 | the loop writes the base-128 form |
| Coding.GetVarint | SpotiFriend/Pods/leveldb-library/util/coding.cc:112-128 | the decoding loop returns the number at the front within 5 or 10 bytes, cut to the word, or fails |
| Coding.VarintRoundTrip | SpotiFriend/Pods/leveldb-library/util/coding.cc:47-169 | reading a written number gives it back with its length, whatever follows |
| Coding.VarintLength | SpotiFriend/Pods/leveldb-library/util/coding.cc:75-96 | 5 bytes are enough for 32 bits and 10 for 64 |
| Coding.Fixed32RoundTrip | SpotiFriend/Pods/leveldb-library/util/coding.cc:9-18 | fixed 32-bit numbers read back |
| Coding.Fixed64RoundTrip | SpotiFriend/Pods/leveldb-library/util/coding.cc:20-33 | fixed 64-bit numbers read back |
| Coding.LengthPrefixedRoundTrip | SpotiFriend/Pods/leveldb-library/util/coding.cc:98-190 | length-prefixed strings read back, whatever follows |
| Coding.Fixed32Is | SpotiFriend/Pods/leveldb-library/util/coding.cc:9-18 | the one string of four bytes whose digits to the base 256, lowest first, give the number |
| Coding.Fixed64Is | SpotiFriend/Pods/leveldb-library/util/coding.cc:20-33 | the one string of eight bytes that does so |
| Coding.VarintIs | SpotiFriend/Pods/leveldb-library/util/coding.cc:47-90 | the one string whose low seven bits are the digits to the base 128, lowest first, whose top bits are set but in the last byte, and which has no zero at its end |
| Comparator.FindShortestSeparator | SpotiFriend/Pods/leveldb-library/util/comparator.cc:29-50 | the start cut behind the first byte that differs, and that byte raised by one, whenever this leaves room below the limit; otherwise the start; in either case at or after the start, before the limit and no longer than the start |
| Comparator.FindShortSuccessor | SpotiFriend/Pods/leveldb-library/util/comparator.cc:52-64 | the key cut behind its first byte that is not 0xff, and that byte raised by one; a run of 0xff stays; never before the key |
| Comparator.InternalSeparator | SpotiFriend/Pods/leveldb-library/db/dbformat.cc:69-86 | for internal keys the separator is at or after start and before limit: the shorter user key with the earliest tag, or unchanged |
| Comparator.InternalSuccessor | SpotiFriend/Pods/leveldb-library/db/dbformat.cc:88-101 | for internal keys the successor is not before the key and no longer: the shorter user key with the earliest tag, or unchanged |
| Comparator.InternalOrder | SpotiFriend/Pods/leveldb-library/db/dbformat.cc:51-67 | the internal key comparison is a weak order |
| Formats.InternalKeyIs | SpotiFriend/Pods/leveldb-library/db/dbformat.cc:14-23 | an internal key is the user key and eight bytes, the type lowest and the sequence number above it |
| Block.BlockBuilder.Add | SpotiFriend/Pods/leveldb-library/table/block_builder.cc:72-106 | the buffer is the prefix-compressed image of the pairs so far, with a restart every interval |
| Block.BlockBuilder.Finish | SpotiFriend/Pods/leveldb-library/table/block_builder.cc:62-70 | the block is the image of its pairs with the array of restart offsets |
| Block.HeaderRoundTrip | SpotiFriend/Pods/leveldb-library/table/block.cc:54-75 | an entry written with any shared length parses back to it |
| Block.DecodeEntry | SpotiFriend/Pods/leveldb-library/table/block.cc:54-75 | the one-byte fast path agrees with three general varints |
| Formats.EntryIs | SpotiFriend/Pods/leveldb-library/table/block_builder.cc:10-26 | the lengths of shared prefix, rest and value, one byte each when small, then the rest of the key and the value |
| Formats.BlockIs | SpotiFriend/Pods/leveldb-library/table/block_builder.cc:62-70 | a block of one entry in bytes: the entry, the restart point 0, and 1 |
| BlockIter.Iter.Seek | SpotiFriend/Pods/leveldb-library/table/block.cc:163-201 | binary search on restarts, then the scan, stops at the first key at or after the target |
| BlockIter.Iter.Next | SpotiFriend/Pods/leveldb-library/table/block.cc:137-140 | moves to the next of the original pairs |
| BlockIter.Iter.Prev | SpotiFriend/Pods/leveldb-library/table/block.cc:142-161 | moves to the previous of the original pairs |
| BlockIter.Iter.SeekToFirst | SpotiFriend/Pods/leveldb-library/table/block.cc:203-206 | moves to the first pair |
| BlockIter.Iter.SeekToLast | SpotiFriend/Pods/leveldb-library/table/block.cc:208-213 | moves to the last pair |
| BlockIter.SeekIn | SpotiFriend/Pods/leveldb-library/table/block.cc:163-201 | seeking in a finished block returns the first original pair at or after the target |
| Bloom.CreateFilter | SpotiFriend/Pods/leveldb-library/util/bloom.cc:28-54 | appends the filter of the keys |
| Bloom.FilterIs | SpotiFriend/Pods/leveldb-library/util/bloom.cc:28-54 | the filter has the bits asked for, at least 64 and in whole bytes, of which exactly the probe bits of the keys are set, and ends with the number of probes |
| Bloom.MatchIs | SpotiFriend/Pods/leveldb-library/util/bloom.cc:56-80 | a key passes exactly if all its probe bits are set |
| Bloom.DeltaRotates | SpotiFriend/Pods/leveldb-library/util/bloom.cc:46-51 | the probes are apart by the hash rotated right by 17 bits |
| Bloom.NumProbes | SpotiFriend/Pods/leveldb-library/util/bloom.cc:18-23 | 0.69 times the bits per key rounded down, between 1 and 30 |
| Bloom.KeyMayMatch | SpotiFriend/Pods/leveldb-library/util/bloom.cc:56-80 | tests the probe bits |
| Bloom.NoFalseNegatives | SpotiFriend/Pods/leveldb-library/util/bloom.cc:28-80 | a filter matches every key it was made from, for every hash function |
| FilterBlock.FilterBlockBuilder.StartBlock | SpotiFriend/Pods/leveldb-library/table/filter_block.cc:21-27 | a filter is closed for every 2KB of data passed |
| FilterBlock.FilterBlockBuilder.GenerateFilter | SpotiFriend/Pods/leveldb-library/table/filter_block.cc:51-75 | closes the filter of the keys collected since the last one |
| FilterBlock.FilterBlockBuilder.Finish | SpotiFriend/Pods/leveldb-library/table/filter_block.cc:35-49 | the block holds all filters, their offsets and the base |
| FilterBlock.KeyMayMatch | SpotiFriend/Pods/leveldb-library/table/filter_block.cc:90-104 | the answer is that of the filter whose range the offset is in, and a match where there is none |
| FilterBlock.FilterFound | SpotiFriend/Pods/leveldb-library/table/filter_block.cc:77-104 | the reader finds in the block exactly the filter that the builder wrote for the range |
| Formats.FilterBlockIs | SpotiFriend/Pods/leveldb-library/table/filter_block.cc:35-49 | a filter block of one filter in bytes: the filter, its offset, the offset of the offsets, and 11, for filters of 2048 bytes of data |
| Table.InternalGet | SpotiFriend/Pods/leveldb-library/table/table.cc:216-244 | agrees with a scan of all entries: returns the first entry at or after the key whenever that has the key's user key, and never any other; nothing when the filter rejects the key |
| Table.PlaceInTable | SpotiFriend/Pods/leveldb-library/table/table.cc:216-244 | index search followed by block search is the search in the whole table |
| Table.NextBlockDiffers | SpotiFriend/Pods/leveldb-library/table/table.cc:216-244 | when the key lies after the last entry of the chosen block, the next block starts with another user key |
| Table.FilteredOut | SpotiFriend/Pods/leveldb-library/table/table.cc:224-229 | when the filter rejects the key, no entry of the table has its user key |
| Table.ReadBlock | SpotiFriend/Pods/leveldb-library/table/format.cc:64-139 | returns contents exactly if the handle's place in the file has them with the right type and checksum |
| Table.HandleRoundTrip | SpotiFriend/Pods/leveldb-library/table/format.cc:15-29 | block handles read back |
| Formats.StoredBlockIs | SpotiFriend/Pods/leveldb-library/table/table_builder.cc:174-196 | a handle is offset and size; a stored block is followed by type 0 and the masked checksum of both |
| TableBuilder.Builder.Add | SpotiFriend/Pods/leveldb-library/table/table_builder.cc:94-123 | the table so far is what was added, with the delayed index entry separating blocks by a short key |
| TableBuilder.Builder.Flush | SpotiFriend/Pods/leveldb-library/table/table_builder.cc:125-139 | closing the data block loses and reorders nothing |
| TableBuilder.Builder.Finish | SpotiFriend/Pods/leveldb-library/table/table_builder.cc:198-253 | the finished file, index and filter are such that lookups are exact |
| TableBuilder.Build | SpotiFriend/Pods/leveldb-library/table/table_builder.cc:94-253 | for any strictly increasing internal keys the built table holds exactly those and serves exact lookups; every block but the last has reached the block size, and had not before its last entry |
| TableBuilder.BloomMissesNoUser | SpotiFriend/Pods/leveldb-library/db/dbformat.cc:105-119 | the Bloom policy on user keys, as wrapped for internal keys, has no false negatives |
| Crc32c.Extend | SpotiFriend/Pods/leveldb-library/util/crc32c.cc:276-377 | the strided computation equals the byte-at-a-time CRC for every buffer, length and alignment |
| Crc32c.ExtendComposes | SpotiFriend/Pods/leveldb-library/util/crc32c.cc:276-377 | extending over a concatenation is extending twice |
| Crc32c.AdvanceLinear | SpotiFriend/Pods/leveldb-library/util/crc32c.cc:276-377 | the CRC is linear: a start value and the data contribute independently |
| Crc32c.WordAdvances | SpotiFriend/Pods/leveldb-library/util/crc32c.cc:312-320 | four table steps on a word are four byte steps |
| Crc32c.FoldIsCombined | SpotiFriend/Pods/leveldb-library/util/crc32c.cc:360-365 | folding the four partial results combines them in order |
| Crc32c.FoldWord | SpotiFriend/Pods/leveldb-library/util/crc32c.cc:349-358 | replacing the oldest partial result by its 16-byte advance and the next word advances the fold by that word |
| Crc32c.TablesExist | SpotiFriend/Pods/leveldb-library/util/crc32c.cc:20-247 | tables with the assumed entries exist |
| CacheTable.HandleTable.Resize | SpotiFriend/Pods/leveldb-library/util/cache.cc:122-146 | moving every handle to the new buckets keeps the set of handles, their lookups and the count |
| CacheTable.HandleTable.Insert | SpotiFriend/Pods/leveldb-library/util/cache.cc:78-92 | adds the handle, replaces and returns the one with the same key; there stay at least as many buckets as handles, and more only when needed |
| CacheTable.HandleTable.Remove | SpotiFriend/Pods/leveldb-library/util/cache.cc:94-102 | removes and returns exactly the handle with the key, if any |
| CacheTable.HandleTable.FindPointer | SpotiFriend/Pods/leveldb-library/util/cache.cc:114-120 | stops at the pointer to the handle with the key, or at the end of its bucket |
| LruCache.LRUCache.Insert | SpotiFriend/Pods/leveldb-library/util/cache.cc:266-303 | the new entry replaces the old one, and then the oldest unused entries go until usage fits or none is left |
| LruCache.LRUCache.Lookup | SpotiFriend/Pods/leveldb-library/util/cache.cc:252-259 | returns the entry with the key and takes it out of the unused ones |
| LruCache.LRUCache.Release | SpotiFriend/Pods/leveldb-library/util/cache.cc:261-264 | gives one reference back: the last one deletes, the last but the cache's makes the entry the newest unused one |
| LruCache.LRUCache.Erase | SpotiFriend/Pods/leveldb-library/util/cache.cc:318-321 | the entry with the key leaves the cache; it is deleted now or when its last client lets go |
| LruCache.LRUCache.Prune | SpotiFriend/Pods/leveldb-library/util/cache.cc:323-333 | deletes all unused entries, oldest first, and nothing else |
| LruCache.LRUCache.FinishErase | SpotiFriend/Pods/leveldb-library/util/cache.cc:307-316 | takes an entry out of its list and the usage, and drops the cache's reference |
| LruCache.RemovedRings | SpotiFriend/Pods/leveldb-library/util/cache.cc:239-242 | the two stores unlink the entry from its circle and leave the other circle alone |
| LruCache.AppendedRings | SpotiFriend/Pods/leveldb-library/util/cache.cc:244-250 | the four stores put the entry before the head of its circle and leave the other alone |
| LruCache.EvictedIs | SpotiFriend/Pods/leveldb-library/util/cache.cc:293-300 | eviction deletes the shortest prefix of the unused entries, in order, that makes usage fit |
| LruCache.LeastRecent | SpotiFriend/Pods/leveldb-library/util/cache.cc:217-250 | over every sequence of operations the unused entries are in the order in which clients last gave them back, so that eviction takes the least recently used |
| LruCache.InsertedIs | SpotiFriend/Pods/leveldb-library/util/cache.cc:266-303 | after an insertion the client holds the new entry, the replaced one is gone, and the new one is in the cache exactly if the capacity is not zero |
| LruCache.DeletedOnce | SpotiFriend/Pods/leveldb-library/util/cache.cc:217-237 | over every sequence of operations each entry is deleted exactly once, when neither a client nor the cache refers to it |
| WriteBatch.WriteBatch.Iterate | SpotiFriend/Pods/leveldb-library/db/write_batch.cc:42-80 | hands out the records in order up to the first malformed one, and reports exactly the errors of the source, whatever the bytes |
| WriteBatch.WriteBatch.Put | SpotiFriend/Pods/leveldb-library/db/write_batch.cc:98-103 | the batch holds one more record and the count says so |
| WriteBatch.WriteBatch.Delete | SpotiFriend/Pods/leveldb-library/db/write_batch.cc:105-109 | the batch holds one more deletion and the count says so |
| WriteBatch.WriteBatch.Append | SpotiFriend/Pods/leveldb-library/db/write_batch.cc:144-148 | the batch holds the records of both, in order |
| WriteBatch.WriteBatch.InsertInto | SpotiFriend/Pods/leveldb-library/db/write_batch.cc:132-137 | the memtable gets the records with consecutive sequence numbers from the batch's on |
| WriteBatch.IteratesBack | SpotiFriend/Pods/leveldb-library/db/write_batch.cc:42-109 | iterating over a built batch gives back its records and number |
| WriteBatch.IterateFlaws | SpotiFriend/Pods/leveldb-library/db/write_batch.cc:42-80 | of a batch that is too short, cut off inside a record, of an unknown type or with a wrong count, the records before the flaw are handed out, with the message for it |
| Formats.BatchIs | SpotiFriend/Pods/leveldb-library/db/write_batch.cc:27-32 | a batch in bytes: number and count in twelve, lowest byte first, type 1 with key and value for a put, type 0 with the key for a deletion |
| GroupCommit.BuildBatchGroup | SpotiFriend/Pods/leveldb-library/db/db_impl.cc:1260-1306 | the result holds the batches of a prefix of the queue in order, the prefix that the sync and size rules give, without touching a client's batch |
| GroupCommit.GroupIs | SpotiFriend/Pods/leveldb-library/db/db_impl.cc:1267-1304 | no sync write is in a group led by a non-sync one; a group of several batches is within 1048576 bytes, or 131072 more than a first batch of at most 131072; it stops only where a rule says so, and a small batch that may join always does |
| WriterQueue.StepInv | SpotiFriend/Pods/leveldb-library/db/db_impl.cc:1185-1256 | every step of every writer keeps the invariant of queue, log, memtable and published number |
| WriterQueue.CompletedInOrder | SpotiFriend/Pods/leveldb-library/db/db_impl.cc:1185-1256 | over every schedule writers complete exactly once, in the order of their arrival |
| WriterQueue.CommittedHistory | SpotiFriend/Pods/leveldb-library/db/db_impl.cc:1204-1236 | log and memtable are the batches of the completed writers, concatenated in that order with consecutive numbers |
| WriterQueue.SnapshotsSeeWholeGroups | SpotiFriend/Pods/leveldb-library/db/db_impl.cc:1206-1236 | no snapshot ever sees part of a group |
| WriterQueue.SyncWritesAreDurable | SpotiFriend/Pods/leveldb-library/db/db_impl.cc:1216-1218 | an acknowledged sync write and everything before it is in the synced part of the log |
| VersionEdit.VersionEdit.EncodeTo | SpotiFriend/Pods/leveldb-library/db/version_edit.cc:41-85 | appends the items of the edit in the fixed order |
| VersionEdit.VersionEdit.DecodeFrom | SpotiFriend/Pods/leveldb-library/db/version_edit.cc:107-205 | reads items until the input ends or one is malformed, with the same messages and the same partial edit, whatever the bytes; compaction pointers already there stay |
| VersionEdit.RoundTrip | SpotiFriend/Pods/leveldb-library/db/version_edit.cc:41-205 | decoding an encoded edit gives exactly the edit |
| VersionEdit.EditCut | SpotiFriend/Pods/leveldb-library/db/version_edit.cc:107-205 | of an edit that is cut off, the items before the cut are kept, and unless the cut is between items the message names the kind of the item |
| Formats.ItemsAre | SpotiFriend/Pods/leveldb-library/db/version_edit.cc:12-85 | the items in bytes, with the tags 1 to 7 and 9 |
| VersionEdit.ReadManifest | SpotiFriend/Pods/leveldb-library/db/version_set.cc:931-965 | reading a manifest cut at any byte gives exactly the edits wholly written |
| PbRoundTrip.MessageRoundTrip | SpotiFriend/Pods/nanopb/pb_encode.c:144-541 | for every descriptor with distinct non-zero field numbers and every valid static message, nested to any depth, decoding the encoding succeeds, and restores presence, counts and present values if and only if every field without has_ member that is left out as zero has what its default stands for |
| PbWire.ForwardCompatible | SpotiFriend/Pods/nanopb/pb_decode.c:925-1073 | decoding a message with a descriptor from which any of its fields are removed, at the top level, succeeds and gives the other fields as if the message had been written without them |
| PbWire.SkipWritten | SpotiFriend/Pods/nanopb/pb_decode.c:321-330 | skipping fits writing: by the wire type alone a reader gets past every value that can be written |
| PbWire.UnknownField | SpotiFriend/Pods/nanopb/pb_decode.c:980-1000 | whatever a field that the descriptor does not have has written, packed or not, changes nothing |
| PbWire.KeyByte | SpotiFriend/Pods/nanopb/pb_encode.c:660-698 | the first byte of a field with a number below 16 is 8 times the number plus 0, 1, 2 or 5 for varint, 64-bit, length-delimited and 32-bit kinds |
| PbWire.PackedKeyByte | SpotiFriend/Pods/nanopb/pb_encode.c:144-200 | a packed array is length-delimited |
| PbWire.GuideExamples | SpotiFriend/Pods/nanopb/pb_encode.c:599-756 | the examples of the encoding guide: 150 as 08 96 01, a string with its length, and a message inside a message |
| PbWire.SignedBytes | SpotiFriend/Pods/nanopb/pb_encode.c:599-630 | plain negative numbers take ten bytes as two's complement of 64 bits; zigzag gives 0, 1, 2, 3 for 0, -1, 1, -2 |
| PbWire.ZeroIsMemset | SpotiFriend/Pods/nanopb/pb_encode.c:237-328 | a value counts as default exactly if it is read back from zeroed memory; bytes of a fixed size only if there are none |
| PbLimits.StrangersRead | SpotiFriend/Pods/nanopb/pb_decode.c:925-1073 | a message none of whose fields the reader knows is accepted exactly if the reader requires no field, and leaves every member at its default |
| PbLimits.Varint32Takes | SpotiFriend/Pods/nanopb/pb_decode.c:187-247 | exactly which numbers the decoder of 32-bit numbers takes: those of 32 bits, and those that look like a sign extension; not all of the latter are one |
| PbLimits.NumbersFit | SpotiFriend/Pods/nanopb/pb_decode.c:1329-1412 | a number is read into a member of 1, 2, 4 or 8 bytes exactly if it fits; signed members below 8 bytes look only at the low 32 bits |
| PbLimits.StringsFit | SpotiFriend/Pods/nanopb/pb_decode.c:1431-1549 | strings fit with their NUL, bytes with their length, bytes of a fixed size exactly or when there are none |
| PbLimits.ArraysFit | SpotiFriend/Pods/nanopb/pb_decode.c:424-451 | a packed array is read exactly if there is room for all its elements |
| PbLimits.UnknownTypeFails | SpotiFriend/Pods/nanopb/pb_decode.c:321-330 | an unknown field of any other wire type is an error |
| PbLimits.ZeroEnds | SpotiFriend/Pods/nanopb/pb_decode.c:298-318 | a zero in place of a key ends the message |
| PbLimits.WriterRefuses | SpotiFriend/Pods/nanopb/pb_encode.c:144-160 | arrays longer than their size, bytes beyond theirs and integers of a size that there is not have no encoding |
| PbDefaults.RestoresExactly | SpotiFriend/Pods/nanopb/pb_decode.c:836-917 | every valid message of a descriptor comes back if and only if every field without has_ member, here and in the messages inside, has no default or one that stands for zero |
| PbDefaults.FitsExactly | SpotiFriend/Pods/nanopb/pb_encode.c:237-328 | that condition on the descriptor holds if and only if all its valid messages, of any size, keep their defaults |
| PbDefaults.UnfitLoses | SpotiFriend/Pods/nanopb/pb_decode.c:859-890 | for every other descriptor there is a valid message, possibly with the field deep inside, that loses a default |
| PbDefaults.MessageSize | SpotiFriend/Pods/nanopb/pb_encode.c:519-541 | no valid message takes more bytes than the maximum encoded size computed from its descriptor |
| PbDefaults.OtherDefaultLost | SpotiFriend/Pods/nanopb/pb_decode.c:859-890 | the input: a number without has_ member, with value zero and another default, encodes to nothing and comes back as the default |
| PbRoundTrip.FieldStep | SpotiFriend/Pods/nanopb/pb_decode.c:925-1073 | the decoding loop consumes exactly what one field wrote (packed, unpacked, absent, oneof or message) and restores it, leaving the others as they were |
| PbRoundTrip.DefaultsCopied | SpotiFriend/Pods/nanopb/pb_encode.c:237-328 | a message left out because all its fields are at their defaults is copied by the default message |
| PbRoundTrip.FieldsEncode | SpotiFriend/Pods/nanopb/pb_encode.c:519-541 | every valid message has an encoding |
| PbRoundTrip.EncodesAlike | SpotiFriend/Pods/nanopb/pb_encode.c:144-541 | encoding, decoding and encoding again gives the same bytes, for every message that keeps its defaults |
| PbEncoder.EncodeMessage | SpotiFriend/Pods/nanopb/pb_encode.c:519-541 | the stream gets exactly the encoding, or fails when there is none or no room |
| PbEncoder.EncodeSubmessage | SpotiFriend/Pods/nanopb/pb_encode.c:708-756 | the counting pass and the limited second pass agree: a size is never announced that is not written |
| PbEncoder.EncodePackedArray | SpotiFriend/Pods/nanopb/pb_encode.c:159-200 | tag, total size and elements of a packed array, with the size by product or by counting |
| PbEncoder.EncodeVarint | SpotiFriend/Pods/nanopb/pb_encode.c:599-619 | the ten-byte buffer is enough and holds the base-128 form |
| PbEncoder.EncodeSVarint | SpotiFriend/Pods/nanopb/pb_encode.c:621-630 | shift and complement give the zigzag number |
| PbEncoder.CheckDefault | SpotiFriend/Pods/nanopb/pb_encode.c:237-328 | true exactly when the field is at its proto3 default, recursively |
| PbEncoder.GetEncodedSize | SpotiFriend/Pods/nanopb/pb_encode.c:558-567 | the counted size is the length of the encoding |
| PbDecoder.DecodeMessage | SpotiFriend/Pods/nanopb/pb_decode.c:925-1073 | the loop over the stream computes the decoding of its bytes: unknown fields skipped, fixed-count arrays complete, required fields seen |
| PbDecoder.IStream.DecodeVarint32 | SpotiFriend/Pods/nanopb/pb_decode.c:187-247 | reads 32-bit varints with the source's overflow and sign extension rules |
| PbDecoder.IStream.DecodeVarint | SpotiFriend/Pods/nanopb/pb_decode.c:255-275 | reads varints of at most ten bytes, cut to 64 bits |
| PbDecoder.IStream.MakeSubstream | SpotiFriend/Pods/nanopb/pb_decode.c:372-385 | the substream covers exactly the announced bytes, or the parent is too short |
| PbDecoder.IStream.Skip | SpotiFriend/Pods/nanopb/pb_decode.c:321-330 | consumes exactly one value of the wire type, or fails |
| PbDecoder.DecodeElements | SpotiFriend/Pods/nanopb/pb_decode.c:424-451 | fills a packed array until the bytes end; bytes that do not fit are an overflow |
| PbDecoder.RequiredSeen | SpotiFriend/Pods/nanopb/pb_decode.c:1032-1070 | true exactly when every required field among the first 64 was seen |
| PbDecode.Varint32RoundTrip | SpotiFriend/Pods/nanopb/pb_decode.c:187-247 | 32-bit numbers that the encoder writes read back |
| PbFields.FieldIter.FindField | SpotiFriend/Pods/nanopb/pb_common.c:78-97 | the circular search from any position finds the field with the number, or comes back to where it was |
| PbFields.FieldIter.Next | SpotiFriend/Pods/nanopb/pb_common.c:20-76 | steps to the next field with its member and count of required fields, or wraps |
| PbFields.DefaultAt | SpotiFriend/Pods/nanopb/pb_decode.c:836-917 | every member starts at the default of its field, also when a oneof shares it |

## Left out

- Environment errors other than crashes, the background error state, paranoid checks and read sampling.
- `reuse_logs` and `ReuseManifest`: the option is off in the model.
- Manual compaction: its inputs may leave gaps between files, which the argument for flushes during a compaction excludes.
- Repairing a damaged database, and resynchronising a log from a given offset.
- LogFormat.Reader.ReadRecord: which whole records behind damage in the middle of a log are found again is not stated.
- Compaction scores: which level is compacted, and the seek statistics, are an arbitrary choice.
- Back pressure in `MakeRoomForWrite`: when a memtable is switched is an arbitrary choice, and delays change no state.
- The encoding of memtable entries in the arena, and the circular list of snapshots: snapshots are a set of numbers.
- Memory order: one atomic store or load is one step. `SkipList.Interleave` has one reader; readers do not affect others.
- Backward moves of the skip list's own iterator are searches of the kind that `SkipList.Interleave` covers.
- The table footer and metaindex, and writing index and filter blocks into the file: lookups get both as bytes.
- Snappy compression, block caching on reads and mapped files.
- Corrupted blocks: the block iterator is modelled on blocks that a builder made.
- The checksum tables' literal entries: `Crc32c.TablesOk` says what they must be and `Crc32c.TablesExist` that it is possible.
- The accelerated checksum of some processors, and sharding of the cache over 16 LRU caches.
- nanopb callbacks, extensions, pointer fields and allocation, and streams other than memory.
- The terminator record of an empty descriptor, which the source's search would accept for field number 0.
- PbDecoder.IStream.DecodeVarint32: the position of bits is unbounded, the source's is 8 bits wide, which matters for varints with more than 36 trailing bytes.
- PbDecode.DecodeDatum: a decoded string keeps the bytes up to its terminator, not what the buffer held after them.
- PbRoundTrip.MessageRoundTrip: messages whose encoding is 4 GB or more are excluded, because the decoder reads lengths as 32-bit numbers.
- PbDefaults.RestoresExactly: descriptors whose largest message takes 4 GB or more are excluded for the same reason; for them there is `FitsExactly`, and `MessageRoundTrip` for each smaller message.
- TableBuilder.Build: stops at files of the largest size for which offsets fit, where the program goes on.
- CompactionJob.DoCompactionWork: whether an output is full is an arbitrary function of its entries, where the program asks the size of the file written so far.
- PbWire.ForwardCompatible: the fields that the reader lacks are of the outer message; in messages inside, `UnknownField` holds for each.
- BoundaryFiles.DeletedValueReturns: that a run of the engine reaches this version is not shown.
- Updates of a destination structure by the nanopb decoder are modelled on values: aliasing of members is not captured beyond unions.
- The Swift sources, and libraries of which only headers are present.
