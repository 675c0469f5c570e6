# Verified model of the recording store, its readers and its manifests

The network video recorder stores the segments of all cameras as length-prefixed records in a ring of fixed-size
files, keeps an in-memory index of what is in them, and serves exports, single segments and HLS/DASH manifests from
that index while a single writer keeps going. This project models that core and proves what it promises.

## Layout

* `Bytes`, `RecordFormat`, `PoolScan` — byte strings, the 64-byte file header and the 40-byte record header (printer
  and parser), and the scan that recovers records from raw bytes.
* `PoolModel`, `ChunkPool` — the ring of files as a value, and the object whose methods are proved against it.
* `SegmentIndex`, `Sorting` — the index, likewise in both forms. The ordered map is represented by its values in key
  order; the key is (camera id, start, segment id).
* `WriterModel`, `GlobalWriter`, `Handlers` — the writer's cycle "check, evict, append or rotate, insert", whole runs
  of it with a history of what was accepted, and the storage invariant `Inv`. Every append is told what the outside
  world answers (`Env`): the clock, and for the header write and the record write whether they fail and after how
  many bytes; a rotation is told what the reader counters become while it sleeps. `Handlers` takes and returns the
  guards of an export and of a segment request on the real counters.
* `Recovery`, `ScanRoundTrip`, `Resume`, `Restart`, `FirstLap` — restart: arbitrary bytes, files in use, which file
  is resumed, the order of the scan, what a restart after any number of laps gives back, and what more can be said in
  the first lap.
* `StaleReads`, `StaleRequests` — what a location reads after its file has been rotated into, any number of times,
  and what that means for segment requests in every interleaving.
* `RingHistory`, `Retention` — runs from a fresh store: the index as a part of the history, and how much is kept.
* `Protocol`, `Readers`, `GuardedFiles` — the writer and any number of readers as a transition system: two read-write
  locks, one reader counter per file, writes and reads that may stop after any byte. The system carries the atomic
  model as an auxiliary variable (`run`) and is proved to stay in step with it. `GuardedFiles` says which files an
  export guards and what a rotation has waited for.
* `LiveWindow`, `RestartedWindow`, `Numbering`, `Manifests` — what is derived from the index: live window and blocking
  reload, in runs of a fresh and of a restarted store, numbering, HLS playlists and DASH manifests, and what a player
  makes of them.
* `Fragments` — the fragment state machine of one camera connection.
* `Blocks` — the grouping of recordings in the browser.

Segments are numbered by one counter for all cameras. A *pass* of a file is what happens to it between two rotations
into it; `turns` counts the rotations into each file, `gen` stamps each accepted record with the number of rotations
before it, and `remnants` are the bytes failed record writes left behind. Instants are nanoseconds in the range the
date library can represent (years -262143 to 262142).

## Results that are not what the documentation suggests

* The record header is 40 bytes; the comment at the head of `chunk_pool.rs` says 32.
* Cameras whose ids agree in their first 16 bytes become one camera after a restart, and an id cut inside a character
  becomes the empty id (`RecordFormat.RememberedId`).
* `open` does not always resume at the file written last: when the number of rotations is a multiple of n > 1 it
  resumes at file n-1 (`Resume.ResumesAt`), because ids grow by n from different starting points.
* Sorting the full scan by (pool id, offset) is chronological only in the first lap or when the ring stands at its
  last file (`Resume.ScanInOrderIff`).
* Ids are dealt out anew in that order at a restart. Over all later runs, a blocking request that has been served
  never waits again, and the indexed ids stay a suffix, exactly under conditions on the order in which the ring comes
  to the scanned files (`RestartedWindow.NeverBlocksTwiceIff`, `RestartedWindow.RestartedSuffixIff`); when no
  write failed, the latter holds unless the ring has come round and stands at neither its first nor its last file
  (`RestartedWindow.RingOrderIff`).
* The pool id in a location is not checked when it is read. A segment request whose file is rotated into between
  lookup and read returns the payload it was asked for exactly when no later pass has put other bytes over it
  (`StaleRequests.SegmentsExactIff`; after one rotation, exactly when the write tail is still at or before the payload
  or the bytes over it coincide, what failed writes left behind included, `StaleReads.UnharmedOnce`). Executions in
  which it returns another record's payload exist (`StaleRequests.OtherPayloadServed`, `StaleRequests.StaleExample`).
  Reads made while the file still carries the location's id are exact (`Readers.SegmentsAreExact`).
* Entry j of a manifest has the number first + j exactly when ids go up along the list without gaps
  (`Numbering.NumbersAgreeIff`, `Manifests.DashNamesIff`), that is, when segments start in id order and no other
  camera's record was accepted in between (`Numbering.CameraNumbersIff`); `Numbering.TwoCamerasDisagree` is a run
  after which it fails.
* The live playlist announces the configured segment duration as its target; it keeps to it only while no listed
  segment is half a second longer (`Manifests.LiveKeepsTargetIff`).
* A request too large for any file evicts the next file's entries before it is refused. The index is exactly what
  was accepted during the last n passes if and only if no such request has come since the last rotation, or nothing
  had been accepted in the oldest pass (`RingHistory.LastPassesIff`); `RingHistory.OversizedForgets` is a run that
  forgets a record. Failing writes do no such harm.

## Model

| member | source | states |
|---|---|---|
| RecordFormat.CameraIdRoundTrip | src/storage/chunk_pool.rs:393-398 | a UTF-8 camera id survives being written and scanned exactly when it has at most 16 bytes and no trailing NUL |
| RecordFormat.RememberedId | src/storage/chunk_pool.rs:252-255 | what a restart makes of any id: its first 16 bytes without trailing NULs, or nothing when the cut goes through a character |
| RecordFormat.Utf8Iff | src/storage/chunk_pool.rs:395-396 | the id field is accepted exactly when it is the encoding of a sequence of Unicode scalar values (section 3 of RFC 3629) |
| RecordFormat.HeaderBytes | src/storage/chunk_pool.rs:249-260 | the 40 header bytes of any request one by one: magic, first 16 bytes of the id padded with zeros, both times in seconds and the length, little-endian |
| RecordFormat.HeaderMeans | src/storage/chunk_pool.rs:381-408 | 40 bytes are a header exactly when they start with the magic, and then every field is the number or text its bytes spell |
| RecordFormat.ParseEncoded | src/storage/chunk_pool.rs:249-261 | parsing a written record header gives the id as its 16-byte field remembers it, both times floored to seconds, and the length modulo 2^32 |
| RecordFormat.SelfDescribingIff | src/storage/chunk_pool.rs:260-261 | a written record can be stepped over by a scan exactly when its payload is shorter than 2^32 bytes |
| RecordFormat.PoolHeaderBytes | src/storage/chunk_pool.rs:306-327 | the 64 bytes of a file header one by one |
| RecordFormat.PoolIdMeans | src/storage/chunk_pool.rs:348-362 | the id read from a file is the number in its bytes 8 to 15, or 0 without the magic |
| RecordFormat.PoolIdRoundTrip | src/storage/chunk_pool.rs:348-362 | a file header written over any file reads back with its pool id |
| PoolScan.ScanRecords | src/storage/chunk_pool.rs:366-433 | the scan loop returns, for any bytes, exactly the records of the recursive scan from byte 64 on |
| PoolScan.FitsIff | src/storage/chunk_pool.rs:375-413 | a record is found at an offset exactly when 40 bytes remain, they start with the magic, and the length in their last four still fits the file |
| PoolScan.ScannedFields | src/storage/chunk_pool.rs:382-424 | every record found carries what its own header bytes say; a time outside the representable range is the clock's |
| PoolScan.ScanTiles | src/storage/chunk_pool.rs:382-429 | for any bytes the scan stays inside the file, its records lie side by side without gaps, and it stops only where no fitting header stands |
| PoolScan.ScanFromBoundary | src/storage/chunk_pool.rs:382-429 | a scan restarted at one of its own record boundaries finds exactly the remaining records |
| PoolScan.ScanSameTail | src/storage/chunk_pool.rs:382-429 | a scan from an offset depends on nothing before that offset |
| PoolScan.ScanOfRecords | src/storage/chunk_pool.rs:382-429 | records written side by side are found in order, as a prefix of the scan |
| PoolScan.ScannedAreSelfDescribing | src/storage/chunk_pool.rs:393-424 | the bytes of every record found parse, on their own, to what the scan reported |
| PoolScan.NoMagicNoRecord | src/storage/chunk_pool.rs:383-391 | nothing is found in a zero-filled file |
| PoolModel.OpenValid | src/storage/chunk_pool.rs:162-214 | opening any full-length files gives used counts within capacity and 64-bit ids |
| PoolModel.OpenedStore | src/storage/chunk_pool.rs:162-214 | for any mixture of present and missing files: ids and bytes as found, used bytes as scanned, new files blank with their position as id (the first of an empty disk with its header), the resumed file has the highest id, and only an empty disk's first header can make it fail |
| PoolModel.RotateOutcome | src/storage/chunk_pool.rs:277-304 | a rotation turns to the following file, raises its id by n modulo 2^64, counts nothing in it as used, and writes its header or a beginning of it over the old one; all else stays |
| PoolModel.Latest | src/storage/chunk_pool.rs:187-190 | the resumed file is the last one with the highest id on disk |
| PoolModel.AppendOutcome | src/storage/chunk_pool.rs:217-272 | which refusal comes exactly when, that nothing but the written file changes, and that an accepted payload reads back from the place returned |
| ChunkPoolClass.PoolReadCounters.constructor | src/storage/chunk_pool.rs:112-118 | one counter per file, all zero |
| ChunkPoolClass.PoolReadCounters.Acquire | src/storage/chunk_pool.rs:121-127 | one counter goes up by one, the others stay |
| ChunkPoolClass.PoolReadCounters.Release | src/storage/chunk_pool.rs:134-155 | one counter goes down by one, the others stay |
| ChunkPoolClass.ChunkPool.Open | src/storage/chunk_pool.rs:162-214 | slots, resumed file, files on disk and zeroed counters after opening any mixture of present and missing files; fails only when the first header cannot be written to an empty disk |
| ChunkPoolClass.ChunkPool.Rotate | src/storage/chunk_pool.rs:277-304 | new state and files after a rotation, header failure included; it sleeps at most 50 times, each time because the next file had readers, and gives up before that only when it has none |
| ChunkPoolClass.ChunkPool.Append | src/storage/chunk_pool.rs:217-272 | state, files and outcome of an append for every combination of size, rotation and write failure |
| ChunkPoolClass.ChunkPool.ReadSegmentData | src/storage/chunk_pool.rs:330-343 | the payload bytes at a location, or an error beyond the end of the file; the read and the reader counters at that moment are logged |
| ChunkPoolClass.ChunkPool.ScanAllPools | src/storage/chunk_pool.rs:436-445 | all files' records in the stable order of (pool id, offset) |
| IndexModel.KeyOrder | src/storage/index.rs:29-36 | the index key is totally ordered |
| IndexModel.LexLeIff | src/storage/index.rs:29-36 | camera ids are ordered as in a dictionary, byte by byte |
| IndexModel.InsertedEntry | src/storage/index.rs:51-76 | an insertion adds one entry numbered by the counter, drops none and keeps key order |
| IndexModel.ForCameraListsAll | src/storage/index.rs:85-90 | a camera's list is all of its entries and, in an index in key order, chronological |
| IndexModel.InRangeListsRange | src/storage/index.rs:94-104 | a range lookup returns a segment if and only if it is the camera's and was recording at some instant of the range (segments or ranges without an instant: by their ends), chronologically |
| RestartedWindow.ListedInTimeOrder | src/storage/index.rs:85-104 | after a restart from any scanned store and any run, in whatever order segments arrive and files are scanned, camera lists and range lookups are complete and strictly in time order, equal starts by id |
| IndexModel.RebuildEntries | src/storage/index.rs:130-142 | a rebuilt index holds exactly the scanned records, in key order, numbered 0..k-1 in scan order |
| SegmentIndexClass.SegmentIndex.constructor | src/storage/index.rs:46-48 | a new index is empty and counts from 0 |
| SegmentIndexClass.SegmentIndex.Insert | src/storage/index.rs:51-76 | the entry gets the next id and its place in key order |
| SegmentIndexClass.SegmentIndex.EvictPool | src/storage/index.rs:80-82 | exactly the entries of one file go, the others keep their order |
| SegmentIndexClass.SegmentIndex.RebuildFromScanned | src/storage/index.rs:130-142 | the loop computes the rebuilt index whatever was in it before |
| SegmentIndexClass.SegmentIndex.Cameras | src/storage/index.rs:121-126 | every camera id of the index exactly once, in byte order |
| WriterModel.RunStepIsStep | src/storage/global_writer.rs:103-146 | the history only watches: the system it rides on takes exactly the writer's step |
| WriterModel.EvictedInv | src/storage/global_writer.rs:114-118 | eviction keeps the storage invariant and removes exactly the next file's entries |
| WriterModel.RotatedInv | src/storage/chunk_pool.rs:277-304 | a rotation, complete or failed anywhere in its header, keeps the invariant once the next file has no entries |
| WriterModel.RecordedInv | src/storage/global_writer.rs:120-145 | a record write, complete or failed after any byte, and the insert that follows keep the invariant |
| WriterModel.RunStepInv | src/storage/global_writer.rs:103-146 | every iteration of the writer keeps the storage invariant |
| WriterModel.RunAllInv | src/storage/global_writer.rs:103-146 | every run of the writer keeps the storage invariant |
| WriterModel.PoolIdUnique | src/storage/chunk_pool.rs:293-295 | a file's id recurs only after 2^64 / n rotations into it |
| WriterModel.EntryReadable | src/storage/chunk_pool.rs:330-343 | an entry carries its file's current id, lies in its used part, and reads back as the payload accepted under its id |
| GlobalWriter.InvReadable | src/storage/global_writer.rs:107-132 | under the invariant every entry is readable and no two entries share a byte |
| GlobalWriter.StorageInvariant | src/storage/global_writer.rs:77-149 | after a restart from any scanned store and any run, failures and oversized requests included, every entry is in bounds, disjoint from the others and exact |
| GlobalWriter.WriterLoop | src/storage/global_writer.rs:77-149 | pool and index after serving any list of requests are those of the model's run |
| GlobalWriter.Serve | src/storage/global_writer.rs:103-146 | one iteration on the real objects is the model's step |
| GlobalWriter.ExportRange | src/playback.rs:44-68 | an export reads, once each and in time order, exactly the accepted payloads of the segments recording during the range, and fails only when there are none |
| Handlers.FilesToGuard | src/api.rs:312-317 | the files an export guards: those its entries lie in, each once |
| Handlers.AcquireAll | src/api.rs:317-319 | exactly the guarded files have one more reader |
| Handlers.ReleaseAll | src/api.rs:335-335 | every guard of an export is given back |
| Handlers.HandleExport | src/api.rs:308-335 | while each segment is read, exactly the files of the overlapping segments have one guard more than before; all are given back, and the accepted payloads of exactly those segments come out in time order |
| Handlers.HandleHlsSegment | src/api.rs:637-680 | not found exactly when the camera has no entry with that id, else the payload accepted under it, read while its file had one guard more; the guard is given back |
| Recovery.FullScanByFile | src/storage/chunk_pool.rs:436-445 | every file's records appear in the full scan exactly once and in file order |
| Recovery.FullScanRecords | src/storage/chunk_pool.rs:436-445 | scanned records are in bounds, carry their file's id, and those of one file are listed in offset order without overlap |
| Recovery.FullScanOrder | src/storage/chunk_pool.rs:442-444 | the full scan is ordered by (pool id, offset), and by file where two headers carry the same id |
| Recovery.StartInv | src/storage/global_writer.rs:82-99 | a system rebuilt by scanning satisfies the storage invariant |
| Recovery.BytesStay | src/storage/chunk_pool.rs:233-271 | the bytes of a record stay as they are through any run until its file is rotated into |
| Recovery.RestartFromAnyDisk | src/storage/global_writer.rs:82-146 | for any bytes in full-length files: opening succeeds, the invariant holds at once and after any run, recovered records are numbered 0..k-1 and keep their bytes until their file is rotated into |
| Recovery.RunAllLog | src/storage/chunk_pool.rs:233-271 | after any run the used part of every file is exactly the records of its current pass, one after the other |
| ScanRoundTrip.StartLog | src/storage/chunk_pool.rs:184-192 | right after a restart the used part of every file is exactly the recovered records, and the storage invariant holds |
| ScanRoundTrip.RunAllTail | src/storage/chunk_pool.rs:293-303 | over every run, whatever fails, every file holds behind its used part its previous content, except where failed record writes of the current pass left bytes |
| ScanRoundTrip.ScanFindsLog | src/storage/chunk_pool.rs:366-433 | scanning a file in use lists the records of its current pass, in order, as a prefix, and nothing more exactly when no fitting header stands at the write tail |
| ScanRoundTrip.RunAllPrevious | src/storage/chunk_pool.rs:293-303 | over every run, failed writes included, what a file held when last rotated into began with the accepted records of the pass that ended there |
| ScanRoundTrip.ScanFindsRemains | src/storage/chunk_pool.rs:366-433 | what follows the current pass in a scan is what the previous content held from the tail on, unless a failed record write of that file's current pass left bytes there; on one of its record boundaries, exactly its remaining records |
| ScanRoundTrip.ScanFindsOldPass | src/storage/chunk_pool.rs:366-433 | under the same condition, when the tail stands after k records of the previous pass, a scan gives the current pass, then exactly the accepted records of the previous pass from k on, then what was found behind that pass |
| RingHistory.FreshStart | src/storage/chunk_pool.rs:171-210 | a store created on an empty disk starts with an empty index and history and satisfies the invariants |
| RingHistory.NextIsOldest | src/storage/global_writer.rs:114-118 | the file about to be evicted holds the oldest indexed pass and nothing else |
| RingHistory.RunStepRing | src/storage/global_writer.rs:103-146 | one iteration keeps the ring invariant and, whatever fails, an exact account of which accepted records are indexed; nothing dropped comes back |
| RingHistory.RunAllRing | src/storage/global_writer.rs:103-146 | every run keeps the ring invariant and that account; an id once dropped from the index never comes back |
| RingHistory.IndexRefinesHistory | src/storage/global_writer.rs:103-146 | for every run of a fresh store the indexed ids are a suffix of the accepted ones ending at the counter, and a record is indexed exactly when it is of the last n passes and, if a request too large for a file came since the last rotation, not of the oldest of them (or accepted after that request) |
| RingHistory.LastPassesIff | src/storage/global_writer.rs:113-118 | the index is exactly the last n passes if and only if no request too large for a file came since the last rotation or the oldest pass had nothing |
| RingHistory.FittingRunsHoldLastPasses | src/storage/global_writer.rs:103-146 | with requests that fit a file, failing writes or not, the index always is exactly the last n passes |
| RingHistory.OversizedForgets | src/storage/global_writer.rs:113-118 | a run of two files and three requests after which a record of the last two passes, its bytes untouched, is not indexed |
| Retention.RetentionBounds | src/storage/chunk_pool.rs:226-271 | when no write fails and records have at most m bytes, the live bytes never exceed n files, never fall below (n-1)*(cap-m+1) after n-1 rotations, and each rotation is paid for by cap-m+1 accepted bytes |
| Resume.RunFollow | src/storage/chunk_pool.rs:293-303 | every slot's id in memory and on disk follows a closed form in the number of rotations |
| Resume.Reopen | src/storage/chunk_pool.rs:162-214 | reopening the files of a store succeeds, changes no byte, and counts used bytes as scanned |
| Resume.ResumesAt | src/storage/chunk_pool.rs:183-196 | after r rotations of a fresh store a restart resumes at file r mod n if and only if n = 1 or r mod n is not 0, and otherwise at file n-1 |
| Resume.ScanInOrderIff | src/storage/chunk_pool.rs:436-445 | when no write fails, whatever the sizes of the requests, the full scan lists files in the order they were written if and only if r < n or r mod n = n-1 |
| Restart.ScannedIffLive | src/storage/chunk_pool.rs:436-445 | a record of the full scan lies in the used part of its file exactly when it recalls a record not rotated over |
| Restart.RestartRecoversLive | src/storage/global_writer.rs:82-99 | after any run and any number of laps, failed writes and too large requests included, a restart recovers every record not rotated over, at its place, and anything else it finds lies behind the used parts |
| Restart.RecoversOnlyLiveIff | src/storage/global_writer.rs:82-99 | after any run a restart recovers the records not rotated over and nothing else if and only if no fitting record header stands at the write tail of any file |
| Restart.RangeOfRecalled | src/storage/index.rs:94-104 | what flooring both times to the second does to the overlap condition for whole-second bounds |
| Restart.RangeAfterRestart | src/storage/index.rs:94-104 | after a restart of any run every indexed record has an entry with the same file, offset, size and payload; a whole-second range query returns it exactly when the live one did and it ends at least a second after `from` |
| Restart.RangeInventsNothing | src/storage/index.rs:94-104 | what such a query returns from the used parts is a live record that overlapped the range before |
| FirstLap.RestartRecoversAll | src/storage/global_writer.rs:82-99 | with fewer than n rotations and no failed write a restart recovers exactly the accepted records, in order, with their ids and locations, whatever was refused as too large |
| Protocol.WriterStepCore | src/storage/global_writer.rs:103-146 | every step of the writer, a single batch of bytes included, leaves files and index as the atomic model with a write failing right there would |
| Protocol.SharedStore | src/storage/global_writer.rs:103-146 | at any moment, between any two bytes of a write, the shared store is that of a state satisfying the storage invariant |
| Protocol.EntryBytes | src/storage/chunk_pool.rs:330-343 | at any moment, also in the middle of a rotation or an append, every index entry reads as the payload accepted under its id |
| Protocol.SameIdSameBytes | src/api.rs:663-668 | while a file carries a location's id, reading there gives the original payload, however old the lookup |
| Readers.WriterStepInv | src/storage/global_writer.rs:103-146 | the writer's steps keep locks, counters and every reader's claims |
| Readers.ReaderStepInv | src/api.rs:310-335 | a reader's step (lookup, guard, lock, batch of bytes, release) keeps locks, counters and every reader's claims |
| Readers.ExecutionInv | src/api.rs:310-335 | the system invariant (locks, counters, every reader's claims, shared data in step with the atomic model) holds in every state of every interleaving |
| Readers.ExportsAreExact | src/playback.rs:44-68 | in every interleaving the segments an export reads are exactly the entries overlapping its range, each one read is byte for byte the payload accepted for it, and the one being read is a prefix of it, whether or not a rotation gave up waiting |
| Readers.ExportLookup | src/api.rs:331-335 | the segments of a finished export are those recording during its range at one moment under the lock it still held, and all of them were delivered unless a read failed |
| Readers.SegmentsAreExact | src/api.rs:633-680 | a segment request is answered from the entry of the camera and id it asked for; if it read while the file carried the id of its lookup, with exactly the payload accepted under that id |
| Readers.SegmentLookup | src/api.rs:637-660 | a segment request is told that there is no such segment, or given an entry, as the index had it at one moment under its lock |
| Readers.CountersAndWaiting | src/storage/chunk_pool.rs:121-156 | each counter is the number of live guards and never underflows, a segment request holds its guard while it reads, the locks exclude each other, and only exports hold guards throughout an append and its rotation |
| GuardedFiles.QueryGuards | src/api.rs:310-319 | while an export takes its guards under the index lock, those taken and still to take are exactly the files of the entries overlapping its range |
| GuardedFiles.GuardsOfQuery | src/api.rs:310-335 | from then until it starts dropping them an export holds guards on exactly the files that had overlapping entries at one earlier moment under the lock, without interruption |
| GuardedFiles.PollsAreLooks | src/storage/chunk_pool.rs:281-284 | the writer's poll count is the number of moments of this wait at which the next file had readers |
| GuardedFiles.RotationWaits | src/storage/chunk_pool.rs:278-303 | in every interleaving no file gets a new id, a new header or a smaller used part except after a wait that ended because it had no readers or after fifty looks that all found some; with a guard on the file, only the latter |
| Readers.PoolLockFreezesFiles | src/api.rs:663-668 | files do not change under a segment request |
| Readers.NextRun | src/storage/global_writer.rs:103-146 | a step of any interleaving moves the atomic model by whole iterations only |
| Readers.LoopHeadsAreRuns | src/storage/global_writer.rs:103-146 | whenever the writer is back at its receive loop, store and index are those of some run of the writer alone |
| Readers.NoDeadlock | src/api.rs:663-668 | while the writer serves a request or a reader is unfinished, somebody can move on without giving up and without a new request arriving; while the writer is idle, a reader can |
| StaleReads.RunAllTraced | src/storage/chunk_pool.rs:293-303 | over every run, whatever fails, every byte ever written as part of a record is still there unless a later pass or a failed record write of one has gone over it, and then it is what was written last |
| StaleReads.StaleReadIff | src/storage/chunk_pool.rs:330-343 | after any number of rotations a location reads as its record's payload exactly when no write of a later pass, complete or failed, put a different byte into it that still stands |
| StaleReads.StaleReadOverRuns | src/storage/chunk_pool.rs:330-343 | the same for every run of a restarted system, whatever fails |
| StaleReads.UnharmedOnce | src/storage/chunk_pool.rs:330-343 | after one rotation, exactly when the write tail has not got past the record's header or the bytes of the current pass over the payload are the same, and failed writes have put no other bytes behind the tail |
| StaleReads.UntornLeavesAlone | src/storage/chunk_pool.rs:330-343 | the clause about failed writes drops out for a file no failed write of the current pass has left bytes in |
| StaleRequests.SegmentsExactIff | src/api.rs:657-679 | in every interleaving, whatever fails, a segment request returns the payload it was asked for exactly when, as it read, no later pass had put other bytes over it |
| StaleRequests.RestartedSegmentsExactIff | src/api.rs:657-679 | so in every interleaving that begins at a loop head of the writer after a restart from any scanned store |
| StaleRequests.RequestLook | src/api.rs:663-668 | what a finished request returned is what its location held at one moment under the pool lock |
| StaleRequests.LateRequest | src/api.rs:638-668 | whatever requests the writer may serve can be served between a segment request's lookup and its read |
| StaleRequests.StaleLocationReadsOther | src/storage/chunk_pool.rs:330-343 | with one file and a next record of equal size, a location from before the rotation reads that record's payload |
| StaleRequests.OtherPayloadServed | src/api.rs:638-668 | so there are executions in which a segment request is answered with another record's payload |
| StaleRequests.StaleExample | src/api.rs:638-668 | one such execution, from an empty disk |
| LiveWindow.HistoryFollowsRequests | src/storage/global_writer.rs:103-146 | accepted records come from the requests, in their order, so a camera's records are ordered and apart when its requests are |
| LiveWindow.CameraList | src/storage/index.rs:85-90 | for a camera whose segments arrive in start order, its list is exactly its indexed segments in id order |
| LiveWindow.WindowIsNewest | src/hls.rs:53-56 | the window contains the largest id, and every segment left out is older than its first |
| LiveWindow.WindowStartIncreases | src/hls.rs:56-65 | MEDIA-SEQUENCE does not go back between two moments of a run |
| LiveWindow.LiveWindowOverRuns | src/hls.rs:41-65 | over whole runs of a fresh store: window newest, first id never decreasing (section 6.2.2 of RFC 8216) |
| LiveWindow.WindowOverRun | src/hls.rs:41-65 | the same from any state in which no record of the camera belongs to an earlier pass than one with a smaller id |
| LiveWindow.NeverBlocksAgain | src/api.rs:411-429 | once an id of at least msn was listed, a blocking request for msn never waits again, across inserts and evictions in any order |
| RestartedWindow.RestartedSuffixIff | src/storage/index.rs:130-142 | after a restart the indexed ids stay a suffix of those dealt out, over every later run, if and only if the scan listed the files in the order the ring comes to them |
| RestartedWindow.NeverBlocksTwiceIff | src/api.rs:411-429 | after a restart a blocking request once served never waits again, over every later run, if and only if no record of the camera lies in a file the ring comes to later than to that of the camera's last scanned record |
| RestartedWindow.RestartedWindowMovesOn | src/hls.rs:53-65 | after a restart that lists the camera's records in ring order: window newest, first id never decreasing, as long as its records start in order |
| RestartedWindow.RingOrderIff | src/storage/chunk_pool.rs:436-445 | after any run of a fresh store in which no write fails a restart lists the files in ring order if and only if r < n or r mod n is 0 or n-1 |
| Numbering.NumbersAgreeIff | src/dash.rs:109-111 | any list is numbered first + j throughout exactly when its ids go up and first and last are as far apart as it is long |
| Numbering.CameraNumbersIff | src/storage/index.rs:51-90 | over any run of a fresh store a camera's list is numbered correctly exactly when its ids go up and every record accepted between its first and last id is the camera's |
| Numbering.WindowNumbersIff | src/hls.rs:56-65 | for a camera arriving in start order the live window is, exactly when every record accepted between its ends is the camera's |
| Numbering.RangeNumbersIff | src/storage/index.rs:94-104 | for a camera arriving in start and end order any time range is, under the same condition |
| Numbering.OneCameraNumbers | src/hls.rs:56-65 | with one camera and non-decreasing starts and ends, live window and every time range have consecutive ids |
| Numbering.TwoCamerasDisagree | src/storage/index.rs:51-76 | three requests to a fresh store, the second from another camera, after which the first camera's live window is misnumbered |
| Manifests.WriteLines | src/hls.rs:78-102 | the loop writes the lines of the list, a discontinuity before each gap of more than 1500 ms |
| Manifests.GenerateLivePlaylist | src/hls.rs:35-105 | nothing exactly when the caller must wait, else the playlist of the last ten segments |
| Manifests.GenerateVodPlaylist | src/hls.rs:108-179 | nothing exactly when no segment was recording during the range; the entries are those segments; target the least whole number of seconds covering every entry; a start offset exactly when `from` is more than 100 whole milliseconds into the first segment, and then `from` to the millisecond; end mark |
| Manifests.TargetIsLeast | src/hls.rs:122-140 | a whole number of seconds covers every entry exactly when it is at least the announced target |
| Manifests.LinesReadBack | src/hls.rs:78-102 | a player reading the lines gets every segment once, in order, with its address, date and duration, marked discontinuous exactly at the gaps |
| Manifests.LivePlaylistReads | src/hls.rs:58-102 | read back, entry j of the live playlist gives id, starting millisecond, length and gap mark (1501 ms or more) of segment j of the window; its number is its id throughout exactly when the ids are consecutive; no end mark, no offset |
| Manifests.VodPlaylistReads | src/hls.rs:143-176 | the same for the segments of a time range, the first entry marked discontinuous |
| Manifests.VodKeepsTarget | src/hls.rs:122-140 | a time-range playlist keeps to its target duration (section 4.3.3.1 of RFC 8216) |
| Manifests.LiveKeepsTargetIff | src/hls.rs:64-64 | a live playlist keeps to its target duration exactly when no listed segment is half a second longer than configured |
| Manifests.OffsetInsideFirst | src/hls.rs:131-147 | a start offset that is told is more than 100 ms and inside the first segment (section 4.3.5.2 of RFC 8216) |
| Manifests.HandleHlsLive | src/api.rs:411-429 | the blocking handler answers with the first view that need not wait, or after the deadline with one more look |
| Manifests.RenderMpd | src/dash.rs:64-133 | start number and start time of the list, each timeline entry with its segment's millisecond and length, and the announced total of the timeline |
| Manifests.TotalAdds | src/dash.rs:76-79 | the total is additive over the timeline, so it is the sum of its entries |
| Manifests.GenerateLiveMpd | src/dash.rs:30-45 | empty exactly when the camera has no segment, else the last ten |
| Manifests.GenerateVodMpd | src/dash.rs:48-62 | nothing exactly when no segment was recording during the range, else those that were |
| Manifests.DashNamesIff | src/dash.rs:109-111 | for any list, expanding the template leads every timeline entry to its own segment exactly when ids go up without gaps |
| Manifests.OneCameraManifests | src/dash.rs:109-122 | with one camera and ordered times, players of both protocols number every entry of live and time-range manifests correctly |
| Manifests.TimelineApart | src/dash.rs:113-122 | segments that do not overlap give timeline entries that do not, in spite of rounding |
| Fragments.FragmentState.constructor | src/camera.rs:232-236 | a connection starts without a file and with the first fragment to be thrown away |
| Fragments.FragmentState.FormatLocation | src/camera.rs:242-274 | the fragment before is closed at `now`, and the new one starts then |
| Fragments.FragmentState.Stop | src/camera.rs:321-339 | the open fragment, if any, is closed; nothing is open afterwards |
| Fragments.FragmentChain | src/camera.rs:242-339 | for any callbacks and then any stops: exactly the first fragment is discarded, every later one that ended is offered once and in order, each starting where the one before ended, and stops beyond the first do nothing |
| Fragments.ConnectionInOrder | src/camera.rs:242-339 | with a clock that does not go back the offered segments are ordered and do not overlap |
| Fragments.ConnectionArrives | src/ingestion.rs:58-60 | whatever is lost between camera and writer, a connection's segments arrive ordered by start and by end, and apart |
| Fragments.ConnectionListed | src/storage/index.rs:85-90 | the list of a camera fed by one connection is in id order and without overlaps after any run |
| Blocks.Block.constructor | frontend/app.js:318-318 | a new block shows its one segment |
| Blocks.Block.Extend | frontend/app.js:323-327 | extending a block in place shows the segments with the new one behind them |
| Blocks.AddSegment | frontend/app.js:312-334 | one segment either opens a block or extends the last one in place, and leaves the others |
| Blocks.MergeBlocks | frontend/app.js:304-334 | the list is sorted in place and the blocks show its groups |
| Blocks.FlattenGroups | frontend/app.js:312-334 | the groups are the list, cut into pieces |
| Blocks.GroupsByNumber | frontend/app.js:312-334 | group k is the run of neighbouring segments with block number k |
| Blocks.BlocksConserve | frontend/app.js:325-326 | sizes and counts of the blocks add up to those of the list in whatever order it came |
| Blocks.MaxEndIs | frontend/app.js:324-324 | a block ends with the latest end of its members |
| Blocks.SummaryIs | frontend/app.js:312-334 | a block shows the earliest start, latest end, number, bytes and files of its segments |
| Blocks.BlocksAreComponents | frontend/app.js:312-334 | two segments are in one block exactly when a chain of gaps of at most five minutes connects them |
| Blocks.BlocksApart | frontend/app.js:321-322 | any two blocks are more than five minutes apart |
| Blocks.SortedByStart | frontend/app.js:304-305 | the list the loop sees is in start order |

## Left out

* GStreamer pipelines, remuxing, HTTP routing, JSON, login, configuration files and the static pages.
* Real time: sleeping, deadlines in seconds and fairness of locks. `rotate` keeps its poll counter, the blocking
  handler a poll after which the deadline has passed, and clocks are parameters; one scan sees one clock value.
* Floating point and the exact text of manifests: durations are integer milliseconds and manifests are lists of
  entries. The binary rounding of `duration * 1000.0` in the DASH timeline is not modelled.
* `created_at` in the file header is written but never read back for a decision.
* A different number or size of files between runs, and files shorter than header plus capacity: the configuration
  is fixed and files have their full length. Creating a missing file is assumed to succeed.
* File contents are byte sequences held by the pool object; buffering, partial flushes out of order and directory
  operations are not modelled. A failed write leaves a prefix of its bytes.
* The ordered map of the index is a sequence in key order; its tree structure is not modelled.
* An export's own `ChunkPool::open` is modelled only as reading the shared files: it reads locations, never slots.
* The camera manager's mutex taken on the way to the pool is not modelled.
* A writer that starts with an empty index because the scan itself failed.
* The segment counter and byte offsets are unbounded; pool ids wrap at 2^64, and the results about ids in
  `Resume` and `FirstLap` suppose fewer rotations than that.
* ScanRoundTrip.ScanFindsLog: for records whose payload fits the u32 length field, the others being exactly the
  ones `RecordFormat.SelfDescribingIff` shows a scan cannot step over.
* Restart.RestartRecoversLive: for payloads shorter than 2^32 bytes, for the same reason. Behind the used part a scan
  may list further records of earlier passes; what they are is `ScanRoundTrip.ScanFindsOldPass`.
* Handlers.HandleHlsSegment: one thread, with no writer between lookup and read; the interleavings are those of
  `Readers` and `StaleRequests`.
* Dates the browser cannot parse, and the newest-first reversal when blocks are displayed.
