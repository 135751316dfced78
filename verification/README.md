# mini-kafka: a verified model

This project models the parts of mini-kafka whose correctness depends on more than one function
getting things right, and proves what they promise over every input and every run.

* **The partition log.** An append-only log kept as a list of segments, each a file of
  length-prefixed, checksummed records with a sparse index beside it. Records are appended through a
  buffered writer, segments are rotated, expired, truncated, and recovered after a crash. `LogSpec`
  says what a log amounts to, a dense run of records that starts at some offset (`Abs`); `LogRuns`
  shows that every run of appends, truncations, retention passes and reopenings does to that run
  exactly what each operation promises. The objects (`Index`, `Segment`, `Log`) carry out those
  operations on bytes, arrays and buffers.
* **Replication and acks=all.** The in-sync replica tracker, the purgatory and the produce and
  replica-fetch handlers, as a machine that takes one step per critical section, with any number of
  handlers and waiters at once (`AcksAll`, `AcksAllRuns`). No waiter whose watermark has been reached is
  forgotten, and an acknowledged record is covered by the tracked end offset of every in-sync replica, then and
  ever after. (A leader credits a replica with the records it is about to send, so the claim is about
  tracked offsets.) `Followers` adds the other side: a follower's log is a prefix of its leader's as
  long as no read the leader serves jumps over the end of a segment, which a byte budget can make it
  do once the leader has rotated.
* **Consumer groups.** Generations, leaders and the two assignors. Together they give every partition
  exactly one owner (`GroupOwnership`), and who is a member follows from the requests alone
  (`GroupSessions`). The generation is an int32 that wraps; claims about one
  generation reach over any stretch with fewer than 2^32 rebalances, the range of the counter.
* **The producer's batcher.** Sends, size flushes, linger timers and Close race for the same batches;
  every caller gets one result, and the right one (`Batcher`, `BatcherRuns`). The objects behind it take
  exactly the machine's steps (`LingerBatchers`).
* **The offset store.** The cache of committed offsets is exactly what replaying its logs gives
  over every run of commits and restarts (`Offsets`).

How it is laid out: a module of values and functions states what an operation does and carries the
theorems; a class beside it is the object that does it, each method ensuring that the object's view
changes as the function says, or, for the batcher, that the object shows the state the machine's step
leads to. Files are byte sequences, clocks and file times are parameters, a map
iterated in Go's arbitrary order is iterated in arbitrary order here. CRC32C and FNV-1a are
uninterpreted functions. Integers are unbounded, and every conversion that can lose bits in the
program (`uint32`, `int32`, `int64`, the int32 byte budgets, the int32 generation) is written out.

Where a property turned out not to hold of the code, the model keeps the code, a lemma gives a case,
and another says exactly when it does hold:

* A range read across segments can skip records: when the byte budget stops inside a segment that is
  not the last, the loop still goes on to the next segment. `LogRangeReads.ReadContiguousIff` says when,
  `LogRangeReads.BudgetJump` shows one, and `Followers.FetchMatchesIffNoJump` says what that does to a
  follower.
* A range read with a budget near the int32 maximum can go on past its budget
  (`SegmentReads.RunIsLongestIff`, `SegmentReads.BudgetOverrun`).
* Truncating at a negative offset inside a segment keeps that segment whole
  (`LogMaintenance.TruncateExactIff`, `LogMaintenance.NegativeTruncateKeepsTooMuch`).
* Time-based retention drops a prefix exactly when no expired segment follows a fresh one
  (`LogMaintenance.RetentionDropsPrefixIff`, `LogMaintenance.RetentionCanLeaveAHole`).
* The high watermark equals the in-sync minimum after an update exactly when the reporting replica is
  not a newcomer behind it and no lagging replica slips back in through a clock that went backwards
  (`Isr.UpdateExactIff`, `Isr.NewcomerBelowWatermark`, `Isr.BackwardClockBelowWatermark`).
* A group's generation goes down exactly when a rebalance meets the largest int32
  (`GroupSpec.GenerationDropsIff`, `GroupSpec.GenerationWraps`), so over a run generations are monotone
  exactly where the counter does not wrap (`GroupSpec.GenerationsGrowIff`).
* With a colon in a topic name two groups can share a cache key, and a replay can end with the older
  commit (`OffsetKeys.KeyCollision`, `Offsets.ColonReplaysStale`). A commit keeps the cache equal to
  its replay exactly when it cannot be stored, or no later log holds its key, or it changes nothing
  (`Offsets.CommitMirrorsIff`).

The code and its comments disagree in two places, and the model follows the code. The comment on
`Log.Truncate` says the end offset becomes the given offset; it becomes the smaller of that and the
old end. `docs/STORAGE.md` says a reopened sealed segment takes its next offset from the segment that
follows; the code leaves it at the segment's base, which is why range reads on a recovered log stop at
a segment's end (`LogRangeReads.RecoveredReadIsOneRun`).

## Model

| member | source | states |
|---|---|---|
| `Records.DecodeWire` | internal/storage/record.go:137-223 | decoding an encoded record followed by any bytes gives back that record, nil and empty payloads kept apart, and consumes exactly its encoded size |
| `Records.CutWire` | internal/storage/record.go:137-154 | no strict prefix of an encoding decodes: the reader always reports running out of input |
| `Records.DecodedIsWire` | internal/storage/record.go:137-223 | bytes that decode to a record which accounts for all of them are that record's encoding, checksum included |
| `Records.CorruptionDetected` | internal/storage/record.go:183-186 | a record whose checksummed region was altered is reported as corrupt, unless the altered bytes have the same checksum |
| `Records.LengthRefused` | internal/storage/record.go:144-150 | a negative length is corrupt and one above 1 MiB too large, whatever follows |
| `Records.FramesOfWires` | internal/storage/log.go:756-783 | scanning encoded records followed by bytes that do not decode finds exactly those records and their sizes |
| `Records.FramesOfCut` | internal/storage/log.go:756-783 | scanning a file cut at any byte finds exactly the records wholly before the cut |
| `Records.RecordSetRoundTrip` | internal/broker/broker.go:470-482 | a concatenation of encoded records decodes, in the produce handler, to exactly that list |
| `Records.DecodeRecordSet` | internal/broker/broker.go:470-482 | the handler's loop: every frame to the end of the buffer, a clean end stops it, any other error rejects the set |
| `RecordBuffers.Encode` | internal/storage/record.go:77-129 | filling the buffer field by field, checksum last, yields the wire image; a record over 1 MiB yields an error and nothing else |
| `RecordBuffers.DecodeRecord` | internal/storage/record.go:137-223 | walking the payload with a moving offset gives the decoding, with every error where the code reports it |
| `OffsetIndex.Index.NewIndex` | internal/storage/index.go:47-129 | the recovered entries are those in the file cut or extended to the size limit, trailing all-zero entries dropped, the first kept; it fails exactly below one entry |
| `OffsetIndex.RecoverHeld` | internal/storage/index.go:107-120 | reopening an index gives back exactly its entries, whatever run of zero bytes follows them in the file |
| `OffsetIndex.Index.Append` | internal/storage/index.go:181-197 | one more entry at the end, or an error and no change when there is no room |
| `OffsetIndex.Index.Search` | internal/storage/index.go:220-223 | bisection over the mapped bytes finds how many entries lie below the target |
| `OffsetIndex.Index.Lookup` | internal/storage/index.go:205-242 | the entry found is the one a linear walk finds: the exact one, else the last below the target, else the start of the file |
| `OffsetIndex.Index.Seal` | internal/storage/index.go:138-176 | the mapping shrinks to the entries written, which stay the same |
| `OffsetIndex.Index.Close` | internal/storage/index.go:274-306 | the file left behind holds exactly the entries |
| `IndexAccounting.BookSound` | internal/storage/segment.go:310-326 | the incremental bookkeeping is right: byte count, next offset, every entry marks the start of its record, fewer than an interval of bytes follow the last indexed record, entries at least an interval apart |
| `IndexAccounting.ScanDistance` | internal/storage/index.go:205-242 | from the position a lookup returns to the start of the wanted record there are fewer bytes than the interval plus the indexed record, for appended and rebuilt indexes alike |
| `SegmentReads.IndexedReadIsLinear` | internal/storage/segment.go:334-402 | a read through the index, for any offset including ones whose relative offset wraps, gives what a scan from byte 0 gives: the record if it is wholly on disk, not found otherwise |
| `SegmentReads.IndexedRangeIsLinear` | internal/storage/segment.go:410-468 | a range read through the index gives what collecting from byte 0 gives: the budgeted run of records on disk from the offset on |
| `SegmentReads.RunIsLongestIff` | internal/storage/segment.go:445-467 | the int32 budget loop takes the longest run that fits, and at least one record, exactly when the running total does not overflow on the way |
| `SegmentReads.BudgetOverrun` | internal/storage/segment.go:456-465 | 2048 records of 1 MiB, which one segment holds when segment_bytes is above 2 GiB, read with the largest int32 as budget: the total wraps and all are returned although 2047 fit |
| `SegmentReads.SafeBudget` | internal/storage/segment.go:445-467 | a budget a record below the int32 maximum never overflows, so the run is the longest that fits |
| `Segments.RebuildIsReappend` | internal/storage/log.go:700-810 | rebuilding from encoded records and an undecodable tail gives the same entries, byte counts and next offset as appending the kept records to a fresh segment |
| `Segments.RecoverCut` | internal/storage/log.go:700-810 | recovering a file cut at any byte gives the account of its longest whole-record prefix |
| `Segments.RebuildIdempotent` | internal/storage/log.go:700-810 | rebuilding a rebuilt segment changes nothing |
| `Segments.Segment.Write` | internal/storage/segment.go:302-308 | the buffered writer: whatever is split between file and buffer, together they grow by exactly the bytes written, and the file only grows |
| `Segments.Segment.Append` | internal/storage/segment.go:271-328 | on success the stamped record is the new last record and file, index and counters are those of the longer list; each refusal leaves the segment alone except a full index, which leaves the bytes written and the offset not consumed |
| `Segments.Segment.CountRecord` | internal/storage/segment.go:310-326 | one record's bookkeeping is one step of the account, and fails exactly when an entry is due and there is no room |
| `Segments.Segment.ReadAtPosition` | internal/storage/segment.go:376-402 | a read at an indexed position: that record if it is the target, otherwise a scan from there |
| `Segments.Segment.ScanFrom` | internal/storage/segment.go:595-627 | the scan loop finds the target, stops past it, or reports the decoding error |
| `Segments.Segment.Read` | internal/storage/segment.go:334-370 | the stored record exactly when it has reached the file, not found otherwise, out of range below the base |
| `Segments.Segment.ReadFrom` | internal/storage/segment.go:410-468 | the budgeted run of records that have reached the file, from the offset on |
| `Segments.Segment.IsFull` | internal/storage/segment.go:473-489 | closed, at its byte size, or without room for one more index entry |
| `Segments.Segment.Rebuild` | internal/storage/log.go:700-810 | index forgotten and rebuilt from a scan of the file, file cut after the last kept record, counters those of the kept frames; it fails exactly when the entries do not fit |
| `Segments.Segment.RebuildRecords` | internal/storage/log.go:700-810 | after a rebuild the segment is as if the kept records had just been appended |
| `IndexCapacity.IndexNeverFills` | internal/config/config.go:225-237 | with the derived index size below its 10 MiB clamp, a segment that was never sealed is full exactly when its bytes say so |
| `IndexCapacity.CastsLossless` | internal/config/config.go:182-190 | with segments of at most 4 GiB the position and relative offset of every append fit their 32-bit fields |
| `LogSpec.RoomAfterRotation` | internal/storage/log.go:451-476 | whatever the configuration, after the rotation test the active segment has index room: the index-full error never reaches a log append |
| `LogSpec.RotateWellFormed` | internal/storage/log.go:480-507 | rotation keeps the segments abutting and non-empty and changes nothing that is stored |
| `LogSpec.AppendRefines` | internal/storage/log.go:140-171 | a success stores exactly the stamped record under the old end offset; a refusal stores nothing and is for a nil record, an oversized one, or a position past 4 GiB |
| `LogSpec.RejectedIff` | internal/storage/segment.go:271-310 | a record is refused exactly when it is too large to encode, or the active segment, not due for rotation, ends past 4 GiB |
| `LogSpec.ReadRefines` | internal/storage/log.go:227-256 | reading the covering segment is reading the whole log |
| `LogMaintenance.AppendAllRefines` | internal/storage/log.go:177-221 | a batch stores its records up to the first refused one under consecutive offsets, reports no error exactly when all went in, and with segments of at most 4 GiB stops only at a nil or oversized record |
| `LogMaintenance.TruncateLeaves` | internal/storage/log.go:357-406 | what truncation leaves, for every truncation point |
| `LogMaintenance.TruncateExactIff` | internal/storage/log.go:357-406 | exactly the records below k remain, with end offset min(end, k), exactly when k is not negative, or no segment starts below it, or it falls at or past the end of the last that does |
| `LogMaintenance.NegativeTruncateKeepsTooMuch` | internal/storage/log.go:756-770 | any log emptied down to -2, given two records and truncated at -1 keeps both, where only the first is below -1 |
| `LogMaintenance.RetentionDropsPrefixIff` | internal/storage/log.go:576-604 | time-based retention drops a prefix exactly when no expired segment follows a fresh one |
| `LogMaintenance.RetentionCanLeaveAHole` | internal/storage/log.go:576-604 | out-of-order creation times: the younger neighbour is dropped and the older kept |
| `LogMaintenance.UnexpiredMembers` | internal/storage/log.go:588-604 | in whatever order segments were created, the time pass keeps exactly the sealed segments younger than the retention time, or all when there is none |
| `LogMaintenance.Fitting` | internal/storage/log.go:606-622 | byte-based retention drops the fewest oldest segments that make the total fit, never the last |
| `LogMaintenance.RetainRefines` | internal/storage/log.go:568-623 | with creation times in order retention leaves exactly the records of the segments the policy keeps, the active one among them, and the log in order |
| `LogMaintenance.RetainIsSuffix` | internal/storage/log.go:568-623 | with creation times in order the kept segments are a suffix: those kept besides the active one are younger than the retention time and together within the byte limit, and every dropped one was too old or had more than the limit from it on |
| `LogMaintenance.ReopenRefines` | internal/storage/log.go:82-135 | close and reopen loses nothing; a cut active file loses exactly the records not wholly written; sealed segments come back with the counters of empty ones |
| `LogRuns.RunRefines` | internal/storage/log.go:140-406 | in every run of appends, truncations, retention passes and reopenings, each operation has exactly its promised effect on the stored records; retention drops what the age and byte limits say, and a reopening loses exactly the records of the active segment that were not wholly on file, so a clean one loses nothing |
| `LogRuns.StoredRecordsStay` | internal/storage/log.go:140-256 | over whole runs a stored record stays readable and unchanged until a truncation at or below it, a lossy crash, or retention moving the start past it |
| `LogRuns.NeverReopenedLive` | internal/storage/log.go:140-406 | in every run, until the first reopening all segments keep the counters of their records, through rotation, truncation and retention |
| `LogRuns.NeverReopenedReadsAll` | internal/storage/log.go:262-328 | in every run without a reopening, a budget that covers the rest of the log reads exactly the records from the offset to the end |
| `LogLifetimes.RotatesIff` | internal/storage/log.go:451-510 | an append opens a new segment, dated now and based at the end of the log, exactly when the active one has reached its size, has no index room, or is not empty and too old; the retired segment keeps its records and an index without slack |
| `LogLifetimes.SegmentsBounded` | internal/storage/log.go:451-478 | over every run no segment outgrows its size by more than its last record |
| `LogLifetimes.SegmentsDated` | internal/storage/log.go:480-510 | between two moments of a run without a reopening, every segment that was not there at the first is dated by a clock reading in between |
| `LogLifetimes.NothingAgesEarly` | internal/storage/log.go:568-604 | in every run without a reopening or byte limit, retention changes nothing within the retention time of the log's first opening |
| `LogRangeReads.RecoveredReadIsOneRun` | internal/storage/log.go:276-327 | on a just-recovered log a range read is the budgeted run of one segment: contiguous, and never empty below the end |
| `LogRangeReads.ReadContiguousIff` | internal/storage/log.go:262-328 | from any stored offset and with any int32 budget, a range read is contiguous exactly when no turn leaves records of a segment behind and goes on, with budget left, to a segment that has some |
| `LogRangeReads.ContiguousIff` | internal/storage/log.go:276-327 | the same of the loop from any segment on and from any running total, wrapped totals included |
| `LogRangeReads.NothingToJump` | internal/storage/log.go:276-327 | a log of one segment, or one just recovered, is read without a jump whatever the budget |
| `LogRangeReads.ContiguousReadIsStretch` | internal/storage/log.go:276-327 | a contiguous read returns exactly a stretch of the stored records from the offset on |
| `LogRangeReads.ReadsSomething` | internal/storage/log.go:262-328 | a read below the end with any positive budget starts with the record asked for |
| `LogRangeReads.ReadWithinBudget` | internal/storage/log.go:276-327 | for budgets a record below the int32 maximum, a read across segments returns at most its budget, or was below it before its last record |
| `LogRangeReads.BudgetJump` | internal/storage/log.go:316-325 | a budget one byte over the first of two records skips the second and returns one of the next segment |
| `LogRangeReads.ReadsWholeSuffix` | internal/storage/log.go:262-328 | on a log whose segments all have their counters and whose remaining records fit the budget, a range read returns exactly the records from the offset to the end |
| `Logs.Log.RotateLocked` | internal/storage/log.go:480-507 | the outgoing segment is flushed, sealed and set aside, a fresh one opened at its next offset |
| `Logs.Log.ShouldRotateLocked` | internal/storage/log.go:463-476 | full, or old enough and not empty |
| `Logs.Log.AppendActive` | internal/storage/log.go:155-158 | the active segment takes the record or refuses it, and the log stays in order |
| `Logs.Log.Append` | internal/storage/log.go:140-171 | the object does what AppendOne says, automatic flush included |
| `Logs.Log.AppendBatch` | internal/storage/log.go:177-221 | the loop does what AppendAll says, and returns the first offset, or 0 when nothing went in |
| `Logs.Log.CountFlush` | internal/storage/log.go:163-171 | with a flush limit of n fewer than n records are in the buffer alone; every append, read, truncation and opening keeps it so |
| `Logs.LossBounded` | internal/storage/log.go:163-171 | so a crash that loses the buffer loses fewer than n records |
| `Logs.Log.FindSegment` | internal/storage/log.go:513-528 | bisection finds the last segment whose base is at most the offset |
| `Logs.Log.Read` | internal/storage/log.go:227-256 | exactly a lookup in the stored records, buffered ones included |
| `Logs.Log.ReadFrom` | internal/storage/log.go:262-328 | the loop over segments with its int32 running total gives ReadLog |
| `Logs.Log.Bounds` | internal/storage/log.go:332-350 | lowest and highest offset are where the stored records start and end |
| `Logs.Log.Truncate` | internal/storage/log.go:357-406 | segments at or past the point go, the last one kept is rebuilt and takes records again, an empty log restarts at the point |
| `Logs.Log.RunRetention` | internal/storage/log.go:568-623 | does to the segments what Retain says, and keeps the log in order when creation times are |
| `Logs.Log.Close` | internal/storage/log.go:417-447 | every segment's files hold all its records and entries |
| `Logs.Log.NewLog` | internal/storage/log.go:82-135 | from the files a log left, possibly with the last one cut, comes the log that was closed or what the cut left of it; it fails exactly for an index size of 1 to 7 bytes |
| `Logs.CutLeaves` | internal/storage/log.go:756-798 | cutting the last log file at any byte is one of the states NewLog recovers from, with the records wholly before the cut |
| `Isr.UpdateExactIff` | internal/replication/isr.go:70-136 | one update leaves the watermark at the in-sync minimum exactly when the reporter is not a newcomer behind it and no lagging replica slips back in; the watermark never decreases |
| `Isr.RunSettled` | internal/replication/isr.go:70-136 | over every run with a monotone clock and reports by the replica set, the watermark is the least end offset of the in-sync set, never decreases and never passes the leader's, however replicas fall out and come back |
| `Isr.InSyncExactly` | internal/replication/isr.go:70-136 | from the reports alone, over every run with a monotone clock: a replica's end offset is the largest it reported, it is in sync exactly when it is the leader or started or reached the leader's known end at most the lag limit ago, and the watermark is the least end offset of those replicas |
| `Isr.NewcomerBelowWatermark` | internal/replication/isr.go:76-83 | an unknown replica reporting a lower end offset joins the in-sync set below the watermark |
| `Isr.BackwardClockBelowWatermark` | internal/replication/isr.go:106-119 | a clock that goes back lets a lagging replica in below the watermark |
| `Isr.ISRTracker.constructor` | internal/replication/isr.go:33-61 | every replica at 0 and in sync; a non-positive lag limit becomes 30 seconds |
| `Isr.ISRTracker.UpdateLEO` | internal/replication/isr.go:70-104 | the object's update is the one the theorems are about |
| `Isr.ISRTracker.UpdateISR` | internal/replication/isr.go:106-119 | every replica judged by its lag, the leader always in sync |
| `Isr.ISRTracker.MinInSync` | internal/replication/isr.go:121-129 | the loop finds the least end offset of the in-sync replicas, in whatever order it meets them |
| `Isr.ISRTracker.CalculateHW` | internal/replication/isr.go:121-136 | the watermark rises to that minimum and never falls |
| `Purgatories.CompletedExactly` | internal/replication/replication.go:53-66 | completing answers and removes exactly the requests of that partition the watermark satisfies |
| `Purgatories.Purgatory.Watch` | internal/replication/replication.go:36-50 | a fresh id for a new request |
| `Purgatories.Purgatory.CheckAndComplete` | internal/replication/replication.go:53-66 | deleting while ranging over the map answers exactly the satisfied requests |
| `Purgatories.Purgatory.Cancel` | internal/replication/replication.go:69-73 | only that request goes |
| `AcksAll.NextKeeps` | internal/broker/broker.go:484-517 | every step of every handler and waiter keeps the invariant of trackers, watermarks, waiters and debts |
| `AcksAll.ReviewKeeps` | internal/broker/broker_replication.go:140-148 | whoever raises a watermark owes a completion to every request that makes ripe |
| `AcksAll.CompleteKeeps` | internal/broker/broker.go:498 | a thread that has checked the purgatory owes nothing of what it held |
| `AcksAll.WatchKeeps` | internal/broker/broker_replication.go:165-171 | a request watched too late to be seen is covered by its own waiter's second look |
| `AcksAll.NoLostWakeup` | internal/broker/broker_replication.go:155-190 | in every reachable state a watched request whose watermark has been reached is owed a completion; when all threads are idle none is left, and every such waiter has its answer |
| `AcksAll.DebtIsPaid` | internal/broker/broker_replication.go:155-190 | a thread that owes a completion can always go on alone, and within three steps the request is answered |
| `AcksAll.WatermarksMonotone` | internal/broker/partition.go:167-173 | over every run neither watermark of a partition decreases or passes the log end, and an answer once given stands |
| `AcksAll.AckedIsReplicated` | internal/broker/broker.go:524-552 | when n records stored at base are acknowledged under acks=all, then and ever after the watermark is at least base + n and so is the tracked end offset of every in-sync replica |
| `AcksAllRuns.ProduceHandled` | internal/broker/broker.go:484-517 | in every run, from a produce request on its handler keeps track of the records it stored, and waits or gives up only under acks=all |
| `AcksAllRuns.ProduceAcknowledged` | internal/broker/broker.go:500-552 | a request that is answered success is answered with the end the log had when it was served; under acks=all, then and ever after the watermark and every in-sync tracked end are past its last record |
| `AcksAllRuns.WaitsForTheEnd` | internal/broker/broker.go:489-517 | an acks=all handler succeeds only once the watermark has reached the log end it read after its append |
| `AcksAllRuns.ProduceSettles` | internal/broker/broker.go:524-552 | when no thread has anything left to do, a request without acks=all has succeeded, and one with it has succeeded, timed out, been answered, or waits for a watermark that is not there |
| `AcksAllRuns.FetchCredited` | internal/broker/broker.go:1099-1116 | once a replica fetch has reviewed the tracker, its replica is credited with the end of what it was sent, from then on |
| `AcksAllRuns.CreditWasFetched` | internal/broker/broker.go:1099-1116 | a follower's tracked end is 0 or the end of some fetch of its own |
| `AcksAllRuns.AcknowledgedWasFetched` | internal/broker/broker.go:524-552 | when an acks=all request is answered success, every in-sync follower has sent a fetch that ended past its last record |
| `AcksAllRuns.HwIsTrackers` | internal/broker/partition.go:167-173 | over every run the partition's watermark stays within the larger of its first value and the tracker's, and is that when no thread has anything left to do |
| `AcksAllRuns.FetchTold` | internal/broker/broker.go:1114-1119 | what a replica is told is the tracker's watermark right after the review of its own fetch |
| `AcksAllRuns.NoRequestLeaks` | internal/replication/replication.go:53-73 | over every run each watched request belongs to a waiter, none is left behind by one that gave up, and at rest only requests whose watermark is not there are watched |
| `AcksAllRuns.CanStep` | internal/broker/broker_replication.go:155-190 | a handler or waiter that is not done or waiting can always go on, towards being done |
| `AcksAllRuns.AnsweredSucceeds` | internal/broker/broker_replication.go:172-190 | a waiter that was answered succeeds |
| `Followers.NextKeeps` | internal/broker/broker_replication.go:274-371 | every step keeps the logs matched while the leader's reads are contiguous; logs and watermarks only grow |
| `Followers.DeliveredInFull` | internal/broker/broker_replication.go:338-368 | a follower has everything it was sent, and its watermark is the leader's as far as its own log reaches, unless it was higher |
| `Followers.FetchBringsCloser` | internal/broker/broker_replication.go:309-370 | a fetch that gets through brings a follower that is behind closer to its leader, unless the leader's read jumps |
| `Followers.LogMatching` | internal/broker/broker_replication.go:309-370 | over every run in which no read the leader serves makes a jump, with rotations, lost fetches and appends cut short at will, the follower fetches from its own end, its log is a prefix of the leader's, and on both sides the watermark is monotone and within the log |
| `Followers.NothingToJumpIsSmooth` | internal/storage/log.go:276-327 | a leader whose log is one segment, or was just recovered, whenever it serves meets that condition |
| `Followers.MatchesIffContiguous` | internal/broker/broker_replication.go:338-352 | for distinct records, appending what a read returned keeps the follower's log a prefix exactly when the read was contiguous |
| `Followers.FetchMatchesIffNoJump` | internal/storage/log.go:316-325 | a full fetch keeps the logs matched if the byte budget does not make the leader's read jump, and, unless the leader stored the same contents twice, only if |
| `FollowerPartitions.FollowerPartition.Take` | internal/broker/broker_replication.go:338-369 | what the follower does with a response on its live log: append, stop at a failure, else remember the end and adopt the watermark capped there |
| `FollowerPartitions.FollowerPartition.FetchFrom` | internal/broker/broker_replication.go:319-331 | the offset to ask for: the remembered one or the local end, whichever is later |
| `FollowerPartitions.FollowerPartition.SetHighWatermark` | internal/broker/partition.go:167-173 | only upwards |
| `Names.SortedUnique` | internal/coordinator/assignor.go:101-102 | sorting forgets the order it was given: two sorted lists of the same names are equal |
| `Names.LeqMeans` | internal/coordinator/assignor.go:95-105 | the order of names: a prefix first, otherwise the smaller byte where they first differ |
| `Assignors.RangeIsExact` | internal/coordinator/assignor.go:95-148 | every partition of every topic goes to exactly one member, once, and nothing else is assigned |
| `Assignors.RoundRobinIsExact` | internal/coordinator/assignor.go:162-206 | the same for round robin |
| `Assignors.OrderIndependent` | internal/coordinator/assignor.go:95-206 | neither depends on the order of the members or of the topic map |
| `Assignors.RangeBlocks` | internal/coordinator/assignor.go:122-134 | in the returned assignment the i-th member by name lists one contiguous block of each topic, count / n long, one longer for the first count % n members |
| `Assignors.RoundRobinBalanced` | internal/coordinator/assignor.go:190-193 | in the returned assignment the i-th member by name lists its i-th equal share of all the topic-partitions |
| `Assignors.RoundRobinLoads` | internal/coordinator/assignor.go:190-203 | no two members' totals differ by more than one |
| `AssignorLoops.AssignRange` | internal/coordinator/assignor.go:95-148 | the nested loops over a mutable table make the range assignment over the map's sorted topics, so for any members an exact cover |
| `AssignorLoops.AssignRoundRobin` | internal/coordinator/assignor.go:162-206 | the loops make the round-robin assignment over the map's sorted topics, so for any members an exact cover |
| `AssignorLoops.SortedTopics` | internal/coordinator/assignor.go:110-114 | the map's keys, each once, sorted |
| `AssignmentCodec.RoundTrip` | internal/coordinator/assignor.go:23-80 | decoding an encoded assignment gives it back |
| `AssignmentCodec.EncodeAssignment` | internal/coordinator/assignor.go:23-42 | the wire form, or an error exactly when a name or a count does not fit its length field |
| `AssignmentCodec.DecodeAssignment` | internal/coordinator/assignor.go:45-80 | every outcome of decoding, including the panic on a negative partition count |
| `AssignmentCodec.TakePutString` | internal/protocol/codec.go:222-242 | a string of up to 32767 bytes reads back, whatever follows it |
| `GroupSpec.RunOk` | internal/coordinator/group.go:101-240 | over every run a group is empty exactly when it has no members, is otherwise led by one of them, and holds no assignments during a rebalance |
| `GroupSessions.MembersHaveSessions` | internal/coordinator/group.go:101-357 | from the requests alone, over every run: the members are exactly those who joined and have not left or been silent too long since, with the timeout and metadata of their latest join |
| `GroupSessions.TimeoutsDropTheSilent` | internal/coordinator/group.go:101-134 | a timeout check drops a member exactly when its latest join, accepted sync or accepted heartbeat is longer ago than the timeout of its latest join, 45 seconds if that is not positive |
| `GroupSessions.LeaderIsTold` | internal/coordinator/group.go:219-236 | a join response carries the member's own id, names a member as leader, and lists, to the leader alone, exactly the members with a session and the metadata of their latest joins |
| `GroupSessions.HeartbeatMeans` | internal/coordinator/group.go:302-329 | what each answer to a heartbeat means for the member's generation, its session and the state of the group |
| `GroupSessions.SyncMeans` | internal/coordinator/group.go:243-263 | what each answer to a sync means |
| `GroupSessions.GenerationMovesIff` | internal/coordinator/group.go:101-357 | a new generation starts exactly when somebody joins a group that is not rebalancing, or somebody goes and somebody stays |
| `GroupSpec.GenerationDropsIff` | internal/coordinator/group.go:138-141 | the generation goes up with every rebalance and nothing else, and goes down exactly when a rebalance meets the largest int32 |
| `GroupSpec.GenerationsGrowIff` | internal/coordinator/group.go:138-150 | over any stretch of a run generations are monotone exactly when no rebalance there meets the largest int32 |
| `GroupSpec.GenerationCounts` | internal/coordinator/group.go:138-150 | the generation is the earlier one plus the number of rebalances since, in int32 |
| `GroupSpec.SameNumberSameGeneration` | internal/coordinator/group.go:138-150 | fewer than 2^32 rebalances apart, the same generation number means there was no rebalance in between |
| `GroupSpec.NoWrapCounts` | internal/coordinator/group.go:138-150 | a stretch on which the counter does not wrap has fewer than 2^32 rebalances, as many as the generation went up |
| `GroupSpec.GenerationWraps` | internal/coordinator/group.go:140 | at the largest int32 the next generation is the smallest |
| `GroupSpec.WithinGeneration` | internal/coordinator/group.go:101-357 | within a generation (the same number, fewer than 2^32 rebalances apart) there is one leader, no member disappears unless the group becomes empty, and once stable the member set is frozen |
| `GroupSpec.JoinsAgree` | internal/coordinator/group.go:211-236 | two join responses of one generation, fewer than 2^32 rebalances apart, name the same leader |
| `GroupOwnership.ExclusiveOwnership` | internal/coordinator/group.go:252-286 | once the leader of a generation syncs, the first to do so, with an exact assignment over the member list of its join response, the decoded assignments held by the members give every partition exactly one owner, whoever joined meanwhile, for as long as the generation lasts (over fewer than 2^32 rebalances after its join) and it does not sync again |
| `GroupOwnership.SyncInstalls` | internal/coordinator/group.go:267-273 | a first leader sync installs its shares; members without one hold nothing |
| `GroupOwnership.BothStrategiesServe` | internal/coordinator/assignor.go:95-206 | both strategies produce such an assignment over exactly the listed members |
| `GroupCoordinators.ConsumerGroup.TransitionToRebalance` | internal/coordinator/group.go:138-156 | next generation, assignments cleared, some member leads |
| `GroupCoordinators.ConsumerGroup.Join` | internal/coordinator/group.go:177-239 | the object does what Joined says and replies as JoinReply says |
| `GroupCoordinators.ConsumerGroup.ListMembers` | internal/coordinator/group.go:227-235 | the leader's list: every member with its metadata |
| `GroupCoordinators.ConsumerGroup.Sync` | internal/coordinator/group.go:252-286 | the object does what Synced says, with the error the code returns |
| `GroupCoordinators.ConsumerGroup.Heartbeat` | internal/coordinator/group.go:311-328 | the heartbeat is recorded, or the error the code returns and no change |
| `GroupCoordinators.ConsumerGroup.Leave` | internal/coordinator/group.go:341-356 | the member goes; the group becomes empty or rebalances |
| `GroupCoordinators.ConsumerGroup.CheckTimeouts` | internal/coordinator/group.go:111-134 | the object does what TimedOut says, whose effect on members is that of GroupSessions.TimeoutsDropTheSilent |
| `GroupCoordinators.GroupCoordinator.JoinGroup` | internal/coordinator/group.go:159-240 | an empty group id is refused, an unknown group created, an empty member id replaced; no other group changes |
| `Batcher.NextKeeps` | pkg/client/producer.go:214-352 | every step of senders, timers, flushes, Close and the broker keeps every waiter in one place of one batch with exactly the results it is due |
| `Batcher.OneRightResult` | pkg/client/producer.go:304-333 | no waiter is ever sent a second result, and a success result is the offset at which the broker holds that caller's record |
| `Batcher.NothingLeftBehind` | pkg/client/producer.go:505-535 | once Close has drained nothing is pending, and when the flushes under way are done every enqueued caller has exactly one result |
| `Batcher.DrainedStays` | pkg/client/producer.go:236-240 | no batch becomes pending again after that |
| `BatcherRuns.SuccessIsReported` | pkg/client/producer.go:319-332 | the callers of a batch that the broker stored and acknowledged get the offsets of their own records, counted from where the broker's log ended, and nothing else |
| `BatcherRuns.FailureIsReported` | pkg/client/producer.go:320-325 | the callers of a batch whose round trip failed, stored in part or not, get the error and nothing else |
| `BatcherRuns.NothingToldBefore` | pkg/client/producer.go:304-333 | nobody gets a result before the round trip of its batch has ended |
| `BatcherRuns.BatchesGoOut` | pkg/client/producer.go:254-266 | over every run a batch fills only below the batch size, exceeds it by its last record at most, and goes out only when it has reached it, its timer fired, or Close drained it |
| `BatcherRuns.TimerReleases` | pkg/client/producer.go:287-352 | a timer armed for a batch, or a drain, leaves that batch no longer filling |
| `BatcherRuns.FirstComeFirst` | pkg/client/producer.go:250-252 | of two callers of one batch the one that joined first is first, and keeps its place |
| `BatcherRuns.CallsFate` | pkg/client/producer.go:214-266 | a call is refused only after a Close that came before one of its two looks, always if before the first, and once past them its own record sits in a batch of its own partition |
| `LingerBatchers.LingerBatcher.Enqueue` | pkg/client/producer.go:236-266 | the critical section of a send is the machine's Add step: afterwards the object shows that step's state, and the joined object is the machine's batch, detached exactly when the machine detaches it |
| `LingerBatchers.LingerBatcher.LingerFire` | pkg/client/producer.go:287-300 | a timer is the machine's Linger step for the batch it was armed for, and claims that batch exactly when the step changes anything |
| `LingerBatchers.LingerBatcher.DetachAll` | pkg/client/producer.go:336-347 | the detaching half of Close is the machine's Drain step: what is handed over is, partition by partition, the machine's detached batches |
| `LingerBatchers.LingerBatcher.OthersPass` | pkg/client/producer.go:214-352 | every step outside the batch lock leaves the object showing the state the step leads to |
| `LingerBatchers.PendingBatch.FanOut` | pkg/client/producer.go:319-332 | the fan-out leaves all channels as the machine's Answer steps do, each waiter of the batch with exactly its own result |
| `Batcher.AllAnswered` | pkg/client/producer.go:319-332 | the fan-out is a run of Answer steps that keeps the invariant, after which waiter i has exactly one result: base + i, or the error |
| `OffsetKeys.KeyInjective` | internal/coordinator/offsets.go:102 | with colon-free topics a key determines its group, topic and partition |
| `OffsetKeys.KeyCollision` | internal/coordinator/offsets.go:102 | with a colon in a topic two groups share a key |
| `Offsets.RollbackRestores` | internal/coordinator/offsets.go:131-139 | undoing the cache update of a failed append restores the cache, whether or not the key was there |
| `Offsets.CommitMirrorsIff` | internal/coordinator/offsets.go:101-140 | any commit keeps the cache equal to a replay of the logs exactly when its record cannot be stored (too large, or past 4 GiB in a segment not due for rotation), or no log after its own holds the key, or the key already had that offset |
| `Offsets.CommitDurable` | internal/coordinator/offsets.go:101-140 | every commit with a colon-free topic keeps the cache equal to a replay of the logs |
| `Offsets.RunDurable` | internal/coordinator/offsets.go:41-140 | over every run of such commits and of restarts, clean or after a crash, from empty logs on, the cache is its own replay |
| `Offsets.NextStretch` | internal/coordinator/offsets.go:77-92 | on a just-reopened log each read of the replay loop returns the next stretch of records, and nothing only at the end |
| `Offsets.ReplayRebuilds` | internal/coordinator/offsets.go:41-97 | reopening every log and replaying rebuilds exactly the cache if nothing was lost, and in any case leaves a store whose cache is the replay of what is left, ready for further commits |
| `Offsets.ColonReplaysStale` | internal/coordinator/offsets.go:76-93 | two groups that share a key but not a log: the replay ends with the older value |
| `OffsetStores.ReplayLog` | internal/coordinator/offsets.go:77-92 | the loop ends and applies every record of the log once, in order |
| `OffsetStores.OffsetStore.Start` | internal/coordinator/offsets.go:63-95 | the logs are replayed one after another into the cache |
| `OffsetStores.OffsetStore.Commit` | internal/coordinator/offsets.go:101-140 | cache and log change together; a refused append leaves the cache as it was |
| `OffsetStores.OffsetStore.Fetch` | internal/coordinator/offsets.go:143-151 | the cached offset, or -1 |

## Left out

- Sealed segments: `Logs.Log` holds a sealed segment as a value, its two files and counters, and only the active one as a `Segment` object; that sealed segments are objects which truncation rebuilds in place, and what aliasing that allows, is not modelled.
- Directory scan: `NewLog` is given the segment files in ascending order of base; parsing and sorting file names, and ignoring negative bases, are not modelled.
- Offsets at the ends of int64: appends assume the next offset is below the largest int64; the overflow itself is not modelled.
- Logs.Log.NewLog: the files must come from a log of the same index size and interval; the code also opens files written under another configuration, whose index entries are then spaced differently, and that is not modelled.
- I/O: fsync, mmap, file handles, and failures of reads, writes, renames and removals. File contents are byte sequences and the calls succeed.
- Retention: a segment without a creation time, which never expires, and files that cannot be removed are not modelled.
- runFlush and the retention ticker: they decide when flushes and retention passes happen, which the model leaves open.
- Isr.ISRTracker.UpdateLEO: an unknown replica must report a non-negative end offset, because -1 is the loop's marker for an empty set and a negative offset makes its result depend on map order.
- AcksAll: fetches come from replicas of the static set other than the leader; the min-in-sync check, leadership fencing and record-set checks before an append only turn requests away and are not part of the machine. Ids of the purgatory are unbounded.
- PromoteLeader, epochs and the watermark checkpoint file are not driven by the produce and fetch paths.
- Followers: one partition, one follower, a leader whose log starts at 0 and is not truncated or expired; leaderHw stands for any watermark within the leader's log.
- GroupSpec: the answers a SyncGroup waiter receives over its channel, which may come from a later generation; claims are about the group's state. The coordinator's own maps and locks are modelled for JoinGroup only.
- Batcher: a cancelled context only abandons a channel that still receives its result; the broker's log is append-only while the producer runs; fill-ratio statistics and connection handling are left out.
- Offsets: commits are sequential, as the cache and the log are updated in separate critical sections; a store that was never started, and concurrent commits, are not modelled.
- AssignmentCodec.DecodeAssignment: allocation limits for huge counts are not modelled.
- Long-poll listeners, the fetch handler's watermark filter, topic creation and metadata.
- Server, connections, frames, request and response bodies, consumers, CLI programs, YAML loading, key hashing: plumbing and easy round trips.
