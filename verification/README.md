# Verification model of the focl archive and BGP session

This project models the hard core of the repository in Dafny and proves what the core is for: the
archive that cuts a stream of BGP updates into time-bucketed segments, the persistent queue and worker
that replicate them, the BGP session, and the two byte formats. Clocks are inputs of every step, every
fallible operation has an explicit outcome, the file store is a map from path to contents, and the job
table is a map from id to row with a next-id counter. `dafny verify dfyconfig.toml` checks the whole
project.

How the parts fit together:

- `Calendar`, `Text`, `Layout`, `Templates`, `TemplateLimits`, `PathReading`: the proleptic Gregorian
  calendar (both directions), decimal fields, bucket alignment, the two built-in layouts, and the custom
  layout's chain of `replace` calls with the extension it appends. A reader written from the conventions
  alone gets stream, date and time back from every path.
- `Rotation`, `RotationDisk`, `WriteOrder`, `CallTraces`: the class `ArchiveService` performs each critical section in place and is
  proved equal to a function on archives; ingest, rollover and tick calls interleave those functions in
  any order. Exactly-once accounting holds in every run, segments keep the order of the acknowledgements, and
  every call follows its code; what is still on disk is characterized exactly.
- `Queue`, `Replication`, `JobContents`, `ReplicationOrder`, `Drain`, `Replicator`: the class `ReplicationQueue` performs each
  SQL statement in place and is proved equal to a function on tables; workers that stop anywhere
  interleave over those. Conservation, exclusivity, job contents, the retry budget, order and backoff hold in every
  run, the queue empties in rounds exactly if no job was orphaned, and a round of the worker class is
  shown to be one of those runs.
- `Durability`, `CrashRuns`, `ClaimBook`, `JobBook`, `Replicas`, `ReplicaPaths`, `Whole`: writing, renaming, sealing, enqueueing
  and copying as single file-store steps with a possible crash between any two, and exactly when queue
  rows and delivered copies are right at every crash point.
- `EndToEnd`: rotation, the file store and replication as one machine with crashes, from an acknowledged
  update to a replica.
- `Handshake`, `HoldTimer`, `Peers`: two speakers joined by channels, one against any peer, the timed keepalive and hold loop,
  and the peer table under overlapping resets.
- `Locks`: lock order of ingest, rollover, tick, snapshot and status, and the snapshot scheduler.
- `Frames`, `Mrt`: BGP frames (section 4.1 of RFC 4271) and MRT records (section 2 of RFC 6396; section
  4.3 for TABLE_DUMP_V2).

Several natural claims are false of the code. Each stands here with an input that breaks it and, where
the claim is worth having, with the exact condition under which it holds:

- Reopening a bucket renames over the earlier segment (`RolloverLosesRecords`); a closed record survives
  exactly until a segment of the same minute is renamed (`SurvivesUntilPathReused`).
- A rotation between the two lock acquisitions of ingest puts a record in another bucket
  (`RecordInForeignBucket`); a write keeps the window exactly when the open bucket is the record's own
  (`WriteInWindowIff`).
- Validation accepts intervals below a minute, where paths collide (`ValidationAllowsCollisions`); paths
  of a stream are distinct exactly from sixty seconds on (`PathsInjectiveIffMinuteLong`).
- A revived job keeps its attempts, so it gets a single further attempt (`RevivedJobHasOneAttempt`).
- A job whose worker stopped is never claimed again (`AbandonOrphans`, `OrphanForever`).
- Two S3 destinations that differ only in their prefix collapse into one (`PrefixesCollapse`); all
  destinations survive exactly when equal keys mean equal destinations (`AllDestinationsKept`).
- The "negotiated" hold time is only the local setting, so a speaker whose keepalive interval exceeds the
  other's hold time is dropped (`UnnegotiatedHoldExpires`); prompt sessions stay up exactly when the
  interval fits (`NeverDroppedIff`), and with slack and latency when all together fit
  (`KeepalivesKeepSessionUp`).
- A read cancelled inside a frame loses the bytes read (`CancelledLosesFrame`), and what follows can even
  be taken for another frame (`CancelledInBodyForgesFrame`); frames come back as sent exactly when no
  cancelled read took a byte (`ReadBackIffNothingLost`).
- A delivery can be wrong: a replica on the archive root is delivered with segment and manifest cut short
  in both places (`ReplicaOnRootTearsSegment`), and a path that two segments are moved onto can be
  delivered with the manifest of the other (`ReuseTearsPair`). Over all runs that reuse no path, restarts
  within a bucket included, every delivery stays right exactly when no two files of the archive and the
  replicas clash with each other, a temporary file or the cleaning at start-up (`AlwaysRightIffNoClash`).
- A second writer that opens a name before the first has renamed it tears the segment the first renames
  (`SecondWriterTears`); otherwise each delivered copy is what a writer of its name finished
  (`DeliveredIsWhole`).
- A collector name that spells a token is expanded again (`BracedCollectorRendersTwice`), and one that
  spells none can still do so next to itself (`NeighbouringCollectorsSpellToken`). The chain is right
  exactly when no later token is spelled in what it should render (`ChainIsOnePassIff`), which for one
  `{collector}` means in the name (`OneCollectorIff`).
- An address enabled twice leaves a peer loop that nothing can stop (`NoStrayLoopIffUnique`).
- Scheduled snapshots of a bucket repeat when the clock goes back (`BackwardClockRepeats`); no bucket gets
  two exactly when no tick that could take one returns to an earlier bucket (`OneEachIffNoReturn`), and
  they are in order exactly when those buckets never go back (`OnceEachIffBucketsInOrder`).
- Validation accepts one template for both streams; their paths then collide exactly when the buckets start
  in the same minute (`EqualTemplatesCollideIff`), as every ribs bucket does with an updates bucket
  (`RibsBucketsStartUpdatesBuckets`).
- A queue with a live job need not empty however many rounds it gets; from rest it does exactly if no job was
  orphaned (`RoundsDrainIffNoOrphans`).
- Start-up can sweep away the files of a queue row, because nothing keeps the temporary root from being a
  directory of segments; rows keep their files over all runs exactly when it is not and no segment is
  at another's temporary path (`RowsStoredIffSafe`).

## Model

| member | source | states |
|---|---|---|
| Calendar.CivilRoundTrip | src/archive/layout.rs:24-31 | every day number yields a valid date whose day number it is |
| Calendar.DaysRoundTrip | src/archive/layout.rs:24-31 | every valid date is recovered from its day number |
| Calendar.CivilStartsAtEpoch | src/archive/layout.rs:24-27 | day 0 is 1 January 1970 |
| Calendar.CivilTurnsThePage | src/archive/layout.rs:24-31 | the date of the next day number is the next page of the calendar, month lengths and leap years included: with day 0 this fixes the conversion completely |
| Text.DecimalSpelled | src/archive/layout.rs:29-31 | numbers are written in the ten decimal digits, the last digit being the remainder by ten |
| Layout.AlignedEpoch | src/archive/layout.rs:9-12 | the bucket start is a multiple of the interval and its bucket holds the timestamp, negative timestamps included |
| Layout.AlignedUnique | src/archive/layout.rs:9-12 | no other multiple of the interval covers the timestamp |
| Layout.AlignedMonotone | src/archive/layout.rs:9-12 | later timestamps have later buckets, at least one interval apart if not equal |
| Layout.ValidatedMeans | src/config/mod.rs:228-247 | validation accepts exactly a named collector with positive intervals such that every full hour and every ribs bucket begins an updates bucket |
| Layout.NameStart | src/archive/layout.rs:78-88 | where the file name of a relative path begins: after the last slash |
| Layout.SamePathIffSameMinute | src/archive/layout.rs:29-55 | two bucket starts of a stream render to the same built-in path exactly when they lie in the same minute, for all years |
| Layout.PathsInjectiveIffMinuteLong | src/archive/layout.rs:14-55 | the paths of a stream's buckets are pairwise distinct exactly when its interval is at least 60 seconds |
| Layout.BucketPathInjective | src/archive/layout.rs:19-55 | from 60 seconds on, equal paths mean equal buckets |
| Layout.ValidationAllowsCollisions | src/config/mod.rs:228-247 | some validated configuration gives two buckets the same path |
| Layout.StreamsNeverCollide | src/archive/layout.rs:35-55 | an updates path is never a ribs path; which is which is told by PathReading.PathSaysStreamAndMinute |
| Layout.PathEndsInExtension | src/archive/layout.rs:33-55 | every built-in path ends in the extension of the compression |
| Layout.PathsSpelled | src/archive/layout.rs:76-93 | a relative path goes below the root; while written it lies beside that directory's place below the temporary root, its name without leading dots between a dot and `.tmp` |
| PathReading.PathSaysStreamAndMinute | src/archive/layout.rs:24-55 | for both profiles, both streams and every year: a reader that knows the conventions (directories, file prefixes, numbers by position) gets from a bucket's path its collector, stream, compression, and a valid date and time that is the bucket start rounded down to the minute |
| PathReading.SegmentPathSaysBucket | src/archive/layout.rs:14-55 | the same from the path of any timestamp, for the multiple of the stream's own interval at or before it |
| PathReading.RotatedPathSaysBucket | src/archive/writer.rs:141-147 | the path a rotated segment is renamed to is the root and a relative path that reads as updates of its bucket |
| PathReading.RenderSpelled | src/archive/layout.rs:113-130 | refused exactly without the three mandatory tokens; otherwise seven replacements, each of a token as spelled in the documentation by a text that reads back as the field, in the source's order |
| Templates.ExtensionSpelled | src/archive/layout.rs:132-145 | the extension is appended to the last component exactly when it has no dot after its first character; no last component is an error |
| Templates.ChainIsOnePass | src/archive/layout.rs:123-130 | for a brace-free collector and a template with braces only in the seven tokens, the chain of replacements equals one simultaneous substitution |
| Templates.ChainWhenSilent | src/archive/layout.rs:123-130 | the same for any collector name, if the simultaneous substitution spells no later token |
| Templates.RenderingsInjective | src/archive/layout.rs:113-130 | under the conditions of ChainIsOnePass and for years 0 to 9999, equal renderings of an accepted template mean the same date, hour and minute |
| Templates.CustomPathsInjective | src/archive/layout.rs:113-145 | the same for the whole path, whether or not the extension is appended to it |
| Templates.CustomBucketsInjective | src/archive/layout.rs:64-73 | from 60 seconds on, equal custom paths of two bucket starts mean the same bucket |
| Templates.EqualTemplatesCollideIff | src/config/mod.rs:316-333 | with one template for both streams, which validation accepts, paths collide exactly when the buckets start in the same minute |
| Templates.RibsBucketsStartUpdatesBuckets | src/config/mod.rs:239-247 | with validated intervals every ribs bucket start is an updates bucket start |
| TemplateLimits.ChainIsOnePassIff | src/archive/layout.rs:123-130 | for every collector name: the chain equals the simultaneous substitution exactly when no later token is spelled in the latter |
| TemplateLimits.OneCollectorIff | src/archive/layout.rs:123-130 | with one `{collector}` in the template: exactly when the collector name contains no later token |
| TemplateLimits.BracedCollectorRendersTwice | src/archive/layout.rs:113-130 | under the accepted template `{collector}/{yyyymmdd}.{hhmm}` the collector `{mm}` is rendered as the month |
| TemplateLimits.NeighbouringCollectorsSpellToken | src/archive/layout.rs:113-130 | a collector without any token, repeated in an accepted template, is rendered wrongly |
| Rotation.ArchiveService.FinalizeWriter | src/archive/writer.rs:134-174 | the whole archive after a finalization that succeeds or fails before or after its rename, list by list |
| Rotation.ArchiveService.EnsureUpdatesWriter | src/archive/mod.rs:302-337 | the open bucket is left alone; otherwise it succeeds exactly if the open segment is finalized and queued and the new one created, with an empty segment of the new bucket or none, and the old one closed as its finalization went |
| Rotation.ArchiveService.RotateUpdates | src/archive/mod.rs:339-357 | the same for an uninterrupted manual rollover, which never leaves the open segment open |
| Rotation.ArchiveService.IngestUpdate | src/archive/mod.rs:114-129 | an uninterrupted ingest: the record comes last in the segment of its own bucket, after all that was there, or nothing is added |
| Rotation.StepMovesRecords | src/archive/mod.rs:114-146 | every critical section keeps all records and counts, except an acknowledged write, which adds exactly its own |
| Rotation.StepKeepsExactlyOnce | src/archive/mod.rs:302-357 | the accounting below is kept by every step |
| Rotation.ExactlyOnceAlways | src/archive/mod.rs:114-146 | in every interleaving with any failures, an acknowledged update is in exactly one segment, any other in none, and the record counts sum to the acknowledgements |
| WriteOrder.SegmentsKeepWriteOrder | src/archive/writer.rs:116-120 | in every run the records of every open, finalized and abandoned segment, and of every final path, stand in the order in which the run acknowledged their calls |
| WriteOrder.ArchiveIsTheAcknowledgedSequence | src/archive/mod.rs:114-129 | without finalization failures the finalized segments in order, followed by the open one, are exactly the acknowledged sequence, under every interleaving |
| CallTraces.CallsFollowTheirCode | src/archive/mod.rs:114-146 | in every run each ingest, rollover and tick takes its steps in order, once each, and stops at its first failure; an ingest is acknowledged exactly after a successful ensure and a successful write |
| CallTraces.HandleIsARun | src/archive/mod.rs:114-129 | an ingest or tick that nothing interrupts leaves the archive that the run of its lock-level steps leaves |
| RotationDisk.ReadableIffNotSuperseded | src/archive/writer.rs:141-147 | a renamed segment's record is readable exactly when no later rename used its path |
| RotationDisk.SurvivesUntilPathReused | src/archive/writer.rs:141-147 | over every interleaving: readable exactly when no later rename was of the same minute |
| RotationDisk.WindowsInOrder | src/archive/mod.rs:302-337 | with atomic calls, a clock that never goes back, no rollover and no finalize failure, closed segments have disjoint increasing windows and hold only records of their window |
| RotationDisk.SegmentsAreLinked | src/archive/mod.rs:305-333 | without failures each segment starts in the bucket of its predecessor's end timestamp |
| RotationDisk.ClosedRecordsStayOnDisk | src/archive/writer.rs:134-174 | as for WindowsInOrder and with intervals of at least 60 seconds: no path is renamed to twice and every closed segment is on disk with all its records |
| RotationDisk.RolloverLosesRecords | src/archive/mod.rs:339-357 | a run from the start: after a rollover within a bucket, an acknowledged record of a finalized segment is on no path |
| RotationDisk.RecordInForeignBucket | src/archive/mod.rs:119-126 | two interleaved ingests of different buckets leave a record outside its segment's window |
| RotationDisk.WriteInWindowIff | src/archive/mod.rs:121-126 | a write keeps the segment within its window exactly when the open bucket is the record's |
| Queue.ReplicationQueue.Insert | src/archive/queue.rs:70-97 | the whole table after an enqueue |
| Queue.ReplicationQueue.ClaimReady | src/archive/queue.rs:99-138 | claims the lowest pending rows whose time has come, up to the limit, marks those rows and no other; each job names the segment, manifest, destination, attempts and maximum of its row |
| Queue.ReplicationQueue.Delete | src/archive/queue.rs:140-147 | the whole table after a success |
| Queue.ReplicationQueue.MarkJobFailed | src/archive/queue.rs:149-182 | the whole table after a failure: retry with backoff, or failed when the budget is used up |
| Queue.ReplicationQueue.ReviveFailed | src/archive/queue.rs:204-217 | the whole table after a revival and the number of rows revived |
| Queue.ReplicationQueue.PendingCount | src/archive/queue.rs:184-192 | the number of pending and in-progress rows |
| Queue.ReplicationQueue.FailedCount | src/archive/queue.rs:194-202 | the number of failed rows |
| Queue.ReadyIdsAreLowest | src/archive/queue.rs:99-126 | the selected ids are ready, ascending, at most the limit, and leave out no smaller ready id |
| Queue.LowestReadyUnique | src/archive/queue.rs:99-126 | only one selection has those properties |
| Queue.ClaimMeans | src/archive/queue.rs:99-138 | what claimed jobs say and which rows they leave out, column by column |
| JobContents.JobsAreWhatWasSubmitted | src/archive/queue.rs:70-138 | over every run: each row and each job in a worker's hands with id n has the segment, manifest, destination and maximum of the n-th enqueue |
| Replication.StepKeeps | src/archive/queue.rs:70-217 | every step of any worker keeps well-formedness, held snapshots equal to their rows, one holder per job, full accounting and the retry budget |
| Replication.Conservation | src/archive/queue.rs:70-217 | in every run each issued id is in exactly one of pending, in progress, failed and delivered, and the counts sum to the number enqueued |
| Replication.RetryBudget | src/archive/queue.rs:149-182 | in every run attempts stay within the budget determined by the maximum, the number of revivals and the status, with 32-bit saturation; a maximum of zero never fails |
| Replication.RevivedJobHasOneAttempt | src/archive/queue.rs:204-217 | a revived job's next failure is final |
| Replication.OrphanForever | src/archive/queue.rs:99-113 | a row in progress that nobody holds is never changed again |
| Replication.AbandonOrphans | src/archive/replicator.rs:81-114 | a worker that stops in mid-batch turns its remaining jobs into such rows |
| ReplicationOrder.FirstAttemptsInOrder | src/archive/queue.rs:99-126 | with a clock that never goes back, jobs that have not failed are claimed in the order they were enqueued |
| ReplicationOrder.MonotoneSpelled | src/archive/queue.rs:99-113 | what "never goes back" means for a run: no step is earlier than the one before it |
| ReplicationOrder.BackoffRespected | src/archive/queue.rs:169-181 | a job rescheduled at t is not claimed, nor changed, at clock readings before t plus backoff, over every run |
| ReplicationOrder.PendingUntilRetryTime | src/archive/queue.rs:104-113 | a pending row is unchanged by every run that claims only before its retry time |
| ReplicationOrder.MarkLightens | src/archive/queue.rs:157-181 | with limited retries every processed job strictly lowers the remaining work |
| ReplicationOrder.QueueDrains | src/archive/replicator.rs:81-114 | hence, without enqueues and revivals, a run processes at most as many jobs as there was work, whatever the outcomes |
| Drain.RunKeepsNoOrphans | src/archive/replicator.rs:81-114 | unless a worker stops in mid-batch, every job in progress is in some worker's hands |
| Drain.RoundsDrainIffNoOrphans | src/archive/replicator.rs:70-114 | from rest, with limited retries and without enqueues, revivals and stops, as many rounds as there is work, each begun by a claim after all retry times, leave no live job exactly if no job was orphaned before |
| ReplicationOrder.DrainedIffNoLoad | src/archive/queue.rs:184-192 | no work remains exactly when no live job remains |
| ReplicationOrder.ReadyJobIsClaimed | src/archive/queue.rs:99-138 | a claim with a positive limit comes away with a job whenever one is ready |
| Replicator.AllDestinationsKept | src/archive/replicator.rs:32-37 | every configured destination is reachable by its key exactly when equal keys mean equal destinations |
| Replicator.PrefixesCollapse | src/config/mod.rs:432-436 | S3 destinations that differ in their prefix share a key and the first is dropped |
| Replicator.KeySpelled | src/config/mod.rs:423-438 | the key of each kind of destination, with the text for a missing part |
| Replicator.LocalKeysTellPaths | src/config/mod.rs:423-431 | two local destinations with a path have the same key exactly when they have the same path |
| Replicator.Worker.EnqueueSegment | src/archive/replicator.rs:55-68 | one new pending row per asynchronous replica, with consecutive ids, its files, key and maximum, in some order of the map, up to the first failed write; older rows are kept |
| Replicator.Worker.MarkOne | src/archive/replicator.rs:81-114 | the whole table after one processed job; an unknown destination backs off five seconds |
| Replicator.Worker.MarkBatch | src/archive/replicator.rs:83-113 | up to the first mark that cannot be written each job is settled by its own outcome, no other row changes, and the failure counter grows by the failed copies up to there |
| Replicator.Worker.RunOnce | src/archive/replicator.rs:81-114 | a whole round: at most 32 jobs, fewer only if every ready one is among them, each with its row's contents; copied rows are gone, failed ones wait for their backoff or have failed, those after the first lost mark stay in progress, no other row changes |
| Replicator.BatchMeans | src/archive/replicator.rs:81-83 | a batch is at most 32 ready jobs, and all of them if fewer |
| Replicator.RestMarked | src/archive/replicator.rs:83-113 | what marking does to each row of a batch of different jobs, by its outcome and by whether a mark was lost before it |
| Replicator.FailuresSpelled | src/archive/replicator.rs:84-101 | the counted failures are the failed copies with no lost mark before them |
| Replicator.MarkingIsARun | src/archive/replicator.rs:83-113 | marking a batch has the effect of a run of the interleaved system |
| Replicator.RoundIsARun | src/archive/replicator.rs:81-114 | so has a whole round, which leaves the worker holding nothing |
| Durability.LayoutsNameSegments | src/archive/layout.rs:33-55 | built-in paths have the extensions that SegmentNamesAreSafe and SegmentNamesSuit speak of |
| Durability.SegmentNamesAreSafe | src/archive/layout.rs:77-93 | for names with those extensions, safety means only that the temporary root holds no segments itself |
| Durability.SweptIffParent | src/archive/mod.rs:364-381 | start-up removes a file from the temporary root exactly when that is the file's directory |
| Durability.StepKeeps | src/archive/writer.rs:134-174 | every file-store step over safe names keeps the files each writer and row relies on |
| Durability.RowsNameExistingFiles | src/archive/mod.rs:311-323 | for safe names (the temporary root holds no segments itself, and no segment is at another's temporary path): at every crash point of every run, reused paths and overlapping replicas included, each queue row names a segment and a manifest that exist |
| CrashRuns.RowsStoredIffSafe | src/archive/mod.rs:364-381 | with a replica configured, this holds of all runs over a set of names exactly when the names are safe |
| Durability.TmpIsNotFinal | src/archive/layout.rs:77-93 | a segment is never at its own temporary path, whatever the layout |
| CrashRuns.SweptRow | src/archive/mod.rs:364-381 | a run whose queue row lost its files to start-up, for every name in the temporary root itself |
| ClaimBook.ClaimedIffHeldOrLeft | src/archive/queue.rs:99-113 | after any run, crashes included, a row is claimed exactly if a worker holds it or the worker that held it was stopped or killed |
| ClaimBook.CopiesWhatTheManifestNames | src/archive/replicator.rs:121-153 | in every run a worker copies to the relative path that stood in the manifest file of its job, whichever segment that was for |
| Replicas.SegmentNamesSuit | src/archive/layout.rs:77-93 | for names with a compression's extension, suitability means only that start-up sweeps nothing of the archive or a replica |
| Replicas.SeparatedSuffices | src/config/mod.rs:411-438 | directories that do not contain each other, with suitable names, clash in nothing |
| Replicas.StepKeepsInv | src/archive/replicator.rs:120-178 | when nothing clashes, every step that reuses no path keeps one job per segment and replica, the archive's pairs and the delivered pairs |
| Replicas.DeliveredIsWhatWasFinalized | src/archive/replicator.rs:143-178 | if no path is reused (names may be opened again after crashes and failures) and nothing clashes: in every run, a delivered job's destination holds the archive's segment and the manifest made for that segment |
| ReplicaPaths.AlwaysRightIffNoClash | src/archive/replicator.rs:143-178 | with a replica configured, this holds of all runs over a set of names that reuse no path exactly when nothing clashes: the root is no replica, start-up sweeps nothing, no temporary path is a segment's or a copy's, and no two segments or copies share a path with each other or their manifests |
| Whole.DeliveredIsWhole | src/archive/writer.rs:134-161 | if besides no two writers share a temporary file: what a delivered job left at its destination is a whole segment that a writer of that name finished, next to the manifest for it |
| Whole.SecondWriterTears | src/archive/writer.rs:72-106 | a run from the start, for every name, that reuses no path and renames and hashes a torn segment, because a second writer opened the name before the rename |
| JobBook.OneJobPerReplica | src/archive/replicator.rs:55-68 | if no path is reused, wherever replicas lie: no two rows are for the same segment and replica, and none for a delivered one |
| CrashRuns.ReopenAfterCrash | src/archive/mod.rs:76-79 | a crash before the rename and a restart within the bucket reuse no path |
| ReplicaPaths.ReplicaOnRootTearsSegment | src/archive/replicator.rs:162-175 | a run from the start, for every name, in which a replica on the archive root is delivered with segment and manifest cut short |
| ReplicaPaths.ReuseTearsPair | src/archive/writer.rs:141-161 | for any name and any replica apart from the archive, some run from the start that moves two segments onto its path delivers a manifest that hashes another segment |
| EndToEnd.EventHolds | src/archive/mod.rs:302-337 | every event of the joint machine, crashes included, keeps exactly-once accounting, every segment moved into place in the file store, and every delivered pair, if nothing clashes and no path is reused |
| EndToEnd.AlwaysAgree | src/archive/writer.rs:134-147 | under the same two conditions, in every joint run the file store holds the records of every path of the rotation's archive, and each acknowledged update is in exactly one segment |
| EndToEnd.UpdateReachesReplicas | src/archive/replicator.rs:143-178 | if nothing clashes among the names opened and no path is reused: in every joint run, whatever interleaves, fails or crashes, each record of a finalized segment is in the copy at every replica its name was delivered to, next to the manifest of that copy |
| EndToEnd.FileStoreRuns | src/archive/writer.rs:134-174 | the file store of every joint run goes through a run of its own with a restart for each crash, so all its theorems apply |
| EndToEnd.RotationRuns | src/archive/mod.rs:302-357 | between crashes the rotation of every joint run goes through a run of its own |
| Handshake.HandshakeIsSafe | src/bgp/mod.rs:230-266 | two speakers never report an unexpected message, and one is Established only after the other has received its OPEN |
| Handshake.StepMeasure | src/bgp/mod.rs:230-266 | without connection failure a handshake step lowers the distance by one and no other step changes it |
| Handshake.HandshakeCompletes | src/bgp/mod.rs:230-266 | eight handshake steps are taken in all; both are Established exactly at distance zero, and until then some handshake step is possible; what has been sent by then is told by EveryPrefixAnnounced |
| Handshake.AdvanceStaysEnabled | src/bgp/mod.rs:247-258 | no step of the other side disables a possible handshake step |
| Handshake.FairRunEstablishes | src/bgp/mod.rs:230-266 | without connection failure, eight rounds in each of which neither speaker is passed over establish both |
| Handshake.EveryPrefixAnnounced | src/bgp/mod.rs:266-314 | over every run a speaker in its loop has sent exactly OPEN, KEEPALIVE, one UPDATE per prefix, then only KEEPALIVEs; elsewhere the corresponding beginning |
| Handshake.SpeakerJudgesPeer | src/bgp/mod.rs:246-299 | against any peer: the session is established exactly if the peer began with OPEN and KEEPALIVE, and ends, for the reason they give, at the first message that gives one |
| HoldTimer.EstablishedLoop | src/bgp/mod.rs:268-300 | the loop on timers ends where and as the timed specification says, a failed keepalive write included, having sent the specified keepalives |
| HoldTimer.KeepaliveFits | src/bgp/mod.rs:235-269 | the interval is at least one second and three of them fit in the hold time (section 4.4 of RFC 4271) |
| HoldTimer.IntervalsSpelled | src/bgp/mod.rs:235-269 | the hold time is the configured one and at least three seconds; the interval is its third, rounded down |
| HoldTimer.ReadTimeoutSpelled | src/bgp/mod.rs:284-288 | a read may take until the next keepalive, at most a second |
| HoldTimer.KeepaliveGap | src/bgp/mod.rs:273-278 | while writes succeed, keepalives are due exactly an interval after the last, and no turn begins later than interval plus slack |
| HoldTimer.KeepalivesRegular | src/bgp/mod.rs:273-278 | consecutive keepalives of a running session are at most interval plus slack apart, whatever was announced before the loop |
| HoldTimer.ExpiresIffSilent | src/bgp/mod.rs:280-295 | expiry is reported exactly when a hold time has passed since the loop began or a message was last received |
| HoldTimer.SilenceNoticedPromptly | src/bgp/mod.rs:280-288 | a silent peer is noticed within one second and slack after the deadline |
| HoldTimer.RegularPeerKeepsSessionUp | src/bgp/mod.rs:280-300 | against any peer that sends regularly enough the timer never expires |
| HoldTimer.KeepalivesKeepSessionUp | src/bgp/mod.rs:266-300 | against another speaker of this code with any announcements, when its interval, both slacks, latency and head start fit the receiver's own hold time |
| HoldTimer.UnnegotiatedHoldExpires | src/bgp/mod.rs:235-268 | for every longer keepalive interval there are timed runs of both sides, without slack or latency, in which the receiver's timer expires |
| HoldTimer.NeverDroppedIff | src/bgp/mod.rs:235-300 | without slack and latency no session ends by the hold timer exactly when the sender's interval is at most the receiver's hold time |
| Peers.BgpService.StartPeers | src/bgp/mod.rs:114-126 | the table holds exactly the enabled addresses, each idle with the last enabled configuration of its address and that one's loop |
| Peers.BgpService.SetPeerState | src/bgp/mod.rs:325-351 | one entry's report: an error is kept until another one or Established without one, the time of establishment until another; other entries and unknown addresses are untouched |
| Peers.BgpService.RunRound | src/bgp/mod.rs:162-191 | entry and events, by name, after each kind of round of connect, session and retry |
| Peers.BgpService.PeerLoop | src/bgp/mod.rs:162-191 | the events of the loop for any sequence of sessions |
| Peers.StartedSpelled | src/bgp/mod.rs:114-126 | the entry of an address after start-up |
| Peers.ActSpelled | src/bgp/mod.rs:325-351 | what the entry of a loop shows after each of its reports, in overlapping resets |
| Peers.ReportsFollowRounds | src/bgp/mod.rs:162-191 | every beginning of the reports of `peer_loop` is whole rounds followed by the beginning of one |
| Peers.LoopsReportRounds | src/bgp/mod.rs:162-191 | in every run of overlapping resets, every loop, stopped or not, has reported whole rounds and exactly as much of the next as it has come to |
| Peers.NoStrayLoopIffUnique | src/bgp/mod.rs:114-126 | after start-up every running loop is reachable through the table exactly when no address is enabled twice |
| Peers.StepKeepsPartition | src/bgp/mod.rs:372-391 | every step of overlapping resets and reports keeps the division of the peers between table and resets |
| Peers.ResetsKeepPeers | src/bgp/mod.rs:372-391 | over every run of overlapping resets no peer is lost, doubled or changed in configuration, and each loop has one owner, whose address it runs under |
| Peers.PeersNeverLost | src/bgp/mod.rs:372-391 | the same from start-up on, for distinct addresses |
| Locks.LockOrder | src/archive/mod.rs:228-230 | a lock is requested only above every lock held |
| Locks.RunKeepsExclusive | src/archive/mod.rs:277-300 | every run keeps each lock with one holder and is bounded in length |
| Locks.NoDeadlock | src/archive/mod.rs:188-357 | in every reachable state with an unfinished call some call can move |
| Locks.SectionsExclude | src/archive/mod.rs:188-357 | in every run no two calls are at once in the code over the open segment, between test and record of a snapshot bucket, or in the code over the last snapshot |
| Locks.CallsFollowProgram | src/archive/mod.rs:188-357 | in every run each call goes through its places in the code's order, or ends early where an error or a bucket that has its snapshot lets it |
| Locks.ProgramsRun | src/archive/mod.rs:188-357 | and it can go through all of them, or end at each of those |
| Locks.Scheduler.Tick | src/archive/mod.rs:277-300 | the whole scheduler state after a tick and the snapshot it took |
| Locks.OneSnapshotPerBucket | src/archive/mod.rs:285-297 | with a clock that never goes back, the buckets of successful scheduled snapshots strictly increase |
| Locks.OnceEachIffBucketsInOrder | src/archive/mod.rs:285-297 | they do so exactly when the buckets of the ticks that could take a snapshot never go back |
| Locks.OneEachIffNoReturn | src/archive/mod.rs:285-297 | no bucket gets two snapshots exactly when no tick that could take one returns to an earlier bucket |
| Locks.SnapshotIffPossible | src/archive/mod.rs:285-297 | a bucket gets a snapshot exactly when some tick in it could take one |
| Locks.BackwardClockRepeats | src/archive/mod.rs:285-297 | a clock that goes back to an earlier bucket repeats its snapshot |
| Frames.ReadBackOne | src/bgp/mod.rs:495-528 | a legal frame followed by anything is read back as itself, with the rest untouched |
| Frames.AcceptedReencodes | src/bgp/mod.rs:507-528 | whatever the reader accepts re-encodes to the bytes it consumed |
| Frames.ReadFrameSpelled | src/bgp/mod.rs:507-523 | what the reader makes of any bytes, in the numbers of the wire format: marker before length, length 19 to 4096 with the high byte first, each error exactly |
| Frames.ReadBackAll | src/bgp/mod.rs:495-528 | any sequence of legal frames is read back as that sequence |
| Frames.Stream.ReadExact | src/bgp/mod.rs:507-509 | returns exactly the next bytes whatever the chunking, or nothing at the end of the stream |
| Frames.Stream.ReadMessage | src/bgp/mod.rs:507-528 | the chunked reader agrees with the specification on the concatenated bytes, errors included |
| Frames.Stream.ReadMessages | src/bgp/mod.rs:287-299 | repeated reads consume exactly the encodings of the frames returned |
| Frames.ReadBack | src/bgp/mod.rs:495-528 | any chunking of any sequence of legal frames is read back as that sequence |
| Frames.Stream.CancelledRead | src/bgp/mod.rs:287-299 | a cancelled read drops exactly the bytes it has taken, whatever the chunking |
| Frames.Stream.ReadWithTimeouts | src/bgp/mod.rs:287-299 | a session's reads, cancelled or not, agree with the specification on the concatenated bytes |
| Frames.ReadBackIffNothingLost | src/bgp/mod.rs:287-299 | any sequence of legal frames comes back as sent, with the rest untouched, exactly when no cancelled read took a byte |
| Frames.CancelledLosesFrame | src/bgp/mod.rs:287-299 | after a read cancelled k bytes into a frame, anywhere up to its end, the next read returns that frame exactly when k is zero |
| Frames.CancelledInHeader | src/bgp/mod.rs:287-299 | within the header of a frame whose type is not 255 the next read reports a bad marker unless k is zero |
| Frames.CancelledInBodyForgesFrame | src/bgp/mod.rs:287-299 | a read cancelled between header and body can take a frame from within the body |
| Mrt.ParseIsInverse | src/archive/snapshot.rs:178-199 | a record is recovered from its encoding exactly when its payload is shorter than 2^32 bytes |
| Mrt.HeaderFields | src/archive/snapshot.rs:178-199 | timestamp, type, subtype and length stand at bytes 0, 4, 6 and 8, the payload at 12 |
| Mrt.BigEndianSpelled | src/archive/snapshot.rs:178-199 | most significant byte first |
| Mrt.SegmentParses | src/archive/snapshot.rs:178-199 | any sequence of such records is recovered from the concatenated encodings, in order |
| Mrt.SegmentWriter.WriteRecord | src/archive/writer.rs:116-120 | the bytes stay the encodings of the records written, and the counter their number |
| Mrt.BuildPeerIndexTable | src/archive/snapshot.rs:131-157 | succeeds exactly below 2^16 peers, with every peer under its own index and addresses mapped to an index of that address |
| Mrt.BuildTableDump | src/archive/snapshot.rs:65-129 | succeeds exactly when no route is in error; then a peer index record of subtype 1 and for each route, in order, a RIB entry of subtype 2 with its sequence, prefix, prefix length, origination time and attributes, whose peer index leads in the table to the route's peer; otherwise reports the first route's error |
| Mrt.DumpParses | src/archive/snapshot.rs:65-129 | the bytes of a snapshot segment parse into exactly those records, all of type 13 |

## Left out

- S3 uploads, AWS configuration and TCP-MD5 socket options are foreign calls without visible effect on this state.
- Message bodies inside BGP frames and MRT payloads, and the fallback from 32-bit to 16-bit AS numbers, belong to a parser library that is not part of this model; a read yields kind and body bytes.
- Writing a frame whose length exceeds 4096 bytes is left to that library; the round trips are for legal frames.
- Compression, SHA-256 and JSON: segment bytes are the uncompressed ones, and a manifest records the content it was computed from.
- Configuration parsing, the command line, the control socket, tracing and event delivery; where a property needs events they are an explicit log.
- The trimming of a blank collector name during validation knows only the space character.
- The range error of the calendar library is one of the ways opening a segment can fail; years are otherwise unbounded.
- The duplicated template check in validation.
- A failed record write is taken to leave no effect, as a partly written compressed block cannot be told from one.
- Copies and manifests may be cut short at any point; mark, insert and claim statements of the job table are atomic, as the database makes them.
- Two snapshots of the same rib bucket that overlap share a temporary file without a lock; they are taken not to overlap.
- Paths are strings: roots and replica paths are taken to be absolute, without trailing slash, links or dot components, and relative paths not to be absolute.
- Directory creation and file synchronization have no effect beyond failing.
- The moment at which an aborted peer loop stops is the runtime's: it may go on reporting until it does.
- Peer loops that report while start-up is still filling the table; resets begin after start-up.
- Connecting actively or passively is one outcome of a round of the peer loop; addresses, ports and sockets are not modelled.
- `rib_in`, `rib_out`, `object_key`, `rib_summary`, the advertised-prefix counter, defaults and the copying of status fields are single-branch code that would add only easy members.
- EndToEnd.UpdateReachesReplicas: the rotation part knows the built-in layouts only; custom paths have their own theorems.
- Locks.OneSnapshotPerBucket: the scheduler forgets its last bucket at a restart, so a restart within a bucket takes that bucket's snapshot again.
- HoldTimer.EstablishedLoop: messages carry no content beyond their kind, and time is real-valued, so clock resolution is not modelled.
- Handshake.FairRunEstablishes: that the runtime passes no speaker over is its scheduling, and a hypothesis here.
