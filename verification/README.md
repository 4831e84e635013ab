# RedMan: a verified model

RedMan backs up servers, collects heartbeats from jobs it does not run, pairs with other instances
and keeps its own database small. This project models the parts of it where a mistake loses data or
lets a wrong message through, and proves what they promise over whole runs: under crashes, faults,
interleavings, replays and every choice a database is free to make.

Verify it with `dafny verify dfyconfig.toml` (Dafny 4.11).

## What is modelled

**The version store** (`SnapshotStore`, `BackupRun`, `Deltaify`, `BackupHistory`, `VersionService`,
`SnapshotSummary`). A backup run moves old contents into a snapshot, retargets older deltas, replaces
full copies by binary deltas, publishes a manifest and only then unlinks. `Read` is the meaning of a
version: its delta patched onto what its base reads as. The delta tool is any one that is sound:
patching a base with the delta made for it and a target gives the target. `VersionService` has the
operations as they run, with every state the disk passes through in `trace`. One promise turns out
false and is characterised exactly: a run keeps all older versions just when every delta based on the
live tree, of a path that changed, is in the newest snapshot with a manifest and its path was recorded
as transferred, created or updated, and every such delta that the rebase turns to the new snapshot had
its old content moved there (`Covered`). The recorded paths are read off rsync's output, so they are any
set in the model. Three ordinary runs are enough to leave that condition (`ThreeRunsLoseAVersion`), and so
are deleting a file (`DeletionBreaks`) and recording a path that was not moved (`RecordedButNotMoved`).
A run that fails or is cancelled is never followed by its rebase, and no later rebase makes up for it: it
keeps every version just when it left the live copies under live-based deltas alone
(`UnrebasedRunKeepsExactly`). In a history such a run, or one that dies before its rebase is written, is a
run that recorded nothing.

**Concurrency in the same service** (`ConfigLock`, `ParallelMap`). Tasks interleave where they await;
a step is what happens between two awaits.

**Relayed heartbeats** (`RelayWire`, `RelayDatabase`). Overlapping polls read one broker again and
again; a unique reference made from the signature keeps each heartbeat to one row, also while retention
deletes rows, tokens change and jobs come and go. Signing is a function assumed to be free of
collisions among the signings of a run; numbers are finite doubles whose spelling reads back; keys
handed out are new. The comment on the migration that adds the reference
(`app/backend/src/migrations.js:983-984`) says heartbeats over HTTP leave it empty, but the route passes
the body on as it comes (`app/backend/src/routes/externalJobs.js:31`); the model follows the code, so
exactly-once holds unless such a heartbeat has claimed the reference.

**Database retention** (`Retention`). Thirteen statements per batch, each taking any rows up to a limit,
converge to the result of pruning everything at once. Comparisons with NULL are never true.

**Installing a restore** (`RestoreInstall`). Renames with rollback over the database and its sidecars;
any forward step may fail, and the process may die after any step.

**Pairing** (`Handshake`, `Pairing`). JSON transcripts (section 7 of RFC 8259) are written out character
by character and read back. The two-party protocol runs over a network that may drop, repeat, reorder and
invent messages. Key agreement (section 6.1 of RFC 7748), key derivation (section 2 of RFC 5869),
signatures and sealed boxes are symbolic: equal shared secrets, no collisions, boxes that open with
their own key only, signatures that verify under the key pair that made them, and no one else signing
as the initiator. An accepted pairing can lose that status again in just one way, a late failure of its
first request (`AcceptedUnlessLateFailure`).

**Smaller forms proved equal to simpler ones**: rsync's output in chunks against the whole text
(`RsyncOutput`), address ranges by bytes and masks against 128-bit values (`Cidr`, sections 3.1 of RFC
4632 and 2.5.5.2 of RFC 4291), path prefixes as strings against segment lists, and what follows for jobs
that delete (`PathPolicy`), session limits with a refresh once a minute (`Sessions`), and fingerprints of
failures against comparing them (`RcloneDiagnostics`). Here too some findings are exact conditions:
an IPv4 range written with 33 to 96 bits matches every IPv4 client and one with up to 128 counts from 96
(`V4RangeMeans`), the refresh throttle shortens the idle limit by up to a minute
(`ThrottleShortensIdle`), a line over 64 KiB can be cut wrongly (`CapMattersExactly`), and rows with counts
of zero change a fingerprint (`AggregatedIsExpanded`).

`Text` and `Wrappers` hold string operations and an option type.

## Assumptions

- The clock does not run backwards, and between reading the clock and recording a poll takes at most a
  day less half an hour (its fetch is cut off after 20 seconds).
- Snapshot names order like the times they stand for; no backed-up path ends in `.rdelta` or is named
  `_manifest.json` or `_summary.json`.
- A safety timestamp of a restore is newer than those there are, and undoing a step does not fail.
- Within one retention pass the clock of the database stands still.
- The file system that path checks resolve against does not change between checks.
- What the receiver takes for the initiator's answer to a callback is its answer.
- Row ids are handed out upwards and not reused; random tokens, keys and secrets are new.

## Model

| member | source | states |
|---|---|---|
| SnapshotStore.ReadsOnlyLater | app/backend/src/services/deltaVersion.js:458-492 | a version depends only on its own snapshot and later ones: stores that agree from some snapshot on read alike from there on |
| SnapshotStore.RewriteOne | app/backend/src/services/deltaVersion.js:427-536 | rewriting one snapshot so that its own versions read as before leaves every chain that passes through it reading as before |
| SnapshotStore.DropUnreferenced | app/backend/src/services/versionBrowser.js:486-488 | a version whose chain never names a snapshot reads the same without that snapshot |
| BackupRun.RunStaysValid | app/backend/src/services/deltaVersion.js:387-423 | after rsync and rebase every base is still the live tree or a snapshot strictly newer than its holder, so chains end |
| BackupRun.CoveredKeepsReading | app/backend/src/services/deltaVersion.js:402-422 | a covered run leaves each older version readable as the same bytes, chain by chain |
| BackupRun.UncoveredBreaks | app/backend/src/services/deltaVersion.js:414-421 | an uncovered run breaks a version: there is a sound delta tool under which a genuine delta reads as the backed-up content before the run and as something else, or not at all, after it |
| BackupRun.RunKeepsOldVersionsExactly | app/backend/src/services/deltaVersion.js:387-423 | a run keeps every old version, under every sound delta tool, if and only if it is covered: each live-based delta of a path that changed is in the newest manifested snapshot and its path was recorded, and each one the rebase turns to the new snapshot had its file moved there |
| BackupRun.RecordedButNotMoved | app/backend/src/services/rsync.js:265-269 | a path recorded as changed whose old content rsync did not move loses the version its live-based delta stands for, under every delta tool |
| BackupRun.UnrebasedRunKeepsExactly | app/backend/src/services/rsync.js:260-273 | a run that fails or is cancelled, and so never rebases, keeps every old version under every sound delta tool if and only if the live copies under its live-based deltas are untouched |
| Deltaify.DeltaifyKeepsAll | app/backend/src/services/deltaVersion.js:337-376 | in every state from the first delta written to the last full copy unlinked, crash points included, every version of every file reads the same |
| Deltaify.PromotionKeepsAll | app/backend/src/services/deltaVersion.js:639-651 | at each crash point of a promotion (copy torn, copy complete, manifest swapped, delta unlinked) every version reads the same, chains through the promoted entry too |
| Deltaify.RemovalKeepsOthers | app/backend/src/services/versionBrowser.js:483-488 | deleting a snapshot no delta is based on, also when cut short, leaves every other version reading the same |
| BackupHistory.BackupIsFaithful | app/backend/src/services/rsync.js:260-273 | after a covered run the new snapshot reads as the contents before the run and everything on record still reads back |
| BackupHistory.EventIsFaithful | app/backend/src/services/deltaVersion.js:260-423 | a run, promotion or removal, finished or cut short, keeps every recorded version equal to what was backed up |
| BackupHistory.HistoryIsFaithful | app/backend/src/services/deltaVersion.js:260-653 | over any history of covered runs, promotions and removals with any crashes, every version on record reads back to exactly the bytes backed up |
| BackupHistory.LeftBehind | app/backend/src/services/deltaVersion.js:421 | which deltas a run that publishes leaves based on the live tree, exactly, and therefore exactly when the next run is covered |
| BackupHistory.LeftBehindUnpublished | app/backend/src/services/deltaVersion.js:276-277 | a run that moved nothing publishes no manifest: which deltas it leaves based on the live tree, and exactly when the next run is covered, whose rebase stops where this one did |
| BackupHistory.DeletionBreaks | app/backend/src/services/rsync.js:265-269 | a path rsync deleted is not handed to the rebase, so its versions still based on the live tree become unreadable |
| BackupHistory.ThreeRunsLoseAVersion | app/backend/src/services/deltaVersion.js:421 | three ordinary runs (a, then b, then a again), from the store before them to the rsync and rebase of the third, with a delta that saves nine tenths or more, after which the first version of a reads as other bytes |
| VersionService.PatchAllSnoc | app/backend/src/services/deltaVersion.js:518-533 | patching from the base outward is the same as the recursive meaning one step down the chain |
| VersionService.SelectKept | app/backend/src/services/versionBrowser.js:416-470 | the walk over the listing keeps exactly the snapshots in the hourly window and the newest of each period |
| VersionService.Service.ReconstructFile | app/backend/src/services/deltaVersion.js:427-536 | the two-phase walk returns exactly what the recursive meaning says or throws exactly its fault; a patch failure happens just when some patch of the chain fails; success leaves one temp file registered, everything else none |
| VersionService.Service.CollectChain | app/backend/src/services/deltaVersion.js:454-492 | the loop ends, and lifting its chain over what the last base reads as gives the version, or its fault is the one the version has |
| VersionService.Service.ApplyChain | app/backend/src/services/deltaVersion.js:512-535 | the patches are applied base outward; each intermediate temp file is released, and on failure all are |
| VersionService.Service.PatchOnce | app/backend/src/services/deltaVersion.js:520-532 | one patch registers its output and releases the previous temp file; a failed one releases both |
| VersionService.Service.InstallFull | app/backend/src/services/deltaVersion.js:639-651 | the states of the disk while a full copy goes in, the manifest is swapped and the delta unlinked |
| VersionService.Service.PromoteDeltaToFull | app/backend/src/services/deltaVersion.js:621-653 | every state on the way reads the same for every version; it ends as the full copy with the original size recorded, or unchanged; no temp file is left |
| VersionService.Service.RebaseDeltas | app/backend/src/services/deltaVersion.js:402-422 | the loop rewrites just the newest manifested snapshot other than the new one, in one write, and only if an entry changes |
| VersionService.Service.RebaseEntries | app/backend/src/services/deltaVersion.js:411-419 | exactly the live-based deltas of changed paths are retargeted; dirty says whether any was |
| VersionService.Service.DeltaifySnapshot | app/backend/src/services/deltaVersion.js:294-377 | every state on the way reads the same for every version; at the end the manifest names exactly the files whose delta saves enough as deltas, and full copies remain exactly where it says or where unlinking failed |
| VersionService.Service.WriteDeltas | app/backend/src/services/deltaVersion.js:294-364 | every file gets an entry that is backed by what is on disk |
| VersionService.Service.ConvertFile | app/backend/src/services/deltaVersion.js:299-363 | one file becomes a delta just when its delta saves at least the threshold; otherwise its delta file is taken back |
| VersionService.Service.UnlinkConverted | app/backend/src/services/deltaVersion.js:372-376 | converted full copies go one at a time, those that cannot be unlinked stay, and the published state holds throughout |
| VersionService.Service.PromoteDependents | app/backend/src/services/versionBrowser.js:511-526 | unless it reports a failure no delta is based on the snapshot any more, and no version read differently on the way |
| VersionService.Service.PruneVersions | app/backend/src/services/versionBrowser.js:472-488 | kept versions read the same in every state on the way; without a failure exactly the kept snapshots are left, with one nothing more is deleted |
| SnapshotSummary.Walk | app/backend/src/services/snapshotSummary.js:59-97 | the stack walk finds the recursive totals over the whole tree, or gives up exactly when there are more entries than the budget |
| SnapshotSummary.ScanDirectory | app/backend/src/services/snapshotSummary.js:67-96 | one popped directory adds its files and owes its subdirectories, no entry twice |
| SnapshotSummary.SumByPath | app/backend/src/services/snapshotSummary.js:82-95 | the total over the files is the sum over manifest paths of the shares of their files |
| SnapshotSummary.PathShare | app/backend/src/services/snapshotSummary.js:82-91 | of the two files a manifest path may have on disk just the one the manifest means is counted |
| SnapshotSummary.CountMeaning | app/backend/src/services/snapshotSummary.js:93 | the file count is the number of manifest paths |
| SnapshotSummary.OriginalMeaning | app/backend/src/services/snapshotSummary.js:95 | the original size is the sum of the recorded original sizes |
| SnapshotSummary.StoredMeaning | app/backend/src/services/snapshotSummary.js:94 | the disk size is the sum of the full copies and deltas that the manifest means |
| SnapshotSummary.SummaryMeaning | app/backend/src/services/snapshotSummary.js:47-108 | with any subset of converted copies still on disk: every path once, recorded sizes, and disk size at most original size |
| SnapshotSummary.PublishedIsAccounted | app/backend/src/services/deltaVersion.js:366-377 | every state deltaifying leaves once the manifest is out is one the summary accounts for |
| SnapshotSummary.RefreshSnapshotSummary | app/backend/src/services/snapshotSummary.js:47-108 | for any state deltaifying leaves once the manifest is out, the numbers written are the count, recorded sizes and stored sizes of the manifest, or nothing exactly above the budget |
| ConfigLock.StepKeepsInv | app/backend/src/services/deltaVersion.js:44-59 | every step keeps the invariant of the lock: each lock entry is the unresolved promise of one task in its body |
| ConfigLock.MutualExclusion | app/backend/src/services/deltaVersion.js:44-59 | at no point of any run are two bodies of one config running, and a task waits on an unresolved promise only while a running body holds the lock |
| ConfigLock.SignalledNeverEnters | app/backend/src/services/deltaVersion.js:27-49 | a task whose signal fired before it got in never gets in |
| ConfigLock.StepLowersRank | app/backend/src/services/deltaVersion.js:46-58 | every step lowers a rank, although a released lock wakes any number of waiters |
| ConfigLock.RunsAreBounded | app/backend/src/services/deltaVersion.js:46-58 | with n tasks no run has more than n(n+3) steps |
| ConfigLock.NoDeadlock | app/backend/src/services/deltaVersion.js:46-58 | as long as a task has neither run nor aborted, it or the body it waits for can take a step |
| ParallelMap.StepKeepsInv | app/backend/src/services/deltaVersion.js:244-256 | every turn of a worker keeps the shared index, the calls and the result slots in step |
| ParallelMap.EachItemOnce | app/backend/src/services/deltaVersion.js:244-256 | when the pool returns normally each item was processed exactly once and each result is in its own slot, if and only if the concurrency was at least one or there was nothing to do |
| ParallelMap.AtMostConcurrencyInFlight | app/backend/src/services/deltaVersion.js:254 | at most `concurrency` calls are ever in flight |
| RelayWire.SlugIsNormal | app/backend/src/services/externalJobs.js:36-38 | a normalised slug has at most 64 plain characters and normalising it again changes nothing |
| RelayWire.PayloadIsInjective | app/backend/src/services/externalJobs.js:296-305 | two signing payloads are equal just when slug (normalised), timestamp, exit code, duration and message are |
| RelayWire.ParseLine | app/backend/src/services/ntfyRelay.js:82-99 | what a sender prints parses back to every field, of the message all but white space at its end |
| RelayWire.FaithfulNumbersExist | app/backend/src/services/externalJobs.js:296-305 | some way of writing and reading the finite doubles is faithful, so that assumption excludes no input |
| RelayDatabase.Service.RecordRelayedHeartbeat | app/backend/src/services/externalJobs.js:328-357 | the checks in order and the new rows, as the recording function says |
| RelayDatabase.Service.PollRelayOnce | app/backend/src/services/ntfyRelay.js:176-204 | each parsed message is counted once as recorded, duplicate or rejected, and the rows grow by what was recorded |
| RelayDatabase.RefIsInjective | app/backend/src/services/externalJobs.js:340-352 | among the signings of a run equal source references come from one key and one signed payload |
| RelayDatabase.AcceptedRefIsStored | app/backend/src/services/externalJobs.js:211 | the reference of an accepted heartbeat is stored whole despite the cut to 128 characters |
| RelayDatabase.RecordedIsNew | app/backend/src/services/externalJobs.js:210-214 | what is recorded was never recorded before: its row would still be there, or its key be retired, or it be too old |
| RelayDatabase.RecordKeepsInv | app/backend/src/services/externalJobs.js:328-357 | recording keeps the invariant that every recorded heartbeat is spent |
| RelayDatabase.LoggedIsNewlySeen | app/backend/src/services/externalJobs.js:210-214 | a poll records just the references that become stored during it |
| RelayDatabase.PollRecords | app/backend/src/services/externalJobs.js:328-357 | after a poll an accepted heartbeat has been recorded, if and only if it had been before or no row held its reference |
| RelayDatabase.PruneKeepsInv | app/backend/src/services/databaseRetention.js:153-163 | when the row of a recorded heartbeat is old enough to be pruned the heartbeat is too old to be accepted by any poll still to come |
| RelayDatabase.DeleteKeepsInv | app/backend/src/services/externalJobs.js:187-189 | deleting a job deletes only rows whose keys go with it |
| RelayDatabase.RegenerateKeepsInv | app/backend/src/services/externalJobs.js:191-197 | a new token retires the old key for good |
| RelayDatabase.StepKeepsInv | app/backend/src/services/externalJobs.js:145-357 | every poll, direct heartbeat, prune, creation, token change and deletion keeps the invariant and never shortens the log |
| RelayDatabase.AtMostOnce | app/backend/src/services/externalJobs.js:340-352 | over every run no two recordings carry the same signed heartbeat |
| RelayDatabase.ExactlyOnce | app/backend/src/services/externalJobs.js:328-357 | a heartbeat that some poll accepts is recorded exactly once by the end of any run, unless a heartbeat over HTTP had claimed its reference |
| RelayDatabase.ClaimedIsNotRecorded | app/backend/src/routes/externalJobs.js:31 | a heartbeat over HTTP whose body names the reference of a relayed one keeps polls from recording that one |
| RelayDatabase.AnyFreshIsRecorded | app/backend/src/services/externalJobs.js:328-357 | every fresh heartbeat is recorded in some run under some hash without collisions, so the assumptions on runs and hashes exclude none of them |
| Retention.NewestExists | app/backend/src/services/databaseRetention.js:153-163 | every job with runs has a newest one |
| Retention.NewestStays | app/backend/src/services/databaseRetention.js:153-163 | the newest run of a job is never picked, so which run is newest never changes |
| Retention.FilesKeepTheirRun | app/backend/src/services/databaseRetention.js:73-86 | no statement deletes a run that still has file rows |
| Retention.StatementKeepsOutcome | app/backend/src/services/databaseRetention.js:62-169 | whatever rows a LIMIT picks, a statement changes nothing about where one-shot pruning ends and settles exactly the rows it picks |
| Retention.QuietIsSettled | app/backend/src/services/databaseRetention.js:196-198 | when nothing is eligible the database is its own one-shot result |
| Retention.OneShotIsClean | app/backend/src/services/databaseRetention.js:62-169 | one-shot pruning leaves no row eligible |
| Retention.OneShotSpares | app/backend/src/services/databaseRetention.js:62-169 | what no pass takes: running runs, newest external runs, live sessions and tokens, accepted pairings, runs with file rows left; a pairing that expires is marked and not deleted |
| Retention.SumsAddUp | app/backend/src/services/databaseRetention.js:195-196 | changes add up over batches and statements |
| Retention.Limit | app/backend/src/services/databaseRetention.js:62-169 | a LIMIT takes any rows, as many as it may |
| Retention.Maintenance.Execute | app/backend/src/services/databaseRetention.js:62-169 | one statement reports exactly how many rows it settled |
| Retention.Maintenance.PruneTelemetry | app/backend/src/services/databaseRetention.js:53-175 | one batch keeps the outcome, its counts are the rows settled, and counts of zero mean the outcome is reached |
| Retention.Maintenance.RunBatches | app/backend/src/services/databaseRetention.js:177-218 | whenever it reports complete the tables are the one-shot result and the totals are the rows changed, kind by kind; cut short it has changed part of them; not stopped and with more batches than rows to settle it completes; options out of range change nothing |
| RestoreInstall.SortedDescending | app/backend/src/services/databaseFileSafety.js:295 | the groups of safety copies newest first, each once |
| RestoreInstall.CountNewer | app/backend/src/services/databaseFileSafety.js:295 | cutting the sorted list drops exactly the groups with at least three newer ones |
| RestoreInstall.Installer.SaveLive | app/backend/src/services/databaseFileSafety.js:249-257 | the live files move aside one by one; at every step each is in one place or the other |
| RestoreInstall.Installer.InstallPending | app/backend/src/services/databaseFileSafety.js:259-264 | the candidate goes into place and is left without sidecars, or the step that failed is told |
| RestoreInstall.Installer.RotatePreRestoreCopies | app/backend/src/services/databaseFileSafety.js:282-304 | exactly the groups with three newer ones go; what was just saved stays |
| RestoreInstall.Installer.Rollback | app/backend/src/services/databaseFileSafety.js:268-278 | everything moved comes back and an installed candidate goes |
| RestoreInstall.Installer.ApplyPending | app/backend/src/services/databaseFileSafety.js:238-280 | all or nothing: restored with the candidate live and the old files saved, or rolled back to exactly the old files, for a fault at any step; the candidate is stored in every state before rolling back, and through the rollback just when it had not been installed; without faults it restores just when the candidate is valid |
| RestoreInstall.MoveOne | app/backend/src/services/databaseFileSafety.js:250-256 | moving one file aside keeps every old file on disk and the candidate staged |
| RestoreInstall.MoveBack | app/backend/src/services/databaseFileSafety.js:274-276 | moving one back keeps every old file on disk |
| RestoreInstall.VacatedIsMoved | app/backend/src/services/databaseFileSafety.js:269-273 | once the candidate is gone what is left is the old state with its files moved aside |
| RestoreInstall.PlacedIsInstalled | app/backend/src/services/databaseFileSafety.js:259-267 | what the state is when the call returns normally |
| RestoreInstall.RerunAfterCrash | app/backend/src/services/databaseFileSafety.js:238-280 | running again after a crash at any step: every old live file is still stored, and unless the crash came while rolling back the candidate ends up live |
| Handshake.StringReads | app/backend/src/services/handshake.js:168-170 | an escaped JSON string reads back to itself whatever follows |
| Handshake.DecimalReads | app/backend/src/services/handshake.js:168-170 | a decimal number reads back up to the first character that is no digit |
| Handshake.ArrayReads | app/backend/src/services/handshake.js:168-170 | the encoding of a list of strings and numbers reads back to the list |
| Handshake.RequestTranscriptsEqual | app/backend/src/services/handshake.js:172-187 | two request transcripts are equal just when every signed field is, an absent offer or key counting as a blank one |
| Handshake.ValidRequestsUnambiguous | app/backend/src/services/handshake.js:68-81 | among valid envelopes equal request transcripts mean equal bodies but for the signature, offer included |
| Handshake.CallbackTranscriptsEqual | app/backend/src/services/handshake.js:189-201 | two callback transcripts are equal just when the bodies are, but for role and signature |
| Handshake.ValidCallbacksUnambiguous | app/backend/src/services/handshake.js:83-96 | among valid envelopes equal callback transcripts mean equal bodies but for the signature |
| Handshake.RequestIsNoCallback | app/backend/src/services/handshake.js:172-201 | no request transcript equals a callback transcript |
| Handshake.BlankOfferIsAmbiguous | app/backend/src/services/handshake.js:183-185 | without the envelope an offer of nothing signs like no offer; the envelope rejects it |
| Pairing.KeysAgree | app/backend/src/services/handshake.js:243-258 | equal encryption keys come from one secret and one token, so all keys are equal |
| Pairing.PairingAccessIsSound | app/backend/src/services/peerAccessPolicy.js:3-18 | the access policy returns a non-empty path, a positive limit, and accepts its own result unchanged |
| Pairing.ReceivedIsGenuine | app/backend/src/services/handshake.js:340-357 | a request with a valid signature of the initiator is one it signed, with that token and that offer |
| Pairing.StepKeepsInv | app/backend/src/services/pairing.js:50-457 | every step on either side, with any message delivered, keeps the invariant |
| Pairing.StepNeverReopens | app/backend/src/services/pairing.js:154-430 | no step returns a row to pending |
| Pairing.RunNeverReopens | app/backend/src/services/pairing.js:154-430 | once a row is not pending it never is again, for the rest of any run |
| Pairing.AtMostOneCallback | app/backend/src/services/pairing.js:154-212 | over every run at most one callback per token is accepted |
| Pairing.AcceptedCallbackAgrees | app/backend/src/services/handshake.js:409-448 | when the initiator has accepted a callback the receiver made: same keys, the payload that was sealed, and the very offer the initiator stored |
| Pairing.KeyAgreement | app/backend/src/services/pairing.js:154-212 | at the end of every run an accepted callback that the receiver made gives both sides the same forward, reverse and payload keys, and the payload that was sealed |
| Pairing.EachRequestAcceptedOnce | app/backend/src/services/pairingIngress.js:4-39 | over every run each stored request is accepted at most once, and no two stored at the same time have the same token |
| Pairing.CompletedForgetsSecret | app/backend/src/services/pairing.js:197-210 | the ephemeral secret of a completed pairing is gone |
| Pairing.GrantsAreOwnOffers | app/backend/src/services/pairing.js:183-195 | reverse access is what the policy makes of the stored offer at that moment; it is granted just when the sealed payload takes up an offer the initiator itself signed, and comes out as the path and limit that were signed |
| Pairing.DestinationsAreGranted | app/backend/src/services/pairing.js:397-407 | every destination the receiver stores is access the initiator granted, same key, path and limit |
| Pairing.HonestCallbackPasses | app/backend/src/services/handshake.js:409-448 | every check passes for a callback the receiver made and signed for the request as sent |
| Pairing.HonestCallbackCompletes | app/backend/src/services/pairing.js:154-212 | such a callback completes a pending, unexpired pairing and grants the offer it takes up |
| Pairing.AcceptedStays | app/backend/src/services/pairing.js:123-138 | an accepted row stays accepted through a step if and only if the step is not the late failure of its first request |
| Pairing.AcceptedUnlessLateFailure | app/backend/src/services/pairing.js:123-138 | over any stretch of any run an accepted pairing is still accepted at its end just when its first request did not fail in between |
| Pairing.AnsweredStaysAccepted | app/backend/src/services/pairing.js:123-138 | a pairing accepted after its first request was answered stays accepted for the rest of any run |
| Pairing.LateFailureOverwrites | app/backend/src/services/pairing.js:123-138 | while the first request is unanswered its failure can end the accepted status, though the pairing stays completed |
| RsyncOutput.LineReaderIsLawful | app/backend/src/services/rsyncOutput.js:106-165 | whatever the patterns find, reading a line never lowers percent or bytes, ignores empty lines and leaves the failure count alone |
| RsyncOutput.PiecesAreScan | app/backend/src/services/rsyncOutput.js:167-172 | splitting at runs of line breaks finds the lines a character-by-character reading finds |
| RsyncOutput.EveryCuttingGivesTheLines | app/backend/src/services/rsyncOutput.js:167-191 | however a text is cut into chunks the non-empty lines handed on are its lines, when none is over the cap |
| RsyncOutput.CapMattersExactly | app/backend/src/services/rsyncOutput.js:3-7 | a text can be cut so that lines go wrong if and only if one of its lines is over the cap |
| RsyncOutput.ProgressNeverFallsBack | app/backend/src/services/rsyncOutput.js:106-163 | percent and bytes transferred never decrease as more lines are read |
| RsyncOutput.CountsMatchEntries | app/backend/src/services/rsyncOutput.js:110-140 | as long as no line overrides them the running counts are those of the entries reported: all of them, the copied ones and their bytes |
| RsyncOutput.CapturedIsTail | app/backend/src/services/rsyncOutput.js:3-7 | what is captured chunk by chunk is the tail of the whole text |
| RsyncOutput.Stream.Write | app/backend/src/services/rsyncOutput.js:167-172 | a chunk finishes lines and leaves a remainder as the streaming function says |
| RsyncOutput.Processor.WriteStdout | app/backend/src/services/rsyncOutput.js:176-180 | progress and entries are those of the lines handed on so far, however the other stream interleaves |
| RsyncOutput.Processor.WriteStderr | app/backend/src/services/rsyncOutput.js:181-185 | failures are those of the lines handed on so far, however the other stream interleaves |
| RsyncOutput.Processor.Flush | app/backend/src/services/rsyncOutput.js:186-191 | in the end progress, entries and failures are as if each stream had been read at once |
| Cidr.TopsAgree | app/backend/src/middleware/auth.js:69-79 | top bits agree as numbers just when they agree one by one |
| Cidr.MaskComparesTop | app/backend/src/middleware/auth.js:73-74 | masking two bytes compares exactly their top bits |
| Cidr.CompareBytes | app/backend/src/middleware/auth.js:69-80 | the byte-and-mask loop decides agreement of the top bits, for every whole number of bits |
| Cidr.InCidr | app/backend/src/middleware/auth.js:59-81 | true just when both addresses and the length parse and the top bits of the 128-bit values agree |
| Cidr.V4RangeMeans | app/backend/src/middleware/auth.js:67-68 | what an IPv4 range means to an IPv4 client for every whole number of bits: up to /32 that many top bits of the 32-bit addresses count, below 0 and from /33 to /96 none, from /97 to /128 the number less 96, above that all |
| Cidr.NonPositiveMatchesAll | app/backend/src/middleware/auth.js:76-78 | zero or fewer bits match every address |
| PathPolicy.NormalizeIsIdempotent | app/backend/src/middleware/validation.js:11-20 | normalising twice changes nothing and keeps the segments |
| PathPolicy.WithinMeansPrefix | app/backend/src/middleware/validation.js:26-38 | containment holds just when the segments of the prefix begin the segments of the path |
| PathPolicy.OverlapMeansComparable | app/backend/src/middleware/validation.js:46-51 | two paths overlap just when one segment list begins the other |
| PathPolicy.CanonicalizeLocalPath | app/backend/src/middleware/validation.js:53-71 | the loop finds the longest existing prefix, resolves it and puts the missing segments back |
| PathPolicy.OverlapMeansShared | app/backend/src/middleware/validation.js:73-77 | two destinations overlap just when some path lies under both |
| PathPolicy.ValidatedPathsAreApart | app/backend/src/middleware/validation.js:95-126 | the checks pass just when both paths resolve, the destination is no protected root and no path lies under both source and destination |
| PathPolicy.AccessIsStable | app/backend/src/services/peerAccessPolicy.js:3-18 | access once validated validates to itself |
| PathPolicy.ConfigStore.ValidateConfigPaths | app/backend/src/routes/ssdBackup.js:44-62 | passes if and only if the paths are valid and the destination overlaps no other; an overlap it reports is real |
| PathPolicy.ConfigStore.Create | app/backend/src/routes/ssdBackup.js:122-170 | accepts the job if and only if its paths are valid and overlap no other, adds just it, and keeps all destinations apart |
| PathPolicy.ConfigStore.Update | app/backend/src/routes/ssdBackup.js:173-240 | accepts the change if and only if the revised paths are valid and overlap no other job, stores just it with what is not given unchanged, and keeps all destinations apart |
| PathPolicy.ConfigStore.Delete | app/backend/src/routes/ssdBackup.js:243-250 | keeps all destinations apart |
| PathPolicy.ConfigStore.MayRun | app/backend/src/services/rsync.js:101-110 | a run that may start deletes nothing under another destination; for a stored job only its own paths can stop it |
| PathPolicy.HistoryKeepsApart | app/backend/src/routes/ssdBackup.js:122-250 | every store any sequence of allowed edits leads to has valid jobs whose destinations do not overlap |
| PathPolicy.EachPathHasOneOwner | app/backend/src/middleware/validation.js:40-51 | in every store any sequence of creations, updates and deletions leads to, each path lies under at most one destination, and nothing under a destination is in the source of its job |
| Sessions.Store.Create | app/backend/src/services/authService.js:253-280 | the new row, with both expiries from now |
| Sessions.Store.RevokeSession | app/backend/src/services/authService.js:338-345 | the session is revoked from now on; true when it was not before |
| Sessions.Store.RevokeMany | app/backend/src/services/authService.js:347-368 | every covered session is revoked from now on, and the number that changed |
| Sessions.Store.FindActiveSession | app/backend/src/services/authService.js:282-309 | the row update and the decision, as the use function says |
| Sessions.StepKeepsInv | app/backend/src/services/authService.js:253-368 | the stored refresh lags the last use by less than a minute, and the idle expiry follows it |
| Sessions.AcceptedIsInLimits | app/backend/src/services/authService.js:282-309 | an accepted use is before the absolute expiry, less than the idle limit after the last accepted use, and of a session never revoked |
| Sessions.TimelyIsAccepted | app/backend/src/services/authService.js:300-309 | an open session used at most the idle limit less a minute after its last use, before its absolute expiry, is always accepted |
| Sessions.AcceptanceExactly | app/backend/src/services/authService.js:282-309 | a use is accepted just when its session is open, before the absolute expiry and within the idle limit of the last refresh |
| Sessions.RevokedIsNeverAccepted | app/backend/src/services/authService.js:338-368 | once a revocation has covered a session it is never accepted again |
| Sessions.ThrottleShortensIdle | app/backend/src/services/authService.js:300-309 | the throttle comes out of the idle limit: a use within the idle limit of the last one can be refused |
| RcloneDiagnostics.CodesArePlain | app/backend/src/services/rcloneDiagnostics.js:17-71 | the code of any error can stand in a fingerprint unambiguously |
| RcloneDiagnostics.SummariseRcloneFailures | app/backend/src/services/rcloneDiagnostics.js:82-111 | one group per code that occurs, with its sum and first three paths, largest first, and the total |
| RcloneDiagnostics.SortingSorts | app/backend/src/services/rcloneDiagnostics.js:109 | sorting by count keeps the groups and puts larger ones first |
| RcloneDiagnostics.LabelIsInjective | app/backend/src/services/rcloneDiagnostics.js:123 | a label says its code and its count |
| RcloneDiagnostics.OrderedIsUnique | app/backend/src/services/rcloneDiagnostics.js:124 | sorted lists with the same labels are the same list |
| RcloneDiagnostics.ComparesCounts | app/backend/src/services/rcloneDiagnostics.js:134-155 | a comparison reports no change just when the counts per code are equal |
| RcloneDiagnostics.FingerprintsCompare | app/backend/src/services/rcloneDiagnostics.js:120-155 | fingerprints are equal just when the counts are, and so just when the comparison reports no change |
| RcloneDiagnostics.SameWhenFingerprintsAre | app/backend/src/services/rcloneDiagnostics.js:134-155 | for the summaries of any two runs an unchanged comparison is an equal fingerprint |
| RcloneDiagnostics.OrderDoesNotMatter | app/backend/src/services/rcloneDiagnostics.js:86-106 | totals and counts do not depend on the order of the failures |
| RcloneDiagnostics.AggregatedIsExpanded | app/backend/src/services/rcloneDiagnostics.js:82-126 | rows counted by SQL and the files they stand for, in any order, give the same total and counts, and the same fingerprint just when no code occurs only with counts of zero |

## Left out

- rdiff, rsync, rclone, SQLite and `cp` internals: child processes and libraries, kept as the laws named above.
- Chain-length and keyframe-age rules of deltaifying are one parameter (`keyframe`): which files they pick does not affect what is proved.
- Manifests that do not parse, and write errors other than those named: a manifest is there or not.
- Aborting a delta operation half way by its signal: temp files of an aborted reconstruction are not followed.
- Scan limit and time budget of a snapshot summary are one budget of entries; the summary file's own dates are not modelled.
- `browseSnapshot`, `resolveFilePath` and restoring single files: they read through the chain walk that is modelled.
- Calendar periods of snapshot retention are a function from snapshot to period.
- Health, schedules and events of external jobs, and the status a heartbeat is given.
- Limits on the size of a broker's answer, and reading its JSON envelopes: a poll is the list of messages it parsed.
- RelayWire.SlugIsNormal: lower-casing is that of ASCII letters; other letters become a dash either way, except where Unicode lower-casing yields ASCII.
- Settings behind the retention policy, and option defaults: the numbers in force are parameters.
- The order in which a directory lists safety copies, and their permissions.
- RestoreInstall.Installer.ApplyPending: a timestamp not newer than existing safety copies is not modelled; the source then replaces a copy of the same name.
- Bodies of the wrong JavaScript type are not modelled: the handshake envelopes are checked on typed bodies.
- Peer rows, SSH keys and fingerprints of a pairing: acceptances, grants and destinations are kept as logs; one instance plays one role.
- Pairing, locking and the worker pool are state machines on values: a step is one update of the rows, not an assignment in place.
- The count of active incoming pairings is a yes or no of whether there is room.
- The regular expressions of rsync's progress lines are a function from line to what they find; rounding is exact.
- Output is a sequence of characters: the cap counts characters, not bytes.
- Cidr.InCidr: turning text into the bytes of an address is not modelled; all parsed addresses and lengths are covered.
- Regular-expression validators, Express routing, notifications and the user interface: single checks and plumbing.
- Password login, recovery tokens and proxy accounts beside sessions.
- Titles, explanations and remedies of failure groups, and the line that describes them.
