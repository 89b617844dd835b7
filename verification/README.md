# Verified model of Hardknock's storage, evidence and release cores

Hardknock runs agents in throw-away workspaces, keeps what they did as evidence, and learns
lessons from it. This project models the parts of it whose correctness is hardest to see from
the code, in Dafny 4.11, and proves what they promise. `dafny verify dfyconfig.toml` checks
everything. Line numbers below are those of the repository.

The model follows the code where code and comments differ. Where a promise is false of the code
as written, the code is kept and the exact condition under which it does hold is proved:

* `Sha256::update` drops a partial block that the new bytes top up but do not fill
  (`src/doctor.rs:1298-1299` set `buffered` to the length of the empty leftover slice). It appends
  exactly when the buffer was empty or the new bytes fill it, and a whole run of updates loses
  nothing exactly when each update meets that guard; every run that breaks it shares its digest
  with another message. The file hash meets the guard when every read but the last is a whole
  number of 64-byte blocks.
* The backup copy accepts trees that the verification of the finished bundle rejects. A copied
  bundle verifies exactly when no file's path holds a backslash (only the manifest parser rejects
  those; a source with one file named `a\b` is shown) and every directory's path is short enough to
  print (the copy prints file paths only). The second half is a property of the abstracted file
  system only: on Linux a relative path over 4096 bytes makes the absolute path that the copy
  passes to the system (`src/storage.rs:1052-1070`) too long, so the copy itself fails. Creating a
  backup verifies what it staged, so such a source is refused after it has been copied.

Two checks are worth less alone than with what surrounds them, and both sides are proved:

* The classification of a lease directory. A verdict of abandonment is right and stays right. A
  verdict taken before the owner has written its marker stays `Transient` when the directory is in
  use later, and exactly such a verdict lets a pruner list the directory's files as candidates; one
  taken when the marker is visible never does. The re-check before unlinking stops the pruner.
* The decision that an application stores. Status and stored decision agree throughout a run exactly
  when every application to a validated lesson comes with a summary that has a support, no
  contradiction and a qualifying application. The summaries the store reads off its own tables always
  meet that, so in the store the two always agree.

Where several results share a definition, another result says what that definition comes to without
using it, in the program's own names and numbers, for every input: what is reclaimable and in what
order it goes (`ReclaimableExactlyWhen`, `CandidatesAreOrdered`), what an inventory adds up
(`UsageIsTheTrees`), when a bundle verifies (`VerifiesExactlyWhen`), what a check is recorded as
(`CheckMeans`), when an experiment is planned, conclusive and accepted (`ReplayPlannedExactlyWhen`,
`DecisiveExactlyWhen`, `AcceptsExperimentExactlyWhen`), what the store's tables decide
(`DecisionExactlyWhen`), what the release documents list (`ComponentsList`), and the digest of the
standard's example (`AbcDigest`).

## Modules

| file | part of the system |
|---|---|
| `Wrappers.dfy` | optional values |
| `Orders.dfy` | lexicographic orders, sorting, uniqueness of a sorted permutation |
| `Retention.dfy`, `LeaseProtocol.dfy` | classification of artifact files; the protocol of lease owners and pruners, system call by system call, with crashes |
| `StorageUsage.dfy`, `ReservationProtocol.dfy` | 64-bit usage arithmetic and limits; the capacity lock, the locked reservation records, the scan and the measuring walk of concurrent processes |
| `Inventory.dfy`, `PrunePlan.dfy` | the inventory walk with its explicit stack; planning and applying a prune |
| `Paths.dfy`, `ManifestPath.dfy`, `BackupTree.dfy`, `BackupPaths.dfy`, `Backup.dfy`, `BackupBundle.dfy`, `BackupStaging.dfy`, `BackupRoundTrip.dfy`, `BackupVerified.dfy` | splitting, joining and the path iterator; manifest paths; the two bounded walks; creating, verifying and restoring a bundle; writing entries into a staged tree; what a backup promises |
| `Sha256.dfy`, `Sha256Example.dfy` | SHA-256 as FIPS 180-4 defines it; the streaming hasher as a value; the hasher as the program keeps it, with its arrays |
| `Perturbation.dfy` | reversible file mutations, applying a list of them, and the stack that undoes them |
| `Evaluation.dfy`, `LessonData.dfy`, `Experiment.dfy`, `Lesson.dfy`, `LessonRuns.dfy`, `LessonStore.dfy`, `LearningLoop.dfy` | the evaluator; counterfactual plans and their conclusions; lessons and all their runs; a lesson as the store keeps it, with the evidence it is judged by; the budget and stopping point of a learning run |
| `ReleaseMetadata.dfy`, `ReleaseDocuments.dfy`, `ReleaseContents.dfy`, `ReleaseOrder.dfy` | the release script's dependency closure, its two documents, and their independence of input order |

Files are contents at paths, locks are owners, time is a natural number, and a crash is a step. A
hash or naming function is a parameter, and where a result needs it not to collide, it says on
which inputs. Confidence is counted in hundredths.

## Model

| member | source | states |
|---|---|---|
| `LeaseProtocol.StepKeepsInv` | src/storage_policy.rs:51-90 | every step of any owner or pruner keeps the invariant that ties marker, lock, owner and each pruner's knowledge together |
| `LeaseProtocol.RunKeepsInv` | src/storage_policy.rs:51-90 | the invariant holds in every state of every run, with any number of owners and pruners and crashes anywhere |
| `LeaseProtocol.PrunersSpareDirectoriesInUse` | src/storage_policy.rs:1274-1468 | no pruner step changes a file, the owner or the lock of a directory whose owner is alive and has not begun to remove it, even if the directory was classified before the marker existed |
| `LeaseProtocol.GracePeriodIsKept` | src/storage_policy.rs:1521-1590 | when a pruner step does change a directory's files, its owner is not active, and if the owner crashed before it began to remove the directory the marker is at least five minutes old |
| `LeaseProtocol.CrashedOwnersKeepTheirGrace` | src/storage_policy.rs:1521-1590 | over every run: after an owner crashed while its directory was in use, no pruner changes the files until 300 seconds after the step that wrote the marker |
| `LeaseProtocol.UnlinkedFilesPassedTheGuard` | src/storage_policy.rs:1521-1590 | whatever is unlinked is the unmodified file that was listed, and earlier that pruner's guard saw no marker, or the marker it had locked under, with marker and file both 300 seconds old |
| `LeaseProtocol.RestoreUndoesIsolate` | src/storage_policy.rs:1593-1645 | renaming a candidate hides it, and renaming it back leaves every directory's files as they were |
| `LeaseProtocol.NoLockIsForgotten` | src/storage_policy.rs:1043-1097 | in every state of every run, a lock a pruner holds is on the one directory it is inspecting or guarding |
| `LeaseProtocol.InUseMeansUntouched` | src/storage_policy.rs:1396-1399 | a directory in use looks exactly as its owner's steps alone have made it |
| `LeaseProtocol.AbandonedFilesAreReclaimable` | src/storage_policy.rs:1001-1097 | from any such state a pruner acting alone can unlink any old file of a directory whose owner is gone and whose grace period is over |
| `LeaseProtocol.OwnersCleanUp` | src/storage_policy.rs:43-47 | an owner that has begun to remove its directory can finish by itself: then the directory is empty and its lock free |
| `LeaseProtocol.AbandonedIsForGood` | src/storage_policy.rs:1043-1085 | in every run, whoever holds a verdict of abandonment on a directory holds it against an owner that has finished or crashed, then and for ever after |
| `LeaseProtocol.ListableExactlyWhen` | src/storage_policy.rs:1115-1142 | when a file can be listed as a candidate: under a verdict of no marker, or of a marker 300 seconds old at the inventory if the file is that old too |
| `LeaseProtocol.ListableInUseExactlyWhen` | src/storage_policy.rs:1115-1142 | an idle pruner can list a file of a directory in use exactly when it holds a `Transient` verdict on it |
| `LeaseProtocol.TransientVerdictPredatesMarker` | src/storage_policy.rs:1043-1058 | such a verdict on a directory in use was taken before its owner wrote the marker: a verdict taken when the marker was visible never lets a pruner list its files |
| `LeaseProtocol.ClassificationCanBeStale` | src/storage_policy.rs:1115-1142 | a run in which a pruner with such an early verdict has a file of an active owner open as a candidate: there the check before unlinking is what stops it |
| `StorageUsage.CheckedAdd` | src/storage_policy.rs:356-367 | adding succeeds exactly when both sums fit 64 bits |
| `StorageUsage.CheckedSub` | src/storage_policy.rs:369-381 | subtracting succeeds exactly when neither part would go below zero, and is undone by adding |
| `StorageUsage.Evaluate` | src/storage_policy.rs:395-411 | within limits exactly when bytes and files are within the maxima and free space is at least the minimum |
| `StorageUsage.EvaluateMeans` | src/storage_policy.rs:395-411 | each limit is reported as exceeded exactly when it is, and by exactly how much |
| `StorageUsage.ValidateMeans` | src/storage_policy.rs:132-163 | a policy is valid exactly when it allows something, deletes at least one file and at most what it scans, in 64-bit numbers |
| `StorageUsage.EnsureCapacity` | src/storage_policy.rs:311-346 | granted exactly when measured, reserved and requested usage together fit the maxima and what stays free is enough; overflow is never granted |
| `StorageUsage.EnsureCapacityMeans` | src/storage_policy.rs:311-346 | the verdict for all inputs, in numbers: overflow, a grant that projects the sum of the three, or too little capacity |
| `StorageUsage.CheckedAddMeans` | src/storage_policy.rs:356-367 | sums are those of unsigned 64-bit counters or are refused |
| `ReservationProtocol.StepKeepsLockInv` | src/storage.rs:1689-1767 | every step keeps: one process at most is in the capacity-lock section, and each live producer's record is present, complete and locked by it |
| `ReservationProtocol.StepKeepsInv` | src/store.rs:397-426 | every step also keeps what the process in the section knows (scan, walk, decision) and the quota |
| `ReservationProtocol.RunKeepsInv` | src/store.rs:397-426 | these hold in every state of every run, whatever the schedule and the crashes |
| `ReservationProtocol.WalkCoversCommitted` | src/storage_policy.rs:311-346 | a finished walk, although producers write while it runs, measures enough that measured plus reserved covers usage plus all outstanding reservations |
| `ReservationProtocol.DecideHolds` | src/storage_policy.rs:311-346 | after a grant, committed usage and the request together are within the quota |
| `ReservationProtocol.NoScheduleOvercommits` | src/store.rs:123-131 | in every reachable state with a live reservation, usage plus everything still owed to live producers is within the byte and file quota |
| `ReservationProtocol.LiveRecordsStayLocked` | src/storage.rs:1703-1738 | in every reachable state each live producer's record is there, says what it reserved, and is locked by it |
| `ReservationProtocol.ScanNeverSeesHalfARecord` | src/storage.rs:1629-1643 | a scan finds a record locked only if it is the complete record of a live producer, and unlocked only if it is no live producer's |
| `ReservationProtocol.ScanMissesNoReservation` | src/storage.rs:1584-1687 | when the scan is over, its sum is at least the sum of all live reservations |
| `ReservationProtocol.NothingIsCountedTwice` | src/storage.rs:1584-1687 | in every run, a process that counts one record, or measures one file, twice has begun a new scan, or walk, in between |
| `ReservationProtocol.StaleRecordsAreGone` | src/storage.rs:1629-1643 | in every run, each record that a scan came past unlocked is unlinked then and stays so |
| `ReservationProtocol.ReleasedRecordsAreGone` | src/storage.rs:1744-1767 | in every run, a release leaves its own record unlinked, for good |
| `ReservationProtocol.DeadReservationsFreeTheirCapacity` | src/storage.rs:1744-1767 | with no reservation alive, a process acting alone and seeing any amount of free space that covers its request and the minimum is granted whatever fits beside the usage on disk, and then its own record is the only one left |
| `Inventory.CountEntry` | src/storage_policy.rs:936-953 | one entry is counted into the running usages, or the byte count overflows and it is refused |
| `Inventory.ReadDirectory` | src/storage_policy.rs:841-859 | reading a directory counts all its entries against the scan limit and fails exactly when they exceed it |
| `Inventory.ListDirectory` | src/storage_policy.rs:862-954 | one directory's files are listed and its directories returned for the stack, nothing lost or doubled |
| `Inventory.InventoryArtifactsOnce` | src/storage_policy.rs:795-976 | the walk ends on every finite tree; it fails exactly when the tree has more entries than allowed or its bytes overflow, and otherwise describes the tree as the recursive definition does |
| `Inventory.UsageSplits` | src/storage_policy.rs:941-953 | usage is what is protected plus what is reclaimable, in bytes and in files |
| `Inventory.EntriesHaveDistinctPaths` | src/storage_policy.rs:822-976 | no entry is visited twice |
| `Inventory.ClassificationIsLocal` | src/storage_policy.rs:978-999 | the classification carried down the walk is the one the entry's own path and lease directory call for |
| `Inventory.InventoryIsExact` | src/storage_policy.rs:795-976 | for an inventory the walk returns: the split of usage, distinct paths, and every classification right |
| `Inventory.ReclaimableExactlyWhen` | src/storage_policy.rs:1001-1142 | an entry of a well-formed tree is reclaimable exactly when it lies in `transient/` itself, or below one of its directories that has no marker, or one with a free lock where marker and file are both 300 seconds old |
| `Inventory.ListingIsTheTrees` | src/storage_policy.rs:862-954 | an entry is listed at a path exactly when the tree has a leaf there, with that leaf's kind, time, links and, for a regular file, bytes |
| `Inventory.UsageIsTheTrees` | src/storage_policy.rs:936-953 | usage, its reclaimable part, and the number of unsafe entries are sums taken directly over the tree's leaves: bytes and one file for each regular one |
| `Inventory.ScannedIsTheTrees` | src/storage_policy.rs:841-859 | the entries scanned are as many as the tree has paths, directories included, each once |
| `Inventory.EntriesInPathOrder` | src/storage_policy.rs:960 | entries are reported in the order of their paths |
| `PrunePlan.CandidatesAre` | src/storage_policy.rs:1144-1162 | the candidates are exactly the reclaimable regular files with one link |
| `PrunePlan.CandidatesAreOrdered` | src/storage_policy.rs:1155-1159 | their order, by the files' own names and times: lease markers last, among each kind the oldest first, those of one time by path |
| `Orders.PathOrderMeans` | src/storage_policy.rs:1155-1159 | path order: the first names at which two paths differ decide, a directory's path comes first |
| `Orders.StringOrderMeans` | src/storage.rs:802 | name order: the first characters at which two names differ decide, a prefix comes first |
| `PrunePlan.EveryFileGivenUpIsACandidate` | src/storage_policy.rs:1144-1162 | every regular file with one link that the tree gives up is a candidate |
| `PrunePlan.CandidatesForgetListingOrder` | src/storage_policy.rs:1144-1162 | the order in which the walk met the files does not matter |
| `PrunePlan.WalkedInventoryIsSound` | src/storage_policy.rs:795-976 | every inventory the walk returns meets what the planner relies on |
| `PrunePlan.BuildPrunePlan` | src/storage_policy.rs:1168-1247 | planning never fails in its checked arithmetic and returns the plan of the specification |
| `PrunePlan.UnblockedPlanIsShortest` | src/storage_policy.rs:1168-1247 | without a blocker the plan is the shortest prefix of the candidates that brings usage within limits |
| `PrunePlan.BlockersExactly` | src/storage_policy.rs:1168-1247 | when each blocker appears, for all inventories: unsafe entries, too little to reclaim, or more items than one prune may take |
| `PrunePlan.BlockersTell` | src/storage_policy.rs:1190-1215 | the numbers a blocker reports: the count of unsafe entries, the least bytes and files that would have to go and what there is, or the shortest plan's length |
| `PrunePlan.PlanConserves` | src/storage_policy.rs:1168-1247 | projected plus reclaimed is what was there before, protected usage is untouched, no path is planned twice |
| `PrunePlan.PlanProjects` | src/storage_policy.rs:1168-1247 | projected free space is what there was and what is reclaimed, and the projected limits are judged on the projected numbers |
| `PrunePlan.PlanIsOrdered` | src/storage_policy.rs:1168-1247 | planned items come markers last, then oldest, then by path |
| `PrunePlan.PlanTakesOnlyWhatTheTreeGivesUp` | src/storage_policy.rs:1115-1142 | every planned item is a regular file with one link that the tree has at that path, with those bytes and that time, and that the tree gives up: by its place, its lease and the 300 seconds |
| `PrunePlan.DeleteCandidates` | src/storage_policy.rs:214-251 | what is deleted is a prefix of the candidates, reclaimed is its size, and deletion stops exactly at the limits, the item limit, the end, or a candidate that changed |
| `PrunePlan.Apply` | src/storage_policy.rs:179-290 | with a blocker nothing is deleted; otherwise the report says what was deleted, running usage plus reclaimed being what was there before |
| `PrunePlan.ReportTells` | src/storage_policy.rs:252-290 | the report of a prune: the numbers from before, from the plan and from the new inventory, the removed files one by one with their number and size, and no more of them than one prune may take |
| `PrunePlan.FinalBlockerMeans` | src/storage_policy.rs:250-280 | what is reported as in the way after the deletions: nothing exactly when the limits hold then, otherwise the first reason with its numbers |
| `PrunePlan.ApplyRefinesDryRun` | src/storage_policy.rs:179-290 | if every unlink succeeds and frees the file's bytes, apply deletes exactly what the dry run planned |
| `PrunePlan.ApplyingThePlanMeetsTheLimits` | src/storage_policy.rs:179-290 | end to end: after an unblocked plan is applied, a new walk of what is left finds usage lower by exactly what was reclaimed, and the limits met |
| `ManifestPath.ValidateManifestPath` | src/storage.rs:632-671 | a path is admitted exactly when it is the database's name, or a printable-length list of at most 64 plain names without backslash that starts in artifacts |
| `ManifestPath.PathToManifest` | src/storage.rs:1981-2007 | a path is printed exactly when all its components are normal, it is short enough and not empty |
| `ManifestPath.PrintAfterParse` | src/storage.rs:632-671 | printing an admitted path gives back the string |
| `ManifestPath.ParseAfterPrintExactlyWhen` | src/storage.rs:1981-2007 | a printed artifact path is admitted, and splits into the same names, exactly when no name holds a backslash |
| `ManifestPath.ParsingIsInjective` | src/storage.rs:632-671 | two admitted paths with the same components are one string |
| `ManifestPath.DoubledSeparatorHasTheSameComponents` | src/storage.rs:660-661 | the comparison with the joined names is needed: without it a doubled separator would slip through |
| `BackupTree.TraversalBudget.Record` | src/storage.rs:131-150 | an entry is refused exactly when it is too deep or one too many |
| `BackupTree.BoundedSortedEntries` | src/storage.rs:788-804 | a directory is read, sorted by name, exactly when all its entries fit the budget |
| `BackupTree.PushChildren` | src/storage.rs:772-786 | the children go on the stack, each once, one level down |
| `BackupTree.Advance` | src/storage.rs:739-769 | one round of either walk keeps: done, on the stack and recorded entries account for the whole tree, and the work left shrinks |
| `Backup.CopyArtifactTree` | src/storage.rs:1028-1092 | the copy succeeds exactly on trees within 100,000 entries and 64 levels with files of printable path and nothing irregular, and then has written every entry once, each directory before what lies in it, and recorded every file |
| `Backup.CollectInventory` | src/storage.rs:723-770 | the bundle's walk succeeds exactly on trees within its limits and returns exactly the files and directories |
| `BackupStaging.PlaceSucceedsExactlyWhen` | src/storage.rs:1052-1070 | an entry can be created exactly where its directory is there and its name free |
| `BackupStaging.PlaceAdds` | src/storage.rs:1052-1070 | what is created is listed, and nothing else changes |
| `BackupStaging.PlaceAllSucceeds` | src/storage.rs:1028-1092 | entries whose order puts directories first can all be created, and the tree then lists what it listed and them |
| `BackupBundle.ValidateManifest` | src/storage.rs:567-614 | the manifest's inventory is accepted exactly when every path and hash is valid and paths strictly increase, although only neighbours are compared |
| `BackupBundle.VerifyBundleInventory` | src/storage.rs:673-703 | accepted exactly when the bundle's files are the manifest, the database and the listed artifacts, and every parent directory is there |
| `BackupBundle.VerifyBackup` | src/storage.rs:526-565 | a bundle verifies exactly when manifest, inventory and every file's hash and size agree |
| `BackupVerified.VerifiesExactlyWhen` | src/storage.rs:526-703 | a bundle verifies exactly when its manifest is in order (paths, hashes, strict order, at most 100,000), its tree is within the limits and holds the listed files and no others and the directories they need, and each listed file has its recorded hash and size |
| `BackupVerified.VerifiedFilesAreListed` | src/storage.rs:673-703 | every file of a verified bundle is the manifest, or is listed with the hash and size it has |
| `BackupVerified.UnlistedFileSpoils` | src/storage.rs:691-702 | with one more file that the manifest does not list, a bundle does not verify |
| `BackupBundle.VerifyRestoredStage` | src/storage.rs:984-1008 | the staged home passes exactly when every file has its recorded hash and size |
| `BackupBundle.RestoreBackup` | src/storage.rs:314-366 | restoring succeeds exactly when the bundle verifies and the files, read again later, still match; the new home then holds those contents and nothing else |
| `BackupVerified.HomeMeans` | src/storage.rs:314-350 | a restored home holds the database as hardknock.db and every artifact under its path, nothing else, with the contents the bundle has there |
| `BackupPaths.ParentsAreFolders` | src/storage.rs:680-691 | every directory on the way to a copied entry is an entry |
| `BackupPaths.ListedOnce` | src/storage.rs:739-769 | no path is listed twice |
| `BackupPaths.EntryIsFound` | src/storage.rs:806-816 | looking up a listed file's path finds its contents |
| `BackupRoundTrip.WalksAgree` | src/storage.rs:33-37 | the two entry budgets differ by exactly the three fixed entries and depths line up: the bundle's walk accepts what the copy accepted, exactly unless some directory's path is too long to print |
| `BackupRoundTrip.ManifestValidExactlyWhen` | src/storage.rs:567-614 | the manifest written for a copy is valid exactly when no file's path holds a backslash |
| `BackupRoundTrip.CopyVerifiesExactlyWhen` | src/storage.rs:458-488 | a bundle that holds what the copy wrote verifies exactly when no file's path holds a backslash and every directory's path is printable |
| `BackupRoundTrip.CopiedBackslashDoesNotVerify` | src/storage.rs:632-671 | a source tree that the copy accepts and whose bundle does not verify |
| `BackupRoundTrip.RestoreGivesBackTheSource` | src/storage.rs:314-366 | whatever happened to the bundle's files since, if the manifest is still the original: a restore its checks let through yields the database and the path-to-contents map of the source's artifact files, provided no copied file was replaced, at its own path, by another of the same hash and size |
| `BackupRoundTrip.UntouchedBundleGivesBackTheSource` | src/storage.rs:314-366 | the plain round trip, with nothing assumed of the hash: a home restored from a bundle nobody touched is the source's |
| `BackupRoundTrip.HomeReadsLikeTheSource` | src/storage.rs:341-350 | such a home answers every path below artifacts as the source tree does, a file's contents or its absence |
| `BackupRoundTrip.ManifestCompletes` | src/storage.rs:397-478 | written in the copy's order into the staging directory, with the manifest last, what the copy wrote makes a bundle that holds it, the three fixed entries and nothing else |
| `BackupRoundTrip.CreateBackup` | src/storage.rs:397-488 | a backup is created, and verified where it was staged, exactly for source trees the copy accepts whose file paths hold no backslash and whose directory paths are printable; its bundle holds the source's entries and its manifest does not depend on the order of copying |
| `BackupVerified.CreatableMeans` | src/storage.rs:1028-1092 | the trees a backup can be made of, in numbers: at most 100,000 entries and 64 levels, nothing irregular, paths of at most 4096 characters, no backslash in a file's |
| `BackupRoundTrip.CreateAndRestore` | src/storage.rs:269-366 | creating a backup and restoring it untouched succeeds exactly for those source trees and gives back the source's files |
| `BackupRoundTrip.ManifestForgetsOrder` | src/storage.rs:458-461 | the manifest does not depend on the order in which the copy met the files |
| `Sha256Standard.ZeroBytesIsLeast` | src/doctor.rs:1302-1315 | the padding's zero count is the least one that fills the block, as section 5.1.1 of FIPS 180-4 asks |
| `BlockStream.UpdateAppendsExactlyWhen` | src/doctor.rs:1279-1300 | update appends its bytes to the message taken in exactly when the buffer was empty or the bytes fill it |
| `BlockStream.NothingLostExactlyWhen` | src/doctor.rs:1279-1300 | over a run of updates nothing is ever lost exactly when each update meets that guard |
| `BlockStream.LossyRunsCollide` | src/doctor.rs:1298-1299 | every run of updates that breaks the guard, with empty ones among them or not, has a twin: another message, passed in by pieces of the same lengths, that leaves the hasher in the same state whatever the compression function |
| `BlockStream.LengthCountsEverything` | src/doctor.rs:1279-1280 | the length that goes into the padding is that of everything passed in, lost bytes too, modulo 2^64 |
| `BlockStream.ByteWiseReadsCollide` | src/doctor.rs:1298-1299 | two different two-byte files read a byte at a time get one digest, whatever the compression function |
| `BlockStream.FinalizedIsDigest` | src/doctor.rs:1302-1315 | finishing yields the value over the padded message, of under 2^61 bytes |
| `BlockStream.StreamedDigest` | src/doctor.rs:1279-1324 | any updates that each meet the guard, then finishing: the digest of everything passed in |
| `BlockStream.WholeBlockReadsAppend` | src/doctor.rs:1214-1223 | reads that are whole blocks, the last aside, meet the guard |
| `StreamingSha256.MessageSchedule` | src/doctor.rs:1338-1360 | the two loops over the word array compute the message schedule of section 6.2.2 of FIPS 180-4 |
| `StreamingSha256.AllRounds` | src/doctor.rs:1362-1381 | the 64 rounds are those of the standard |
| `StreamingSha256.Sha256.constructor` | src/doctor.rs:1267-1277 | a new hasher holds the initial hash value and nothing pending |
| `StreamingSha256.Sha256.CompressBlock` | src/doctor.rs:1326-1391 | the state array becomes the standard's compression of it and the block |
| `StreamingSha256.Sha256.Update` | src/doctor.rs:1279-1300 | state, buffer, buffered count and length become those of the value-level update |
| `StreamingSha256.Sha256.FinalizeHex` | src/doctor.rs:1302-1324 | the digest printed is that of the value-level finish, in one block or two |
| `StreamingSha256.HexTellsApart` | src/doctor.rs:1318-1322 | the printed digest determines all eight words |
| `StreamingSha256.HashStableManagedFile` | src/doctor.rs:1206-1227 | the read loop's digest is the FIPS 180-4 digest of the bytes read whenever its reads meet the guard |
| `Sha256Example.AbcDigest` | src/doctor.rs:1742-1752 | the defined digest of "abc", worked through all 64 rounds, is the one the repository's own test expects |
| `Perturbation.ScopedPath` | src/perturbation.rs:121-154 | a path is accepted exactly when it has no root, dot or parent component and no name that is git's, every parent is a directory and it is no symbolic link itself |
| `Perturbation.Apply` | src/perturbation.rs:198-251 | a mutation is applied exactly when the target is absent or a small regular file with one link and the write succeeds; its handle remembers what was there; otherwise nothing has changed, even if the write was torn |
| `Perturbation.AcceptsExactlyWhen` | src/perturbation.rs:121-223 | a mutation is accepted exactly for a path of names inside the workspace, none of them git's in any case, that is absent or a file of at most 64 KiB with one link, with at most 64 KiB to write |
| `Perturbation.OnlyNamesAreAccepted` | src/perturbation.rs:121-134 | a path with a root, dot or parent component is refused |
| `Perturbation.MutationChangesOnePath` | src/perturbation.rs:210-227 | it writes that path and no other, and its handle has what was there |
| `Perturbation.RestorableExactlyWhen` | src/perturbation.rs:169-189 | a path can be restored exactly inside the workspace when it is absent or a file without a second link |
| `Perturbation.PerturbationHandle.Restore` | src/perturbation.rs:169-189 | restoring succeeds exactly on a reachable path that is absent or a regular file without a second link, and clears the handle |
| `Perturbation.AppliedPerturbations.Remove` | src/perturbation.rs:261-272 | removal undoes the stack from the top, each handle whether or not others failed, and reports success exactly when all succeeded; the restore that follows when a handle is dropped changes nothing more |
| `Perturbation.UndoneAt` | src/perturbation.rs:261-272 | after undoing, a mutated path that can be restored holds what its oldest handle remembers; every other path is as it was |
| `Perturbation.RemovalRestoresFirstContents` | src/perturbation.rs:225-241 | over every run of mutations, repeated paths, torn writes and interference: removal gives each restorable mutated path what it held when first mutated and touches no other path |
| `Perturbation.RemovalSucceedsExactlyWhen` | src/perturbation.rs:261-272 | removal reports success exactly when every mutated path can be restored |
| `Perturbation.RemovalGivesBackTheWorkspace` | src/perturbation.rs:258-278 | if only mutated files changed in between and all can be restored, the workspace is exactly what it was at the start |
| `Perturbation.ApplyAll` | src/resilience/runtime.rs:66-74 | a list of perturbations is applied exactly when each can be when its turn comes, and the handles are then those of the run; if one cannot, the ones before it are undone and the workspace is exactly as it was |
| `Perturbation.RunPerturbed` | src/workflow.rs:233-357 | apply, let the commands leave the workspace in any state, remove: the handles undo what the run says they undo, success means every mutated path could be restored, and then, if only mutated files had changed, the workspace is that of the start |
| `Evaluation.Evaluate` | src/evaluation.rs:120-206 | the evaluator's loop, for every mix of process results and cancellation times, against a step-by-step definition |
| `Evaluation.CheckMeans` | src/evaluation.rs:133-177 | each check is recorded as passed, failed, interrupted or timed out exactly as its own process ended if it was started, and as not run if it was not |
| `Evaluation.EvaluationMeans` | src/evaluation.rs:120-206 | the whole is interrupted, timed out or not configured exactly when its processes and the cancellation say so, and a success exactly when there are checks, each was started and each process succeeded |
| `Evaluation.SpecValidMeans` | src/evaluation.rs:1-30 | a specification is valid exactly when no script is blank and none holds a zero character |
| `Evaluation.EvaluationsValidate` | src/evaluation.rs:73-99 | everything the evaluator builds passes the validator |
| `Evaluation.ValidatorIsExact` | src/evaluation.rs:73-99 | of evaluations that ran to an end or had nothing to run, the validator accepts exactly those the evaluator can build |
| `Evaluation.EvaluationsAreShaped` | src/evaluation.rs:127-170 | checks that ran to an end, then at most one cut short, then none run; complete exactly when there are checks and all ran; success exactly when there are checks and all passed |
| `Experiment.FromObservedAction` | src/experiment.rs:161-222 | a plan it makes tests the lesson's two actions against each other, all else equal |
| `Experiment.FromLesson` | src/experiment.rs:90-159 | so does every plan made from a lesson, which is not retired then |
| `Experiment.ReplayPlannedExactlyWhen` | src/experiment.rs:90-159 | from a recorded script: exactly when a plan is made, and field by field which |
| `Experiment.ReconstructionPlannedExactlyWhen` | src/experiment.rs:161-222 | from an observed action: exactly when a plan is made, and field by field which |
| `Experiment.OnlyScriptsArePlanned` | src/experiment.rs:117-130 | a lesson without two scripts to compare is never planned for |
| `LessonData.FromContextMeans` | src/lesson.rs:75-83 | a lesson's selector matches exactly the contexts of the same repository, system and architecture that have the markers it was learned with |
| `LessonData.EachRequirementNarrows` | src/lesson.rs:84-105 | a selector without requirements matches everything, and each requirement narrows it by itself alone |
| `Experiment.ForRetest` | src/experiment.rs:224-248 | a retest plan is made exactly when the lesson's plan is and snapshot, scope and checks fit, and tests the same actions under them |
| `Experiment.RetestPlannedExactlyWhen` | src/experiment.rs:224-248 | the plan for a target, field by field: the target's state, environment and checks, and the two commands as they were |
| `Experiment.Execute` | src/experiment.rs:314-449 | an experiment is completed exactly when both trials ran and nothing was cancelled, and only then concludes |
| `Experiment.OutcomesDecide` | src/experiment.rs:270-304 | for a planned pair of faithful runs no equivalence guard fires: the two outcomes alone decide |
| `Experiment.DecisiveExactlyWhen` | src/experiment.rs:258-304 | for any trials: a conclusion is drawn exactly from two that differ in their command alone, each an evaluation the evaluator can build of all its checks, exactly one of them successful |
| `Experiment.ConclusionsMean` | src/experiment.rs:270-304 | support exactly when the baseline ran every check and failed one and the alternative passed all; contradiction exactly the other way round |
| `Lesson.ValidationMeans` | src/validation.rs:53-84 | a decision validates exactly for a supported lesson with a supporting and no contradicting comparison and at least one application that is distinct, observed, successful and relevant |
| `Lesson.ContextsCountOnce` | src/validation.rs:27-34 | one more application raises the count by one exactly when it qualifies and its context has not been counted |
| `Lesson.Lesson.constructor` | src/lesson.rs:210-235 | a candidate starts at version 1 with confidence 0.42 and its origin as only evidence |
| `Lesson.Lesson.ApplyExperiment` | src/lesson.rs:237-324 | applied exactly when the record tests this lesson, is new and the lesson active; the whole new state is stated, and a refusal changes nothing |
| `Lesson.AcceptsExperimentExactlyWhen` | src/lesson.rs:237-300 | which experiments change a lesson: completed for it, its two scripts run where and as planned, concluding what the trials show, not counted before, and the lesson active with a version to spare |
| `Lesson.Lesson.Retire` | src/lesson.rs:326-340 | retires an active lesson; a retired one stays as it is |
| `Lesson.Lesson.ApplyApplication` | src/lesson.rs:342-390 | recorded exactly when the lesson is active, was observably applied and the reference is new |
| `Lesson.AcceptsApplicationExactlyWhen` | src/lesson.rs:342-375 | which applications are recorded: an observed use of this lesson whose reference is new, while it is active with a version to spare |
| `LessonRuns.StatusAlwaysFits` | src/lesson.rs:237-390 | in every run status fixes confidence and trial evidence fixes status: contradicted exactly when some trial contradicts, candidate exactly when none supports or contradicts, validated only with a supporting trial, and a contradicted lesson is never marked validated |
| `LessonRuns.DecisionAlwaysFits` | src/lesson.rs:342-390 | in every run a stored decision that validates stands only with status validated, or retired since |
| `LessonRuns.AgreesExactlyWhen` | src/lesson.rs:376-382 | whatever summaries applications come with: status and stored decision agree throughout a run exactly when every application to a validated lesson comes with a support, no contradiction and a qualifying application |
| `LessonRuns.ValidatedWithoutDecision` | src/lesson.rs:376-382 | the condition is needed: given a summary without support, which the store never builds, the method alone stores a decision that does not validate and leaves the status |
| `LessonRuns.LedgerBalances` | src/lesson.rs:209-391 | in every run evidence is one plus two per experiment plus one per application, version is one plus experiments, applications and retirements, and validation needs an application |
| `LessonRuns.EvidenceOnlyGrows` | src/lesson.rs:209-391 | evidence is only appended to, and what the lesson is about never changes |
| `LessonRuns.ExperimentsCountOnce` | src/lesson.rs:286-288 | each experiment has contributed two references or none, over every run |
| `LessonRuns.ApplicationsCountOnce` | src/lesson.rs:370-374 | no experience is recorded twice in one relationship |
| `LessonRuns.RetiredIsFinal` | src/lesson.rs:326-340 | no run changes a retired lesson |
| `LessonRuns.RetirementKeepsTheRecord` | src/lesson.rs:326-340 | retirement changes status and version only: confidence, evidence and the stored decision stay on record |
| `LessonRuns.ConstructedIsFresh` | src/lesson.rs:210-235 | field by field, what a new lesson is |
| `LessonRuns.ContradictionStays` | src/validation.rs:53-84 | a contradicted lesson stays so, at confidence 0.20 and not validated, until it is retired |
| `LessonRuns.PlannedExperimentsAreAcceptedExactlyWhen` | src/lesson.rs:237-324 | whatever has happened to the lesson since planning, the record of a completed planned experiment is accepted exactly when the lesson is not retired, has not taken it in, and has a version left |
| `LessonRuns.LiveThrough` | src/lesson.rs:209-391 | a lesson object put through any events from its construction on is in the state those events lead to, and what every run keeps holds of it |
| `LessonRuns.ExecuteAt` | src/experiment.rs:314-449 | plan for the source's state or for a retest target, compare the environment's fingerprint, run, finish: it starts exactly when a plan is made and the environment is the plan's; it is finished exactly when both trials ran uncancelled; the lesson, as later events have left it, then takes the completed record, both trials in its evidence and its status moved as their outcomes decide, unless it is retired, has this experiment or has no version left |
| `LessonRuns.RunAndFinish` | src/store/learning.rs:363-405 | the second half of it: the record is applied to the lesson as stored at the end, and none of the lesson's own guards on plan, trials and conclusion refuses it |
| `LessonStore.LessonEvidenceSummary` | src/store/transfer.rs:216-260 | the two loops read the summary off the tables: completed experiments of this lesson by conclusion, and the evidence of every use marked as applied |
| `LessonStore.DecisionExactlyWhen` | src/validation.rs:53-84 | the decision said of the tables: supported or validated, some completed experiment for it and none against, and some row of an applied, observed, delivered, relevant use in a successful experience on another tree |
| `LessonStore.ContextsAre` | src/store/transfer.rs:216-260 | the contexts counted are those of such rows, told apart by tree and environment |
| `LessonStore.DecisionCounts` | src/validation.rs:27-34 | the stored count is the number of those contexts |
| `LessonStore.TablesGrow` | src/store/transfer.rs:92-214 | an accepted change adds its own row and nothing else; a refused one changes nothing |
| `LessonStore.StoreRunsComeSupported` | src/store/transfer.rs:92-260 | every run of the store is, for the lesson, a run of experiments, applications and retirement, in which every application to a validated lesson comes with a summary that validates |
| `LessonStore.ValidatedExactlyWhenDecided` | src/store/transfer.rs:206-260 | in every run of the store a lesson that is not retired is validated exactly when its stored decision validates; the store's present evidence would validate it again; and the decision's count fixes its confidence |
| `LessonStore.AcceptsExactlyWhen` | src/store/learning.rs:363-405 | in every run of the store, a finished experiment, an experience or a retirement is refused only by the store's own conditions, a record that does not test the lesson, retirement, or for want of a version: the lesson's guards against counting twice never fire |
| `LessonStore.Store.FinishExperiment` | src/store/learning.rs:363-405 | one transaction: the experiment is recorded and the lesson takes it, or neither |
| `LessonStore.Store.InsertExperience` | src/store/transfer.rs:92-214 | the rows of an experience are recorded and the lesson is judged by tables that hold them already, or everything is rolled back |
| `LessonStore.Store.RetireLesson` | src/store/transfer.rs:263-278 | the lesson is retired, or stays as it is |
| `LearningLoop.ExecuteLearningRun` | src/learning_loop.rs:35-142 | refused exactly for a duration budget, more than ten retries, or retries without experience; as many experiments as there are hypotheses or half the allowance, and one more lesson stored if hypotheses are left; the retries made are exactly those up to the first that the allowance, a cancellation, an outcome other than failure or a missing lesson forbids, and that is the reason given; experiments and retries together stay within the allowance |
| `LearningLoop.ExperimentsMean` | src/learning_loop.rs:58-82 | in terms of the budget: as many experiments as there are hypotheses and as both maxima allow two executions for, if the run reflects |
| `LearningLoop.StopsExactlyWhen` | src/learning_loop.rs:83-142 | the retries made are those that were due and affordable, up to the first that was not |
| `LearningLoop.ReasonHolds` | src/learning_loop.rs:83-142 | the reason given for stopping is true of the run |
| `ReleaseMetadata.Closure` | scripts/generate_release_metadata.py:236-246 | the worklist ends on every graph, cyclic ones too, with exactly what the root reaches, unless something reached has no node |
| `ReleaseMetadata.LockIndex` | scripts/generate_release_metadata.py:144-168 | the lock file is indexed exactly when its keys are distinct and its checksums valid |
| `ReleaseMetadata.ResolvedPackages` | scripts/generate_release_metadata.py:171-291 | inputs are accepted exactly when they are consistent; the result is what the root reaches, with its packages, nodes and locked checksums |
| `ReleaseDocuments.GenerateDocuments` | scripts/generate_release_metadata.py:391-498 | documents are made exactly for consistent inputs, from the reached packages in the order of their keys, whatever order the set is taken in |
| `ReleaseContents.GeneratedExactlyWhen` | scripts/generate_release_metadata.py:144-291 | documents are made exactly of metadata and a lock file that meet the listed conditions, each said of the input lists |
| `ReleaseContents.ComponentsList` | scripts/generate_release_metadata.py:414-429 | the components, and the root, are exactly those of the packages the root reaches, with the package's own fields, its reference and the lower-cased checksum of its lock entry |
| `ReleaseContents.InventoryLists` | scripts/generate_release_metadata.py:449-485 | the license inventory lists exactly the reached packages outside the workspace with those fields, and marks those the root's node names |
| `ReleaseContents.DependenciesList` | scripts/generate_release_metadata.py:431-436 | there is an entry for each reached package, and each entry refers to the packages that its package's node names |
| `ReleaseContents.DocumentsAreOrdered` | scripts/generate_release_metadata.py:404-436 | components and inventory come by name, version and source; entries and the references in them by reference |
| `ReleaseOrder.ReferencesResolve` | scripts/generate_release_metadata.py:437-443 | one dependency entry per package, and every reference in it names a component of the document |
| `ReleaseOrder.AcceptanceForgetsOrder` | scripts/generate_release_metadata.py:171-291 | inputs are accepted or refused alike whatever the order of packages, nodes, dependency lists, members and locked packages |
| `ReleaseOrder.DocumentsForgetOrder` | scripts/generate_release_metadata.py:404-443 | what the script returns, a refusal or both documents, is unchanged by permuting packages, nodes, dependency lists, members or locked packages, if no two reached packages share name, version and source |

## Left out

- Symbolic-link, ownership, mode, inode and directory-chain re-checks around each file system call: files have identities of their own, and a file that is neither regular nor a directory is one kind.
- The retry of the inventory when a managed transient directory vanishes (src/storage_policy.rs:743-793), and error texts everywhere.
- Lease markers with the wrong content, size or link count: what inspecting a marker finds is an input of the inventory, and markers in the protocol are well formed.
- Free disk space in the reservation protocol: it changes outside the protocol, so a decision takes it as an input; the planner models it fully.
- ReservationProtocol.NoScheduleOvercommits: speaks of states with a live reservation, because nothing limits usage that was on disk before the first one; the policy is fixed for a run.
- Timeouts of the capacity lock and the JSON form of a record; record and directory names are never used twice.
- Database contents, the artifacts the database refers to, header fields of the manifest and its 16 MiB limit; path strings are sequences of characters standing for bytes, so UTF-8 validity is not modelled.
- Installing a staged home or bundle by rename, and that a restore must name the recorded home.
- BackupRoundTrip.RestoreGivesBackTheSource: directories that hold no file are not restored by the code, so the result is about files; for a bundle that was changed it assumes that no copied file was replaced by another of the same hash and size.
- The copy's own limit on recorded files: it is shown never to be reached before the entry limit.
- The rest of the installation check around the file hash; reads are given as the byte strings they return.
- Environment, failure and delay perturbations beyond their place on the stack, and the checks that a workspace is a live one; a restoring write is taken to succeed on a path that passes the checks.
- Whitespace is the ASCII whitespace when scripts are trimmed; names, summaries and times of checks, trials and lessons are not modelled.
- LessonRuns.StatusAlwaysFits: in the runs of a lesson alone, each application brings a summary of its own; LessonStore derives it from the tables.
- Revisions of a lesson's descriptive metadata (src/store/learning.rs:165-192), which raise its version and change nothing else that is modelled; the comparison of a finished experiment with its stored plan and trials; that an experience's other parts are consistent.
- LearningLoop.ExecuteLearningRun: retrieval, reflection, and errors of the store or of a run, which end a learning run at once; the lists of lessons a run returns.
- LessonRuns.ExecuteAt: that a trial's report has the requested state, fingerprint and checks is assumed of the runner; errors of the store are not modelled.
- Dependency kinds, license texts and other fields that the release script copies or formats: they are one opaque field of a package.
- ReleaseOrder.DocumentsForgetOrder: says nothing of reached packages that share name, version and source identity, whose order in the script follows that of a set.
- Command line, printing, transport, containers, signals, process control and retrieval scores.
