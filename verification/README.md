# A verified model of the Agentics review, storage and maintenance protocols

This project models seven stateful cores of the Agentics repository in Dafny and proves what
they are for.

* **Review digests.** A byte format of labelled, length-prefixed fields is fed to a hasher by an
  explicit-stack walk over a directory tree. `ReviewEncoding` has the format and a decoder for it,
  `PublicTree` the order of the walk, `ReviewStream` what a stream determines, `Utf8Text` which paths
  are text, and `ReviewWalk` the hasher, the walk and the two digest functions.
* **Storage preparation.** `StorageConfig` reads phases and slot classes, `StoragePlan` plans
  directories, images, mounts and quota slots, `Fstab` and `UndoLog` hold the two hard parts of
  applying a plan, `StorageEffects` says what a plan does to a file tree and when it can,
  `StoragePreparation` applies it on a host and rolls it back on failure, and
  `SlotChecker` is the separate checker that must agree.
* **Verified copy of backups.** `StorageKey` is the key grammar, `BackupKeys` the map from source to
  destination keys, `BackupCopy` the resumable copy loop.
* **Baseline submitter.** `Submitter` has the append-only log, the index replayed from it, and
  histories of runs that stop anywhere.
* **Instruction documents.** `DocScan` states the README/AGENTS/CLAUDE policy and what a report must
  say; `DocScanRun` is the multi-pass scan.
* **Runner logs.** `RunnerLog` is the end of an evaluation job, and interleaved attempts that share a
  create-only log key.
* **Streaming loops.** `StreamLimits` has the two bounded buffers, the two line counters and the two
  large-file scans.

`ByteStrings`, `Options`, `Sorting` and `Splitting` are shared vocabulary.

## Where the code does less than it seems to promise

Each of these has an exact condition, proved for all inputs.

* The order in which private assets are listed shows in the review digest if, and only if, two
  different assets share a name: the sort by name is stable (`AssetOrderIrrelevantIff`).
* Project ids of one phase collide if, and only if, the last one saturates and there is more than one
  (`ProjectIdsDistinctIff`).
* A printed fstab entry whose mount was not yet known is recognised again if, and only if, the mount
  path is nonempty and free of white space, and the image path either names the mount in one of its
  own lines, or has exactly one word in its last line, or has none there and the mount is `xfs`
  (`RecognisedIff`). For example an image path of two words hides the mount
  (`SpacedImageIsMissed`), and then every run adds another entry (`EnsureTwiceIff`).
* A rollback leaves directories behind: exactly those that `create_dir_all` made above a recorded
  path, each on the way to something the plan asks for (`RollbackRestores`). It also leaves the file
  of a `truncate` that failed after making it if, and only if, the log covers neither that file nor a
  directory above it (`RollbackWithStray`); a later run would take that file for a finished image.
* Two source keys share a backup destination if, and only if, one is the other under the destination
  prefix (`CollideIff`). A successful dry run without overwriting predicts the real run if, and only
  if, no two listed keys share a destination that is absent at the start (`DryRunPredictsIff`). With
  overwriting it always predicts whether the run succeeds, and it predicts the counters if, and only if, as many keys
  find their own object in the initial store as find it after the keys before them were copied
  (`OverwriteDryRunPredictsIff`).
* Running a successful copy again skips everything if, and only if, listed keys that share a
  destination have equal objects (`RerunSkipsAllIff`). Without overwriting that is always so; with
  overwriting, different objects are copied over each other again (`RerunCopiesAgain`).
* A submission is sent again, when its key is next visited, if, and only if, the run stopped before
  the first record was appended (`SubmittedAgainIff`). A key that is replayed as completed always
  stays so (`CompletedStays`), but a single completed record can be followed by another one of its
  key: if, and only if, one visit logs a submission as completed on creation and then fails to await
  it (`CompletedRecordsStickIff`).
* A job surfaces a capacity error if, and only if, it ran out of capacity, its errors are not
  redacted and its workspace was cleaned (`FinishJob`).
* The worker's bounded buffer loses its truncation flag if, and only if, something was dropped and
  the last chunk is empty. Its process-output loop never passes on an empty chunk; its container-log
  loop may (`WorkerCorrectIff`, `CollectProbeLogs`).

## Model

| member | source | states |
|---|---|---|
| ReviewEncoding.Be64RoundTrip | crates/contracts/src/challenge_creation.rs:257-262 | the eight length bytes of a field give back every 64-bit length |
| ReviewEncoding.HexRoundTrip | crates/contracts/src/challenge_creation.rs:164-168 | the hexadecimal digest text of an asset gives back its bytes |
| ReviewEncoding.HexText | crates/contracts/src/challenge_creation.rs:164-168 | the digest text is lower-case hexadecimal, high digit first |
| ReviewEncoding.ReadFieldPrinted | crates/contracts/src/challenge_creation.rs:257-262 | a printed label and value are read back, whatever follows them |
| ReviewEncoding.AssetRoundTrip | crates/contracts/src/challenge_creation.rs:159-169 | kind, flag, signed size and digest of an asset are recovered from its field values |
| ReviewEncoding.ReadItemPrinted | crates/contracts/src/challenge_creation.rs:195-262 | a printed directory, file with raw bytes, asset, manifest or format item is read back, whatever follows |
| ReviewEncoding.ReadAllPrinted | crates/contracts/src/challenge_creation.rs:140-262 | decoding undoes printing for every sequence of items |
| ReviewEncoding.PrintAllInjective | crates/contracts/src/challenge_creation.rs:140-262 | a byte stream has at most one reading as items |
| ReviewEncoding.DirBytes | crates/contracts/src/challenge_creation.rs:220-222 | the bytes of a directory item, one by one |
| ReviewEncoding.FileBytes | crates/contracts/src/challenge_creation.rs:223-226 | the bytes of a file item, one by one: label and path, size label and size, contents |
| ReviewEncoding.AssetLabelBytes | crates/contracts/src/challenge_creation.rs:159-169 | the labels of an asset's fields, byte by byte |
| PublicTree.SameFactsIff | crates/contracts/src/challenge_creation.rs:195-231 | the set of directories and files with bytes is equal for two trees exactly when the trees are equal up to listing order at every depth and unreviewed special files |
| PublicTree.FactsIgnoreOrder | crates/contracts/src/challenge_creation.rs:198-199 | permuting a listing does not change the reviewed content |
| PublicTree.ListingMembers | crates/contracts/src/challenge_creation.rs:195-231 | the walk visits exactly the directories and regular files of the tree |
| PublicTree.ListingOrdered | crates/contracts/src/challenge_creation.rs:196-228 | pop, sort and push visit a tree in an order given by paths alone |
| PublicTree.BeforeAsymmetric | crates/contracts/src/challenge_creation.rs:196-228 | that order never holds both ways |
| Sorting.LexLeIff | crates/contracts/src/challenge_creation.rs:199 | the order of names: a beginning first, otherwise the smaller byte at the first difference |
| PublicTree.ListingDetermined | crates/contracts/src/challenge_creation.rs:195-231 | two well-formed trees are visited identically exactly when their reviewed content is the same |
| ReviewStream.RelInjective | crates/contracts/src/challenge_creation.rs:204-212 | slash-joined relative paths of valid names determine their components |
| ReviewStream.TreeStreamDetermines | crates/contracts/src/challenge_creation.rs:195-262 | two trees of any depth and content give equal streams exactly when they are equal trees |
| ReviewStream.ReviewStreamDetermines | crates/contracts/src/challenge_creation.rs:140-172 | equal review streams exactly when manifest, tree (if the manifest has one) and name-sorted assets are equal |
| ReviewStream.RuntimeStreamDetermines | crates/contracts/src/challenge_creation.rs:175-192 | equal runtime-review streams exactly when manifest and tree are equal |
| ReviewStream.ReviewNeverRuntime | crates/contracts/src/challenge_creation.rs:145-184 | no inputs make a review stream equal to a runtime-review stream |
| ReviewStream.SortedAssetsIff | crates/contracts/src/challenge_creation.rs:157-158 | two asset lists sort alike exactly when each name has the same assets in the same order |
| ReviewStream.AssetsInOrder | crates/contracts/src/challenge_creation.rs:157-158 | assets are hashed in the order of their names |
| ReviewStream.AssetOrderIrrelevantIff | crates/contracts/src/challenge_creation.rs:157-158 | every permutation of an asset list sorts alike exactly when no two different assets share a name |
| ReviewWalk.Hasher.HashField | crates/contracts/src/challenge_creation.rs:257-262 | feeds one length-prefixed label and value |
| ReviewWalk.Hasher.HashFile | crates/contracts/src/challenge_creation.rs:234-254 | for any sizes of reads, feeds the size field and then exactly the file's bytes, unless an access fails |
| ReviewWalk.HashEntry | crates/contracts/src/challenge_creation.rs:201-227 | feeds a directory or file item, and nothing for special files, unless an access fails |
| ReviewWalk.HashDirectory | crates/contracts/src/challenge_creation.rs:197-227 | feeds one directory's entries by name and pushes its subdirectories, unless an entry is refused or an access fails |
| ReviewWalk.PopAndPush | crates/contracts/src/challenge_creation.rs:196-228 | replacing a directory on the stack by its subdirectories leaves the same visits to do and a smaller stack weight |
| ReviewWalk.ProgressStep | crates/contracts/src/challenge_creation.rs:196-228 | done plus still-to-visit stays the whole listing, and acceptability of the tree stays that of the stack |
| ReviewWalk.HashPublicTree | crates/contracts/src/challenge_creation.rs:195-231 | succeeds only on what opens as a directory without symlinks and non-UTF-8 paths at any depth, and then has fed the tree's stream; refuses only others; both exactly when no access fails |
| ReviewWalk.VerdictIff | crates/contracts/src/challenge_creation.rs:201-219 | a bundle is digested exactly when no node at any depth is a symlink and every slash-joined path encodes a sequence of Unicode scalar values; it is unreadable exactly when its root does not open |
| Utf8Text.Utf8Iff | crates/contracts/src/challenge_creation.rs:207-212 | the byte-wise test passes exactly on the encodings of sequences of Unicode scalar values |
| ReviewWalk.HashAsset | crates/contracts/src/challenge_creation.rs:159-169 | feeds the five fields of one asset |
| ReviewWalk.PrintAsset | crates/contracts/src/challenge_creation.rs:159-169 | an asset item is its five labelled fields in order |
| ReviewWalk.ReviewBundle | crates/contracts/src/challenge_creation.rs:140-172 | the digest is taken over exactly the review stream, and which inputs fail and how, whatever accesses fail |
| ReviewWalk.ReviewRuntimeBundle | crates/contracts/src/challenge_creation.rs:175-192 | the digest is taken over exactly the runtime-review stream, and which inputs fail and how, whatever accesses fail |
| StorageConfig.PhaseTextParses | ops/src/dgx.rs:105-140 | the text of every phase parses to that phase |
| StorageConfig.PhaseFromTextIff | ops/src/dgx.rs:123-140 | text is a phase exactly when, trimmed, it is that phase's text |
| StorageConfig.SeparatesIff | ops/src/dgx.rs:547 | settings are cut at commas and ASCII white space, by code point |
| StorageConfig.PiecesIff | ops/src/dgx.rs:547-551 | the pieces of a setting are what lies between separators, trimmed, if anything is left |
| StorageConfig.ParsePhases | ops/src/dgx.rs:545-565 | fails exactly on an unknown phase or none at all; otherwise gives the phases in order of first mention |
| StorageConfig.MentionedMembers | ops/src/dgx.rs:545-565 | the phases given are exactly those mentioned, none twice |
| StorageConfig.PhasesRoundTrip | ops/src/dgx.rs:545-565 | comma-joined phase texts parse back to the same phases in the same order |
| StorageConfig.ParseSlotClasses | ops/src/dgx.rs:567-600 | fails exactly on a piece that is not a positive 64-bit number or on no piece; otherwise exactly the classes named, strictly ascending |
| StorageConfig.Dedup | ops/src/dgx.rs:590-591 | a sorted list becomes strictly ascending with the same members |
| StorageConfig.ClassesDetermined | ops/src/dgx.rs:567-600 | texts are read alike exactly when they name the same classes |
| StorageConfig.DecimalParses | ops/src/dgx.rs:574-580 | the decimal text of a number parses to it, with or without a plus sign, exactly if it fits 64 bits |
| StorageConfig.ClassText | ops/src/dgx.rs:574-580 | `1024` is the number 1024 |
| StoragePlan.FromConfig | ops/src/dgx_storage.rs:336-396 | the nested loops push exactly the planned actions in order |
| StoragePlan.PlanHolds | ops/src/dgx_storage.rs:336-396 | besides slots a plan holds exactly eight directories, the Docker image and one image per phase, each with its mount and, exactly if the fstab is kept, its entry, and the change of owner |
| StoragePlan.Padded3Value | ops/src/dgx.rs:602-604 | zero-padded slot numbers of any size keep their value |
| StoragePlan.DecimalDigits | ops/src/dgx.rs:606-608 | class directories are named in decimal |
| StoragePlan.SlotPathInjective | ops/src/dgx.rs:602-621 | a slot path determines phase, class and index |
| StorageEffects.SlotNames | ops/src/dgx.rs:602-621 | the names on the way to a slot, byte by byte |
| StorageEffects.MetadataName | ops/src/dgx_storage.rs:652 | the name of a slot's metadata file, byte by byte |
| StorageEffects.TextMeans | ops/src/dgx_storage.rs:564-569 | paths are printed from the root, component after component, and the fstab is `/etc/fstab` |
| StoragePlan.PlanSlots | ops/src/dgx_storage.rs:361-393 | the slot actions of a plan are exactly phases x classes x 1..=slots, each with its project id |
| StoragePlan.PlanPathsDistinct | ops/src/dgx_storage.rs:361-393 | with deduplicated phases and classes no two positions of the plan prepare the same path |
| StoragePlan.PlanOrder | ops/src/dgx_storage.rs:361-393 | every slot comes after its phase's image action and then its mount action |
| StoragePlan.ProjectIdsDistinctIff | ops/src/dgx_storage.rs:378-392 | project ids within a phase are pairwise distinct exactly when the last does not saturate or there is at most one |
| StoragePlan.ProjectIdValue | ops/src/dgx_storage.rs:380-384 | a project id is base + class offset * slots + index, or the largest 64-bit number if that is less |
| StoragePlan.ProjectIdRange | ops/src/dgx_storage.rs:378-384 | unsaturated project ids lie in (base, base + classes*slots] |
| Fstab.OnlyPlainRecognised | ops/src/dgx_storage.rs:793-801 | only nonempty white-space-free mount texts are ever recognised |
| Fstab.NamesMountIff | ops/src/dgx_storage.rs:796-800 | a line names a mount exactly when that is the second of its words, words being runs of bytes between blanks |
| Fstab.HasMountEntryIff | ops/src/dgx_storage.rs:793-801 | there is an entry for a mount exactly when that is the second word of one of the file's lines |
| Fstab.AppendLines | ops/src/dgx_storage.rs:564-580 | for all paths, existing bytes and lines survive in place, with or without a trailing newline, and the entry's lines follow |
| Fstab.AppendRecognises | ops/src/dgx_storage.rs:564-580 | for all paths, after an append exactly what was recognised before and what the printed entry names is recognised |
| Fstab.EntryReadsBack | ops/src/dgx_storage.rs:564-568 | a printed entry names its own mount exactly when the mount is plain and the image path leaves it the second word of a line |
| Fstab.PlainEntryNames | ops/src/dgx_storage.rs:564-568 | for paths without white space a printed entry names its mount and nothing else |
| Fstab.PlainReadsBack | ops/src/dgx_storage.rs:564-568 | for an image path without white space an entry reads back exactly when the mount path is nonempty and free of white space |
| Fstab.RecognisedIff | ops/src/dgx_storage.rs:559-582 | for all paths and files, the mount is recognised after an append exactly when it was before or the printed entry reads back, which is a condition on the two paths alone |
| Fstab.SpacedImageIsMissed | ops/src/dgx_storage.rs:559-582 | an image path of two words hides the mount, unless its second word is the mount |
| Fstab.EnsureTwiceIff | ops/src/dgx_storage.rs:559-582 | repeating a step changes nothing exactly when its mount was recognised at first or its entry reads back |
| Fstab.EnsureAllRecognises | ops/src/dgx_storage.rs:559-582 | after any steps exactly the earlier mounts and what the applied steps name are recognised |
| Fstab.EnsureAllIdempotentIff | ops/src/dgx_storage.rs:559-582 | repeating any steps changes no byte exactly when every mount was recognised at first or is named by an entry the first run appended |
| Fstab.EnsureAllIdempotent | ops/src/dgx_storage.rs:559-582 | where every printed entry reads back, all mounts are recognised after a run and repeating it changes no byte |
| UndoLog.MakeDirsUndoable | ops/src/dgx_storage.rs:515-517 | unrecorded ancestor directories keep a run undoable |
| UndoLog.RecordedDirUndoable | ops/src/dgx_storage.rs:693-703 | a recorded directory keeps a run undoable although its new ancestors are not recorded |
| UndoLog.RecordUndoable | ops/src/dgx_storage.rs:653-657 | recording an absent path before it is written keeps a run undoable |
| UndoLog.BackupUndoable | ops/src/dgx_storage.rs:746-757 | the first backup of a path is its initial content, or its absence, or content of something the run made |
| UndoLog.WriteUndoable | ops/src/dgx_storage.rs:647-660 | writing any bytes, also torn ones, to a covered path keeps a run undoable |
| UndoLog.RestoreAllAt | ops/src/dgx_storage.rs:769-774 | what restoring all backups leaves at every path |
| UndoLog.RemoveAllAt | ops/src/dgx_storage.rs:775-781 | what removing all created paths, last to first, leaves at every path |
| UndoLog.RollbackRestores | ops/src/dgx_storage.rs:759-782 | rollback gives every initial path its initial state, removes none, and leaves of the new ones exactly the unrecorded directories |
| UndoLog.RollbackWithStray | ops/src/dgx_storage.rs:759-782 | an unrecorded file changes nothing else about a rollback and survives it exactly when no created path is at or above it and it was not backed up as absent |
| StorageEffects.EffectAt | ops/src/dgx_storage.rs:467-497 | a successful action keeps what exists, except the contents of its own file, and makes only the file and directories it is for |
| StorageEffects.EffectInPlace | ops/src/dgx_storage.rs:467-497 | a successful action has put in place what it asks for: a new directory or mount point as a directory, a new image as a formatted file |
| StorageEffects.EffectsShaped | ops/src/dgx_storage.rs:164-183 | a run of feasible actions removes nothing, turns no directory into a file or back, and makes only what one of them is for |
| StorageEffects.PlanInPlace | ops/src/dgx_storage.rs:164-183 | after all actions of a plan every directory, image and mount point is in place, and new directories are directories |
| StorageEffects.UnobstructedFeasible | ops/src/dgx_storage.rs:164-183 | if no file or directory is in the way at the start, every action can succeed when its turn comes |
| StorageEffects.QuotaCommands | ops/src/dgx_storage.rs:584-645 | the commands of a plan put every slot into its project and limit the project's blocks and inodes, in the file system mounted for the slot's phase |
| StorageEffects.ImageCommands | ops/src/dgx_storage.rs:507-534 | an image that is missing when its turn comes is made with its planned size and formatted |
| StoragePreparation.Host.CreateDirAllRecorded | ops/src/dgx_storage.rs:693-703 | keeps the run undoable and every existing path, also when it fails half way; succeeds exactly when the path exists, or nothing is in the way and the operation goes well |
| StoragePreparation.Host.BackupFile | ops/src/dgx_storage.rs:746-757 | the first backup wins; on success the path is covered |
| StoragePreparation.Host.EnsureXfsImage | ops/src/dgx_storage.rs:507-534 | keeps every existing path, and keeps the run undoable except for the file of a failed `truncate`; on success the image exists, nothing is unrecorded, and a missing image was made with its size and formatted |
| StoragePreparation.Host.EnsureActiveMount | ops/src/dgx_storage.rs:536-544 | keeps the run undoable for a mount that is already active |
| StoragePreparation.Host.EnsureFstabEntry | ops/src/dgx_storage.rs:559-582 | on success the file is the old one with the entry ensured; nothing else changes |
| StoragePreparation.Host.WriteSlotMetadata | ops/src/dgx_storage.rs:647-660 | on success only the metadata file changed, to the given bytes |
| StoragePreparation.Host.EnsureQuotaSlot | ops/src/dgx_storage.rs:584-610 | on success the slot directory exists and holds the planned metadata, and the slot was put into its project and the project limited |
| StoragePreparation.Host.ChownPaths | ops/src/dgx_storage.rs:662-691 | issues a change of owner and of mode for exactly those writable roots that exist |
| StoragePreparation.Host.ApplyAction | ops/src/dgx_storage.rs:467-497 | every action keeps the run undoable (but for the file of a failed `truncate`), changes no existing file but its own, makes nothing away from the targets; on success it leaves exactly its effect and has issued exactly its commands, and it succeeds if it is feasible and its operations go well |
| StoragePreparation.Host.Rollback | ops/src/dgx_storage.rs:759-782 | the two loops compute the rolled-back tree |
| StoragePreparation.FstabStep | ops/src/dgx_storage.rs:467-497 | only fstab actions change the fstab, present or absent, each by ensuring its entry |
| StoragePreparation.EarlierSlotKept | ops/src/dgx_storage.rs:647-660 | no later action of a plan disturbs an earlier slot or its metadata |
| StoragePreparation.MidwayStep | ops/src/dgx_storage.rs:164-183 | one more successful action keeps what the apply loop has established |
| StoragePreparation.Host.Prepare | ops/src/dgx_storage.rs:162-192 | a run that fails at any step leaves the initial tree plus directories on the way to a target, and besides at most the file of a failed `truncate`; one that succeeds leaves exactly the effects of all actions, has issued exactly their commands, and has everything in place, every slot ready and the fstab with all entries ensured; and it succeeds if its operations go well and nothing is in the way |
| SlotChecker.AcceptsExactlyPrepared | ops/src/check_dgx_spark_profile.rs:364-386 | metadata is accepted exactly when the preparer could have written it for that slot |
| SlotChecker.VisitsMembers | ops/src/check_dgx_spark_profile.rs:297-313 | the checker visits every slot of its profile and no other |
| SlotChecker.CheckSlots | ops/src/check_dgx_spark_profile.rs:297-354 | one report per visited slot, in order, for any answers of the quota and write probes |
| SlotChecker.ReadyIff | ops/src/check_dgx_spark_profile.rs:315-386 | a slot passes exactly when directory and metadata are there, the metadata is what the preparer writes for that slot under some project id, and the probes pass for that id |
| SlotChecker.PreparedIsAccepted | ops/src/check_dgx_spark_profile.rs:315-386 | where all slots are ready, every slot visited under matching settings passes the metadata checks, and the probes are asked about its planned project id and the same saturated inode limit |
| SlotChecker.PrepareThenCheck | ops/src/check_dgx_spark_profile.rs:297-386 | after a successful preparation no slot is missing or has bad metadata, and every report is a pass if the planned quotas and write permissions are in effect |
| StorageKey.ValidateStorageKey | crates/domain/src/storage.rs:97-137 | the component loop accepts exactly nonempty slash-separated safe segments, none `.` or `..` |
| StorageKey.KeyIff | crates/domain/src/storage.rs:97-137 | the valid keys are exactly what nonempty segments over the literal class, none `.` or `..`, make when joined by slashes |
| StorageKey.ClassIff | crates/domain/src/storage.rs:121-125 | the character class of the pattern and the byte test of the validator let the same characters through |
| StorageKey.DotsPosition | crates/domain/src/storage.rs:92 | the look-ahead of the published pattern finds exactly the dot segments |
| StorageKey.PatternIff | crates/domain/src/storage.rs:92 | the published regular expression accepts exactly the same keys |
| StorageKey.S3PrefixIff | crates/config/src/storage_config.rs:96-119 | on nonempty trimmed input the S3 prefix validator accepts exactly the same keys |
| StorageKey.TrimAt | crates/config/src/storage_config.rs:97 | trimming takes away Unicode white space at both ends and leaves none there |
| StorageKey.WhiteIff | crates/config/src/storage_config.rs:97 | white space is Unicode's, code point by code point |
| BackupKeys.NormalizedPrefix | ops/src/private_bundle_backups.rs:323-331 | a normalised prefix is a valid key |
| BackupKeys.NormalizedPrefixIff | ops/src/private_bundle_backups.rs:323-331 | there is no prefix exactly when the trimmed text is nothing but slashes, and the prefix k exactly when k is a valid key with slashes around it |
| BackupKeys.UnderValid | ops/src/private_bundle_backups.rs:384-398 | two texts joined by a slash are a valid key exactly when both are |
| BackupKeys.DestinationNeverFails | ops/src/private_bundle_backups.rs:384-410 | for valid prefixes and a valid key the destination exists and is valid |
| BackupKeys.DestinationText | ops/src/private_bundle_backups.rs:384-410 | the destination, letter by letter: root prefix, destination prefix, and the key without the destination prefix if it starts with that and a slash |
| BackupKeys.StripUndoesAdd | ops/src/private_bundle_backups.rs:400-410 | stripping the destination prefix undoes adding it |
| BackupKeys.CollideIff | ops/src/private_bundle_backups.rs:384-410 | two keys share a destination exactly when one is the prefix, a slash and the other, which does not itself start with them |
| BackupCopy.Copier.CopyOneObject | ops/src/private_bundle_backups.rs:423-525 | success means the object is at its destination and counted once; whatever fails, only that destination may change, and without overwriting not if it was present, even if another writer made it meanwhile |
| BackupCopy.Copier.SettleObject | ops/src/private_bundle_backups.rs:449-525 | compare, skip, refuse, plan, or upload and verify |
| BackupCopy.Copier.Run | ops/src/private_bundle_backups.rs:131-159 | success without overwriting stores every listed object even when destinations collide; with overwriting the last one wins; any run without overwriting, aborted or not, only extends the store and replaces nothing that other writers put there meanwhile; seen = copied + skipped and bytes are the total |
| BackupCopy.StepProgress | ops/src/private_bundle_backups.rs:131-159 | one more key keeps what the loop has established for the earlier ones |
| BackupCopy.KeyOutcome | ops/src/private_bundle_backups.rs:423-525 | when one key succeeds, whether it is copied or skipped, and what that leaves, in either mode |
| BackupCopy.RunSucceedsIff | ops/src/private_bundle_backups.rs:131-159 | a fault-free run succeeds exactly when every key fits the initial store, the counters suffice and, without overwriting, keys that share a destination have equal objects |
| BackupCopy.DryRunAgrees | ops/src/private_bundle_backups.rs:440-525 | dry and real runs agree step by step on stores that agree at the destinations |
| BackupCopy.DryRunPredicts | ops/src/private_bundle_backups.rs:440-525 | with injective destinations a dry run leaves the store alone and predicts outcome and counters exactly |
| BackupCopy.DryRunPredictsIff | ops/src/private_bundle_backups.rs:440-525 | without overwriting, a failing dry run means a failing run, and a successful one predicts the real run exactly when no two keys share a destination absent at the start |
| BackupCopy.OverwriteDryRunPredictsIff | ops/src/private_bundle_backups.rs:440-525 | with overwriting, a dry run always predicts whether the run succeeds, and its counters exactly when as many keys find their own object in the initial store as find it after the keys before them |
| BackupCopy.SuccessStores | ops/src/private_bundle_backups.rs:423-525 | a successful fault-free run extends the store and stores every object |
| BackupCopy.AllSkipped | ops/src/private_bundle_backups.rs:457-469 | a run over objects that are all stored skips them all and changes nothing |
| BackupCopy.RerunSkipsAll | ops/src/private_bundle_backups.rs:131-159 | running again after success copies nothing and skips everything, without overwriting or when destinations are injective |
| BackupCopy.RerunSkipsAllIff | ops/src/private_bundle_backups.rs:131-159 | in either mode, running again after success skips everything exactly when keys that share a destination have equal objects |
| BackupCopy.RerunCopiesAgain | ops/src/private_bundle_backups.rs:131-159 | with overwriting, two colliding keys with different objects are both copied again by a rerun |
| Submitter.ReplayLast | ops/src/baseline_submitter.rs:637-661 | loading the log gives the last record of each key and no other key |
| Submitter.VisitReplay | ops/src/baseline_submitter.rs:264-466 | replaying the records of one visit equals the one in-memory insert |
| Submitter.IdsNeverDiffer | ops/src/baseline_submitter.rs:225-467 | over any runs without resubmission, stopping anywhere, no two distinct ids are logged for one key |
| Submitter.RunsCompose | ops/src/baseline_submitter.rs:200-221 | runs one after the other, each starting from the log the last one left, make one history |
| Submitter.SecondSubmissionMeansLostRecord | ops/src/baseline_submitter.rs:361-408 | two accepted submissions of one key mean that the first left no record, whatever ids the server answers with |
| Submitter.SubmittedAgainIff | ops/src/baseline_submitter.rs:361-408 | at the next visit of a key it is submitted again exactly when the record of the first submission was lost |
| Submitter.DoneIsLeftAlone | ops/src/baseline_submitter.rs:264-273 | a key replayed as completed gets no further record |
| Submitter.VisitLogs | ops/src/baseline_submitter.rs:264-466 | everything a visit that is not cut logs, by what it found in the log and what the server answered: nothing, the outcome of a pursued submission, a refusal, or an acceptance and then its outcome |
| Submitter.CompletedOnlyIfReported | ops/src/baseline_submitter.rs:225-467 | a completed record is logged only for a key that the server reported completed, over all runs and wherever they stopped |
| Submitter.EffectMeans | ops/src/baseline_submitter.rs:264-466 | a visit counts as skipped, planned, completed or failed by what it found and what the server answered |
| Submitter.TallyCounts | ops/src/baseline_submitter.rs:150-179 | every counter of the summary is a number of visits, told apart by what they found and what the server answered |
| Submitter.CompletedRecordsStickIff | ops/src/baseline_submitter.rs:225-467 | about single records: each record after a completed one of its key is completed exactly when no visit logs a submission as completed on creation and then fails to await it |
| Submitter.CompletedStays | ops/src/baseline_submitter.rs:225-467 | from any log, a key replayed as completed at a loop head or when a run stops keeps that very record over all further visits without resubmission |
| Submitter.CompletedRecordFollowed | ops/src/baseline_submitter.rs:395-439 | such a visit: two records of one key, the first completed and the second not |
| Submitter.Run.Finish | ops/src/baseline_submitter.rs:445-464 | appends, indexes and counts one outcome, or appends nothing |
| Submitter.Run.Visit | ops/src/baseline_submitter.rs:264-466 | the log grows by exactly the records of one visit, cut only if an operation fails; index equals replay, the summary by that visit's effect, and the counters keep their law |
| Submitter.Run.SubmitTargets | ops/src/baseline_submitter.rs:258-466 | the targets are visited in order up to the limit or an interruption |
| Submitter.Run.SubmitChallenge | ops/src/baseline_submitter.rs:225-258 | which challenges are passed over, deferred or visited |
| Submitter.Run.Submit | ops/src/baseline_submitter.rs:225-467 | the log is the history of the visits made, with the server's answers; index equals replay; submitted_count = planned + completed + failed within the limit, and every counter of the summary is exact; dry runs leave the log alone; all eligible pairs are visited in order unless limited or interrupted; and the run is not interrupted if requests and appends go well |
| DocScan.ReportIgnoresOrder | crates/dev-checks/src/human_agent_docs.rs:218-426 | all walk orders of the same documents give the same full report |
| DocScan.PassesIff | crates/dev-checks/src/human_agent_docs.rs:437-439 | no violation is reported exactly when the README/AGENTS/CLAUDE policy holds, stated document by document |
| DocScan.PolicyMeans | crates/dev-checks/src/human_agent_docs.rs:342-390 | the policy in the scan's terms is the policy stated document by document |
| DocScan.ClaudeAccounted | crates/dev-checks/src/human_agent_docs.rs:317-340 | every CLAUDE document is a valid link or has exactly one violation, never both |
| DocScan.KeyDetermines | crates/dev-checks/src/human_agent_docs.rs:508-527 | a violation is determined by its sort key |
| DocScan.ViolationsInOrder | crates/dev-checks/src/human_agent_docs.rs:508-527 | violations are listed by path, by the first component that differs, and for one path by kind |
| DocScan.ListsInOrder | crates/dev-checks/src/human_agent_docs.rs:399-416 | sources are listed by path, links by target and then path |
| Sorting.PathLeIff | crates/dev-checks/src/human_agent_docs.rs:525-527 | the order of paths: a directory before what is in it, otherwise by the first component that differs |
| DocScan.SourceMeans | crates/dev-checks/src/human_agent_docs.rs:361-368 | a source is where an AGENTS document resolves to that is not a symlink, or is one to a README |
| DocScan.DisplayMeans | crates/dev-checks/src/human_agent_docs.rs:602-606 | a target inside the root is shown relative to it, any other as it is |
| DocScan.SourceIsShown | crates/dev-checks/src/human_agent_docs.rs:361-368 | every effective source has a path to show |
| DocScanRun.NoteKeeps | crates/dev-checks/src/human_agent_docs.rs:268-340 | one more document keeps what the maps, sets, counter and violations say about those walked |
| DocScanRun.Walk | crates/dev-checks/src/human_agent_docs.rs:238-340 | fails exactly on a README or AGENTS document that does not resolve, except an AGENTS symlink, or on a CLAUDE symlink without a canonical location; otherwise describes all documents |
| DocScanRun.ResolvedGoesOn | crates/dev-checks/src/human_agent_docs.rs:271-325 | a document that resolves, or a CLAUDE document whose own place does, never ends the scan |
| DocScanRun.BuildSources | crates/dev-checks/src/human_agent_docs.rs:361-368 | each source is shown by the first directory that has it |
| DocScanRun.SourcesMean | crates/dev-checks/src/human_agent_docs.rs:361-368 | the sources built are exactly the effective sources |
| DocScanRun.NoAgentsPass | crates/dev-checks/src/human_agent_docs.rs:342-348 | the pass finds exactly the READMEs without a colocated AGENTS |
| DocScanRun.NotReadmePass | crates/dev-checks/src/human_agent_docs.rs:350-359 | the pass finds exactly the AGENTS symlinks that lead to no scanned README |
| DocScanRun.NotSourcePass | crates/dev-checks/src/human_agent_docs.rs:370-382 | the pass finds exactly the CLAUDE symlinks that lead to no source |
| DocScanRun.NoClaudePass | crates/dev-checks/src/human_agent_docs.rs:384-390 | the pass finds exactly the sources without a CLAUDE symlink |
| DocScanRun.SourcesPass | crates/dev-checks/src/human_agent_docs.rs:392-399 | the sources listed are exactly the effective sources, each shown once |
| DocScanRun.LinksPass | crates/dev-checks/src/human_agent_docs.rs:401-416 | the links listed are exactly the CLAUDE symlinks to sources |
| DocScanRun.Scan | crates/dev-checks/src/human_agent_docs.rs:218-426 | fails exactly on such a document; otherwise its report is the declarative one |
| RunnerLog.Storage.PersistLog | crates/runner/src/execution.rs:347-365 | a stored log is never replaced, is stored whole and within its limit or not at all, and never for a job that ran out of capacity; which error there is |
| RunnerLog.Storage.FinishJob | crates/runner/src/execution.rs:323-345 | success exactly when the job ran, the key was free, the log fitted and was stored, and cleanup worked; every other outcome by its causes: redacted or uncleaned failures are runner errors, capacity errors surface exactly when neither, storage errors as far as they are told apart |
| RunnerLog.NextSound | crates/runner/src/execution.rs:323-345 | every step of any attempt keeps the invariant on stored log and outcomes |
| RunnerLog.AlwaysSound | crates/runner/src/execution.rs:323-345 | every interleaving of attempts keeps it |
| RunnerLog.AtMostOneSucceeds | crates/runner/src/execution.rs:323-365 | of attempts sharing a log key at most one succeeds |
| RunnerLog.SuccessMeans | crates/runner/src/execution.rs:323-345 | success means that this attempt's log is stored, and stays so, and that its workspace was cleaned |
| RunnerLog.CapacityLeavesKeyFree | crates/runner/src/execution.rs:388-417 | attempts that ran out of capacity never occupy the key |
| RunnerLog.RetryAfterCapacity | crates/runner/src/execution.rs:388-417 | a retry after only such attempts succeeds exactly when it would with a fresh key |
| StreamLimits.OutputBuffer.AppendBounded | ops/src/support.rs:276-293 | changes buffer and flag as the value function says |
| StreamLimits.OutputBuffer.WorkerAppendBounded | backend/worker/src/host_probe.rs:341-353 | changes buffer and flag as the worker's value function says |
| StreamLimits.AppendCaptures | ops/src/support.rs:276-293 | appending a chunk to the capture of a stream gives the capture of the longer stream |
| StreamLimits.CapturedCaptures | ops/src/support.rs:276-293 | a capture is the first min(limit, total) bytes and a flag that says whether there were more |
| StreamLimits.ReadBounded | ops/src/support.rs:249-273 | for every chunking, the first min(limit, total) bytes, and a flag set exactly when more came |
| StreamLimits.WorkerCorrectIff | backend/worker/src/host_probe.rs:341-353 | the worker's variant is right exactly when nothing was dropped or the last chunk is nonempty |
| StreamLimits.ReadBoundedOutput | backend/worker/src/host_probe.rs:134-155 | its process-output loop is always right |
| StreamLimits.CollectProbeLogs | backend/worker/src/host_probe.rs:302-329 | its container-log loop has the right bytes, and the right flag exactly under that condition |
| StreamLimits.EmptyFrameHidesTruncation | backend/worker/src/host_probe.rs:302-329 | an empty frame after the cut clears the flag |
| StreamLimits.OneLine | crates/dev-checks/src/large_files.rs:475-497 | taking one line off the front lowers the newline-based count by one |
| StreamLimits.LineCountIs | crates/dev-checks/src/large_files.rs:499-509 | the number of lines is the number of positions of byte 10, and one more if the last byte is another |
| StreamLimits.CountLines | crates/dev-checks/src/large_files.rs:475-509 | the reader loop and the newline formula agree on every byte string, overflow included |
| StreamLimits.ScanTree | crates/dev-checks/src/large_files.rs:276-345 | the tree scan reports what its files have, or fails exactly on a count that does not fit |
| StreamLimits.ScanBlobs | crates/dev-checks/src/large_files.rs:348-385 | the staged-blob scan reports the same for the same files |
| StreamLimits.ScanPartition | crates/dev-checks/src/large_files.rs:285-345 | a source file is listed as oversized, as watched or not at all by its lines; both lists are strictly ordered, most lines first and then by path, and hold nothing else; the number scanned is that of source files |
| StreamLimits.ScanIgnoresOrder | crates/dev-checks/src/large_files.rs:461-468 | the report does not depend on the order in which files are met |

## Left out

- SHA-256 and JSON: a digest is a function of the bytes fed; the manifest encoding is an arbitrary injective function and slot metadata an arbitrary encoding with a parser that undoes it.
- ReviewWalk.HashPublicTree: does not model files that change during the walk, because the digest is promised for an unchanging tree.
- StoragePreparation.Host.EnsureActiveMount: does not model a mount that the run makes itself, because unmounting during rollback changes what later paths refer to.
- StoragePreparation.Host.Prepare: assumes, for the same reason, that the mounts of the plan are already active.
- StoragePreparation.Host.ApplyAction: models XFS projects, quotas, ownership and modes as the commands that are issued, not as state of the file system.
- StoragePreparation.Host.Rollback: does not model input and output of the rollback itself that fails, which the code ignores.
- Interruption by a signal inside one file operation, torn JSONL lines, clocks, sleeps and poll timeouts.
- BackupCopy.Copier.SettleObject: compares contents where the code compares length and SHA-256, and leaves out the temporary files.
- BackupCopy.DryRunPredicts: this and the other statements about dry runs are for objects whose length fits a signed 64-bit number, as every upload needs.
- Listing and pagination of source keys: the listed keys are a parameter of the copy loop.
- Submitter.Run.Submit: does not model overflow of the counters, or notes, solution paths and time stamps of records.
- DocScanRun.Scan: takes the documents that the walk delivers, each met once; the ignore rules and the submodule filter are not modelled.
- SlotChecker.CheckSlots: takes the answers of the quota and write probes as parameters.
- SlotChecker.PrepareThenCheck: assumes what StoragePreparation.Host.Prepare assumes.
- StorageKey.ValidateStorageKey: works on Unicode characters where the code works on UTF-8 bytes; every byte it tests for is ASCII.
- The bodies of evaluation phases in the runner, and the storage backends beyond their create-only behaviour.
- Cancellation flags of the two repository scans.
- API handlers, router, web frontend, CLI and environment parsing, report printing: plumbing.
- `crates/config` constant tables and mode enums: finite.
- Challenge-bundle and zip validators: conjunctions of independent checks.
- Compose, rehearsal, local development and publishing orchestration: easy set bookkeeping.
