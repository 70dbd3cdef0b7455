# Verification of the catapult tools

The Android app of this repository is a shell; its logic lives in the catapult
Python tools it carries. This Dafny project models the parts of them whose
correctness is hard to see and proves what they promise. `dafny verify
dfyconfig.toml` checks everything.

## What is modelled

**Downloads** (`PseudoLock`, `OneDownload`, `FetchTimestamp`). `_FileLock`
creates, locks, unlocks and unlinks a lock file per download path, each step
under a global lock that is never waited for. `PseudoLock` is a state machine
over the single system calls of any number of clients with failures and crashes
anywhere; `OneDownload` runs `GetIfHashChanged` inside it. `FetchTimestamp` is
`GetIfChanged` with its time stamp shortcut.

**Uploads** (`UploadLog`, `UploadContent`, `Uploader`, `BaseConfig`). A batch of uploads with
backups, undone in reverse order on any failure, and a configuration file that
is written last. `UploadLog` gives the effect on the store as functions; the
classes are proved against them.

**Command line flags** (`FlagQuoting`, `FlagChanger`). A printer and a
hand-written parser that undo each other, and a stack of flag sets mirrored in a
file on the device together with an SELinux mode.

**Module graphs** (`ModuleGraph`, `LoadOrder`, `LoadAnyOrder`, `DependentFiles`,
`ClosureCache`, `ResourceLoader`, `LoaderRuns`, `LoaderExact`). The memoising loader, the
depth-bounded topological sort, the transitive closure that is cached while
loading is under way, and the walk over dependent files, on cyclic graphs too.

**Text and merging** (`StripComments`, `CmdOutput`, `ShellSnippet`, `LocalPaths`,
`DependencyManager`, `Ports`). Comment stripping, line splitting of chunked
output, command shrinking against an evaluator of shell quoting, precedence of
local paths, and the port allocator as a state machine over processes.

Loops and objects that the source updates are methods and classes; each is
proved against a specification function, and the theorems are about those
functions. Protocols between processes are state machines over single steps.

## Where the code does less than one would think

Each of these is a theorem. Conditions given as exact hold for all inputs, in both
directions.

- A failed download can leave a new time stamp beside an old binary, and later
  calls then return it as fresh; exactly when is `RaisedCallIsHarmlessIff`.
- Two forced uploads to one object share a backup, and rollback loses the
  original. A forced batch can always be undone exactly when its targets differ
  (`AlwaysRestoresIff`).
- Uploaders that were rolled back all share one backup key and still remember a
  backup. So a second failing try can leave one object in place of another
  (`UsedUploadersLoseContent`), and even a single uploader can put a stale object
  over its target (`StaleBackupLosesContent`). A batch is harmless exactly when the
  same hash is expected at targets that share a backup and the old backups that a
  rollback can reach before they are written anew are good (`StaysGenuineIff`).
  Runs without a failed forced batch never get there (`Run`).
- A dirty configuration with nothing pending is reported as executed and not
  written (`ExecuteUpdateJobs`). An interrupt right after the writing is harmless
  exactly when the batch brought no object that the file names
  (`LateRollbackIff`).
- Remote paths tell dependencies, folders and digests apart as long as no dependency
  has a slash in its name (`RemotePathTellsAll`, `SlashesMixUp`).
- A job for a dependency with an empty bucket raises after its hash has been
  recorded (`AddJob`), because the bucket is checked later than the hash is set.
- Exactly the lists without empty flags and without flags ending in a backslash
  survive (`RoundTripIff`, `FileRoundTripIff`), and exactly the files without the
  latter can be restored (`FileIsRestorableIff`).
- The loop detection raises for long chains without a loop, depending on order
  (`FalseAlarm`, `RootOrderMatters`). It is safe in every order exactly when no
  chain from a root is longer than 32 imports (`LoadsInAnyOrderIff`).
- The check for the base module can raise wrongly on cyclic imports, even for a
  module that lists it (`OwnImportIsMissed`); importing it first always helps
  (`LoadReturns`).
- A chunk boundary between a carriage return and a newline adds an empty line,
  and nothing else makes a difference (`StreamingIsBatchIff`).
- Without a port that can be bound up to 65535 the allocator returns 65536, since
  the exception of the last attempt is swallowed with the number kept
  (`ResultIsValidIff`). Its documentation promises 0 for that case.

## Model

| member | source | states |
|---|---|---|
| PseudoLock.StepKeepsInv | systrace/catapult/common/py_utils/py_utils/cloud_storage.py:291-335 | every single open, flock, unlock, close or unlink, every failure and every crash keeps the invariant: only the holder of the global lock is in the guarded block, and an owner of a pseudo lock holds the flock of the file its path names now |
| PseudoLock.RunKeepsInv | systrace/catapult/common/py_utils/py_utils/cloud_storage.py:281-335 | any interleaving of any number of clients keeps that invariant |
| PseudoLock.MutualExclusion | systrace/catapult/common/py_utils/py_utils/cloud_storage.py:249-279 | in every reachable state at most one client is between acquiring and releasing the lock of a path, and the inode it locked is the one the path names |
| PseudoLock.ContentionIsReal | systrace/catapult/common/py_utils/py_utils/cloud_storage.py:299-308 | an acquirer finds the pseudo lock taken if and only if some client owns the lock of that very path; a stale file never blocks |
| PseudoLock.GuardRankDecreases | systrace/catapult/common/py_utils/py_utils/cloud_storage.py:291-335 | each step of the client in the guarded block, failures included, brings it nearer to leaving |
| PseudoLock.GuardIsShort | systrace/catapult/common/py_utils/py_utils/cloud_storage.py:295-298 | the holder of the global lock frees it within four operations of its own, whichever way they go |
| PseudoLock.ReleaserCanFinish | systrace/catapult/common/py_utils/py_utils/cloud_storage.py:311-335 | a releaser that finds the global lock free completes the release by its own steps alone |
| PseudoLock.AlwaysAcquirable | systrace/catapult/common/py_utils/py_utils/cloud_storage.py:291-335 | no deadlock: from every reachable state, crashes included, at most fifteen faultless operations give an idle client the lock of any path |
| PseudoLock.GuardIsNeeded | systrace/catapult/common/py_utils/py_utils/cloud_storage.py:254-267 | without the global lock the interleaving that the source describes is reachable and gives two clients the lock of one path |
| PseudoLock.GuardingKeepsInv | systrace/catapult/common/py_utils/py_utils/lock.py:36-65 | taking the global flock, possible only while nobody has it, keeps the invariant |
| PseudoLock.LosingLocksKeepsInv | systrace/catapult/common/py_utils/py_utils/lock.py:50-57 | closing descriptors, by a crash or a release that timed out, drops the locks without breaking the invariant |
| PseudoLock.DescriptorsKept | systrace/catapult/common/py_utils/py_utils/cloud_storage.py:291-335 | only opening and closing change the descriptor a client has for the pseudo lock file, so failed attempts and releases keep it until they close it |
| OneDownload.StepKeepsInv | systrace/catapult/common/py_utils/py_utils/cloud_storage.py:400-405 | each lock operation and each step of a body keeps what is known of the file, of the one download and of the returns so far |
| OneDownload.RunKeepsInv | systrace/catapult/common/py_utils/py_utils/cloud_storage.py:400-405 | the body of a call is entered and left under the lock over every interleaving with other calls |
| OneDownload.OneDownloadForAll | systrace/catapult/common/py_utils/py_utils/cloud_storage.py:389-405 | for any number of callers at most one download is moved into place, at most one call returns True, and each return finds a file with the wanted hash, crashes and timeouts included |
| OneDownload.NoNeedlessDownload | systrace/catapult/common/py_utils/py_utils/cloud_storage.py:401-403 | a file that has the wanted hash is never replaced |
| OneDownload.OneTrueIff | systrace/catapult/common/py_utils/py_utils/cloud_storage.py:401-405 | when all calls are over, none by a crash, a download was moved into place if and only if a call returned True, and, once any call has returned, if and only if the file did not match at the start |
| OneDownload.CallReturns | systrace/catapult/common/py_utils/py_utils/cloud_storage.py:400-405 | a call that has the lock can go on alone to return True with the downloaded file in place if the file did not match, and False with the file untouched if it did |
| FetchTimestamp.LocalFiles.GetIfChanged | systrace/catapult/common/py_utils/py_utils/cloud_storage.py:419-464 | the writes leave the state of the specification function Called; a return that did hash leaves binary and .sha1 in agreement and the stamp at the current time |
| FetchTimestamp.CallMeaning | systrace/catapult/common/py_utils/py_utils/cloud_storage.py:428-464 | False exactly when nothing had to be fetched, True exactly when what was fetched has the wanted hash; only a fetch that arrives replaces the binary, and the stamp is dropped only for a wrong one |
| FetchTimestamp.TrustStep | systrace/catapult/common/py_utils/py_utils/cloud_storage.py:439-464 | an event keeps the shortcut truthful if and only if it is not a failed download that leaves a new stamp beside an old binary |
| FetchTimestamp.ShortcutIsSound | systrace/catapult/common/py_utils/py_utils/cloud_storage.py:428-445 | over any chronological run without such a failure every normal return with a .sha1 file leaves a binary with its hash, the returns that never hash included |
| FetchTimestamp.RaisedCallIsHarmlessIff | systrace/catapult/common/py_utils/py_utils/cloud_storage.py:451-456 | after a call that raises, every continuation stays sound if and only if the download did not fail with a binary present and an older .sha1 |
| FetchTimestamp.PoisonPersists | systrace/catapult/common/py_utils/py_utils/cloud_storage.py:444-445 | a stale binary behind the shortcut is never repaired by further calls |
| FetchTimestamp.StrictComparisonIsNeeded | systrace/catapult/common/py_utils/py_utils/cloud_storage.py:444-445 | a run shows equal times with a binary that no longer matches, so the comparison has to be strict |
| Uploader.CloudStorageUploader.constructor | systrace/catapult/dependency_manager/dependency_manager/uploader.py:17-33 | a fresh uploader has changed nothing and backs up to its target with .old appended |
| Uploader.CloudStorageUploader.Upload | systrace/catapult/dependency_manager/dependency_manager/uploader.py:35-76 | completes as the store function Uploaded, raises a conflict only for an unforced existing target without changing anything, and on a store error has done nothing or only the backup copy, which it remembers |
| Uploader.CloudStorageUploader.Rollback | systrace/catapult/dependency_manager/dependency_manager/uploader.py:78-100 | a rollback that returns does what RolledBack says for what the uploader remembers; one that raises changes nothing; the backup path is forgotten but not that a backup was made |
| UploadLog.UndoStep | systrace/catapult/dependency_manager/dependency_manager/uploader.py:90-100 | undoing the latest item takes the store back to the one before that item, outside the backup keys |
| UploadLog.RollbackRestores | systrace/catapult/dependency_manager/dependency_manager/base_config.py:296-308 | wherever a batch of fresh uploads stops, the reverse loop succeeds and gives back every key outside the written backups, if the backup keys in use are apart |
| UploadLog.StoppedBatchRestores | systrace/catapult/dependency_manager/dependency_manager/base_config.py:296-308 | the same from a condition known before the batch: uploads are not forced, or all backup keys differ from one another and from the targets |
| UploadLog.AlwaysRestoresIff | systrace/catapult/dependency_manager/dependency_manager/base_config.py:296-308 | with backup keys as the constructor makes them, none of them a target, a forced batch is undone from every store and every place to stop if and only if no two uploads have the same target |
| UploadLog.RepeatedTargetLoses | systrace/catapult/dependency_manager/dependency_manager/uploader.py:29-31 | two forced uploads to one existing object share a backup key, and rolling back, in any batch around them, leaves the first upload in place of the original |
| UploadLog.SharedBackupLosesOriginal | systrace/catapult/dependency_manager/dependency_manager/base_config.py:306-307 | the loss can be silent: the whole rollback succeeds |
| UploadLog.UndoneInFull | systrace/catapult/dependency_manager/dependency_manager/base_config.py:306-307 | a rollback that fails for no other reason than a missing object does not fail at all after a fresh batch |
| UploadLog.UploadedToStores | systrace/catapult/dependency_manager/dependency_manager/base_config.py:298-299 | after a batch with separate targets each target holds its source |
| UploadLog.UploadedToFrame | systrace/catapult/dependency_manager/dependency_manager/base_config.py:298-299 | a batch changes no key but its targets and backups |
| BaseConfig.BackedMeansPresent | systrace/catapult/dependency_manager/dependency_manager/base_config.py:298-301 | once all pending targets exist, the configuration in memory names no missing object |
| BaseConfig.BackedWithHash | systrace/catapult/dependency_manager/dependency_manager/base_config.py:257-266 | recording a new hash keeps every unsaved hash covered by an upload if and only if that hash is on disk or has an upload to its own remote path |
| BaseConfig.UploadsStayHarmless | systrace/catapult/dependency_manager/dependency_manager/uploader.py:51-76 | an upload that replaced nothing went where the configuration on disk names nothing, so a later delete is harmless |
| BaseConfig.RolledBackKeepsNamed | systrace/catapult/dependency_manager/dependency_manager/uploader.py:90-100 | such a rollback removes no object that the configuration on disk names |
| BaseConfig.BaseConfig.AddNewDependency | systrace/catapult/dependency_manager/dependency_manager/base_config.py:193-202 | raises for a read-only configuration or a known dependency and otherwise adds it with no platforms |
| BaseConfig.BaseConfig.SetDownloadPath | systrace/catapult/dependency_manager/dependency_manager/base_config.py:204-211 | raises for a read-only configuration or unknown dependency, and changes nothing but the download path |
| BaseConfig.DownloadPathRecorded | systrace/catapult/dependency_manager/dependency_manager/base_config.py:208-211 | the path is recorded in its own field of the one pair, which may be new, and nothing else changes |
| BaseConfig.HashRecorded | systrace/catapult/dependency_manager/dependency_manager/base_config.py:255-257 | the hash, and the version when one is given, are recorded in their fields of the one pair, and nothing else changes |
| BaseConfig.HasInfoIff | systrace/catapult/dependency_manager/dependency_manager/base_config.py:343-356 | a pair has information exactly when its dictionary has some field |
| BaseConfig.BaseConfig.JobAcceptedIff | systrace/catapult/dependency_manager/dependency_manager/base_config.py:358-376 | a job passes the checks exactly for a writable configuration with information for the pair, an existing file, and no unsaved change when it is to be executed |
| BaseConfig.BaseConfig.AddJob | systrace/catapult/dependency_manager/dependency_manager/base_config.py:252-266 | an accepted job records the hash in memory and appends one fresh upload to exactly its remote path, with its backup beside it; an empty bucket raises with the hash recorded, which breaks the invariant unless the hash is on disk |
| BaseConfig.BaseConfig.AddCloudStorageDependencyUpdateJob | systrace/catapult/dependency_manager/dependency_manager/base_config.py:213-268 | a rejected job changes nothing, an accepted one is recorded, and an executed one is recorded and then uploaded and written or rolled back; one that returns has disk and memory equal; the invariant stays |
| BaseConfig.BaseConfig.RunBatch | systrace/catapult/dependency_manager/dependency_manager/base_config.py:297-308 | either everything is uploaded, written and cleared, or nothing on disk changes, or an interrupt falls after the writing; in the last two cases the store is what some place to stop and some partial rollback leave, and fresh uploads are undone outside the backups |
| BaseConfig.BaseConfig.ExecuteUpdateJobs | systrace/catapult/dependency_manager/dependency_manager/base_config.py:270-309 | returns False exactly for a clean configuration; a return has disk and memory equal if and only if the configuration was clean or uploads were pending, so dirty with nothing pending returns True unwritten; a raise keeps the pending uploads and leaves disk as it was, or written for a late interrupt; objects keep their named hashes, and stay ready to keep them unless a forced batch fails |
| BaseConfig.BaseConfig.Run | systrace/catapult/dependency_manager/dependency_manager/base_config.py:213-309 | any sequence of operations is a run of steps as Effect describes them, whatever fails in them and in their rollbacks; after it every hash on disk has its object at its remote path, and if the objects have the named hashes at the start, they keep having them until something is done after a forced batch has failed |
| BaseConfig.BaseConfig.CleanIsReady | systrace/catapult/dependency_manager/dependency_manager/base_config.py:213-309 | in the states of such a run the pending uploads bring what disk and memory expect, share no backup and can be undone without harm |
| BaseConfig.PlainJobsAreSound | systrace/catapult/dependency_manager/dependency_manager/uploader.py:29-33 | uploads whose targets tell their digests and that have taken no backup meet the condition under which a failed batch keeps all contents |
| BaseConfig.LateRollbackIff | systrace/catapult/dependency_manager/dependency_manager/base_config.py:300-307 | an interrupt after the file is written but before the pending list is cleared is harmless if and only if every object that the file names was in the store before the batch |
| BaseConfig.LateRollbackDangles | systrace/catapult/dependency_manager/dependency_manager/base_config.py:300-307 | so it leaves a dangling hash for any object that the batch brought |
| BaseConfig.RemotePathTellsHash | systrace/catapult/dependency_manager/dependency_manager/base_config.py:379-383 | the remote path of a digest determines the digest, and no backup path is the remote path of one |
| BaseConfig.RemotePathTellsAll | systrace/catapult/dependency_manager/dependency_manager/base_config.py:379-383 | for dependencies without a slash the remote path determines folder, dependency and digest |
| BaseConfig.RemoteKeyTellsAll | systrace/catapult/dependency_manager/dependency_manager/base_config.py:259-266 | so uploads for different dependencies, folders, buckets or digests never share a target |
| BaseConfig.SlashesMixUp | systrace/catapult/dependency_manager/dependency_manager/base_config.py:379-383 | with a slash in the dependency they can |
| BaseConfig.AddedJobIsHonest | systrace/catapult/dependency_manager/dependency_manager/base_config.py:254-266 | the upload of a job brings what any configuration of digests expects at its remote path |
| UploadContent.FailedBatchKeepsContent | systrace/catapult/dependency_manager/dependency_manager/base_config.py:302-307 | wherever a batch and its rollback stop, every named object keeps its hash, if the same is expected at targets that share a backup and the backups taken before are good |
| UploadContent.StaysGenuineIff | systrace/catapult/dependency_manager/dependency_manager/base_config.py:296-308 | whatever the uploaders remember from earlier tries, every place to stop a forced batch leaves each named object its hash if and only if the same hash is expected at targets that share a backup and each old backup is good that a rollback can reach before this try writes it anew |
| UploadContent.SoundStaysGenuineIff | systrace/catapult/dependency_manager/dependency_manager/base_config.py:296-308 | when the old backups are good, sharing between targets with different hashes is the only danger and always one |
| UploadContent.AlwaysGenuineIff | systrace/catapult/dependency_manager/dependency_manager/base_config.py:296-308 | for fresh uploads, which have no old backups, every store and every place to stop keep the hashes if and only if the same hash is expected at targets that share a backup |
| UploadContent.FullBatchIsGenuine | systrace/catapult/dependency_manager/dependency_manager/base_config.py:298-300 | after a whole batch the configuration to be written finds every object with its hash |
| UploadContent.FreshBatchIsSound | systrace/catapult/dependency_manager/dependency_manager/uploader.py:29-33 | fresh uploaders meet the condition of FailedBatchKeepsContent |
| UploadContent.UsedUploadersLoseContent | systrace/catapult/dependency_manager/dependency_manager/uploader.py:91-95 | input for the first half of StaysGenuineIff: two uploaders that were rolled back share a backup key, and a second failing try leaves one object in place of the other |
| UploadContent.StaleBackupLosesContent | systrace/catapult/dependency_manager/dependency_manager/uploader.py:90-95 | input for its second half: a single uploader that was rolled back puts the object that an earlier try left at its backup key over its target |
| FlagQuoting.ParseFlags | systrace/catapult/devil/devil/android/flag_changer.py:252-280 | the loop reads the tokens of the specification, whose meaning is ParsedIsTexts, never looks at the last character of an empty flag, and returns no empty flag |
| FlagQuoting.ParsedIsTexts | systrace/catapult/devil/devil/android/flag_changer.py:252-280 | any line spelled from bare and quoted pieces, in quotes of either kind with escapes and with any blanks between words, gives the texts of the words but for the first |
| FlagQuoting.OpenQuoteTakesRest | systrace/catapult/devil/devil/android/flag_changer.py:274-277 | a quote of either kind that is never closed takes in the rest of the line |
| FlagQuoting.TokensNotEmpty | systrace/catapult/devil/devil/android/flag_changer.py:257-272 | no reachable state of the parser holds an empty current flag |
| FlagQuoting.QuotedSteps | systrace/catapult/devil/devil/android/flag_changer.py:259-264 | reading a text in escaped quotes of either kind gives the text, unless a backslash at its end swallows the closing quote |
| FlagQuoting.QuoteFlagSteps | systrace/catapult/devil/devil/android/flag_changer.py:303-328 | a good flag is read back from its quoted form, as a bare word, a quoted whole or a key with a quoted value |
| FlagQuoting.QuoteFlagForms | systrace/catapult/devil/devil/android/flag_changer.py:303-328 | a flag is printed as it is, with a quoted value or quoted as a whole, exactly as the letters, digits, underscores and hyphens of key and value decide |
| FlagQuoting.RoundTrip | systrace/catapult/devil/devil/android/flag_changer.py:252-328 | printing and then parsing gives the same list for all flags that are not empty and do not end in a backslash |
| FlagQuoting.BackslashIsLost | systrace/catapult/devil/devil/android/flag_changer.py:321 | the first flag that ends in a backslash is read back as something else, whatever follows it |
| FlagQuoting.RoundTripIff | systrace/catapult/devil/devil/android/flag_changer.py:252-328 | exactly the lists without empty flags and without a final backslash survive |
| FlagChanger.StrippedIs | systrace/catapult/devil/devil/android/flag_changer.py:97-101 | stripping the line takes away the blanks at its ends and nothing else |
| FlagChanger.FileRoundTripIff | systrace/catapult/devil/devil/android/flag_changer.py:97-102 | flags written to the file are the flags read from it if and only if none is empty or ends in a backslash; the stripping in between does no harm |
| FlagChanger.FileIsRestorableIff | systrace/catapult/devil/devil/android/flag_changer.py:97-105 | what is found in a file can be written back if and only if no flag in it ends in a backslash |
| FlagChanger.FileHoldsSet | systrace/catapult/devil/devil/android/flag_changer.py:224-228 | in whatever order a set of good flags is written, the file holds that set, and there is no file for the empty set |
| FlagChanger.BalancedRestores | systrace/catapult/devil/devil/android/flag_changer.py:108-178 | a balanced segment of changes and restores gives back the stack it started from |
| FlagChanger.BalancedIff | systrace/catapult/devil/devil/android/flag_changer.py:108-216 | from the bottom state exactly the balanced sequences of operations are possible and end there |
| FlagChanger.FlagChanger.constructor | systrace/catapult/devil/devil/android/flag_changer.py:86-87 | the stack starts with the flags in the file |
| FlagChanger.FlagChanger.GetCurrentFlags | systrace/catapult/devil/devil/android/flag_changer.py:89-106 | returns the flags in the file and makes them the top of the stack |
| FlagChanger.FlagChanger.ReplaceFlags | systrace/catapult/devil/devil/android/flag_changer.py:108-124 | pushes what the file then holds, which is the given set when its flags are good, and lowers SELinux where needed |
| FlagChanger.FlagChanger.PushFlags | systrace/catapult/devil/devil/android/flag_changer.py:158-178 | the new top is the old one with the added flags and then without the removed ones |
| FlagChanger.FlagChanger.AddFlags | systrace/catapult/devil/devil/android/flag_changer.py:126-137 | the new top is the old one with the added flags |
| FlagChanger.FlagChanger.RemoveFlags | systrace/catapult/devil/devil/android/flag_changer.py:139-156 | the new top is the old one without the removed flags |
| FlagChanger.FlagChanger.RestoreFlags | systrace/catapult/devil/devil/android/flag_changer.py:203-216 | raises on the bottom state without changing anything; otherwise uncovers the state below and, on the bottom, restores the SELinux mode |
| FlagChanger.FlagChanger.UpdateCommandLineFile | systrace/catapult/devil/devil/android/flag_changer.py:218-234 | the file mirrors the top of the stack, and is absent for no flags |
| FlagChanger.FlagChanger.SetPermissive | systrace/catapult/devil/devil/android/flag_changer.py:180-195 | lowers the mode exactly on a rooted device from Nougat on that is enforcing, and remembers having done so |
| FlagChanger.FlagChanger.ResetEnforce | systrace/catapult/devil/devil/android/flag_changer.py:197-201 | puts the mode back exactly when it was lowered here |
| FlagChanger.FlagChanger.Run | systrace/catapult/devil/devil/android/flag_changer.py:89-234 | over any run with good flags the set in the file is the top of the stack machine, and a run that ends on the bottom state restores the original SELinux mode |
| FlagChanger.FlagChanger.RunBalanced | systrace/catapult/devil/devil/android/flag_changer.py:89-234 | a balanced run restores the flags in the file and the stack |
| FlagChanger.UnrestorableFile | systrace/catapult/devil/devil/android/flag_changer.py:97-105 | a flag ending in a backslash can be read from a file and not be written back |
| LoadOrder.ComputeLoadSequenceRecursive | systrace/catapult/common/py_vulcanize/py_vulcanize/module.py:203-222 | the recursion fills list and set as the specification Load does, raising at the same calls |
| LoadOrder.CalcLoadSequenceForModules | systrace/catapult/common/py_vulcanize/py_vulcanize/project.py:151-156 | a return lists exactly the modules reached from the roots, each once and after its imports; an exception means a chain of 33 imports |
| LoadOrder.LoadMeaning | systrace/catapult/common/py_vulcanize/py_vulcanize/module.py:212-222 | a visit keeps the sequence topological and adds exactly what the module reaches |
| LoadOrder.LoadFailure | systrace/catapult/common/py_vulcanize/py_vulcanize/module.py:212-218 | a visit that raises has followed a chain of imports to the depth limit |
| LoadOrder.LoadRootsMeaning | systrace/catapult/common/py_vulcanize/py_vulcanize/project.py:152-156 | the same for several roots sharing one visited set |
| LoadOrder.ImportsInListOrder | systrace/catapult/common/py_vulcanize/py_vulcanize/module.py:215-219 | imports are loaded in list order: what the first of them reach stands before what only the others reach |
| LoadOrder.RootsInListOrder | systrace/catapult/common/py_vulcanize/py_vulcanize/project.py:152-156 | so are the roots |
| LoadOrder.CycleAlwaysRaises | systrace/catapult/common/py_vulcanize/py_vulcanize/module.py:212-213 | a cycle reached from the roots always raises |
| LoadOrder.ShortChainsNeverRaise | systrace/catapult/common/py_vulcanize/py_vulcanize/module.py:212-213 | when no chain from the roots has more than 32 imports nothing raises |
| LoadOrder.FalseAlarm | systrace/catapult/common/py_vulcanize/py_vulcanize/module.py:212-213 | an acyclic chain of 33 imports raises |
| LoadOrder.RootOrderMatters | systrace/catapult/common/py_vulcanize/py_vulcanize/project.py:152-156 | the same chain loads when its second module comes first among the roots |
| LoadAnyOrder.LoadsInAnyOrderIff | systrace/catapult/common/py_vulcanize/py_vulcanize/module.py:212-218 | loading returns for every order of the roots and of each import list if and only if no chain of imports from a root is longer than 32 |
| LoadAnyOrder.DeepChainRaises | systrace/catapult/common/py_vulcanize/py_vulcanize/module.py:212-218 | a longer chain raises in the order that puts it first, or is a cycle and raises in every order |
| DependentFiles.GetAllDependentFilenamesRecursive | systrace/catapult/common/py_vulcanize/py_vulcanize/module.py:224-239 | the file names are those of each reachable module, module by module, each module once, on every graph |
| DependentFiles.Walk.Get | systrace/catapult/common/py_vulcanize/py_vulcanize/module.py:229-236 | the recursion visits in the order of the specification Visit |
| DependentFiles.VisitsReachableOnce | systrace/catapult/common/py_vulcanize/py_vulcanize/module.py:229-238 | the walk visits each reachable module exactly once, on cyclic graphs too |
| DependentFiles.VisitedInListOrder | systrace/catapult/common/py_vulcanize/py_vulcanize/module.py:233-236 | dependencies are walked in list order |
| ClosureCache.LoadedModules.AllDependentModulesRecursive | systrace/catapult/common/py_vulcanize/py_vulcanize/module.py:192-201 | the cached property ends on every graph with the caches of the specification Closure |
| ClosureCache.ClosureIsSound | systrace/catapult/common/py_vulcanize/py_vulcanize/module.py:197-201 | on any graph and at any stage of loading caches hold nothing but modules reached by one or more imports |
| ClosureCache.ClosureIsExact | systrace/catapult/common/py_vulcanize/py_vulcanize/module.py:197-201 | when the imports of a loaded module have exact closures, so has the module, and no other cache changes |
| ResourceLoader.Loader.LoadModule | systrace/catapult/common/py_vulcanize/py_vulcanize/resource_loader.py:111-143 | by name: the table, the number of modules made and success or failure are those of the specification Load |
| ResourceLoader.Loader.LoadHtmlModule | systrace/catapult/common/py_vulcanize/py_vulcanize/html_module.py:40-48 | the imports, then the closure, then the check for the base module |
| ResourceLoader.Loader.LoadImports | systrace/catapult/common/py_vulcanize/py_vulcanize/module.py:182-186 | the loop over the imports, stopping at the first exception |
| ResourceLoader.RegisterKeeps | systrace/catapult/common/py_vulcanize/py_vulcanize/resource_loader.py:128-129 | registering a name before loading its imports leaves fewer files to enter, which is why loading ends on every graph |
| ResourceLoader.MentionsIff | systrace/catapult/common/py_vulcanize/py_vulcanize/html_module.py:45 | the text test finds the words at any position of the contents, and nothing else |
| LoaderRuns.LoadShape | systrace/catapult/common/py_vulcanize/py_vulcanize/resource_loader.py:122-143 | every call, returning or raising, makes one Module for each new name, registers only what the requested module reaches, and leaves registered modules alone; on return the new ones have all their imports in order |
| LoaderRuns.LoadedOutermost | systrace/catapult/common/py_vulcanize/py_vulcanize/resource_loader.py:122-143 | after an outermost call the table holds what it held and exactly what the name reaches, with every dependency list as in the file |
| LoaderRuns.OneModulePerName | systrace/catapult/common/py_vulcanize/py_vulcanize/resource_loader.py:122-143 | after any outermost calls on a fresh loader there are as many Modules as names and the table is closed under imports |
| LoaderRuns.LoadTwice | systrace/catapult/common/py_vulcanize/py_vulcanize/resource_loader.py:122-124 | loading a name again changes nothing, and raises only for a file without contents |
| LoaderRuns.LoadReturns | systrace/catapult/common/py_vulcanize/py_vulcanize/resource_loader.py:111-143 | with resolvable imports and non-empty files, loading returns on every import graph if each exporting file imports the base module first, and so if no file exports |
| LoaderRuns.FinishChecks | systrace/catapult/common/py_vulcanize/py_vulcanize/html_module.py:43-48 | loading a file fails after its imports exactly when its contents mention tr.exportTo somewhere and its closure lacks the base module |
| LoaderRuns.LoadIsSound | systrace/catapult/common/py_vulcanize/py_vulcanize/html_module.py:43-48 | on every graph a return means that each newly loaded exporting module imports the base module |
| LoaderExact.LoadIsExact | systrace/catapult/common/py_vulcanize/py_vulcanize/html_module.py:40-48 | on acyclic imports a call made at any depth of loading returns if and only if each new module it reaches passes the base check, and settles their closures |
| LoaderExact.AcyclicLoadsAreExact | systrace/catapult/common/py_vulcanize/py_vulcanize/html_module.py:40-48 | on acyclic imports a fresh loader returns if and only if every reached exporting module imports the base module, and all cached closures are then exact |
| LoaderExact.CycleMissesBase | systrace/catapult/common/py_vulcanize/py_vulcanize/html_module.py:43-48 | on cyclic imports the check can raise although every exporting module imports the base module |
| LoaderExact.OwnImportIsMissed | systrace/catapult/common/py_vulcanize/py_vulcanize/html_module.py:43-48 | even a module that lists the base module itself is rejected when an earlier import imports it back |
| LoaderExact.LoadKeepsCache | systrace/catapult/common/py_vulcanize/py_vulcanize/module.py:194-195 | a cache that has been filled stays as it is, whatever is loaded later |
| StripComments.TokenizeJS | systrace/catapult/common/py_vulcanize/py_vulcanize/strip_js_comments.py:22-38 | the loop yields the tokens of the specification |
| StripComments.SearchIsLeftmost | systrace/catapult/common/py_vulcanize/py_vulcanize/strip_js_comments.py:23-28 | a token is found at the search result and at no place before it |
| StripComments.TokensConcatenate | systrace/catapult/common/py_vulcanize/py_vulcanize/strip_js_comments.py:22-38 | the tokens concatenate to the text |
| StripComments.StripJSComments | systrace/catapult/common/py_vulcanize/py_vulcanize/strip_js_comments.py:50-81 | the result is what one pass over the characters with a nesting counter keeps |
| StripComments.KeptIsStripped | systrace/catapult/common/py_vulcanize/py_vulcanize/strip_js_comments.py:50-81 | working on tokens and reading characters keep the same text, in every mode |
| StripComments.UnchangedIff | systrace/catapult/common/py_vulcanize/py_vulcanize/strip_js_comments.py:50-81 | stripping leaves a text alone if and only if reading it meets no comment |
| StripComments.StrippedIsCommentFree | systrace/catapult/common/py_vulcanize/py_vulcanize/strip_js_comments.py:50-81 | what is left holds no comment: joining the pieces makes no new comment token |
| StripComments.StrippingIsIdempotent | systrace/catapult/common/py_vulcanize/py_vulcanize/strip_js_comments.py:50-81 | stripping twice is stripping once |
| StripComments.NestedCommentVanishes | systrace/catapult/common/py_vulcanize/py_vulcanize/strip_js_comments.py:65-77 | a block comment with block comments nested to any depth vanishes as a whole, and nothing after it |
| StripComments.LineCommentVanishes | systrace/catapult/common/py_vulcanize/py_vulcanize/strip_js_comments.py:58-65 | a line comment vanishes with the end of its line, whatever it holds, and nothing after it |
| CmdOutput.IterCmdOutputLines | systrace/catapult/devil/devil/utils/cmd_helper.py:464-497 | the lines yielded are those of the output with every carriage return at the end of a chunk taken as a line end of its own |
| CmdOutput.SplitLinesMeaning | systrace/catapult/devil/devil/utils/cmd_helper.py:487 | the lines of a text are what stands between its line ends, a carriage return and a newline ending one line together, and what follows the last end if it is not empty |
| CmdOutput.TextHasLines | systrace/catapult/devil/devil/utils/cmd_helper.py:487 | every text is made up of lines in that way |
| CmdOutput.StreamingIsBatchIff | systrace/catapult/devil/devil/utils/cmd_helper.py:484-497 | the lines equal those of the whole output if and only if no chunk boundary falls between a carriage return and a newline; each such boundary adds one line |
| CmdOutput.StreamingKeepsText | systrace/catapult/devil/devil/utils/cmd_helper.py:484-497 | however the output is cut, the lines hold its text without the line ends, nothing lost or doubled |
| CmdOutput.LinesAreLines | systrace/catapult/devil/devil/utils/cmd_helper.py:487 | no line holds a line end |
| ShellSnippet.SingleQuoteReadsBack | systrace/catapult/devil/devil/utils/cmd_helper.py:30-45 | for every string the quoted form is one word of the shell, the string itself |
| ShellSnippet.UnquotedIff | systrace/catapult/devil/devil/utils/cmd_helper.py:45 | exactly the non-empty strings of characters that mean themselves to the shell go without quotes |
| ShellSnippet.SplitIsExact | systrace/catapult/devil/devil/utils/cmd_helper.py:90 | splitting takes out every occurrence of the value and nothing else |
| ShellSnippet.ReadShrunk | systrace/catapult/devil/devil/utils/cmd_helper.py:89-92 | a shrunk part is read back with whatever the variable is bound to in every place where the value stood |
| ShellSnippet.SnippetFollowsVariable | systrace/catapult/devil/devil/utils/cmd_helper.py:76-94 | with any binding of the variable the shell reads the snippet as the command with that binding in place of the value |
| ShellSnippet.SnippetRaisesIff | systrace/catapult/devil/devil/utils/cmd_helper.py:90-94 | it raises exactly for an empty value and at least one part |
| ShellSnippet.SnippetMeansCommand | systrace/catapult/devil/devil/utils/cmd_helper.py:76-94 | with the variable bound to the value, the shell reads the snippet as exactly the words of the command |
| LocalPaths.LocalPathInfo.GetLocalPath | systrace/catapult/dependency_manager/dependency_manager/local_path_info.py:25-39 | returns the path of the specification PathOf |
| LocalPaths.PathMeaning | systrace/catapult/dependency_manager/dependency_manager/local_path_info.py:25-39 | that is the first newest file of the first group with an existing file, and None only when no path exists |
| LocalPaths.LocalPathInfo.Update | systrace/catapult/dependency_manager/dependency_manager/local_path_info.py:46-63 | appends the other groups without paths known from groups before them |
| LocalPaths.MergeAddsTheRest | systrace/catapult/dependency_manager/dependency_manager/local_path_info.py:46-63 | the receiver's groups stay in front, no path of either side is lost, and the groups added are not empty and hold nothing listed before them |
| LocalPaths.MergeKeepsPrecedence | systrace/catapult/dependency_manager/dependency_manager/local_path_info.py:46-63 | on a fixed file system the merged choice is the receiver's, or else the argument's |
| LocalPaths.DependencyInfo.Update | systrace/catapult/dependency_manager/dependency_manager/dependency_info.py:35-59 | raises for another key or a second cloud storage, with the configuration paths already added; otherwise merges |
| LocalPaths.UpdatedMeaning | systrace/catapult/dependency_manager/dependency_manager/dependency_info.py:35-59 | configuration paths are appended in any case, what was known stays, and a rejected update changes nothing else |
| LocalPaths.UpdateKeepsPrecedence | systrace/catapult/dependency_manager/dependency_manager/dependency_info.py:56-59 | the same precedence for the information on a dependency |
| LocalPaths.DependencyInfo.GetLocalPath | systrace/catapult/dependency_manager/dependency_manager/dependency_info.py:92-100 | None without local information, else its choice |
| DependencyManager.DependencyManager.UpdateDependencies | systrace/catapult/dependency_manager/dependency_manager/manager.py:197-222 | an unsupported type raises; entries are added in order, each pair of dependency and platform keeping an object of its own |
| DependencyManager.DependencyManager.UpdateAll | systrace/catapult/dependency_manager/dependency_manager/manager.py:47-50 | the configurations are added in the order given |
| DependencyManager.DependencyManager.GetDependencyInfo | systrace/catapult/dependency_manager/dependency_manager/manager.py:225-245 | the entry for the platform, else the default one, else none |
| DependencyManager.DependencyManager.LocalPath | systrace/catapult/dependency_manager/dependency_manager/manager.py:133-158 | the chosen path, which then exists, or the error |
| DependencyManager.LocalPathIsFirstChoice | systrace/catapult/dependency_manager/dependency_manager/manager.py:133-158 | for any list of configurations the path is the first existing file among all the paths they list for the pair, in order; default counts only when no configuration names the platform |
| DependencyManager.BuildsIff | systrace/catapult/dependency_manager/dependency_manager/manager.py:47-50 | building succeeds if and only if all types are supported, all entries named and no pair has two cloud storages |
| DependencyManager.ConfigPathsAreListed | systrace/catapult/dependency_manager/dependency_manager/dependency_info.py:38 | an entry lists the files of all configurations for its pair, in order |
| Ports.PortFile.AllocateTestServerPort | systrace/catapult/devil/devil/android/ports.py:52-69 | the locked part of a call leaves the result and the file of the specification Allocated |
| Ports.PortFile.ResetTestServerPortAllocation | systrace/catapult/devil/devil/android/ports.py:36-39 | the file holds the first port and nothing else |
| Ports.ResultIsValidIff | systrace/catapult/devil/devil/android/ports.py:54-69 | a call returns 0 or a valid port if and only if some port from the stored one, or the first one without a file, to 65535 can be bound, and a valid port if and only if one up to 30000 can; it is the first such port and its successor is stored |
| Ports.UnreadableGivesNone | systrace/catapult/devil/devil/android/ports.py:56-57 | a file that holds no number gives no port and stays as it is |
| Ports.OverwriteIff | systrace/catapult/devil/devil/android/ports.py:68-69 | overwriting leaves no stale digit if and only if the new number has at least as many digits |
| Ports.ProbesFind | systrace/catapult/devil/devil/android/ports.py:60-62 | single probes of a process stop the search where the loop does |
| Ports.CallAllocates | systrace/catapult/devil/devil/android/ports.py:52-75 | the single steps of a call that nothing disturbs add up to the specification Allocated, whose file it leaves and whose result it gives |
| Ports.StepKeepsInv | systrace/catapult/devil/devil/android/ports.py:52-75 | every step of every process, crashes included, keeps results below the stored number |
| Ports.PortsIncrease | systrace/catapult/devil/devil/android/ports.py:45-83 | over every interleaving of any number of processes the non-zero results are valid and strictly increasing while some port can be bound |
| Ports.OnlyOverflowIsInvalid | systrace/catapult/devil/devil/android/ports.py:60-71 | the one other result is 65536, after a search that ran past the last port |
| Ports.FileIsANumber | systrace/catapult/devil/devil/android/ports.py:68-69 | the port file is missing, empty, or exactly one number from 10201 to 30001 |

## Left out

- PseudoLock.RunKeepsInv: the Windows branches of the lock are not modelled; closing the global file is one step with unlocking it, unlocking an open file does not fail, and nobody but the clients removes lock files.
- PseudoLock.AlwaysAcquirable: the time limits of waiting are not modelled; a client may try again or give up at any time.
- OneDownload.OneDownloadForAll: assumes that the remote object has the wanted hash, because GetIfHashChanged does not compare it after downloading.
- FetchTimestamp.ShortcutIsSound: times are exact reals, while the source prints the time with two decimals under Python 2, and only GetIfChanged writes the binary, as the source's own comment assumes.
- UploadLog.RollbackRestores: assumes fresh uploaders; after a rollback an uploader keeps remembering its backup but not where it is.
- Uploader.CloudStorageUploader.constructor: the ValueError for an empty bucket or remote path is a precondition here and a branch of AddJob, and local files do not go missing.
- BaseConfig.BaseConfig.Run: the configuration is written in one step, there is one writer, local files do not change between the job and its upload, buckets are not empty, and no interrupt falls between the writing and the clearing, for which LateRollbackIff gives the exact condition. The hashes of the objects are not stated for what is done after a forced batch has failed; for a batch from such a state StaysGenuineIff gives the exact condition.
- FlagChanger.FlagChanger.constructor: the checks of the file name and of root access and the removal of the alternate file are not modelled.
- FlagChanger.FlagChanger.Run: nobody else writes the device file, and device operations do not fail; the removal of the alternate command line file and log output are not modelled.
- DependentFiles.GetAllDependentFilenamesRecursive: the file names of a single module are a parameter, without images and inlined style sheets.
- ResourceLoader.Loader.LoadModule: modules are table entries under their names, so object identity is not captured; the import list of a file is given, and style sheets, raw scripts and lookup by file name are not modelled.
- ResourceLoader.Loader.LoadHtmlModule: loading the raw scripts after the check is not modelled.
- ResourceLoader.Loader.LoadImports: loading the style sheets after the imports is not modelled.
- LoaderExact.LoadIsExact: for cyclic imports only soundness is proved, because exactness is false there.
- StripComments.TokenizeJS: the generator is a list, and the regular expression a leftmost search.
- CmdOutput.IterCmdOutputLines: the iteration timeout, with which a chunk read too late is dropped, and the exit status are not modelled; lines are a list instead of a generator.
- ShellSnippet.SnippetMeansCommand: only quoting is evaluated, so assignments in front of a command, reserved words and aliases are not; DoubleQuote is not modelled.
- DependencyManager.DependencyManager.UpdateDependencies: configurations are typed and their entries given; path formatting and the errors of reading a configuration are not modelled, nor are FetchPath and PrefetchPaths.
- Ports.PortsIncrease: no process resets the port file meanwhile, since a reset repeats numbers, and writing the next number does not fail.
- Ports.PortFile.AllocateTestServerPort: a failing write of the next number, after which the port is returned all the same, is not modelled, and only plain digits are read, since signs and blanks never occur in the file.
- Ports.PortFile.ResetTestServerPortAllocation: does not fail; in the state machine its write may.
- JSON, gsutil and its retries, SHA-1, HTML parsing and the file system are parameters, abstract maps or uninterpreted functions.
- GetDepsGraphFromModules of project.py calls an undefined function and is not modelled.
- The tracing agents, battery, fastboot and forwarder tools, option parsing and presubmit scripts are device or interface plumbing.
- Small helpers such as camel case conversion or geometry would only add easy members.
