# Release, activation and text protocols, modelled and proved

A Dafny model of the parts of the repository that hold a protocol or a transformation which is easy to
get wrong, with proofs of what each promises. `dafny verify dfyconfig.toml` checks all of it.

- **Publishing a release** (`scripts/release/`). `Publication` is the publish script as a protocol: the
  request each phase sends, and where each reply leads, over a store (`ReleaseFeed`) in which every
  request may fault, a faulted write may have taken effect, and an upload may store other bytes than it
  was sent. A snapshot is kept of every request, so what holds of every snapshot holds wherever the
  script is killed. `Publisher` is the script itself, a class whose methods can only send the request
  the protocol sends next. `PublicationSafety`, `PublicationHistory`, `SplitPublication` and
  `DevNumbers` prove what holds over one run, over many runs, over concurrent jobs, and over the dev
  builds of a release line. `ReleaseTree` builds what is published.
- **Activating a version** (`crates/installer/src/active.rs`). `Activation` is the sequence of
  file-system calls, on POSIX and on Windows, each of which may fail or be the last before a kill or a
  power failure; `Installer` is the code, call by call; `ActivationSafety` proves what holds at every
  call from any disk, `ActivationCompletion` from which disks an activation completes, and
  `ActivationHistory` what holds over whole histories of activations.
- **Hoisting imports** (`apps/web/scripts/`). `HoistImports` is the worklist that widens the import lists
  of a bundle in place while later chunks walk through them; `ChunkGraph` has the paths, and
  `VendorChunks` the check that keeps library chunks apart.
- **Upgrade receipts** (`crates/installer/src/contract.rs`): `Receipts`, `RequestId`.
- **Sharded, resumable evaluation** (`benchmark/evolbench-collab/src/`): `EvalManifest` and `EvalWork`
  for what each shard plans, `EvalResume` for many processes appending to one file, killed and resumed,
  and `EvalProcess` for the code of one process, whose states are an execution of that machine.
- **Path rewriting** (`benchmark/skillsbench-collab/src/rewrite.ts`): `Scans`, `PathRules`, `Deletions`
  and `Literals` for one pass, `TestRules` for all of them, `Words` and `WordForms` for what fourteen
  passes make of a text word by word, `TestRewrite` and `RestOfPath` for the paths that are to come out
  right, `ExpectedPaths` for where the verifier looks, and `QuotedContents`, `LiteralReach` and
  `LiteralEffects` for what is left to the literal replacements.
- **Other parsers**: `ReminderArgs` and `ReminderGroups` (`packages/coforge/index.ts`),
  `DeploymentState` (`scripts/deploy/deployment.ts`), `SeedSequences`
  (`apps/web/scripts/seed-dev-time.ts`).

Where the source updates something in place, so does the model, and each such method is proved equal to
a specification that the lemmas are about.

## Where the code does less than it may seem to

- Resuming a sharded evaluation asks whether the attempts file exists and then, if it does not, writes
  an empty one (`benchmark/evolbench-collab/src/report.ts:40-53`). Two shards that both find no file
  lose rows: `EvalResume.RivalLosesRows` is the schedule. `NothingIsLostExactlyWhenFileExists` is the
  condition: the file is there before the shards start, or no shard with work has another beside it.
- The recorded run ids are read once, so what is planned twice can be recorded twice, unless it was
  recorded before: `EvalResume.RepeatedPlanRepeatsRow` is the schedule. An arm may be listed twice, and
  nothing keeps a manifest from repeating an episode id, which is empty on every line without one
  (`benchmark/evolbench-collab/src/manifest.ts:44`). `OneRowExactlyWhenRunOnce` is the condition for one
  row, and `NoRowRepeatsExactlyWhenRepeatedRunsAreRecorded` the one for all rows of an evaluation.
- On Windows an activation is to remove whatever stands at `active`, but for every link it calls
  `remove_dir` (`crates/installer/src/active.rs:271`), which refuses a symlink to a file. Such a link stays
  for good: `ActivationHistory.FileSymlinkIsNeverReplaced`. `CompletesExactlyWhenUnblocked` is the exact
  condition.
- The comment at `benchmark/evolbench-collab/src/report.ts:48` speaks of a rewrite that drops a torn
  line; there is none, and nothing is claimed of torn lines.
- A succeeded receipt is accepted without a version, or with an error
  (`crates/installer/src/contract.rs:506`). `Receipts.SucceededWithoutVersion` is such a record, and
  `SucceededRecordOfNoOutcome` says exactly when an accepted one belongs to an outcome. Failed and held
  ones always do.
- An instruction is rewritten in one pass (`benchmark/skillsbench-collab/src/rewrite.ts:28-30`), so of
  `/root//root/` the second half stays and is an absolute path again: `TestRules.DoubledRootIsKept`.
  `InstructionKeepsOnlyDoubledRoots` shows that nothing else does.
- The `cwd=` and `sys.path.insert` replacements that are to put the working directory in
  (`benchmark/skillsbench-collab/src/rewrite.ts:35-36`, `66-78`) never meet the text they were written
  for, since the passes before them take its path away: `LiteralEffects.LiteralMissesItsSource`.
  `cwd='/root'` ends as `cwd=''`: `WorkingDirectoryIsLost`. `InsertIsMetExactly` and `CwdIsMetExactly` say
  for which texts one of the eight still finds its source, and `ContentYieldsRoot`,
  `ContentYieldsWorkspace` and `ContentYieldsTestsSource` for which quoted contents, such as
  `/root//root`. `benchmark/skillsbench-collab/test/rewrite.test.ts:70-74` expects as much of one of them.

## Model

| member | source | states |
|---|---|---|
| `Publication.PlanCoversTree` | scripts/release/publish.ts:404-423 | a plan exists exactly for a tree with one manifest; it uploads every file of the tree as often as listed, the manifest last, and an objects-only plan is everything but the manifest |
| `Publication.PlannedJobIsWellFormed` | scripts/release/publish.ts:404-423 | every plan for files on disk meets what the protocol needs of a job |
| `ReleaseFeed.ObjectHasOneVersion` | scripts/release/publish.ts:277-284 | no object key belongs to two versions, and the selector's key belongs to none |
| `ReleaseFeed.LatestTextIsInjective` | scripts/release/publish.ts:500 | the selector's bytes name one version |
| `PublicationSafety.LatestNamesCompleteVersion` | scripts/release/publish.ts:426-559 | at every request of every run, with faults before or after effect and corrupted tree uploads, `latest` is what it was, or it names this version and every file of its tree is stored with the local bytes |
| `PublicationSafety.VerdictTellsSelector` | scripts/release/publish.ts:481-522 | what a finished run reports is what it left: published means moved and complete, restored means exactly the old selector or none, unverified means old or new, anything earlier means untouched |
| `PublicationSafety.StepKeepsInvariant` | scripts/release/publish.ts:426-559 | every request keeps the invariant both results rest on |
| `PublicationSafety.EveryOriginRefused` | scripts/release/publish.ts:544-548 | no run asks for `latest` or reports its objects up before, at an earlier request of its own, the origin refused an anonymous reader of each file |
| `PublicationSafety.LatestIsRefused` | scripts/release/publish.ts:492-504 | a run that ends published, or restored to a selector, ended with the origin refusing anonymous readers of `latest` |
| `PublicationSafety.AttemptsAreBounded` | scripts/release/publish.ts:207-261 | in every run an upload is sent at most three times, and one below 20 MiB once |
| `PublicationHistory.FoundObjectsAreNeverOverwritten` | scripts/release/publish.ts:426-442 | a finalize pass leaves every object it found with its bytes; any other run of a published version writes nothing |
| `PublicationHistory.PublishedVersionIsImmutable` | scripts/release/publish.ts:299-316 | over any sequence of runs, once a version's manifest is stored no later run of any version in any mode changes or removes a stored object below it |
| `SplitPublication.ObjectsOnlyStep` | scripts/release/publish.ts:392-423 | an objects-only job never writes the manifest or `latest`, and never bytes other than the finalize pass's unless its upload is corrupted |
| `SplitPublication.StoredManifestMeansStoredVersion` | scripts/release/publish.ts:346-356 | however objects-only jobs and a finalize pass interleave, and whichever uploads are corrupted, a manifest that was not there before means every object of the finalize tree is stored, and every one whose uploads cannot be corrupted has its bytes; no other job touches manifest or `latest` |
| `SplitPublication.LatestNamesCompleteVersionAmongJobs` | scripts/release/publish.ts:351-356 | with other jobs writing in between, corrupted uploads, and whatever was stored at the start, a selector that changed names a version that is stored whole, with the local bytes but for objects that another job may have corrupted since |
| `SplitPublication.ManifestMarksCompletion` | scripts/release/publish.ts:279-284 | in a full publication, finalizing or not, at every request a manifest that was not there before means every file of the tree is stored, with the local bytes unless its uploads may be corrupted |
| `ReleaseTree.BuildReleaseTree` | scripts/release/build-release.ts:58-138 | fails with the first check that fails and then writes nothing; otherwise the file list is sorted, without repetition, exactly the tree's keys, and every object and the manifest say what the inputs are |
| `ReleaseTree.BuiltTreeHasPlan` | scripts/release/build-release.ts:109-137 | every built tree lists its manifest exactly once, so planning it never fails |
| `ReleaseTree.SharedObjectsAreEqual` | scripts/release/build-release.ts:81-117 | two builds of one version from the same artifacts write the same bytes to every object both have, except the manifest |
| `ReleaseTree.BuiltJobsAreSplit` | scripts/release/publish.ts:346-356 | jobs over built trees meet everything the results on split publication assume |
| `ReleaseTree.TargetKeysAreInjective` | scripts/release/build-release.ts:105-108 | two targets never share an object key |
| `Publisher.BytesEqual` | scripts/release/publish.ts:192-198 | true exactly for equal byte sequences |
| `Publisher.Feed.PutObject` | scripts/release/publish.ts:223-266 | however often a large upload is sent again, at most three times and only after a timeout, the protocol goes on as after one put |
| `Publisher.Feed.UploadObjects` | scripts/release/publish.ts:426-442 | sends exactly the protocol's requests of phase 1 and ends where they lead |
| `Publisher.Feed.VerifyUploadedBytes` | scripts/release/publish.ts:445-457 | reads back and compares every file before phase 3 is entered |
| `Publisher.Feed.ActivateLatest` | scripts/release/publish.ts:481-522 | moves `latest` and rolls back as the protocol does, and returns its verdict |
| `Publisher.Feed.UploadReleaseTree` | scripts/release/publish.ts:524-559 | its requests are a run of the protocol; on success `latest` is the new version and every file of the tree is stored; unless it reports an unverified rollback or success, `latest` is what it was |
| `DevNumbers.NextDevVersion` | scripts/release/publish.ts:328-334 | the smallest number up to 500 whose manifest is not stored; no such number is reported only when all are taken; a failed probe is an error and never reads as absent |
| `DevNumbers.NextNumberOfDense` | scripts/release/publish.ts:318-334 | when 1 to k are published the next number is exactly k + 1, and there is none exactly when k is 500 |
| `DevNumbers.PublishedNumbersAreDense` | scripts/release/publish.ts:321-327 | from an empty line, over any runs that succeed, fail or are cut off, the published numbers are 1 to some k at every request |
| `DevNumbers.DevVersionIsInjective` | scripts/release/publish.ts:330 | different numbers are different versions |
| `ActiveState.WrittenStateReadsBack` | crates/installer/src/active.rs:93-131 | a state is valid exactly when reading what is written gives it back |
| `ActiveState.ReadStateIsWritable` | crates/installer/src/active.rs:93-117 | whatever reads may be written again and then reads the same; only an unusable `previous` is dropped, exactly when it is one |
| `ActivationSafety.StepKeepsInvariant` | crates/installer/src/active.rs:122-277 | every file-system call, failing or not, on any disk, keeps the invariant the results below rest on |
| `ActivationSafety.CompletedActivationAgrees` | crates/installer/src/active.rs:144-162 | after a completed activation file, link and shim name its version, whatever the disk held before: an unreadable file, a shim that was a file, a directory in the place of a junction |
| `ActivationSafety.EveryPlaceIsOldOrNew` | crates/installer/src/private_fs.rs:97-104 | from any disk, at every call, the file, the link and the shims are each as before or as a completed activation leaves them; only a Windows link may be missing in between |
| `ActivationCompletion.CompletesExactlyWhenUnblocked` | crates/installer/src/active.rs:144-277 | a run in which no call fails completes exactly for a valid state, a root the Windows launcher can name, free temporary names, and a disk with directories where directories go and none where a file or a POSIX link goes; on Windows no link to a directory may stand where a file goes, and at `active` there may be anything but a symlink to a file |
| `ActivationCompletion.FinishingGoesOn` | crates/installer/src/active.rs:144-277 | before every call, what the rest of the run needs is exactly that the call can succeed and what the rest needs after it |
| `ActivationSafety.NothingIsLeftBehind` | crates/installer/src/private_fs.rs:106-168 | an activation that ends, in success or failure, leaves no temporary, unless a call of its cleaning up failed |
| `ActivationHistory.SurvivesWhole` | crates/installer/src/private_fs.rs:145-158 | when the power fails a whole flushed `active.json` keeps its data, and a link the version it names |
| `ActivationHistory.GoingOnOutlasts` | crates/installer/src/private_fs.rs:68-75 | a kill, and a power failure that undoes no rename, are among the interruptions the next three results allow |
| `ActivationHistory.StateIsWhole` | crates/installer/src/active.rs:119-131 | over every history, kills and power failures that lose unflushed data and undo any renames included: an `active.json` that was whole, or absent, at first is whole or absent at every call; one that was there at first is never absent, and on POSIX neither is `active` |
| `ActivationHistory.StateIsWholeAndStays` | crates/installer/src/active.rs:119-131 | from any call on, as long as no rename is undone, a whole valid `active.json` stays one, once there it is never absent, and on POSIX neither is `active` |
| `ActivationHistory.LinkIsNeverAhead` | crates/installer/src/active.rs:133-162 | over every such history that starts with a link, if any, that agrees with the file, `active` names a version that `active.json` names now or named at an earlier call |
| `ActivationHistory.LinkIsMissingOnlyBetween` | crates/installer/src/active.rs:230-244 | as long as no rename is undone, a link that was there is missing only on Windows, and has been since a call that removed the old junction, in this activation or in an earlier one that was cut off or failed there |
| `ActivationHistory.FileSymlinkIsNeverReplaced` | crates/installer/src/active.rs:269-277 | on Windows a symlink to a file at `active` stays at every call of every history, and no activation completes |
| `ActivationHistory.ActivationCanBeRunAgain` | crates/installer/src/active.rs:138-162 | from whatever completed, failed or cut-off activations and power failures left of an unblocked disk, on either platform, a run without failing calls completes, and every completed run reaches the same file, link and shim |
| `Installer.Installation.ReadActive` | crates/installer/src/active.rs:93-117 | none for no file, the state a whole file holds, or an error; what it returns is valid |
| `Installer.Installation.ReplaceFile` | crates/installer/src/private_fs.rs:99-168 | makes exactly the protocol's calls; the temporary is dropped on every failure after its creation |
| `Installer.Installation.WriteActiveState` | crates/installer/src/active.rs:122-131 | refused as invalid exactly for an invalid state, before any call |
| `Installer.Installation.SwitchPosixLinks` | crates/installer/src/active.rs:181-211 | `active` before the shim, each by a new symlink renamed over it |
| `Installer.Installation.SwitchJunction` | crates/installer/src/active.rs:233-252 | the new junction is made first, then the old one removed, then the rename; each failure cleans up what is its own |
| `Installer.Installation.InstallJunction` | crates/installer/src/active.rs:239-243 | the old junction is removed before the rename, and the unused new one when either fails |
| `Installer.Installation.RemoveExisting` | crates/installer/src/active.rs:269-277 | removes a link of either kind, a directory or a file by the call for its kind, which on Windows fails for a symlink to a file, and accepts that nothing is there |
| `Installer.Installation.Activate` | crates/installer/src/active.rs:144-162 | from any disk its calls are a run of the protocol that ended as reported; success leaves file, link and shim agreeing, an invalid state leaves the disk as it was |
| `ChunkGraph.WidenedReachesTheSame` | apps/web/scripts/hoist-transitive-chunk-imports.ts:31-42 | replacing import lists by parts of their closures changes nothing any file reaches |
| `HoistImports.Walk` | apps/web/scripts/hoist-transitive-chunk-imports.ts:36-40 | a set that grows while it is iterated terminates with exactly what the chunk reaches in one or more imports, once each, the direct imports first |
| `HoistImports.FinishWalking` | apps/web/scripts/hoist-transitive-chunk-imports.ts:36-40 | a worklist with nothing left to visit is the closure, cycles included |
| `HoistImports.ClosureOfOriginal` | apps/web/scripts/hoist-transitive-chunk-imports.ts:31-42 | a closure over the half-widened graph is the closure over the original one, and storing it keeps that so |
| `HoistImports.Hoisting.Widen` | apps/web/scripts/hoist-transitive-chunk-imports.ts:31-43 | every chunk ends with the closure of the original graph, in any order of chunks, and nothing else changes; remembered are exactly these original lists, over whatever a failed build left remembered |
| `HoistImports.Hoisting.Restore` | apps/web/scripts/hoist-transitive-chunk-imports.ts:49-57 | every remembered list is put back, nothing else changes, and nothing stays remembered |
| `HoistImports.WidenThenRestore` | apps/web/scripts/hoist-transitive-chunk-imports.ts:31-57 | the bundle is what it was before, whatever a build that failed between the two left remembered, and then nothing is |
| `VendorChunks.FindViolations` | apps/web/scripts/vendor-chunks.ts:92-103 | exactly the direct imports of an app chunk by a library chunk; none exactly when no library chunk reaches an app chunk along any path |
| `VendorChunks.DirectCheckIsEnough` | apps/web/scripts/vendor-chunks.ts:92-103 | a forbidden path exists exactly when a forbidden direct import does |
| `VendorChunks.PassingBundleHasNoMixedCycle` | apps/web/scripts/vendor-chunks.ts:82-90 | in a bundle that passes no import cycle has both kinds of chunk |
| `RequestId.RequestIdsAreUuids` | crates/installer/src/contract.rs:537-552 | for every string the split-based recogniser accepts exactly the layout of section 4 of RFC 9562, position by position |
| `Receipts.NewHasLeftInverse` | crates/installer/src/contract.rs:329-409 | outcome, processes and request id read back from every receipt, also after runtimes were added, which keep it valid |
| `Receipts.NewAcceptsWellFormed` | crates/installer/src/contract.rs:329-401 | a receipt is made exactly of a UUID, an outcome with a reason and a code that is not a rollback's, and identified processes |
| `Receipts.AcceptedRecordHasOneOutcome` | crates/installer/src/contract.rs:478-535 | every accepted failed or held record is the receipt of exactly one outcome, up to version, runtimes and installer version |
| `Receipts.SucceededRecordOfNoOutcome` | crates/installer/src/contract.rs:505-506 | an accepted succeeded record is the receipt of some outcome exactly when it names a version and has no error |
| `Receipts.SucceededWithoutVersion` | crates/installer/src/contract.rs:505-506 | an accepted succeeded record with an error and no version, which is the receipt of no outcome |
| `EvalManifest.ShardMembers` | benchmark/evolbench-collab/src/manifest.ts:73-81 | a shard holds exactly the episodes whose manifest position is its remainder |
| `EvalManifest.ShardsPartition` | benchmark/evolbench-collab/src/manifest.ts:73-81 | all shards together have every line of the manifest as often as it is there, and only a repeated line is in two of them |
| `EvalManifest.GroupFamilies` | benchmark/evolbench-collab/src/manifest.ts:86-105 | the loop over a map of families makes the specified families, in the order they first appear |
| `EvalManifest.GroupingPermutes` | benchmark/evolbench-collab/src/manifest.ts:86-105 | grouping keeps every episode as often as it was there |
| `EvalManifest.FamilyHoldsItsEpisodes` | benchmark/evolbench-collab/src/manifest.ts:85-105 | a family holds exactly the episodes with its id, sorted by order and then id |
| `EvalWork.RunIdsAreInjective` | benchmark/evolbench-collab/src/run.ts:68-70 | within an evaluation a run id names one arm and one episode id, whatever characters the ids contain |
| `EvalWork.ShardWorkCounts` | benchmark/evolbench-collab/src/run.ts:267-296 | a shard plans a run id exactly as often as its arm is listed times the lines of the shard with its episode id that the arm runs |
| `EvalWork.ShardsPlanEveryRun` | benchmark/evolbench-collab/src/run.ts:267-296 | all shards together plan it as often as its arm is listed times such lines of the whole manifest, whatever both repeat |
| `EvalWork.ShardWorkMembers` | benchmark/evolbench-collab/src/run.ts:267-296 | a shard plans exactly the run ids of the listed arms and its selected episodes, cold ones only when they are tests |
| `EvalWork.ShardsPlanApart` | benchmark/evolbench-collab/src/run.ts:267-296 | two shards plan the same run id only when the manifest has its episode id twice |
| `EvalWork.ShardsPlanEverything` | benchmark/evolbench-collab/src/run.ts:267-296 | together the shards plan every listed arm of every selected episode |
| `EvalResume.StepKeepsInvariant` | benchmark/evolbench-collab/src/report.ts:32-62 | starting, killing, reading, truncating and appending in any process keep the rows of finished shards |
| `EvalResume.StepKeepsRow` | benchmark/evolbench-collab/src/run.ts:276-289 | no step of any process gives a run id a second row, when it was recorded before or all shards together plan it at most once |
| `EvalResume.RivalLosesRows` | benchmark/evolbench-collab/src/report.ts:40-53 | for any two shards that both start without a file and one of which has work, a schedule after which a finished shard's rows are gone |
| `EvalResume.RepeatedPlanRepeatsRow` | benchmark/evolbench-collab/src/run.ts:267-296 | whenever the shards together plan an unrecorded run id twice, one of them or two, an execution after which it has two rows |
| `EvalResume.RowIsUniqueExactlyWhenPlannedOnce` | benchmark/evolbench-collab/src/run.ts:276-289 | over all interleavings, kills and resumes a run id never has two rows exactly when it had at most one at first, and had one or is planned at most once by all shards together |
| `EvalResume.NothingIsLostExactlyWhenFileExists` | benchmark/evolbench-collab/src/report.ts:40-53 | over all of them no row of a finished shard is ever missing exactly when the file was there before or no shard with work has another starting beside it |
| `EvalResume.ResumeIsSafeExactlyWhen` | benchmark/evolbench-collab/src/report.ts:32-62 | no row is ever repeated or lost exactly when both conditions hold |
| `EvalResume.OneRowPerArmAndEpisode` | benchmark/evolbench-collab/src/run.ts:267-296 | for every manifest and arms, with the file there before or no rivals, every planned arm of every episode has a row once all shards with families finished, and under the condition above never more than that one |
| `EvalResume.EvaluationIsFleet` | benchmark/evolbench-collab/src/run.ts:41-44 | whatever its arms and its manifest repeat, a shard of an evaluation that has work has families, so it starts |
| `EvalResume.NoRowRepeatsExactlyWhenRepeatedRunsAreRecorded` | benchmark/evolbench-collab/src/run.ts:267-296 | no row of an evaluation is ever repeated exactly when none was at first and every run that arms or manifest list twice is recorded already |
| `EvalResume.OneRowExactlyWhenRunOnce` | benchmark/evolbench-collab/src/run.ts:267-296 | an arm of an episode id never has two rows exactly when it had at most one at first, and had one or the arm is listed once and runs one line with that id |
| `EvalProcess.AttemptsFile.CreateWriter` | benchmark/evolbench-collab/src/report.ts:32-55 | resuming keeps an existing file and returns its run ids; otherwise the file is emptied and nothing counts as recorded |
| `EvalProcess.AttemptsFile.RunArms` | benchmark/evolbench-collab/src/run.ts:267-296 | the nested loops go from state to state of the machine, and leave the file with the unrecorded run ids of a prefix of the planned work behind its rows, in order, and of all of it unless something fails |
| `EvalProcess.AttemptsFile.Evaluate` | benchmark/evolbench-collab/src/run.ts:37-62 | a whole process refuses a bad manifest, shard or selection without touching the file; otherwise its states, from the file it found, are an execution of the one-shard machine that ends in the file it leaves, and finished on success |
| `ReminderArgs.ParseReminderArgs` | packages/coforge/index.ts:1967-2062 | the loop with an index, a request and two tables returns what the specification does, and refuses what it refuses |
| `ReminderGroups.ParseOfGroups` | packages/coforge/index.ts:1989-2062 | the parser accepts exactly flags that can be read and set different fields, and returns the fields they set, completed and checked |
| `ReminderGroups.FlagOrderDoesNotMatter` | packages/coforge/index.ts:1989-2062 | permuting the flag groups changes neither acceptance nor the request |
| `ReminderGroups.AcceptedArgsAreGroups` | packages/coforge/index.ts:2001-2039 | whatever the loop gets through is a sequence of readable flag groups |
| `ReminderGroups.EachFieldIsSetOnce` | packages/coforge/index.ts:1991-2000 | in every accepted parse each field was set at exactly one position, aliases counted together; only a default timezone came from nowhere |
| `ReminderGroups.AcceptedArgsHaveOneTime` | packages/coforge/index.ts:2086-2118 | in accepted arguments, aliases counted: an update has exactly one flag of delay, time, cadence or title, a snooze exactly one time flag, a schedule at most one and none only with a cadence flag, any other operation none |
| `PathRules.OccurrencesAreAll` | benchmark/skillsbench-collab/src/rewrite.ts:14-24 | the listed positions are exactly those where the delimited path stands in the original text, in order |
| `PathRules.MatchesAreApart` | benchmark/skillsbench-collab/src/rewrite.ts:14-24 | two places where a path rule applies never overlap |
| `PathRules.ReplaceSplicesEveryOccurrence` | benchmark/skillsbench-collab/src/rewrite.ts:14-24 | replacement is exactly splicing the new text in at every such position of the original |
| `Words.ReplaceAllSplitsAtQuote` | benchmark/skillsbench-collab/src/rewrite.ts:59-65 | a quote separates: all passes work on its two sides independently |
| `Words.ReplaceAllByWords` | benchmark/skillsbench-collab/src/rewrite.ts:59-65 | passes of path rules over a text are the same passes over each of its words, in its place between delimiters, whatever they put in |
| `WordForms.PassesRewriteWords` | benchmark/skillsbench-collab/src/rewrite.ts:39-65 | for every tests directory the fourteen passes are one rewriting: each word becomes its form, which depends on the word and the delimiters around it alone |
| `WordForms.AllOnWord` | benchmark/skillsbench-collab/src/rewrite.ts:41-65 | the fourteen rules one after the other make of a word exactly its form: a token its replacement, which the later ones go through again, another word without its roots, dotted, or moved to the tests directory |
| `Deletions.DeletionIsCompleteUnlessDoubled` | benchmark/skillsbench-collab/src/rewrite.ts:20-30 | for every text, deleting a prefix leaves a delimited one behind exactly when the text has it doubled |
| `TestRules.InstructionKeepsOnlyDoubledRoots` | benchmark/skillsbench-collab/src/rewrite.ts:26-30 | a rewritten instruction still has a delimited `/root/` exactly when the original has `/root//root/` |
| `TestRules.DoubledRootIsKept` | benchmark/skillsbench-collab/src/rewrite.ts:28-30 | `/root//root/x` is rewritten to `/root/x` |
| `Literals.SwapKeepsQuoted` | benchmark/skillsbench-collab/src/rewrite.ts:66-78 | a literal replacement leaves a quoted content that is not its path, behind its quote or a parenthesis that could close the literal, and what follows it unless the content ends like the literal's start |
| `QuotedContents.ContentYieldsRoot` | benchmark/skillsbench-collab/src/rewrite.ts:66-75 | for every tests directory, exactly these contents come out as `/root`: three with a doubled root, and those a tests directory that is empty or rooted puts together |
| `QuotedContents.ContentYieldsWorkspace` | benchmark/skillsbench-collab/src/rewrite.ts:66-75 | the same for `/root/workspace` |
| `QuotedContents.ContentYieldsTestsSource` | benchmark/skillsbench-collab/src/rewrite.ts:66-75 | the same for `/tests/src` |
| `LiteralReach.FindDelimiter` | benchmark/skillsbench-collab/src/rewrite.ts:59-65 | every delimiter of the result that the tests directory does not have is one of the text, and what is on its two sides was rewritten on its own |
| `LiteralEffects.LiteralMissesItsSource` | benchmark/skillsbench-collab/src/rewrite.ts:66-78 | for every text around it and each of the literals, the passes have taken the path out of its source before it is looked for, and what they left of it |
| `LiteralEffects.WorkingDirectoryIsLost` | benchmark/skillsbench-collab/src/rewrite.ts:73-74 | `cwd='/root'` becomes `cwd=''`, whatever the working directory |
| `LiteralEffects.SourceKeepsWhatIsLeft` | benchmark/skillsbench-collab/src/rewrite.ts:66-78 | of a source with `/root` or `/root/workspace` nothing, or `workspace`, is left between its quotes, after all literals too |
| `LiteralEffects.InsertIsMetExactly` | benchmark/skillsbench-collab/src/rewrite.ts:67-72 | one of the six `sys.path.insert` sources is there after the passes exactly when the text has such a call, up to words the passes take away or the tests directory puts in, of a content that yields its path |
| `LiteralEffects.CwdIsMetExactly` | benchmark/skillsbench-collab/src/rewrite.ts:73-74 | one of the two `cwd=` sources is there exactly when `cwd=`, or a tests directory that ends in it, stands before a quoted content that yields `/root` |
| `LiteralEffects.UnmetLiteralsDoNothing` | benchmark/skillsbench-collab/src/rewrite.ts:76-79 | a text without any of the sources is left as the passes left it, whatever the working directory |
| `LiteralEffects.LiteralsActOnlyOnYieldingContents` | benchmark/skillsbench-collab/src/rewrite.ts:66-79 | a text without such a call or `cwd=` is left as the passes left it, so the eight literals do nothing for it |
| `TestRules.RewriteTestText` | benchmark/skillsbench-collab/src/rewrite.ts:39-80 | the three loops compute the specified composition of passes |
| `TestRewrite.RootIsTaken` | benchmark/skillsbench-collab/src/rewrite.ts:41-65 | over all fourteen passes a rooted path loses its root and nothing else, when what is behind the root keeps its start and no rule applies inside it, spaces and parentheses included |
| `TestRewrite.RelativeKeepsStart` | benchmark/skillsbench-collab/src/rewrite.ts:41-65 | what is behind a root keeps its start whenever it does not begin with a slash |
| `RestOfPath.RestIsKeptExactlyWhenUntouched` | benchmark/skillsbench-collab/src/rewrite.ts:41-65 | for every rooted path, a slash behind the root included, and every relative tests directory, the passes leave exactly what is behind the root if and only if it keeps its start and no rule applies anywhere behind that |
| `TestRewrite.QuotedPathBecomesRelative` | benchmark/skillsbench-collab/src/rewrite.ts:39-80 | in any text, a quoted path below `/root/` or `/app/` whose rest comes through the passes and is no literal's path becomes exactly that rest between the same quotes, also one that begins with a slash or a parenthesis |
| `ExpectedPaths.CollectExpectedPaths` | benchmark/skillsbench-collab/src/rewrite.ts:84-94 | sorted, without repetition, exactly the quoted rooted paths that do not end in a slash |
| `ExpectedPaths.ExpectedPathsAreRewritten` | benchmark/skillsbench-collab/src/verify.ts:96-101 | for every collected path whose rest comes through, the rewritten file names exactly the relative path that is looked up |
| `SeedSequences.AssignMissingSeedSequences` | apps/web/scripts/seed-dev-time.ts:25-44 | the loops over two tables compute the specified assignments |
| `SeedSequences.SeedsFollowTimeOrder` | apps/web/scripts/seed-dev-time.ts:16-23 | sorted, the new messages of a conversation are all there, each once, in time order |
| `SeedSequences.SeedsAreNumbered` | apps/web/scripts/seed-dev-time.ts:25-44 | the k-th of them gets exactly the k-th number after the conversation's highest, 0 if it has none |
| `SeedSequences.RerunAssignsNothing` | apps/web/scripts/seed-dev-time.ts:25-44 | over the merged messages nothing is left to number, and every new number was above all that were in use |
| `DeploymentState.ParseState` | scripts/deploy/deployment.ts:63-94 | the loop over the lines computes the specified parse, with the error of the first line at fault |
| `DeploymentState.AcceptedTexts` | scripts/deploy/deployment.ts:63-102 | a text parses to a state exactly when, but for blank lines, comments and surrounding white space, it is the state's two lines in either order |
| `DeploymentState.RenderedStateReadsBack` | scripts/deploy/deployment.ts:63-102 | a state reads back from its rendering exactly when some text can parse to it |
| `DeploymentState.RenderingIsIdempotent` | scripts/deploy/deployment.ts:63-102 | rendering what an accepted text says reads back the same, and rendering that changes nothing |

## Left out

- Publisher: the storage client, credentials, HTTP statuses, content types, logging, the request timeout option and the dry run. Retries inside the storage client are one request.
- Publisher: a request that takes effect only after later ones were sent.
- Publisher: the command line. It parses `--no-activate` and `--allow-existing` (`scripts/release/publish.ts:751-756`) without passing them on (`scripts/release/publish.ts:841-851`), so the model starts at `uploadReleaseTree`, and where a run numbers itself, at `nextDevVersion`.
- Publication: nothing is claimed of retrying a failed finalize pass. The build date is new each time, so the manifest may no longer compare equal.
- SplitPublication.StoredManifestMeansStoredVersion: the version's manifest is not stored when the jobs start; one that is may be of other contents.
- ReleaseTree: compression, hashing and JSON text are functions given to the build; directories and I/O failures while writing the tree are not modelled.
- Activation: two activations at the same time; a machine lock excludes them. File modes and a partly removed directory tree are not modelled, nor the branch of a platform that is not the target's. A directory reached through a symlink counts as the directory.
- ActivationHistory.StateIsWholeAndStays, ActivationHistory.LinkIsMissingOnlyBetween: while no rename is undone. In the other results a power failure may undo any of them, place by place: the source flushes the directory of a replaced file, ignoring whether that fails, and no directory after a link is renamed.
- ActivationHistory.ActivationCanBeRunAgain: temporary names are taken to be unused when a run starts; the source makes them from the process and the time.
- ActiveState, Receipts: JSON text. The model starts from parsed values, and strings are sequences of bytes.
- Receipts: the lifecycle, supervisor and download parts of the contract.
- HoistImports: the bundler's objects, of which the model keeps file name, kind, imports and modules.
- VendorChunks: the grouping of vendor modules into chunks, and the exemption of the start runtime, which is part of that grouping.
- EvalManifest: reading a manifest line and the text `N:k`. Episode order is a real number.
- EvalResume: torn lines, two processes for one shard, and running without resume while others run. Appending a row is one atomic step.
- EvalWork, EvalProcess: provisioning, running and scoring an episode, of which only that they may fail is modelled, and the summaries.
- ReminderArgs: error messages (every refusal is the same), reading numbers and durations, the wire format's own checks, and looking up an id prefix. These are functions given to the parser. A flag named like an inherited object property is unknown here at once; the source refuses it when it checks the shape.
- TestRewrite.QuotedPathBecomesRelative: what follows a path that ends in `cwd=` or like a call of `sys.path.insert` is only said to follow it. What is behind the root is a text, and a slash it begins with stays; how the verifier joins such a path to its work root is not modelled.
- LiteralEffects.InsertIsMetExactly, LiteralEffects.CwdIsMetExactly, LiteralEffects.LiteralsActOnlyOnYieldingContents: for tests directories without quotes and parentheses, and for `cwd=` without quotes. Both callers give `tests` (`benchmark/skillsbench-collab/src/verify.ts:79`, `89`). What a literal finds is judged on the text the passes leave, before other literals have put anything in.
- RestOfPath.RestIsKeptExactlyWhenUntouched: for a tests directory that is relative, as the option is described (`benchmark/skillsbench-collab/src/rewrite.ts:33-34`).
- SeedSequences: the timestamps of seeded messages. String comparison is any comparator with the usual laws.
- DeploymentState: outputs of remote commands and the audit records.
- Sorting: strings compare by code unit.
