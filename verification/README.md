# backup-git-repos, modelled and proved

`backup-git-repos` keeps a bare mirror of every repository of a forge (GitLab, Forgejo, GitHub),
optionally with a `.tar.gz` of it and with exported metadata, and optionally deletes what the
forge no longer has. This project models one forge's backup run, the three on-disk protocols it
drives (mirror, archive, prune), the listings it relies on, the dry run and the release exporter,
and proves what they promise. `dafny verify dfyconfig.toml` checks it.

## Main results

- **Any interleaving is the serial run.** `Runs.InterleavingsAgree`, `Runs.Confluence`,
  `Backup.RunIsDetermined`: whatever the schedule, the concurrency and the failures, a run ends in
  the tree and the result of processing the listing one repository at a time, and each repository
  fares as if it had been alone. `Program.RunOnce` is that serial run as a program.
- **What a run delivers, exactly.** `Endings.EndsExactly`: for every answer of the outside world and
  every tree, when a repository is synced, archived, exported and counted as failed, and what is
  then on disk, told from before; `Mirror.SyncExactly`: the same of Sync and its LFS content.
  `Outcomes.WorkerByOptions`, `Outcomes.RunDelivers`: which repositories the options archive, where
  the mirror goes, and that all of it is there when a run returns. `Outcomes.ResultExactly`: the
  figures reported.
- **Progress and termination.** `Runs.ProgressIsSequential`, `Runs.ProgressComplete`,
  `Runs.NeverStuck`, `Runs.ScheduleIsBounded`, `Outcomes.RunKeepsLimit`.
- **Crash safety.** `Histories.HistoryKeepsMeaning`: over every history of runs and prunes stopped
  anywhere, a HEAD under a mirror path means a completed mirror, a file at an archive path a
  complete archive; `Histories.HistoryMeansIff`: for HEADs, exactly which histories keep it so.
  `Histories.ArchiveHasOrigin`: from any file tree, an archive is the one that was there at the start
  or the complete archive of the very mirror some run synced, and
  `Histories.ArchiveIsOfUsableMirror` says when that was a usable one.
  `Histories.NextSyncSucceeds`: after any such history the next Sync repairs what is missing.
- **Pruning.** `Backup.ListedKept`, `Backup.NothingLostWithoutPrune`: at every moment nothing that the
  forge lists for all states is lost, from any file tree in which no archive's name puts it inside
  that repository's own mirror; `Backup.ArchivedIsKept`, `Backup.SyncedIsKept`: nor what the run
  made. `Prune.PruneSafeIff`: exactly when a prune is safe, for arbitrary names and any tree;
  `Prune.MetadataKeptIff`: exactly when it leaves a repository's metadata alone. `Prune.PruneExact`:
  exactly what goes, whichever removals fail. `Backup.NothingStaleAfterRun`: exactly when nothing is
  stale afterwards; `Strays.TagEndingInGit`: a release tag for which something is, and what the next
  run then deletes.
- **The scan.** `Scan.StaleMirrors`, `Scan.StaleMeans`: two recursive walks, a merge and a sort
  are a set difference.
- **The archive.** `Archive.ExtractRebuilds`, `Archive.SameEntriesIff`: round trip, and determinism in
  both directions.
- **The dry run.** `DryRun.LinesComeTrue`, `DryRun.PreviewComesTrue`: every line, and every figure.
- **The listings.** `Forgejo.ListRepos`, `Github.ListRepos`, `Gitlab.ListRepos`,
  `FanOut.AnyScheduleIsSerial`: everything that was asked for, in order, or an error, for every
  schedule of the fan-out; `Visibility.FullListingIff`, `Visibility.ContainedIff`: exactly what
  GitLab's 403 does to that; and `Forges.SyncedSurvivesPrune`, which joins them to the prune.
- **Releases.** `Reexports.ExportOkIff`: exactly when an export succeeds.
  `Reexports.TruthfulAfterIff`, `Reexports.SafeNamesIff`: exactly when release.json tells the truth;
  `Reexports.TruthfulOverallIff`: the same over all releases of a repository, exported before or not.

## How the model is built

The **file tree** (`Trees`) is a finite map from keys (sequences of path components) to nodes;
`Names` is the naming scheme that puts five files or directories (mirror, `.partial`,
`.metadata`, archive, archive `.tmp`) per repository into it, and proves when they can meet.

A **worker** (`Worker`, `Mirror`) is the sequence of file-system steps the program takes for one
repository. Everything outside the process (git, git-lfs, the disk refusing, an exporter, a
timeout) is an answer looked up in an `Env`; a failing clone may leave any tree behind, a
failing archive write any prefix of the entries. `Locality` and `Pool` show that the steps of
different workers do not see each other.

The **machine** (`Machine`, `Runs`) runs those workers as threads: launching under the limit,
one file-system step at a time, folding counters one by one, and reporting progress under a
mutex. `OneWorker` is the rule by which what one worker's steps keep holds at every moment of
every run; `Safety` applies it. `Endings` runs a worker to its end in closed form, and `Outcomes`
carries that over to runs. `Backup.Run` puts listing, scan, machine and prune together. A
*schedule* is any legal sequence of machine actions; a *history* is any number of invocations, each
stopped anywhere.

The **program** itself (`Disk`, `Sequential`, `Program`, `Scan`, `Archive`, `DryRun`, `Assets`,
`Releases`, and the listing modules) is written as methods with loops over a mutable disk, each
tied to the specification above.

Assumptions the theorems carry. For each of the first three a lemma gives a tree on which a listed
mirror loses files without it:

- `Names.Tame` and `Jobs.Listable`: no *namespace* component of a listed path ends in `.git`,
  `.git.partial`, `.metadata`, `.tar.gz` or `.tar.gz.tmp`, and listed paths are distinct. The
  last component may be anything. `Prune.NestedMirrorIsLost` is the counterexample,
  `Prune.PruneSafeIff` the exact condition.
- `Layout.Apart`: the destination and archive trees do not overlap. With one directory for both, a
  tag named `x.tar.gz` in a listed mirror is pruned: `Prune.SharedDirectoryLosesTag`.
- `Prune.NoArchiveInside`, for the repository a claim about pruning is made of: no file under the
  archive directory has a name for which the mirror would lie inside this repository's mirror. One
  stray `a.git/b.tar.gz` is enough to lose what is in the mirror of a listed `a` under `b.git`:
  `Prune.ArchiveInsideMirror`. Crash safety, recovery and the origin of archives do not need it.
- `Soundness.HonestRemote`, assumed of git: a clone that git reports as successful is a usable mirror,
  and `remote update` and `lfs fetch` never turn a usable mirror into an unusable one. `valid`, what
  makes a mirror usable, is left arbitrary. Where an archive comes from, that nothing is stale after
  a prune, and that unlisted files are untouched are shown without it.
- `Safety.MirrorMeans`, for crash histories of a path: its own HEAD means a completed mirror at the
  start. Removals in progress when a session stops may leave anything of the mirror being removed
  (`Histories.Gentle`, `Histories.BreaksHead`), but touch nothing outside it.
- `Endings.KindsDiffer`: a forge has no two exporters of one kind, as the program wires them.
- `Forges.OnSomeForge`: the forge does not change between the filtered and the full listing, and on
  GitLab the second call is not refused what the first was shown. That the filtered listing then is
  part of the full one is proved of all three; `Visibility.RefusedInSecondCall` is the
  counterexample for a 403 in the second call only.

`Backup.NothingStaleAfterRun` needs nothing about clones and exports: it says that nothing is stale
exactly if no listed repository's worker, on its own, leaves below its `.metadata` or `.partial` a
directory that the scan takes for a new unlisted mirror. `Backup.QuietRunBringsNoMirror` is a
condition on clones and exports under which none does.

`Example.HonestWorld` meets the naming, layout and honesty assumptions together, for any tree a clone
may bring, on an empty disk where every HEAD and archive has its meaning.

Where the code and its documentation disagree, the model follows the code:

- docs/metadata-export.md:82-84 says that two releases never collide on disk;
  `Assets.TagsCanMeet` gives two that do and `Assets.NamesMeetIff` says exactly which.
- docs/metadata-export.md:85-87 says that when one asset fails the rest of the release still
  lands; the code stops there (internal/forgejo/release.go:88-92). `Reexports.OversizedAssetStopsAll`
  is an input, `Reexports.ExportOkIff` says for all inputs that an export succeeds exactly if every
  asset does, and `Reexports.FailureStopsExport` what is left otherwise.
- internal/forgejo/release.go:83-85 says that a failed download never leaves a release.json
  claiming an asset that is not there. `Reexports.SecondAssetBreaks` is an input where one does,
  `Reexports.TruthfulAfterIff` the exact condition for any one export, `Reexports.TruthfulOverallIff`
  for all releases of a repository, and `Reexports.SafeNamesIff` the exact condition on the names for
  it to hold whatever happens: no two assets share a file, and none is listed by an older
  release.json.
- docs/flags.md:51-58 says that pruning deletes what no longer appears on the forge.
  `Strays.TagEndingInGit`, `Prune.ArchiveInsideMirror` and `Prune.SharedDirectoryLosesTag` are inputs
  where files of a listed repository go; the exact conditions are named above.

## Model

| member | source | states |
|---|---|---|
| Names.SlotsApart | internal/backup/run.go:417-426 | prefix-freeness of the naming scheme: one tame path's file or directory is, or contains, another's only if they are the same path and the same kind of file |
| Names.RegionsDisjoint | internal/backup/run.go:417-426 | the trees two different repositories' workers may change have no key in common |
| Names.SlotKeyInjective | internal/backup/run.go:417-426 | different paths never share a mirror, metadata directory or archive, tame or not |
| Names.NameRoundTrip | internal/backup/run.go:505-509 | reading the path back off a mirror or archive name gives the path it was made from |
| Names.KeyRoundTrip | internal/backup/run.go:505-509 | and naming the path read off an on-disk entry gives that entry |
| Order.Sort | internal/backup/run.go:474 | the sorted slice is strictly sorted and has exactly the members it was given |
| Order.SortedSeqUnique | internal/backup/run.go:474 | a set of paths has only one strictly sorted listing, so scan order is invisible |
| Order.LessIff | internal/backup/run.go:474 | the order is that of the first differing character, an end coming first |
| Archive.SortedPaths | internal/backup/archive.go:99-117 | the walk-and-sort loop returns the one sorted list of everything below the top, whatever order directories list in |
| Archive.WriteEntry | internal/backup/archive.go:119-167 | one normalised header per node, or a failure exactly for what tar has no header for |
| Archive.WriteArchive | internal/backup/archive.go:49-97 | the loop writes the complete entry list of the nodes, in which times and owners have no part, or fails exactly if some node has no header |
| Archive.ExtractRebuilds | internal/backup/archive.go:49-148 | round trip: extracting the entries in order never lacks a parent and rebuilds the mirror, modes, contents and link targets included, under one top-level folder |
| Archive.ParentWrittenBefore | internal/backup/archive.go:70-84 | every entry but the first comes after the entry of the directory it goes into |
| Archive.ParentSortsFirst | internal/backup/archive.go:114 | why: in string order a path comes after the directory it lies in |
| Archive.SameEntriesIff | internal/backup/archive.go:44-47 | two mirrors give the same entry list if and only if they agree on every path, kind, mode, content and link target below the top |
| Mirror.SyncUpdates | internal/backup/mirror.go:46-54 | with every external step succeeding, a mirror with a HEAD becomes the updated one, as `git lfs fetch` leaves it if it has refs and a file tracked with LFS, and nothing else changes |
| Mirror.SyncClones | internal/backup/mirror.go:57-82 | whatever `.partial` held, a first clone ends with the cloned mirror in place, as `git lfs fetch` leaves it if it has refs and a file tracked with LFS, no `.partial`, and nothing else changed |
| Mirror.SyncSucceedsIff | internal/backup/mirror.go:46-82 | with every external step succeeding, Sync succeeds if and only if the mirror has a HEAD or nothing at all is at its place |
| Mirror.SyncExactly | internal/backup/mirror.go:40-97 | whatever fails: exactly when Sync succeeds, told from the tree and the answers before it, and the mirror it then leaves |
| Mirror.SyncStaysPut | internal/backup/mirror.go:40-97 | however it ends, nothing but the mirror and its `.partial` changes |
| Mirror.FailedCloneStaysPut | internal/backup/mirror.go:57-82 | a clone that fails anywhere up to the rename leaves the mirror's place as it was |
| Mirror.LfsExactly | internal/backup/mirror_lfs.go:17-51 | the LFS stage works if and only if git can tell what the mirror tracks and, if it tracks anything with LFS, git-lfs is there and fetches; what it leaves by the tools' answers alone |
| Mirror.LfsOnlyWhenUsed | internal/backup/mirror_lfs.go:17-51 | a missing git-lfs fails exactly the mirrors that have refs and a match of the LFS filter, or that git cannot tell about; those with a match are fetched, those without are left alone |
| Sequential.Clone | internal/backup/mirror.go:57-82 | the method on disk goes through exactly the steps crash histories may stop between |
| Sequential.Update | internal/backup/mirror.go:84-97 | likewise for the refresh |
| Sequential.Sync | internal/backup/mirror.go:40-55 | likewise for the whole of Sync; it updates exactly if there is a HEAD at the start |
| Sequential.Archive | internal/backup/archive.go:30-42 | the method on disk is the archive stage of the worker: success renames a completely written file, failure leaves the target alone |
| Sequential.WriteTemp | internal/backup/archive.go:49-97 | create, fill, close: on success the temporary file is complete |
| Sequential.ArchiveRepo | internal/backup/run.go:523-532 | the archive's parent directory first, then the archive |
| Sequential.ExportKind | internal/backup/run.go:356-375 | one exporter's directory and export, and how it counts |
| Sequential.ExportMetadata | internal/backup/run.go:354-379 | every selected exporter is run, whichever fail; returns how many worked and whether one did not |
| Sequential.MirrorRepo | internal/backup/run.go:290-342 | the method on disk is the worker run to its end, in the destination tree or in a scratch directory |
| Sequential.RunInOrder | internal/backup/run.go:163-185 | the loop without concurrency: counters and tree of the serial run, progress calls 1, 2, ..., n |
| Sequential.RunRepo | internal/backup/run.go:254-273 | one repository: the worker run to its end, its outcome added to the counters, one progress call |
| Sequential.RunCounters.ReportDone | internal/backup/run.go:241-249 | increments and reports in one critical section |
| Sequential.RunCounters.Fold | internal/backup/run.go:262-272 | an outcome adds what it achieved to the counters |
| Sequential.PruneStale | internal/backup/run.go:386-415 | the loop on disk is the prune the safety theorems are about; without PruneRemoved it touches nothing |
| Worker.RankDrops | internal/backup/run.go:290-342 | every step brings a worker closer to its end |
| Worker.PlausibleFinish | internal/backup/run.go:290-342 | what an outcome can be: archived or exported only if synced, failed or synced at the end, no more exports than selected exporters |
| Endings.EndsExactly | internal/backup/run.go:290-379 | for all answers and trees: synced, archived, exported and failed each if and only if the steps concerned work, told from before the first of them; and the mirror, every export directory and the archive that are then on disk |
| Outcomes.WorkOrder | internal/backup/run.go:41-52 | which repositories are archived, which are mirrored only into a scratch directory, which exporters are used, and under which names, by the options |
| Outcomes.WorkerByOptions | internal/backup/run.go:290-342 | only what the selection takes is archived; without a failure that is all of it, and every exporter asked for has run; an archive not asked for is left as it was; a mirror in the destination is left as it was exactly for what is only archived; an exporter not asked for touches nothing |
| Locality.StepLocal | internal/backup/run.go:290-342 | on two trees that look alike to a worker a step gets the same answers, keeps them alike, and changes nothing outside its own files but missing parent directories |
| Locality.FinishLocal | internal/backup/run.go:290-342 | the same of the whole worker |
| Pool.InvStep | internal/backup/run.go:163-183 | whichever worker steps next, every worker's end stays the one it would have alone |
| Pool.AnyOrderIsSerial | internal/backup/run.go:163-185 | any interleaving that ends all workers leaves the tree and the outcomes of the serial order |
| Machine.InvStep | internal/backup/run.go:163-183 | every action of the machine keeps lock, progress, counter, limit and tree invariants together |
| Machine.ProgressStep | internal/backup/run.go:241-249 | the progress invariant on its own: calls made are 1, 2, ..., and one is in the making only inside the lock |
| Machine.CounterStep | internal/backup/run.go:254-273 | the shared counters are at all times the sum of what each thread has folded in |
| Machine.LimitStep | internal/backup/run.go:165-166 | no more than the limit of workers run |
| Runs.ProgressIsSequential | internal/backup/run.go:234-249 | in every reachable state progress calls are exactly (1,n), (2,n), ... and at most `limit` workers run |
| Runs.ProgressComplete | internal/backup/run.go:163-185 | after g.Wait every repository has been reported, the last call being (n,n) |
| Runs.NeverStuck | internal/backup/run.go:163-185 | no reachable state is stuck before every repository is accounted for |
| Runs.MeasureDrops | internal/backup/run.go:163-185 | every action brings the end of the run closer |
| Runs.ScheduleIsBounded | internal/backup/run.go:163-185 | so every schedule is finite, with a bound known at the start |
| Runs.InterleavingsAgree | internal/backup/run.go:163-196 | a finished run has the tree, the counters and the per-repository outcomes of the serial run, each outcome as if that repository had been alone |
| Runs.Confluence | internal/backup/run.go:158-185 | any two interleavings under any two limits end in the same tree and the same counts |
| Runs.CountsAddUp | internal/backup/run.go:168-196 | synced + skipped + never synced = listed; archives and exports come from synced repositories only |
| Jobs.ListableIsIndependent | internal/backup/run.go:417-426 | the workers of a listable run have disjoint footprints but for shared parent directories |
| Jobs.UnlistedUntouched | internal/backup/run.go:163-183 | nothing the workers do reaches a file of a tame path that is not listed |
| Scan.Walk | internal/backup/run.go:497-514 | the recursive walk finds, each once, exactly the matching entries not inside another match |
| Scan.OnDiskPaths | internal/backup/run.go:489-521 | the paths found, each once; a missing root holds nothing; fails only if the root cannot be read |
| Scan.OnDiskMirrorIff | internal/backup/run.go:479-521 | p is reported as a mirror if and only if its mirror path is a directory and no namespace component of p ends in `.git` |
| Scan.OnDiskArchiveIff | internal/backup/run.go:481-521 | p is reported as an archive if and only if a non-directory is at its archive path |
| Scan.LeftoversAreNotReported | internal/backup/run.go:501 | a `.partial` directory or `.tmp` file is never itself reported |
| Scan.StaleMirrors | internal/backup/run.go:435-477 | returns, strictly sorted, exactly the on-disk mirror and archive paths that are not listed |
| Scan.StaleSetIff | internal/backup/run.go:465-474 | the stale set is that union minus the listing |
| Scan.StaleMeans | internal/backup/run.go:435-521 | what that is on disk: a directory at the mirror's place in no namespace ending in `.git`, or a non-directory at the archive's, of a path no listed repository has |
| Prune.PruneExact | internal/backup/run.go:386-415 | whichever removals fail: of a stale mirror all goes but what its failed removal keeps, a stale archive goes if and only if its mirror is gone and it can be removed, all else is as it was, and the count is the number of stale paths whose mirror is gone |
| Prune.FailedRemovalKeepsArchive | internal/backup/run.go:400-411 | from any tree: a path whose mirror could not be removed keeps its archive |
| Prune.PruneSparesListed | internal/backup/run.go:386-415 | however removals go, and wherever the prune stops, no repository of the full listing loses its mirror or archive, in any tree in which no archive is named to lie inside its own mirror |
| Prune.PruneSafeIff | internal/backup/run.go:386-415 | for arbitrary names: all listed mirrors are kept if and only if no stale mirror path contains, or lies in, a listed mirror that is there; all listed archives are kept in any case |
| Prune.PruneLeaves | internal/backup/run.go:400-404 | after a prune, what is at a stale mirror's path is exactly what its own removal left of it |
| Prune.NestedMirrorIsLost | internal/backup/run.go:483-488 | a concrete tree and listing for which that condition fails and a listed mirror is pruned |
| Prune.ArchiveInsideMirror | internal/backup/run.go:466-474 | a concrete tree in which a stray archive file makes the prune delete inside a listed mirror |
| Prune.SharedDirectoryLosesTag | internal/backup/run.go:441-463 | a concrete tree, with one directory for mirrors and archives, in which a listed mirror loses a tag |
| Prune.MetadataKeptIff | internal/backup/run.go:386-415 | for the metadata of a repository with a tame path: a prune without failures leaves all of it as it was if and only if none of the paths it removes has a mirror in there |
| Prune.NothingStaleIff | internal/backup/run.go:386-477 | scanning again after a prune without failures finds nothing stale if and only if what was stale when it removed was stale when it scanned |
| Soundness.SyncStepSound | internal/backup/mirror.go:40-97 | every single step of Sync keeps "a HEAD under the mirror path means a completed mirror" |
| Soundness.SoundStep | internal/backup/run.go:290-342 | so does every single step of a worker, whose mirror is usable from the end of Sync on |
| Provenance.WrittenStep | internal/backup/archive.go:30-97 | every single step keeps: the archive file is the old one, or, once archived, the complete archive of the very mirror this worker synced; so is the temporary file about to be renamed |
| Provenance.BeneathStep | internal/backup/archive.go:30-97 | every single step keeps: nothing appears below the archive file or its temporary file that was not there before |
| OneWorker.AtEveryMoment | internal/backup/run.go:163-183 | the rule: what a worker's own steps keep and only looks at its own files holds of it at every moment of every schedule |
| Upkeep.NothingLost | internal/backup/run.go:290-342 | no single worker step takes away a mirror directory or an archive that is there |
| Upkeep.UsableStays | internal/backup/run.go:290-342 | nor makes a usable mirror unusable |
| Upkeep.HeadedStep | internal/backup/mirror.go:57-82 | nor leaves anything at the mirror path without a HEAD |
| Upkeep.KemptStep | internal/backup/run.go:310-335 | every step leaves a well-formed tree: what it writes into exists |
| Upkeep.QuietRootsStep | internal/backup/run.go:290-342 | if clones and exports bring none, no step brings into `.metadata` or `.partial` a directory a later scan would mistake for a mirror |
| Safety.StaysWellFormed | internal/backup/run.go:142-185 | at every moment of every run on a file tree there is a file tree |
| Safety.MirrorKeepsMeaning | internal/backup/run.go:142-185 | one run, stopped after any prefix of any schedule: a HEAD that meant a completed mirror goes on meaning one, each path for itself |
| Safety.ArchiveIsOldOrMade | internal/backup/run.go:330-341 | at every moment a listed repository's archive is the one from before the run or, exactly once its worker says archived, the complete archive of the mirror it synced |
| Safety.ArchiveRestores | internal/backup/archive.go:19-22 | extracting such an archive gives that mirror back under its own folder |
| Safety.RunKeepsMeaning | internal/backup/run.go:142-185 | a run stopped anywhere keeps the meaning of every HEAD and archive |
| Histories.PruneKeepsMeaning | internal/backup/run.go:386-415 | so does, for each path, a prune stopped after any path, between a mirror and its archive, with archive removals failing, or inside the removal of another mirror or of its own once HEAD is gone |
| Histories.PrunedHeadMeansIff | internal/backup/run.go:400-404 | exactly which interrupted removals break the promise: those that keep HEAD and with it no usable mirror |
| Histories.InterruptedRemovalLies | internal/backup/run.go:400-404 | a concrete such removal |
| Histories.HistoryKeepsMeaning | internal/backup/mirror.go:57-82 | so does, for each path, every history of runs and prunes stopped anywhere, unless inside the removal of its own mirror with HEAD still there |
| Histories.HistoryMeansIff | internal/backup/run.go:386-415 | and in general: the HEAD means a completed mirror after every session if and only if no session stopped removing that mirror with HEAD, and no usable mirror, left |
| Histories.ArchiveHasOrigin | internal/backup/archive.go:30-42 | over every history, from any file tree: an archive is the one from the start or the complete archive of the very mirror some session synced |
| Histories.ArchiveIsOfUsableMirror | internal/backup/archive.go:30-42 | and that mirror was a usable one, if the HEAD of its path meant one at the start |
| Histories.ArchiveOnlyPruned | internal/backup/run.go:408-411 | and it is missing only if it was missing at the start or its path was pruned |
| Histories.HistoryLeavesWhole | internal/backup/mirror.go:57-82 | after every history a mirror path holds a mirror with a HEAD, or nothing |
| Histories.NextSyncSucceeds | internal/backup/mirror.go:40-97 | so the next Sync in which every command works succeeds and leaves the updated mirror or the clone, as `git lfs fetch` leaves it if it tracks a file with LFS, however many `.partial` leftovers there are |
| Backup.RunIsDetermined | internal/backup/run.go:142-197 | two Runs against the same outside world, whatever their interleaving and concurrency, return the same and leave the same tree |
| Backup.NothingLostWithoutPrune | internal/backup/run.go:386-393 | without PruneRemoved, at every moment of a Run: a path it does not list keeps every file of its mirror and its archive; a listed one keeps its mirror, usable if it was, and its archive, or has a complete new one |
| Backup.RunIsDuring | internal/backup/run.go:142-197 | those moments include the end |
| Backup.ListingsAreTheForges | internal/backup/run.go:199-220 | a run works on what the forge lists for State, and staleness is judged by what it lists for StateAll; both listings are needed |
| Backup.ListedKept | internal/backup/run.go:130-141 | the same of every repository the forge lists for StateAll, with or without PruneRemoved, whatever State and whatever fails, prune included, from any file tree in which no archive is named to lie inside its own mirror |
| Backup.ArchivedIsKept | internal/backup/run.go:329-341 | under the same condition on the tree, what this run archived is there when it returns, prune included: the complete archive of the very mirror it synced, which is there too unless it was a scratch copy |
| Backup.SyncedIsKept | internal/backup/run.go:163-187 | that mirror is a usable one, if the repository's own HEAD meant one before |
| Backup.NewMirrorIsListedOrWithin | internal/backup/run.go:163-185 | a directory that a scan reports as a mirror and that was none before is the mirror of a listed repository or lies below the `.metadata` or `.partial` of one, in any world and from any file tree |
| Backup.NewArchiveIsListed | internal/backup/run.go:163-185 | a file that a scan reports as an archive and that was none before is the archive of a listed repository |
| Backup.NothingNewIff | internal/backup/run.go:163-185 | the workers make nothing stale if and only if no listed repository, its worker run alone, brings in a directory the scan takes for an unlisted mirror |
| Backup.NothingStaleAfterRun | internal/backup/run.go:142-197 | after a pruning run in which no removal failed nothing is stale, by what the forge lists for StateAll, if and only if no listed repository brings in such a directory, from any file tree; Pruned is the number of stale paths found |
| Backup.BroughtIsStale | internal/backup/run.go:142-197 | such a directory is there, and stale, when the run returns |
| Backup.StaleIsGone | internal/backup/run.go:400-404 | and a pruning run that finds it removes it with all that is in it |
| Backup.QuietRunBringsNoMirror | internal/backup/run.go:163-185 | none is brought in if no clone and no export creates a directory whose name ends in `.git` and none was there |
| Strays.TagEndingInGit | internal/backup/run.go:489-514 | for every tame path and every release tag that is sanitized to a name ending in `.git`: the first pruning run exports the release and leaves it stale, and the next one deletes it, though the repository is listed |
| Backup.RunIsSession | internal/backup/run.go:142-197 | every Run is a session of the histories, from any file tree |
| Backup.RunSpares | internal/backup/run.go:386-415 | and its prune never reaches into the mirror of a repository the forge lists for StateAll, under the condition of ListedKept |
| Backup.ResultAddsUp | internal/backup/run.go:189-196 | the figures of any result: every listed repository accounted for, Archived <= Synced, MetadataExported <= Synced times the selected exporters, Pruned the stale paths whose mirror could be removed |
| Outcomes.EachEndsExactly | internal/backup/run.go:163-187 | in a run, whatever the interleaving, each repository ends as EndsExactly says of it alone, and its files are left so |
| Outcomes.RunDelivers | internal/backup/run.go:142-197 | and when Run returns, prune included: the mirror it synced and the complete archive of it, or the archive from before; archived if and only if selected, unless it failed |
| Outcomes.ResultExactly | internal/backup/run.go:189-196 | Synced, Skipped, Failed, Archived and MetadataExported are the numbers of repositories that ended so, and of exports; Pruned that of stale paths whose mirror is gone |
| Outcomes.RunKeepsLimit | internal/backup/run.go:153-166 | no more than Concurrency repositories at once, or GOMAXPROCS if it is below 1, and the next is launched if and only if there is room |
| Program.CanFinish | internal/backup/run.go:163-185 | from every reachable state some schedule completes the run |
| Program.RunOnce | internal/backup/run.go:142-197 | Runner.Run as a method on disk is one of the runs all the theorems are about; it fails if and only if a listing or a scan does, and then has changed nothing |
| DryRun.DryRunPrune | internal/backup/cli.go:539-558 | one line per stale path, judged by what the forge lists for StateAll |
| DryRun.DryRunForge | internal/backup/cli.go:495-531 | the loop prints and counts the preview the next two rows are about |
| DryRun.LinesComeTrue | internal/backup/cli.go:495-575 | each line is what becomes of its repository, whatever the interleaving: skipped if empty; else the branch Sync takes, and archived if the line says so and nothing fails, and only then |
| DryRun.PreviewComesTrue | internal/backup/cli.go:487-531 | with every sync, archive and removal succeeding, the previewed counts are the result and the previewed prune lines the pruned paths |
| Paging.PageExtends | internal/forgejo/forgejo.go:100-121 | a page continues where the ones before stop, and is short exactly if it is the last one requested |
| Forgejo.ListRepos | internal/forgejo/forgejo.go:97-124 | an error if any page fails, else one repository per item in the asked-for state that is no skipped mirror, in order, with its own name and flags, after exactly floor(n/50)+1 requests, although the filter can empty pages |
| Forgejo.FilteredIsPart | internal/forgejo/forgejo.go:151-162 | a filtered listing is exactly the part of the full one whose archived flag fits the state |
| Github.ListRepos | internal/github/github.go:89-128 | the same for the client-side state filter and pages of 100, empty meaning a size of 0, with the scope test on page 1 |
| Github.AllListed | internal/github/github.go:116-139 | the full listing is one repository per item, in order, with its name, its archived flag, and empty if and only if its size is 0 |
| Github.FilteredIsPart | internal/github/github.go:116-139 | a filtered listing is exactly the part of the full one whose archived flag fits the state |
| FanOut.InvStep | internal/gitlab/gitlab.go:154-168 | every action of the bounded group keeps: filled slots hold their own lookup's answer, the error kept is a genuine failure, at most `limit` in flight |
| FanOut.AnyScheduleIsSerial | internal/gitlab/gitlab.go:138-176 | for every schedule of at most ten lookups in flight, a finished group has an error if and only if some lookup fails, and otherwise every slot its own lookup's answer |
| FanOut.NeverStuck | internal/gitlab/gitlab.go:154-170 | until every lookup has returned, something can move |
| FanOut.MeasureDrops | internal/gitlab/gitlab.go:154-170 | and every move brings the end closer |
| FanOut.Gather | internal/gitlab/gitlab.go:151-176 | the loop with array slots and an arbitrary scheduler returns the answers in slot order, or an error exactly if one lookup fails |
| Gitlab.CompleteIff | internal/gitlab/gitlab.go:256-292 | an enumeration through getOptional is complete if and only if no page was answered with 403 or failed, or a 403 hid nothing |
| Visibility.FullListingIff | internal/gitlab/gitlab.go:98-136 | the full listing holds every project, wiki and snippet if and only if every project page was answered and no lookup met with a 403 that hid something |
| Visibility.ContainedIff | internal/gitlab/gitlab.go:98-136 | of two calls refused different things, one is part of the other if and only if that was refused nothing this was shown |
| Visibility.RefusedInSecondCall | internal/gitlab/gitlab.go:278-283 | a concrete server whose second call is refused a snippet its first was shown |
| Gitlab.SnippetRepos | internal/gitlab/snippet.go:31-55 | all snippets across pages up to the first 403, or an error exactly if a page before it failed |
| Gitlab.SnippetPathsDiffer | internal/gitlab/snippet.go:31-55 | two snippets of a project never get the same path |
| Gitlab.ItoaReads | internal/gitlab/snippet.go:31-55 | because an id reads back from its numeral |
| Gitlab.WikiRepo | internal/gitlab/wiki.go:28-42 | a wiki exactly if the first page was answered and is not empty |
| Gitlab.ProjectDetail | internal/gitlab/gitlab.go:179-201 | project, wiki, snippets in that order, or an error if one lookup fails |
| Gitlab.DetailInOrder | internal/gitlab/gitlab.go:179-201 | what each of them is: name, archived flag, and empty only for the project itself |
| Gitlab.ProjectRepos | internal/gitlab/gitlab.go:151-174 | whatever the schedule, the page's projects' results in page order, or an error exactly if one project's lookup fails |
| Gitlab.ListByArchived | internal/gitlab/gitlab.go:115-136 | the serial concatenation over all pages, or an error exactly if a page or a lookup fails |
| Gitlab.ListRepos | internal/gitlab/gitlab.go:98-113 | StateAll is the active listing followed by the archived one |
| Gitlab.FilteredIsPart | internal/gitlab/gitlab.go:98-113 | a filtered listing is exactly the part of the full one in that state, wikis and snippets included |
| Forges.EveryForgeIsUnchanging | internal/backup/run.go:205-220 | on a forge that does not change, the filtered listing is part of the full one, for each of the three; calls may fail, and on GitLab be refused, independently, as long as the full one is not refused more |
| Forges.RefusedIsPruned | internal/backup/run.go:465-474 | a mirror of what the full listing does not show is stale, and all of it goes |
| Forges.SyncedSurvivesPrune | internal/backup/run.go:142-197 | so on each of them what a run synced or archived survives the prune of that run, under the condition of ListedKept |
| Reviews.FlattenConcat | internal/forgejo/pull_request.go:145-155 | flattening page by page is flattening the whole list |
| Reviews.OneReview | internal/forgejo/pull_request.go:176-194 | one request's line comments, converted slot by slot |
| Reviews.ReviewComments | internal/forgejo/pull_request.go:134-159 | over any number of pages: each review's non-empty body and then its line comments, in order, or an error exactly if a page or a review's comments fail |
| Reviews.ThreadsInOrder | internal/forgejo/pull_request.go:145-194 | every thread in its place: the body on no file and no line, each line comment on its file at its new position, or at the old one if it has no new one |
| Assets.Sanitize | internal/backup/metadata.go:234-241 | always one safe path component; leaves alone exactly the names that are one already |
| Assets.NamesMeetIff | internal/backup/metadata.go:234-241 | two names meet if and only if they differ only in `/`, `\` and `-`, or are both among "", ".", ".." and "_" |
| Assets.TagsCanMeet | internal/backup/metadata.go:227-229 | two different tags that share a directory |
| Assets.Copy | internal/backup/metadata.go:362 | the capped copy of any chunks: how many bytes reach the file and whether it succeeds depend only on the bytes they add up to |
| Assets.WriteReleaseAsset | internal/backup/metadata.go:350-380 | the method on disk does what the next two rows describe, whatever the chunking |
| Assets.AssetWrittenIff | internal/backup/metadata.go:337-380 | success if and only if reading and closing succeed, the disk takes it and the length is at most the cap; then the file is the body and the size its length; a failed read or an oversized body leaves no file, a failed close does |
| Assets.AssetTouchesOnlyItsPath | internal/backup/metadata.go:350-360 | nothing else changes but missing parent directories |
| Releases.ExportRelease | internal/forgejo/release.go:86-104 | the method on disk: every asset first, release.json last, stopping at the first failure |
| Releases.WriteRelease | internal/backup/metadata.go:250-269 | writes release.json, or fails leaving none or a torn one |
| Releases.WrittenManifestTruthfulIff | internal/forgejo/release.go:83-104 | a release.json just written names every asset, and each is on disk at the recorded size if and only if assets sharing a file share a size |
| Releases.ExportIsTruthful | internal/forgejo/release.go:83-85 | starting without release.json, however the export ends there is none that lists an asset not on disk at the recorded size |
| Reexports.ExportOkIff | internal/forgejo/release.go:86-104 | an export succeeds if and only if every asset is answered, opens, arrives within cap and space and closes, and release.json is written |
| Reexports.FailureStopsExport | internal/forgejo/release.go:88-92 | the first asset that fails ends the release and all after it: what is on disk is what the downloads up to it left, release.json as it was |
| Reexports.OversizedAssetStopsAll | internal/forgejo/release.go:88-92 | a concrete input: a good asset after an oversized one, and the next release, are never written |
| Reexports.TruthfulAfterIff | internal/forgejo/release.go:83-104 | exactly when release.json tells the truth after any one export, first or repeated, whichever asset failed and however, from the tree and the answers before it |
| Reexports.SafeNamesIff | internal/forgejo/release.go:83-104 | for which names it does whatever happens: if and only if no two assets share a file and none is on an older release.json |
| Reexports.SecondAssetBreaks | internal/backup/metadata.go:365-370 | a concrete repeated export that leaves the older release.json listing an asset that is gone |
| Releases.AllTruthful | internal/forgejo/release.go:61-81 | a first export of all releases of a repository, wherever it stops, leaves no lying release.json, if their sanitized tags differ and files shared within a release share sizes |
| Reexports.TruthfulOverallIff | internal/forgejo/release.go:61-104 | over all releases of a repository, exported before or not, wherever the export stops, if their sanitized tags differ: each release.json tells the truth exactly if TruthfulAfterIff says so of its own export on the tree before all of them, or, if its turn did not come, if it did before |
| Reexports.SafeNamesOverall | internal/forgejo/release.go:61-104 | so names safe by SafeNamesIff are safe for the whole repository |
| Releases.ExportAll | internal/forgejo/release.go:61-81 | the page loop exports exactly the first n releases, all of them if and only if no page and no release fails |

## Left out

- HTTP, JSON, URLs and authentication: a server is its list of items, the set of pages that fail and, for GitLab, which pages are answered with 403.
- The insides of git and git-lfs: each command is an answer that succeeds or fails and leaves a tree behind, with the honesty assumptions named above.
- Environment variables handed to git, and errors while building them: they count as the command failing.
- Timeouts and cancelled contexts: one more way for a step to fail. That a timed-out worker stops soon is not modelled.
- The bytes of tar and gzip: archives are kept at the level of their entry list, with a flag for missing trailers.
- Hard links, devices and FIFOs in a mirror; a file that changes while it is being archived.
- Symbolic links in the destination tree itself: os.Stat of HEAD and opening an asset file do not follow links here.
- Path cleaning by filepath.Join: paths with empty, "." or ".." components are taken literally.
- What becomes of exported issues and pull requests: an exporter is an arbitrary change inside its own directory; field mappings and the other forges' exporters, which page the same way, would only add easy members.
- Release fields other than tag and assets; URL resolution of an asset.
- Command-line flags, configuration, prompts, logging and the terminal progress line.
- Several forges in one invocation: they run one after the other, each in its own directories; that those do not overlap is not checked, and a forge named "archive" with the default archive directory would make them.
- Runs.Confluence: what the outside world answers one repository's worker is fixed for the run; a server that answers differently under load, or whose failure depends on what other workers do, is not modelled.
- Safety.RunKeepsMeaning: one exporter's work and one external command are single steps, which leave whatever tree they like in their own directory; being stopped inside one is the same as its failing there.
- Histories.HistoryKeepsMeaning: leaves out histories in which a removal of the path's own mirror stopped with HEAD still there; Histories.HistoryMeansIff says of all histories which of them matter.
- Histories.HistoryKeepsMeaning: the archive part covers the temporary file being cut off at any entry, but not a rename that the disk loses after a power failure; the code never calls fsync.
- The scratch directory of an archived repository is a tree of the worker's own; that os.MkdirTemp gives each worker a new one is assumed.
- The removal of a temporary archive after a failed write is taken to succeed; a left-over is overwritten by the next run and never read as an archive.
- Permission bits of what is created: directories get 0750, temporary archives 0644 and exported files 0600, with no umask.
- Program.RunOnce: takes the repositories in order and looks up its work orders through a parameter; the concurrent run is the machine, tied to it by Backup.RunIsDetermined.
- Runs.NeverStuck: GOMAXPROCS is a parameter, assumed to be at least 1.
- Gitlab.ListRepos: a server that never sends an empty next-page header keeps the code paging for ever; the model's listings are finite.
- Releases.AllTruthful: is about first exports; Reexports.TruthfulOverallIff covers repeated ones.
- Releases.ExportIsTruthful: a release.json whose writing is cut off is a torn file that no reader can decode, not a listing.
- Github.ListRepos: the parsing of the scope header is a flag.
