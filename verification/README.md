# Freshen, modelled and verified

Freshen is a desktop updater: it selects a signed release, downloads and extracts its package,
replaces the files of the installed program through a journaled transaction, waits for the
restarted program to confirm, and can undo the replacement after a crash at any point. This
project models that logic in Dafny and proves what it is meant to guarantee.

Run `dafny verify dfyconfig.toml` to check everything.

## How the model is built

* **Trees** (`Trees`, `FileStores`, `Inventories`). A directory tree is a value; paths are lists of
  names. `FileStore` is the mutable tree that the operations of `src/fsutil.rs` change. Every step
  may fail, and every step may be the last one the process executes: methods return an `Outcome`
  that is `Ok`, `Err` or `Crashed`, and their postconditions hold in all three cases. A `reliable`
  store or installation fails only where the tree itself makes the operation impossible; under it
  the contracts say exactly when a call succeeds.
* **The transaction on disk** (`Transactions`, `CrashSafety`). The disk (live tree, stage, backup,
  journal) changes by the steps the code can take. A crash is the end of a run, and the process
  that comes next starts from whatever the disk then holds. One invariant is kept by every step;
  the crash theorems are about all runs. `Frames` says exactly which files a run may change, and
  `BundleRecovery` exactly when a recovery can be stuck.
* **The code that takes those steps** (`Installations`). A class whose methods follow
  `src/install.rs`, each proved to move the disk only along runs of the transaction, `apply` along
  runs of its own steps and recovery along runs of recovery steps.
* **The helper** (`Helpers`, `Waiting`). `execute` as a method over the installation and the two
  polling loops, which end within their deadlines and not before.
* **The processes** (`Handoffs`, `Confirmations`, `Cancellations`, `StaleHelpers`, `Outlooks`,
  `HandoffGaps`). Parents, helpers, confirming processes and maintenance processes interleave over
  markers, lock and disk, through any number of transactions one after the other, each with its
  token; each process may die between two of its steps, a parent also before the helper it started
  has read its plan. `Outlooks` says what one process can bring about by itself from where it is, and
  `HandoffGaps` holds the histories in which a stronger promise fails, and one of a good update.
* **What makes it sound** (`Paths`, `Manifests`, `Policies`, `SafeJoins`). The path grammar, the
  validation of inventories and policies, and joining paths without following links.
* **Before and after** (`Updaters`, `Archives`, `Releases`, `SharedStatus`, `EndToEnd`). Release
  selection, extraction, packing, the shared-folder inspection, and one method that goes through
  extraction, arming, applying and inspecting.

What is accepted or answered is stated twice: in the form the code decides it, and in plain terms
with the numbers, alphabets and names written out (the lemmas called `...Iff` and `...Means`).

Hashing is a function parameter `digest`; versions are any type with a strict total order and a
prerelease flag; verification of a signed manifest is a function of its location or a given
result; an archive is a sequence of (name, mode, claimed size, data) records. What other processes
do, how long a sleep lasts and how much a read returns are arbitrary.

## What was found

* `existing` in the journal is not always the exact set of items that were there before: recovering
  a transaction that was only prepared enters RollingBack with an empty set
  (`CrashSafety.ExistingMayBeIncomplete`). While a transaction is unfinished the set is exact if
  and only if the transaction has been Applying, or no item was there at all
  (`CrashSafety.ExistingIsExactIff`).
* The frame of a portable update is not just the owned paths. Where the old program has a directory
  with files at an owned path, `apply` records its intent, fails to put a file in its place, and
  begins to roll back; if that is cut after the directory was removed, the files are gone until
  recovery is run again (`Frames.FilesBeneathAnOwnedPathMayGo` is such a run). Over all runs
  nothing but items changes if and only if no such directory is one that `apply` gets to
  (`Frames.OnlyItemsChangeIff`).
* Recovery of a portable update can always complete. Recovery of a bundle can be stuck in one
  family of cases: the old item was a single file and a directory now stands in its place, since
  copying a file onto a directory fails each time (`Installations.RecoveryCompletes`,
  `BundleRecovery.JammedForever`; in every other unfinished state some run of recovery ends,
  `BundleRecovery.RecoverableIff`). Some state of a bundle's update is stuck if and only if the old item was a single file
  (`BundleRecovery.StuckIff`, with a concrete run in `BundleRecovery.ConcreteStuckBundle`).
* The cancel marker is honoured as long as it is there (`Cancellations.CancelWins`). A discard that
  removes it and goes no further takes it away, and a helper that had not yet taken the lock then
  applies the cancelled update (`HandoffGaps.CancelCanBeLost`), even one that reads its plan only
  then (`HandoffGaps.SlowHelperMissesCancel`). That is the only way
  (`Cancellations.ApplyAfterCancelNeedsDiscard`), and after such a discard it happens in some
  continuation if and only if the journal is still prepared, the stage complete and a helper still
  to come (`Cancellations.DiscardReopensIff`).
* `run_helper` reads the plan before it takes the lock and never compares it with the disk again
  (`src/helper.rs:97-103`). If its transaction is discarded and another of the same artifact is
  armed in between, it applies that one after the exit of its own parent, while the new parent is
  alive (`HandoffGaps.StaleHelperApplies`). It can happen if and only if a helper of an earlier
  transaction has read its plan and not yet taken the lock (`StaleHelpers.AppliesUnderParentIff`); what
  is promised of parents and tokens therefore excepts such a helper.
* Which signed document `check` returns depends on the order of the locations exactly when
  documents that differ offer the newest version (`Updaters.WinnerDependsOnOrder`); the version,
  its notes and the history never do (`Updaters.OrderIsInvisible`).
* A file whose name contains a backslash can never be packed, even when the rewritten path is that
  of another file: that file is then collected twice and validation refuses
  (`Releases.NoBackslash`).
* `confirm_startup` returning true does not mean that the update is committed: its checks and its
  marker are not atomic with the helper's timeout (`HandoffGaps.ConfirmedNotCommitted` ends in
  Failed). Only the other direction holds (`Confirmations.CommittedWasAcknowledged`).

## Model

| member | source | states |
|---|---|---|
| CrashSafety.CrashAnywhere | src/install.rs:434-544 | For every run from a prepared transaction, cut anywhere by any number of crashes: RolledBack on disk means every item is exactly as before the update, absent if it was absent; Committed means every declared file has its signed size and hash and no other file lies at or beneath an item; no other regular file has changed |
| CrashSafety.WriteAhead | src/install.rs:443-498 | In every state before Committed, an item that differs from the old program is named in the durable `touched`; the durable `existing` then is exact and each existing item has an equal durable backup |
| CrashSafety.ExistingIsExactIff | src/install.rs:443-544 | While a transaction is unfinished, the durable `existing` is exact if and only if some earlier state of the run was Applying or no item was there before; each recorded item has an equal durable backup in any case |
| CrashSafety.ExistingMayBeIncomplete | src/install.rs:500-505 | A concrete run into RollingBack in which `existing` lacks an item that was there |
| CrashSafety.DiscardIsSafe | src/install.rs:548-565 | Wherever discarding can happen the program is all signed content if Committed and all old content otherwise, never a mixture, and discarding changes no program file |
| CrashSafety.FinishedStays | src/install.rs:536-541 | RolledBack and Committed are left only by discarding, and the program never changes again |
| CrashSafety.StepFollows | src/install.rs:172-181 | Every step moves the journal's state along the intended graph |
| CrashSafety.CommittedWasAwaiting | src/install.rs:567-573 | A committed transaction was awaiting confirmation with every item installed, and no program file has changed since |
| CrashSafety.RollbackLosesNothing | src/install.rs:500-526 | Rollback attempts, for any journal whatsoever and however often interrupted, lose no backup and no journal entry, leave untouched items alone and stay at or beneath the items |
| CrashSafety.RollbackIsRestartable | src/install.rs:500-526 | However often it was cut and rerun, a rollback that completes reaches the trees determined by the disk it first found, as one uninterrupted rollback does |
| CrashSafety.ReachesWithin | src/install.rs:434-526 | Whatever `apply` and the rollback do, their runs never end Committed or Failed unless they began so, and never lose the journal |
| Frames.OnlyItemsChangeIff | src/install.rs:443-526 | Over all runs of a portable update every changed regular file is itself an item, if and only if no directory with a file beneath it stands at an owned path that `apply` gets to |
| Frames.ExposedFilesMayGo | src/install.rs:506-523 | From every armed transaction with such a directory a run leads to RollingBack with any chosen file beneath it gone |
| Frames.FilesBeneathAnOwnedPathMayGo | src/install.rs:506-523 | A concrete program and a run of its update, cut in the rollback, that loses a regular file which is no item |
| CrashSafety.RunKeepsInv | src/install.rs:434-580 | Every disk of every run satisfies the invariant |
| Transactions.StepKeepsInv | src/install.rs:434-580 | Each durable step of apply, rollback, finish and discard, completed or cut short, keeps the invariant |
| Transactions.ItemsStayClear | src/install.rs:457-459 | Nothing an update does puts a file above an item or takes one away, so a path found clear before its intent was recorded stays clear for undoing |
| Transactions.InstalledIff | src/install.rs:332-350 | What an installed item is: the declared files at and beneath it lie there with their signed sizes and digests, and no other regular file does |
| Transactions.VerifiedStageIff | src/install.rs:332-350 | A verified stage is one in which everything is signed and everything signed is |
| Installations.ListFiles | src/install.rs:385-407 | The recursive listing adds exactly the regular files beneath the folder |
| Installations.Installation.SaveJournal | src/install.rs:409-414 | A failed or interrupted journal write leaves the old or the new journal, a successful one the new |
| Installations.Installation.VerifyStage | src/install.rs:332-350 | Succeeds exactly if the stage holds exactly the declared files with their sizes and hashes |
| Installations.Installation.BackUpAll | src/install.rs:443-452 | Records exactly the items present and makes an equal backup of each, along a run; succeeds exactly if nothing is in the way |
| Installations.Installation.BackUpItem | src/install.rs:447-451 | One capture: an equal copy, changing the backup at this item only |
| Installations.Installation.ReplaceAll | src/install.rs:455-488 | Ends with every item installed and touched; cut anywhere, the in-memory journal is the durable one or one intent ahead |
| Installations.Installation.ReplaceItem | src/install.rs:460-487 | The item becomes the staged one, changing nothing else of the program, along a run at every moment |
| Installations.Installation.Apply | src/install.rs:434-498 | Follows the transaction by steps of its own at every moment, crashed or not, never ending Committed or Failed; changes nothing unless prepared; without faults succeeds exactly if prepared, verified and unobstructed, and a failed apply leaves every item as it was, Prepared or RolledBack |
| Installations.ApplicableIff | src/install.rs:434-490 | What "unobstructed" is: prepared, the stage verified, no file above an item, no directory at one in a portable layout, and no file in the way of its backup |
| Installations.Installation.ReplaceBackedUp | src/install.rs:453-498 | From the point where everything is captured: awaiting confirmation on success, and without faults a failure is rolled back to the old program and says RolledBack |
| Installations.Installation.RollBackFailedApply | src/install.rs:492-496 | The rollback at the end of a failed apply, from a journal that may be one intent ahead of the disk; on success RolledBack, without faults always so in a portable layout, with every item as it was |
| Installations.Installation.RollbackInner | src/install.rs:500-526 | Follows rollback steps from the journal it is given; completes exactly if everything touched can be undone |
| Installations.Installation.UndoTouched | src/install.rs:506-523 | The reverse loop: whatever the list names, only items change, and on success all of them are restored |
| Installations.Installation.RestoreItem | src/install.rs:507-522 | One undo step: remove and copy for directories, copy for files, remove for what was absent; exactly when it can succeed, interrupted or not a rollback step |
| Installations.UndoableIff | src/install.rs:506-523 | What "can be undone" is: each touched path is an item with no file above it, and what was there is in the backup with no directory in the way of a file |
| Installations.Installation.RecoverInstallation | src/install.rs:530-544 | Moves by recovery steps only; changes nothing when busy or finished; success on an unfinished transaction ends RolledBack with each item as fixed by the journal found; exactly when it succeeds |
| Installations.Installation.Rollback | src/install.rs:575-580 | Loads the journal, whatever its state, and undoes it: RolledBack with the targets that journal fixes, exactly if there is a journal that can be undone; only items change |
| Installations.Installation.DiscardFinishedInstallation | src/install.rs:548-565 | Succeeds exactly in the discardable states and then leaves nothing of the transaction, never changes the program, follows the transaction even when cut short |
| Installations.Installation.RemoveTransaction | src/install.rs:564-564 | Removing the transaction directory, finished or cut short at an arbitrary part of it |
| Installations.Installation.Arm | src/install.rs:285-327 | Success gives a freshly prepared transaction with a verified stage; failure and crash leave the program untouched; exactly when it succeeds; without faults a refused arm leaves no transaction behind and changes nothing, and in any case a failure whose removal succeeded leaves none |
| Installations.Installation.Finish | src/install.rs:567-573 | Writes only the state and keeps the rest of the journal, or leaves the old journal |
| Installations.RecoveryCompletes | src/install.rs:506-523 | Portable recovery can complete in every reachable unfinished state; bundle recovery exactly unless a directory stands where the old item was a file |
| BundleRecovery.RecoverableIff | src/install.rs:500-544 | In every reachable unfinished state, portable or bundle, some run of recovery attempts reaches RolledBack if and only if everything touched can be restored at that moment |
| BundleRecovery.JammedForever | src/install.rs:511-519 | Where a directory stands in the place of an old file, every run of recovery attempts leaves that directory as it is and never finishes |
| BundleRecovery.StuckIff | src/install.rs:460-467 | The update of a bundle reaches some unfinished state from which no run of recovery attempts reaches RolledBack, if and only if the old item was a single file |
| BundleRecovery.ConcreteStuckBundle | src/install.rs:511-519 | A concrete program and a run of its update into such a state |
| Helpers.Execute | src/helper.rs:111-186 | Whatever fails, a new commit has been confirmed and success means cancelled or committed. Without faults: nothing changes unless the stage is verified and the parent seen to be gone without a cancellation; an impossible update leaves every item old; a possible one ends Committed if confirmed, Failed if unanswered, and rolled back to the old program if the new one cannot be started or dies, exactly unless a bundle replaced a single file |
| Helpers.ApplyOrMark | src/helper.rs:134-144 | A failed apply that could not be rolled back either is marked Failed, any other is left as it is |
| Helpers.Relaunch | src/helper.rs:145-185 | From the installed program on: which observation leads to which state, with the program kept or undone |
| Handoffs.EventKeepsSafe | src/helper.rs:89-234 | Every event of every process keeps the joint invariant of disk, lock, markers, tokens and processes, and moves the disk by a step of the transaction, or by arming a new one, or not at all |
| Handoffs.HistoryIsSafe | src/helper.rs:89-234 | Hence every moment of every interleaving, through any number of transactions, is safe |
| Handoffs.PreWhenArmed | src/install.rs:285-327 | The tree a transaction is judged against is the live tree at its arming |
| Handoffs.ChangesFollowProtocol | src/helper.rs:134-182 | Although `finish` checks nothing, whatever it and the other calls write is a step of the transaction, and only a helper that sees the confirmation with its own token commits |
| Handoffs.OnlyHolderChangesDisk | src/helper.rs:102-103 | An event that changes the disk is one of the process that holds the lock |
| Handoffs.ParentAliveProgramUntouched | src/helper.rs:116-130 | While the parent that armed the transaction is alive the whole program tree is as before and apply has not begun, unless a helper of an earlier transaction took the lock |
| Handoffs.StaleByLock | src/helper.rs:97-103 | That exception is always an event of the present transaction: a helper with another token takes the lock |
| StaleHelpers.AppliesUnderParentIff | src/helper.rs:97-134 | In a prepared transaction whose parent lives, some continuation within it lets apply begin before that parent exits, if and only if a helper of an earlier transaction has read its plan and not yet taken the lock |
| StaleHelpers.StaleNeedsSameInventory | src/helper.rs:113-113 | Such a helper passes the verification of the stage only with the same paths, sizes and hashes as the plan on disk |
| HandoffGaps.StaleHelperApplies | src/helper.rs:97-134 | A concrete history in which a helper of a discarded transaction changes the program while the parent of the next one is alive |
| Cancellations.CancelWins | src/helper.rs:23-30 | In every interleaving, from the parent's cancel marker on and while no discard takes it away, apply does not begin, the program stays as it was, and only maintenance processes change the disk, leaving no state but Prepared, RollingBack, RolledBack, Failed or none |
| Cancellations.ApplyAfterCancelNeedsDiscard | src/install.rs:548-565 | Apply begins in a cancelled transaction only if a discard took the marker, left the journal prepared, and the helper took the lock after that |
| Cancellations.DiscardReopensIff | src/install.rs:548-565 | After a discard, or whenever no helper holds the lock, some continuation within the transaction lets apply begin if and only if there is no marker, the journal is prepared, the stage complete and a helper still to come: one that has read its plan, or that was started and still finds its token on disk, or that a living parent can start with its token on disk |
| HandoffGaps.CancelCanBeLost | src/install.rs:548-565 | A concrete history of one transaction in which apply begins after the cancellation |
| HandoffGaps.SlowHelperMissesCancel | src/helper.rs:53-71 | The same with a helper that reads its plan only after its parent has written the marker and died and a discard has taken the marker |
| Handoffs.JournalFollowsGraph | src/helper.rs:89-186 | Over whole histories, also in the gap between arming and the helper's lock, the journal's states follow the graph, a transaction begins only where there was none, and whoever changes the disk holds the lock |
| Confirmations.CommittedWasAcknowledged | src/helper.rs:191-234 | Committed implies that one confirming process held the token of the helper that committed: this process found it in the plan on disk, then the signed hash at the executable, then the journal awaiting confirmation with everything installed, and then wrote it into the marker, which still holds it when the helper commits; without a stale helper it is this transaction's token and happened in this transaction |
| Outlooks.FailedStartCanBeUndone | src/helper.rs:150-178 | In every history, once the new program could not be started or has gone without confirming, the helper can reach RolledBack with the old program by its own events, if and only if everything touched can be restored |
| Outlooks.UndoesUntilItLetsGo | src/helper.rs:150-178 | And as long as it holds the lock after that it undoes: the journal is AwaitingConfirmation, RollingBack or RolledBack |
| Outlooks.CommitsIff | src/helper.rs:157-164 | A waiting helper commits by its own events if and only if the marker holds its token |
| Outlooks.FailsIff | src/helper.rs:179-183 | It gives up by its own events if and only if the marker does not hold its token |
| Outlooks.RollsBackIff | src/helper.rs:165-178 | It gets the old program back by its own events if and only if the marker does not hold its token and everything touched can be restored |
| Outlooks.BeginsIff | src/helper.rs:116-134 | A helper waiting for the exit comes to apply a prepared transaction by its own events if and only if there is no cancel marker and its parent is gone |
| Outlooks.MarksIff | src/helper.rs:134-142 | After a failed apply it marks the transaction Failed if and only if the journal says RollingBack |
| Outlooks.RecoversIff | src/install.rs:530-544 | Whenever nobody holds the lock and the transaction is unfinished, a recovery process can get the old program back if and only if everything touched can be restored |
| HandoffGaps.UpdateCommits | src/helper.rs:89-234 | A concrete history in which an update is armed, handed over, applied, confirmed and committed |
| HandoffGaps.ConfirmedNotCommitted | src/helper.rs:157-234 | A concrete history in which `confirm_startup` returns true with the right token and the transaction ends Failed |
| Handoffs.VerdictIsTrue | src/helper.rs:111-186 | In every history, stale helpers included: RolledBack means all old, Committed all new, no journal one of both, and no other regular file has changed |
| Waiting.WaitForExit | src/helper.rs:116-133 | At most 10T+1 polls whatever is observed, and no timeout before the pauses add up to T seconds; the parent is taken to be gone exactly if no cancellation was seen up to and after its exit |
| Waiting.WaitForConfirmation | src/helper.rs:157-185 | At most 10T+1 polls, and no timeout before the pauses add up to T seconds; which verdict each observation leads to, confirmation before exit |
| Waiting.WaitForReady | src/helper.rs:54-73 | At most 600 polls, and no timeout before the pauses add up to 30 seconds; timing out exactly if nothing was seen |
| Trees.CopyIsExactIffCovered | src/fsutil.rs:80-97 | A recursive copy gives exactly the source if and only if the destination holds nothing the source lacks |
| Trees.InterruptedCopyResumes | src/fsutil.rs:99-115 | A copy cut short anywhere and run again gives what one uninterrupted copy gives |
| Trees.OverlayIff | src/fsutil.rs:80-97 | A recursive copy is possible if and only if at no path a file meets a directory |
| Trees.OverlayFiles | src/fsutil.rs:80-97 | Its result has every file of the source at its path, and what the destination had where the source has nothing |
| FileStores.FileStore.CreateDirAll | src/fsutil.rs:66-66 | All missing parents, or as many as were made before it stopped |
| FileStores.FileStore.CopyFile | src/fsutil.rs:64-78 | The destination is the old or the new content, nothing else changes; succeeds exactly if no file is above and no directory at the destination |
| FileStores.FileStore.CopyTree | src/fsutil.rs:80-97 | The result is the overlay; cut short, a state between; succeeds exactly if the overlay exists |
| FileStores.FileStore.CopyTreeWithRetry | src/fsutil.rs:99-115 | Retrying after partial copies has the same result as one copy; it retries after transient failures only, ends after at most 51 tries, and does not give up on a transient failure before its ten seconds are over |
| FileStores.FileStore.RemoveTree | src/fsutil.rs:117-131 | The tree is gone, or a part of it is left; nothing else changes |
| Paths.CheckPathJoin | src/manifest.rs:167-190 | Joined by a slash, two paths are accepted exactly if both are and the length allows it: closure under ancestors, suffixes and joining |
| Paths.CheckPathFold | src/manifest.rs:167-190 | The grammar gives the same answer whatever the ASCII letter case |
| Paths.CheckPathIff | src/manifest.rs:167-190 | Accepted are exactly the ASCII strings of at most 4096 characters that are valid names with slashes between them |
| Paths.ValidPartIff | src/manifest.rs:172-187 | Which names are valid, with the lengths, the special characters and all 22 reserved device names written out |
| Paths.FoldLetters | src/manifest.rs:77-77 | Folding changes the 26 capital letters and nothing else |
| Paths.JoinOfSplit | src/manifest.rs:171-171 | Joining the parts of a path gives the path back |
| Paths.SplitOfJoin | src/manifest.rs:171-171 | Splitting joined parts gives the parts back |
| Paths.AncestorIffPrefix | src/manifest.rs:82-91 | Slash ancestors are exactly the proper prefixes of the component list |
| Manifests.HasAncestorIn | src/manifest.rs:83-90 | The walk by shrinking prefixes finds an ancestor in the set exactly if there is one |
| Manifests.CollectFolds | src/manifest.rs:72-81 | Accepts exactly if all paths and hashes are well formed and the folded paths pairwise distinct |
| Manifests.FindAncestor | src/manifest.rs:82-91 | Finds a path with another above it exactly if there is one |
| Manifests.ValidateInventory | src/manifest.rs:71-91 | Accepts exactly the inventories whose folded paths are pairwise distinct and none a slash ancestor of another, with well-formed paths and hashes |
| Manifests.Validate | src/manifest.rs:58-95 | Accepts exactly the valid manifests |
| Manifests.ValidManifestIff | src/manifest.rs:58-95 | Which manifests are valid, field by field with the numbers |
| Manifests.ValidInventoryIff | src/manifest.rs:70-91 | Which inventories are valid: well-formed paths, 64 hexadecimal digits, and no path leading to or through another, ignoring case |
| Manifests.IntactIff | src/archive.rs:97-100 | Content is taken for genuine exactly if it has the signed length and a digest equal but for letter case |
| Manifests.InventoryApart | src/manifest.rs:77-91 | Distinct files of a valid inventory lie apart from each other, folded or not |
| Inventories.WriteOrderIrrelevant | src/manifest.rs:71-91 | Writing files to paths apart gives the same result in any order, failures included |
| Inventories.ValidInventoryWrites | src/manifest.rs:71-91 | The files of a valid inventory can be written into an empty directory in any order, with the same tree, which holds all of them and no others |
| Policies.Validate | src/install.rs:73-150 | Accepts exactly the policies allowed for the artifact |
| Policies.ValidatePortable | src/install.rs:87-111 | The set tests accept exactly if every owned file is received once, every received file is owned or beneath an expandable directory, and the executable is owned |
| Policies.ValidPortableIff | src/install.rs:74-111 | Which policies fit a portable package, file by file and with the timeouts |
| Policies.ValidBundleIff | src/install.rs:113-147 | Which policies fit a bundle, with the names, suffixes and the alphabet of signing identities |
| Policies.ValidPlanIsWellFormed | src/install.rs:153-162 | Validation of manifest and policy gives items that lie apart from each other and cover the declared files |
| Policies.ItemsOf | src/install.rs:153-162 | The items are exactly the paths of the received files, or the one bundle |
| Policies.OnlyAdmittedFilesChange | src/install.rs:86-111 | In every run of a portable update, a changed regular file lies at or beneath a signed path that is owned or strictly beneath an expandable directory, never in `.freshen` in any letter case; and it is that path itself unless a directory with files stands where apply puts a file |
| SafeJoins.CheckedJoin | src/fsutil.rs:24-41 | Succeeds exactly if all components are normal names and neither a link nor a file in the way is met |
| SafeJoins.SafeJoin | src/fsutil.rs:19-22 | Succeeds exactly on accepted, unobstructed paths; whatever links elsewhere lead to, what is opened is what lies beneath the root under those names, none of which is the state directory's |
| SafeJoins.StatIsLexical | src/fsutil.rs:32-38 | Where no link is in the way the operating system sees what the names say, and complains exactly when a file is in the way |
| SafeJoins.CheckedComponents | src/fsutil.rs:26-30 | An accepted path has only normal components, those between its slashes |
| SafeJoins.ComponentsIff | src/fsutil.rs:26-30 | Which relative strings have only normal components, and what these are, also outside the path grammar |
| SafeJoins.ClearIff | src/fsutil.rs:32-38 | Nothing is in the way: what exists above the end are directories, and the end is no link |
| Archives.Extract | src/archive.rs:27-114 | Without faults succeeds exactly on archives that carry every declared file once, true to size and hash, and nothing else but directories above declared files, within the limits; an archive with any other type of entry or over 200000 entries is never extracted; then the stage holds their contents and no other file; at every moment, failing or not, each file is within its declared size and their sum within the limit |
| Archives.ExtractableIff | src/archive.rs:38-112 | Which archives are extracted, entry by entry with the type bits and the limits |
| Archives.DirectoryEntryIsHarmless | src/archive.rs:54-63 | An entry for a directory above a declared file, anywhere in the archive and of directory type or none, changes neither success nor what is delivered |
| Archives.OtherTypesAreRefused | src/archive.rs:48-53 | An archive with a link or special file among its entries is not extractable |
| Archives.LimitedMeans | src/archive.rs:89-93 | However far extraction got, a regular file in the stage is a declared one and no longer than declared |
| Archives.ExtractNext | src/archive.rs:42-109 | One round: success extends the loop's state by one entry, failure means the archive is not extractable |
| Archives.Admit | src/archive.rs:45-70 | The tests before writing: nothing for an admissible directory, the declared file for a file entry, failure only for bad entries |
| Archives.UnpackEntry | src/archive.rs:76-108 | The write loop never exceeds the declared size and succeeds exactly if the data has the declared size and hash |
| Archives.NothingInTheWay | src/archive.rs:76-78 | Creating the directories and the file never fails for what was extracted before |
| Archives.CountingIsComplete | src/archive.rs:110-112 | Comparing set sizes decides completeness, because folding is injective on a valid inventory |
| Archives.ChosenTotal | src/archive.rs:71-74 | The running total never exceeds the declared total |
| Archives.DeliveredIsVerified | src/install.rs:335-350 | An extracted stage passes the installer's verification |
| Releases.CollectFiles | src/bin/release.rs:184-217 | Fails exactly on links and special files; otherwise lists every regular file once |
| Releases.CollectEntry | src/bin/release.rs:196-214 | One entry: refused exactly if a link or special file is at or beneath it, otherwise its regular files are added once each |
| Releases.Survey | src/bin/release.rs:78-104 | Collecting, sorting and describing fails only where some file cannot be published |
| Releases.NoBackslash | src/bin/release.rs:205-211 | If the rewritten names are distinct and all lead to files, none contained a backslash |
| Releases.Sort | src/bin/release.rs:82-82 | Sorted, and a permutation |
| Releases.Pack | src/bin/release.rs:78-139 | Succeeds exactly on packable directories whose ZIP file has a length that fits 64 bits; the manifest and the entries then describe and carry all regular files |
| Releases.PackableIff | src/bin/release.rs:78-123 | Which directories can be packed, in plain terms |
| Releases.PackedMeans | src/bin/release.rs:83-134 | What is described and carried: each regular file once in ascending order of paths, with its digest, length, flag, bytes and mode 0755 or 0644 |
| Releases.PackThenExtract | src/bin/release.rs:124-134 | What pack writes is extractable exactly if its total is within the unpack limit |
| Releases.RoundTrip | src/archive.rs:42-113 | Extracting a package reproduces the packed directory's regular files: path, bytes and executable flag |
| Releases.PackIsDeterministic | src/bin/release.rs:82-82 | Inventory and entries do not depend on the order in which the directory was listed |
| Updaters.Check | src/updater.rs:182-243 | Fails exactly if there are too many locations, one is unavailable or two offers disagree on notes; otherwise returns the first offer of the newest version and the exact ascending history |
| Updaters.CheckMeans | src/updater.rs:182-243 | The same answer in plain terms: over 100 locations; nothing found exactly if no release of this product and channel, newer and not a refused prerelease, has any artifact for the target; otherwise the first newest release, its first artifact for the target and its history |
| Updaters.FoundTarget | src/updater.rs:209-213 | The artifact found is the first for the target, and none is found exactly if there is none |
| Updaters.CheckNext | src/updater.rs:185-234 | One round: the state after one more location, or a failure that fails the whole check |
| Updaters.FetchOffer | src/updater.rs:193-214 | Which manifests apply to this host |
| Updaters.InOrder | src/updater.rs:237-240 | The recorded versions in ascending order, each once |
| Updaters.OrderIsInvisible | src/updater.rs:182-243 | Reordering or repeating locations changes neither success nor the selected version, notes and history |
| Updaters.HistoryEndsInSelection | src/updater.rs:79-84 | The history's last entry is the selected release |
| Updaters.WinnerDependsOnOrder | src/updater.rs:224-234 | The selected document is independent of the order exactly if all offers of the newest version are the same |
| Updaters.CheckedIsAdmissible | src/updater.rs:255-267 | A candidate passes the renewed test of its own updater exactly if it is not too large |
| Updaters.Prepare | src/updater.rs:246-304 | Succeeds exactly if the candidate fits, the download is genuine and the archive extractable, and then delivers it; the byte limits hold on every run |
| Updaters.PreparableIff | src/updater.rs:253-289 | What "fits" and "genuine" are, comparison by comparison |
| SharedStatus.Inspect | src/shared.rs:33-91 | Exactly which status or failure an undisturbed inspection gives; ready to restart is never reported with a file out of date; the pending list names, in ascending order of the manifest and once each, all files out of date and, undisturbed, no others |
| SharedStatus.InspectedMeans | src/shared.rs:42-91 | When an undisturbed inspection fails, says unchanged or says ready |
| SharedStatus.RelevantIff | src/shared.rs:54-63 | Which releases and artifacts are compared with the installation |
| SharedStatus.UpToDateIff | src/shared.rs:66-76 | When one file is up to date |
| SharedStatus.PendingFiles | src/shared.rs:64-81 | The paths of the files not up to date, by ascending indices into the manifest: all of them, and undisturbed no others; fails exactly if a path cannot be joined safely |
| SharedStatus.FileMatches | src/shared.rs:65-77 | One file: up to date exactly if found by name with the signed size and hash |
| SharedStatus.AppliedIsReady | src/shared.rs:53-90 | In every state awaiting confirmation or committed that a transaction reaches, inspection with the same manifest says ready to restart |
| EndToEnd.Install | src/install.rs:285-327 | Arming and applying in a fresh transaction succeeds exactly if nothing obstructs the owned paths; otherwise every item is as it was |
| EndToEnd.Update | src/shared.rs:53-90 | Extract, arm, apply and inspect: ready to restart exactly if the archive is extractable and nothing obstructs the owned paths; otherwise every item is as it was |

## Left out

- Ed25519, SHA-256, base64, JSON, the ZIP and deflate formats, HTTP and TLS: code of libraries that is not part of this model. Signature verification, hashing and decoding are parameters.
- Versions are ordered by the `semver` crate, which is not part of this model. Its `Ord` also compares build metadata, which section 10 of Semantic Versioning 2.0.0 excludes from precedence; the model only uses that the order is strict and total.
- `codesign` and `lipo`, process identifiers, spawning, Windows attributes and handles: only "parent exited", "child exited" and "hash matches" remain as observations.
- Everything under `ffi/` and `bindings/`, and `keygen`, `sign` and `merge`: no update logic of their own.
- Discovery of manifest locations (index files, GitHub metadata), progress events and error texts. Of errors only the kind is kept, and contracts speak about failing, not about the kind.
- Re-verification of the stored plan (`verify_plan`, `load_plan`): the plan of a transaction is a constant of the model.
- Links and special files inside the trees that `copy_tree` and `remove_tree` handle: they make the code fail, which injected faults cover. Links in the way of a joined path are modelled in `SafeJoins`.
- Temporary files left by interrupted copies, and directories that rollback does not remove: restoration is stated for item trees and regular files.
- The renamed old bundle beside the backup: it is written but never read.
- Confirmations.CommittedWasAcknowledged: that the confirming program runs from the owned path is not modelled, only that the file at that path has the signed hash; and after a stale helper has taken the lock the token that is confirmed is that helper's.
- Frames.OnlyItemsChangeIff: portable layouts; in a bundle the item is a directory, and that files beneath it change is the purpose of the update.
- Handoffs.HistoryIsSafe: all transactions of a history have one artifact and one policy, and each has one helper; starting a helper again by hand with the same token is not modelled.
- Helpers.Execute: the markers it writes and the text it leaves in `helper-error.txt` are not part of this method; the markers are in `Handoffs`.
- Liveness of transactions half built by a crash inside `arm`, half removed by `discard`, or put back as an empty directory by a `launch` that copies its helper after a discard: only that program files are unaffected.
- Updaters.Check: fetching is a function of the location, so locations whose content changes between two downloads are not modelled; cancellation is a possible failure at each location.
- Releases.Pack: whether the version and the URL parse and whether the output files already exist, which only make it fail, are not modelled; the directory does not change while it is packed, file names are Unicode, and the executable flag is the Unix one.
- Archives.Extract: the stage is case-sensitive; that names differing only in case cannot collide is `Manifests.InventoryApart`. The executable flag is set as on Unix.
- A file above a looked-up path is an error, as on Unix; Windows reports it as not found, which makes removing an absent item succeed there as well.
- Pauses between polls and retries last at least their nominal length; nothing is claimed about real time.
