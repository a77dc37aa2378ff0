# Verified models of the file-management kits

Dafny models of the parts of the repository whose correctness needs an argument over
several functions, over whole runs or over arbitrary interleavings, with the proofs.
`dafny verify dfyconfig.toml` checks everything.

**The swap store** (`Swap*`, `Quota*`, `Manager*`, `Protocol*`, `ProxyControl`, `CApi`,
`SyncIo`). Any number of threads call one manager through the C API. `Protocol` is a
transition system in which each critical section of the manager's mutex, of the quota
controller's state lock or of the API's lock is one step, and so is each system call; a
thread's program counter carries the local variables that are live there. Writes, renames,
reads and unlinks may fail at any time. `ProtocolInvariant` is the one inductive invariant,
`ProtocolTheorems` has what follows from it, `ProtocolProgress` that no state is a deadlock and
that operations can finish, `ProtocolUndisturbed` how they end when nobody interferes,
`ProtocolDeferred` what becomes of removals left to readers, `ProtocolSpace` what becomes of a
store that cannot reach the storage manager. The classes `SwapfsManager`, `ProxySwapControl` and
`ApiRegistry` are the objects themselves; each of their methods leaves exactly the state that the
specification function used by the transition system gives, and the lemmas about these functions
say what one section undoes of another. Counters wrap around where the code lets them.

**Session directories** (`SessionLocks`, `SessionTree`). The protocol of `cleanup.lock` and
`session.lock` between processes that create, use, destroy, clean and crash; and the recursive
removal of one directory, with every intermediate state. In `SessionTree` a plan resolves the
order of reading and the outcome of each call, so a statement for all plans covers all faults.

**Moving a directory** (`MoveSpec`, `MoveDir`, `MoveTheorems`, `MoveMeaning`, `MoveFates`,
`MoveConflicts`).
Two trees, four modes, a conflict list and an environment that says for each path how each
call on it ends, EXDEV included.

**Anonymizing paths** (`Utf8`, `Anonymize`). Byte scanners that are total functions, and what
they do on well-formed text, that is text by the grammar in section 4 of RFC 3629.

**Descriptor tags** (`FdTag`, `FdTable`), **recursive listing** (`ListSpec`, `ListFile`,
`ListTheorems`) and **remote URIs** (`RemoteUri`).

Two promises turned out to need a condition, and each is proved with its exact one. The session
marker goes last unless the first look at it fails, the attempt to delete it like any other
entry then succeeds, and something else is left (`SessionTree.MarkerGoesLast`,
`MarkerSafeFromAll`). A move loses no source file unless it scans the source directory itself,
that scan fails, and some source file is not in the target already (`MoveTheorems.NothingIsLost`);
that the code then frees a list the failed scan has not made is assumed to do no harm.
And one success is provisional: a removal that `RemoveData` left to readers is undone if and only
if the unlink of the last of them fails (`ProtocolDeferred.DeferredRemovalOutcome`).

## Model

| member | source | states |
|---|---|---|
| `ProtocolTheorems.StepKeepsInv` | interfaces/kits/native/swapfs/src/swapfs_manager.cpp:428-852 | every step of every thread, whatever the files, the clock and the storage manager do, keeps the one invariant that ties together entries, reader counts, states, running operations, disk and quota counters |
| `ProtocolTheorems.SwapInReturnsWhatWasSwappedOut` | interfaces/kits/native/swapfs/src/swapfs_manager.cpp:467-642 | in every run, a swap-in that returns success for a key delivers the bytes of the one swap-out that was given that key |
| `ProtocolTheorems.EventsAreConsistent` | interfaces/kits/native/swapfs/src/swapfs_manager.cpp:459-642 | in every run each key is committed at most once, is read only after its commit and with its bytes, and its file is unlinked at most once with nothing read from it afterwards |
| `ProtocolTheorems.FileLivesWhileRead` | interfaces/kits/native/swapfs/src/swapfs_manager.cpp:530-642 | from its lookup to its finish, a reader's entry is in the table and pinned and its file is on disk with the committed bytes |
| `ProtocolTheorems.ReadersAreCounted` | interfaces/kits/native/swapfs/src/swapfs_manager.cpp:530-545 | an entry's `readCount` is the number of swap-ins between its lookup and its finish |
| `ProtocolTheorems.RemovalHasOneOwner` | interfaces/kits/native/swapfs/src/swapfs_manager.cpp:609-852 | an entry under removal without readers has exactly one thread that will unlink and settle it; any other entry has none |
| `ProtocolTheorems.NothingPendingAtRest` | interfaces/kits/native/swapfs/src/swapfs_manager.cpp:704-852 | whenever `activeOps_` is zero every entry is active and unread, and no removal of all data is in progress |
| `ProtocolTheorems.RemoveAllExcludesSwapOut` | interfaces/kits/native/swapfs/src/swapfs_manager.cpp:776-852 | while all data are being removed no swap-out is past its admission |
| `ProtocolTheorems.QuotaAgreesWithTable` | interfaces/kits/native/swapfs/src/swapfs_proxy_control.cpp:178-244 | in every reachable state the controller's totals equal the number and the bytes of the entries, its pending bytes equal the reservations under way, their sum stays within the limit without wrapping, and no guarded subtraction can clamp |
| `ProtocolTheorems.CommittedSinceIsExact` | interfaces/kits/native/swapfs/src/swapfs_proxy_control.cpp:129-226 | the bytes counted since the last answered refresh are exactly those committed since that refresh began, also while another refresh waits for its answer, and with the pending bytes they never wrap |
| `ProtocolTheorems.NextKeyIsFresh` | interfaces/kits/native/swapfs/src/swapfs_manager.cpp:451-465 | the next key id is in no entry, no event, no file and no other swap-out: removed ids are not reissued |
| `ProtocolTheorems.EngineChecksCannotFail` | interfaces/kits/native/swapfs/src/swapfs_sync_io_engine.cpp:96-119 | with direct I/O, the read engine's own checks of size and alignment cannot fail for a swap-in that was admitted |
| `ProtocolTheorems.DestroyIsExclusive` | interfaces/kits/native/swapfs/src/swapfs_c_api.cpp:42-151 | at most one thread is inside destroy, all others are then outside, `activeOps_` is at most `activeCalls`, and a deleted manager has nobody inside |
| `ProtocolProgress.NoDeadlock` | interfaces/kits/native/swapfs/src/swapfs_manager.cpp:367-852 | in every reachable state a thread inside an operation can take a step, or waits for a lock whose holder can |
| `ProtocolUndisturbed.SwapInAlwaysSucceeds` | interfaces/kits/native/swapfs/src/swapfs_manager.cpp:514-607 | from every reachable state, every undisturbed swap-in of an active entry into a large enough (and, for direct I/O, aligned) buffer, however its transfers are cut, ends with the bytes committed under the key |
| `ProtocolUndisturbed.SwapOutAlwaysDecides` | interfaces/kits/native/swapfs/src/swapfs_manager.cpp:428-512 | from every reachable state, every undisturbed swap-out that is admitted ends with its key and an active entry of its bytes, or with the code that says why there is no room, according to the counters of the moment or of the refresh it made |
| `ProtocolUndisturbed.RoundTripAlways` | interfaces/kits/native/swapfs/src/swapfs_manager.cpp:467-607 | every undisturbed swap-out that returned a key, followed by any undisturbed swap-in of that key, gives the same bytes back |
| `ProtocolUndisturbed.RemoveAlwaysSucceeds` | interfaces/kits/native/swapfs/src/swapfs_manager.cpp:704-774 | every undisturbed removal of an active entry succeeds; without readers, entry and file are gone, with readers the removal is left to them |
| `ProtocolProgress.SwapInCanFinish` | interfaces/kits/native/swapfs/src/swapfs_manager.cpp:514-642 | such a swap-in can finish, in every reachable state in which the mutex is free |
| `ProtocolProgress.SwapOutCanFinish` | interfaces/kits/native/swapfs/src/swapfs_manager.cpp:428-512 | such a swap-out can finish, whether or not there is room |
| `ProtocolProgress.RemoveCanFinish` | interfaces/kits/native/swapfs/src/swapfs_manager.cpp:704-774 | such a removal can finish, in every reachable state in which the mutex is free |
| `ProtocolDeferred.RemoveDataDefers` | interfaces/kits/native/swapfs/src/swapfs_manager.cpp:704-765 | removing an entry returns success at once exactly when the entry is active and read, and the removal is then left to its readers |
| `ProtocolDeferred.DeferredRemovalOutcome` | interfaces/kits/native/swapfs/src/swapfs_manager.cpp:609-642 | in every run, a removal left to any number of readers ends with the unlink of the last of them: the entry is active again, although `RemoveData` returned success, if and only if that unlink fails, and otherwise entry and file are gone |
| `ProtocolDeferred.RemovalCanBeDeferred` | interfaces/kits/native/swapfs/src/swapfs_manager.cpp:704-765 | in every reachable state with a reader of an active entry, an undelayed `RemoveData` of another thread is deferred |
| `ProtocolDeferred.BothOutcomes` | interfaces/kits/native/swapfs/src/swapfs_manager.cpp:628-641 | from every reachable state before the last reader's unlink, both outcomes can follow |
| `ProtocolSpace.UnavailableForEver` | interfaces/kits/native/swapfs/src/swapfs_proxy_control.cpp:58-176 | once the storage manager was found unavailable, the available space is the same in every later state of the run |
| `ProtocolSpace.NeverEnabledWithoutProxy` | interfaces/kits/native/swapfs/src/swapfs_proxy_control.cpp:82-197 | a store whose first contact with the storage manager failed refuses every swap-out for lack of space, for ever |
| `QuotaSpec.ReserveMeaning` | interfaces/kits/native/swapfs/src/swapfs_proxy_control.cpp:178-209 | a reservation is granted exactly when limit and device have room, measured in unbounded integers, and keeps the bounds; the feature flag and the wrap-around checks are accounted for |
| `QuotaSpec.EndRefreshMeaning` | interfaces/kits/native/swapfs/src/swapfs_proxy_control.cpp:142-175 | an answered refresh leaves exactly the bytes committed since it began and never clamps; an unanswered one changes neither space nor counter |
| `QuotaSpec.CommitKeepsSnapshot` | interfaces/kits/native/swapfs/src/swapfs_proxy_control.cpp:217-226 | a commit during a refresh in flight is still counted when its answer arrives |
| `QuotaSpec.CancelUndoesReserve` | interfaces/kits/native/swapfs/src/swapfs_proxy_control.cpp:199-215 | cancelling a reservation undoes it |
| `QuotaSpec.RemoveUndoesCommit` | interfaces/kits/native/swapfs/src/swapfs_proxy_control.cpp:199-236 | reserving, committing and removing an entry leaves all totals as they were, and only the bytes written since the last answer stay counted |
| `ManagerSpec.UnpinUndoesLookup` | interfaces/kits/native/swapfs/src/swapfs_manager.cpp:530-627 | unpinning undoes pinning and leaves nothing to unlink |
| `ManagerSpec.LastReaderDeletes` | interfaces/kits/native/swapfs/src/swapfs_manager.cpp:609-730 | of the readers of an entry under removal, the last and no other has to unlink |
| `ManagerSpec.FinalizeSettlesPrepare` | interfaces/kits/native/swapfs/src/swapfs_manager.cpp:704-748 | a removal whose unlink fails restores the table, one whose unlink succeeds takes just the entry out |
| `ManagerSpec.RemoveUndoesCommit` | interfaces/kits/native/swapfs/src/swapfs_manager.cpp:459-748 | what was committed can be looked up, and removing it gives the table before the commit |
| `ProxyControl.ProxySwapControl.constructor` | interfaces/kits/native/swapfs/src/swapfs_proxy_control.cpp:82-127 | the bounds hold from the beginning, and the feature is enabled exactly if there is room |
| `ProxyControl.ProxySwapControl.BeginRefresh` | interfaces/kits/native/swapfs/src/swapfs_proxy_control.cpp:129-140 | the noted counter is a snapshot of the history of commits |
| `ProxyControl.ProxySwapControl.FinishRefresh` | interfaces/kits/native/swapfs/src/swapfs_proxy_control.cpp:142-175 | the bounds are kept, and an answer makes just the commits since the snapshot count |
| `ProxyControl.ProxySwapControl.ReserveSwapOut` | interfaces/kits/native/swapfs/src/swapfs_proxy_control.cpp:178-209 | a reservation is granted exactly when limit and device have room in unbounded integers, and the bounds are kept |
| `ProxyControl.ProxySwapControl.OnSwapOutCommitted` | interfaces/kits/native/swapfs/src/swapfs_proxy_control.cpp:217-226 | turning a reservation into stored bytes keeps the bounds, the room on the device and every snapshot of a refresh in flight |
| `ProxyControl.ProxySwapControl.OnEntryRemoved` | interfaces/kits/native/swapfs/src/swapfs_proxy_control.cpp:228-236 | removing an entry's bytes keeps the bounds and does not give room on the device before the next answer |
| `SwapManager.SwapfsManager.CollectRemovableEntries` | interfaces/kits/native/swapfs/src/swapfs_manager.cpp:776-803 | the loops list every entry exactly once and mark them all, unless an operation runs |
| `SwapManager.SwapfsManager.FinalizeRemoveAll` | interfaces/kits/native/swapfs/src/swapfs_manager.cpp:829-845 | the loop settles the collected entries one by one |
| `SwapManager.SettleAllMeaning` | interfaces/kits/native/swapfs/src/swapfs_manager.cpp:829-845 | in whatever order they are settled, exactly the entries whose files could not be unlinked are left, active again |
| `SwapManager.FailedRemoveAllRestores` | interfaces/kits/native/swapfs/src/swapfs_manager.cpp:776-845 | removing all data when no file can be unlinked leaves the table as it was |
| `CApi.ApiRegistry.EnterCall` | interfaces/kits/native/swapfs/src/swapfs_c_api.cpp:42-58 | a guarded call is let in or refused; other handles are untouched |
| `CApi.ApiRegistry.LeaveCall` | interfaces/kits/native/swapfs/src/swapfs_c_api.cpp:60-70 | the guard's end |
| `CApi.ApiRegistry.BeginDestroy` | interfaces/kits/native/swapfs/src/swapfs_c_api.cpp:82-94 | destroy starts only if no call is active and no other destroy runs |
| `CApi.ApiRegistry.RestoreDestroyable` | interfaces/kits/native/swapfs/src/swapfs_c_api.cpp:96-103 | the handle is usable again after a failed destroy |
| `SessionLocks.CleanerRemovesOnlyAbandoned` | interfaces/kits/native/swapfs/src/swapfs_session_cleaner.cpp:111-346 | with any number of processes creating, using, destroying and crashing at any step, a cleaner starts and continues to remove a directory only if its creator crashed, failed to create it, or began to remove it |
| `SessionLocks.SessionInUseIsUntouched` | interfaces/kits/native/swapfs/src/swapfs_session_cleaner.cpp:283-346 | a session in use is complete, named and locked, and no step of another manager and no crash of another process changes it |
| `SessionLocks.CleanupDecision` | interfaces/kits/native/swapfs/src/swapfs_session_cleaner.cpp:283-311 | exactly which directories an undisturbed check selects for removal, over every reachable state: those that are abandoned and, if named as sessions, still have their marker, unless their creator is removing them and has not yet deleted `session.lock` |
| `SessionLocks.ForgottenForEver` | interfaces/kits/native/swapfs/src/swapfs_session_cleaner.cpp:299-305 | a session directory whose marker is gone and that nobody works on any more stays for ever, with all that is left in it |
| `SessionLocks.StepKeepsInv` | interfaces/kits/native/swapfs/src/swapfs_manager.cpp:241-309 | every step of creation under `cleanup.lock`, use, destruction and cleaning keeps the invariant, and a step touches another manager's directory only if that was abandoned |
| `SessionLocks.CrashKeeps` | interfaces/kits/native/swapfs/src/swapfs_manager.cpp:346-365 | a crash, which drops the locks of a process, keeps the invariant |
| `SessionTree.RemoveEntryAt` | interfaces/kits/native/swapfs/src/swapfs_session_cleaner.cpp:171-205 | the recursion terminates by its depth alone and computes the specified result and intermediate states |
| `SessionTree.RemoveTreeContentsAt` | interfaces/kits/native/swapfs/src/swapfs_session_cleaner.cpp:207-252 | the loop over a directory, with the marker skipped and unlinked last |
| `SessionTree.RemovedExactlyWhenFits` | interfaces/kits/native/swapfs/src/swapfs_session_cleaner.cpp:171-252 | without I/O errors an entry is removed exactly when no non-marker entry lies more than 16 levels below the session directory |
| `SessionTree.MarkerGoesLast` | interfaces/kits/native/swapfs/src/swapfs_session_cleaner.cpp:207-252 | with names read without repetition and, if reading ends well, completely: in every state of a removal, wherever anything fails, the marker is there unless the directory is empty, if and only if, when the marker is read, the first look at it succeeds, or removing it as an ordinary entry fails, or nothing else is left |
| `SessionTree.MarkerCanGoFirst` | interfaces/kits/native/swapfs/src/swapfs_session_cleaner.cpp:229-238 | next to any other entry, a single failed look at the marker, in a removal in which nothing else fails, lets the marker be deleted first |
| `SessionTree.MarkerSafeFromAll` | interfaces/kits/native/swapfs/src/swapfs_session_cleaner.cpp:207-252 | the marker is safe from all faults if and only if the directory has nothing else |
| `SessionTree.AttemptKeepsMarker` | interfaces/kits/native/swapfs/src/swapfs_session_cleaner.cpp:171-252 | an attempt on a marked directory leaves it marked, wherever a crash cuts it off, if and only if the marker is safe in it |
| `SessionTree.RemovalIsResumable` | interfaces/kits/native/swapfs/src/swapfs_session_cleaner.cpp:171-275 | after any number of attempts that failed anywhere or were cut off by crashes, an attempt without errors removes what is left of a directory that was not too deep to begin with |
| `SessionTree.StaysRecognisable` | interfaces/kits/native/swapfs/src/swapfs_session_cleaner.cpp:171-275 | if the marker is safe in each attempt, what any number of them leave is gone, empty or still marked |
| `SyncIo.WriteFull` | interfaces/kits/native/swapfs/src/swapfs_sync_io_engine.cpp:36-56 | however the transfers are cut up, the file gets exactly the bytes the calls transferred; success means all of them |
| `SyncIo.ReadFull` | interfaces/kits/native/swapfs/src/swapfs_sync_io_engine.cpp:58-80 | the buffer gets exactly the bytes of the file at the offset, nothing past them changes, and the result is the one the calls determine |
| `SyncIo.ReadSwapFile` | interfaces/kits/native/swapfs/src/swapfs_sync_io_engine.cpp:96-119 | the engine's checks in their order, the code of a failed open, and otherwise the result that the calls determine; success means the whole range was in the file and is in the buffer |
| `SyncIo.WriteSwapFile` | interfaces/kits/native/swapfs/src/swapfs_sync_io_engine.cpp:121-147 | the code of a failed open or `fsync`, and otherwise the result that the calls determine; the file then holds the part of the buffer that was transferred, on success all of it |
| `SyncIo.InterruptionsDoNotMatter` | interfaces/kits/native/swapfs/src/swapfs_sync_io_engine.cpp:43-45 | an EINTR anywhere changes neither result nor bytes |
| `SyncIo.ShortTransfersSuffice` | interfaces/kits/native/swapfs/src/swapfs_sync_io_engine.cpp:36-80 | any sequence of non-empty transfers that is long enough finishes exactly when there are enough bytes |
| `SyncIo.WriteThenRead` | interfaces/kits/native/swapfs/src/swapfs_sync_io_engine.cpp:96-147 | a write followed by a read of the same size gives the bytes back |
| `MoveTheorems.NothingIsLost` | interfaces/kits/cj/src/file_fs_impl.cpp:617-779 | in every mode and whatever step fails, each source file is afterwards where it was or at its target, if and only if the scan of the source directory itself succeeds, or is not made, or all source files are in the target already or survive a failing removal |
| `MoveTheorems.TargetIsKept` | interfaces/kits/cj/src/file_fs_impl.cpp:617-779 | a mode that reports conflicts of files or requires an empty target also keeps every target file, whatever step fails, scans included |
| `MoveTheorems.SourceRemovedOnlyWhenEmpty` | interfaces/kits/cj/src/file_fs_impl.cpp:766-777 | when the recursive removal of the source runs, nothing is left in the source, exactly unless it had entries and its own scan was made and failed |
| `MoveTheorems.FailedScanRemovesSource` | interfaces/kits/cj/src/file_fs_impl.cpp:707-777 | in every mode and for every target, a failed scan of the source directory goes unnoticed: the source is removed, and success is reported if that works |
| `MoveMeaning.SlowPathRefinesRename` | interfaces/kits/cj/src/file_fs_impl.cpp:617-737 | for any choice of the renames that return EXDEV, a move ends with the same trees, conflict list and result as when none does |
| `MoveFates.MoveOutcome` | interfaces/kits/cj/src/file_fs_impl.cpp:617-779 | where every file ends up, path by path, that exactly the clashing paths are reported, and that the move succeeds, leaving no source, exactly when there are none |
| `MoveConflicts.DirectoriesFirst` | interfaces/kits/cj/src/file_fs_impl.cpp:670-699 | in the reported list the conflicts in which a directory meets a file come before those of two files, whatever calls fail |
| `MoveDir.MoveDirFunc` | interfaces/kits/cj/src/file_fs_impl.cpp:739-779 | the imperative move computes the specified trees, conflicts and code, in all four modes |
| `MoveDir.RecurMove` | interfaces/kits/cj/src/file_fs_impl.cpp:693-737 | the loop over the sorted entries of a directory |
| `MoveDir.RenameDirectory` | interfaces/kits/cj/src/file_fs_impl.cpp:617-644 | rename, or the EXDEV path that makes the directory and recurs |
| `Names.Sorted` | interfaces/kits/cj/src/file_fs_impl.cpp:707-708 | the sorted scan: every name once, in order |
| `Utf8.FirstAndLastMakeAll` | utils/filemgmt_libn/src/n_error.cpp:106-125 | on well-formed text the forward and the backward scanner agree: together they give the text, cut between characters |
| `Utf8.CountsCharacters` | utils/filemgmt_libn/src/n_error.cpp:96-104 | the number of characters as RFC 3629 has them |
| `Utf8.TruncateMeaning` | utils/filemgmt_libn/src/n_error.cpp:127-141 | truncation keeps as many whole characters as fit |
| `Utf8.Utf8CharsNum` | utils/filemgmt_libn/src/n_error.cpp:96-104 | the loop computes the specified count, on malformed text too |
| `Utf8.Utf8FirstN` | utils/filemgmt_libn/src/n_error.cpp:106-113 | the loop computes the specified prefix |
| `Utf8.Utf8LastN` | utils/filemgmt_libn/src/n_error.cpp:115-125 | the nested loops compute the specified suffix |
| `Utf8.TruncateToBytes` | utils/filemgmt_libn/src/n_error.cpp:127-141 | the loop computes the specified cut |
| `Anonymize.NameIsMasked` | utils/filemgmt_libn/src/n_error.cpp:143-161 | anonymizing a name is masking it character by character, by position |
| `Anonymize.NameMeaning` | utils/filemgmt_libn/src/n_error.cpp:143-161 | a masked name is text of as many characters, no longer in bytes, of bytes of the name or `*`, and masking it again changes nothing |
| `Anonymize.ComponentIsStarred` | utils/filemgmt_libn/src/n_error.cpp:193-207 | each character of a masked component is that of the truncated component or `*` |
| `Anonymize.ComponentMeaning` | utils/filemgmt_libn/src/n_error.cpp:193-207 | a masked component is text of as many characters, no longer, without slashes, and a fixpoint, also at the last dot |
| `Anonymize.PathMeaning` | utils/filemgmt_libn/src/n_error.cpp:163-211 | prefix, slashes and component count of the truncated path stay, each component is masked, the result is text and not longer |
| `Anonymize.AnonymizeTwice` | utils/filemgmt_libn/src/n_error.cpp:163-211 | anonymizing a well-formed path twice is anonymizing it once, including scheme prefix, extension, component cut and path cut |
| `Anonymize.AnonymizeNameOf` | utils/filemgmt_libn/src/n_error.cpp:143-161 | the scanners put together compute the specified name |
| `Anonymize.AnonymizePathOf` | utils/filemgmt_libn/src/n_error.cpp:163-211 | the loops compute the specified path |
| `FdTag.Linearizable` | interfaces/kits/js/src/mod_fs/common_func.cpp:411-479 | any interleaving of gets, sets and racing first accesses is a history of a plain map with default zero, and each thread returns from exactly its accesses in it, in order |
| `FdTag.HoldsLatest` | interfaces/kits/js/src/mod_fs/common_func.cpp:463-479 | no stored tag is lost |
| `FdTag.AccessTakesEffect` | interfaces/kits/js/src/mod_fs/common_func.cpp:463-479 | an access takes effect at its atomic load or store, in just that place |
| `FdTag.PublishedOnce` | interfaces/kits/js/src/mod_fs/common_func.cpp:424-446 | at most one overflow table is ever published, and it is never unmapped |
| `FdTag.DroppedOnlyByFailure` | interfaces/kits/js/src/mod_fs/common_func.cpp:415-453 | a call is without effect exactly when its descriptor is out of range or a mapping fails: the length check never refuses |
| `FdTag.AlignedCountSuffices` | interfaces/kits/js/src/mod_fs/common_func.cpp:427-431 | the page-aligned table has room for all overflow entries and no more than was mapped |
| `FdTable.FdSanTable.GetFdTag` | interfaces/kits/js/src/mod_fs/common_func.cpp:463-470 | in place: the tag stored last, zero if none, and no tag changes |
| `FdTable.FdSanTable.SetFdTag` | interfaces/kits/js/src/mod_fs/common_func.cpp:472-479 | in place: just the one tag changes |
| `ListTheorems.RecursiveListing` | interfaces/kits/cj/src/list_file.cpp:180-249 | a recursive listing has exactly min(limit, matches) distinct files, all matching by their own size and time; without a limit, or with one that suffices, it is all matches |
| `ListTheorems.AllMeaning` | interfaces/kits/cj/src/list_file.cpp:158-178 | the list of all matches has exactly the matching files, each once |
| `ListFile.OptionArgs.RecursiveFunc` | interfaces/kits/cj/src/list_file.cpp:218-249 | the shared path names the scanned directory at every filter call and is restored, although nested calls alias it; results and count are those of the walk |
| `ListFile.OptionArgs.FilterFunc` | interfaces/kits/cj/src/list_file.cpp:180-192 | the callback's decision and count |
| `ListFile.OptionArgs.ListFile` | interfaces/kits/cj/src/list_file.cpp:256-289 | invalid options, unreadable directories, results, and the shared state cleared afterwards |
| `ListFile.CheckSuffix` | interfaces/kits/cj/src/list_file.cpp:33-49 | exactly the suffixes of a dot and up to 255 alphanumeric characters pass |
| `RemoteUri.UriRoundTrip` | interfaces/kits/native/remote_uri/remote_uri.cpp:78-129 | parsing a printed URI gives its descriptor back exactly if it has at most nine digits; otherwise the URI is refused |
| `RemoteUri.DigitCount` | interfaces/kits/native/remote_uri/remote_uri.cpp:97-99 | a number has at most `n` digits exactly when it is below the `n`-th power of ten |
| `RemoteUri.RemoteUris.IsRemoteUri` | interfaces/kits/native/remote_uri/remote_uri.cpp:78-111 | result, descriptor and set after parsing: a recognised descriptor is taken out of the set |
| `RemoteUri.RemoteUris.ConvertUri` | interfaces/kits/native/remote_uri/remote_uri.cpp:113-129 | a full set gives up its least descriptor, the new one is in, and 128 is never exceeded |
| `RemoteUri.RemoteUris.IsAllDigits` | interfaces/kits/native/remote_uri/remote_uri.cpp:52-60 | exactly the strings of digits |

## Left out

- The 64-bit key counter's wrap: statements about runs of the store hold as long as fewer than 2^64 - 1 keys have been issued; the model wraps the counter as the code does.
- The straight-line sections of `SwapManager.SwapfsManager` have no rows of their own: their contracts are the specification functions, and the rows of `ManagerSpec` and `ProtocolTheorems` say what these mean.
- Real time: a wait for running operations either sees none or times out, the clock is an input of a refresh, and time stamps are not kept.
- `QueryData` and the payload of `GetStats`: they only copy fields; `GetStats` itself is in the protocol because it counts as an operation and may refresh.
- Null pointers in requests and the manager's destructor.
- Several manager handles: `CApi` keeps them apart, the protocol has one.
- The io_uring reader: it stands behind the same read steps as the synchronous one.
- `fsync` is part of the write step of the protocol; `SyncIo` has it explicitly.
- In the protocol a destroyed manager's session directory goes in one step, which may leave any of its files; `SessionTree` has the removal in detail.
- Storage-manager IPC is a free choice among no proxy, a failed call and a size; a negative size is reinterpreted as the code does.
- Session and creation names are taken to be fresh; entries of the swap root with other names are never touched and are not modelled.
- `SessionTree.RemoveTreeContentsAt`: the directory is a value that the call returns changed; descriptors that keep naming a directory after its removal are not modelled.
- The path checks before a session tree is removed (`IsAbsolutePath`, `IsUnderRoot`, `ResolveRemovalPath`) and of the swap root: string comparisons without state.
- What removes a session directory that has lost its marker: nothing in the modelled code does (`SessionLocks.ForgottenForEver`). In `SessionLocks` a removal may delete the marker at any time; when it does is in `SessionTree`.
- `MoveDir.MoveDirFunc`: overlapping source and target, symbolic links, special files and time stamps; the two trees are values, and a copy that fails may leave any partial file.
- `filesystem::exists` and `is_directory` that throw, directory entries whose type the scan does not report, and what freeing the list of a failed scan does.
- The checks of `MoveDir` before `MoveDirFunc` that both arguments are directories and the source is writable are preconditions.
- Malformed UTF-8: the scanners are modelled on it, but only well-formed text has the properties proved.
- A listing of something else than regular files and directories; `fnmatch` is a parameter; paths are sequences of names.
- `ListTheorems.RecursiveListing`: a directory that cannot be scanned makes the whole listing fail, as `ListFile.OptionArgs.ListFile` says; the count is stated for readable trees.
- Weak memory order: each atomic access to a tag or to the overflow pointer is one step; tags are unbounded numbers because nothing computes with them.
- The descriptor that a full set of remote URIs gives up is closed; closing is not modelled. The calling package's name is an argument.
- `SyncIo.WriteFull`: a loop that is interrupted for ever does not return; the model takes a finite script of answers and reports a loop that is still running at its end.
- NAPI and FFI glue, error tables, permissions, watchers, streams and hashing: thin wrappers.
