/** The swap store's promises, for every run of any number of threads. */
module ProtocolTheorems {
  import opened SwapTypes
  import opened QuotaSpec
  import opened ManagerSpec
  import opened Protocol
  import opened ProtocolInvariant
  import opened ProtocolSteps
  import opened ProtocolSwapOut
  import opened ProtocolSwapIn
  import opened ProtocolRemove
  import opened ProtocolOthers

  lemma InitHasInv(s: Sys)
    requires Init(s)
    ensures Inv(s)
  {
    hide CountInv, FileInv, OwnInv, LogInv, QuotaInv;
    InitQuotaHasInv(s);
    InitCounts(s);
    InitFiles(s);
  }

  lemma InitCounts(s: Sys)
    requires Init(s) && s.quota.pending == 0
    ensures CountInv(s)
  {
    forall m: Measure ensures Total(m, s.threads) == 0 {
      AllIdle(m, s.threads);
    }
  }

  lemma InitFiles(s: Sys)
    requires Init(s)
    ensures OwnInv(s) && FileInv(s) && LogInv(s)
  {
    hide StoreSpec;
    EmptyLog();
  }

  lemma EmptyLog()
    ensures StoreSpec([])
  {
  }

  lemma InitQuotaHasInv(s: Sys)
    requires Init(s)
    ensures QuotaInv(s.quota, s.hist.quota)
    ensures s.quota.totalOccupied == 0 && s.quota.totalKeys == 0 && s.quota.pending == 0
  {
    var limit: nat, intervalMs: nat, now: int, ipc: Ipc :|
      limit < U64 && s.quota == InitQuota(limit, intervalMs, now, ipc);
    InitKeepsQuota(limit, intervalMs, now, ipc);
  }

  /** Every step keeps the invariant, as long as the 64-bit key counter has not wrapped. */
  lemma StepKeepsInv(s: Sys, i: nat, a: Action, s': Sys)
    requires Apply(s, i, a) == Some(s')
    requires Inv(s) && s'.hist.issued + 1 < U64
    ensures Inv(s')
  {
    hide Inv, CallStep, RefreshStep, RefreshingStep, SoPrepareStep, SoReserveStep, SoOpenStep, SoWriteStep,
         SoRenameStep, SoCommitStep, SoCleanupStep, SoCancelStep, SiPrepareStep, SiLookupStep, SiOpenStep,
         SiReadStep, SiFinishStep, SiUnlinkStep, SiFinalizeStep, RdPrepareStep, RdUnlinkStep, RdFinalizeStep,
         RaCollectStep, RaUnlinkStep, RaFinalizeStep, GsPrepareStep, GsFillStep, EndingStep, LeavingStep,
         DsMarkStep, DsWaitStep, DsFinishStep, DsRestoreStep, DsUnregisterStep, DsDeleteStep;
    match s.threads[i] {
      case Idle => CallKeeps(s, i, a, s');
      case Refresh(after) => RefreshKeeps(s, i, a, after, s');
      case Refreshing(after, r) => RefreshingKeeps(s, i, a, after, r, s');
      case SoPrepare(addr, data) => SoPrepareKeeps(s, i, a, addr, data, s');
      case SoReserve(key, data) => SoReserveKeeps(s, i, a, key, data, s');
      case SoOpen(key, data) => SoOpenKeeps(s, i, a, key, data, s');
      case SoWrite(key, data, n) => SoWriteKeeps(s, i, a, key, data, n, s');
      case SoRename(key, data) => SoRenameKeeps(s, i, a, key, data, s');
      case SoCommit(key, data) => SoCommitKeeps(s, i, a, key, data, s');
      case SoCleanup(key, data, code) => SoCleanupKeeps(s, i, a, key, data, code, s');
      case SoCancel(key, data, code) => SoCancelKeeps(s, i, a, key, data, code, s');
      case SiPrepare(key, addr, cap) => SiPrepareKeeps(s, i, a, key, addr, cap, s');
      case SiLookup(key, addr, cap) => SiLookupKeeps(s, i, a, key, addr, cap, s');
      case SiOpen(key, addr, cap, size) => SiOpenKeeps(s, i, a, key, addr, cap, size, s');
      case SiRead(key, size, got) => SiReadKeeps(s, i, a, key, size, got, s');
      case SiFinish(key, ret) => SiFinishKeeps(s, i, a, key, ret, s');
      case SiUnlink(key, size, ret) => SiUnlinkKeeps(s, i, a, key, size, ret, s');
      case SiFinalize(key, size, gone, ret) => SiFinalizeKeeps(s, i, a, key, size, gone, ret, s');
      case RdPrepare(key) => RdPrepareKeeps(s, i, a, key, s');
      case RdUnlink(key, size) => RdUnlinkKeeps(s, i, a, key, size, s');
      case RdFinalize(key, size, gone, ret) => RdFinalizeKeeps(s, i, a, key, size, gone, ret, s');
      case RaCollect => RaCollectKeeps(s, i, a, s');
      case RaUnlink(items, results, first) => RaUnlinkKeeps(s, i, a, items, results, first, s');
      case RaFinalize(items, results, next, first) => RaFinalizeKeeps(s, i, a, items, results, next, first, s');
      case GsPrepare => GsPrepareKeeps(s, i, a, s');
      case GsFill => GsFillKeeps(s, i, a, s');
      case Ending(ret) => EndingKeeps(s, i, a, ret, s');
      case Leaving(ret) => LeavingKeeps(s, i, a, ret, s');
      case DsMark => DsMarkKeeps(s, i, a, s');
      case DsWait => DsWaitKeeps(s, i, a, s');
      case DsFinish(clean) => DsFinishKeeps(s, i, a, clean, s');
      case DsRestore => NeverRestores(s, i);
      case DsUnregister => DsUnregisterKeeps(s, i, a, s');
      case DsDelete => DsDeleteKeeps(s, i, a, s');
    }
  }

  /** The timed-out branch of destroying is unreachable through the C API. */
  lemma NeverRestores(s: Sys, i: nat)
    requires i < |s.threads|
    requires Inv(s)
    ensures !s.threads[i].DsRestore? && s.threads[i] != DsFinish(false)
  {
    hide CountInv, LockInv, KeyInv, OwnInv, FileInv, QuotaTableInv, LogInv;
  }

  // ----- Whole runs -----

  /** The 64-bit key counter has not wrapped anywhere in the run. */
  ghost predicate BeforeWrap(run: seq<Sys>) {
    forall n :: 0 <= n < |run| ==> run[n].hist.issued + 1 < U64
  }

  lemma {:induction false} RunHasInv(run: seq<Sys>, n: nat)
    requires IsRun(run) && BeforeWrap(run) && n < |run|
    ensures Inv(run[n])
    decreases n
  {
    hide Inv, Init, Apply;
    if n == 0 {
      InitHasInv(run[0]);
    } else {
      RunHasInv(run, n - 1);
      assert Next(run[n - 1], run[n - 1 + 1]);
      var i: nat, a: Action :| Apply(run[n - 1], i, a) == Some(run[n]);
      StepKeepsInv(run[n - 1], i, a, run[n]);
    }
  }

  /** In every run, each key is committed at most once; a swap-in that reads a key reads exactly
      the bytes committed under it before; a file is unlinked at most once, and nothing is read
      from it afterwards. */
  lemma EventsAreConsistent(run: seq<Sys>, n: nat)
    requires IsRun(run) && BeforeWrap(run) && n < |run|
    ensures StoreSpec(run[n].hist.log)
  {
    hide CountInv, ApiInv, LockInv, KeyInv, OwnInv, FileInv, QuotaTableInv, StoreSpec, RetOk, IsRun, BeforeWrap;
    RunHasInv(run, n);
  }

  /** A swap-in that returns success for a key delivers the bytes of the one swap-out that
      committed the key. */
  lemma SwapInReturnsWhatWasSwappedOut(run: seq<Sys>, n: nat, i: nat, key: Key, got: Bytes)
    requires IsRun(run) && BeforeWrap(run) && n < |run| && i < |run[n].threads|
    requires run[n].threads[i] == Leaving(SwappedIn(key, got))
    ensures Committed(key, got) in run[n].hist.log
    ensures forall data :: Committed(key, data) in run[n].hist.log ==> data == got
  {
    hide CountInv, ApiInv, LockInv, KeyInv, OwnInv, FileInv, QuotaTableInv, IsRun, BeforeWrap;
    RunHasInv(run, n);
    var log := run[n].hist.log;
    assert RetOk(log, PendingRet(run[n].threads[i]));
    var a :| 0 <= a < |log| && log[a] == ReadDone(key, got);
    var b :| 0 <= b < a && log[b] == Committed(log[a].key, log[a].data);
    forall data | Committed(key, data) in log ensures data == got {
      var c :| 0 <= c < |log| && log[c] == Committed(key, data);
      assert b == c;
    }
  }

  /** From its lookup to its finish, a reader's entry is in the table, pinned, and its file is on
      disk with the committed bytes. */
  lemma FileLivesWhileRead(run: seq<Sys>, n: nat, i: nat, key: Key)
    requires IsRun(run) && BeforeWrap(run) && n < |run| && i < |run[n].threads|
    requires Reads(run[n].threads[i], key)
    ensures var s := run[n];
      && key in s.table.entries && s.table.entries[key].readers > 0
      && Swap(key) in s.disk && Committed(key, s.disk[Swap(key)]) in s.hist.log
  {
    hide CountInv, ApiInv, LockInv, KeyInv, OwnInv, FileInv, QuotaTableInv, StoreSpec, RetOk, IsRun, BeforeWrap;
    RunHasInv(run, n);
    FileWhileRead(run[n], i, key);
    OfEntry(run[n], key);
  }

  /** An entry's reader count is the number of swap-ins between its lookup and its finish. */
  lemma ReadersAreCounted(run: seq<Sys>, n: nat, key: Key)
    requires IsRun(run) && BeforeWrap(run) && n < |run| && key in run[n].table.entries
    ensures run[n].table.entries[key].readers == Total(Readers(key), run[n].threads)
  {
    hide ApiInv, LockInv, KeyInv, OwnInv, FileInv, QuotaTableInv, LogInv, IsRun, BeforeWrap;
    RunHasInv(run, n);
  }

  /** An entry under removal has either a reader left, who will take over, or exactly one thread
      that owns its removal; an active entry has no owner. */
  lemma RemovalHasOneOwner(run: seq<Sys>, n: nat, key: Key)
    requires IsRun(run) && BeforeWrap(run) && n < |run| && key in run[n].table.entries
    ensures var ts, e := run[n].threads, run[n].table.entries[key];
      if e.status == Removing && e.readers == 0 then
        exists i | 0 <= i < |ts| && OwnsRemoval(ts[i], key) ::
          forall j | 0 <= j < |ts| && OwnsRemoval(ts[j], key) :: j == i
      else
        forall j | 0 <= j < |ts| :: !OwnsRemoval(ts[j], key)
  {
    hide CountInv, ApiInv, LockInv, KeyInv, FileInv, QuotaTableInv, LogInv, HolderOk, OwnsRemoval, IsRun, BeforeWrap;
    RunHasInv(run, n);
  }

  /** Whenever no operation is running, every entry is active and unread. */
  lemma NothingPendingAtRest(run: seq<Sys>, n: nat)
    requires IsRun(run) && BeforeWrap(run) && n < |run| && run[n].table.activeOps == 0
    ensures forall k | k in run[n].table.entries ::
              run[n].table.entries[k].status == Active && run[n].table.entries[k].readers == 0
    ensures !run[n].table.removeAll
  {
    hide CountInv, ApiInv, KeyInv, OwnInv, FileInv, QuotaTableInv, LogInv, OwnsRemoval, IsRun, BeforeWrap;
    RunHasInv(run, n);
    Quiescent(run[n]);
    NoRemoveAllAtRest(run[n]);
  }

  lemma NoRemoveAllAtRest(s: Sys)
    requires LockInv(s)
    requires forall i :: 0 <= i < |s.threads| ==> Weight(Ops, s.threads[i]) == 0
    ensures !s.table.removeAll
  {
  }

  /** While RemoveAllData runs, no swap-out is under way. */
  lemma RemoveAllExcludesSwapOut(run: seq<Sys>, n: nat, i: nat, j: nat)
    requires IsRun(run) && BeforeWrap(run) && n < |run| && i < |run[n].threads| && j < |run[n].threads|
    requires IsRemoveAll(run[n].threads[i])
    ensures !IsSwapOut(run[n].threads[j]) && run[n].table.removeAll
  {
    hide CountInv, ApiInv, KeyInv, OwnInv, FileInv, QuotaTableInv, LogInv, IsRun, BeforeWrap, IsSwapOut;
    RunHasInv(run, n);
  }

  /** The quota controller's totals agree with the table, its pending bytes with the reservations
      under way, and nothing exceeds the limit; so none of its guarded subtractions clamps. */
  lemma QuotaAgreesWithTable(run: seq<Sys>, n: nat)
    requires IsRun(run) && BeforeWrap(run) && n < |run|
    ensures var s := run[n];
      && s.quota.totalKeys == |s.table.entries|
      && s.quota.totalOccupied == s.quota.totalDataSize == SumSizes(s.table.entries)
      && s.quota.pending == Total(Reserved, s.threads)
      && s.quota.totalOccupied + s.quota.pending <= s.quota.spaceLimit < U64
      && (s.quota.featureEnabled <==> s.quota.available >= MIN_AVAILABLE_SPACE)
    ensures forall k | k in run[n].table.entries ::
              run[n].table.entries[k].size <= run[n].quota.totalOccupied && 1 <= run[n].quota.totalKeys
    ensures forall i | 0 <= i < |run[n].threads| :: Weight(Reserved, run[n].threads[i]) <= run[n].quota.pending
  {
    hide ApiInv, LockInv, KeyInv, OwnInv, FileInv, LogInv, Weight, SnapshotOk, IsRun, BeforeWrap;
    RunHasInv(run, n);
    var s := run[n];
    forall k | k in s.table.entries
      ensures s.table.entries[k].size <= s.quota.totalOccupied && 1 <= s.quota.totalKeys
    {
      SumWithout(s.table.entries, k);
      assert s.table.entries.Keys == (s.table.entries - {k}).Keys + {k};
    }
    forall i | 0 <= i < |s.threads| ensures Weight(Reserved, s.threads[i]) <= s.quota.pending {
      TotalAtLeast(Reserved, s.threads, i);
    }
  }

  /** The bytes committed since the last answered refresh began are counted exactly, also while
      another refresh waits for its answer, and with the pending bytes they never wrap. */
  lemma CommittedSinceIsExact(run: seq<Sys>, n: nat, i: nat)
    requires IsRun(run) && BeforeWrap(run) && n < |run| && i < |run[n].threads|
    ensures var s, h := run[n], run[n].hist.quota;
      && s.quota.committedSince == SumFrom(h.commits, h.since)
      && s.quota.pending + s.quota.committedSince + MIN_AVAILABLE_SPACE < U64
      && (s.threads[i].Refreshing? ==>
            s.quota.committedSince == s.threads[i].r.committedAtStart + SumFrom(h.commits, s.threads[i].r.start))
  {
    hide CountInv, ApiInv, LockInv, KeyInv, OwnInv, FileInv, LogInv, SumFrom, IsRun, BeforeWrap;
    RunHasInv(run, n);
  }

  /** At most one thread destroys the manager; meanwhile all others are outside, so the wait for
      running operations cannot time out and no entry is cleared under an operation.  A manager
      that was deleted has no thread inside. */
  lemma DestroyIsExclusive(run: seq<Sys>, n: nat, i: nat)
    requires IsRun(run) && BeforeWrap(run) && n < |run| && i < |run[n].threads|
    ensures var s := run[n];
      && (IsDestroyer(s.threads[i]) ==>
            && s.table.activeOps == 0
            && s.threads[i] != DsFinish(false) && s.threads[i] != DsRestore
            && forall j | 0 <= j < |s.threads| && j != i :: s.threads[j] == Idle)
      && (s.threads[i] != Idle ==> !s.deleted)
      && (s.api.Present? ==> s.table.activeOps <= s.api.activeCalls)
  {
    hide LockInv, KeyInv, OwnInv, FileInv, QuotaTableInv, LogInv, IsRun, BeforeWrap;
    RunHasInv(run, n);
    var s := run[n];
    OpsAtMostCalls(s.threads);
    if IsDestroyer(s.threads[i]) {
      AloneWhileDestroying(s, i);
    } else {
      TotalAtLeast(Calls, s.threads, i);
    }
  }

  /** The key that the next swap-out gets was never issued before: it is in no entry, in no event,
      and no other swap-out holds it. */
  lemma NextKeyIsFresh(run: seq<Sys>, n: nat)
    requires IsRun(run) && BeforeWrap(run) && n < |run|
    ensures var s, key := run[n], run[n].table.nextKeyId;
      && key > 0 && key !in s.table.entries && Swap(key) !in s.disk
      && (forall e | e in s.hist.log :: e.key != key)
      && (forall i | 0 <= i < |s.threads| && IsSwapOut(s.threads[i]) :: NewKey(s.threads[i]) < key)
  {
    hide CountInv, ApiInv, LockInv, OwnInv, QuotaTableInv, RetOk, FilesOk, IsRun, BeforeWrap;
    RunHasInv(run, n);
    var s, key := run[n], run[n].table.nextKeyId;
    var log := s.hist.log;
    forall e | e in log ensures e.key != key {
      var a :| 0 <= a < |log| && log[a] == e;
      if e.ReadDone? {
        var b :| 0 <= b < a && log[b] == Committed(log[a].key, log[a].data);
      }
    }
  }

  /** Direct I/O: the read engine's own checks of alignment and size cannot fail for a swap-in
      that was admitted, so only a short buffer or the file system makes it fail. */
  lemma EngineChecksCannotFail(run: seq<Sys>, n: nat, i: nat, a: Action, s': Sys)
    requires IsRun(run) && BeforeWrap(run) && n < |run| && i < |run[n].threads|
    requires run[n].threads[i].SiOpen? && Apply(run[n], i, a) == Some(s')
    ensures var pc := run[n].threads[i];
      && pc.size > 0 && (run[n].table.directIo ==> IsDioAligned(pc.addr, pc.size))
      && s'.threads[i] == if pc.cap < pc.size then SiFinish(pc.key, Failed(BufferTooSmall))
                          else if a.Fails? then SiFinish(pc.key, Failed(a.code))
                          else SiRead(pc.key, pc.size, [])
  {
    hide CountInv, ApiInv, LockInv, OwnInv, FileInv, QuotaTableInv, LogInv, IsRun, BeforeWrap;
    RunHasInv(run, n);
    OfThread(run[n], i);
    assert AddrOk(run[n].table.directIo, run[n].threads[i]);
  }
}
