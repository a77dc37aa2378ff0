/** The steps outside swapping and removing keep the invariant: entering and leaving a call,
    refreshing the free space, statistics, destroying the manager, and preparing a swap-out. */
module ProtocolOthers {
  import opened SwapTypes
  import opened QuotaSpec
  import opened ManagerSpec
  import opened Protocol
  import opened ProtocolInvariant
  import opened ProtocolCounts
  import opened ProtocolFrames
  import opened ProtocolEffects
  import opened ProtocolSteps

  // ----- The C API's guard -----

  lemma OpenForCalls(s: Sys)
    requires ApiInv(s) && s.api.Present? && !s.api.destroying
    ensures NobodyDestroys(s)
  {
  }

  lemma CallKeeps(s: Sys, i: nat, a: Action, s': Sys)
    requires i < |s.threads| && s.threads[i] == Idle
    requires CallStep(s, i, a) == Some(s')
    requires Inv(s)
    ensures Inv(s')
  {
    hide Inv;
    if s' != s {
      if a.CallDestroy? {
        DestroyBegins(s, i, s');
      } else {
        EnterKeeps(s, i, s');
      }
    }
  }

  ghost predicate IsFirst(pc: PC) {
    || (pc.SoPrepare? && |pc.data| < U64)
    || pc.SiPrepare? || pc.RdPrepare? || pc.RaCollect? || pc.GsPrepare?
  }

  lemma EnterKeeps(s: Sys, i: nat, s': Sys)
    requires i < |s.threads| && s.threads[i] == Idle
    requires s.api.Present? && !s.api.destroying
    requires Moves(s, i, s') && IsFirst(s'.threads[i])
    requires s' == s.(api := EnterCall(s.api).0, threads := s'.threads)
    requires Inv(s)
    ensures Inv(s')
  {
    hide CountInv, ApiInv, LockInv, KeyInv, OwnInv, FileInv, QuotaTableInv, LogInv;
    CountGivesMargin(s, i);
    DeltasKeepCount(s, i, s');
    OpenForCalls(s);
    ApiStays(s, i, s');
    LocksStay(s, i, s');
    HoldStays(s, i, s');
    QuotaStays(s, i, s');
  }

  lemma LeavingKeeps(s: Sys, i: nat, a: Action, ret: Ret, s': Sys)
    requires i < |s.threads| && s.threads[i] == Leaving(ret)
    requires LeavingStep(s, i, a, ret) == Some(s')
    requires Inv(s)
    ensures Inv(s')
  {
    hide CountInv, ApiInv, LockInv, KeyInv, OwnInv, FileInv, QuotaTableInv, LogInv;
    CountGivesMargin(s, i);
    DeltasKeepCount(s, i, s');
    InsideCall(s, i);
    ApiStays(s, i, s');
    LocksStay(s, i, s');
    HoldStays(s, i, s');
    QuotaStays(s, i, s');
  }

  lemma EndingKeeps(s: Sys, i: nat, a: Action, ret: Ret, s': Sys)
    requires i < |s.threads| && s.threads[i] == Ending(ret)
    requires EndingStep(s, i, a, ret) == Some(s')
    requires Inv(s)
    ensures Inv(s')
  {
    hide Inv, HolderOk, FilesOk, RetOk;
    OfThread(s, i);
    PlainCalm(s, i, s');
  }

  // ----- GetStats -----

  lemma GsPrepareKeeps(s: Sys, i: nat, a: Action, s': Sys)
    requires i < |s.threads| && s.threads[i] == GsPrepare
    requires GsPrepareStep(s, i, a) == Some(s')
    requires Inv(s)
    ensures Inv(s')
  {
    hide Inv, HolderOk, FilesOk;
    OfThread(s, i);
    PlainCalm(s, i, s');
  }

  lemma GsFillKeeps(s: Sys, i: nat, a: Action, s': Sys)
    requires i < |s.threads| && s.threads[i] == GsFill
    requires GsFillStep(s, i, a) == Some(s')
    requires Inv(s)
    ensures Inv(s')
  {
    hide Inv, HolderOk, FilesOk;
    OfThread(s, i);
    PlainCalm(s, i, s');
  }

  // ----- Refreshing the free space -----

  lemma RefreshKeeps(s: Sys, i: nat, a: Action, after: AfterRefresh, s': Sys)
    requires i < |s.threads| && s.threads[i] == Refresh(after)
    requires RefreshStep(s, i, a, after) == Some(s')
    requires Inv(s)
    ensures Inv(s')
  {
    hide Inv;
    OfThread(s, i);
    if s'.threads[i].Refreshing? {
      RefreshBegins(s, i, s', after, a.now);
    } else {
      CalmStep(s, i, s');
    }
  }

  lemma RefreshBegins(s: Sys, i: nat, s': Sys, after: AfterRefresh, now: int)
    requires i < |s.threads| && s.threads[i] == Refresh(after) && s.refreshMutex.None?
    requires s' == At(s.(refreshMutex := Some(i)), i,
                      Refreshing(after, Snapshot(now, s.quota.committedSince, |s.hist.quota.commits|)))
    requires Inv(s)
    ensures Inv(s')
  {
    hide CountInv, ApiInv, LockInv, KeyInv, OwnInv, FileInv, QuotaTableInv, LogInv;
    OfThread(s, i);
    DeltasKeepCount(s, i, s');
    InsideCall(s, i);
    ApiStays(s, i, s');
    TakesRefreshMutex(s, i, s');
    HoldStays(s, i, s');
    QuotaStays(s, i, s');
  }

  lemma TakesRefreshMutex(s: Sys, i: nat, s': Sys)
    requires LockInv(s) && Moves(s, i, s')
    requires s.threads[i].Refresh? && s'.threads[i].Refreshing? && s'.threads[i].after == s.threads[i].after
    requires s.refreshMutex.None? && s'.refreshMutex == Some(i)
    requires s'.mutex == s.mutex && s'.table.removeAll == s.table.removeAll
    ensures LockInv(s')
  {
    if s.table.removeAll {
      var j :| 0 <= j < |s.threads| && IsRemoveAll(s.threads[j]);
      assert IsRemoveAll(s'.threads[j]);
    }
  }

  lemma RefreshingKeeps(s: Sys, i: nat, a: Action, after: AfterRefresh, r: Snapshot, s': Sys)
    requires i < |s.threads| && s.threads[i] == Refreshing(after, r)
    requires RefreshingStep(s, i, a, after, r) == Some(s')
    requires Inv(s)
    ensures Inv(s')
  {
    hide CountInv, ApiInv, LockInv, KeyInv, OwnInv, FileInv, QuotaTableInv, LogInv;
    OfThread(s, i);
    DeltasKeepCount(s, i, s');
    InsideCall(s, i);
    ApiStays(s, i, s');
    DropsRefreshMutex(s, i, s');
    HoldStays(s, i, s');
    RefreshKeepsQuota(s, i, s', r, a.ipc);
  }

  lemma DropsRefreshMutex(s: Sys, i: nat, s': Sys)
    requires LockInv(s) && Moves(s, i, s')
    requires s.threads[i].Refreshing? && s'.threads[i] == AfterRefreshPC(s.threads[i].after)
    requires s'.refreshMutex.None?
    requires s'.mutex == s.mutex && s'.table.removeAll == s.table.removeAll
    ensures LockInv(s')
  {
    if s.table.removeAll {
      var j :| 0 <= j < |s.threads| && IsRemoveAll(s.threads[j]);
      assert IsRemoveAll(s'.threads[j]);
    }
  }

  lemma RefreshKeepsQuota(s: Sys, i: nat, s': Sys, r: Snapshot, ipc: Ipc)
    requires QuotaTableInv(s) && LockInv(s) && Moves(s, i, s')
    requires s.threads[i].Refreshing? && s.threads[i].r == r && !s'.threads[i].Refreshing?
    requires s'.quota == EndRefresh(s.quota, r, ipc)
    requires s'.hist.quota == if Answered(s.quota, ipc) then s.hist.quota.(since := r.start) else s.hist.quota
    requires s'.table.entries == s.table.entries
    ensures QuotaTableInv(s')
  {
    EndRefreshMeaning(s.quota, s.hist.quota, r, ipc);
  }

  // ----- Preparing a swap-out -----

  lemma SoPrepareKeeps(s: Sys, i: nat, a: Action, addr: nat, data: Bytes, s': Sys)
    requires i < |s.threads| && s.threads[i] == SoPrepare(addr, data)
    requires SoPrepareStep(s, i, a, addr, data) == Some(s')
    requires Inv(s) && s'.hist.issued + 1 < U64
    ensures Inv(s')
  {
    hide Inv;
    OfThread(s, i);
    if s'.threads[i].Leaving? {
      PlainCalm(s, i, s');
    } else {
      KeyIssued(s, i, s', addr, data);
    }
  }

  lemma KeyIssued(s: Sys, i: nat, s': Sys, addr: nat, data: Bytes)
    requires i < |s.threads| && s.threads[i] == SoPrepare(addr, data) && data != []
    requires var (t, code, key) := PrepareSwapOut(s.table, addr, |data|);
      code == Ok
      && s' == At(s.(table := t, hist := s.hist.(issued := s.hist.issued + 1)), i, Refresh(ForReserve(key, data)))
    requires Inv(s) && s'.hist.issued + 1 < U64
    ensures Inv(s')
  {
    hide CountInv, ApiInv, LockInv, KeyInv, OwnInv, FileInv, QuotaTableInv, LogInv, HolderOk, FilesOk, RetOk;
    OfThread(s, i);
    NextKeyIsNew(s);
    DeltasKeepCount(s, i, s');
    InsideCall(s, i);
    ApiStays(s, i, s');
    NewKeyKeepsLocks(s, i, s');
    NewKeyKeepsKeys(s, i, s', s.table.nextKeyId, data);
    NewKeyKeepsRecords(s, i, s', s.table.nextKeyId, data);
  }

  lemma NextKeyIsNew(s: Sys)
    requires KeyInv(s)
    ensures s.table.nextKeyId == s.hist.issued + 1
  {
  }

  lemma NewKeyKeepsRecords(s: Sys, i: nat, s': Sys, key: Key, data: Bytes)
    requires i < |s.threads| && s.threads[i].SoPrepare? && key == s.table.nextKeyId
    requires s' == At(s.(table := s'.table, hist := s.hist.(issued := s'.hist.issued)), i, Refresh(ForReserve(key, data)))
    requires s'.table.entries == s.table.entries && key <= s'.table.nextKeyId
    requires Inv(s)
    ensures OwnInv(s') && FileInv(s') && QuotaTableInv(s') && LogInv(s')
  {
    hide CountInv, ApiInv, LockInv, KeyInv, OwnInv, FileInv, QuotaTableInv, LogInv;
    NewKeyHasNoFile(s);
    OwnersStay(s, i, s');
    FilesStay(s, i, s');
    QuotaStays(s, i, s');
    LogStays(s, i, s');
  }

  lemma NewKeyHasNoFile(s: Sys)
    requires FileInv(s)
    ensures Swap(s.table.nextKeyId) !in s.disk
  {
  }

  lemma NewKeyKeepsLocks(s: Sys, i: nat, s': Sys)
    requires LockInv(s) && Moves(s, i, s')
    requires s.threads[i].SoPrepare? && s'.threads[i].Refresh? && !s.table.removeAll
    requires s'.refreshMutex == s.refreshMutex && s'.mutex == s.mutex && s'.table.removeAll == s.table.removeAll
    ensures LockInv(s')
  {
  }

  lemma NewKeyKeepsKeys(s: Sys, i: nat, s': Sys, key: Key, data: Bytes)
    requires KeyInv(s) && Moves(s, i, s')
    requires s.threads[i].SoPrepare? && s.threads[i].data == data && data != []
    requires s.table.directIo ==> |data| % DIO_ALIGNMENT == 0
    requires s'.threads[i] == Refresh(ForReserve(key, data)) && key == s.table.nextKeyId
    requires s'.table.nextKeyId == key + 1 < U64 && s'.hist.issued == s.hist.issued + 1
    requires s'.table.entries == s.table.entries && s'.table.directIo == s.table.directIo
    requires s'.hist.committed == s.hist.committed
    ensures KeyInv(s')
  {
  }

  // ----- DestroyManager -----

  lemma DestroyBegins(s: Sys, i: nat, s': Sys)
    requires i < |s.threads| && s.threads[i] == Idle
    requires s.api.Present? && !s.api.destroying && s.api.activeCalls == 0
    requires s' == At(s.(api := s.api.(destroying := true)), i, DsMark)
    requires Inv(s)
    ensures Inv(s')
  {
    hide CountInv, ApiInv, LockInv, KeyInv, OwnInv, FileInv, QuotaTableInv, LogInv;
    CountGivesMargin(s, i);
    DeltasKeepCount(s, i, s');
    OpenForCalls(s);
    BeginKeepsApi(s, i, s');
    LocksStay(s, i, s');
    HoldStays(s, i, s');
    QuotaStays(s, i, s');
  }

  lemma BeginKeepsApi(s: Sys, i: nat, s': Sys)
    requires NobodyDestroys(s) && Moves(s, i, s') && s.api.activeCalls == 0
    requires s' == s.(api := s.api.(destroying := true), threads := s'.threads)
    requires s'.threads[i] == DsMark
    ensures ApiInv(s')
  {
  }

  /** While a thread destroys the manager, every other thread is outside of it. */
  lemma AloneWhileDestroying(s: Sys, i: nat)
    requires CountInv(s) && ApiInv(s)
    requires i < |s.threads| && IsDestroyer(s.threads[i])
    ensures s.table.activeOps == 0 && s.quota.pending == 0
    ensures forall j | 0 <= j < |s.threads| && j != i :: s.threads[j] == Idle
    ensures !s.threads[i].DsRestore?
  {
    OpsAtMostCalls(s.threads);
    NoneCounted(Calls, s.threads);
    assert forall j | 0 <= j < |s.threads| :: Weight(Calls, s.threads[j]) == 0;
    assert forall j | 0 <= j < |s.threads| :: Weight(Reserved, s.threads[j]) == 0;
    if Total(Reserved, s.threads) > 0 {
      var j := TotalWitness(Reserved, s.threads);
    }
  }

  lemma DestroyerMovesOn(s: Sys, i: nat, s': Sys)
    requires ApiInv(s) && Moves(s, i, s')
    requires IsDestroyer(s.threads[i]) && IsDestroyer(s'.threads[i])
    requires s'.deleted == s.deleted
    requires s'.api == s.api || s'.api.Gone?
    requires s'.api.Gone? <==> s'.threads[i].DsDelete?
    requires !s'.threads[i].DsRestore? && (s'.threads[i].DsFinish? ==> s'.threads[i].clean)
    requires s'.threads[i].DsUnregister? || s'.threads[i].DsDelete? ==> s'.table.entries == map[]
    requires s'.threads[i].DsMark? || s'.threads[i].DsWait? || s'.threads[i].DsFinish? ==> s'.table.initialized
    ensures ApiInv(s')
  {
  }

  /** A step of the destroyer that leaves entries, files and quota alone. */
  lemma DestroyerStep(s: Sys, i: nat, s': Sys)
    requires Moves(s, i, s') && IsDestroyer(s.threads[i])
    requires IsDestroyer(s'.threads[i]) || s'.threads[i] == Idle
    requires s'.table == s.table.(shuttingDown := s'.table.shuttingDown)
    requires s' == s.(table := s'.table, api := s'.api, deleted := s'.deleted, threads := s'.threads)
    requires s'.api == s.api || s'.api.Gone?
    requires ApiInv(s')
    requires Inv(s)
    ensures Inv(s')
  {
    hide ApiInv, LockInv, KeyInv, OwnInv, FileInv, QuotaTableInv, LogInv;
    AloneWhileDestroying(s, i);
    DestroyingLeavesNoCalls(s, i);
    DeltasKeepCount(s, i, s');
    LocksStay(s, i, s');
    HoldStays(s, i, s');
    QuotaStays(s, i, s');
  }

  lemma DestroyingLeavesNoCalls(s: Sys, i: nat)
    requires ApiInv(s) && i < |s.threads| && IsDestroyer(s.threads[i])
    ensures s.api.Present? ==> s.api.activeCalls == 0
  {
  }

  lemma DsMarkKeeps(s: Sys, i: nat, a: Action, s': Sys)
    requires i < |s.threads| && s.threads[i] == DsMark
    requires DsMarkStep(s, i, a) == Some(s')
    requires Inv(s)
    ensures Inv(s')
  {
    hide CountInv, LockInv, KeyInv, OwnInv, FileInv, QuotaTableInv, LogInv;
    DestroyerMovesOn(s, i, s');
    DestroyerStep(s, i, s');
  }

  /** The wait for the running operations ends at once: there are none. */
  lemma DsWaitKeeps(s: Sys, i: nat, a: Action, s': Sys)
    requires i < |s.threads| && s.threads[i] == DsWait
    requires DsWaitStep(s, i, a) == Some(s')
    requires Inv(s)
    ensures Inv(s') && s'.threads[i] == DsFinish(true)
  {
    hide CountInv, LockInv, KeyInv, OwnInv, FileInv, QuotaTableInv, LogInv;
    AloneWhileDestroying(s, i);
    DestroyerMovesOn(s, i, s');
    DestroyerStep(s, i, s');
  }

  lemma DsUnregisterKeeps(s: Sys, i: nat, a: Action, s': Sys)
    requires i < |s.threads| && s.threads[i] == DsUnregister
    requires DsUnregisterStep(s, i, a) == Some(s')
    requires Inv(s)
    ensures Inv(s')
  {
    hide CountInv, LockInv, KeyInv, OwnInv, FileInv, QuotaTableInv, LogInv;
    DestroyerMovesOn(s, i, s');
    DestroyerStep(s, i, s');
  }

  lemma DsDeleteKeeps(s: Sys, i: nat, a: Action, s': Sys)
    requires i < |s.threads| && s.threads[i] == DsDelete
    requires DsDeleteStep(s, i, a) == Some(s')
    requires Inv(s)
    ensures Inv(s')
  {
    hide CountInv, LockInv, KeyInv, OwnInv, FileInv, QuotaTableInv, LogInv;
    AloneWhileDestroying(s, i);
    assert ApiInv(s');
    DestroyerStep(s, i, s');
  }

  lemma DsFinishKeeps(s: Sys, i: nat, a: Action, clean: bool, s': Sys)
    requires i < |s.threads| && s.threads[i] == DsFinish(clean)
    requires DsFinishStep(s, i, a, clean) == Some(s')
    requires Inv(s)
    ensures Inv(s')
  {
    hide CountInv, LockInv, KeyInv, OwnInv, FileInv, QuotaTableInv, LogInv;
    AloneWhileDestroying(s, i);
    DestroyerMovesOn(s, i, s');
    WipeKeepsRest(s, i, s');
  }

  /** The store is emptied: with every other thread outside, nothing relied on it. */
  lemma WipeKeepsRest(s: Sys, i: nat, s': Sys)
    requires Moves(s, i, s') && s.threads[i].DsFinish? && s'.threads[i] == DsUnregister
    requires forall j | 0 <= j < |s.threads| && j != i :: s.threads[j] == Idle
    requires s'.table == FinishDestroy(s.table, true).0
    requires s'.quota == AllEntriesRemoved(s.quota) && s.quota.pending == 0
    requires s'.hist == s.hist && s'.api == s.api && s'.mutex == s.mutex && s'.refreshMutex == s.refreshMutex
    requires forall p :: p in s'.disk ==> p in s.disk
    requires Inv(s)
    ensures CountInv(s') && LockInv(s') && KeyInv(s') && OwnInv(s') && FileInv(s') && QuotaTableInv(s') && LogInv(s')
  {
    hide CountInv, ApiInv, LockInv, KeyInv, OwnInv, FileInv, QuotaTableInv, LogInv;
    DeltasKeepCount(s, i, s');
    LocksStay(s, i, s');
    KeysStay(s, i, s');
    LogStays(s, i, s');
    WipeKeepsRecords(s, i, s');
  }

  lemma WipeKeepsRecords(s: Sys, i: nat, s': Sys)
    requires Moves(s, i, s') && s'.threads[i] == DsUnregister
    requires forall j | 0 <= j < |s.threads| && j != i :: s.threads[j] == Idle
    requires s'.table.entries == map[] && s'.table.nextKeyId == s.table.nextKeyId
    requires s'.quota == AllEntriesRemoved(s.quota) && s.quota.pending == 0 && s'.hist == s.hist
    requires forall p :: p in s'.disk ==> p in s.disk
    requires QuotaTableInv(s) && FileInv(s)
    ensures OwnInv(s') && FileInv(s') && QuotaTableInv(s')
  {
    hide CountInv, FileInv, QuotaTableInv, OwnInv, HolderOk, FilesOk, OwnsRemoval;
    forall j | 0 <= j < |s'.threads|
      ensures Outside(s'.threads[j])
      ensures HolderOk(s'.table.entries, s'.threads[j])
      ensures forall k :: !OwnsRemoval(s'.threads[j], k)
      ensures FilesOk(s'.disk, s'.hist.committed, s'.threads[j])
    {
      OutsideHoldsNothing(s'.table.entries, s'.disk, s'.hist.committed, s'.threads[j]);
    }
    EmptyOwn(s');
    EmptyFiles(s, s');
    EmptyQuota(s, s');
  }

  predicate Outside(pc: PC) {
    pc.Idle? || pc.DsUnregister?
  }

  lemma OutsideHoldsNothing(entries: map<Key, Entry>, disk: Disk, committed: map<Key, Bytes>, pc: PC)
    requires Outside(pc)
    ensures HolderOk(entries, pc) && FilesOk(disk, committed, pc)
    ensures forall k :: !OwnsRemoval(pc, k)
  {
  }

  lemma EmptyOwn(s: Sys)
    requires s.table.entries == map[]
    requires forall j | 0 <= j < |s.threads| :: HolderOk(s.table.entries, s.threads[j])
    requires forall j, k | 0 <= j < |s.threads| :: !OwnsRemoval(s.threads[j], k)
    ensures OwnInv(s)
  {
    hide HolderOk, OwnsRemoval;
  }

  lemma EmptyFiles(s: Sys, s': Sys)
    requires s'.table.entries == map[] && s'.table.nextKeyId == s.table.nextKeyId
    requires forall j | 0 <= j < |s'.threads| :: FilesOk(s'.disk, s'.hist.committed, s'.threads[j])
    requires forall p :: p in s'.disk ==> p in s.disk
    requires FileInv(s)
    ensures FileInv(s')
  {
    hide FilesOk, HasUnlinked;
  }

  lemma EmptyQuota(s: Sys, s': Sys)
    requires s'.table.entries == map[]
    requires forall j | 0 <= j < |s'.threads| :: Outside(s'.threads[j])
    requires s'.quota == AllEntriesRemoved(s.quota) && s.quota.pending == 0 && s'.hist == s.hist
    requires QuotaTableInv(s)
    ensures QuotaTableInv(s')
  {
    assert SumSizes(s'.table.entries) == 0;
  }
}
