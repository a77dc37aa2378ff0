/**
 For each part of the invariant, what a step has to leave alone to keep it: thread `i` moves
 to another program point, and everything that part speaks about stays in place.
 */
module ProtocolFrames {
  import opened SwapTypes
  import opened QuotaSpec
  import opened ManagerSpec
  import opened Protocol
  import opened ProtocolInvariant

  /** Only thread `i` has moved. */
  ghost predicate Moves(s: Sys, i: nat, s': Sys) {
    i < |s.threads| == |s'.threads| && s'.threads == s.threads[i := s'.threads[i]]
  }

  // ----- The C API -----

  ghost predicate NobodyDestroys(s: Sys) {
    && s.api.Present? && !s.api.destroying
    && s.table.initialized && !s.table.shuttingDown && !s.deleted
    && forall j :: 0 <= j < |s.threads| ==> !IsDestroyer(s.threads[j])
  }

  /** A guarded call keeps the manager alive. */
  lemma InsideCall(s: Sys, i: nat)
    requires CountInv(s) && ApiInv(s)
    requires i < |s.threads| && Weight(Calls, s.threads[i]) == 1
    ensures NobodyDestroys(s)
  {
    TotalAtLeast(Calls, s.threads, i);
  }

  lemma ApiStays(s: Sys, i: nat, s': Sys)
    requires NobodyDestroys(s) && Moves(s, i, s')
    requires !IsDestroyer(s'.threads[i])
    requires s'.api.Present? && !s'.api.destroying
    requires s'.table.initialized && !s'.table.shuttingDown && !s'.deleted
    ensures ApiInv(s')
  {
  }

  // ----- Locks and RemoveAllData -----

  lemma LocksStay(s: Sys, i: nat, s': Sys)
    requires LockInv(s) && Moves(s, i, s')
    requires s'.mutex == s.mutex && s'.refreshMutex == s.refreshMutex
    requires s'.table.removeAll == s.table.removeAll
    requires s'.threads[i].Refreshing? == s.threads[i].Refreshing?
    requires s'.threads[i].RaFinalize? == s.threads[i].RaFinalize?
    requires IsRemoveAll(s'.threads[i]) == IsRemoveAll(s.threads[i])
    requires IsSwapOut(s'.threads[i]) ==> IsSwapOut(s.threads[i])
    ensures LockInv(s')
  {
    if s.table.removeAll {
      var j :| 0 <= j < |s.threads| && IsRemoveAll(s.threads[j]);
      assert IsRemoveAll(s'.threads[j]);
    }
  }

  // ----- Keys -----

  lemma KeysStay(s: Sys, i: nat, s': Sys)
    requires KeyInv(s) && Moves(s, i, s')
    requires s'.table.nextKeyId == s.table.nextKeyId && s'.hist.issued == s.hist.issued
    requires s'.table.directIo == s.table.directIo && s'.hist.committed == s.hist.committed
    requires forall k :: k in s'.table.entries ==>
               k in s.table.entries && s'.table.entries[k].size == s.table.entries[k].size
    requires IsSwapOut(s'.threads[i]) ==>
               && IsSwapOut(s.threads[i])
               && NewKey(s'.threads[i]) == NewKey(s.threads[i])
               && NewData(s'.threads[i]) == NewData(s.threads[i])
    requires s'.threads[i].SoPrepare? ==> |s'.threads[i].data| < U64
    requires AddrOk(s.table.directIo, s'.threads[i])
    ensures KeyInv(s')
  {
  }

  // ----- Removal -----

  lemma OwnersStay(s: Sys, i: nat, s': Sys)
    requires OwnInv(s) && Moves(s, i, s')
    requires s'.table.entries == s.table.entries
    requires forall k :: OwnsRemoval(s'.threads[i], k) <==> OwnsRemoval(s.threads[i], k)
    requires HolderOk(s.table.entries, s'.threads[i])
    ensures OwnInv(s')
  {
    hide OwnsRemoval, HolderOk;
    forall k | k in s'.table.entries && s'.table.entries[k].status == Removing && s'.table.entries[k].readers == 0
      ensures exists j :: 0 <= j < |s'.threads| && OwnsRemoval(s'.threads[j], k)
    {
      var j :| 0 <= j < |s.threads| && OwnsRemoval(s.threads[j], k);
      assert OwnsRemoval(s'.threads[j], k);
    }
  }

  // ----- Files -----

  /** The disk may differ at the temporary file of the swap-out that thread `i` runs. */
  ghost predicate OnlyOwnTmp(s: Sys, i: nat, disk': Disk)
    requires i < |s.threads|
  {
    forall p | !IsSwapOut(s.threads[i]) || p != Tmp(NewKey(s.threads[i])) ::
      (p in disk' <==> p in s.disk) && (p in disk' ==> disk'[p] == s.disk[p])
  }

  lemma OtherFilesStay(s: Sys, i: nat, disk': Disk, j: nat)
    requires KeyInv(s) && i < |s.threads| && j < |s.threads| && i != j
    requires OnlyOwnTmp(s, i, disk') && FilesOk(s.disk, s.hist.committed, s.threads[j])
    ensures FilesOk(disk', s.hist.committed, s.threads[j])
  {
    hide HasUnlinked;
  }

  lemma FilesStay(s: Sys, i: nat, s': Sys)
    requires FileInv(s) && KeyInv(s) && Moves(s, i, s')
    requires OnlyOwnTmp(s, i, s'.disk)
    requires s'.hist.committed == s.hist.committed
    requires s.table.nextKeyId <= s'.table.nextKeyId
    requires s'.table.entries.Keys == s.table.entries.Keys
    requires forall k :: HasUnlinked(s'.threads[i], k) <==> HasUnlinked(s.threads[i], k)
    requires FilesOk(s'.disk, s.hist.committed, s'.threads[i])
    ensures FileInv(s')
  {
    hide HasUnlinked, FilesOk;
    forall j | 0 <= j < |s'.threads|
      ensures FilesOk(s'.disk, s'.hist.committed, s'.threads[j])
    {
      if j != i {
        OtherFilesStay(s, i, s'.disk, j);
      }
    }
    forall k | k in s'.table.entries && Swap(k) !in s'.disk
      ensures exists j :: 0 <= j < |s'.threads| && HasUnlinked(s'.threads[j], k)
    {
      var j :| 0 <= j < |s.threads| && HasUnlinked(s.threads[j], k);
      assert HasUnlinked(s'.threads[j], k);
    }
  }

  // ----- Quota -----

  lemma QuotaStays(s: Sys, i: nat, s': Sys)
    requires QuotaTableInv(s) && Moves(s, i, s')
    requires s'.quota == s.quota && s'.hist.quota == s.hist.quota
    requires s'.table.entries.Keys == s.table.entries.Keys
    requires forall k :: k in s.table.entries ==> s'.table.entries[k].size == s.table.entries[k].size
    requires s'.threads[i].Refreshing? ==> SnapshotOk(s.quota, s.hist.quota, s'.threads[i].r)
    ensures QuotaTableInv(s')
  {
    SumSameSizes(s.table.entries, s'.table.entries);
    assert |s.table.entries| == |s.table.entries.Keys| == |s'.table.entries|;
  }

  // ----- Events -----

  lemma LogStays(s: Sys, i: nat, s': Sys)
    requires LogInv(s) && Moves(s, i, s')
    requires s'.hist.log == s.hist.log && s'.hist.committed == s.hist.committed
    requires forall k: Key :: k in s.hist.committed && Swap(k) in s'.disk ==> Swap(k) in s.disk
    requires RetOk(s.hist.log, PendingRet(s'.threads[i]))
    ensures LogInv(s')
  {
  }
}
