/** Every step, from every program point, keeps the invariant. */
module ProtocolSteps {
  import opened SwapTypes
  import opened QuotaSpec
  import opened ManagerSpec
  import opened Protocol
  import opened ProtocolInvariant
  import opened ProtocolCounts
  import opened ProtocolFrames
  import opened ProtocolEffects

  // ----- What the invariant says about one thread -----

  lemma OfThread(s: Sys, i: nat)
    requires i < |s.threads|
    requires Inv(s)
    ensures Margin(s, i)
    ensures HolderOk(s.table.entries, s.threads[i])
    ensures FilesOk(s.disk, s.hist.committed, s.threads[i])
    ensures RetOk(s.hist.log, PendingRet(s.threads[i]))
    ensures QuotaInv(s.quota, s.hist.quota)
  {
    hide CountInv, ApiInv, LockInv, KeyInv, OwnInv, FileInv, QuotaTableInv, LogInv,
         HolderOk, FilesOk, RetOk, PendingRet, Margin, QuotaInv;
    CountGivesMargin(s, i);
    EachThread(s, i);
  }

  lemma EachThread(s: Sys, i: nat)
    requires OwnInv(s) && FileInv(s) && LogInv(s) && QuotaTableInv(s) && i < |s.threads|
    ensures HolderOk(s.table.entries, s.threads[i])
    ensures FilesOk(s.disk, s.hist.committed, s.threads[i])
    ensures RetOk(s.hist.log, PendingRet(s.threads[i]))
    ensures QuotaInv(s.quota, s.hist.quota)
  {
    hide HolderOk, FilesOk, RetOk, PendingRet, OwnsRemoval, HasUnlinked, StoreSpec, QuotaInv;
  }

  lemma UnlinkedIsOwned(pc: PC, key: Key)
    requires HasUnlinked(pc, key)
    ensures OwnsRemoval(pc, key)
  {
  }

  /** The key of a swap-out is unknown to everyone else until the commit. */
  lemma OfSwapOut(s: Sys, i: nat)
    requires i < |s.threads| && IsSwapOut(s.threads[i])
    requires Inv(s)
    ensures var key, data := NewKey(s.threads[i]), NewData(s.threads[i]);
      && 1 <= key < s.table.nextKeyId && key !in s.hist.committed && key !in s.table.entries
      && 0 < |data| < U64
      && (s.table.directIo ==> |data| % DIO_ALIGNMENT == 0)
      && (forall j | 0 <= j < |s.threads| :: !Reads(s.threads[j], key))
      && (forall j | 0 <= j < |s.threads| :: !HasUnlinked(s.threads[j], key))
      && (forall n | 0 <= n < |s.hist.log| && s.hist.log[n].Unlinked? :: s.hist.log[n].key != key)
  {
    hide OwnsRemoval, FilesOk, RetOk;
  }

  lemma OfEntry(s: Sys, key: Key)
    requires key in s.table.entries
    requires Inv(s)
    ensures key in s.hist.committed && s.table.entries[key].size == |s.hist.committed[key]| > 0
    ensures s.table.directIo ==> s.table.entries[key].size % DIO_ALIGNMENT == 0
    ensures s.table.entries[key].readers == Total(Readers(key), s.threads)
    ensures Swap(key) in s.disk ==> s.disk[Swap(key)] == s.hist.committed[key]
    ensures Swap(key) !in s.disk ==> exists j :: 0 <= j < |s.threads| && HasUnlinked(s.threads[j], key)
  {
    hide ApiInv, LockInv, OwnInv, QuotaTableInv, LogInv, HasUnlinked, FilesOk;
  }

  // ----- Steps that change little -----

  /** The thread keeps its key, its removals and its unlinks, and its new program point
      knows no more than the old one. */
  ghost predicate SameHold(s: Sys, i: nat, pc': PC, disk': Disk)
    requires i < |s.threads|
  {
    var pc := s.threads[i];
    && (IsSwapOut(pc') ==> IsSwapOut(pc) && NewKey(pc') == NewKey(pc) && NewData(pc') == NewData(pc))
    && (pc'.SoPrepare? ==> |pc'.data| < U64)
    && !pc'.SiOpen?
    && (forall k :: OwnsRemoval(pc', k) <==> OwnsRemoval(pc, k))
    && (forall k :: HasUnlinked(pc', k) <==> HasUnlinked(pc, k))
    && HolderOk(s.table.entries, pc')
    && RetOk(s.hist.log, PendingRet(pc'))
    && FilesOk(disk', s.hist.committed, pc')
  }

  lemma HoldStays(s: Sys, i: nat, s': Sys)
    requires Moves(s, i, s')
    requires s'.table.entries == s.table.entries && s'.table.nextKeyId == s.table.nextKeyId
    requires s'.table.directIo == s.table.directIo
    requires s'.hist.(quota := s.hist.quota) == s.hist
    requires OnlyOwnTmp(s, i, s'.disk)
    requires SameHold(s, i, s'.threads[i], s'.disk)
    requires Inv(s)
    ensures KeyInv(s') && OwnInv(s') && FileInv(s') && LogInv(s')
  {
    hide CountInv, ApiInv, LockInv, KeyInv, OwnInv, FileInv, QuotaTableInv, LogInv,
         OwnsRemoval, HasUnlinked, HolderOk, FilesOk, RetOk;
    KeysStay(s, i, s');
    OwnersStay(s, i, s');
    FilesStay(s, i, s');
    LogStays(s, i, s');
  }

  /** A step within a call that keeps the locks. */
  lemma StaysInCall(s: Sys, i: nat, s': Sys)
    requires CountDelta(s, i, s') && ReaderDelta(s, i, s')
    requires Weight(Calls, s.threads[i]) == 1 && Weight(Calls, s'.threads[i]) == 1
    requires s'.api == s.api && s'.deleted == s.deleted
    requires s'.table.initialized == s.table.initialized && s'.table.shuttingDown == s.table.shuttingDown
    requires s'.mutex == s.mutex && s'.refreshMutex == s.refreshMutex
    requires s'.table.removeAll == s.table.removeAll
    requires s'.threads[i].Refreshing? == s.threads[i].Refreshing?
    requires s'.threads[i].RaFinalize? == s.threads[i].RaFinalize?
    requires IsRemoveAll(s'.threads[i]) == IsRemoveAll(s.threads[i])
    requires IsSwapOut(s'.threads[i]) ==> IsSwapOut(s.threads[i])
    requires Inv(s)
    ensures CountInv(s') && ApiInv(s') && LockInv(s')
  {
    hide CountInv, ApiInv, LockInv, KeyInv, OwnInv, FileInv, QuotaTableInv, LogInv;
    DeltasKeepCount(s, i, s');
    InsideCall(s, i);
    ApiStays(s, i, s');
    LocksStay(s, i, s');
  }

  ghost predicate SameRole(pc: PC, pc': PC) {
    && Weight(Calls, pc) == 1 && Weight(Calls, pc') == 1
    && Weight(Reserved, pc') == Weight(Reserved, pc)
    && !pc.Refreshing? && !pc'.Refreshing?
    && !pc.RaFinalize? && !pc'.RaFinalize?
    && IsRemoveAll(pc') == IsRemoveAll(pc)
    && (forall k :: Reads(pc', k) <==> Reads(pc, k))
  }

  /** A step within a call that touches nothing but the number of operations and the thread's
      own temporary file. */
  lemma CalmStep(s: Sys, i: nat, s': Sys)
    requires Moves(s, i, s')
    requires SameRole(s.threads[i], s'.threads[i]) && SameHold(s, i, s'.threads[i], s'.disk)
    requires s'.table == s.table.(activeOps := s'.table.activeOps)
    requires s'.table.activeOps + Weight(Ops, s.threads[i]) == s.table.activeOps + Weight(Ops, s'.threads[i])
    requires s' == s.(table := s'.table, disk := s'.disk, threads := s'.threads)
    requires OnlyOwnTmp(s, i, s'.disk)
    requires Inv(s)
    ensures Inv(s')
  {
    hide CountInv, ApiInv, LockInv, KeyInv, OwnInv, FileInv, QuotaTableInv, LogInv,
         OwnsRemoval, HasUnlinked, HolderOk, FilesOk, RetOk;
    assert forall k :: Weight(Readers(k), s'.threads[i]) == Weight(Readers(k), s.threads[i]);
    assert !IsDestroyer(s'.threads[i]);
    hide Weight;
    StaysInCall(s, i, s');
    HoldStays(s, i, s');
    QuotaStays(s, i, s');
  }

  /** Program points at which a thread holds no key, entry or file. */
  predicate Plain(pc: PC) {
    || pc.SoPrepare? || pc.SiPrepare? || pc.SiLookup? || pc.RdPrepare? || pc.RaCollect? || pc.GsPrepare?
    || pc.GsFill? || pc.Ending? || pc.Leaving?
    || (pc.Refresh? && pc.after.ForStats?)
  }

  lemma PlainCalm(s: Sys, i: nat, s': Sys)
    requires Moves(s, i, s')
    requires Plain(s.threads[i]) && Plain(s'.threads[i]) && !s'.threads[i].SoPrepare?
    requires RetOk(s.hist.log, PendingRet(s'.threads[i]))
    requires s'.table == s.table.(activeOps := s'.table.activeOps)
    requires s'.table.activeOps + Weight(Ops, s.threads[i]) == s.table.activeOps + Weight(Ops, s'.threads[i])
    requires s' == s.(table := s'.table, threads := s'.threads)
    requires Inv(s)
    ensures Inv(s')
  {
    hide Inv, RetOk, Plain, SameRole, SameHold;
    PlainHasNoRole(s.threads[i], s'.threads[i]);
    PlainHoldsNothing(s, i, s'.threads[i], s'.disk);
    CalmStep(s, i, s');
  }

  lemma PlainHasNoRole(pc: PC, pc': PC)
    requires Plain(pc) && Plain(pc')
    ensures SameRole(pc, pc')
  {
  }

  lemma PlainHoldsNothing(s: Sys, i: nat, pc': PC, disk': Disk)
    requires i < |s.threads| && Plain(s.threads[i]) && Plain(pc') && !pc'.SoPrepare?
    requires RetOk(s.hist.log, PendingRet(pc'))
    ensures SameHold(s, i, pc', disk')
  {
    hide RetOk;
  }

  /** The entries keep their keys and sizes; their states may change. */
  lemma SizesStay(s: Sys, i: nat, s': Sys)
    requires Moves(s, i, s')
    requires s'.table.entries.Keys == s.table.entries.Keys
    requires forall k :: k in s.table.entries ==> s'.table.entries[k].size == s.table.entries[k].size
    requires s'.table.nextKeyId == s.table.nextKeyId && s'.table.directIo == s.table.directIo
    requires s'.hist == s.hist && s'.disk == s.disk && s'.quota == s.quota
    requires !IsSwapOut(s'.threads[i]) && !s'.threads[i].SoPrepare? && !s'.threads[i].Refreshing?
    requires AddrOk(s.table.directIo, s'.threads[i])
    requires forall k :: HasUnlinked(s'.threads[i], k) <==> HasUnlinked(s.threads[i], k)
    requires FilesOk(s.disk, s.hist.committed, s'.threads[i])
    requires RetOk(s.hist.log, PendingRet(s'.threads[i]))
    requires Inv(s)
    ensures KeyInv(s') && FileInv(s') && QuotaTableInv(s') && LogInv(s')
  {
    hide CountInv, ApiInv, LockInv, KeyInv, OwnInv, FileInv, QuotaTableInv, LogInv,
         OwnsRemoval, HasUnlinked, HolderOk, FilesOk, RetOk;
    KeysStay(s, i, s');
    FilesStay(s, i, s');
    QuotaStays(s, i, s');
    LogStays(s, i, s');
  }

  // ----- Deleting a file and settling its entry -----

  /** While an entry is being read, its file is there. */
  lemma FileWhileRead(s: Sys, i: nat, key: Key)
    requires i < |s.threads| && Reads(s.threads[i], key)
    requires Inv(s)
    ensures key in s.table.entries && s.table.entries[key].readers > 0
    ensures Swap(key) in s.disk
  {
    hide CountInv, ApiInv, LockInv, KeyInv, OwnInv, FileInv, QuotaTableInv, LogInv,
         OwnsRemoval, HasUnlinked, FilesOk;
    OfThread(s, i);
    OfEntry(s, key);
    TotalAtLeast(Readers(key), s.threads, i);
    NotOwned(s, key);
    if Swap(key) !in s.disk {
      var j :| 0 <= j < |s.threads| && HasUnlinked(s.threads[j], key);
      UnlinkedIsOwned(s.threads[j], key);
    }
  }

  /** The owner of a removal deletes the file. */
  lemma UnlinkKeeps(s: Sys, i: nat, s': Sys, key: Key)
    requires Moves(s, i, s') && OwnsRemoval(s.threads[i], key)
    requires SameRole(s.threads[i], s'.threads[i]) && !IsSwapOut(s'.threads[i])
    requires Weight(Ops, s.threads[i]) == Weight(Ops, s'.threads[i])
    requires !s'.threads[i].SiOpen? && !s'.threads[i].SiRead? && !s'.threads[i].SoPrepare?
    requires forall k :: OwnsRemoval(s'.threads[i], k) <==> OwnsRemoval(s.threads[i], k)
    requires forall k :: HasUnlinked(s'.threads[i], k) <==> HasUnlinked(s.threads[i], k) || k == key
    requires HolderOk(s.table.entries, s'.threads[i])
    requires RetOk(s.hist.log, PendingRet(s'.threads[i]))
    requires Swap(key) in s.disk && s' == At(UnlinkSwap(s, key), i, s'.threads[i])
    requires Inv(s)
    ensures Inv(s')
  {
    hide CountInv, ApiInv, LockInv, KeyInv, OwnInv, FileInv, QuotaTableInv, LogInv,
         OwnsRemoval, HasUnlinked, HolderOk, FilesOk, RetOk;
    assert forall k :: Weight(Readers(k), s'.threads[i]) == Weight(Readers(k), s.threads[i]);
    assert !IsDestroyer(s'.threads[i]);
    hide Weight;
    StaysInCall(s, i, s');
    OwnedIsUnread(s, i, key);
    OfEntry(s, key);
    KeysStay(s, i, s');
    OwnersStay(s, i, s');
    UnlinkKeepsFiles(s, i, s', key);
    QuotaStays(s, i, s');
    UnlinkKeepsLog(s, i, s', key);
  }

  /** The owner of a removal settles the entry. */
  lemma SettleKeeps(s: Sys, i: nat, s': Sys, key: Key, size: nat, gone: bool)
    requires Moves(s, i, s') && OwnsRemoval(s.threads[i], key)
    requires size == (if key in s.table.entries then s.table.entries[key].size else 0)
    requires Weight(Calls, s.threads[i]) == 1 && Weight(Calls, s'.threads[i]) == 1
    requires Weight(Ops, s.threads[i]) == Weight(Ops, s'.threads[i])
    requires Weight(Reserved, s'.threads[i]) == Weight(Reserved, s.threads[i])
    requires !s.threads[i].Refreshing? && !s'.threads[i].Refreshing?
    requires s'.threads[i].RaFinalize? == s.threads[i].RaFinalize?
    requires IsRemoveAll(s'.threads[i]) == IsRemoveAll(s.threads[i]) && !IsSwapOut(s'.threads[i])
    requires forall k :: !Reads(s'.threads[i], k) && !Reads(s.threads[i], k)
    requires !s'.threads[i].SiOpen? && !s'.threads[i].SiRead? && !s'.threads[i].SoPrepare?
    requires forall k :: OwnsRemoval(s'.threads[i], k) <==> OwnsRemoval(s.threads[i], k) && k != key
    requires forall k :: HasUnlinked(s'.threads[i], k) <==> HasUnlinked(s.threads[i], k) && k != key
    requires HasUnlinked(s.threads[i], key) <==> gone
    requires HolderOk(Settle(s, key, size, gone).table.entries, s'.threads[i])
    requires RetOk(s.hist.log, PendingRet(s'.threads[i]))
    requires s' == At(Settle(s, key, size, gone), i, s'.threads[i])
    requires Inv(s)
    ensures Inv(s')
  {
    hide CountInv, ApiInv, LockInv, KeyInv, OwnInv, FileInv, QuotaTableInv, LogInv,
         OwnsRemoval, HasUnlinked, HolderOk, FilesOk, RetOk, EntryRemoved;
    OwnedIsUnread(s, i, key);
    assert s'.quota.pending == s.quota.pending by {
      RemovedKeepsPending(s.quota, size);
    }
    assert ReaderDelta(s, i, s');
    StaysInCall(s, i, s');
    KeysStay(s, i, s');
    OwnersChangeAt(s, i, s', key);
    SettleKeepsFiles(s, i, s', key, gone);
    SettleKeepsQuota(s, i, s', key, size, gone);
    LogStays(s, i, s');
  }

  lemma RemovedKeepsPending(q: Quota, size: nat)
    ensures EntryRemoved(q, size, size).pending == q.pending
  {
  }
}
