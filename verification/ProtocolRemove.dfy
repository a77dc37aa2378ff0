/** The steps of RemoveData and RemoveAllData keep the invariant. */
module ProtocolRemove {
  import opened SwapTypes
  import opened QuotaSpec
  import opened ManagerSpec
  import opened Protocol
  import opened ProtocolInvariant
  import opened ProtocolCounts
  import opened ProtocolFrames
  import opened ProtocolEffects
  import opened ProtocolSteps

  // ----- RemoveData -----

  lemma RdPrepareKeeps(s: Sys, i: nat, a: Action, key: Key, s': Sys)
    requires i < |s.threads| && s.threads[i] == RdPrepare(key)
    requires RdPrepareStep(s, i, a, key) == Some(s')
    requires Inv(s)
    ensures Inv(s')
  {
    hide Inv;
    OfThread(s, i);
    if s'.threads[i].Leaving? && s'.threads[i].ret.Failed? {
      PlainCalm(s, i, s');
    } else {
      MarkKeeps(s, i, s', key);
    }
  }

  lemma MarkKeeps(s: Sys, i: nat, s': Sys, key: Key)
    requires i < |s.threads| && s.threads[i] == RdPrepare(key)
    requires key in s.table.entries && s.table.entries[key].status == Active
    requires var (t, code, now) := PrepareRemove(s.table, key);
      code == Ok && s' == At(s.(table := t), i, if now.None? then Leaving(Done) else RdUnlink(key, now.value))
    requires Inv(s)
    ensures Inv(s')
  {
    hide CountInv, ApiInv, LockInv, KeyInv, OwnInv, FileInv, QuotaTableInv, LogInv;
    OfThread(s, i);
    StaysInCall(s, i, s');
    NotOwned(s, key);
    OwnersChangeAt(s, i, s', key);
    SizesStay(s, i, s');
  }

  lemma RdUnlinkKeeps(s: Sys, i: nat, a: Action, key: Key, size: nat, s': Sys)
    requires i < |s.threads| && s.threads[i] == RdUnlink(key, size)
    requires RdUnlinkStep(s, i, a, key, size) == Some(s')
    requires Inv(s)
    ensures Inv(s')
  {
    hide Inv;
    OfThread(s, i);
    if a.Fails? {
      CalmStep(s, i, s');
    } else {
      UnlinkKeeps(s, i, s', key);
    }
  }

  lemma RdFinalizeKeeps(s: Sys, i: nat, a: Action, key: Key, size: nat, gone: bool, ret: Ret, s': Sys)
    requires i < |s.threads| && s.threads[i] == RdFinalize(key, size, gone, ret)
    requires RdFinalizeStep(s, i, a, key, size, gone, ret) == Some(s')
    requires Inv(s)
    ensures Inv(s')
  {
    hide Inv;
    OfThread(s, i);
    SettleKeeps(s, i, s', key, size, gone);
  }

  // ----- RemoveAllData -----

  /** With no operation under way, nothing is held and every entry is active and unread. */
  lemma Quiescent(s: Sys)
    requires Inv(s) && s.table.activeOps == 0
    ensures forall j | 0 <= j < |s.threads| :: Weight(Ops, s.threads[j]) == 0
    ensures forall k | k in s.table.entries :: s.table.entries[k].status == Active && s.table.entries[k].readers == 0
  {
    hide ApiInv, LockInv, KeyInv, FileInv, QuotaTableInv, LogInv, HolderOk;
    NoneCounted(Ops, s.threads);
    forall k | k in s.table.entries
      ensures s.table.entries[k].status == Active && s.table.entries[k].readers == 0
    {
      if s.table.entries[k].readers > 0 {
        var j := TotalWitness(Readers(k), s.threads);
      } else if s.table.entries[k].status == Removing {
        var j :| 0 <= j < |s.threads| && OwnsRemoval(s.threads[j], k);
      }
    }
  }

  lemma RaCollectKeeps(s: Sys, i: nat, a: Action, s': Sys)
    requires i < |s.threads| && s.threads[i] == RaCollect
    requires RaCollectStep(s, i, a) == Some(s')
    requires Inv(s)
    ensures Inv(s')
  {
    hide Inv;
    OfThread(s, i);
    if s'.threads[i].Leaving? {
      assert s'.table.entries == s.table.entries;
      PlainCalm(s, i, s');
    } else {
      CollectKeeps(s, i, s', a.items);
    }
  }

  lemma CollectKeeps(s: Sys, i: nat, s': Sys, items: seq<Item>)
    requires i < |s.threads| && s.threads[i] == RaCollect
    requires CollectAll(s.table).1 == Ok && s.table.entries != map[] && Lists(items, s.table.entries)
    requires s' == At(s.(table := CollectAll(s.table).0), i, RaUnlink(items, [], Ok))
    requires Inv(s)
    ensures Inv(s')
  {
    hide CountInv, ApiInv, LockInv, KeyInv, OwnInv, FileInv, QuotaTableInv, LogInv,
         Lists, HolderOk, FilesOk, RetOk;
    OfThread(s, i);
    InsideCall(s, i);
    DeltasKeepCount(s, i, s');
    ApiStays(s, i, s');
    CollectKeepsRecords(s, i, s', items);
    CollectKeepsOwnership(s, i, s', items);
  }

  lemma CollectKeepsRecords(s: Sys, i: nat, s': Sys, items: seq<Item>)
    requires i < |s.threads| && s.threads[i] == RaCollect
    requires s' == At(s.(table := s'.table), i, RaUnlink(items, [], Ok))
    requires s'.table.entries == MarkAllRemoving(s.table.entries)
    requires s'.table.nextKeyId == s.table.nextKeyId && s'.table.directIo == s.table.directIo
    requires Inv(s)
    ensures KeyInv(s') && FileInv(s') && QuotaTableInv(s') && LogInv(s')
  {
    hide Inv, KeyInv, FileInv, QuotaTableInv, LogInv;
    SizesStay(s, i, s');
  }

  lemma CollectKeepsOwnership(s: Sys, i: nat, s': Sys, items: seq<Item>)
    requires Moves(s, i, s') && s.table.activeOps == 0
    requires Lists(items, s.table.entries) && s'.threads[i] == RaUnlink(items, [], Ok)
    requires s'.table.entries == MarkAllRemoving(s.table.entries)
    requires s'.mutex == s.mutex && s'.refreshMutex == s.refreshMutex && s'.table.removeAll
    requires !s.threads[i].Refreshing? && !s.threads[i].RaFinalize?
    requires Inv(s)
    ensures LockInv(s') && OwnInv(s')
  {
    hide CountInv, ApiInv, LockInv, KeyInv, OwnInv, FileInv, QuotaTableInv, LogInv, AtRest;
    Quiescent(s);
    forall j | 0 <= j < |s.threads| ensures AtRest(s.threads[j]) {
      NoOpsAtRest(s.threads[j]);
    }
    CollectKeepsLocks(s, i, s');
    CollectKeepsOwners(s, i, s', items);
  }

  ghost predicate AtRest(pc: PC) {
    && !IsSwapOut(pc) && !IsRemoveAll(pc) && !pc.Refreshing?
    && (forall k :: !OwnsRemoval(pc, k))
    && (forall entries: map<Key, Entry> :: HolderOk(entries, pc))
  }

  lemma NoOpsAtRest(pc: PC)
    requires Weight(Ops, pc) == 0
    ensures AtRest(pc)
  {
  }

  lemma CollectKeepsLocks(s: Sys, i: nat, s': Sys)
    requires LockInv(s) && Moves(s, i, s')
    requires forall j | 0 <= j < |s.threads| :: AtRest(s.threads[j])
    requires s'.mutex == s.mutex && s'.refreshMutex == s.refreshMutex && s'.table.removeAll
    requires s'.threads[i].RaUnlink? && !s.threads[i].RaFinalize?
    ensures LockInv(s')
  {
    hide OwnsRemoval, HolderOk;
    assert IsRemoveAll(s'.threads[i]) && !IsSwapOut(s'.threads[i]);
    hide IsSwapOut;
  }

  lemma CollectKeepsOwners(s: Sys, i: nat, s': Sys, items: seq<Item>)
    requires Moves(s, i, s')
    requires forall j | 0 <= j < |s.threads| :: AtRest(s.threads[j])
    requires forall k | k in s.table.entries :: s.table.entries[k].readers == 0
    requires s'.table.entries == MarkAllRemoving(s.table.entries)
    requires Lists(items, s.table.entries) && s'.threads[i] == RaUnlink(items, [], Ok)
    ensures OwnInv(s')
  {
    var pc' := s'.threads[i];
    assert HolderOk(s'.table.entries, pc');
    assert forall k :: OwnsRemoval(pc', k) <==> k in s.table.entries;
    hide OwnsRemoval, HolderOk, IsSwapOut, IsRemoveAll, Lists;
    forall k | k in s'.table.entries
      ensures exists j :: 0 <= j < |s'.threads| && OwnsRemoval(s'.threads[j], k)
    {
      assert OwnsRemoval(s'.threads[i], k);
    }
  }

  lemma RaUnlinkKeeps(s: Sys, i: nat, a: Action, items: seq<Item>, results: seq<bool>, first: Code, s': Sys)
    requires i < |s.threads| && s.threads[i] == RaUnlink(items, results, first)
    requires RaUnlinkStep(s, i, a, items, results, first) == Some(s')
    requires Inv(s)
    ensures Inv(s')
  {
    hide Inv, SameRole, SameHold;
    OfThread(s, i);
    if |results| == |items| {
      StartFinalize(s, i, s', items, results, first);
    } else if a.Fails? {
      UnlinkFailed(s, i, items, results, first, s'.threads[i].first);
      CalmStep(s, i, s');
    } else {
      NextUnlinked(s, i, s', items, results, first);
    }
  }

  lemma UnlinkFailed(s: Sys, i: nat, items: seq<Item>, results: seq<bool>, first: Code, first': Code)
    requires i < |s.threads| && s.threads[i] == RaUnlink(items, results, first) && |results| < |items|
    requires HolderOk(s.table.entries, s.threads[i]) && FilesOk(s.disk, s.hist.committed, s.threads[i])
    ensures var pc' := RaUnlink(items, results + [false], first');
      SameRole(s.threads[i], pc') && SameHold(s, i, pc', s.disk)
  {
    var pc, pc' := s.threads[i], RaUnlink(items, results + [false], first');
    forall k ensures HasUnlinked(pc', k) <==> HasUnlinked(pc, k) {
      if HasUnlinked(pc, k) {
        var n :| 0 <= n < |items| && n < |results| && items[n].key == k && results[n];
        assert pc'.results[n];
      }
    }
  }

  lemma NextUnlinked(s: Sys, i: nat, s': Sys, items: seq<Item>, results: seq<bool>, first: Code)
    requires i < |s.threads| && s.threads[i] == RaUnlink(items, results, first) && |results| < |items|
    requires Swap(items[|results|].key) in s.disk
    requires s' == At(UnlinkSwap(s, items[|results|].key), i, RaUnlink(items, results + [true], first))
    requires Inv(s)
    ensures Inv(s')
  {
    hide Inv;
    OfThread(s, i);
    var key := items[|results|].key;
    var pc, pc' := s.threads[i], s'.threads[i];
    forall k ensures HasUnlinked(pc', k) <==> HasUnlinked(pc, k) || k == key {
      if HasUnlinked(pc, k) {
        var n :| 0 <= n < |items| && n < |results| && items[n].key == k && results[n];
        assert pc'.results[n];
      }
      if k == key {
        assert pc'.results[|results|];
      }
    }
    UnlinkKeeps(s, i, s', key);
  }

  /** The loop over the results starts: the thread takes the mutex and keeps it. */
  lemma StartFinalize(s: Sys, i: nat, s': Sys, items: seq<Item>, results: seq<bool>, first: Code)
    requires i < |s.threads| && s.threads[i] == RaUnlink(items, results, first) && |results| == |items|
    requires s.mutex.None? && s' == At(s.(mutex := Some(i)), i, RaFinalize(items, results, 0, first))
    requires Inv(s)
    ensures Inv(s')
  {
    hide CountInv, ApiInv, LockInv, KeyInv, OwnInv, FileInv, QuotaTableInv, LogInv;
    OfThread(s, i);
    DeltasKeepCount(s, i, s');
    InsideCall(s, i);
    ApiStays(s, i, s');
    TakesMutex(s, i, s');
    HoldStays(s, i, s');
    QuotaStays(s, i, s');
  }

  lemma TakesMutex(s: Sys, i: nat, s': Sys)
    requires LockInv(s) && Moves(s, i, s')
    requires s.threads[i].RaUnlink? && s'.threads[i].RaFinalize?
    requires s.mutex.None? && s'.mutex == Some(i)
    requires s'.refreshMutex == s.refreshMutex && s'.table.removeAll == s.table.removeAll
    ensures LockInv(s')
  {
    assert IsRemoveAll(s'.threads[i]) && IsRemoveAll(s.threads[i]);
  }

  lemma RaFinalizeKeeps(s: Sys, i: nat, a: Action, items: seq<Item>, results: seq<bool>, next: nat, first: Code, s': Sys)
    requires i < |s.threads| && s.threads[i] == RaFinalize(items, results, next, first)
    requires RaFinalizeStep(s, i, a, items, results, next, first) == Some(s')
    requires Inv(s)
    ensures Inv(s')
  {
    hide Inv;
    OfThread(s, i);
    if next < |items| {
      SettlesNext(s, i, s', items, results, next, first);
    } else {
      EndsRemoveAll(s, i, s', items, results, next, first);
    }
  }

  lemma SettlesNext(s: Sys, i: nat, s': Sys, items: seq<Item>, results: seq<bool>, next: nat, first: Code)
    requires i < |s.threads| && s.threads[i] == RaFinalize(items, results, next, first)
    requires next < |items| == |results|
    requires s' == At(Settle(s, items[next].key, items[next].size, results[next]), i,
                      RaFinalize(items, results, next + 1, first))
    requires Inv(s)
    ensures Inv(s')
  {
    hide Inv;
    OfThread(s, i);
    var key := items[next].key;
    var pc, pc' := s.threads[i], s'.threads[i];
    forall k
      ensures OwnsRemoval(pc', k) <==> OwnsRemoval(pc, k) && k != key
      ensures HasUnlinked(pc', k) <==> HasUnlinked(pc, k) && k != key
    {
    }
    assert items[next].key == key;
    assert OwnsRemoval(pc, key);
    assert HasUnlinked(pc, key) <==> results[next];
    SettleKeeps(s, i, s', key, items[next].size, results[next]);
  }

  lemma EndsRemoveAll(s: Sys, i: nat, s': Sys, items: seq<Item>, results: seq<bool>, next: nat, first: Code)
    requires i < |s.threads| && s.threads[i] == RaFinalize(items, results, next, first) && next == |items|
    requires s' == At(s.(table := EndRemoveAll(s.table), mutex := None), i,
                      Ending(if first == Ok then Done else Failed(first)))
    requires Inv(s)
    ensures Inv(s')
  {
    hide CountInv, ApiInv, LockInv, KeyInv, OwnInv, FileInv, QuotaTableInv, LogInv;
    OfThread(s, i);
    DeltasKeepCount(s, i, s');
    InsideCall(s, i);
    ApiStays(s, i, s');
    DropsMutex(s, i, s');
    HoldStays(s, i, s');
    QuotaStays(s, i, s');
  }

  lemma DropsMutex(s: Sys, i: nat, s': Sys)
    requires LockInv(s) && Moves(s, i, s')
    requires s.threads[i].RaFinalize? && s'.threads[i].Ending?
    requires s'.mutex.None? && s'.refreshMutex == s.refreshMutex && !s'.table.removeAll
    ensures LockInv(s')
  {
    assert IsRemoveAll(s.threads[i]);
  }
}
