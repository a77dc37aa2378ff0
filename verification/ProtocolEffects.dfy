/** For each part of the invariant, the steps that really change what it speaks about. */
module ProtocolEffects {
  import opened SwapTypes
  import opened QuotaSpec
  import opened ManagerSpec
  import opened Protocol
  import opened ProtocolInvariant
  import opened ProtocolFrames

  // ----- Keys -----

  lemma CommitKeepsKeys(s: Sys, i: nat, s': Sys, key: Key, data: Bytes)
    requires KeyInv(s) && Moves(s, i, s')
    requires s.threads[i] == SoCommit(key, data)
    requires !IsSwapOut(s'.threads[i]) && !s'.threads[i].SoPrepare? && !s'.threads[i].SiOpen?
    requires s'.table == CommitEntry(s.table, key, |data|)
    requires s'.hist.issued == s.hist.issued && s'.hist.committed == s.hist.committed[key := data]
    ensures KeyInv(s')
  {
  }

  // ----- Removal -----

  ghost predicate SameExceptAt(m: map<Key, Entry>, m': map<Key, Entry>, key: Key) {
    forall k | k != key :: (k in m' <==> k in m) && (k in m ==> m'[k] == m[k])
  }

  lemma OtherHolderStays(entries: map<Key, Entry>, entries': map<Key, Entry>, key: Key, pc: PC)
    requires HolderOk(entries, pc) && SameExceptAt(entries, entries', key)
    requires !OwnsRemoval(pc, key)
    requires key in entries && key in entries' ==> entries'[key].size == entries[key].size
    requires key in entries && key !in entries' ==> !Reads(pc, key)
    ensures HolderOk(entries', pc)
  {
    if IsRemoveAll(pc) {
      forall n | (if pc.RaFinalize? then pc.next else 0) <= n < |pc.items|
        ensures pc.items[n].key in entries' && pc.items[n].size == entries'[pc.items[n].key].size
      {
        assert OwnsRemoval(pc, pc.items[n].key);
      }
    }
  }

  /** A step that changes one entry and the ownership of it keeps removals well owned. */
  lemma OwnersChangeAt(s: Sys, i: nat, s': Sys, key: Key)
    requires OwnInv(s) && Moves(s, i, s')
    requires SameExceptAt(s.table.entries, s'.table.entries, key)
    requires forall k | k != key :: OwnsRemoval(s'.threads[i], k) <==> OwnsRemoval(s.threads[i], k)
    requires forall j | 0 <= j < |s.threads| && j != i :: !OwnsRemoval(s.threads[j], key)
    requires key in s.table.entries && key in s'.table.entries ==>
               s'.table.entries[key].size == s.table.entries[key].size
    requires key in s.table.entries && key !in s'.table.entries ==>
               forall j | 0 <= j < |s.threads| && j != i :: !Reads(s.threads[j], key)
    requires OwnsRemoval(s'.threads[i], key) <==>
               key in s'.table.entries && s'.table.entries[key].status == Removing
               && s'.table.entries[key].readers == 0
    requires HolderOk(s'.table.entries, s'.threads[i])
    ensures OwnInv(s')
  {
    hide OwnsRemoval, HolderOk, Reads;
    forall j | 0 <= j < |s'.threads| ensures HolderOk(s'.table.entries, s'.threads[j]) {
      if j != i {
        OtherHolderStays(s.table.entries, s'.table.entries, key, s.threads[j]);
      }
    }
    forall k | k in s'.table.entries && s'.table.entries[k].status == Removing && s'.table.entries[k].readers == 0
      ensures exists j :: 0 <= j < |s'.threads| && OwnsRemoval(s'.threads[j], k)
    {
      if k == key {
        assert OwnsRemoval(s'.threads[i], k);
      } else {
        var j :| 0 <= j < |s.threads| && OwnsRemoval(s.threads[j], k);
        assert OwnsRemoval(s'.threads[j], k);
      }
    }
  }

  /** An entry that is active or still read has no owner of its removal. */
  lemma NotOwned(s: Sys, key: Key)
    requires OwnInv(s)
    requires key in s.table.entries ==>
               s.table.entries[key].status == Active || s.table.entries[key].readers > 0
    ensures forall j | 0 <= j < |s.threads| :: !OwnsRemoval(s.threads[j], key)
  {
    hide OwnsRemoval, HolderOk;
  }

  /** While a thread owns the removal of an entry, nobody reads the entry. */
  lemma OwnedIsUnread(s: Sys, i: nat, key: Key)
    requires OwnInv(s) && CountInv(s)
    requires i < |s.threads| && OwnsRemoval(s.threads[i], key)
    ensures key in s.table.entries
    ensures forall j | 0 <= j < |s.threads| :: !Reads(s.threads[j], key)
    ensures forall j | 0 <= j < |s.threads| && j != i :: !OwnsRemoval(s.threads[j], key)
  {
    hide OwnsRemoval, HolderOk;
    assert Total(Readers(key), s.threads) == 0;
    NoneCounted(Readers(key), s.threads);
    forall j | 0 <= j < |s.threads| ensures !Reads(s.threads[j], key) {
      assert Weight(Readers(key), s.threads[j]) == 0;
    }
  }

  // ----- Files -----

  lemma UnlinkKeepsThreads(s: Sys, i: nat, s': Sys, key: Key)
    requires FileInv(s) && KeyInv(s) && Moves(s, i, s')
    requires key in s.table.entries && s'.disk == s.disk - {Swap(key)}
    requires s'.hist.committed == s.hist.committed
    requires forall k :: HasUnlinked(s'.threads[i], k) <==> HasUnlinked(s.threads[i], k) || k == key
    requires !IsSwapOut(s'.threads[i]) && !s'.threads[i].SiRead?
    ensures forall j :: 0 <= j < |s'.threads| ==> FilesOk(s'.disk, s'.hist.committed, s'.threads[j])
  {
    hide HasUnlinked;
    forall j | 0 <= j < |s'.threads| ensures FilesOk(s'.disk, s'.hist.committed, s'.threads[j]) {
      assert FilesOk(s.disk, s.hist.committed, s.threads[j]);
    }
  }

  lemma UnlinkKeepsFiles(s: Sys, i: nat, s': Sys, key: Key)
    requires FileInv(s) && KeyInv(s) && Moves(s, i, s')
    requires key in s.table.entries
    requires s'.disk == s.disk - {Swap(key)}
    requires s'.hist.committed == s.hist.committed
    requires s'.table.nextKeyId == s.table.nextKeyId && s'.table.entries == s.table.entries
    requires forall k :: HasUnlinked(s'.threads[i], k) <==> HasUnlinked(s.threads[i], k) || k == key
    requires !IsSwapOut(s'.threads[i]) && !s'.threads[i].SiRead?
    ensures FileInv(s')
  {
    UnlinkKeepsThreads(s, i, s', key);
    hide HasUnlinked, FilesOk;
    forall k | k in s'.table.entries && Swap(k) !in s'.disk
      ensures exists j :: 0 <= j < |s'.threads| && HasUnlinked(s'.threads[j], k)
    {
      if k == key {
        assert HasUnlinked(s'.threads[i], k);
      } else {
        var j :| 0 <= j < |s.threads| && HasUnlinked(s.threads[j], k);
        assert HasUnlinked(s'.threads[j], k);
      }
    }
  }

  lemma SettleKeepsFiles(s: Sys, i: nat, s': Sys, key: Key, gone: bool)
    requires FileInv(s) && Moves(s, i, s')
    requires s'.disk == s.disk && s'.hist.committed == s.hist.committed
    requires s'.table.nextKeyId == s.table.nextKeyId
    requires s'.table.entries.Keys == if gone then s.table.entries.Keys - {key} else s.table.entries.Keys
    requires HasUnlinked(s.threads[i], key) <==> gone
    requires forall k :: HasUnlinked(s'.threads[i], k) <==> HasUnlinked(s.threads[i], k) && k != key
    requires !IsSwapOut(s'.threads[i]) && !s'.threads[i].SiRead?
    ensures FileInv(s')
  {
    hide HasUnlinked;
    forall k | k in s'.table.entries && Swap(k) !in s'.disk
      ensures exists j :: 0 <= j < |s'.threads| && HasUnlinked(s'.threads[j], k)
    {
      var j :| 0 <= j < |s.threads| && HasUnlinked(s.threads[j], k);
      assert HasUnlinked(s'.threads[j], k);
    }
  }

  lemma RenameKeepsFiles(s: Sys, i: nat, s': Sys, key: Key, data: Bytes)
    requires FileInv(s) && KeyInv(s) && Moves(s, i, s')
    requires s.threads[i] == SoRename(key, data) && s'.threads[i] == SoCommit(key, data)
    requires Tmp(key) in s.disk && s'.disk == (s.disk - {Tmp(key)})[Swap(key) := s.disk[Tmp(key)]]
    requires s'.hist.committed == s.hist.committed && s'.table == s.table
    requires forall j | 0 <= j < |s.threads| && HasUnlinked(s.threads[j], key) :: key in s.table.entries
    ensures FileInv(s')
  {
    assert forall k :: !HasUnlinked(s'.threads[i], k) && !HasUnlinked(s.threads[i], k);
    hide HasUnlinked;
    forall k | k in s'.table.entries && Swap(k) !in s'.disk
      ensures exists j :: 0 <= j < |s'.threads| && HasUnlinked(s'.threads[j], k)
    {
      var j :| 0 <= j < |s.threads| && HasUnlinked(s.threads[j], k);
      assert HasUnlinked(s'.threads[j], k);
    }
  }

  lemma CommitKeepsFiles(s: Sys, i: nat, s': Sys, key: Key, data: Bytes, ret: Ret)
    requires FileInv(s) && KeyInv(s) && Moves(s, i, s')
    requires s.threads[i] == SoCommit(key, data) && s'.threads[i] == Ending(ret)
    requires s'.disk == s.disk && s'.hist.committed == s.hist.committed[key := data]
    requires s'.table.nextKeyId == s.table.nextKeyId
    requires s'.table.entries.Keys == s.table.entries.Keys + {key}
    ensures FileInv(s')
  {
    assert forall k :: !HasUnlinked(s'.threads[i], k) && !HasUnlinked(s.threads[i], k);
    hide HasUnlinked;
    forall k | k in s'.table.entries && Swap(k) !in s'.disk
      ensures exists j :: 0 <= j < |s'.threads| && HasUnlinked(s'.threads[j], k)
    {
      var j :| 0 <= j < |s.threads| && HasUnlinked(s.threads[j], k);
      assert HasUnlinked(s'.threads[j], k);
    }
  }

  // ----- Quota -----

  lemma SettleKeepsQuota(s: Sys, i: nat, s': Sys, key: Key, size: nat, gone: bool)
    requires QuotaTableInv(s) && KeyInv(s) && Moves(s, i, s')
    requires key in s.table.entries && size == s.table.entries[key].size
    requires var (t, tell) := FinalizeRemove(s.table, key, gone);
      s'.table.entries == t.entries
      && s'.quota == if tell then EntryRemoved(s.quota, size, size) else s.quota
    requires s'.hist.quota == s.hist.quota
    requires !s'.threads[i].Refreshing?
    ensures QuotaTableInv(s')
  {
    var m := s.table.entries;
    if gone {
      SumWithout(m, key);
      assert m.Keys == (m - {key}).Keys + {key};
      CountAtMostBytes(m - {key});
      RemoveMeaning(s.quota, s.hist.quota, size);
    } else {
      SumSetEntry(m, key, s'.table.entries[key]);
      assert s'.table.entries.Keys == m.Keys;
    }
  }

  lemma CommitKeepsQuota(s: Sys, i: nat, s': Sys, key: Key, size: nat)
    requires QuotaTableInv(s) && Moves(s, i, s')
    requires key !in s.table.entries && 0 < size <= s.quota.pending
    requires s'.table.entries == s.table.entries[key := Entry(size, Active, 0)]
    requires s'.quota == SwapOutCommitted(s.quota, size, size)
    requires s'.hist.quota == s.hist.quota.(commits := s.hist.quota.commits + [size])
    requires !s'.threads[i].Refreshing?
    ensures QuotaTableInv(s')
  {
    hide QuotaInv, SnapshotOk, SumSizes, SwapOutCommitted;
    TotalsAfterCommit(s.quota, s.hist.quota, s.table.entries, key, size);
    SnapshotsAfterCommit(s, i, s', size);
  }

  lemma TotalsAfterCommit(q: Quota, h: CommitHistory, entries: map<Key, Entry>, key: Key, size: nat)
    requires QuotaInv(q, h) && q.totalOccupied == SumSizes(entries) && q.totalKeys == |entries|
    requires key !in entries && 0 < size <= q.pending
    ensures var q', entries' := SwapOutCommitted(q, size, size), entries[key := Entry(size, Active, 0)];
      && QuotaInv(q', h.(commits := h.commits + [size]))
      && q'.totalOccupied == SumSizes(entries') && q'.totalKeys == |entries'|
  {
    hide QuotaInv, SumSizes, SwapOutCommitted;
    CommitMeaning(q, h, size);
    SumSetEntry(entries, key, Entry(size, Active, 0));
    assert entries[key := Entry(size, Active, 0)].Keys == entries.Keys + {key};
  }

  lemma SnapshotsAfterCommit(s: Sys, i: nat, s': Sys, size: nat)
    requires QuotaTableInv(s) && Moves(s, i, s') && 0 < size <= s.quota.pending
    requires s'.quota == SwapOutCommitted(s.quota, size, size)
    requires s'.hist.quota == s.hist.quota.(commits := s.hist.quota.commits + [size])
    requires !s'.threads[i].Refreshing?
    ensures forall j | 0 <= j < |s'.threads| && s'.threads[j].Refreshing? ::
              SnapshotOk(s'.quota, s'.hist.quota, s'.threads[j].r)
  {
    hide QuotaInv, SnapshotOk, SumSizes, SwapOutCommitted;
    forall j | 0 <= j < |s'.threads| && s'.threads[j].Refreshing?
      ensures SnapshotOk(s'.quota, s'.hist.quota, s'.threads[j].r)
    {
      CommitKeepsSnapshot(s.quota, s.hist.quota, s.threads[j].r, size);
    }
  }

  // ----- Events -----

  lemma UnlinkKeepsLog(s: Sys, i: nat, s': Sys, key: Key)
    requires LogInv(s) && Moves(s, i, s')
    requires key in s.hist.committed && Swap(key) in s.disk
    requires s'.disk == s.disk - {Swap(key)}
    requires s'.hist.committed == s.hist.committed && s'.hist.log == s.hist.log + [Unlinked(key)]
    requires RetOk(s.hist.log, PendingRet(s'.threads[i]))
    ensures LogInv(s')
  {
    LogGrows(s.hist.log, Unlinked(key));
    RetsSurvive(s, i, s', Unlinked(key));
  }

  lemma RenameKeepsLog(s: Sys, i: nat, s': Sys, key: Key)
    requires LogInv(s) && Moves(s, i, s')
    requires s'.hist == s.hist
    requires forall k: Key :: Swap(k) in s'.disk ==> Swap(k) in s.disk || k == key
    requires forall n | 0 <= n < |s.hist.log| && s.hist.log[n].Unlinked? :: s.hist.log[n].key != key
    requires RetOk(s.hist.log, PendingRet(s'.threads[i]))
    ensures LogInv(s')
  {
  }

  /** An event may follow if its key is not committed twice, read before its commit, or read or
      unlinked after its unlink. */
  lemma LogGrows(log: seq<Event>, e: Event)
    requires StoreSpec(log)
    requires e.Committed? ==> forall n | 0 <= n < |log| :: log[n].key != e.key
    requires e.ReadDone? ==> Committed(e.key, e.data) in log
    requires !e.Committed? ==> forall n | 0 <= n < |log| && log[n].Unlinked? :: log[n].key != e.key
    ensures StoreSpec(log + [e])
  {
    var log' := log + [e];
    forall a | 0 <= a < |log'| && log'[a].ReadDone?
      ensures exists b :: 0 <= b < a && log'[b] == Committed(log'[a].key, log'[a].data)
    {
      if a < |log| {
        var b :| 0 <= b < a && log[b] == Committed(log[a].key, log[a].data);
        assert log'[b] == log[b];
      } else {
        var b :| 0 <= b < |log| && log[b] == Committed(e.key, e.data);
        assert log'[b] == log[b];
      }
    }
  }

  lemma RetsSurvive(s: Sys, i: nat, s': Sys, e: Event)
    requires Moves(s, i, s') && s'.hist.log == s.hist.log + [e]
    requires forall j :: 0 <= j < |s.threads| ==> RetOk(s.hist.log, PendingRet(s.threads[j]))
    requires RetOk(s'.hist.log, PendingRet(s'.threads[i])) || RetOk(s.hist.log, PendingRet(s'.threads[i]))
    ensures forall j :: 0 <= j < |s'.threads| ==> RetOk(s'.hist.log, PendingRet(s'.threads[j]))
  {
    forall j | 0 <= j < |s'.threads| ensures RetOk(s'.hist.log, PendingRet(s'.threads[j])) {
      if j != i || !RetOk(s'.hist.log, PendingRet(s'.threads[i])) {
        RetSurvives(s.hist.log, e, PendingRet(s'.threads[j]));
      }
    }
  }

  lemma RetSurvives(log: seq<Event>, e: Event, ret: Ret)
    requires RetOk(log, ret)
    ensures RetOk(log + [e], ret)
  {
    if ret.SwappedOut? {
      var n :| 0 <= n < |log| && log[n].Committed? && log[n].key == ret.key;
      assert (log + [e])[n] == log[n];
    }
  }

  lemma CommitKeepsLog(s: Sys, i: nat, s': Sys, key: Key, data: Bytes)
    requires LogInv(s) && Moves(s, i, s')
    requires key !in s.hist.committed && s'.threads[i] == Ending(SwappedOut(key))
    requires s'.disk == s.disk
    requires s'.hist.committed == s.hist.committed[key := data]
    requires s'.hist.log == s.hist.log + [Committed(key, data)]
    ensures LogInv(s')
  {
    var e := Committed(key, data);
    var log, log' := s.hist.log, s'.hist.log;
    forall n | 0 <= n < |log| ensures log[n].key in s.hist.committed {
      if log[n].ReadDone? {
        var b :| 0 <= b < n && log[b] == Committed(log[n].key, log[n].data);
      }
    }
    LogGrows(log, e);
    assert log'[|log|] == e;
    RetsSurvive(s, i, s', e);
  }

  lemma ReadKeepsLog(s: Sys, i: nat, s': Sys, key: Key, got: Bytes)
    requires LogInv(s) && Moves(s, i, s')
    requires key in s.hist.committed && got == s.hist.committed[key] && Swap(key) in s.disk
    requires s'.threads[i] == SiFinish(key, SwappedIn(key, got))
    requires s'.disk == s.disk && s'.hist.committed == s.hist.committed
    requires s'.hist.log == s.hist.log + [ReadDone(key, got)]
    ensures LogInv(s')
  {
    hide StoreSpec;
    LogGrows(s.hist.log, ReadDone(key, got));
    assert s'.hist.log[|s.hist.log|] == ReadDone(key, got);
    RetsSurvive(s, i, s', ReadDone(key, got));
  }
}
