/** What holds in every reachable state of the swap store, and how threads are counted. */
module ProtocolInvariant {
  import opened SwapTypes
  import opened QuotaSpec
  import opened ManagerSpec
  import opened Protocol

  // ----- Counting threads -----

  /** Calls inside the C API's guard, operations inside the manager's, bytes reserved with
      the quota controller, and swap-ins between the lookup and the finish of a key. */
  datatype Measure = Calls | Ops | Reserved | Readers(key: Key)

  function Weight(m: Measure, pc: PC): nat {
    match m
    case Calls => if pc.Idle? || IsDestroyer(pc) then 0 else 1
    case Ops =>
      if pc.Idle? || IsDestroyer(pc) || pc.SoPrepare? || pc.SiPrepare? || pc.RdPrepare? || pc.RaCollect?
         || pc.GsPrepare? || pc.Leaving?
      then 0 else 1
    case Reserved =>
      if pc.SoOpen? || pc.SoWrite? || pc.SoRename? || pc.SoCommit? || pc.SoCleanup? || pc.SoCancel?
      then |pc.data| else 0
    case Readers(key) => if Reads(pc, key) then 1 else 0
  }

  function Total(m: Measure, ts: seq<PC>): nat {
    if ts == [] then 0 else Weight(m, ts[0]) + Total(m, ts[1..])
  }

  lemma {:induction false} TotalUpdate(m: Measure, ts: seq<PC>, i: nat, pc: PC)
    requires i < |ts|
    ensures Total(m, ts[i := pc]) + Weight(m, ts[i]) == Total(m, ts) + Weight(m, pc)
  {
    if i == 0 {
      assert ts[i := pc][1..] == ts[1..];
    } else {
      TotalUpdate(m, ts[1..], i - 1, pc);
      assert ts[i := pc][1..] == ts[1..][i - 1 := pc];
    }
  }

  lemma {:induction false} TotalAtLeast(m: Measure, ts: seq<PC>, i: nat)
    requires i < |ts|
    ensures Weight(m, ts[i]) <= Total(m, ts)
  {
    if i > 0 {
      TotalAtLeast(m, ts[1..], i - 1);
    }
  }

  lemma {:induction false} TotalBound(m: Measure, ts: seq<PC>)
    requires !m.Reserved?
    ensures Total(m, ts) <= |ts|
  {
    if ts != [] {
      TotalBound(m, ts[1..]);
    }
  }

  lemma {:induction false} OpsAtMostCalls(ts: seq<PC>)
    ensures Total(Ops, ts) <= Total(Calls, ts)
  {
    if ts != [] {
      OpsAtMostCalls(ts[1..]);
    }
  }

  /** A count that is positive has a thread behind it, a count of zero has none. */
  lemma {:induction false} TotalWitness(m: Measure, ts: seq<PC>) returns (i: nat)
    requires Total(m, ts) > 0
    ensures i < |ts| && Weight(m, ts[i]) > 0
  {
    if Weight(m, ts[0]) > 0 {
      i := 0;
    } else {
      var j := TotalWitness(m, ts[1..]);
      i := j + 1;
    }
  }

  lemma {:induction false} NoneCounted(m: Measure, ts: seq<PC>)
    requires Total(m, ts) == 0
    ensures forall i :: 0 <= i < |ts| ==> Weight(m, ts[i]) == 0
  {
    forall i | 0 <= i < |ts| ensures Weight(m, ts[i]) == 0 {
      TotalAtLeast(m, ts, i);
    }
  }

  lemma {:induction false} AllIdle(m: Measure, ts: seq<PC>)
    requires forall i :: 0 <= i < |ts| ==> ts[i] == Idle
    ensures Total(m, ts) == 0
  {
    if ts != [] {
      AllIdle(m, ts[1..]);
    }
  }

  // ----- What a thread holds -----

  predicate IsDestroyer(pc: PC) {
    pc.DsMark? || pc.DsWait? || pc.DsFinish? || pc.DsRestore? || pc.DsUnregister? || pc.DsDelete?
  }

  predicate IsRemoveAll(pc: PC) {
    pc.RaUnlink? || pc.RaFinalize?
  }

  /** A swap-in between its lookup and its finish. */
  predicate Reads(pc: PC, key: Key) {
    (pc.SiOpen? || pc.SiRead? || pc.SiFinish?) && pc.key == key
  }

  /** A swap-out after its reservation and before its commit or cancellation. */
  predicate IsSwapOut(pc: PC) {
    || pc.SoReserve? || pc.SoOpen? || pc.SoWrite? || pc.SoRename? || pc.SoCommit? || pc.SoCleanup? || pc.SoCancel?
    || ((pc.Refresh? || pc.Refreshing?) && pc.after.ForReserve?)
  }

  function NewKey(pc: PC): Key
    requires IsSwapOut(pc)
  {
    if pc.Refresh? || pc.Refreshing? then pc.after.key else pc.key
  }

  function NewData(pc: PC): Bytes
    requires IsSwapOut(pc)
  {
    if pc.Refresh? || pc.Refreshing? then pc.after.data else pc.data
  }

  /** The thread has the duty to delete the file of `key` and to settle its entry. */
  predicate OwnsRemoval(pc: PC, key: Key) {
    || ((pc.SiUnlink? || pc.SiFinalize? || pc.RdUnlink? || pc.RdFinalize?) && pc.key == key)
    || (pc.RaUnlink? && exists n :: 0 <= n < |pc.items| && pc.items[n].key == key)
    || (pc.RaFinalize? && exists n :: pc.next <= n < |pc.items| && pc.items[n].key == key)
  }

  /** The thread has deleted the file of `key` and not yet settled its entry. */
  predicate HasUnlinked(pc: PC, key: Key) {
    || ((pc.SiFinalize? || pc.RdFinalize?) && pc.key == key && pc.gone)
    || (pc.RaUnlink? && exists n ::
          0 <= n < |pc.items| && n < |pc.results| && pc.items[n].key == key && pc.results[n])
    || (pc.RaFinalize? && exists n ::
          pc.next <= n < |pc.items| && n < |pc.results| && pc.items[n].key == key && pc.results[n])
  }

  // ----- The invariant -----

  ghost predicate CountInv(s: Sys) {
    && |s.threads| < U32
    && s.table.activeOps == Total(Ops, s.threads)
    && (s.api.Present? ==> s.api.activeCalls == Total(Calls, s.threads))
    && (s.api.Gone? ==> Total(Calls, s.threads) == 0)
    && s.quota.pending == Total(Reserved, s.threads)
    && forall k :: k in s.table.entries ==> s.table.entries[k].readers == Total(Readers(k), s.threads)
  }

  ghost predicate ApiInv(s: Sys) {
    && (forall i, j | 0 <= i < |s.threads| && 0 <= j < |s.threads|
          && IsDestroyer(s.threads[i]) && IsDestroyer(s.threads[j]) :: i == j)
    && (forall i | 0 <= i < |s.threads| && IsDestroyer(s.threads[i]) ::
          && (s.api.Gone? <==> s.threads[i].DsDelete?)
          && (s.api.Present? ==> s.api.destroying)
          && !s.deleted
          && !s.threads[i].DsRestore?
          && (s.threads[i].DsFinish? ==> s.threads[i].clean)
          && (s.threads[i].DsUnregister? || s.threads[i].DsDelete? ==> s.table.entries == map[])
          && (s.threads[i].DsMark? || s.threads[i].DsWait? || s.threads[i].DsFinish? ==> s.table.initialized))
    && (s.api.Present? && s.api.destroying ==> s.api.activeCalls == 0)
    && (s.api.Present? && !s.api.destroying ==>
          s.table.initialized && !s.table.shuttingDown && !s.deleted)
  }

  ghost predicate LockInv(s: Sys) {
    && (s.mutex.Some? ==> s.mutex.value < |s.threads|)
    && (s.refreshMutex.Some? ==> s.refreshMutex.value < |s.threads|)
    && (forall i :: 0 <= i < |s.threads| ==> (s.threads[i].Refreshing? <==> s.refreshMutex == Some(i)))
    && (forall i :: 0 <= i < |s.threads| ==> (s.threads[i].RaFinalize? <==> s.mutex == Some(i)))
    && (forall i, j | 0 <= i < |s.threads| && 0 <= j < |s.threads|
          && IsRemoveAll(s.threads[i]) && IsRemoveAll(s.threads[j]) :: i == j)
    && (s.table.removeAll <==> exists i :: 0 <= i < |s.threads| && IsRemoveAll(s.threads[i]))
    && (forall i, j | 0 <= i < |s.threads| && 0 <= j < |s.threads|
          && IsRemoveAll(s.threads[i]) :: !IsSwapOut(s.threads[j]))
  }

  /** Direct I/O: a swap-in past its lookup has an aligned buffer. */
  predicate AddrOk(directIo: bool, pc: PC) {
    directIo && pc.SiOpen? ==> pc.addr % DIO_ALIGNMENT == 0
  }

  ghost predicate KeyInv(s: Sys) {
    && s.table.nextKeyId == s.hist.issued + 1 < U64
    && (forall k :: k in s.hist.committed ==> 1 <= k < s.table.nextKeyId)
    && (forall k | k in s.table.entries ::
          && k in s.hist.committed
          && s.table.entries[k].size == |s.hist.committed[k]|
          && 0 < s.table.entries[k].size < U64
          && (s.table.directIo ==> s.table.entries[k].size % DIO_ALIGNMENT == 0))
    && (forall i | 0 <= i < |s.threads| && IsSwapOut(s.threads[i]) ::
          && 1 <= NewKey(s.threads[i]) < s.table.nextKeyId
          && NewKey(s.threads[i]) !in s.hist.committed
          && 0 < |NewData(s.threads[i])| < U64
          && (s.table.directIo ==> |NewData(s.threads[i])| % DIO_ALIGNMENT == 0))
    && (forall i, j | 0 <= i < |s.threads| && 0 <= j < |s.threads| && i != j
          && IsSwapOut(s.threads[i]) && IsSwapOut(s.threads[j]) ::
          NewKey(s.threads[i]) != NewKey(s.threads[j]))
    && (forall i :: 0 <= i < |s.threads| && s.threads[i].SoPrepare? ==> |s.threads[i].data| < U64)
    && (forall i :: 0 <= i < |s.threads| ==> AddrOk(s.table.directIo, s.threads[i]))
  }

  /** What a thread that reads or removes entries relies on. */
  ghost predicate HolderOk(entries: map<Key, Entry>, pc: PC) {
    && (forall k :: Reads(pc, k) ==> k in entries)
    && (pc.SiOpen? || pc.SiRead? ==> pc.key in entries && pc.size == entries[pc.key].size)
    && (pc.SiUnlink? || pc.SiFinalize? || pc.RdUnlink? || pc.RdFinalize? ==>
          pc.key in entries && pc.size == entries[pc.key].size)
    && (pc.RaUnlink? ==> |pc.results| <= |pc.items|)
    && (pc.RaFinalize? ==> |pc.results| == |pc.items| && pc.next <= |pc.items|)
    && (IsRemoveAll(pc) ==>
          && (forall m, n :: 0 <= m < n < |pc.items| ==> pc.items[m].key != pc.items[n].key)
          && (forall n :: (if pc.RaFinalize? then pc.next else 0) <= n < |pc.items| ==>
                pc.items[n].key in entries && pc.items[n].size == entries[pc.items[n].key].size))
  }

  ghost predicate OwnInv(s: Sys) {
    && (forall i :: 0 <= i < |s.threads| ==> HolderOk(s.table.entries, s.threads[i]))
    && (forall i, k :: 0 <= i < |s.threads| && OwnsRemoval(s.threads[i], k) ==>
          k in s.table.entries && s.table.entries[k].status == Removing && s.table.entries[k].readers == 0)
    && (forall i, j, k | 0 <= i < |s.threads| && 0 <= j < |s.threads|
          && OwnsRemoval(s.threads[i], k) && OwnsRemoval(s.threads[j], k) :: i == j)
    && (forall k | k in s.table.entries && s.table.entries[k].status == Removing
          && s.table.entries[k].readers == 0 ::
          exists i :: 0 <= i < |s.threads| && OwnsRemoval(s.threads[i], k))
  }

  /** What a thread knows of the files it is working on. */
  ghost predicate FilesOk(disk: Disk, committed: map<Key, Bytes>, pc: PC) {
    && (IsSwapOut(pc) && !pc.SoCommit? ==> Swap(NewKey(pc)) !in disk)
    && (pc.SoCommit? ==> Swap(pc.key) in disk && disk[Swap(pc.key)] == pc.data)
    && (pc.SoWrite? ==> pc.n <= |pc.data| && Tmp(pc.key) in disk && disk[Tmp(pc.key)] == pc.data[..pc.n])
    && (pc.SoRename? ==> Tmp(pc.key) in disk && disk[Tmp(pc.key)] == pc.data)
    && (pc.SiRead? ==> pc.key in committed && |pc.got| <= pc.size == |committed[pc.key]|
                       && pc.got == committed[pc.key][..|pc.got|])
    && (forall k :: HasUnlinked(pc, k) ==> Swap(k) !in disk)
  }

  ghost predicate FileInv(s: Sys) {
    && (forall i :: 0 <= i < |s.threads| ==> FilesOk(s.disk, s.hist.committed, s.threads[i]))
    && (forall k: Key :: Swap(k) in s.disk ==> k < s.table.nextKeyId)
    && (forall k :: k in s.table.entries && Swap(k) in s.disk ==>
          k in s.hist.committed && s.disk[Swap(k)] == s.hist.committed[k])
    && (forall k :: k in s.table.entries && Swap(k) !in s.disk ==>
          exists i :: 0 <= i < |s.threads| && HasUnlinked(s.threads[i], k))
  }

  ghost predicate QuotaTableInv(s: Sys) {
    && QuotaInv(s.quota, s.hist.quota)
    && s.quota.totalOccupied == SumSizes(s.table.entries)
    && s.quota.totalKeys == |s.table.entries|
    && (forall i | 0 <= i < |s.threads| && s.threads[i].Refreshing? ::
          SnapshotOk(s.quota, s.hist.quota, s.threads[i].r))
  }

  /** What the store promises about the order of its events. */
  ghost predicate StoreSpec(log: seq<Event>) {
    && (forall a, b | 0 <= a < |log| && 0 <= b < |log| && log[a].Committed? && log[b].Committed?
          && log[a].key == log[b].key :: a == b)
    && (forall a :: 0 <= a < |log| && log[a].ReadDone? ==>
          exists b :: 0 <= b < a && log[b] == Committed(log[a].key, log[a].data))
    && (forall a, b | 0 <= a < |log| && 0 <= b < |log| && log[a].Unlinked? && log[b].Unlinked?
          && log[a].key == log[b].key :: a == b)
    && (forall a, b | 0 <= a < |log| && 0 <= b < |log| && log[a].Unlinked? && !log[b].Unlinked?
          && log[a].key == log[b].key :: b < a)
  }

  predicate RetOk(log: seq<Event>, ret: Ret) {
    match ret
    case SwappedIn(key, got) => ReadDone(key, got) in log
    case SwappedOut(key) => exists n :: 0 <= n < |log| && log[n].Committed? && log[n].key == key
    case _ => true
  }

  function PendingRet(pc: PC): Ret {
    if pc.SiFinish? || pc.SiUnlink? || pc.SiFinalize? || pc.RdFinalize? || pc.Ending? || pc.Leaving? then pc.ret
    else Done
  }

  ghost predicate LogInv(s: Sys) {
    && StoreSpec(s.hist.log)
    && (forall n :: 0 <= n < |s.hist.log| && s.hist.log[n].Committed? ==>
          s.hist.log[n].key in s.hist.committed && s.hist.committed[s.hist.log[n].key] == s.hist.log[n].data)
    && (forall k :: k in s.hist.committed ==> Committed(k, s.hist.committed[k]) in s.hist.log)
    && (forall n :: 0 <= n < |s.hist.log| && s.hist.log[n].Unlinked? ==>
          s.hist.log[n].key in s.hist.committed && Swap(s.hist.log[n].key) !in s.disk)
    && (forall i :: 0 <= i < |s.threads| ==> RetOk(s.hist.log, PendingRet(s.threads[i])))
  }

  ghost predicate Inv(s: Sys) {
    CountInv(s) && ApiInv(s) && LockInv(s) && KeyInv(s) && OwnInv(s) && FileInv(s) && QuotaTableInv(s) && LogInv(s)
  }
}
