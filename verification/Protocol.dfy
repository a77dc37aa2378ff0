/**
 The swap store as a transition system: any number of threads call one manager through
 the C API.  A step is one critical section of the manager's mutex, of the quota
 controller's state lock or of the C API's lock, or one system call.  `Action` resolves
 what the environment decides: the request, the outcome of a system call, the clock, the
 storage manager's answer, the iteration order of the table.
 */
module Protocol {
  import opened SwapTypes
  import opened QuotaSpec
  import opened ManagerSpec

  datatype Path = Tmp(key: Key) | Swap(key: Key)
  type Disk = map<Path, Bytes>

  /** What an operation is about to return. */
  datatype Ret = Failed(code: Code) | Done | SwappedOut(key: Key) | SwappedIn(key: Key, got: Bytes)

  datatype AfterRefresh = ForReserve(key: Key, data: Bytes) | ForStats

  /** Where a thread is, with the local variables that are live there. */
  datatype PC =
    | Idle
    | Refresh(after: AfterRefresh)
    | Refreshing(after: AfterRefresh, r: Snapshot)
    // SwapOut
    | SoPrepare(addr: nat, data: Bytes)
    | SoReserve(key: Key, data: Bytes)
    | SoOpen(key: Key, data: Bytes)
    | SoWrite(key: Key, data: Bytes, n: nat)
    | SoRename(key: Key, data: Bytes)
    | SoCommit(key: Key, data: Bytes)
    | SoCleanup(key: Key, data: Bytes, code: Code)
    | SoCancel(key: Key, data: Bytes, code: Code)
    // SwapIn
    | SiPrepare(key: Key, addr: nat, cap: nat)
    | SiLookup(key: Key, addr: nat, cap: nat)
    | SiOpen(key: Key, addr: nat, cap: nat, size: nat)
    | SiRead(key: Key, size: nat, got: Bytes)
    | SiFinish(key: Key, ret: Ret)
    | SiUnlink(key: Key, size: nat, ret: Ret)
    | SiFinalize(key: Key, size: nat, gone: bool, ret: Ret)
    // RemoveData
    | RdPrepare(key: Key)
    | RdUnlink(key: Key, size: nat)
    | RdFinalize(key: Key, size: nat, gone: bool, ret: Ret)
    // RemoveAllData
    | RaCollect
    | RaUnlink(items: seq<Item>, results: seq<bool>, first: Code)
    | RaFinalize(items: seq<Item>, results: seq<bool>, next: nat, first: Code)
    // GetStats
    | GsPrepare
    | GsFill
    // leaving the operation, then the C API
    | Ending(ret: Ret)
    | Leaving(ret: Ret)
    // DestroyManager
    | DsMark
    | DsWait
    | DsFinish(clean: bool)
    | DsRestore
    | DsUnregister
    | DsDelete

  datatype Action =
    | CallSwapOut(addr: nat, data: Bytes)
    | CallSwapIn(key: Key, addr: nat, cap: nat)
    | CallRemove(key: Key)
    | CallRemoveAll
    | CallStats
    | CallDestroy
    | Proceed
    | Fails(code: Code)
    | Transfers(count: nat)
    | Clock(now: int)
    | Answer(ipc: Ipc)
    | Picks(items: seq<Item>)
    | Wipes(kept: set<Path>)

  /** The events a caller or the file system can observe. */
  datatype Event = Committed(key: Key, data: Bytes) | ReadDone(key: Key, data: Bytes) | Unlinked(key: Key)

  /** History that no step reads. */
  datatype History = History(issued: nat, quota: CommitHistory, committed: map<Key, Bytes>, log: seq<Event>)

  datatype Sys = Sys(
    table: Table,
    quota: Quota,
    api: Api,
    disk: Disk,
    threads: seq<PC>,
    mutex: Option<nat>,
    refreshMutex: Option<nat>,
    deleted: bool,
    hist: History)

  function At(s: Sys, i: nat, pc: PC): Sys
    requires i < |s.threads|
  {
    s.(threads := s.threads[i := pc])
  }

  function Logged(s: Sys, e: Event): Sys {
    s.(hist := s.hist.(log := s.hist.log + [e]))
  }

  /** A successful unlink of an entry's file. */
  function UnlinkSwap(s: Sys, key: Key): Sys {
    Logged(s.(disk := s.disk - {Swap(key)}), Unlinked(key))
  }

  /** Tells the quota controller about a removed entry and drops it from the table. */
  function Settle(s: Sys, key: Key, size: nat, gone: bool): Sys {
    var (t, tell) := FinalizeRemove(s.table, key, gone);
    s.(table := t, quota := if tell then EntryRemoved(s.quota, size, size) else s.quota)
  }

  function CallStep(s: Sys, i: nat, a: Action): Option<Sys>
    requires i < |s.threads|
  {
    if a.CallDestroy? then
      var (api, code) := BeginDestroy(s.api);
      Some(if code == Ok then At(s.(api := api), i, DsMark) else s)
    else
      var (api, code) := EnterCall(s.api);
      var entered := s.(api := api);
      match a
      case CallSwapOut(addr, data) =>
        if |data| >= U64 then None
        else Some(if code == Ok then At(entered, i, SoPrepare(addr, data)) else s)
      case CallSwapIn(key, addr, cap) =>
        Some(if code == Ok then At(entered, i, SiPrepare(key, addr, cap)) else s)
      case CallRemove(key) => Some(if code == Ok then At(entered, i, RdPrepare(key)) else s)
      case CallRemoveAll => Some(if code == Ok then At(entered, i, RaCollect) else s)
      case CallStats => Some(if code == Ok then At(entered, i, GsPrepare) else s)
      case _ => None
  }

  // ----- Checking the free space -----

  function AfterRefreshPC(after: AfterRefresh): PC {
    match after
    case ForReserve(key, data) => SoReserve(key, data)
    case ForStats => GsFill
  }

  function RefreshStep(s: Sys, i: nat, a: Action, after: AfterRefresh): Option<Sys>
    requires i < |s.threads|
  {
    if !a.Clock? || s.refreshMutex.Some? then None
    else if !RefreshDue(s.quota, a.now) then Some(At(s, i, AfterRefreshPC(after)))
    else
      var r := Snapshot(a.now, s.quota.committedSince, |s.hist.quota.commits|);
      Some(At(s.(refreshMutex := Some(i)), i, Refreshing(after, r)))
  }

  function RefreshingStep(s: Sys, i: nat, a: Action, after: AfterRefresh, r: Snapshot): Option<Sys>
    requires i < |s.threads|
  {
    if !a.Answer? || !PossibleIpc(s.quota, a.ipc) then None else
    var h := if Answered(s.quota, a.ipc) then s.hist.quota.(since := r.start) else s.hist.quota;
    Some(At(s.(quota := EndRefresh(s.quota, r, a.ipc), refreshMutex := None, hist := s.hist.(quota := h)),
            i, AfterRefreshPC(after)))
  }

  // ----- SwapOut -----

  function SoPrepareStep(s: Sys, i: nat, a: Action, addr: nat, data: Bytes): Option<Sys>
    requires i < |s.threads|
  {
    if !a.Proceed? || s.mutex.Some? then None
    else if data == [] then Some(At(s, i, Leaving(Failed(Inval))))
    else
      var (t, code, key) := PrepareSwapOut(s.table, addr, |data|);
      if code != Ok then Some(At(s, i, Leaving(Failed(code))))
      else Some(At(s.(table := t, hist := s.hist.(issued := s.hist.issued + 1)), i,
                   Refresh(ForReserve(key, data))))
  }

  function SoReserveStep(s: Sys, i: nat, a: Action, key: Key, data: Bytes): Option<Sys>
    requires i < |s.threads|
  {
    if !a.Proceed? then None else
    var (q, code) := Reserve(s.quota, |data|);
    Some(At(s.(quota := q), i, if code == Ok then SoOpen(key, data) else Ending(Failed(code))))
  }

  function SoOpenStep(s: Sys, i: nat, a: Action, key: Key, data: Bytes): Option<Sys>
    requires i < |s.threads|
  {
    if a.Proceed? then Some(At(s.(disk := s.disk[Tmp(key) := []]), i, SoWrite(key, data, 0)))
    else if a.Fails? then Some(At(s, i, SoCleanup(key, data, a.code)))
    else None
  }

  function SoWriteStep(s: Sys, i: nat, a: Action, key: Key, data: Bytes, n: nat): Option<Sys>
    requires i < |s.threads|
  {
    if a.Transfers? && 0 < a.count && n + a.count <= |data| then
      Some(At(s.(disk := s.disk[Tmp(key) := data[..n + a.count]]), i, SoWrite(key, data, n + a.count)))
    else if a.Proceed? && n == |data| then Some(At(s, i, SoRename(key, data)))
    else if a.Fails? then Some(At(s, i, SoCleanup(key, data, a.code)))
    else None
  }

  function SoRenameStep(s: Sys, i: nat, a: Action, key: Key, data: Bytes): Option<Sys>
    requires i < |s.threads|
  {
    if a.Proceed? && Tmp(key) in s.disk then
      Some(At(s.(disk := (s.disk - {Tmp(key)})[Swap(key) := s.disk[Tmp(key)]]), i, SoCommit(key, data)))
    else if a.Fails? then Some(At(s, i, SoCleanup(key, data, a.code)))
    else None
  }

  function SoCommitStep(s: Sys, i: nat, a: Action, key: Key, data: Bytes): Option<Sys>
    requires i < |s.threads|
  {
    if !a.Proceed? || s.mutex.Some? then None else
    var h := s.hist.(quota := s.hist.quota.(commits := s.hist.quota.commits + [|data|]),
                     committed := s.hist.committed[key := data],
                     log := s.hist.log + [Committed(key, data)]);
    Some(At(s.(table := CommitEntry(s.table, key, |data|),
               quota := SwapOutCommitted(s.quota, |data|, |data|),
               hist := h), i, Ending(SwappedOut(key))))
  }

  function SoCleanupStep(s: Sys, i: nat, a: Action, key: Key, data: Bytes, code: Code): Option<Sys>
    requires i < |s.threads|
  {
    if a.Proceed? then Some(At(s.(disk := s.disk - {Tmp(key)}), i, SoCancel(key, data, code)))
    else if a.Fails? then Some(At(s, i, SoCancel(key, data, code)))
    else None
  }

  function SoCancelStep(s: Sys, i: nat, a: Action, key: Key, data: Bytes, code: Code): Option<Sys>
    requires i < |s.threads|
  {
    if !a.Proceed? then None
    else Some(At(s.(quota := CancelReserved(s.quota, |data|)), i, Ending(Failed(code))))
  }

  // ----- SwapIn -----

  function SiPrepareStep(s: Sys, i: nat, a: Action, key: Key, addr: nat, cap: nat): Option<Sys>
    requires i < |s.threads|
  {
    if !a.Proceed? || s.mutex.Some? then None
    else if key == 0 || cap == 0 then Some(At(s, i, Leaving(Failed(Inval))))
    else
      var (t, code) := PrepareSwapIn(s.table);
      if code != Ok then Some(At(s, i, Leaving(Failed(code))))
      else Some(At(s.(table := t), i, SiLookup(key, addr, cap)))
  }

  function SiLookupStep(s: Sys, i: nat, a: Action, key: Key, addr: nat, cap: nat): Option<Sys>
    requires i < |s.threads|
  {
    if !a.Proceed? || s.mutex.Some? then None
    else if s.table.directIo && !IsDioAligned(addr, cap) then Some(At(s, i, Ending(Failed(DioAlign))))
    else
      var (t, code, size) := Lookup(s.table, key);
      if code != Ok then Some(At(s, i, Ending(Failed(code))))
      else Some(At(s.(table := t), i, SiOpen(key, addr, cap, size)))
  }

  function SiOpenStep(s: Sys, i: nat, a: Action, key: Key, addr: nat, cap: nat, size: nat): Option<Sys>
    requires i < |s.threads|
  {
    if cap < size then Some(At(s, i, SiFinish(key, Failed(BufferTooSmall))))
    else if size == 0 then Some(At(s, i, SiFinish(key, Failed(Inval))))
    else if s.table.directIo && !IsDioAligned(addr, size) then
      Some(At(s, i, SiFinish(key, Failed(DioAlign))))
    else if a.Proceed? && Swap(key) in s.disk then Some(At(s, i, SiRead(key, size, [])))
    else if a.Fails? then Some(At(s, i, SiFinish(key, Failed(a.code))))
    else None
  }

  function SiReadStep(s: Sys, i: nat, a: Action, key: Key, size: nat, got: Bytes): Option<Sys>
    requires i < |s.threads|
  {
    if a.Transfers? && 0 < a.count && |got| + a.count <= size && Swap(key) in s.disk
       && |got| + a.count <= |s.disk[Swap(key)]| then
      Some(At(s, i, SiRead(key, size, got + s.disk[Swap(key)][|got|..|got| + a.count])))
    else if a.Proceed? && |got| == size then
      Some(At(Logged(s, ReadDone(key, got)), i, SiFinish(key, SwappedIn(key, got))))
    else if a.Fails? && |got| < size then Some(At(s, i, SiFinish(key, Failed(a.code))))
    else None
  }

  function SiFinishStep(s: Sys, i: nat, a: Action, key: Key, ret: Ret): Option<Sys>
    requires i < |s.threads|
  {
    if !a.Proceed? || s.mutex.Some? then None else
    var (t, last) := Unpin(s.table, key);
    Some(At(s.(table := t), i, if last.None? then Ending(ret) else SiUnlink(key, last.value, ret)))
  }

  function SiUnlinkStep(s: Sys, i: nat, a: Action, key: Key, size: nat, ret: Ret): Option<Sys>
    requires i < |s.threads|
  {
    if a.Proceed? && Swap(key) in s.disk then Some(At(UnlinkSwap(s, key), i, SiFinalize(key, size, true, ret)))
    else if a.Fails? then Some(At(s, i, SiFinalize(key, size, false, ret)))
    else None
  }

  function SiFinalizeStep(s: Sys, i: nat, a: Action, key: Key, size: nat, gone: bool, ret: Ret): Option<Sys>
    requires i < |s.threads|
  {
    if !a.Proceed? || s.mutex.Some? then None
    else Some(At(Settle(s, key, size, gone), i, Ending(ret)))
  }

  // ----- RemoveData and RemoveAllData -----

  function RdPrepareStep(s: Sys, i: nat, a: Action, key: Key): Option<Sys>
    requires i < |s.threads|
  {
    if !a.Proceed? || s.mutex.Some? then None
    else if key == 0 then Some(At(s, i, Leaving(Failed(Inval))))
    else
      var (t, code, now) := PrepareRemove(s.table, key);
      if code != Ok then Some(At(s, i, Leaving(Failed(code))))
      else Some(At(s.(table := t), i, if now.None? then Leaving(Done) else RdUnlink(key, now.value)))
  }

  function RdUnlinkStep(s: Sys, i: nat, a: Action, key: Key, size: nat): Option<Sys>
    requires i < |s.threads|
  {
    if a.Proceed? && Swap(key) in s.disk then Some(At(UnlinkSwap(s, key), i, RdFinalize(key, size, true, Done)))
    else if a.Fails? then Some(At(s, i, RdFinalize(key, size, false, Failed(a.code))))
    else None
  }

  function RdFinalizeStep(s: Sys, i: nat, a: Action, key: Key, size: nat, gone: bool, ret: Ret): Option<Sys>
    requires i < |s.threads|
  {
    if !a.Proceed? || s.mutex.Some? then None
    else Some(At(Settle(s, key, size, gone), i, Ending(ret)))
  }

  function RaCollectStep(s: Sys, i: nat, a: Action): Option<Sys>
    requires i < |s.threads|
  {
    if !a.Picks? || s.mutex.Some? then None else
    var (t, code) := CollectAll(s.table);
    if code != Ok then Some(At(s, i, Leaving(Failed(code))))
    else if s.table.entries == map[] then Some(At(s.(table := t), i, Leaving(Done)))
    else if !Lists(a.items, s.table.entries) then None
    else Some(At(s.(table := t), i, RaUnlink(a.items, [], Ok)))
  }

  function RaUnlinkStep(s: Sys, i: nat, a: Action, items: seq<Item>, results: seq<bool>, first: Code): Option<Sys>
    requires i < |s.threads|
  {
    if |results| < |items| then
      var key := items[|results|].key;
      if a.Proceed? && Swap(key) in s.disk then
        Some(At(UnlinkSwap(s, key), i, RaUnlink(items, results + [true], first)))
      else if a.Fails? then
        Some(At(s, i, RaUnlink(items, results + [false], if first == Ok then a.code else first)))
      else None
    else if a.Proceed? && s.mutex.None? then
      Some(At(s.(mutex := Some(i)), i, RaFinalize(items, results, 0, first)))
    else None
  }

  function RaFinalizeStep(s: Sys, i: nat, a: Action, items: seq<Item>, results: seq<bool>, next: nat, first: Code): Option<Sys>
    requires i < |s.threads|
  {
    if !a.Proceed? then None
    else if next < |items| && next < |results| then
      Some(At(Settle(s, items[next].key, items[next].size, results[next]), i,
              RaFinalize(items, results, next + 1, first)))
    else
      Some(At(s.(table := EndRemoveAll(s.table), mutex := None), i,
              Ending(if first == Ok then Done else Failed(first))))
  }

  // ----- GetStats -----

  function GsPrepareStep(s: Sys, i: nat, a: Action): Option<Sys>
    requires i < |s.threads|
  {
    if !a.Proceed? || s.mutex.Some? then None else
    var code := Admission(s.table);
    if code != Ok then Some(At(s, i, Leaving(Failed(code))))
    else Some(At(s.(table := Begun(s.table)), i, Refresh(ForStats)))
  }

  function GsFillStep(s: Sys, i: nat, a: Action): Option<Sys>
    requires i < |s.threads|
  {
    if !a.Proceed? then None else Some(At(s, i, Ending(Done)))
  }

  // ----- Leaving -----

  function EndingStep(s: Sys, i: nat, a: Action, ret: Ret): Option<Sys>
    requires i < |s.threads|
  {
    if !a.Proceed? || s.mutex.Some? then None
    else Some(At(s.(table := EndOperation(s.table)), i, Leaving(ret)))
  }

  function LeavingStep(s: Sys, i: nat, a: Action, ret: Ret): Option<Sys>
    requires i < |s.threads|
  {
    if !a.Proceed? then None else Some(At(s.(api := LeaveCall(s.api)), i, Idle))
  }

  // ----- DestroyManager -----

  function DsMarkStep(s: Sys, i: nat, a: Action): Option<Sys>
    requires i < |s.threads|
  {
    if !a.Proceed? || s.mutex.Some? then None
    else Some(At(s.(table := MarkShuttingDown(s.table)), i, DsWait))
  }

  function DsWaitStep(s: Sys, i: nat, a: Action): Option<Sys>
    requires i < |s.threads|
  {
    if !a.Proceed? || s.mutex.Some? then None
    else Some(At(s, i, DsFinish(s.table.activeOps == 0)))
  }

  function DsFinishStep(s: Sys, i: nat, a: Action, clean: bool): Option<Sys>
    requires i < |s.threads|
  {
    if !a.Wipes? || s.mutex.Some? then None else
    var (t, code) := FinishDestroy(s.table, clean);
    if code != Ok then Some(At(s.(table := t), i, DsRestore))
    else Some(At(s.(table := t, quota := AllEntriesRemoved(s.quota),
                    disk := map p | p in s.disk && p in a.kept :: s.disk[p]), i, DsUnregister))
  }

  function DsRestoreStep(s: Sys, i: nat, a: Action): Option<Sys>
    requires i < |s.threads|
  {
    if !a.Proceed? then None else Some(At(s.(api := RestoreDestroyable(s.api)), i, Idle))
  }

  function DsUnregisterStep(s: Sys, i: nat, a: Action): Option<Sys>
    requires i < |s.threads|
  {
    if !a.Proceed? then None else Some(At(s.(api := Gone), i, DsDelete))
  }

  function DsDeleteStep(s: Sys, i: nat, a: Action): Option<Sys>
    requires i < |s.threads|
  {
    if !a.Proceed? then None else Some(At(s.(deleted := true), i, Idle))
  }

  /** The successor of `s` when thread `i` takes action `a`; None if it cannot. */
  function Apply(s: Sys, i: nat, a: Action): Option<Sys> {
    if i >= |s.threads| || (a.Fails? && a.code == Ok) then None else
    match s.threads[i]
    case Idle => CallStep(s, i, a)
    case Refresh(after) => RefreshStep(s, i, a, after)
    case Refreshing(after, r) => RefreshingStep(s, i, a, after, r)
    case SoPrepare(addr, data) => SoPrepareStep(s, i, a, addr, data)
    case SoReserve(key, data) => SoReserveStep(s, i, a, key, data)
    case SoOpen(key, data) => SoOpenStep(s, i, a, key, data)
    case SoWrite(key, data, n) => SoWriteStep(s, i, a, key, data, n)
    case SoRename(key, data) => SoRenameStep(s, i, a, key, data)
    case SoCommit(key, data) => SoCommitStep(s, i, a, key, data)
    case SoCleanup(key, data, code) => SoCleanupStep(s, i, a, key, data, code)
    case SoCancel(key, data, code) => SoCancelStep(s, i, a, key, data, code)
    case SiPrepare(key, addr, cap) => SiPrepareStep(s, i, a, key, addr, cap)
    case SiLookup(key, addr, cap) => SiLookupStep(s, i, a, key, addr, cap)
    case SiOpen(key, addr, cap, size) => SiOpenStep(s, i, a, key, addr, cap, size)
    case SiRead(key, size, got) => SiReadStep(s, i, a, key, size, got)
    case SiFinish(key, ret) => SiFinishStep(s, i, a, key, ret)
    case SiUnlink(key, size, ret) => SiUnlinkStep(s, i, a, key, size, ret)
    case SiFinalize(key, size, gone, ret) => SiFinalizeStep(s, i, a, key, size, gone, ret)
    case RdPrepare(key) => RdPrepareStep(s, i, a, key)
    case RdUnlink(key, size) => RdUnlinkStep(s, i, a, key, size)
    case RdFinalize(key, size, gone, ret) => RdFinalizeStep(s, i, a, key, size, gone, ret)
    case RaCollect => RaCollectStep(s, i, a)
    case RaUnlink(items, results, first) => RaUnlinkStep(s, i, a, items, results, first)
    case RaFinalize(items, results, next, first) => RaFinalizeStep(s, i, a, items, results, next, first)
    case GsPrepare => GsPrepareStep(s, i, a)
    case GsFill => GsFillStep(s, i, a)
    case Ending(ret) => EndingStep(s, i, a, ret)
    case Leaving(ret) => LeavingStep(s, i, a, ret)
    case DsMark => DsMarkStep(s, i, a)
    case DsWait => DsWaitStep(s, i, a)
    case DsFinish(clean) => DsFinishStep(s, i, a, clean)
    case DsRestore => DsRestoreStep(s, i, a)
    case DsUnregister => DsUnregisterStep(s, i, a)
    case DsDelete => DsDeleteStep(s, i, a)
  }

  ghost predicate Next(s: Sys, s': Sys) {
    exists i: nat, a: Action :: Apply(s, i, a) == Some(s')
  }

  /** The manager right after it was created and registered, with all threads outside. */
  ghost predicate Init(s: Sys) {
    && (exists limit: nat, intervalMs: nat, now: int, ipc: Ipc ::
          limit < U64 && s.quota == InitQuota(limit, intervalMs, now, ipc))
    && s.table == InitTable(s.table.directIo)
    && s.api == Present(0, false)
    && s.disk == map[]
    && |s.threads| < U32
    && (forall i :: 0 <= i < |s.threads| ==> s.threads[i] == Idle)
    && s.mutex == None && s.refreshMutex == None && !s.deleted
    && s.hist == History(0, CommitHistory([], 0), map[], [])
  }

  /** A run: consecutive states, each a step from the one before. */
  ghost predicate IsRun(run: seq<Sys>) {
    && |run| > 0 && Init(run[0])
    && forall n :: 0 <= n < |run| - 1 ==> Next(run[n], run[n + 1])
  }
}
