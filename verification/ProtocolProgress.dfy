/** The swap store gets things done: no state is a deadlock, and operations that nothing disturbs
    succeed with the results one expects. */
module ProtocolProgress {
  import opened SwapTypes
  import opened QuotaSpec
  import opened ManagerSpec
  import opened Protocol
  import opened ProtocolInvariant
  import opened ProtocolEffects
  import opened ProtocolSteps
  import opened ProtocolTheorems

  // ----- No deadlock -----

  ghost predicate CanStep(s: Sys, i: nat) {
    exists a :: Apply(s, i, a).Some?
  }

  /** The thread needs a lock that another thread holds. */
  predicate Waits(s: Sys, i: nat)
    requires i < |s.threads|
  {
    || (s.threads[i].Refresh? && s.refreshMutex.Some?)
    || (!s.threads[i].RaFinalize? && s.mutex.Some?)
  }

  lemma {:induction false} Listing(entries: map<Key, Entry>) returns (items: seq<Item>)
    ensures Lists(items, entries)
    decreases |entries|
  {
    if entries == map[] {
      items := [];
    } else {
      var k :| k in entries;
      var rest := Listing(entries - {k});
      items := rest + [Item(k, entries[k].size)];
      assert items[|rest|].key == k;
      forall key | key in entries ensures exists i :: 0 <= i < |items| && items[i].key == key {
        if key != k {
          assert key in entries - {k};
          var i :| 0 <= i < |rest| && rest[i].key == key;
          assert items[i].key == key;
        }
      }
    }
  }

  /** An action with which a thread that waits for no lock can go on, whatever the files do. */
  function WayOn(s: Sys, i: nat): Action
    requires i < |s.threads|
  {
    var pc := s.threads[i];
    if pc.Refresh? then Clock(0)
    else if pc.Refreshing? then Answer(CallFailed)
    else if pc.DsFinish? then Wipes({})
    else if pc.SoOpen? || pc.SoWrite? || pc.SoRename? || pc.SiOpen? || pc.SiUnlink? || pc.RdUnlink? then Fails(IoError)
    else if pc.SiRead? && |pc.got| < pc.size then Fails(IoError)
    else if pc.RaUnlink? && |pc.results| < |pc.items| then Fails(IoError)
    else Proceed
  }

  lemma GoesOn(s: Sys, i: nat)
    requires i < |s.threads| && !s.threads[i].Idle? && !s.threads[i].RaCollect? && !Waits(s, i)
    requires s.threads[i].SiRead? ==> |s.threads[i].got| <= s.threads[i].size
    ensures Apply(s, i, WayOn(s, i)).Some?
  {
    hide Settle;
  }

  lemma CollectGoesOn(s: Sys, i: nat)
    requires i < |s.threads| && s.threads[i].RaCollect? && !Waits(s, i)
    ensures CanStep(s, i)
  {
    var items := Listing(s.table.entries);
    assert Apply(s, i, Picks(items)).Some?;
  }

  /** In every reachable state a thread inside an operation can take a step, or waits for a lock
      whose holder can. */
  lemma NoDeadlock(run: seq<Sys>, n: nat, i: nat)
    requires IsRun(run) && BeforeWrap(run) && n < |run| && i < |run[n].threads|
    requires run[n].threads[i] != Idle
    ensures CanStep(run[n], i) || exists j: nat :: j != i && CanStep(run[n], j)
                                    && (run[n].mutex == Some(j) || run[n].refreshMutex == Some(j))
  {
    hide CountInv, ApiInv, KeyInv, OwnInv, QuotaTableInv, LogInv, IsRun, BeforeWrap, Apply;
    RunHasInv(run, n);
    var s := run[n];
    assert FilesOk(s.disk, s.hist.committed, s.threads[i]);
    if !Waits(s, i) {
      if s.threads[i].RaCollect? {
        CollectGoesOn(s, i);
      } else {
        GoesOn(s, i);
      }
    } else if s.mutex.Some? && !s.threads[i].RaFinalize? {
      var j := s.mutex.value;
      assert s.threads[j].RaFinalize?;
      GoesOn(s, j);
    } else {
      var j := s.refreshMutex.value;
      assert s.threads[j].Refreshing?;
      GoesOn(s, j);
    }
  }

  // ----- Operations of one thread, undisturbed -----

  /** The state after thread `i` has taken these actions without interruption. */
  function Does(s: Sys, i: nat, actions: seq<Action>): Option<Sys>
    decreases |actions|
  {
    if actions == [] then Some(s)
    else match Apply(s, i, actions[0])
      case None => None
      case Some(s') => Does(s', i, actions[1..])
  }

  predicate IsCall(a: Action) {
    a.CallSwapOut? || a.CallSwapIn? || a.CallRemove? || a.CallRemoveAll? || a.CallStats? || a.CallDestroy?
  }

  /** Going on with an operation, without failures. */
  predicate Smooth(actions: seq<Action>) {
    forall n :: 0 <= n < |actions| ==> !actions[n].Fails? && !IsCall(actions[n])
  }

  lemma {:induction false} DoesOne(s: Sys, i: nat, a: Action, s': Sys, rest: seq<Action>)
    requires Apply(s, i, a) == Some(s')
    ensures Does(s, i, [a] + rest) == Does(s', i, rest)
  {
    hide Apply;
    assert ([a] + rest)[1..] == rest;
  }

  /** One more action at the beginning. */
  lemma Before(s: Sys, i: nat, a: Action, s1: Sys, rest: seq<Action>, end: Sys) returns (actions: seq<Action>)
    requires Apply(s, i, a) == Some(s1) && Does(s1, i, rest) == Some(end) && Smooth(rest)
    ensures Does(s, i, actions) == Some(end)
    ensures actions != [] && actions[0] == a && actions[1..] == rest
    ensures !a.Fails? && !IsCall(a) ==> Smooth(actions)
  {
    actions := [a] + rest;
    DoesOne(s, i, a, s1, rest);
  }

  lemma {:induction false} DoesNothing(s: Sys, i: nat)
    ensures Does(s, i, []) == Some(s)
  {
  }

  /** Thread `i` may call an operation, and nobody holds the mutex. */
  predicate Ready(s: Sys, i: nat) {
    && i < |s.threads| && s.threads[i] == Idle
    && s.api.Present? && !s.api.destroying
    && s.table.initialized && !s.table.shuttingDown
    && s.mutex.None?
  }

  // ----- They can finish without failures -----

  lemma ActiveHasFile(s: Sys, key: Key)
    requires key in s.table.entries && s.table.entries[key].status == Active
    requires Inv(s)
    ensures Swap(key) in s.disk && |s.disk[Swap(key)]| == s.table.entries[key].size > 0 && key > 0
  {
    hide CountInv, ApiInv, LockInv, QuotaTableInv, LogInv, HolderOk, OwnsRemoval, HasUnlinked, FilesOk;
    NotOwned(s, key);
    if Swap(key) !in s.disk {
      var j :| 0 <= j < |s.threads| && HasUnlinked(s.threads[j], key);
      UnlinkedIsOwned(s.threads[j], key);
    }
  }

  lemma SizeIsAligned(s: Sys, key: Key)
    requires key in s.table.entries && s.table.directIo
    requires Inv(s)
    ensures s.table.entries[key].size % DIO_ALIGNMENT == 0
  {
    hide CountInv, ApiInv, LockInv, OwnInv, FileInv, QuotaTableInv, LogInv;
  }

  /** A swap-in of an active entry can finish undisturbed, in every reachable state. */
  lemma {:induction false} SwapInCanFinish(run: seq<Sys>, n: nat, i: nat, key: Key, addr: nat, cap: nat) returns (actions: seq<Action>, s': Sys)
    requires IsRun(run) && BeforeWrap(run) && n < |run| && Ready(run[n], i)
    requires key in run[n].table.entries && run[n].table.entries[key].status == Active
    requires run[n].table.entries[key].size <= cap && (run[n].table.directIo ==> IsDioAligned(addr, cap))
    ensures actions != [] && actions[0] == CallSwapIn(key, addr, cap) && Smooth(actions[1..])
    ensures Does(run[n], i, actions) == Some(s') && i < |s'.threads| && s'.threads[i].Leaving?
  {
    hide Inv, IsRun, BeforeWrap, Apply;
    RunHasInv(run, n);
    var s := run[n];
    ActiveHasFile(s, key);
    if s.table.directIo {
      SizeIsAligned(s, key);
    }
    actions, s' := ReadingCanFinish(s, i, key, addr, cap);
  }

  lemma ReadingCanFinish(s: Sys, i: nat, key: Key, addr: nat, cap: nat) returns (actions: seq<Action>, s': Sys)
    requires Ready(s, i) && key > 0
    requires key in s.table.entries && s.table.entries[key].status == Active
    requires Swap(key) in s.disk && |s.disk[Swap(key)]| == s.table.entries[key].size
    requires 0 < s.table.entries[key].size <= cap
    requires s.table.directIo ==> IsDioAligned(addr, cap) && IsDioAligned(addr, s.table.entries[key].size)
    ensures actions != [] && actions[0] == CallSwapIn(key, addr, cap) && Smooth(actions[1..])
    ensures Does(s, i, actions) == Some(s') && i < |s'.threads| && s'.threads[i].Leaving?
  {
    hide Does;
    var size, data := s.table.entries[key].size, s.disk[Swap(key)];
    var s1 := At(s.(api := EnterCall(s.api).0), i, SiPrepare(key, addr, cap));
    var s2 := At(s1.(table := PrepareSwapIn(s1.table).0), i, SiLookup(key, addr, cap));
    var s3 := At(s2.(table := ManagerSpec.Lookup(s2.table, key).0), i, SiOpen(key, addr, cap, size));
    var s4 := At(s3, i, SiRead(key, size, []));
    var s5 := At(s4, i, SiRead(key, size, [] + data[0..size]));
    var s6 := At(Logged(s5, ReadDone(key, data)), i, SiFinish(key, SwappedIn(key, data)));
    assert [] + data[0..size] == data;
    actions, s' := FinishingCanFinish(s6, i, key, SwappedIn(key, data));
    actions := Before(s5, i, Proceed, s6, actions, s');
    actions := Before(s4, i, Transfers(size), s5, actions, s');
    actions := Before(s3, i, Proceed, s4, actions, s');
    actions := Before(s2, i, Proceed, s3, actions, s');
    actions := Before(s1, i, Proceed, s2, actions, s');
    actions := Before(s, i, CallSwapIn(key, addr, cap), s1, actions, s');
  }

  lemma FinishingCanFinish(s: Sys, i: nat, key: Key, ret: Ret) returns (actions: seq<Action>, s': Sys)
    requires i < |s.threads| && s.threads[i] == SiFinish(key, ret) && s.mutex.None?
    requires key in s.table.entries && s.table.entries[key].status == Active
    ensures Does(s, i, actions) == Some(s') && Smooth(actions) && i < |s'.threads| && s'.threads[i].Leaving?
  {
    hide Does;
    var s1 := At(s.(table := Unpin(s.table, key).0), i, Ending(ret));
    actions, s' := EndingCanFinish(s1, i, ret);
    actions := Before(s, i, Proceed, s1, actions, s');
  }

  lemma EndingCanFinish(s: Sys, i: nat, ret: Ret) returns (actions: seq<Action>, s': Sys)
    requires i < |s.threads| && s.threads[i] == Ending(ret) && s.mutex.None?
    ensures Does(s, i, actions) == Some(s') && Smooth(actions) && i < |s'.threads| && s'.threads[i].Leaving?
  {
    hide Does;
    s' := At(s.(table := EndOperation(s.table)), i, Leaving(ret));
    DoesNothing(s', i);
    actions := Before(s, i, Proceed, s', [], s');
  }

  /** A swap-out that is admitted can finish undisturbed, whether or not there is room. */
  lemma {:induction false} SwapOutCanFinish(s: Sys, i: nat, addr: nat, data: Bytes, now: int) returns (actions: seq<Action>, s': Sys)
    requires Ready(s, i) && s.refreshMutex.None? && 0 < |data| < U64
    requires (s.table.directIo ==> IsDioAligned(addr, |data|)) && !s.table.removeAll
    ensures actions != [] && actions[0] == CallSwapOut(addr, data) && Smooth(actions[1..])
    ensures Does(s, i, actions) == Some(s') && i < |s'.threads| && s'.threads[i].Leaving?
  {
    hide Does;
    var key := s.table.nextKeyId;
    var s1 := At(s.(api := EnterCall(s.api).0), i, SoPrepare(addr, data));
    var s2 := SoPrepareStep(s1, i, Proceed, addr, data).value;
    actions, s' := AskingCanFinish(s2, i, key, data, now);
    actions := Before(s1, i, Proceed, s2, actions, s');
    actions := Before(s, i, CallSwapOut(addr, data), s1, actions, s');
  }

  lemma AskingCanFinish(s: Sys, i: nat, key: Key, data: Bytes, now: int) returns (actions: seq<Action>, s': Sys)
    requires i < |s.threads| && s.threads[i] == Refresh(ForReserve(key, data)) && data != []
    requires s.mutex.None? && s.refreshMutex.None?
    ensures Does(s, i, actions) == Some(s') && Smooth(actions) && i < |s'.threads| && s'.threads[i].Leaving?
  {
    hide Does, EndRefresh, RefreshDue;
    if RefreshDue(s.quota, now) {
      var s1 := RefreshStep(s, i, Clock(now), ForReserve(key, data)).value;
      var s2 := RefreshingStep(s1, i, Answer(CallFailed), ForReserve(key, data), s1.threads[i].r).value;
      actions, s' := ReservingCanFinish(s2, i, key, data);
      actions := Before(s1, i, Answer(CallFailed), s2, actions, s');
      actions := Before(s, i, Clock(now), s1, actions, s');
    } else {
      var s1 := At(s, i, SoReserve(key, data));
      actions, s' := ReservingCanFinish(s1, i, key, data);
      actions := Before(s, i, Clock(now), s1, actions, s');
    }
  }

  lemma ReservingCanFinish(s: Sys, i: nat, key: Key, data: Bytes) returns (actions: seq<Action>, s': Sys)
    requires i < |s.threads| && s.threads[i] == SoReserve(key, data) && data != [] && s.mutex.None?
    ensures Does(s, i, actions) == Some(s') && Smooth(actions) && i < |s'.threads| && s'.threads[i].Leaving?
  {
    hide Does, Reserve;
    var s1 := SoReserveStep(s, i, Proceed, key, data).value;
    if Reserve(s.quota, |data|).1 == Ok {
      actions, s' := WritingCanFinish(s1, i, key, data);
    } else {
      actions, s' := EndingCanFinish(s1, i, Failed(Reserve(s.quota, |data|).1));
    }
    actions := Before(s, i, Proceed, s1, actions, s');
  }

  lemma WritingCanFinish(s: Sys, i: nat, key: Key, data: Bytes) returns (actions: seq<Action>, s': Sys)
    requires i < |s.threads| && s.threads[i] == SoOpen(key, data) && data != [] && s.mutex.None?
    ensures Does(s, i, actions) == Some(s') && Smooth(actions) && i < |s'.threads| && s'.threads[i].Leaving?
  {
    hide Does;
    assert data[..|data|] == data;
    var s1 := At(s.(disk := s.disk[Tmp(key) := []]), i, SoWrite(key, data, 0));
    var s2 := At(s1.(disk := s1.disk[Tmp(key) := data]), i, SoWrite(key, data, |data|));
    var s3 := At(s2, i, SoRename(key, data));
    actions, s' := RenamingCanFinish(s3, i, key, data);
    actions := Before(s2, i, Proceed, s3, actions, s');
    actions := Before(s1, i, Transfers(|data|), s2, actions, s');
    actions := Before(s, i, Proceed, s1, actions, s');
  }

  lemma RenamingCanFinish(s: Sys, i: nat, key: Key, data: Bytes) returns (actions: seq<Action>, s': Sys)
    requires i < |s.threads| && s.threads[i] == SoRename(key, data) && s.mutex.None? && Tmp(key) in s.disk
    ensures Does(s, i, actions) == Some(s') && Smooth(actions) && i < |s'.threads| && s'.threads[i].Leaving?
  {
    hide Does;
    var s1 := SoRenameStep(s, i, Proceed, key, data).value;
    var s2 := SoCommitStep(s1, i, Proceed, key, data).value;
    actions, s' := EndingCanFinish(s2, i, SwappedOut(key));
    actions := Before(s1, i, Proceed, s2, actions, s');
    actions := Before(s, i, Proceed, s1, actions, s');
  }

  /** A removal of an active entry can finish undisturbed, in every reachable state. */
  lemma {:induction false} RemoveCanFinish(run: seq<Sys>, n: nat, i: nat, key: Key) returns (actions: seq<Action>, s': Sys)
    requires IsRun(run) && BeforeWrap(run) && n < |run| && Ready(run[n], i)
    requires key in run[n].table.entries && run[n].table.entries[key].status == Active
    ensures actions != [] && actions[0] == CallRemove(key) && Smooth(actions[1..])
    ensures Does(run[n], i, actions) == Some(s') && i < |s'.threads| && s'.threads[i].Leaving?
  {
    hide Inv, IsRun, BeforeWrap, Does;
    RunHasInv(run, n);
    var s := run[n];
    ActiveHasFile(s, key);
    var size := s.table.entries[key].size;
    var s1 := At(s.(api := EnterCall(s.api).0), i, RdPrepare(key));
    var s2 := RdPrepareStep(s1, i, Proceed, key).value;
    if s.table.entries[key].readers == 0 {
      actions, s' := UnlinkingCanFinish(s2, i, key, size);
    } else {
      s' := s2;
      DoesNothing(s2, i);
      actions := [];
    }
    actions := Before(s1, i, Proceed, s2, actions, s');
    actions := Before(s, i, CallRemove(key), s1, actions, s');
  }

  lemma UnlinkingCanFinish(s: Sys, i: nat, key: Key, size: nat) returns (actions: seq<Action>, s': Sys)
    requires i < |s.threads| && s.threads[i] == RdUnlink(key, size) && s.mutex.None? && Swap(key) in s.disk
    ensures Does(s, i, actions) == Some(s') && Smooth(actions) && i < |s'.threads| && s'.threads[i].Leaving?
  {
    hide Does;
    var s1 := At(UnlinkSwap(s, key), i, RdFinalize(key, size, true, Done));
    var s2 := At(Settle(s1, key, size, true), i, Ending(Done));
    actions, s' := EndingCanFinish(s2, i, Done);
    actions := Before(s1, i, Proceed, s2, actions, s');
    actions := Before(s, i, Proceed, s1, actions, s');
  }
}
