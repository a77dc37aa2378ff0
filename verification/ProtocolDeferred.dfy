/** Removals that are left to the readers of an entry: what becomes of them, in every run. */
module ProtocolDeferred {
  import opened SwapTypes
  import opened QuotaSpec
  import opened ManagerSpec
  import opened Protocol
  import opened ProtocolInvariant
  import opened ProtocolFrames
  import opened ProtocolEffects
  import opened ProtocolSteps
  import opened ProtocolRemove
  import opened ProtocolOthers
  import opened ProtocolTheorems

  /** The entry is marked for removal and not settled yet. */
  predicate IsPending(s: Sys, key: Key) {
    key in s.table.entries && s.table.entries[key].status == Removing
  }

  /** RemoveData has returned, and readers are left to finish the removal. */
  predicate IsDeferred(s: Sys, key: Key) {
    IsPending(s, key) && s.table.entries[key].readers > 0
  }

  /** A removal in which only a reader can have the duty to unlink. */
  ghost predicate LeftToReaders(s: Sys, key: Key) {
    && IsPending(s, key)
    && forall i | 0 <= i < |s.threads| && OwnsRemoval(s.threads[i], key) ::
         s.threads[i].SiUnlink? || s.threads[i].SiFinalize?
  }

  /** Thread `i` settles the removal: the entry goes if its file is gone, and is active otherwise. */
  ghost predicate Settles(s: Sys, i: nat, s': Sys, key: Key) {
    && i < |s.threads| && s.threads[i].SiFinalize? && s.threads[i].key == key
    && key in s.table.entries
    && if s.threads[i].gone then key !in s'.table.entries
       else key in s'.table.entries && s'.table.entries[key] == s.table.entries[key].(status := Active)
  }

  /** The step leaves the entries alone, and the thread does not own a removal afterwards. */
  ghost predicate Harmless(s: Sys, i: nat, s': Sys) {
    && Moves(s, i, s') && s'.table.entries == s.table.entries
    && !Remover(s'.threads[i])
  }

  predicate Remover(pc: PC) {
    pc.SiUnlink? || pc.SiFinalize? || pc.RdUnlink? || pc.RdFinalize? || IsRemoveAll(pc)
  }

  lemma HarmlessKeeps(s: Sys, i: nat, s': Sys, key: Key)
    requires LeftToReaders(s, key) && Harmless(s, i, s')
    ensures LeftToReaders(s', key)
  {
    hide OwnsRemoval;
    NotAnOwner(s'.threads[i]);
  }

  // ----- Steps that have nothing to do with removals -----

  predicate Begins(pc: PC) {
    pc.Refresh? || pc.Refreshing? || pc.SoPrepare? || pc.SoReserve?
  }

  predicate Writes(pc: PC) {
    pc.SoOpen? || pc.SoWrite? || pc.SoRename? || pc.SoCleanup? || pc.SoCancel?
  }

  predicate Loads(pc: PC) {
    pc.SiOpen? || pc.SiRead?
  }

  predicate Enters(pc: PC) {
    pc.SiPrepare? || pc.GsPrepare? || pc.GsFill?
  }

  predicate Leaves(pc: PC) {
    pc.Ending? || pc.Leaving?
  }

  lemma CallHarmless(s: Sys, i: nat, a: Action, s': Sys)
    requires i < |s.threads| && s.threads[i].Idle? && Apply(s, i, a) == Some(s')
    ensures Harmless(s, i, s') || s' == s
  {
    hide EnterCall, BeginDestroy;
  }

  lemma BeginsHarmless(s: Sys, i: nat, a: Action, s': Sys)
    requires i < |s.threads| && Begins(s.threads[i]) && Apply(s, i, a) == Some(s')
    ensures Harmless(s, i, s')
  {
    hide EndRefresh, Reserve, RefreshDue, PossibleIpc;
  }

  lemma WritesHarmless(s: Sys, i: nat, a: Action, s': Sys)
    requires i < |s.threads| && Writes(s.threads[i]) && Apply(s, i, a) == Some(s')
    ensures Harmless(s, i, s')
  {
  }

  lemma LoadsHarmless(s: Sys, i: nat, a: Action, s': Sys)
    requires i < |s.threads| && Loads(s.threads[i]) && Apply(s, i, a) == Some(s')
    ensures Harmless(s, i, s')
  {
  }

  lemma EntersHarmless(s: Sys, i: nat, a: Action, s': Sys)
    requires i < |s.threads| && Enters(s.threads[i]) && Apply(s, i, a) == Some(s')
    ensures Harmless(s, i, s')
  {
  }

  lemma LeavesHarmless(s: Sys, i: nat, a: Action, s': Sys)
    requires i < |s.threads| && Leaves(s.threads[i]) && Apply(s, i, a) == Some(s')
    ensures Harmless(s, i, s')
  {
  }

  // ----- Steps that touch entries -----

  lemma CommitPasses(s: Sys, i: nat, a: Action, s': Sys, key: Key)
    requires i < |s.threads| && s.threads[i].SoCommit? && Apply(s, i, a) == Some(s')
    requires LeftToReaders(s, key)
    requires Inv(s)
    ensures LeftToReaders(s', key)
  {
    hide Inv, OwnsRemoval;
    OfSwapOut(s, i);
    NotAnOwner(s'.threads[i]);
  }

  lemma NotAnOwner(pc: PC)
    requires !Remover(pc)
    ensures forall k :: !OwnsRemoval(pc, k)
  {
  }

  lemma LookupPasses(s: Sys, i: nat, a: Action, key2: Key, addr: nat, cap: nat, s': Sys, key: Key)
    requires i < |s.threads| && s.threads[i] == SiLookup(key2, addr, cap)
    requires SiLookupStep(s, i, a, key2, addr, cap) == Some(s')
    requires LeftToReaders(s, key)
    ensures LeftToReaders(s', key)
  {
    hide OwnsRemoval;
    NotAnOwner(s'.threads[i]);
  }

  lemma FinishPasses(s: Sys, i: nat, a: Action, s': Sys, key: Key)
    requires i < |s.threads| && (s.threads[i].SiFinish? || s.threads[i].SiUnlink?) && Apply(s, i, a) == Some(s')
    requires LeftToReaders(s, key)
    ensures LeftToReaders(s', key)
  {
    hide OwnsRemoval;
    assert s'.threads[i].Ending? ==> forall k :: !OwnsRemoval(s'.threads[i], k) by {
      if s'.threads[i].Ending? {
        NotAnOwner(s'.threads[i]);
      }
    }
  }

  lemma FinalizePasses(s: Sys, i: nat, a: Action, s': Sys, key: Key)
    requires i < |s.threads| && s.threads[i].SiFinalize? && Apply(s, i, a) == Some(s')
    requires LeftToReaders(s, key)
    ensures LeftToReaders(s', key) || Settles(s, i, s', key)
  {
    hide OwnsRemoval;
    NotAnOwner(s'.threads[i]);
  }

  /** A removal that another thread owns is of another key. */
  lemma RemovalPasses(s: Sys, i: nat, a: Action, s': Sys, key: Key)
    requires i < |s.threads| && Apply(s, i, a) == Some(s')
    requires s.threads[i].RdPrepare? || s.threads[i].RdUnlink? || s.threads[i].RdFinalize?
    requires LeftToReaders(s, key)
    ensures LeftToReaders(s', key)
  {
    assert s.threads[i].RdUnlink? || s.threads[i].RdFinalize? ==> OwnsRemoval(s.threads[i], s.threads[i].key);
  }

  lemma UnlinksPass(s: Sys, i: nat, a: Action, items: seq<Item>, results: seq<bool>, first: Code, s': Sys, key: Key)
    requires i < |s.threads| && s.threads[i] == RaUnlink(items, results, first)
    requires RaUnlinkStep(s, i, a, items, results, first) == Some(s')
    requires LeftToReaders(s, key)
    ensures LeftToReaders(s', key)
  {
    assert !OwnsRemoval(s.threads[i], key);
  }

  lemma SettlingPasses(s: Sys, i: nat, a: Action, items: seq<Item>, results: seq<bool>, next: nat, first: Code, s': Sys, key: Key)
    requires i < |s.threads| && s.threads[i] == RaFinalize(items, results, next, first)
    requires RaFinalizeStep(s, i, a, items, results, next, first) == Some(s')
    requires LeftToReaders(s, key)
    ensures LeftToReaders(s', key)
  {
    assert !OwnsRemoval(s.threads[i], key);
    assert next < |items| ==> items[next].key != key;
  }

  /** An entry under removal keeps RemoveAllData and destroying away. */
  lemma PendingMeansBusy(s: Sys, i: nat, key: Key)
    requires i < |s.threads| && IsPending(s, key)
    requires Inv(s)
    ensures s.table.activeOps > 0 && !IsDestroyer(s.threads[i])
  {
    hide ApiInv, CountInv, LockInv, KeyInv, OwnInv, FileInv, QuotaTableInv, LogInv;
    if s.table.activeOps == 0 {
      Quiescent(s);
    }
    if IsDestroyer(s.threads[i]) {
      AloneWhileDestroying(s, i);
    }
  }

  lemma CollectPasses(s: Sys, i: nat, a: Action, s': Sys, key: Key)
    requires i < |s.threads| && s.threads[i].RaCollect? && Apply(s, i, a) == Some(s')
    requires LeftToReaders(s, key) && s.table.activeOps > 0
    ensures LeftToReaders(s', key)
  {
    hide OwnsRemoval;
    NotAnOwner(s'.threads[i]);
  }

  lemma ByLookup(s: Sys, i: nat, a: Action, s': Sys)
    requires i < |s.threads| && s.threads[i].SiLookup? && Apply(s, i, a) == Some(s')
    ensures var pc := s.threads[i]; SiLookupStep(s, i, a, pc.key, pc.addr, pc.cap) == Some(s')
  {
    hide SiLookupStep;
  }

  lemma ByRemoveAll(s: Sys, i: nat, a: Action, s': Sys)
    requires i < |s.threads| && IsRemoveAll(s.threads[i]) && Apply(s, i, a) == Some(s')
    ensures var pc := s.threads[i];
      && (pc.RaUnlink? ==> RaUnlinkStep(s, i, a, pc.items, pc.results, pc.first) == Some(s'))
      && (pc.RaFinalize? ==> RaFinalizeStep(s, i, a, pc.items, pc.results, pc.next, pc.first) == Some(s'))
  {
    hide RaUnlinkStep, RaFinalizeStep;
  }

  /** A removal left to readers stays so with every step, until a reader settles it. */
  lemma StaysLeftToReaders(s: Sys, i: nat, a: Action, s': Sys, key: Key)
    requires i < |s.threads| && Apply(s, i, a) == Some(s') && LeftToReaders(s, key)
    requires Inv(s)
    ensures LeftToReaders(s', key) || Settles(s, i, s', key)
  {
    hide Inv, Apply, LeftToReaders, Settles, Harmless;
    PendingInUse(s, i, key);
    var pc := s.threads[i];
    if pc.Idle? {
      CallHarmless(s, i, a, s');
      if s' != s {
        HarmlessKeeps(s, i, s', key);
      }
    } else if Begins(pc) {
      BeginsHarmless(s, i, a, s');
      HarmlessKeeps(s, i, s', key);
    } else if Writes(pc) {
      WritesHarmless(s, i, a, s');
      HarmlessKeeps(s, i, s', key);
    } else if Loads(pc) {
      LoadsHarmless(s, i, a, s');
      HarmlessKeeps(s, i, s', key);
    } else if Enters(pc) {
      EntersHarmless(s, i, a, s');
      HarmlessKeeps(s, i, s', key);
    } else if Leaves(pc) {
      LeavesHarmless(s, i, a, s');
      HarmlessKeeps(s, i, s', key);
    } else if pc.SoCommit? {
      CommitPasses(s, i, a, s', key);
    } else if pc.SiLookup? {
      ByLookup(s, i, a, s');
      LookupPasses(s, i, a, pc.key, pc.addr, pc.cap, s', key);
    } else if pc.SiFinish? || pc.SiUnlink? {
      FinishPasses(s, i, a, s', key);
    } else if pc.SiFinalize? {
      FinalizePasses(s, i, a, s', key);
    } else if pc.RdPrepare? || pc.RdUnlink? || pc.RdFinalize? {
      RemovalPasses(s, i, a, s', key);
    } else if pc.RaUnlink? {
      ByRemoveAll(s, i, a, s');
      UnlinksPass(s, i, a, pc.items, pc.results, pc.first, s', key);
    } else if pc.RaFinalize? {
      ByRemoveAll(s, i, a, s');
      SettlingPasses(s, i, a, pc.items, pc.results, pc.next, pc.first, s', key);
    } else {
      CollectPasses(s, i, a, s', key);
    }
  }

  lemma PendingInUse(s: Sys, i: nat, key: Key)
    requires LeftToReaders(s, key)
    requires Inv(s)
    ensures s.table.activeOps > 0
    ensures i < |s.threads| ==> !IsDestroyer(s.threads[i])
  {
    hide Inv;
    assert |s.threads| > 0 by {
      SomebodyIsThere(s, key);
    }
    PendingMeansBusy(s, if i < |s.threads| then i else 0, key);
  }

  lemma SomebodyIsThere(s: Sys, key: Key)
    requires IsPending(s, key)
    requires Inv(s)
    ensures |s.threads| > 0
  {
    hide ApiInv, LockInv, KeyInv, FileInv, QuotaTableInv, LogInv, HolderOk, OwnsRemoval;
    assert |s.threads| == 0 ==> Total(Readers(key), s.threads) == 0;
  }

  // ----- Where the settling comes from -----

  predicate Finishes(pc: PC) {
    pc.SoCommit? || pc.SiLookup? || pc.SiFinish? || pc.SiFinalize?
  }

  predicate Removes(pc: PC) {
    pc.RdPrepare? || pc.RdUnlink? || pc.RdFinalize? || pc.RaCollect? || IsRemoveAll(pc)
  }

  lemma FinishesElsewhere(s: Sys, i: nat, a: Action, s': Sys)
    requires i < |s.threads| && Finishes(s.threads[i]) && Apply(s, i, a) == Some(s')
    ensures Moves(s, i, s') && !s'.threads[i].SiFinalize?
  {
  }

  lemma RemovesElsewhere(s: Sys, i: nat, a: Action, s': Sys)
    requires i < |s.threads| && Removes(s.threads[i]) && Apply(s, i, a) == Some(s')
    ensures Moves(s, i, s') && !s'.threads[i].SiFinalize?
  {
  }

  lemma DestroysElsewhere(s: Sys, i: nat, a: Action, s': Sys)
    requires i < |s.threads| && IsDestroyer(s.threads[i]) && Apply(s, i, a) == Some(s')
    ensures Moves(s, i, s') && !s'.threads[i].SiFinalize?
  {
  }

  lemma UnlinkDecides(s: Sys, i: nat, a: Action, s': Sys)
    requires i < |s.threads| && s.threads[i].SiUnlink? && Apply(s, i, a) == Some(s')
    ensures Moves(s, i, s') && s'.threads[i].SiFinalize?
    ensures s'.threads[i].key == s.threads[i].key && (s'.threads[i].gone <==> !a.Fails?)
    ensures s'.disk == if a.Fails? then s.disk else s.disk - {Swap(s.threads[i].key)}
  {
  }

  /** Each step moves one thread, and a thread comes to settle a deferred removal only from its
      unlink, with the outcome of that. */
  lemma SettlingFollowsUnlink(s: Sys, i: nat, a: Action, s': Sys)
    requires Apply(s, i, a) == Some(s')
    ensures Moves(s, i, s')
    ensures s'.threads[i].SiFinalize? ==>
              s.threads[i].SiUnlink? && s'.threads[i].key == s.threads[i].key && (s'.threads[i].gone <==> !a.Fails?)
  {
    StepHasThread(s, i, a);
    hide Apply;
    var pc := s.threads[i];
    if pc.Idle? {
      CallHarmless(s, i, a, s');
    } else if Begins(pc) {
      BeginsHarmless(s, i, a, s');
    } else if Writes(pc) {
      WritesHarmless(s, i, a, s');
    } else if Loads(pc) {
      LoadsHarmless(s, i, a, s');
    } else if Enters(pc) {
      EntersHarmless(s, i, a, s');
    } else if Leaves(pc) {
      LeavesHarmless(s, i, a, s');
    } else if Finishes(pc) {
      FinishesElsewhere(s, i, a, s');
    } else if Removes(pc) {
      RemovesElsewhere(s, i, a, s');
    } else if IsDestroyer(pc) {
      DestroysElsewhere(s, i, a, s');
    } else {
      UnlinkDecides(s, i, a, s');
    }
  }

  lemma StepHasThread(s: Sys, i: nat, a: Action)
    requires Apply(s, i, a).Some?
    ensures i < |s.threads|
  {
  }

  // ----- Whole runs -----

  /** RemoveData that finds readers returns success and leaves the removal to them. */
  lemma {:induction false} RemoveDataDefers(run: seq<Sys>, n: nat, j: nat, a: Action, s': Sys)
    requires IsRun(run) && BeforeWrap(run) && n < |run| && j < |run[n].threads| && run[n].threads[j].RdPrepare?
    requires Apply(run[n], j, a) == Some(s')
    ensures var key := run[n].threads[j].key;
      s'.threads[j] == Leaving(Done) <==>
        && key in run[n].table.entries && run[n].table.entries[key].status == Active
        && run[n].table.entries[key].readers > 0 && IsDeferred(s', key)
  {
    hide CountInv, LockInv, OwnInv, FileInv, QuotaTableInv, LogInv, IsRun, BeforeWrap;
    RunHasInv(run, n);
    Admitted(run[n], j);
  }

  lemma Admitted(s: Sys, i: nat)
    requires i < |s.threads| && Weight(Calls, s.threads[i]) == 1
    requires Inv(s)
    ensures Admission(s.table) == Ok && !(0 in s.table.entries)
  {
    hide LockInv, OwnInv, FileInv, QuotaTableInv, LogInv;
    InsideCall(s, i);
  }

  /** A removal that was deferred at `m` and is pending until `n` is left to readers all the time. */
  lemma {:induction false} PendingIsLeft(run: seq<Sys>, m: nat, n: nat, key: Key)
    requires IsRun(run) && BeforeWrap(run) && m <= n < |run| && IsDeferred(run[m], key)
    requires forall q | m <= q <= n :: IsPending(run[q], key)
    ensures LeftToReaders(run[n], key)
    decreases n
  {
    hide Apply, LeftToReaders, Settles, Inv, IsRun, BeforeWrap;
    RunHasInv(run, m);
    if n == m {
      NobodyOwns(run[m], key);
    } else {
      PendingIsLeft(run, m, n - 1, key);
      RunHasInv(run, n - 1);
      var i, a := StepOf(run, n - 1);
      StaysLeftToReaders(run[n - 1], i, a, run[n], key);
      if Settles(run[n - 1], i, run[n], key) {
        SettledIsNotPending(run[n - 1], i, run[n], key);
      }
    }
  }

  lemma SettledIsNotPending(s: Sys, i: nat, s': Sys, key: Key)
    requires Settles(s, i, s', key)
    ensures !IsPending(s', key)
  {
  }

  lemma NobodyOwns(s: Sys, key: Key)
    requires IsDeferred(s, key)
    requires Inv(s)
    ensures LeftToReaders(s, key)
  {
    hide OwnsRemoval, CountInv, ApiInv, LockInv, KeyInv, OwnInv, FileInv, QuotaTableInv, LogInv;
    NotOwned(s, key);
  }

  lemma StepOf(run: seq<Sys>, n: nat) returns (i: nat, a: Action)
    requires IsRun(run) && n + 1 < |run|
    ensures i < |run[n].threads| && Apply(run[n], i, a) == Some(run[n + 1])
  {
    assert Next(run[n], run[n + 1]);
    i, a :| Apply(run[n], i, a) == Some(run[n + 1]);
  }

  /** The step of an unlink of the entry's file by thread `i`. */
  ghost predicate IsUnlinkStep(run: seq<Sys>, q: nat, i: nat, a: Action, key: Key) {
    && q + 1 < |run| && i < |run[q].threads|
    && run[q].threads[i].SiUnlink? && run[q].threads[i].key == key
    && Apply(run[q], i, a) == Some(run[q + 1])
  }

  lemma {:induction false} UnlinkBefore(run: seq<Sys>, m: nat, n: nat, i: nat, key: Key) returns (q: nat, a: Action)
    requires IsRun(run) && m <= n < |run| && i < |run[n].threads|
    requires i < |run[m].threads| && (run[m].threads[i].SiFinalize? ==> run[m].threads[i].key != key)
    requires run[n].threads[i].SiFinalize? && run[n].threads[i].key == key
    ensures m <= q < n && IsUnlinkStep(run, q, i, a, key) && (run[n].threads[i].gone <==> !a.Fails?)
    decreases n
  {
    hide Apply, IsRun;
    assert n != m;
    var j, b := StepOf(run, n - 1);
    SettlingFollowsUnlink(run[n - 1], j, b, run[n]);
    if j == i {
      q, a := n - 1, b;
    } else {
      q, a := UnlinkBefore(run, m, n - 1, i, key);
    }
  }

  /** What becomes of a removal that RemoveData left to any number of readers, having returned
      success: when it is no longer pending, the last of them has tried to unlink the file, and the
      entry is active again if and only if that unlink failed; otherwise entry and file are gone. */
  lemma {:induction false} DeferredRemovalOutcome(run: seq<Sys>, m: nat, n: nat, key: Key) returns (q: nat, i: nat, a: Action)
    requires IsRun(run) && BeforeWrap(run) && m < n < |run| && IsDeferred(run[m], key)
    requires forall p | m <= p < n :: IsPending(run[p], key)
    requires !IsPending(run[n], key)
    ensures m <= q < n && IsUnlinkStep(run, q, i, a, key)
    ensures key in run[q].table.entries && run[q].table.entries[key].readers == 0
    ensures key in run[n].table.entries <==> a.Fails?
    ensures Swap(key) in run[n].disk <==> a.Fails?
    ensures a.Fails? ==> run[n].table.entries[key].status == Active
  {
    hide Apply, LeftToReaders, Inv, IsRun, BeforeWrap;
    RunHasInv(run, m);
    RunHasInv(run, n - 1);
    PendingIsLeft(run, m, n - 1, key);
    var j, b := StepOf(run, n - 1);
    i := j;
    StaysLeftToReaders(run[n - 1], i, b, run[n], key);
    LeftIsPending(run[n], key);
    SettledByFile(run[n - 1], i, b, run[n], key);
    NobodyOwns(run[m], key);
    NoSettlerAt(run, m, n - 1, i, key);
    q, a := UnlinkBefore(run, m, n - 1, i, key);
    RunHasInv(run, q);
    UnlinkerIsLast(run[q], i, key);
  }

  lemma LeftIsPending(s: Sys, key: Key)
    ensures LeftToReaders(s, key) ==> IsPending(s, key)
  {
  }

  lemma SettledByFile(s: Sys, i: nat, a: Action, s': Sys, key: Key)
    requires Settles(s, i, s', key) && Apply(s, i, a) == Some(s')
    requires Inv(s)
    ensures s'.disk == s.disk && (Swap(key) in s.disk <==> !s.threads[i].gone)
  {
    hide Inv, Apply;
    OnlyUnlinker(s, i, key);
    FinalizeKeepsDisk(s, i, a, s');
  }

  lemma FinalizeKeepsDisk(s: Sys, i: nat, a: Action, s': Sys)
    requires i < |s.threads| && s.threads[i].SiFinalize? && Apply(s, i, a) == Some(s')
    ensures s'.disk == s.disk
  {
  }

  lemma OnlyUnlinker(s: Sys, i: nat, key: Key)
    requires i < |s.threads| && s.threads[i].SiFinalize? && s.threads[i].key == key && key in s.table.entries
    requires Inv(s)
    ensures Swap(key) in s.disk <==> !s.threads[i].gone
  {
    hide CountInv, ApiInv, LockInv, KeyInv, QuotaTableInv, LogInv, HolderOk, OwnsRemoval, HasUnlinked;
    Unlinker(s.threads[i], key);
    if Swap(key) !in s.disk {
      var j :| 0 <= j < |s.threads| && HasUnlinked(s.threads[j], key);
      UnlinkedIsOwned(s.threads[j], key);
      assert j == i;
    }
  }

  lemma Unlinker(pc: PC, key: Key)
    requires pc.SiFinalize? && pc.key == key
    ensures OwnsRemoval(pc, key) && (HasUnlinked(pc, key) <==> pc.gone)
  {
  }

  lemma UnlinkerIsLast(s: Sys, i: nat, key: Key)
    requires i < |s.threads| && s.threads[i].SiUnlink? && s.threads[i].key == key
    requires Inv(s)
    ensures key in s.table.entries && s.table.entries[key].readers == 0
  {
    hide CountInv, ApiInv, LockInv, KeyInv, FileInv, QuotaTableInv, LogInv, HolderOk;
    assert OwnsRemoval(s.threads[i], key);
  }

  /** Nobody settles the removal at the moment it is deferred. */
  lemma NoSettlerAt(run: seq<Sys>, m: nat, n: nat, i: nat, key: Key)
    requires IsRun(run) && BeforeWrap(run) && m <= n < |run| && IsDeferred(run[m], key)
    requires i < |run[n].threads| && run[n].threads[i].SiFinalize? && run[n].threads[i].key == key
    ensures i < |run[m].threads|
    ensures run[m].threads[i].SiFinalize? ==> run[m].threads[i].key != key
  {
    hide Apply, Inv, IsRun, BeforeWrap;
    RunHasInv(run, m);
    SameThreads(run, m, n);
    if run[m].threads[i].SiFinalize? && run[m].threads[i].key == key {
      SettlerIsAlone(run[m], i, key);
    }
  }

  lemma SettlerIsAlone(s: Sys, i: nat, key: Key)
    requires i < |s.threads| && s.threads[i].SiFinalize? && s.threads[i].key == key
    requires Inv(s)
    ensures !IsDeferred(s, key)
  {
    hide CountInv, ApiInv, LockInv, KeyInv, FileInv, QuotaTableInv, LogInv, HolderOk;
    assert OwnsRemoval(s.threads[i], key);
  }

  lemma {:induction false} SameThreads(run: seq<Sys>, m: nat, n: nat)
    requires IsRun(run) && m <= n < |run|
    ensures |run[m].threads| == |run[n].threads|
    decreases n
  {
    hide Apply, IsRun;
    if m < n {
      SameThreads(run, m, n - 1);
      var j, b := StepOf(run, n - 1);
      SettlingFollowsUnlink(run[n - 1], j, b, run[n]);
    }
  }

  // ----- Both outcomes can happen -----

  /** In every reachable state with a reader of an active entry, another thread's RemoveData, if not
      held up by the mutex, returns success and leaves the removal to the readers. */
  lemma {:induction false} RemovalCanBeDeferred(run: seq<Sys>, n: nat, i: nat, j: nat, key: Key) returns (s1: Sys, s2: Sys)
    requires IsRun(run) && BeforeWrap(run) && n < |run| && i < |run[n].threads| && j < |run[n].threads|
    requires Reads(run[n].threads[i], key) && run[n].threads[j] == Idle && run[n].mutex.None?
    requires key in run[n].table.entries && run[n].table.entries[key].status == Active
    ensures Apply(run[n], j, CallRemove(key)) == Some(s1) && Apply(s1, j, Proceed) == Some(s2)
    ensures s2.threads == run[n].threads[j := Leaving(Done)] && IsDeferred(s2, key)
  {
    hide Inv, IsRun, BeforeWrap;
    RunHasInv(run, n);
    var s := run[n];
    FileWhileRead(s, i, key);
    Admitted(s, i);
    Inside(s, i);
    s1 := At(s.(api := EnterCall(s.api).0), j, RdPrepare(key));
    s2 := At(s1.(table := PrepareRemove(s1.table, key).0), j, Leaving(Done));
  }

  lemma Inside(s: Sys, i: nat)
    requires i < |s.threads| && Weight(Calls, s.threads[i]) == 1
    requires Inv(s)
    ensures s.api.Present? && !s.api.destroying
  {
    hide LockInv, KeyInv, OwnInv, FileInv, QuotaTableInv, LogInv;
    InsideCall(s, i);
  }

  /** From every reachable state in which the last reader is about to unlink, the unlink may fail, and
      then the entry is active again, or succeed, and then the entry is gone. */
  lemma {:induction false} BothOutcomes(run: seq<Sys>, n: nat, i: nat, fails: bool) returns (s1: Sys, s2: Sys)
    requires IsRun(run) && BeforeWrap(run) && n < |run| && i < |run[n].threads|
    requires run[n].threads[i].SiUnlink? && run[n].mutex.None?
    ensures Apply(run[n], i, if fails then Fails(IoError) else Proceed) == Some(s1)
    ensures Apply(s1, i, Proceed) == Some(s2)
    ensures var key := run[n].threads[i].key;
      if fails then key in s2.table.entries && s2.table.entries[key].status == Active else key !in s2.table.entries
  {
    hide Inv, IsRun, BeforeWrap;
    RunHasInv(run, n);
    var s, pc := run[n], run[n].threads[i];
    UnlinkerIsLast(s, i, pc.key);
    FileToUnlink(s, i, pc.key);
    s1 := At(if fails then s else UnlinkSwap(s, pc.key), i, SiFinalize(pc.key, pc.size, !fails, pc.ret));
    s2 := At(Settle(s1, pc.key, pc.size, !fails), i, Ending(pc.ret));
  }

  lemma FileToUnlink(s: Sys, i: nat, key: Key)
    requires i < |s.threads| && s.threads[i].SiUnlink? && s.threads[i].key == key && key in s.table.entries
    requires Inv(s)
    ensures Swap(key) in s.disk
  {
    hide CountInv, ApiInv, LockInv, KeyInv, QuotaTableInv, LogInv, HolderOk, OwnsRemoval, HasUnlinked;
    NotYetUnlinked(s.threads[i], key);
    if Swap(key) !in s.disk {
      var j :| 0 <= j < |s.threads| && HasUnlinked(s.threads[j], key);
      UnlinkedIsOwned(s.threads[j], key);
    }
  }

  lemma NotYetUnlinked(pc: PC, key: Key)
    requires pc.SiUnlink? && pc.key == key
    ensures OwnsRemoval(pc, key) && !HasUnlinked(pc, key)
  {
  }
}
