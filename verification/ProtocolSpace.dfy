/** The space the quota controller believes in, over whole runs. */
module ProtocolSpace {
  import opened SwapTypes
  import opened QuotaSpec
  import opened ManagerSpec
  import opened Protocol
  import opened ProtocolInvariant
  import opened ProtocolTheorems
  import opened ProtocolDeferred

  /** The step does not change what is known about the storage manager. */
  predicate SameSpace(q: Quota, q': Quota) {
    q'.proxyUnavailable == q.proxyUnavailable && q'.available == q.available
  }

  lemma ReserveSameSpace(q: Quota, size: nat)
    ensures SameSpace(q, Reserve(q, size).0)
  {
  }

  lemma BeginsSameSpace(s: Sys, i: nat, a: Action, s': Sys)
    requires i < |s.threads| && Begins(s.threads[i]) && !s.threads[i].Refreshing? && Apply(s, i, a) == Some(s')
    ensures SameSpace(s.quota, s'.quota)
  {
    hide Reserve;
    ReserveSameSpace(s.quota, if s.threads[i].SoReserve? then |s.threads[i].data| else 0);
  }

  lemma CallSameSpace(s: Sys, i: nat, a: Action, s': Sys)
    requires i < |s.threads| && s.threads[i].Idle? && Apply(s, i, a) == Some(s')
    ensures SameSpace(s.quota, s'.quota)
  {
  }

  lemma WritesSameSpace(s: Sys, i: nat, a: Action, s': Sys)
    requires i < |s.threads| && Writes(s.threads[i]) && Apply(s, i, a) == Some(s')
    ensures SameSpace(s.quota, s'.quota)
  {
  }

  lemma LoadsSameSpace(s: Sys, i: nat, a: Action, s': Sys)
    requires i < |s.threads| && Loads(s.threads[i]) && Apply(s, i, a) == Some(s')
    ensures SameSpace(s.quota, s'.quota)
  {
  }

  lemma EntersSameSpace(s: Sys, i: nat, a: Action, s': Sys)
    requires i < |s.threads| && Enters(s.threads[i]) && Apply(s, i, a) == Some(s')
    ensures SameSpace(s.quota, s'.quota)
  {
  }

  lemma LeavesSameSpace(s: Sys, i: nat, a: Action, s': Sys)
    requires i < |s.threads| && Leaves(s.threads[i]) && Apply(s, i, a) == Some(s')
    ensures SameSpace(s.quota, s'.quota)
  {
  }

  lemma FinishesSameSpace(s: Sys, i: nat, a: Action, s': Sys)
    requires i < |s.threads| && Finishes(s.threads[i]) && Apply(s, i, a) == Some(s')
    ensures SameSpace(s.quota, s'.quota)
  {
  }

  lemma RemovesSameSpace(s: Sys, i: nat, a: Action, s': Sys)
    requires i < |s.threads| && Removes(s.threads[i]) && Apply(s, i, a) == Some(s')
    ensures SameSpace(s.quota, s'.quota)
  {
  }

  lemma DestroysSameSpace(s: Sys, i: nat, a: Action, s': Sys)
    requires i < |s.threads| && IsDestroyer(s.threads[i]) && Apply(s, i, a) == Some(s')
    ensures SameSpace(s.quota, s'.quota)
  {
  }

  lemma UnlinkSameSpace(s: Sys, i: nat, a: Action, s': Sys)
    requires i < |s.threads| && s.threads[i].SiUnlink? && Apply(s, i, a) == Some(s')
    ensures SameSpace(s.quota, s'.quota)
  {
  }

  /** A refresh that finds the proxy unavailable learns nothing. */
  lemma RefreshLearnsNothing(s: Sys, i: nat, a: Action, s': Sys)
    requires i < |s.threads| && s.threads[i].Refreshing? && Apply(s, i, a) == Some(s') && s.quota.proxyUnavailable
    ensures SameSpace(s.quota, s'.quota)
  {
  }

  lemma StaysUnavailable(s: Sys, i: nat, a: Action, s': Sys)
    requires Apply(s, i, a) == Some(s') && s.quota.proxyUnavailable
    ensures SameSpace(s.quota, s'.quota)
  {
    StepHasThread(s, i, a);
    hide Apply;
    var pc := s.threads[i];
    if pc.Refreshing? {
      RefreshLearnsNothing(s, i, a, s');
    } else if pc.Idle? {
      CallSameSpace(s, i, a, s');
    } else if Begins(pc) {
      BeginsSameSpace(s, i, a, s');
    } else if Writes(pc) {
      WritesSameSpace(s, i, a, s');
    } else if Loads(pc) {
      LoadsSameSpace(s, i, a, s');
    } else if Enters(pc) {
      EntersSameSpace(s, i, a, s');
    } else if Leaves(pc) {
      LeavesSameSpace(s, i, a, s');
    } else if Finishes(pc) {
      FinishesSameSpace(s, i, a, s');
    } else if Removes(pc) {
      RemovesSameSpace(s, i, a, s');
    } else if IsDestroyer(pc) {
      DestroysSameSpace(s, i, a, s');
    } else {
      UnlinkSameSpace(s, i, a, s');
    }
  }

  /** Once the storage manager was found unavailable, the available space is never brought up to date
      again: the store works on with the old value, or stays switched off, until it is destroyed. */
  lemma {:induction false} UnavailableForEver(run: seq<Sys>, m: nat, n: nat)
    requires IsRun(run) && m <= n < |run| && run[m].quota.proxyUnavailable
    ensures run[n].quota.proxyUnavailable && run[n].quota.available == run[m].quota.available
    decreases n
  {
    hide Apply, IsRun;
    if m < n {
      UnavailableForEver(run, m, n - 1);
      var i, a := StepOf(run, n - 1);
      StaysUnavailable(run[n - 1], i, a, run[n]);
    }
  }

  /** In particular a store whose first contact with the storage manager failed never admits a swap-out. */
  lemma NeverEnabledWithoutProxy(run: seq<Sys>, n: nat, size: nat)
    requires IsRun(run) && BeforeWrap(run) && n < |run| && run[0].quota.proxyUnavailable && size > 0
    ensures Reserve(run[n].quota, size).1 == NoSpc
  {
    hide CountInv, ApiInv, LockInv, KeyInv, OwnInv, FileInv, LogInv, BeforeWrap;
    RunHasInv(run, n);
    UnavailableForEver(run, 0, n);
  }
}
