/** What an operation does when nobody interferes and no call fails: the statements are for every such
    execution, however the bytes are cut into transfers, from every reachable state. */
module ProtocolUndisturbed {
  import opened SwapTypes
  import opened QuotaSpec
  import opened ManagerSpec
  import opened Protocol
  import opened ProtocolInvariant
  import opened ProtocolSteps
  import opened ProtocolTheorems
  import opened ProtocolDeferred
  import opened ProtocolProgress

  // ----- SwapIn -----

  /** A swap-in of `data` on its way to success. */
  ghost predicate SwapInGoes(s: Sys, i: nat, key: Key, addr: nat, cap: nat, data: Bytes) {
    && i < |s.threads|
    && key in s.table.entries && s.table.entries[key].status == Active
    && key in s.hist.committed && s.hist.committed[key] == data && |data| <= cap
    && (s.table.directIo ==> IsDioAligned(addr, cap))
    && var pc := s.threads[i];
       || pc == SiPrepare(key, addr, cap)
       || pc == SiLookup(key, addr, cap)
       || pc == SiOpen(key, addr, cap, |data|)
       || (pc.SiRead? && pc.key == key && pc.size == |data|)
       || pc == SiFinish(key, SwappedIn(key, data))
       || pc == Ending(SwappedIn(key, data))
       || pc == Leaving(SwappedIn(key, data))
       || pc == Idle
  }

  lemma SwapInBegins(s: Sys, i: nat, a: Action, s': Sys, key: Key, addr: nat, cap: nat, data: Bytes)
    requires SwapInGoes(s, i, key, addr, cap, data) && Apply(s, i, a) == Some(s')
    requires s.threads[i].SiPrepare? || s.threads[i].SiLookup?
    requires Inv(s)
    ensures SwapInGoes(s', i, key, addr, cap, data) && s'.hist.issued == s.hist.issued
  {
    hide Inv;
    OfEntry(s, key);
    var pc := s.threads[i];
    if pc.SiPrepare? {
      KeyIsPositive(s, key);
      Admitted(s, i);
    }
  }

  lemma KeyIsPositive(s: Sys, key: Key)
    requires key in s.table.entries
    requires Inv(s)
    ensures key > 0
  {
    hide CountInv, ApiInv, LockInv, OwnInv, FileInv, QuotaTableInv, LogInv;
  }

  lemma SwapInReads(s: Sys, i: nat, a: Action, s': Sys, key: Key, addr: nat, cap: nat, data: Bytes)
    requires SwapInGoes(s, i, key, addr, cap, data) && Apply(s, i, a) == Some(s') && !a.Fails?
    requires s.threads[i].SiOpen? || s.threads[i].SiRead?
    requires Inv(s)
    ensures SwapInGoes(s', i, key, addr, cap, data) && s'.hist.issued == s.hist.issued
  {
    hide Inv, HolderOk, RetOk;
    OfEntry(s, key);
    OfThread(s, i);
    assert |data| % DIO_ALIGNMENT == 0 || !s.table.directIo;
    assert data[..|data|] == data;
  }

  lemma SwapInLeaves(s: Sys, i: nat, a: Action, s': Sys, key: Key, addr: nat, cap: nat, data: Bytes)
    requires SwapInGoes(s, i, key, addr, cap, data) && Apply(s, i, a) == Some(s') && !IsCall(a)
    requires s.threads[i].SiFinish? || s.threads[i].Ending? || s.threads[i].Leaving? || s.threads[i].Idle?
    ensures SwapInGoes(s', i, key, addr, cap, data) && s'.hist.issued == s.hist.issued
  {
  }

  lemma SwapInStep(s: Sys, i: nat, a: Action, s': Sys, key: Key, addr: nat, cap: nat, data: Bytes)
    requires SwapInGoes(s, i, key, addr, cap, data) && Apply(s, i, a) == Some(s') && !a.Fails? && !IsCall(a)
    requires Inv(s)
    ensures SwapInGoes(s', i, key, addr, cap, data) && s'.hist.issued == s.hist.issued
  {
    hide Inv;
    var pc := s.threads[i];
    if pc.SiPrepare? || pc.SiLookup? {
      SwapInBegins(s, i, a, s', key, addr, cap, data);
    } else if pc.SiOpen? || pc.SiRead? {
      SwapInReads(s, i, a, s', key, addr, cap, data);
    } else {
      SwapInLeaves(s, i, a, s', key, addr, cap, data);
    }
  }

  lemma {:induction false} SwapInKeepsGoing(s: Sys, i: nat, actions: seq<Action>, s': Sys, key: Key, addr: nat, cap: nat, data: Bytes)
    requires SwapInGoes(s, i, key, addr, cap, data) && Smooth(actions) && Does(s, i, actions) == Some(s')
    requires Inv(s)
    ensures SwapInGoes(s', i, key, addr, cap, data)
    decreases |actions|
  {
    hide Inv, Apply, SwapInGoes;
    if actions != [] {
      var s1 := Apply(s, i, actions[0]).value;
      SwapInStep(s, i, actions[0], s1, key, addr, cap, data);
      KeysFit(s);
      StepKeepsInv(s, i, actions[0], s1);
      SwapInKeepsGoing(s1, i, actions[1..], s', key, addr, cap, data);
    }
  }

  lemma KeysFit(s: Sys)
    requires Inv(s)
    ensures s.hist.issued + 1 < U64
  {
    hide CountInv, ApiInv, LockInv, OwnInv, FileInv, QuotaTableInv, LogInv;
  }

  /** A thread outside, with a live manager. */
  predicate Outside(s: Sys, i: nat) {
    i < |s.threads| && s.threads[i] == Idle && s.api.Present? && !s.api.destroying
  }

  lemma {:induction false} SwapInSucceedsFrom(s: Sys, i: nat, key: Key, addr: nat, cap: nat, actions: seq<Action>, s': Sys)
    requires Outside(s, i) && key in s.table.entries && s.table.entries[key].status == Active
    requires s.table.entries[key].size <= cap && (s.table.directIo ==> IsDioAligned(addr, cap))
    requires actions != [] && actions[0] == CallSwapIn(key, addr, cap) && Smooth(actions[1..])
    requires Does(s, i, actions) == Some(s')
    requires Inv(s)
    ensures key in s.hist.committed && i < |s'.threads|
    ensures s'.threads[i].Leaving? ==> s'.threads[i] == Leaving(SwappedIn(key, s.hist.committed[key]))
  {
    hide Inv;
    OfEntry(s, key);
    var s1 := At(s.(api := EnterCall(s.api).0), i, SiPrepare(key, addr, cap));
    assert Apply(s, i, actions[0]) == Some(s1);
    hide Apply;
    KeysFit(s);
    StepKeepsInv(s, i, actions[0], s1);
    SwapInKeepsGoing(s1, i, actions[1..], s', key, addr, cap, s.hist.committed[key]);
  }

  // ----- SwapOut -----

  /** The counters when a swap-out asks for room, if it began with `q`: those of `q`, or of a refresh
      that was due and has ended. */
  ghost predicate Refreshed(q: Quota, q': Quota) {
    q' == q || exists r: Snapshot, ipc: Ipc ::
      RefreshDue(q, r.now) && r.committedAtStart == q.committedSince && PossibleIpc(q, ipc) && q' == EndRefresh(q, r, ipc)
  }

  /** On its way to the question whether there is room. */
  ghost predicate SwapOutAsks(s: Sys, i: nat, addr: nat, data: Bytes, key: Key, q: Quota) {
    && i < |s.threads| && 0 < |data| < U64
    && var pc := s.threads[i];
       || (pc == SoPrepare(addr, data) && s.quota == q && key == s.table.nextKeyId && !s.table.removeAll
           && (s.table.directIo ==> IsDioAligned(addr, |data|)))
       || (pc == Refresh(ForReserve(key, data)) && s.quota == q)
       || (pc.Refreshing? && pc.after == ForReserve(key, data) && s.quota == q
           && RefreshDue(q, pc.r.now) && pc.r.committedAtStart == q.committedSince)
       || (pc == SoReserve(key, data) && Refreshed(q, s.quota))
  }

  /** Beyond that question, which was asked with the counters `q`. */
  ghost predicate SwapOutKnows(s: Sys, i: nat, data: Bytes, key: Key, q: Quota) {
    && i < |s.threads|
    && var pc, code := s.threads[i], Reserve(q, |data|).1;
       || (code == Ok && (pc == SoOpen(key, data) || (pc.SoWrite? && pc.key == key && pc.data == data)
                          || pc == SoRename(key, data) || pc == SoCommit(key, data)))
       || (code == Ok && Stored(s, key, data) && (pc == Ending(SwappedOut(key)) || pc == Leaving(SwappedOut(key))))
       || (code != Ok && (pc == Ending(Failed(code)) || pc == Leaving(Failed(code))))
       || pc == Idle
  }

  ghost predicate Stored(s: Sys, key: Key, data: Bytes) {
    && key in s.table.entries && s.table.entries[key] == Entry(|data|, Active, 0)
    && key in s.hist.committed && s.hist.committed[key] == data
  }

  lemma SwapOutPrepares(s: Sys, i: nat, a: Action, s': Sys, addr: nat, data: Bytes, key: Key, q: Quota)
    requires SwapOutAsks(s, i, addr, data, key, q) && Apply(s, i, a) == Some(s')
    requires s.threads[i].SoPrepare?
    requires Inv(s)
    ensures SwapOutAsks(s', i, addr, data, key, q) && !s'.threads[i].SoPrepare?
    ensures s'.hist.issued == s.hist.issued + 1
  {
    hide Inv, Refreshed;
    Admitted(s, i);
  }

  lemma SwapOutRefreshes(s: Sys, i: nat, a: Action, s': Sys, addr: nat, data: Bytes, key: Key, q: Quota)
    requires SwapOutAsks(s, i, addr, data, key, q) && Apply(s, i, a) == Some(s')
    requires s.threads[i].Refresh? || s.threads[i].Refreshing?
    ensures SwapOutAsks(s', i, addr, data, key, q) && !s'.threads[i].SoPrepare?
    ensures s'.hist.issued == s.hist.issued
  {
    hide EndRefresh, RefreshDue, PossibleIpc;
    if s.threads[i].Refreshing? {
      var r, ipc := s.threads[i].r, a.ipc;
      assert RefreshDue(q, r.now) && PossibleIpc(q, ipc) && s'.quota == EndRefresh(q, r, ipc);
    }
  }

  lemma SwapOutReserves(s: Sys, i: nat, a: Action, s': Sys, data: Bytes, key: Key)
    requires i < |s.threads| && s.threads[i] == SoReserve(key, data) && Apply(s, i, a) == Some(s')
    ensures SwapOutKnows(s', i, data, key, s.quota) && s'.hist.issued == s.hist.issued
  {
    hide Reserve;
  }

  lemma SwapOutWrites(s: Sys, i: nat, a: Action, s': Sys, data: Bytes, key: Key, q: Quota)
    requires SwapOutKnows(s, i, data, key, q) && Apply(s, i, a) == Some(s') && !a.Fails?
    requires s.threads[i].SoOpen? || s.threads[i].SoWrite? || s.threads[i].SoRename? || s.threads[i].SoCommit?
    ensures SwapOutKnows(s', i, data, key, q) && s'.hist.issued == s.hist.issued
  {
    hide Reserve;
  }

  lemma SwapOutLeaves(s: Sys, i: nat, a: Action, s': Sys, data: Bytes, key: Key, q: Quota)
    requires SwapOutKnows(s, i, data, key, q) && Apply(s, i, a) == Some(s') && !IsCall(a)
    requires s.threads[i].Ending? || s.threads[i].Leaving? || s.threads[i].Idle?
    ensures SwapOutKnows(s', i, data, key, q) && s'.hist.issued == s.hist.issued
  {
    hide Reserve;
  }

  lemma {:induction false} SwapOutKeepsGoing(s: Sys, i: nat, actions: seq<Action>, s': Sys, data: Bytes, key: Key, q: Quota)
    requires SwapOutKnows(s, i, data, key, q) && Smooth(actions) && Does(s, i, actions) == Some(s')
    requires Inv(s)
    ensures SwapOutKnows(s', i, data, key, q) && Inv(s')
    decreases |actions|
  {
    hide Inv, Apply, Reserve, Stored;
    if actions != [] {
      var a, pc := actions[0], s.threads[i];
      var s1 := Apply(s, i, a).value;
      if pc.SoOpen? || pc.SoWrite? || pc.SoRename? || pc.SoCommit? {
        SwapOutWrites(s, i, a, s1, data, key, q);
      } else {
        SwapOutLeaves(s, i, a, s1, data, key, q);
      }
      KeysFit(s);
      StepKeepsInv(s, i, a, s1);
      SwapOutKeepsGoing(s1, i, actions[1..], s', data, key, q);
    }
  }

  /** From the call to the end of the swap-out: `q` are the counters with which it asked for room. */
  lemma {:induction false} SwapOutGoes(s: Sys, i: nat, actions: seq<Action>, s': Sys, addr: nat, data: Bytes, key: Key, q0: Quota)
    returns (q: Quota)
    requires SwapOutAsks(s, i, addr, data, key, q0) && Smooth(actions) && Does(s, i, actions) == Some(s')
    requires Inv(s) && s.hist.issued + (if s.threads[i].SoPrepare? then 2 else 1) < U64
    ensures Refreshed(q0, q)
    ensures SwapOutAsks(s', i, addr, data, key, q0) || SwapOutKnows(s', i, data, key, q)
    ensures Inv(s')
    decreases |actions|
  {
    hide Inv, Apply, SwapOutAsks, SwapOutKnows, Refreshed;
    AsksMeaning(s, i, addr, data, key, q0);
    q := q0;
    if actions == [] {
      NotRefreshed(q0);
    } else {
      var a, pc := actions[0], s.threads[i];
      var s1 := Apply(s, i, a).value;
      if pc.SoReserve? {
        SwapOutReserves(s, i, a, s1, data, key);
        StepKeepsInv(s, i, a, s1);
        SwapOutKeepsGoing(s1, i, actions[1..], s', data, key, s.quota);
        q := s.quota;
      } else {
        if pc.SoPrepare? {
          SwapOutPrepares(s, i, a, s1, addr, data, key, q0);
        } else {
          SwapOutRefreshes(s, i, a, s1, addr, data, key, q0);
        }
        StepKeepsInv(s, i, a, s1);
        q := SwapOutGoes(s1, i, actions[1..], s', addr, data, key, q0);
      }
    }
  }

  lemma NotRefreshed(q: Quota)
    ensures Refreshed(q, q)
  {
  }

  lemma AsksMeaning(s: Sys, i: nat, addr: nat, data: Bytes, key: Key, q: Quota)
    requires SwapOutAsks(s, i, addr, data, key, q)
    ensures i < |s.threads|
    ensures var pc := s.threads[i];
      || pc.SoPrepare? || pc.Refresh? || pc.Refreshing? || (pc == SoReserve(key, data) && Refreshed(q, s.quota))
  {
    hide Refreshed;
  }

  lemma SwapOutFrom(s: Sys, i: nat, addr: nat, data: Bytes, actions: seq<Action>, s': Sys) returns (q: Quota)
    requires Outside(s, i) && 0 < |data| < U64 && !s.table.removeAll
    requires s.table.directIo ==> IsDioAligned(addr, |data|)
    requires actions != [] && actions[0] == CallSwapOut(addr, data) && Smooth(actions[1..])
    requires Does(s, i, actions) == Some(s')
    requires Inv(s) && s.hist.issued + 2 < U64
    ensures Refreshed(s.quota, q) && Inv(s') && i < |s'.threads|
    ensures s'.threads[i].Leaving? ==>
              var key, code := s.table.nextKeyId, Reserve(q, |data|).1;
              if code == Ok then s'.threads[i] == Leaving(SwappedOut(key)) && Stored(s', key, data)
              else s'.threads[i] == Leaving(Failed(code))
  {
    hide Inv, Reserve, Refreshed, Stored;
    var s1 := At(s.(api := EnterCall(s.api).0), i, SoPrepare(addr, data));
    assert Apply(s, i, actions[0]) == Some(s1);
    hide Apply;
    StepKeepsInv(s, i, actions[0], s1);
    q := SwapOutGoes(s1, i, actions[1..], s', addr, data, s.table.nextKeyId, s.quota);
  }

  // ----- RemoveData -----

  /** A removal on its way; `read` tells whether the entry had readers when it was asked for. */
  ghost predicate RemoveGoes(s: Sys, i: nat, key: Key, read: bool) {
    && i < |s.threads|
    && var pc, es := s.threads[i], s.table.entries;
       || (pc == RdPrepare(key) && key in es && es[key].status == Active && (read <==> es[key].readers > 0))
       || (!read && pc.RdUnlink? && pc.key == key)
       || (!read && pc.RdFinalize? && pc.key == key && pc.gone && pc.ret == Done && Swap(key) !in s.disk)
       || (!read && (pc == Ending(Done) || pc == Leaving(Done)) && key !in es && Swap(key) !in s.disk)
       || (read && pc == Leaving(Done) && IsDeferred(s, key))
       || pc == Idle
  }

  lemma RemoveBegins(s: Sys, i: nat, a: Action, s': Sys, key: Key, read: bool)
    requires RemoveGoes(s, i, key, read) && Apply(s, i, a) == Some(s') && s.threads[i].RdPrepare?
    requires Inv(s)
    ensures RemoveGoes(s', i, key, read) && s'.hist.issued == s.hist.issued
  {
    hide Inv;
    KeyIsPositive(s, key);
    Admitted(s, i);
  }

  lemma RemoveGoesOn(s: Sys, i: nat, a: Action, s': Sys, key: Key, read: bool)
    requires RemoveGoes(s, i, key, read) && Apply(s, i, a) == Some(s') && !a.Fails? && !IsCall(a)
    requires !s.threads[i].RdPrepare?
    ensures RemoveGoes(s', i, key, read) && s'.hist.issued == s.hist.issued
  {
  }

  lemma {:induction false} RemoveKeepsGoing(s: Sys, i: nat, actions: seq<Action>, s': Sys, key: Key, read: bool)
    requires RemoveGoes(s, i, key, read) && Smooth(actions) && Does(s, i, actions) == Some(s')
    requires Inv(s)
    ensures RemoveGoes(s', i, key, read)
    decreases |actions|
  {
    hide Inv, Apply, IsDeferred;
    if actions != [] {
      var s1 := Apply(s, i, actions[0]).value;
      if s.threads[i].RdPrepare? {
        RemoveBegins(s, i, actions[0], s1, key, read);
      } else {
        RemoveGoesOn(s, i, actions[0], s1, key, read);
      }
      KeysFit(s);
      StepKeepsInv(s, i, actions[0], s1);
      RemoveKeepsGoing(s1, i, actions[1..], s', key, read);
    }
  }

  // ----- Main results -----

  /** Every undisturbed swap-in of an active entry into a large enough (and, for direct I/O, aligned)
      buffer ends with the bytes that were committed under the key. */
  lemma {:induction false} SwapInAlwaysSucceeds(run: seq<Sys>, n: nat, i: nat, key: Key, addr: nat, cap: nat, actions: seq<Action>, s': Sys)
    requires IsRun(run) && BeforeWrap(run) && n < |run|
    requires var s := run[n];
      && Outside(s, i) && key in s.table.entries && s.table.entries[key].status == Active
      && s.table.entries[key].size <= cap && (s.table.directIo ==> IsDioAligned(addr, cap))
    requires actions != [] && actions[0] == CallSwapIn(key, addr, cap) && Smooth(actions[1..])
    requires Does(run[n], i, actions) == Some(s')
    ensures key in run[n].hist.committed && Committed(key, run[n].hist.committed[key]) in run[n].hist.log
    ensures i < |s'.threads|
    ensures s'.threads[i].Leaving? ==> s'.threads[i] == Leaving(SwappedIn(key, run[n].hist.committed[key]))
  {
    hide Inv, Apply, IsRun, BeforeWrap;
    RunHasInv(run, n);
    SwapInSucceedsFrom(run[n], i, key, addr, cap, actions, s');
    CommitsAreLogged(run[n], key);
  }

  lemma CommitsAreLogged(s: Sys, key: Key)
    requires key in s.hist.committed
    requires Inv(s)
    ensures Committed(key, s.hist.committed[key]) in s.hist.log
  {
    hide CountInv, ApiInv, LockInv, KeyInv, OwnInv, FileInv, QuotaTableInv, StoreSpec, RetOk;
  }

  /** Every undisturbed swap-out that is admitted ends with its key and an active entry of its bytes,
      or with the code that says why there is no room, according to the counters it asked with: those
      at its call, or of the refresh it made. */
  lemma {:induction false} SwapOutAlwaysDecides(run: seq<Sys>, n: nat, i: nat, addr: nat, data: Bytes, actions: seq<Action>, s': Sys)
    returns (q: Quota)
    requires IsRun(run) && BeforeWrap(run) && n < |run| && run[n].hist.issued + 2 < U64
    requires var s := run[n];
      Outside(s, i) && 0 < |data| < U64 && !s.table.removeAll && (s.table.directIo ==> IsDioAligned(addr, |data|))
    requires actions != [] && actions[0] == CallSwapOut(addr, data) && Smooth(actions[1..])
    requires Does(run[n], i, actions) == Some(s')
    ensures Refreshed(run[n].quota, q) && i < |s'.threads|
    ensures s'.threads[i].Leaving? ==>
              var key, code := run[n].table.nextKeyId, Reserve(q, |data|).1;
              if code == Ok then s'.threads[i] == Leaving(SwappedOut(key)) && Stored(s', key, data)
              else s'.threads[i] == Leaving(Failed(code))
  {
    hide Inv, Apply, IsRun, BeforeWrap;
    RunHasInv(run, n);
    q := SwapOutFrom(run[n], i, addr, data, actions, s');
  }

  /** Every undisturbed swap-out that returned a key, followed by any undisturbed swap-in of that key,
      gives the same bytes back. */
  lemma {:induction false} RoundTripAlways(run: seq<Sys>, n: nat, i: nat, addr: nat, data: Bytes, out: seq<Action>, s1: Sys,
                        addr2: nat, cap: nat, back: seq<Action>, s2: Sys)
    requires IsRun(run) && BeforeWrap(run) && n < |run| && run[n].hist.issued + 2 < U64
    requires var s := run[n];
      && Outside(s, i) && 0 < |data| < U64 && !s.table.removeAll
      && (s.table.directIo ==> IsDioAligned(addr, |data|))
    requires out != [] && out[0] == CallSwapOut(addr, data) && Smooth(out[1..])
    requires Does(run[n], i, out) == Some(s1) && i < |s1.threads| && s1.threads[i].Leaving? && s1.threads[i].ret.SwappedOut?
    requires |data| <= cap && (s1.table.directIo ==> IsDioAligned(addr2, cap))
    requires back != [] && back[0] == CallSwapIn(s1.threads[i].ret.key, addr2, cap) && Smooth(back[1..])
    requires Does(s1, i, [Proceed] + back) == Some(s2)
    ensures i < |s2.threads|
    ensures s2.threads[i].Leaving? ==> s2.threads[i] == Leaving(SwappedIn(s1.threads[i].ret.key, data))
  {
    hide Inv, Apply, IsRun, BeforeWrap, Refreshed, Reserve;
    RunHasInv(run, n);
    var q := SwapOutFrom(run[n], i, addr, data, out, s1);
    var s3 := LeavesWell(s1, i);
    DoesOne(s1, i, Proceed, s3, back);
    SwapInSucceedsFrom(s3, i, s1.threads[i].ret.key, addr2, cap, back, s2);
  }

  lemma LeavesWell(s: Sys, i: nat) returns (s': Sys)
    requires i < |s.threads| && s.threads[i].Leaving?
    requires Inv(s)
    ensures Apply(s, i, Proceed) == Some(s') && Outside(s', i)
    ensures s'.table == s.table && s'.hist == s.hist
    ensures Inv(s')
  {
    hide Inv;
    Inside(s, i);
    s' := At(s.(api := LeaveCall(s.api)), i, Idle);
    KeysFit(s);
    StepKeepsInv(s, i, Proceed, s');
  }

  /** Every undisturbed removal of an active entry returns success; if the entry had no readers, the
      entry and its file are gone, and otherwise the removal is left to the readers. */
  lemma {:induction false} RemoveAlwaysSucceeds(run: seq<Sys>, n: nat, i: nat, key: Key, actions: seq<Action>, s': Sys)
    requires IsRun(run) && BeforeWrap(run) && n < |run|
    requires Outside(run[n], i) && key in run[n].table.entries && run[n].table.entries[key].status == Active
    requires actions != [] && actions[0] == CallRemove(key) && Smooth(actions[1..])
    requires Does(run[n], i, actions) == Some(s')
    ensures i < |s'.threads|
    ensures s'.threads[i].Leaving? ==>
              && s'.threads[i] == Leaving(Done)
              && if run[n].table.entries[key].readers == 0 then key !in s'.table.entries && Swap(key) !in s'.disk
                 else IsDeferred(s', key)
  {
    hide Inv, IsRun, BeforeWrap;
    RunHasInv(run, n);
    var s := run[n];
    var s1 := At(s.(api := EnterCall(s.api).0), i, RdPrepare(key));
    assert Apply(s, i, actions[0]) == Some(s1);
    hide Apply;
    KeysFit(s);
    StepKeepsInv(s, i, actions[0], s1);
    RemoveKeepsGoing(s1, i, actions[1..], s', key, s.table.entries[key].readers > 0);
  }
}
