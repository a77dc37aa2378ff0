/** Every step keeps the counters equal to the numbers of threads they stand for. */
module ProtocolCounts {
  import opened SwapTypes
  import opened QuotaSpec
  import opened ManagerSpec
  import opened Protocol
  import opened ProtocolInvariant

  /** Thread `i` moves, and each counter moves by the change of that thread's weight. */
  ghost predicate CountDelta(s: Sys, i: nat, s': Sys) {
    && i < |s.threads| == |s'.threads|
    && s'.threads == s.threads[i := s'.threads[i]]
    && s'.table.activeOps + Weight(Ops, s.threads[i]) == s.table.activeOps + Weight(Ops, s'.threads[i])
    && s'.quota.pending + Weight(Reserved, s.threads[i]) == s.quota.pending + Weight(Reserved, s'.threads[i])
    && (s'.api.Present? ==>
          && s.api.Present?
          && s'.api.activeCalls + Weight(Calls, s.threads[i]) == s.api.activeCalls + Weight(Calls, s'.threads[i]))
    && (s'.api.Gone? ==>
          && (s.api.Gone? || s.api.activeCalls == 0)
          && Weight(Calls, s.threads[i]) == Weight(Calls, s'.threads[i]))
  }

  ghost predicate ReaderDelta(s: Sys, i: nat, s': Sys) {
    && i < |s.threads| == |s'.threads|
    && s'.threads == s.threads[i := s'.threads[i]]
    && forall k :: k in s'.table.entries ==>
         if k in s.table.entries then
           s'.table.entries[k].readers + Weight(Readers(k), s.threads[i])
           == s.table.entries[k].readers + Weight(Readers(k), s'.threads[i])
         else
           && s'.table.entries[k].readers == 0
           && !Reads(s'.threads[i], k)
           && forall j :: 0 <= j < |s.threads| ==> !Reads(s.threads[j], k)
  }

  lemma {:induction false} NobodyReads(ts: seq<PC>, key: Key)
    requires forall j :: 0 <= j < |ts| ==> !Reads(ts[j], key)
    ensures Total(Readers(key), ts) == 0
  {
    if Total(Readers(key), ts) > 0 {
      var j := TotalWitness(Readers(key), ts);
    }
  }

  lemma DeltasKeepCount(s: Sys, i: nat, s': Sys)
    requires CountInv(s) && CountDelta(s, i, s') && ReaderDelta(s, i, s')
    ensures CountInv(s')
  {
    var pc := s'.threads[i];
    TotalUpdate(Ops, s.threads, i, pc);
    TotalUpdate(Calls, s.threads, i, pc);
    TotalUpdate(Reserved, s.threads, i, pc);
    forall k | k in s'.table.entries
      ensures s'.table.entries[k].readers == Total(Readers(k), s'.threads)
    {
      TotalUpdate(Readers(k), s.threads, i, pc);
      if k !in s.table.entries {
        NobodyReads(s.threads, k);
      }
    }
  }

  /** The thread's own weights are in the counters, and the 32-bit counters have room. */
  ghost predicate Margin(s: Sys, i: nat) {
    && i < |s.threads| < U32
    && Weight(Ops, s.threads[i]) <= s.table.activeOps < U32
    && s.table.activeOps + 1 - Weight(Ops, s.threads[i]) < U32
    && Weight(Reserved, s.threads[i]) <= s.quota.pending
    && (s.api.Present? ==>
          && Weight(Calls, s.threads[i]) <= s.api.activeCalls
          && s.api.activeCalls + 1 - Weight(Calls, s.threads[i]) < U32)
    && (s.api.Gone? ==> Weight(Calls, s.threads[i]) == 0)
  }

  lemma {:induction false} RoomForOne(m: Measure, ts: seq<PC>, i: nat)
    requires i < |ts| && !m.Reserved?
    ensures Weight(m, ts[i]) <= Total(m, ts) <= |ts|
    ensures Total(m, ts) + 1 - Weight(m, ts[i]) <= |ts|
  {
    TotalAtLeast(m, ts, i);
    TotalBound(m, ts);
    if Weight(m, ts[i]) == 0 {
      var busy := if m.Calls? then Leaving(Done) else if m.Ops? then GsFill else SiFinish(m.key, Done);
      TotalUpdate(m, ts, i, busy);
      TotalBound(m, ts[i := busy]);
    }
  }

  lemma CountGivesMargin(s: Sys, i: nat)
    requires CountInv(s) && i < |s.threads|
    ensures Margin(s, i)
  {
    RoomForOne(Ops, s.threads, i);
    RoomForOne(Calls, s.threads, i);
    TotalAtLeast(Reserved, s.threads, i);
  }
}
