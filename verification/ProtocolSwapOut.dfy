/** The steps of SwapOut keep the invariant. */
module ProtocolSwapOut {
  import opened SwapTypes
  import opened QuotaSpec
  import opened ManagerSpec
  import opened Protocol
  import opened ProtocolInvariant
  import opened ProtocolCounts
  import opened ProtocolFrames
  import opened ProtocolEffects
  import opened ProtocolSteps

  lemma SoOpenKeeps(s: Sys, i: nat, a: Action, key: Key, data: Bytes, s': Sys)
    requires i < |s.threads| && s.threads[i] == SoOpen(key, data)
    requires SoOpenStep(s, i, a, key, data) == Some(s')
    requires Inv(s)
    ensures Inv(s')
  {
    hide Inv;
    OfThread(s, i);
    CalmStep(s, i, s');
  }

  lemma SoWriteKeeps(s: Sys, i: nat, a: Action, key: Key, data: Bytes, n: nat, s': Sys)
    requires i < |s.threads| && s.threads[i] == SoWrite(key, data, n)
    requires SoWriteStep(s, i, a, key, data, n) == Some(s')
    requires Inv(s)
    ensures Inv(s')
  {
    hide Inv;
    OfThread(s, i);
    CalmStep(s, i, s');
  }

  lemma SoRenameKeeps(s: Sys, i: nat, a: Action, key: Key, data: Bytes, s': Sys)
    requires i < |s.threads| && s.threads[i] == SoRename(key, data)
    requires SoRenameStep(s, i, a, key, data) == Some(s')
    requires Inv(s)
    ensures Inv(s')
  {
    hide Inv;
    OfThread(s, i);
    if a.Fails? {
      CalmStep(s, i, s');
    } else {
      Renamed(s, i, key, data, s');
    }
  }

  lemma Renamed(s: Sys, i: nat, key: Key, data: Bytes, s': Sys)
    requires i < |s.threads| && s.threads[i] == SoRename(key, data)
    requires SoRenameStep(s, i, Proceed, key, data) == Some(s')
    requires Inv(s)
    ensures Inv(s')
  {
    hide CountInv, ApiInv, LockInv, KeyInv, OwnInv, FileInv, QuotaTableInv, LogInv, StoreSpec;
    OfSwapOut(s, i);
    OfThread(s, i);
    StaysInCall(s, i, s');
    KeysStay(s, i, s');
    OwnersStay(s, i, s');
    RenameKeepsFiles(s, i, s', key, data);
    QuotaStays(s, i, s');
    RenameKeepsLog(s, i, s', key);
  }

  lemma SoCommitKeeps(s: Sys, i: nat, a: Action, key: Key, data: Bytes, s': Sys)
    requires i < |s.threads| && s.threads[i] == SoCommit(key, data)
    requires SoCommitStep(s, i, a, key, data) == Some(s')
    requires Inv(s)
    ensures Inv(s')
  {
    hide CountInv, ApiInv, LockInv, KeyInv, OwnInv, FileInv, QuotaTableInv, LogInv, StoreSpec, FilesOk, RetOk, QuotaInv;
    OfSwapOut(s, i);
    OfThread(s, i);
    CommitMeaning(s.quota, s.hist.quota, |data|);
    StaysInCall(s, i, s');
    CommitKeepsRecords(s, i, s', key, data);
  }

  lemma CommitKeepsRecords(s: Sys, i: nat, s': Sys, key: Key, data: Bytes)
    requires i < |s.threads| && s.threads[i] == SoCommit(key, data)
    requires SoCommitStep(s, i, Proceed, key, data) == Some(s')
    requires Inv(s)
    ensures KeyInv(s') && OwnInv(s') && FileInv(s') && QuotaTableInv(s') && LogInv(s')
  {
    hide CountInv, ApiInv, LockInv, KeyInv, OwnInv, FileInv, QuotaTableInv, LogInv, StoreSpec, FilesOk, RetOk;
    OfSwapOut(s, i);
    OfThread(s, i);
    CommitKeepsKeys(s, i, s', key, data);
    NotOwned(s, key);
    OwnersChangeAt(s, i, s', key);
    CommitKeepsFiles(s, i, s', key, data, SwappedOut(key));
    CommitKeepsQuota(s, i, s', key, |data|);
    CommitKeepsLog(s, i, s', key, data);
  }

  lemma SoCleanupKeeps(s: Sys, i: nat, a: Action, key: Key, data: Bytes, code: Code, s': Sys)
    requires i < |s.threads| && s.threads[i] == SoCleanup(key, data, code)
    requires SoCleanupStep(s, i, a, key, data, code) == Some(s')
    requires Inv(s)
    ensures Inv(s')
  {
    hide Inv;
    OfThread(s, i);
    CalmStep(s, i, s');
  }

  /** Reserving and cancelling move bytes in and out of the pending counter. */
  lemma ReservationKeeps(s: Sys, i: nat, s': Sys)
    requires CountDelta(s, i, s')
    requires s.threads[i].SoReserve? || s.threads[i].SoCancel?
    requires s'.threads[i].SoOpen? || s'.threads[i].Ending?
    requires SameHold(s, i, s'.threads[i], s'.disk)
    requires s' == s.(quota := s'.quota, threads := s'.threads)
    requires s'.quota == s.quota.(pending := s'.quota.pending) && QuotaInv(s'.quota, s.hist.quota)
    requires Inv(s)
    ensures Inv(s')
  {
    hide CountInv, ApiInv, LockInv, KeyInv, OwnInv, FileInv, LogInv, SameHold, StoreSpec, QuotaInv;
    assert ReaderDelta(s, i, s');
    StaysInCall(s, i, s') by {
      assert IsSwapOut(s.threads[i]);
    }
    HoldStays(s, i, s');
  }

  lemma SoReserveKeeps(s: Sys, i: nat, a: Action, key: Key, data: Bytes, s': Sys)
    requires i < |s.threads| && s.threads[i] == SoReserve(key, data)
    requires SoReserveStep(s, i, a, key, data) == Some(s')
    requires Inv(s)
    ensures Inv(s')
  {
    hide Inv;
    OfThread(s, i);
    ReserveMeaning(s.quota, s.hist.quota, |data|);
    ReservationKeeps(s, i, s');
  }

  lemma SoCancelKeeps(s: Sys, i: nat, a: Action, key: Key, data: Bytes, code: Code, s': Sys)
    requires i < |s.threads| && s.threads[i] == SoCancel(key, data, code)
    requires SoCancelStep(s, i, a, key, data, code) == Some(s')
    requires Inv(s)
    ensures Inv(s')
  {
    hide Inv;
    OfThread(s, i);
    ReservationKeeps(s, i, s');
  }
}
