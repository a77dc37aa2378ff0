/** The steps of SwapIn keep the invariant. */
module ProtocolSwapIn {
  import opened SwapTypes
  import opened QuotaSpec
  import opened ManagerSpec
  import opened Protocol
  import opened ProtocolInvariant
  import opened ProtocolCounts
  import opened ProtocolFrames
  import opened ProtocolEffects
  import opened ProtocolSteps

  lemma SiPrepareKeeps(s: Sys, i: nat, a: Action, key: Key, addr: nat, cap: nat, s': Sys)
    requires i < |s.threads| && s.threads[i] == SiPrepare(key, addr, cap)
    requires SiPrepareStep(s, i, a, key, addr, cap) == Some(s')
    requires Inv(s)
    ensures Inv(s')
  {
    hide Inv, HolderOk, FilesOk;
    OfThread(s, i);
    PlainCalm(s, i, s');
  }

  lemma SiLookupKeeps(s: Sys, i: nat, a: Action, key: Key, addr: nat, cap: nat, s': Sys)
    requires i < |s.threads| && s.threads[i] == SiLookup(key, addr, cap)
    requires SiLookupStep(s, i, a, key, addr, cap) == Some(s')
    requires Inv(s)
    ensures Inv(s')
  {
    hide Inv, HolderOk, FilesOk;
    OfThread(s, i);
    if s'.threads[i].SiOpen? {
      PinKeeps(s, i, s', key, addr, cap);
    } else {
      PlainCalm(s, i, s');
    }
  }

  lemma PinKeeps(s: Sys, i: nat, s': Sys, key: Key, addr: nat, cap: nat)
    requires i < |s.threads| && s.threads[i] == SiLookup(key, addr, cap)
    requires key in s.table.entries && s.table.entries[key].status == Active
    requires s.table.directIo ==> addr % DIO_ALIGNMENT == 0
    requires s' == At(s.(table := Lookup(s.table, key).0), i, SiOpen(key, addr, cap, s.table.entries[key].size))
    requires Inv(s)
    ensures Inv(s')
  {
    hide CountInv, ApiInv, LockInv, KeyInv, OwnInv, FileInv, QuotaTableInv, LogInv;
    OfThread(s, i);
    OfEntry(s, key);
    RoomForOne(Readers(key), s.threads, i);
    StaysInCall(s, i, s');
    NotOwned(s, key);
    OwnersChangeAt(s, i, s', key);
    SizesStay(s, i, s');
  }

  lemma SiOpenKeeps(s: Sys, i: nat, a: Action, key: Key, addr: nat, cap: nat, size: nat, s': Sys)
    requires i < |s.threads| && s.threads[i] == SiOpen(key, addr, cap, size)
    requires SiOpenStep(s, i, a, key, addr, cap, size) == Some(s')
    requires Inv(s)
    ensures Inv(s')
  {
    hide Inv, SameRole, SameHold;
    if s'.threads[i].SiRead? {
      Opened(s, i, key, addr, cap, size);
    } else {
      GivesUp(s, i, key, s'.threads[i]);
    }
    CalmStep(s, i, s');
  }

  lemma Opened(s: Sys, i: nat, key: Key, addr: nat, cap: nat, size: nat)
    requires i < |s.threads| && s.threads[i] == SiOpen(key, addr, cap, size)
    requires Inv(s)
    ensures SameRole(s.threads[i], SiRead(key, size, [])) && SameHold(s, i, SiRead(key, size, []), s.disk)
  {
    hide Inv;
    OfThread(s, i);
    OfEntry(s, key);
  }

  lemma GivesUp(s: Sys, i: nat, key: Key, pc': PC)
    requires i < |s.threads| && (s.threads[i].SiOpen? || s.threads[i].SiRead?) && s.threads[i].key == key
    requires pc'.SiFinish? && pc'.key == key && pc'.ret.Failed?
    requires Inv(s)
    ensures SameRole(s.threads[i], pc') && SameHold(s, i, pc', s.disk)
  {
    hide Inv;
    OfThread(s, i);
  }

  lemma SiReadKeeps(s: Sys, i: nat, a: Action, key: Key, size: nat, got: Bytes, s': Sys)
    requires i < |s.threads| && s.threads[i] == SiRead(key, size, got)
    requires SiReadStep(s, i, a, key, size, got) == Some(s')
    requires Inv(s)
    ensures Inv(s')
  {
    hide Inv;
    OfThread(s, i);
    OfEntry(s, key);
    if a.Proceed? {
      ReadDoneKeeps(s, i, s', key, size, got);
    } else {
      CalmStep(s, i, s');
    }
  }

  lemma ReadDoneKeeps(s: Sys, i: nat, s': Sys, key: Key, size: nat, got: Bytes)
    requires i < |s.threads| && s.threads[i] == SiRead(key, size, got) && |got| == size
    requires s' == At(Logged(s, ReadDone(key, got)), i, SiFinish(key, SwappedIn(key, got)))
    requires Inv(s)
    ensures Inv(s')
  {
    hide CountInv, ApiInv, LockInv, KeyInv, OwnInv, FileInv, QuotaTableInv, LogInv;
    OfThread(s, i);
    FileWhileRead(s, i, key);
    StaysInCall(s, i, s');
    KeysStay(s, i, s');
    OwnersStay(s, i, s');
    FilesStay(s, i, s');
    QuotaStays(s, i, s');
    ReadKeepsLog(s, i, s', key, got);
  }

  lemma SiFinishKeeps(s: Sys, i: nat, a: Action, key: Key, ret: Ret, s': Sys)
    requires i < |s.threads| && s.threads[i] == SiFinish(key, ret)
    requires SiFinishStep(s, i, a, key, ret) == Some(s')
    requires Inv(s)
    ensures Inv(s')
  {
    hide CountInv, ApiInv, LockInv, KeyInv, OwnInv, FileInv, QuotaTableInv, LogInv;
    OfThread(s, i);
    FileWhileRead(s, i, key);
    StaysInCall(s, i, s');
    NotOwned(s, key);
    OwnersChangeAt(s, i, s', key);
    SizesStay(s, i, s');
  }

  lemma SiUnlinkKeeps(s: Sys, i: nat, a: Action, key: Key, size: nat, ret: Ret, s': Sys)
    requires i < |s.threads| && s.threads[i] == SiUnlink(key, size, ret)
    requires SiUnlinkStep(s, i, a, key, size, ret) == Some(s')
    requires Inv(s)
    ensures Inv(s')
  {
    hide Inv;
    OfThread(s, i);
    if a.Fails? {
      CalmStep(s, i, s');
    } else {
      UnlinkKeeps(s, i, s', key);
    }
  }

  lemma SiFinalizeKeeps(s: Sys, i: nat, a: Action, key: Key, size: nat, gone: bool, ret: Ret, s': Sys)
    requires i < |s.threads| && s.threads[i] == SiFinalize(key, size, gone, ret)
    requires SiFinalizeStep(s, i, a, key, size, gone, ret) == Some(s')
    requires Inv(s)
    ensures Inv(s')
  {
    hide Inv;
    OfThread(s, i);
    SettleKeeps(s, i, s', key, size, gone);
  }
}
