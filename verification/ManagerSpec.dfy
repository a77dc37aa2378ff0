/**
 The manager's table of swapped-out entries, one function for each section of its
 code that runs under the manager's mutex, and the per-handle state of the C API.
 */
module ManagerSpec {
  import opened SwapTypes

  datatype Status = Active | Removing

  /** A committed entry; its file is `Swap(key)`. `readers` is a 32-bit counter. */
  datatype Entry = Entry(size: nat, status: Status, readers: nat)

  datatype Table = Table(
    entries: map<Key, Entry>,
    nextKeyId: nat,
    activeOps: nat,
    removeAll: bool,
    initialized: bool,
    shuttingDown: bool,
    directIo: bool)

  /** What a removal remembers of an entry after it drops the mutex. */
  datatype Item = Item(key: Key, size: nat)

  function InitTable(directIo: bool): Table {
    Table(map[], 1, 0, false, true, false, directIo)
  }

  function Begun(t: Table): Table {
    t.(activeOps := AddWrap(U32, t.activeOps, 1))
  }

  function EndOperation(t: Table): Table {
    t.(activeOps := SubWrap(U32, t.activeOps, 1))
  }

  function Admission(t: Table): Code {
    if !t.initialized then Inval else if t.shuttingDown then ShuttingDown else Ok
  }

  /** Admits a swap-out and reserves a key for it. */
  function PrepareSwapOut(t: Table, addr: nat, size: nat): (Table, Code, Key) {
    var code := Admission(t);
    if code != Ok then (t, code, 0)
    else if t.directIo && !IsDioAligned(addr, size) then (t, DioAlign, 0)
    else if t.removeAll then (t, Busy, 0)
    else (Begun(t).(nextKeyId := AddWrap(U64, t.nextKeyId, 1)), Ok, t.nextKeyId)
  }

  function CommitEntry(t: Table, key: Key, size: nat): Table {
    t.(entries := t.entries[key := Entry(size, Active, 0)])
  }

  function PrepareSwapIn(t: Table): (Table, Code) {
    var code := Admission(t);
    if code != Ok then (t, code) else (Begun(t), Ok)
  }

  /** Finds an entry and pins it. */
  function Lookup(t: Table, key: Key): (Table, Code, nat) {
    if key !in t.entries then (t, KeyNotFound, 0)
    else if t.entries[key].status != Active then (t, KeyStateInvalid, 0)
    else
      var e := t.entries[key];
      (t.(entries := t.entries[key := e.(readers := AddWrap(U32, e.readers, 1))]), Ok, e.size)
  }

  /** Unpins an entry; the result tells whether this reader has to delete the file. */
  function Unpin(t: Table, key: Key): (Table, Option<nat>) {
    if key !in t.entries then (t, None)
    else
      var e := t.entries[key].(readers := SubWrap(U32, t.entries[key].readers, 1));
      (t.(entries := t.entries[key := e]),
       if e.status != Removing || e.readers > 0 then None else Some(e.size))
  }

  /** Marks an entry for removal; the result tells whether the caller deletes the file now. */
  function PrepareRemove(t: Table, key: Key): (Table, Code, Option<nat>) {
    var code := Admission(t);
    if code != Ok then (t, code, None)
    else if key !in t.entries then (t, KeyNotFound, None)
    else if t.entries[key].status != Active then (t, KeyStateInvalid, None)
    else
      var e := t.entries[key];
      var t' := t.(entries := t.entries[key := e.(status := Removing)]);
      if e.readers == 0 then (Begun(t'), Ok, Some(e.size)) else (t', Ok, None)
  }

  /** Settles a removal after its unlink: the entry goes, or becomes readable again.
      The flag tells whether the quota controller has to be told. */
  function FinalizeRemove(t: Table, key: Key, removed: bool): (Table, bool) {
    if key !in t.entries then (t, false)
    else if removed then (t.(entries := t.entries - {key}), true)
    else (t.(entries := t.entries[key := t.entries[key].(status := Active)]), false)
  }

  function MarkAllRemoving(entries: map<Key, Entry>): map<Key, Entry> {
    map k | k in entries :: entries[k].(status := Removing)
  }

  /** `items` lists the whole table, in some order and without repetition. */
  predicate Lists(items: seq<Item>, entries: map<Key, Entry>) {
    && (forall i :: 0 <= i < |items| ==> items[i].key in entries && items[i].size == entries[items[i].key].size)
    && (forall i, j :: 0 <= i < j < |items| ==> items[i].key != items[j].key)
    && (forall k :: k in entries ==> exists i :: 0 <= i < |items| && items[i].key == k)
  }

  /** Collects every entry for removal, if no operation is under way. */
  function CollectAll(t: Table): (Table, Code) {
    var code := Admission(t);
    if code != Ok then (t, code)
    else if t.activeOps > 0 then (t, Busy)
    else
      var t' := t.(entries := MarkAllRemoving(t.entries));
      if t.entries == map[] then (t', Ok) else (Begun(t').(removeAll := true), Ok)
  }

  function EndRemoveAll(t: Table): Table {
    t.(removeAll := false)
  }

  function MarkShuttingDown(t: Table): Table {
    t.(shuttingDown := true)
  }

  function FinishDestroy(t: Table, clean: bool): (Table, Code) {
    if !clean then (t.(shuttingDown := false), Busy)
    else (t.(entries := map[], initialized := false, shuttingDown := false), Ok)
  }

  /** Every entry point refuses a manager that is not initialised or shutting down, with the code
      that says so, and a refusal, for whatever reason, leaves the table as it was. */
  lemma RefusalsChangeNothing(t: Table, addr: nat, size: nat, key: Key)
    ensures PrepareSwapOut(t, addr, size).1 != Ok ==> PrepareSwapOut(t, addr, size).0 == t
    ensures PrepareSwapIn(t).1 != Ok ==> PrepareSwapIn(t).0 == t
    ensures PrepareRemove(t, key).1 != Ok ==> PrepareRemove(t, key).0 == t
    ensures CollectAll(t).1 != Ok ==> CollectAll(t).0 == t
    ensures Lookup(t, key).1 != Ok ==> Lookup(t, key).0 == t
    ensures t.initialized && t.shuttingDown ==>
              PrepareSwapOut(t, addr, size).1 == PrepareSwapIn(t).1 == PrepareRemove(t, key).1
              == CollectAll(t).1 == ShuttingDown
    ensures !t.initialized ==>
              PrepareSwapOut(t, addr, size).1 == PrepareSwapIn(t).1 == PrepareRemove(t, key).1
              == CollectAll(t).1 == Inval
  {
  }

  // ----- What one section does, another undoes -----

  /** Unpinning undoes pinning, and leaves nothing to delete. */
  lemma UnpinUndoesLookup(t: Table, key: Key)
    requires Lookup(t, key).1 == Ok && t.entries[key].readers + 1 < U32
    ensures Unpin(Lookup(t, key).0, key) == (t, None)
  {
    var e := t.entries[key];
    assert t.entries[key := e.(readers := e.readers + 1)][key := e] == t.entries;
  }

  /** A removal that meets readers is left to the last of them: with `n` unpinned already, the next
      one has to delete the file exactly if it is the last. */
  lemma LastReaderDeletes(t: Table, key: Key, n: nat)
    requires PrepareRemove(t, key).1 == Ok && n < t.entries[key].readers < U32
    ensures PrepareRemove(t, key).2.None?
    ensures var left := t.entries[key].readers - n;
      var marked := PrepareRemove(t, key).0;
      Unpin(marked.(entries := marked.entries[key := marked.entries[key].(readers := left)]), key).1
        == if left == 1 then Some(t.entries[key].size) else None
  {
  }

  /** A removal whose unlink fails restores the table; one whose unlink succeeds takes just the
      entry out of it. */
  lemma FinalizeSettlesPrepare(t: Table, key: Key, gone: bool)
    requires PrepareRemove(t, key).1 == Ok && t.entries[key].readers == 0 && t.activeOps + 1 < U32
    ensures var (marked, _, now) := PrepareRemove(t, key);
      && now == Some(t.entries[key].size)
      && EndOperation(FinalizeRemove(marked, key, gone).0) == if gone then t.(entries := t.entries - {key}) else t
  {
    var e := t.entries[key];
    var marked := t.entries[key := e.(status := Removing)];
    assert marked[key := e] == t.entries;
    assert marked - {key} == t.entries - {key};
  }

  /** What a swap-out commits can be looked up, and removing it gives the table before the commit. */
  lemma RemoveUndoesCommit(t: Table, key: Key, size: nat)
    requires Admission(t) == Ok && key !in t.entries && t.activeOps + 1 < U32
    ensures Lookup(CommitEntry(t, key, size), key).1 == Ok && Lookup(CommitEntry(t, key, size), key).2 == size
    ensures EndOperation(FinalizeRemove(PrepareRemove(CommitEntry(t, key, size), key).0, key, true).0) == t
  {
    var marked := t.entries[key := Entry(size, Active, 0)][key := Entry(size, Removing, 0)];
    assert marked - {key} == t.entries;
  }

  // ----- The C API's state for one handle -----

  datatype Api = Gone | Present(activeCalls: nat, destroying: bool)

  function EnterCall(a: Api): (Api, Code) {
    if a.Gone? || a.destroying then (a, ShuttingDown)
    else (a.(activeCalls := AddWrap(U32, a.activeCalls, 1)), Ok)
  }

  function LeaveCall(a: Api): Api {
    if a.Present? && a.activeCalls > 0 then a.(activeCalls := a.activeCalls - 1) else a
  }

  function BeginDestroy(a: Api): (Api, Code) {
    if a.Gone? then (a, ShuttingDown)
    else if a.destroying || a.activeCalls > 0 then (a, Busy)
    else (a.(destroying := true), Ok)
  }

  function RestoreDestroyable(a: Api): Api {
    if a.Present? then a.(destroying := false) else a
  }

  // ----- The space the entries take -----

  ghost function SumSizes(m: map<Key, Entry>): nat
  {
    if m == map[] then 0 else
    var k :| k in m;
    m[k].size + SumSizes(m - {k})
  }

  lemma {:induction false} SumWithout(m: map<Key, Entry>, key: Key)
    requires key in m
    ensures SumSizes(m) == m[key].size + SumSizes(m - {key})
    decreases |m|
  {
    var k :| k in m && SumSizes(m) == m[k].size + SumSizes(m - {k});
    if k != key {
      SumWithout(m - {k}, key);
      SumWithout(m - {key}, k);
      assert (m - {k}) - {key} == (m - {key}) - {k};
    }
  }

  lemma SumSetEntry(m: map<Key, Entry>, key: Key, e: Entry)
    ensures key in m ==> SumSizes(m[key := e]) + m[key].size == SumSizes(m) + e.size
    ensures key !in m ==> SumSizes(m[key := e]) == SumSizes(m) + e.size
  {
    SumWithout(m[key := e], key);
    if key in m {
      SumWithout(m, key);
      assert m[key := e] - {key} == m - {key};
    } else {
      assert m[key := e] - {key} == m;
    }
  }

  lemma {:induction false} SumSameSizes(m: map<Key, Entry>, m': map<Key, Entry>)
    requires m.Keys == m'.Keys
    requires forall k :: k in m ==> m[k].size == m'[k].size
    ensures SumSizes(m) == SumSizes(m')
    decreases |m|
  {
    if m == map[] {
      assert m' == map[];
    } else {
      var k :| k in m;
      SumWithout(m, k);
      SumWithout(m', k);
      SumSameSizes(m - {k}, m' - {k});
    }
  }

  /** Every entry holds at least one byte, so there are no more keys than bytes. */
  lemma {:induction false} CountAtMostBytes(m: map<Key, Entry>)
    requires forall k :: k in m ==> m[k].size > 0
    ensures |m| <= SumSizes(m)
    decreases |m|
  {
    if m != map[] {
      var k :| k in m;
      SumWithout(m, k);
      CountAtMostBytes(m - {k});
      assert m.Keys == (m - {k}).Keys + {k};
    }
  }
}
