/** The swap manager as the object it is.  Its methods are the sections of the manager that run
    under the mutex; each leaves exactly the table, and the quota controller exactly the counters,
    that the specification functions of the protocol give. */
module SwapManager {
  import opened SwapTypes
  import opened QuotaSpec
  import opened ManagerSpec
  import opened ProxyControl

  class SwapfsManager {
    var entries: map<Key, Entry>
    var nextKeyId: nat
    var activeOps: nat
    var removeAllInProgress: bool
    var initialized: bool
    var shuttingDown: bool
    var useDirectIo: bool
    const control: ProxySwapControl

    function State(): Table
      reads this
    {
      Table(entries, nextKeyId, activeOps, removeAllInProgress, initialized, shuttingDown, useDirectIo)
    }

    constructor (directIo: bool, control: ProxySwapControl)
      ensures State() == InitTable(directIo) && this.control == control
    {
      entries, nextKeyId, activeOps := map[], 1, 0;
      removeAllInProgress, initialized, shuttingDown, useDirectIo := false, true, false, directIo;
      this.control := control;
    }

    method EndOperation() returns (notify: bool)
      modifies this
      ensures State() == ManagerSpec.EndOperation(old(State()))
      ensures notify <==> activeOps == 0
    {
      activeOps := SubWrap(U32, activeOps, 1);
      notify := activeOps == 0;
    }

    method PrepareForSwapOut(addr: nat, size: nat) returns (code: Code, key: Key)
      modifies this
      ensures (State(), code, key) == PrepareSwapOut(old(State()), addr, size)
    {
      key := 0;
      if !initialized {
        return Inval, key;
      }
      if shuttingDown {
        return ShuttingDown, key;
      }
      if useDirectIo {
        if !IsDioAligned(addr, size) {
          return DioAlign, key;
        }
      }
      if removeAllInProgress {
        return Busy, key;
      }
      activeOps := AddWrap(U32, activeOps, 1);
      key := nextKeyId;
      nextKeyId := AddWrap(U64, nextKeyId, 1);
      code := Ok;
    }

    method CommitSwapOutEntry(key: Key, size: nat)
      modifies this, control
      ensures State() == CommitEntry(old(State()), key, size)
      ensures control.State() == SwapOutCommitted(old(control.State()), size, size)
    {
      entries := entries[key := Entry(size, Active, 0)];
      control.OnSwapOutCommitted(size, size);
    }

    method PrepareForSwapIn() returns (code: Code)
      modifies this
      ensures (State(), code) == PrepareSwapIn(old(State()))
    {
      if !initialized {
        return Inval;
      }
      if shuttingDown {
        return ShuttingDown;
      }
      activeOps := AddWrap(U32, activeOps, 1);
      return Ok;
    }

    method LookupKeyForSwapIn(key: Key) returns (code: Code, size: nat)
      modifies this
      ensures (State(), code, size) == Lookup(old(State()), key)
    {
      if key !in entries {
        return KeyNotFound, 0;
      }
      var entry := entries[key];
      if entry.status != Active {
        return KeyStateInvalid, 0;
      }
      entries := entries[key := entry.(readers := AddWrap(U32, entry.readers, 1))];
      return Ok, entry.size;
    }

    /** FinishSwapIn before its unlink. */
    method UnpinEntry(key: Key) returns (remove: Option<nat>)
      modifies this
      ensures (State(), remove) == Unpin(old(State()), key)
    {
      if key !in entries {
        return None;
      }
      var entry := entries[key].(readers := SubWrap(U32, entries[key].readers, 1));
      entries := entries[key := entry];
      if entry.status != Removing || entry.readers > 0 {
        return None;
      }
      return Some(entry.size);
    }

    method PrepareRemoveEntry(key: Key) returns (code: Code, remove: Option<nat>)
      modifies this
      ensures (State(), code, remove) == PrepareRemove(old(State()), key)
    {
      if !initialized {
        return Inval, None;
      }
      if shuttingDown {
        return ShuttingDown, None;
      }
      if key !in entries {
        return KeyNotFound, None;
      }
      var entry := entries[key];
      if entry.status != Active {
        return KeyStateInvalid, None;
      }
      entries := entries[key := entry.(status := Removing)];
      remove := None;
      if entry.readers == 0 {
        remove := Some(entry.size);
        activeOps := AddWrap(U32, activeOps, 1);
      }
      code := Ok;
    }

    /** FinalizeRemoveEntry, and FinishSwapIn after its unlink. */
    method FinalizeRemoveEntry(key: Key, size: nat, removed: bool)
      modifies this, control
      ensures var (t, tell) := FinalizeRemove(old(State()), key, removed);
        && State() == t
        && control.State() == if tell then EntryRemoved(old(control.State()), size, size) else old(control.State())
    {
      if key !in entries {
        return;
      }
      if removed {
        control.OnEntryRemoved(size, size);
        entries := entries - {key};
      } else {
        entries := entries[key := entries[key].(status := Active)];
      }
    }

    /** Collects all entries, in whatever order the table yields them. */
    method CollectRemovableEntries() returns (code: Code, items: seq<Item>)
      modifies this
      ensures (State(), code) == CollectAll(old(State()))
      ensures code == Ok ==> Lists(items, old(entries))
      ensures code != Ok ==> items == []
    {
      items := [];
      if !initialized {
        return Inval, items;
      }
      if shuttingDown {
        return ShuttingDown, items;
      }
      if activeOps > 0 {
        return Busy, items;
      }
      items := ListEntries();
      MarkEntries();
      ListsEmpty(items, old(entries));
      if |items| > 0 {
        removeAllInProgress := true;
        activeOps := AddWrap(U32, activeOps, 1);
      }
      code := Ok;
    }

    /** Its first loop. */
    method ListEntries() returns (items: seq<Item>)
      ensures Lists(items, entries)
    {
      items := [];
      var rest := entries.Keys;
      while rest != {}
        invariant rest <= entries.Keys
        invariant forall i :: 0 <= i < |items| ==>
                    items[i].key in entries && items[i].key !in rest && items[i].size == entries[items[i].key].size
        invariant forall i, j :: 0 <= i < j < |items| ==> items[i].key != items[j].key
        invariant forall k :: k in entries && k !in rest ==> exists i :: 0 <= i < |items| && items[i].key == k
      {
        var key :| key in rest;
        ghost var before := items;
        items := items + [Item(key, entries[key].size)];
        rest := rest - {key};
        assert items[|before|].key == key;
        assert forall i :: 0 <= i < |before| ==> items[i] == before[i];
      }
    }

    /** Its second loop. */
    method MarkEntries()
      modifies this
      ensures State() == old(State()).(entries := MarkAllRemoving(old(entries)))
    {
      var collected := entries;
      var rest := entries.Keys;
      while rest != {}
        invariant State() == old(State()).(entries := entries)
        invariant rest <= collected.Keys == entries.Keys
        invariant forall k :: k in rest ==> entries[k] == collected[k]
        invariant forall k :: k in collected && k !in rest ==> entries[k] == collected[k].(status := Removing)
      {
        var key :| key in rest;
        entries := entries[key := entries[key].(status := Removing)];
        rest := rest - {key};
      }
      assert entries == MarkAllRemoving(collected);
    }

    /** The last critical section of RemoveAllData: one result for each collected item. */
    method FinalizeRemoveAll(items: seq<Item>, results: seq<bool>)
      requires |results| == |items|
      modifies this, control
      ensures (State(), control.State()) ==
              (EndRemoveAll(SettleAll(old(State()), old(control.State()), items, results).0),
               SettleAll(old(State()), old(control.State()), items, results).1)
    {
      var index := 0;
      while index < |items|
        invariant 0 <= index <= |items|
        invariant SettleAll(State(), control.State(), items[index..], results[index..])
                  == SettleAll(old(State()), old(control.State()), items, results)
      {
        assert items[index..][1..] == items[index + 1..] && results[index..][1..] == results[index + 1..];
        FinalizeRemoveEntry(items[index].key, items[index].size, results[index]);
        index := index + 1;
      }
      removeAllInProgress := false;
    }

    method MarkShuttingDown()
      modifies this
      ensures State() == ManagerSpec.MarkShuttingDown(old(State()))
    {
      shuttingDown := true;
    }

    /** The last critical section of Destroy, after the wait for running operations. */
    method FinishDestroy(clean: bool) returns (code: Code)
      modifies this, control
      ensures (State(), code) == ManagerSpec.FinishDestroy(old(State()), clean)
      ensures control.State() == if clean then AllEntriesRemoved(old(control.State())) else old(control.State())
    {
      if !clean {
        shuttingDown := false;
        return Busy;
      }
      entries := map[];
      control.OnAllEntriesRemoved();
      initialized, shuttingDown := false, false;
      return Ok;
    }
  }

  lemma ListsEmpty(items: seq<Item>, entries: map<Key, Entry>)
    requires Lists(items, entries)
    ensures items == [] <==> entries == map[]
  {
    if items != [] {
      assert items[0].key in entries;
    }
    if entries != map[] {
      var k :| k in entries;
    }
  }

  /** Settles a list of removals one after the other. */
  function SettleAll(t: Table, q: Quota, items: seq<Item>, results: seq<bool>): (Table, Quota)
    requires |results| == |items|
    decreases |items|
  {
    if items == [] then (t, q) else
    var (t', tell) := FinalizeRemove(t, items[0].key, results[0]);
    SettleAll(t', if tell then EntryRemoved(q, items[0].size, items[0].size) else q, items[1..], results[1..])
  }

  /** What settling does to the entry of one key. */
  ghost predicate SettledAt(t: Table, t': Table, items: seq<Item>, results: seq<bool>, k: Key)
    requires |results| == |items|
  {
    && (forall i :: 0 <= i < |items| && items[i].key == k ==>
          if results[i] then k !in t'.entries
          else k in t.entries && k in t'.entries && t'.entries[k] == t.entries[k].(status := Active))
    && ((forall i :: 0 <= i < |items| ==> items[i].key != k) ==>
          (k in t'.entries <==> k in t.entries) && (k in t.entries ==> t'.entries[k] == t.entries[k]))
  }

  predicate DistinctKeys(items: seq<Item>) {
    forall i, j :: 0 <= i < j < |items| ==> items[i].key != items[j].key
  }

  /** After RemoveAllData has settled its list, exactly the entries whose files could not be
      deleted are left, active again; the order of the list does not matter. */
  lemma {:induction false} SettleAllMeaning(t: Table, q: Quota, items: seq<Item>, results: seq<bool>)
    requires |results| == |items| && DistinctKeys(items)
    requires forall i :: 0 <= i < |items| ==> items[i].key in t.entries
    ensures var t' := SettleAll(t, q, items, results).0;
      t' == t.(entries := t'.entries) && forall k :: SettledAt(t, t', items, results, k)
    decreases |items|
  {
    hide SettledAt;
    if items == [] {
      forall k ensures SettledAt(t, t, items, results, k) {
        NothingSettled(t, results, k);
      }
    } else {
      var (t1, tell) := FinalizeRemove(t, items[0].key, results[0]);
      var q1 := if tell then EntryRemoved(q, items[0].size, items[0].size) else q;
      SettleAllMeaning(t1, q1, items[1..], results[1..]);
      var t' := SettleAll(t, q, items, results).0;
      forall k ensures SettledAt(t, t', items, results, k) {
        FirstSettled(t, t1, t', items, results, k);
      }
    }
  }

  lemma NothingSettled(t: Table, results: seq<bool>, k: Key)
    requires results == []
    ensures SettledAt(t, t, [], results, k)
  {
  }

  lemma FirstSettled(t: Table, t1: Table, t': Table, items: seq<Item>, results: seq<bool>, k: Key)
    requires |results| == |items| > 0 && DistinctKeys(items) && items[0].key in t.entries
    requires t1 == FinalizeRemove(t, items[0].key, results[0]).0
    requires SettledAt(t1, t', items[1..], results[1..], k)
    ensures SettledAt(t, t', items, results, k)
  {
    assert forall i :: 1 <= i < |items| ==> items[i] == items[1..][i - 1] && results[i] == results[1..][i - 1];
  }

  /** Removing all data when no file can be deleted leaves the table as it was. */
  lemma {:induction false} FailedRemoveAllRestores(t: Table, q: Quota, items: seq<Item>, results: seq<bool>)
    requires t.activeOps == 0 && !t.removeAll && CollectAll(t).1 == Ok && Lists(items, t.entries) && items != []
    requires forall k :: k in t.entries ==> t.entries[k].status == Active
    requires |results| == |items| && forall i :: 0 <= i < |results| ==> !results[i]
    ensures EndOperation(EndRemoveAll(SettleAll(CollectAll(t).0, q, items, results).0)) == t
  {
    hide SettleAll, EntryRemoved;
    ListsEmpty(items, t.entries);
    var marked := CollectAll(t).0;
    var t' := SettleAll(marked, q, items, results).0;
    SettleAllMeaning(marked, q, items, results);
    forall k ensures (k in t'.entries <==> k in t.entries) && (k in t.entries ==> t'.entries[k] == t.entries[k]) {
      assert SettledAt(marked, t', items, results, k);
      if k in t.entries {
        var i :| 0 <= i < |items| && items[i].key == k;
        assert !results[i] && marked.entries[k] == t.entries[k].(status := Removing);
      } else {
        assert forall i :: 0 <= i < |items| ==> items[i].key != k;
      }
    }
    assert t'.entries == t.entries;
  }
}
