/** The quota controller as the object it is.  Its methods are the sections that run under the state
    lock; they say what they do for the bounds on the store, and each leaves exactly the state that
    the specification function of the protocol gives. */
module ProxyControl {
  import opened SwapTypes
  import opened QuotaSpec

  class ProxySwapControl {
    var intervalMs: nat
    var totalKeys: nat
    var totalDataSize: nat
    var totalOccupiedSize: nat
    var pendingOccupiedSize: nat
    var committedSinceSpaceCheckBytes: nat
    var spaceLimitBytes: nat
    var featureEnabled: bool
    var disableReason: DisableReason
    var accumulatedWriteBytes: nat
    var lastSpaceCheckTime: int
    var availableDeviceSpace: nat
    var hasProxy: bool
    var proxyUnavailable: bool
    ghost var history: CommitHistory

    function State(): Quota
      reads this
    {
      Quota(intervalMs, totalKeys, totalDataSize, totalOccupiedSize, pendingOccupiedSize,
            committedSinceSpaceCheckBytes, spaceLimitBytes, featureEnabled, disableReason,
            accumulatedWriteBytes, lastSpaceCheckTime, availableDeviceSpace, hasProxy, proxyUnavailable)
    }

    /** The bounds hold, and the bytes counted since the last answer are those of the history. */
    ghost predicate Valid()
      reads this
    {
      QuotaInv(State(), history)
    }

    /** What the device could still take, not counting what is on its way there. */
    ghost function Room(): int
      reads this
    {
      availableDeviceSpace - MIN_AVAILABLE_SPACE - pendingOccupiedSize - committedSinceSpaceCheckBytes
    }

    constructor (limit: nat, interval: nat, now: int, ipc: Ipc)
      ensures State() == InitQuota(limit, interval, now, ipc)
      ensures history == CommitHistory([], 0)
      ensures limit < U64 ==> Valid()
      ensures featureEnabled <==> Room() >= 0
    {
      var available := 0;
      if ipc.FreeSize? {
        available := ToUnsigned64(ipc.size);
      }
      hasProxy, proxyUnavailable := !ipc.NoProxy?, ipc.NoProxy?;
      totalKeys, totalDataSize, totalOccupiedSize := 0, 0, 0;
      pendingOccupiedSize, committedSinceSpaceCheckBytes, accumulatedWriteBytes := 0, 0, 0;
      spaceLimitBytes := if limit == 0 then DEFAULT_SPACE_LIMIT else limit;
      featureEnabled, disableReason := true, NoReason;
      lastSpaceCheckTime, intervalMs, availableDeviceSpace := now, interval, available;
      if available < MIN_AVAILABLE_SPACE {
        featureEnabled, disableReason := false, NoSpace;
      }
      history := CommitHistory([], 0);
    }

    /** The refresh up to the point where it drops the state lock for its IPC: the snapshot it takes
        stands for the commits made so far. */
    method BeginRefresh(now: int) returns (due: bool, committedAtStart: nat)
      ensures due <==> RefreshDue(State(), now)
      ensures due && Valid() ==> SnapshotOk(State(), history, Snapshot(now, committedAtStart, |history.commits|))
    {
      committedAtStart := 0;
      if intervalMs > 0 && now - lastSpaceCheckTime < intervalMs {
        return false, committedAtStart;
      }
      committedAtStart := committedSinceSpaceCheckBytes;
      due := true;
    }

    /** The refresh from its IPC on: if it is answered, just the commits since its snapshot count. */
    method FinishRefresh(now: int, committedAtStart: nat, ipc: Ipc, ghost start: nat)
      modifies this
      ensures State() == EndRefresh(old(State()), Snapshot(now, committedAtStart, start), ipc)
      ensures old(Valid() && SnapshotOk(State(), history, Snapshot(now, committedAtStart, start))) ==>
                && Valid() && history.commits == old(history.commits)
                && history.since == (if Answered(old(State()), ipc) then start else old(history.since))
    {
      hide QuotaInv, SnapshotOk, SumFrom;
      ghost var before, commits, r := State(), history, Snapshot(now, committedAtStart, start);
      var refreshed, refreshedSpace := false, 0;
      if !proxyUnavailable {
        if ipc.NoProxy? {
          proxyUnavailable := true;
        } else {
          hasProxy := true;
          if ipc.FreeSize? {
            refreshed, refreshedSpace := true, ToUnsigned64(ipc.size);
          }
        }
      }
      if refreshed {
        availableDeviceSpace := refreshedSpace;
        committedSinceSpaceCheckBytes := ClampSub(committedSinceSpaceCheckBytes, committedAtStart);
        history := history.(since := start);
      }
      lastSpaceCheckTime := now;
      featureEnabled := availableDeviceSpace >= MIN_AVAILABLE_SPACE;
      disableReason := if featureEnabled then NoReason else NoSpace;
      assert State() == EndRefresh(before, r, ipc);
      hide EndRefresh;
      if QuotaInv(before, commits) && SnapshotOk(before, commits, r) {
        EndRefreshMeaning(before, commits, r, ipc);
      }
    }

    /** Grants a reservation exactly when limit and device have room for it. */
    method ReserveSwapOut(occupiedSize: nat) returns (code: Code)
      modifies this
      ensures (State(), code) == Reserve(old(State()), occupiedSize) && history == old(history)
      ensures old(Valid()) ==>
                && Valid()
                && (code == Ok <==>
                      && old(Room()) >= occupiedSize
                      && old(totalOccupiedSize + pendingOccupiedSize) + occupiedSize <= spaceLimitBytes)
                && (code == Ok ==> pendingOccupiedSize == old(pendingOccupiedSize) + occupiedSize)
    {
      if !featureEnabled {
        return NoSpc;
      }
      var usedSize := AddWrap(U64, totalOccupiedSize, pendingOccupiedSize);
      if usedSize > spaceLimitBytes || occupiedSize > spaceLimitBytes - usedSize {
        return QuotaExceeded;
      }
      var writableSpace := SubWrap(U64, availableDeviceSpace, MIN_AVAILABLE_SPACE);
      var inFlightSpace := AddWrap(U64, pendingOccupiedSize, committedSinceSpaceCheckBytes);
      if inFlightSpace < pendingOccupiedSize || inFlightSpace > writableSpace
         || occupiedSize > writableSpace - inFlightSpace {
        return NoSpc;
      }
      pendingOccupiedSize := AddWrap(U64, pendingOccupiedSize, occupiedSize);
      return Ok;
    }

    /** Gives a reservation back. */
    method CancelReservedSwapOut(occupiedSize: nat)
      modifies this
      ensures State() == CancelReserved(old(State()), occupiedSize) && history == old(history)
      ensures old(Valid()) ==> Valid()
      ensures occupiedSize <= old(pendingOccupiedSize) ==> Room() == old(Room()) + occupiedSize
    {
      pendingOccupiedSize := ClampSub(pendingOccupiedSize, occupiedSize);
    }

    /** Turns a reservation into stored bytes: what the device can still take stays as it was. */
    method OnSwapOutCommitted(dataSize: nat, occupiedSize: nat)
      modifies this
      ensures State() == SwapOutCommitted(old(State()), dataSize, occupiedSize)
      ensures history == old(history.(commits := history.commits + [occupiedSize]))
      ensures old(Valid()) && 0 < dataSize == occupiedSize <= old(pendingOccupiedSize) ==>
                && Valid() && Room() == old(Room())
                && totalOccupiedSize + pendingOccupiedSize == old(totalOccupiedSize + pendingOccupiedSize)
                && forall r :: old(SnapshotOk(State(), history, r)) ==> SnapshotOk(State(), history, r)
    {
      hide QuotaInv, SnapshotOk, SumFrom, AddWrap, ClampSub;
      ghost var before, commits := State(), history;
      pendingOccupiedSize := ClampSub(pendingOccupiedSize, occupiedSize);
      totalKeys := AddWrap(U64, totalKeys, 1);
      totalDataSize := AddWrap(U64, totalDataSize, dataSize);
      totalOccupiedSize := AddWrap(U64, totalOccupiedSize, occupiedSize);
      accumulatedWriteBytes := AddWrap(U64, accumulatedWriteBytes, occupiedSize);
      committedSinceSpaceCheckBytes := AddWrap(U64, committedSinceSpaceCheckBytes, occupiedSize);
      history := history.(commits := history.commits + [occupiedSize]);
      assert State() == SwapOutCommitted(before, dataSize, occupiedSize);
      hide SwapOutCommitted;
      if QuotaInv(before, commits) && 0 < dataSize == occupiedSize <= before.pending {
        CommitMeaning(before, commits, occupiedSize);
        forall r | SnapshotOk(before, commits, r) ensures SnapshotOk(State(), history, r) {
          CommitKeepsSnapshot(before, commits, r, occupiedSize);
        }
      }
    }

    /** Takes an entry's bytes out of the totals; on the device they still count as committed. */
    method OnEntryRemoved(dataSize: nat, occupiedSize: nat)
      modifies this
      ensures State() == EntryRemoved(old(State()), dataSize, occupiedSize) && history == old(history)
      ensures old(Valid()) && 0 < dataSize == occupiedSize && 0 < old(totalKeys)
              && old(totalKeys) - 1 + occupiedSize <= old(totalOccupiedSize) ==>
                Valid() && totalOccupiedSize == old(totalOccupiedSize) - occupiedSize && Room() == old(Room())
    {
      if totalKeys > 0 {
        totalKeys := totalKeys - 1;
      }
      totalDataSize := ClampSub(totalDataSize, dataSize);
      totalOccupiedSize := ClampSub(totalOccupiedSize, occupiedSize);
    }

    method OnAllEntriesRemoved()
      modifies this
      ensures State() == AllEntriesRemoved(old(State())) && history == old(history)
      ensures old(Valid()) ==> Valid() && Room() == old(Room())
    {
      totalKeys, totalDataSize, totalOccupiedSize := 0, 0, 0;
    }
  }
}
