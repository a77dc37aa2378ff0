/**
 The quota controller, one function for each section of its code that runs under
 the state lock.  Counters are 64-bit: additions and subtractions that the
 controller leaves unguarded wrap around.
 */
module QuotaSpec {
  import opened SwapTypes

  datatype DisableReason = NoReason | NoSpace

  datatype Quota = Quota(
    intervalMs: nat,
    totalKeys: nat,
    totalDataSize: nat,
    totalOccupied: nat,
    pending: nat,
    committedSince: nat,
    spaceLimit: nat,
    featureEnabled: bool,
    disableReason: DisableReason,
    accumulated: nat,
    lastCheck: int,
    available: nat,
    hasProxy: bool,
    proxyUnavailable: bool)

  /** What asking the storage manager for its free space may come to. */
  datatype Ipc = NoProxy | CallFailed | FreeSize(size: int)

  /** The values a refresh notes before it drops the state lock for its IPC;
      `start` is the length of the commit history at that moment. */
  datatype Snapshot = Snapshot(now: int, committedAtStart: nat, start: nat)

  /** The sizes committed so far, and the position from which the last successful
      refresh (or the initialisation) counts them. */
  datatype CommitHistory = CommitHistory(commits: seq<nat>, since: nat)

  function InitQuota(limit: nat, intervalMs: nat, now: int, ipc: Ipc): Quota {
    var available := if ipc.FreeSize? then ToUnsigned64(ipc.size) else 0;
    var enabled := available >= MIN_AVAILABLE_SPACE;
    Quota(intervalMs, 0, 0, 0, 0, 0, if limit == 0 then DEFAULT_SPACE_LIMIT else limit,
          enabled, if enabled then NoReason else NoSpace, 0, now, available,
          !ipc.NoProxy?, ipc.NoProxy?)
  }

  /** The first critical section of a refresh: is the last check recent enough? */
  predicate RefreshDue(q: Quota, now: int) {
    !(q.intervalMs > 0 && now - q.lastCheck < q.intervalMs)
  }

  /** Once a proxy is held, looking it up cannot fail any more. */
  predicate PossibleIpc(q: Quota, ipc: Ipc) {
    q.hasProxy ==> !ipc.NoProxy?
  }

  /** The refresh asks, and gets an answer. */
  predicate Answered(q: Quota, ipc: Ipc) {
    !q.proxyUnavailable && ipc.FreeSize?
  }

  /** A refresh from its IPC on, which it leaves out if the proxy was found unavailable before. */
  function EndRefresh(q: Quota, r: Snapshot, ipc: Ipc): Quota {
    var available := if Answered(q, ipc) then ToUnsigned64(ipc.size) else q.available;
    var since := if !Answered(q, ipc) then q.committedSince
                 else ClampSub(q.committedSince, r.committedAtStart);
    var enabled := available >= MIN_AVAILABLE_SPACE;
    q.(available := available, committedSince := since, lastCheck := r.now,
       featureEnabled := enabled, disableReason := if enabled then NoReason else NoSpace,
       hasProxy := q.hasProxy || (!q.proxyUnavailable && !ipc.NoProxy?),
       proxyUnavailable := q.proxyUnavailable || ipc.NoProxy?)
  }

  function CheckSwapOutAllowed(q: Quota, size: nat): Code {
    if !q.featureEnabled then NoSpc else
    var used := AddWrap(U64, q.totalOccupied, q.pending);
    if used > q.spaceLimit || size > q.spaceLimit - used then QuotaExceeded else
    var writable := SubWrap(U64, q.available, MIN_AVAILABLE_SPACE);
    var inFlight := AddWrap(U64, q.pending, q.committedSince);
    if inFlight < q.pending || inFlight > writable || size > writable - inFlight then NoSpc else Ok
  }

  function Reserve(q: Quota, size: nat): (Quota, Code) {
    var code := CheckSwapOutAllowed(q, size);
    if code == Ok then (q.(pending := AddWrap(U64, q.pending, size)), Ok) else (q, code)
  }

  function ClampSub(a: nat, b: nat): nat {
    if a >= b then a - b else 0
  }

  function CancelReserved(q: Quota, size: nat): Quota {
    q.(pending := ClampSub(q.pending, size))
  }

  function SwapOutCommitted(q: Quota, dataSize: nat, occupied: nat): Quota {
    q.(pending := ClampSub(q.pending, occupied),
       totalKeys := AddWrap(U64, q.totalKeys, 1),
       totalDataSize := AddWrap(U64, q.totalDataSize, dataSize),
       totalOccupied := AddWrap(U64, q.totalOccupied, occupied),
       accumulated := AddWrap(U64, q.accumulated, occupied),
       committedSince := AddWrap(U64, q.committedSince, occupied))
  }

  function EntryRemoved(q: Quota, dataSize: nat, occupied: nat): Quota {
    q.(totalKeys := ClampSub(q.totalKeys, 1),
       totalDataSize := ClampSub(q.totalDataSize, dataSize),
       totalOccupied := ClampSub(q.totalOccupied, occupied))
  }

  function AllEntriesRemoved(q: Quota): Quota {
    q.(totalKeys := 0, totalDataSize := 0, totalOccupied := 0)
  }

  // ----- What every section keeps -----

  ghost predicate QuotaInv(q: Quota, h: CommitHistory) {
    && 0 < q.spaceLimit < U64
    && q.available < U64
    && (q.featureEnabled <==> q.available >= MIN_AVAILABLE_SPACE)
    && (q.disableReason == NoReason <==> q.featureEnabled)
    && q.totalOccupied + q.pending <= q.spaceLimit
    && q.totalDataSize == q.totalOccupied
    && q.totalKeys <= q.totalOccupied
    && q.pending + q.committedSince + MIN_AVAILABLE_SPACE < U64
    && h.since <= |h.commits|
    && q.committedSince == SumFrom(h.commits, h.since)
  }

  /** A refresh in flight: what it noted plus what was committed since is the counter. */
  ghost predicate SnapshotOk(q: Quota, h: CommitHistory, r: Snapshot) {
    && h.since <= r.start <= |h.commits|
    && q.committedSince == r.committedAtStart + SumFrom(h.commits, r.start)
  }

  lemma InitKeepsQuota(limit: nat, intervalMs: nat, now: int, ipc: Ipc)
    requires limit < U64
    ensures QuotaInv(InitQuota(limit, intervalMs, now, ipc), CommitHistory([], 0))
  {
    assert SumFrom([], 0) == 0;
  }

  /** A reservation is granted exactly when both the quota and the device have room for it,
      measured in unbounded integers, and then it keeps the bounds. */
  lemma ReserveMeaning(q: Quota, h: CommitHistory, size: nat)
    requires QuotaInv(q, h)
    ensures var (q', code) := Reserve(q, size);
      && (code == Ok <==>
           && q.available >= MIN_AVAILABLE_SPACE
           && q.totalOccupied + q.pending + size <= q.spaceLimit
           && q.pending + q.committedSince + size <= q.available - MIN_AVAILABLE_SPACE)
      && (code == Ok ==> q' == q.(pending := q.pending + size))
      && (code != Ok ==> q' == q && (code == NoSpc || code == QuotaExceeded))
      && QuotaInv(q', h)
  {
  }

  /** The counter restarts at exactly the bytes committed after the answered refresh began,
      and its guarded subtraction never has to clamp. */
  lemma EndRefreshMeaning(q: Quota, h: CommitHistory, r: Snapshot, ipc: Ipc)
    requires QuotaInv(q, h) && SnapshotOk(q, h, r)
    ensures q.committedSince >= r.committedAtStart
    ensures var q' := EndRefresh(q, r, ipc);
      && QuotaInv(q', if Answered(q, ipc) then h.(since := r.start) else h)
      && (Answered(q, ipc) ==> q'.committedSince == SumFrom(h.commits, r.start)
                               && q'.available == ToUnsigned64(ipc.size))
      && (!Answered(q, ipc) ==> q'.committedSince == q.committedSince && q'.available == q.available)
  {
  }

  lemma CommitMeaning(q: Quota, h: CommitHistory, size: nat)
    requires QuotaInv(q, h)
    requires 0 < size <= q.pending
    ensures var q' := SwapOutCommitted(q, size, size);
      && QuotaInv(q', h.(commits := h.commits + [size]))
      && q'.pending == q.pending - size
      && q'.totalOccupied == q.totalOccupied + size
      && q'.totalKeys == q.totalKeys + 1
      && q'.committedSince == q.committedSince + size
      && q'.available == q.available
  {
    SumFromAppend(h.commits, size, h.since);
  }

  /** A commit that happens while a refresh waits for its answer does not disturb it. */
  lemma CommitKeepsSnapshot(q: Quota, h: CommitHistory, r: Snapshot, size: nat)
    requires QuotaInv(q, h) && SnapshotOk(q, h, r)
    requires 0 < size <= q.pending
    ensures SnapshotOk(SwapOutCommitted(q, size, size), h.(commits := h.commits + [size]), r)
  {
    SumFromAppend(h.commits, size, r.start);
  }

  lemma RemoveMeaning(q: Quota, h: CommitHistory, size: nat)
    requires QuotaInv(q, h)
    requires 0 < size <= q.totalOccupied
    requires 0 < q.totalKeys && q.totalKeys - 1 <= q.totalOccupied - size
    ensures QuotaInv(EntryRemoved(q, size, size), h)
    ensures EntryRemoved(q, size, size) ==
            q.(totalKeys := q.totalKeys - 1, totalDataSize := q.totalDataSize - size,
               totalOccupied := q.totalOccupied - size)
  {
  }

  /** Cancelling a reservation undoes it. */
  lemma CancelUndoesReserve(q: Quota, h: CommitHistory, size: nat)
    requires QuotaInv(q, h) && Reserve(q, size).1 == Ok
    ensures CancelReserved(Reserve(q, size).0, size) == q
  {
  }

  /** Reserving, committing and removing an entry leaves the totals as they were; only the bytes
      written to the device since its last answer stay counted. */
  lemma RemoveUndoesCommit(q: Quota, h: CommitHistory, size: nat)
    requires QuotaInv(q, h) && size > 0 && Reserve(q, size).1 == Ok
    ensures EntryRemoved(SwapOutCommitted(Reserve(q, size).0, size, size), size, size)
            == q.(accumulated := AddWrap(U64, q.accumulated, size), committedSince := q.committedSince + size)
  {
    ReserveMeaning(q, h, size);
  }
}
