/**
 The table of file-descriptor tags: 128 entries in place and an overflow table that the first
 access beyond them maps and publishes by compare-and-swap.  Any number of threads get and set
 tags; a step is one atomic access, one `mmap` or `munmap`, or the store of a new table's length.
 */
module FdTag {
  import opened SwapTypes

  type Tag = nat

  const FD_SAN_TABLE_SIZE: nat := 128
  const FD_SAN_OVERFLOW_END: nat := 2048
  const ALIGN_SIZE: nat := 4096
  const SIZEOF_ENTRY: nat := 8
  const SIZEOF_HEADER: nat := 8

  /** The least multiple of `y` that is at least `x`. */
  function Align(x: nat, y: nat): nat
    requires y > 0
  {
    (x + y - 1) / y * y
  }

  const OVERFLOW_COUNT: nat := FD_SAN_OVERFLOW_END - FD_SAN_TABLE_SIZE
  const ALIGNED_SIZE: nat := Align(SIZEOF_HEADER + OVERFLOW_COUNT * SIZEOF_ENTRY, ALIGN_SIZE)
  const ALIGNED_COUNT: nat := (ALIGNED_SIZE - SIZEOF_HEADER) / SIZEOF_ENTRY

  /** The page alignment never makes the table too short. */
  lemma AlignedCountSuffices()
    ensures OVERFLOW_COUNT <= ALIGNED_COUNT
    ensures SIZEOF_HEADER + ALIGNED_COUNT * SIZEOF_ENTRY <= ALIGNED_SIZE
    ensures ALIGNED_SIZE % ALIGN_SIZE == 0
  {
  }

  datatype Op = Get(fd: int) | Set(fd: int, tag: Tag)

  /** A mapped overflow table; fresh mappings are zeroed. */
  datatype Table = Table(len: nat, tags: seq<Tag>, mapped: bool)

  /** Where a thread is in an access; `since` is the length of the history when it was called. */
  datatype Pc =
    | Idle
    | Load(op: Op, since: nat)
    | Map(op: Op, since: nat)
    | Fill(op: Op, since: nat, t: nat)
    | Swap(op: Op, since: nat, t: nat)
    | Unmap(op: Op, since: nat, t: nat, seen: nat)
    | Check(op: Op, since: nat, seen: nat)
    | Access(op: Op, since: nat, place: Option<nat>)
    | Return(op: Op, since: nat, at: nat)
    | Dropped(op: Op)

  datatype Action = Call(op: Op) | Proceed | Fails

  /** An access that took effect, and the value a get returns. */
  datatype Event = Event(thread: nat, op: Op, value: Tag)

  datatype State = State(
    entries: seq<Tag>,
    overflow: Option<nat>,
    tables: seq<Table>,
    threads: seq<Pc>,
    log: seq<Event>,
    returned: seq<seq<Event>>)

  // ----- Steps -----

  function Go(s: State, i: nat, pc: Pc): State
    requires i < |s.threads|
  {
    s.(threads := s.threads[i := pc])
  }

  function CallStep(s: State, i: nat, op: Op): State
    requires i < |s.threads|
  {
    if op.fd < 0 || op.fd >= FD_SAN_OVERFLOW_END then Go(s, i, Dropped(op))
    else if op.fd < FD_SAN_TABLE_SIZE then Go(s, i, Access(op, |s.log|, None))
    else Go(s, i, Load(op, |s.log|))
  }

  /** Getting hold of the overflow table: load it, or map one and try to publish it. */
  function TableStep(s: State, i: nat, a: Action): Option<State>
    requires i < |s.threads|
  {
    match s.threads[i]
    case Load(op, since) =>
      if !a.Proceed? then None
      else Some(Go(s, i, if s.overflow.Some? then Check(op, since, s.overflow.value) else Map(op, since)))
    case Map(op, since) =>
      if a.Fails? then Some(Go(s, i, Dropped(op)))
      else if !a.Proceed? then None
      else
        var zeroed := Table(0, seq(ALIGNED_COUNT, _ => 0), true);
        Some(Go(s.(tables := s.tables + [zeroed]), i, Fill(op, since, |s.tables|)))
    case Fill(op, since, t) =>
      if !a.Proceed? || t >= |s.tables| then None
      else Some(Go(s.(tables := s.tables[t := s.tables[t].(len := ALIGNED_COUNT)]), i, Swap(op, since, t)))
    case Swap(op, since, t) =>
      if !a.Proceed? then None
      else if s.overflow.Some? then Some(Go(s, i, Unmap(op, since, t, s.overflow.value)))
      else Some(Go(s.(overflow := Some(t)), i, Check(op, since, t)))
    case Unmap(op, since, t, seen) =>
      if !a.Proceed? || t >= |s.tables| then None
      else Some(Go(s.(tables := s.tables[t := s.tables[t].(mapped := false)]), i, Check(op, since, seen)))
    case Check(op, since, seen) =>
      if !a.Proceed? || seen >= |s.tables| then None
      else Some(Go(s, i, if s.tables[seen].len <= op.fd - FD_SAN_TABLE_SIZE then Dropped(op)
                         else Access(op, since, Some(seen))))
    case _ => None
  }

  /** The atomic load or store of the tag itself. */
  function AccessStep(s: State, i: nat, op: Op, since: nat, place: Option<nat>): Option<State>
    requires i < |s.threads|
  {
    var offset := if place.None? then op.fd else op.fd - FD_SAN_TABLE_SIZE;
    if (place.Some? && place.value >= |s.tables|) then None else
    var tags := if place.None? then s.entries else s.tables[place.value].tags;
    if !(0 <= offset < |tags|) then None else
    var tags' := if op.Set? then tags[offset := op.tag] else tags;
    var e := Event(i, op, if op.Get? then tags[offset] else 0);
    var s' := if place.None? then s.(entries := tags')
              else s.(tables := s.tables[place.value := s.tables[place.value].(tags := tags')]);
    Some(Go(s'.(log := s.log + [e]), i, Return(op, since, |s.log|)))
  }

  function Apply(s: State, i: nat, a: Action): Option<State> {
    if i >= |s.threads| || |s.returned| != |s.threads| then None else
    match s.threads[i]
    case Idle => if a.Call? then Some(CallStep(s, i, a.op)) else None
    case Access(op, since, place) => if a.Proceed? then AccessStep(s, i, op, since, place) else None
    case Return(op, since, at) =>
      if !a.Proceed? || at >= |s.log| then None
      else Some(Go(s.(returned := s.returned[i := s.returned[i] + [s.log[at]]]), i, Idle))
    case Dropped(op) => if a.Proceed? then Some(Go(s, i, Idle)) else None
    case _ => TableStep(s, i, a)
  }

  ghost predicate Init(s: State) {
    && s.entries == seq(FD_SAN_TABLE_SIZE, _ => 0)
    && s.overflow == None && s.tables == [] && s.log == []
    && |s.returned| == |s.threads|
    && (forall i :: 0 <= i < |s.threads| ==> s.threads[i] == Idle && s.returned[i] == [])
  }

  ghost predicate IsRun(run: seq<State>) {
    && |run| > 0 && Init(run[0])
    && forall n :: 0 <= n < |run| - 1 ==> exists i: nat, a: Action :: Apply(run[n], i, a) == Some(run[n + 1])
  }

  // ----- The plain map the table stands for -----

  /** The value of a tag after a history of accesses: that of the last set, zero if there is none. */
  function Latest(log: seq<Event>, fd: int): Tag {
    if log == [] then 0
    else
      var e := log[|log| - 1];
      if e.op.Set? && e.op.fd == fd then e.op.tag else Latest(log[..|log| - 1], fd)
  }

  /** A sequential history of a map from descriptors to tags, all zero at first. */
  ghost predicate Legal(log: seq<Event>) {
    forall n | 0 <= n < |log| && log[n].op.Get? :: log[n].value == Latest(log[..n], log[n].op.fd)
  }

  function ByThread(log: seq<Event>, i: nat): seq<Event> {
    if log == [] then []
    else
      var e := log[|log| - 1];
      ByThread(log[..|log| - 1], i) + if e.thread == i then [e] else []
  }

  predicate InRange(fd: int) {
    0 <= fd < FD_SAN_OVERFLOW_END
  }

  /** What the table holds for a descriptor. */
  function TagOf(s: State, fd: int): Tag
    requires InRange(fd) && |s.entries| == FD_SAN_TABLE_SIZE
    requires s.overflow.Some? ==> s.overflow.value < |s.tables| && |s.tables[s.overflow.value].tags| == ALIGNED_COUNT
  {
    if fd < FD_SAN_TABLE_SIZE then s.entries[fd]
    else if s.overflow.None? then 0
    else s.tables[s.overflow.value].tags[fd - FD_SAN_TABLE_SIZE]
  }

  // ----- The invariant -----

  predicate Owns(pc: Pc, t: nat) {
    (pc.Fill? || pc.Swap? || pc.Unmap?) && pc.t == t
  }

  ghost predicate ThreadOk(s: State, i: nat)
    requires i < |s.threads| == |s.returned|
  {
    var pc := s.threads[i];
    && (!pc.Idle? && !pc.Dropped? ==> InRange(pc.op.fd) && pc.since <= |s.log|)
    && (pc.Load? || pc.Map? || pc.Fill? || pc.Swap? || pc.Unmap? || pc.Check? ==> pc.op.fd >= FD_SAN_TABLE_SIZE)
    && (pc.Fill? || pc.Swap? || pc.Unmap? ==>
          && pc.t < |s.tables| && s.tables[pc.t].mapped && s.overflow != Some(pc.t)
          && s.tables[pc.t].tags == seq(ALIGNED_COUNT, _ => 0)
          && (!pc.Fill? ==> s.tables[pc.t].len == ALIGNED_COUNT))
    && (pc.Check? || pc.Unmap? ==> s.overflow == Some(pc.seen))
    && (pc.Access? ==> if pc.op.fd < FD_SAN_TABLE_SIZE then pc.place == None else pc.place.Some? && pc.place == s.overflow)
    && (pc.Return? ==> pc.since <= pc.at < |s.log| && s.log[pc.at].op == pc.op)
    && ByThread(s.log, i) == s.returned[i] + if pc.Return? && pc.at < |s.log| then [s.log[pc.at]] else []
  }

  ghost predicate TableOk(s: State) {
    && |s.entries| == FD_SAN_TABLE_SIZE
    && |s.returned| == |s.threads|
    && (s.overflow.Some? ==>
          && s.overflow.value < |s.tables|
          && s.tables[s.overflow.value].mapped
          && s.tables[s.overflow.value].len == ALIGNED_COUNT
          && |s.tables[s.overflow.value].tags| == ALIGNED_COUNT)
  }

  ghost predicate Inv(s: State) {
    && TableOk(s)
    && (forall i :: 0 <= i < |s.threads| ==> ThreadOk(s, i))
    && (forall i, j, t | 0 <= i < |s.threads| && 0 <= j < |s.threads|
          && Owns(s.threads[i], t) && Owns(s.threads[j], t) :: i == j)
    && (forall fd | InRange(fd) :: TagOf(s, fd) == Latest(s.log, fd))
    && Legal(s.log)
  }

  lemma LocalStepKeeps(s: State, i: nat, a: Action, s': State)
    requires i < |s.threads| && !s.threads[i].Swap?
    requires TableStep(s, i, a) == Some(s')
    requires Inv(s)
    ensures Inv(s')
    ensures s'.log == s.log && (s.overflow.Some? ==> s'.overflow == s.overflow)
    ensures s'.threads[i].Dropped? ==> a.Fails?
  {
    hide ByThread, Latest, Legal;
    var pc := s.threads[i];
    assert ThreadOk(s, i);
    assert forall j | 0 <= j < |s.threads| && (s.threads[j].Fill? || s.threads[j].Swap? || s.threads[j].Unmap?) ::
        ThreadOk(s, j) && Owns(s.threads[j], s.threads[j].t);
    forall j | 0 <= j < |s'.threads| ensures ThreadOk(s', j) {
      assert ThreadOk(s, j);
      if pc.Fill? || pc.Swap? || pc.Unmap? {
        assert Owns(pc, pc.t);
      }
    }
    forall fd | InRange(fd) ensures TableOk(s') && TagOf(s', fd) == TagOf(s, fd) {
    }
  }

  lemma PublishKeeps(s: State, i: nat, a: Action, s': State)
    requires i < |s.threads| && s.threads[i].Swap?
    requires TableStep(s, i, a) == Some(s')
    requires Inv(s)
    ensures Inv(s')
    ensures s'.log == s.log && (s.overflow.Some? ==> s'.overflow == s.overflow)
    ensures s'.threads[i].Dropped? ==> a.Fails?
  {
    hide ByThread, Latest, Legal;
    var pc := s.threads[i];
    assert ThreadOk(s, i);
    assert forall j | 0 <= j < |s.threads| && (s.threads[j].Fill? || s.threads[j].Swap? || s.threads[j].Unmap?) ::
        ThreadOk(s, j) && Owns(s.threads[j], s.threads[j].t);
    forall j | 0 <= j < |s'.threads| ensures ThreadOk(s', j) {
      assert ThreadOk(s, j);
      if pc.Fill? || pc.Swap? || pc.Unmap? {
        assert Owns(pc, pc.t);
      }
    }
    forall fd | InRange(fd) ensures TableOk(s') && TagOf(s', fd) == TagOf(s, fd) {
    }
  }

  lemma TableStepKeeps(s: State, i: nat, a: Action, s': State)
    requires i < |s.threads|
    requires TableStep(s, i, a) == Some(s')
    requires Inv(s)
    ensures Inv(s')
    ensures s'.log == s.log && (s.overflow.Some? ==> s'.overflow == s.overflow)
    ensures s'.threads[i].Dropped? ==> a.Fails?
  {
    hide Inv, TableStep;
    if s.threads[i].Swap? {
      PublishKeeps(s, i, a, s');
    } else {
      LocalStepKeeps(s, i, a, s');
    }
  }

  lemma CallKeeps(s: State, i: nat, op: Op)
    requires i < |s.threads| && s.threads[i] == Idle
    requires Inv(s)
    ensures Inv(CallStep(s, i, op))
  {
    hide ByThread, Latest, Legal;
    var s' := CallStep(s, i, op);
    forall j | 0 <= j < |s'.threads| ensures ThreadOk(s', j) {
      assert ThreadOk(s, j);
    }
  }

  lemma ReturnKeeps(s: State, i: nat, a: Action, s': State)
    requires i < |s.threads| && (s.threads[i].Return? || s.threads[i].Dropped?)
    requires Apply(s, i, a) == Some(s')
    requires Inv(s)
    ensures Inv(s') && s'.log == s.log && s'.overflow == s.overflow
  {
    hide ByThread, Latest, Legal;
    forall j | 0 <= j < |s'.threads| ensures ThreadOk(s', j) {
      assert ThreadOk(s, j);
    }
  }

  lemma {:induction false} OneMoreEvent(log: seq<Event>, e: Event)
    ensures forall i :: ByThread(log + [e], i) == ByThread(log, i) + if e.thread == i then [e] else []
    ensures forall fd :: Latest(log + [e], fd) == if e.op.Set? && e.op.fd == fd then e.op.tag else Latest(log, fd)
    ensures Legal(log) && (e.op.Get? ==> e.value == Latest(log, e.op.fd)) ==> Legal(log + [e])
  {
    var log' := log + [e];
    assert log'[..|log|] == log;
    if Legal(log) && (e.op.Get? ==> e.value == Latest(log, e.op.fd)) {
      forall n | 0 <= n < |log'| && log'[n].op.Get? ensures log'[n].value == Latest(log'[..n], log'[n].op.fd) {
        assert log'[..n] == log[..n];
      }
    }
  }

  /** The access itself is the moment at which an operation takes effect: a get has the value the map
      holds just then, a set changes the map in just that place. */
  lemma AccessTakesEffect(s: State, i: nat, op: Op, since: nat, place: Option<nat>, s': State)
    requires i < |s.threads| && s.threads[i] == Access(op, since, place)
    requires AccessStep(s, i, op, since, place) == Some(s')
    requires Inv(s)
    ensures TableOk(s') && InRange(op.fd)
    ensures s'.log == s.log + [Event(i, op, if op.Get? then TagOf(s, op.fd) else 0)]
    ensures forall fd | InRange(fd) :: TagOf(s', fd) == if op.Set? && fd == op.fd then op.tag else TagOf(s, fd)
  {
    hide ByThread, Latest, Legal;
    assert ThreadOk(s, i);
  }

  lemma AccessKeeps(s: State, i: nat, op: Op, since: nat, place: Option<nat>, s': State)
    requires i < |s.threads| && s.threads[i] == Access(op, since, place)
    requires AccessStep(s, i, op, since, place) == Some(s')
    requires Inv(s)
    ensures Inv(s')
  {
    hide ByThread, Latest, Legal;
    assert ThreadOk(s, i);
    AccessTakesEffect(s, i, op, since, place, s');
    OneMoreEvent(s.log, s'.log[|s.log|]);
    forall j | 0 <= j < |s'.threads| ensures ThreadOk(s', j) {
      assert ThreadOk(s, j);
    }
  }

  lemma StepKeepsInv(s: State, i: nat, a: Action, s': State)
    requires Apply(s, i, a) == Some(s')
    requires Inv(s)
    ensures Inv(s') && (s.overflow.Some? ==> s'.overflow == s.overflow)
  {
    hide Inv, TableStep;
    match s.threads[i] {
      case Idle => CallKeeps(s, i, a.op);
      case Access(op, since, place) => AccessKeeps(s, i, op, since, place, s');
      case Return(_, _, _) => ReturnKeeps(s, i, a, s');
      case Dropped(_) => ReturnKeeps(s, i, a, s');
      case _ => TableStepKeeps(s, i, a, s');
    }
  }

  lemma {:induction false} RunHasInv(run: seq<State>, n: nat)
    requires IsRun(run) && n < |run|
    ensures Inv(run[n])
    decreases n
  {
    hide Apply, Inv;
    if n == 0 {
      InitHasInv(run[0]);
    } else {
      RunHasInv(run, n - 1);
      assert run[n] == run[n - 1 + 1];
      var i: nat, a: Action :| Apply(run[n - 1], i, a) == Some(run[n]);
      StepKeepsInv(run[n - 1], i, a, run[n]);
    }
  }

  lemma InitHasInv(s: State)
    requires Init(s)
    ensures Inv(s)
  {
  }

  // ----- Main results -----

  /** The table is linearizable to a plain map: the accesses in the order in which they took effect
      are a history of a map, each thread returned from exactly its accesses in that history, in
      order, and one that is about to return took effect after its call. */
  lemma {:induction false} Linearizable(run: seq<State>, n: nat, i: nat)
    requires IsRun(run) && n < |run| && i < |run[n].threads|
    ensures var s := run[n];
      && Legal(s.log)
      && |s.returned| == |s.threads|
      && var pc := s.threads[i];
         && (pc.Return? ==> pc.since <= pc.at < |s.log| && s.log[pc.at].op == pc.op)
         && ByThread(s.log, i) == s.returned[i] + if pc.Return? then [s.log[pc.at]] else []
  {
    hide ByThread, Latest, Legal, IsRun;
    RunHasInv(run, n);
    assert ThreadOk(run[n], i);
  }

  /** No stored tag is lost: what the table holds is what was stored last. */
  lemma {:induction false} HoldsLatest(run: seq<State>, n: nat, fd: int)
    requires IsRun(run) && n < |run| && InRange(fd)
    ensures TableOk(run[n]) && TagOf(run[n], fd) == Latest(run[n].log, fd)
  {
    hide IsRun;
    RunHasInv(run, n);
  }

  /** An overflow table is published at most once, and is never unmapped after that. */
  lemma {:induction false} PublishedOnce(run: seq<State>, m: nat, n: nat)
    requires IsRun(run) && m <= n < |run| && run[m].overflow.Some?
    ensures run[n].overflow == run[m].overflow
    ensures run[n].overflow.value < |run[n].tables| && run[n].tables[run[n].overflow.value].mapped
    decreases n
  {
    hide Apply;
    RunHasInv(run, n);
    if m < n {
      PublishedOnce(run, m, n - 1);
      RunHasInv(run, n - 1);
      assert run[n] == run[n - 1 + 1];
      var i: nat, a: Action :| Apply(run[n - 1], i, a) == Some(run[n]);
      StepKeepsInv(run[n - 1], i, a, run[n]);
    }
  }

  /** A call has no effect exactly when its descriptor is out of range or a mapping fails: the length
      check never refuses a descriptor in range. */
  lemma DroppedOnlyByFailure(run: seq<State>, n: nat, i: nat, a: Action, s': State)
    requires IsRun(run) && n < |run| && Apply(run[n], i, a) == Some(s')
    requires !run[n].threads[i].Dropped?
    ensures s'.threads[i].Dropped? <==>
            || (a.Call? && !InRange(a.op.fd))
            || (a.Fails? && run[n].threads[i].Map?)
  {
    hide IsRun;
    RunHasInv(run, n);
    var s := run[n];
    if !s.threads[i].Idle? && !s.threads[i].Access? && !s.threads[i].Return? {
      TableStepKeeps(s, i, a, s');
    }
  }
}
