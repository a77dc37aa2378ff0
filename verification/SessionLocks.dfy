/**
 Session directories under one swap root.  Any number of managers, in any number of processes,
 first clean up what others left behind, then create a session directory of their own, use it and
 destroy it; a process may crash at any step, which drops its file locks.  A step is one system
 call on the root or on a session directory.  Names are taken to be fresh, so a directory keeps
 its identity `d`; the only change of name is the rename from `.creating-` to `session-`.
 */
module SessionLocks {
  import opened SwapTypes

  const LOCK_ATTEMPTS: nat := 10

  datatype File = Marker | Data | Lock | SwapFile(key: nat)

  /** How a directory is linked under the root. */
  datatype Link = Creating | Session | Unlinked

  /** A session directory; `holder` has the flock on the inode of its `session.lock`. */
  datatype Dir = Dir(creator: nat, link: Link, files: set<File>, holder: Option<nat>)

  /** Where a manager is. */
  datatype Pc =
    | Start
    | TryLock(attempt: nat)
    | Scan
    | CkOpen(d: nat, link: Link)
    | CkMarker(d: nat, link: Link)
    | CkLock(d: nat, link: Link)
    | CkFlock(d: nat, link: Link)
    | Cleaning(d: nat, link: Link)
    | MkDir
    | MkMarker(d: nat)
    | MkData(d: nat)
    | MkLock(d: nat)
    | MkFlock(d: nat)
    | MkRename(d: nat)
    | Undo(d: nat)
    | GiveUp
    | Unlock(d: nat)
    | Using(d: nat)
    | Destroying(d: nat)
    | Closing(d: nat)
    | Ended
    | Failed
    | Crashed

  datatype Action =
    | Proceed
    | Fails
    | Interrupted
    | Visit(d: nat)
    | Put(key: nat)
    | Remove(file: File)
    | RemoveDir

  datatype Root = Root(dirs: seq<Dir>, cleanup: Option<nat>, managers: seq<Pc>, process: seq<nat>)

  // ----- Steps -----

  function Go(s: Root, i: nat, pc: Pc): Root
    requires i < |s.managers|
  {
    s.(managers := s.managers[i := pc])
  }

  function With(s: Root, d: nat, dir: Dir): Root
    requires d < |s.dirs|
  {
    s.(dirs := s.dirs[d := dir])
  }

  function Released(dir: Dir, i: nat): Dir {
    if dir.holder == Some(i) then dir.(holder := None) else dir
  }

  /** One deletion inside a recursive removal: contents before their directory.  The removal means to
      take the marker last, but a failed look at it can make it go at any time. */
  function RemovalStep(s: Root, d: nat, link: Link, a: Action): Option<Root> {
    if d >= |s.dirs| then None else
    var dir := s.dirs[d];
    match a
    case Remove(f) =>
      if f !in dir.files || (f == Data && exists g :: g in dir.files && g.SwapFile?) then None
      else Some(With(s, d, dir.(files := dir.files - {f})))
    case RemoveDir =>
      if dir.files != {} || dir.link != link then None
      else Some(With(s, d, dir.(link := Unlinked)))
    case _ => None
  }

  /** Taking `cleanup.lock`. */
  function LockStep(s: Root, i: nat, a: Action): Option<Root>
    requires i < |s.managers| && (s.managers[i].Start? || s.managers[i].TryLock?)
  {
    var pc := s.managers[i];
    if a.Fails? then Some(Go(s, i, Failed))
    else if pc.Start? then if a.Proceed? then Some(Go(s, i, TryLock(0))) else None
    else if a.Proceed? && s.cleanup.None? then Some(Go(s.(cleanup := Some(i)), i, Scan))
    else if !a.Proceed? && !a.Interrupted? then None
    else Some(Go(s, i, if pc.attempt + 1 < LOCK_ATTEMPTS then TryLock(pc.attempt + 1) else Failed))
  }

  /** The scan of the root, and the decision about one directory it yields. */
  function ScanStep(s: Root, i: nat, a: Action): Option<Root>
    requires i < |s.managers|
  {
    match s.managers[i]
    case Scan =>
      if a.Visit? && a.d < |s.dirs| && !s.dirs[a.d].link.Unlinked? then
        Some(Go(s, i, CkOpen(a.d, s.dirs[a.d].link)))
      else if a.Proceed? then Some(Go(s, i, MkDir))
      else if a.Fails? then Some(Go(s, i, GiveUp))
      else None
    case CkOpen(d, link) =>
      if a.Fails? || d >= |s.dirs| || s.dirs[d].link != link then Some(Go(s, i, Scan))
      else if a.Proceed? then Some(Go(s, i, if link.Session? then CkMarker(d, link) else CkLock(d, link)))
      else None
    case CkMarker(d, link) =>
      if a.Fails? || d >= |s.dirs| || Marker !in s.dirs[d].files then Some(Go(s, i, Scan))
      else if a.Proceed? then Some(Go(s, i, CkLock(d, link)))
      else None
    case CkLock(d, link) =>
      if a.Fails? || d >= |s.dirs| then Some(Go(s, i, Scan))
      else if a.Proceed? then
        Some(Go(s, i, if Lock !in s.dirs[d].files then Cleaning(d, link) else CkFlock(d, link)))
      else None
    case CkFlock(d, link) =>
      if a.Fails? || d >= |s.dirs| then Some(Go(s, i, Scan))
      else if a.Interrupted? then Some(s)
      else if !a.Proceed? then None
      else if s.dirs[d].holder.Some? then Some(Go(s, i, Scan))
      else Some(Go(With(s, d, s.dirs[d].(holder := Some(i))), i, Cleaning(d, link)))
    case Cleaning(d, link) =>
      if (a.Proceed? || a.Fails?) && d < |s.dirs| then Some(Go(With(s, d, Released(s.dirs[d], i)), i, Scan))
      else RemovalStep(s, d, link, a)
    case _ => None
  }

  /** Creating the session directory, still under `cleanup.lock`. */
  function CreateStep(s: Root, i: nat, a: Action): Option<Root>
    requires i < |s.managers|
  {
    var pc := s.managers[i];
    if pc.MkDir? then
      if a.Fails? then Some(Go(s, i, GiveUp))
      else if a.Proceed? then
        Some(Go(s.(dirs := s.dirs + [Dir(i, Creating, {}, None)]), i, MkMarker(|s.dirs|)))
      else None
    else if pc.GiveUp? then
      if a.Proceed? then Some(Go(s.(cleanup := None), i, Failed)) else None
    else if !(pc.MkMarker? || pc.MkData? || pc.MkLock? || pc.MkFlock? || pc.MkRename? || pc.Undo? || pc.Unlock?)
         || pc.d >= |s.dirs| then None
    else
      var d, dir := pc.d, s.dirs[pc.d];
      if pc.Undo? then
        if a.Proceed? || a.Fails? then Some(Go(s, i, GiveUp)) else RemovalStep(s, d, Creating, a)
      else if pc.Unlock? then
        if a.Proceed? then Some(Go(s.(cleanup := None), i, Using(d))) else None
      else if a.Fails? then
        Some(Go(With(s, d, Released(dir, i)), i, Undo(d)))
      else if !a.Proceed? then None
      else if pc.MkMarker? then Some(Go(With(s, d, dir.(files := dir.files + {Marker})), i, MkData(d)))
      else if pc.MkData? then Some(Go(With(s, d, dir.(files := dir.files + {Data})), i, MkLock(d)))
      else if pc.MkLock? then Some(Go(With(s, d, dir.(files := dir.files + {Lock})), i, MkFlock(d)))
      else if pc.MkFlock? && dir.holder.None? then
        Some(Go(With(s, d, dir.(holder := Some(i))), i, MkRename(d)))
      else if pc.MkRename? then Some(Go(With(s, d, dir.(link := Session)), i, Unlock(d)))
      else None
  }

  /** Using the session; destroying it, or failing to initialise, removes the directory before it
      lets go of the lock, and outside `cleanup.lock`. */
  function UseStep(s: Root, i: nat, a: Action): Option<Root>
    requires i < |s.managers|
  {
    var pc := s.managers[i];
    if !(pc.Using? || pc.Destroying? || pc.Closing?) || pc.d >= |s.dirs| then None else
    var d, dir := pc.d, s.dirs[pc.d];
    match pc
    case Using(_) =>
      if a.Put? then Some(With(s, d, dir.(files := dir.files + {SwapFile(a.key)})))
      else if a.Remove? && a.file.SwapFile? then Some(With(s, d, dir.(files := dir.files - {a.file})))
      else if a.Proceed? then Some(Go(s, i, Destroying(d)))
      else None
    case Destroying(_) =>
      if a.Proceed? || a.Fails? then Some(Go(s, i, Closing(d))) else RemovalStep(s, d, Session, a)
    case Closing(_) =>
      if a.Proceed? then Some(Go(With(s, d, Released(dir, i)), i, Ended)) else None
  }

  function Apply(s: Root, i: nat, a: Action): Option<Root> {
    if i >= |s.managers| then None else
    var pc := s.managers[i];
    if pc.Start? || pc.TryLock? then LockStep(s, i, a)
    else if pc.Scan? || Checks(pc) || pc.Cleaning? then ScanStep(s, i, a)
    else if pc.Using? || pc.Destroying? || pc.Closing? then UseStep(s, i, a)
    else CreateStep(s, i, a)
  }

  /** The managers that process `p` takes with it when it crashes. */
  predicate Hit(s: Root, p: nat, i: nat) {
    i < |s.managers| && i < |s.process| && s.process[i] == p
  }

  function Crash(s: Root, p: nat): Root {
    s.(managers := seq(|s.managers|, i requires 0 <= i < |s.managers| => if Hit(s, p, i) then Crashed else s.managers[i]),
       dirs := seq(|s.dirs|, d requires 0 <= d < |s.dirs| =>
                 var dir := s.dirs[d];
                 if dir.holder.Some? && Hit(s, p, dir.holder.value) then dir.(holder := None) else dir),
       cleanup := if s.cleanup.Some? && Hit(s, p, s.cleanup.value) then None else s.cleanup)
  }

  ghost predicate Next(s: Root, s': Root) {
    (exists i: nat, a: Action :: Apply(s, i, a) == Some(s')) || (exists p: nat :: Crash(s, p) == s')
  }

  ghost predicate Init(s: Root) {
    && s.dirs == [] && s.cleanup == None && |s.process| == |s.managers|
    && forall i :: 0 <= i < |s.managers| ==> s.managers[i] == Start
  }

  ghost predicate IsRun(run: seq<Root>) {
    && |run| > 0 && Init(run[0])
    && forall n :: 0 <= n < |run| - 1 ==> Next(run[n], run[n + 1])
  }

  // ----- The invariant -----

  predicate Checks(pc: Pc) {
    pc.CkOpen? || pc.CkMarker? || pc.CkLock? || pc.CkFlock?
  }

  predicate Creates(pc: Pc) {
    pc.MkMarker? || pc.MkData? || pc.MkLock? || pc.MkFlock? || pc.MkRename?
  }

  predicate InCleanup(pc: Pc) {
    pc.Scan? || Checks(pc) || pc.Cleaning? || pc.MkDir? || Creates(pc) || pc.Undo? || pc.GiveUp? || pc.Unlock?
  }

  /** The creator has a use for the directory: it is making it, or it made it and lives on. */
  predicate Wants(pc: Pc, d: nat) {
    (Creates(pc) || pc.Unlock? || pc.Using?) && pc.d == d
  }

  /** The creator of the directory crashed, failed to create it, or began to remove it. */
  predicate Abandoned(s: Root, d: nat)
    requires d < |s.dirs|
  {
    var m := s.dirs[d].creator;
    m < |s.managers| &&
    var pc := s.managers[m];
    pc.Crashed? || pc.Failed? || pc.GiveUp? || pc.Ended? || ((pc.Undo? || pc.Destroying? || pc.Closing?) && pc.d == d)
  }

  /** Where a creator has the lock of its session. */
  predicate Holds(pc: Pc) {
    pc.MkRename? || pc.Unlock? || pc.Using? || pc.Destroying? || pc.Closing?
  }

  /** What the creation has put into the directory so far. */
  function Made(pc: Pc): set<File> {
    if pc.MkMarker? then {}
    else if pc.MkData? then {Marker}
    else if pc.MkLock? then {Marker, Data}
    else {Marker, Data, Lock}
  }

  ghost predicate ManagerOk(s: Root, i: nat)
    requires i < |s.managers|
  {
    var pc := s.managers[i];
    && (Creates(pc) || pc.Unlock? || pc.Using? || pc.Undo? || pc.Destroying? || pc.Closing? ==>
          pc.d < |s.dirs| && s.dirs[pc.d].creator == i)
    && (Creates(pc) ==>
          && s.dirs[pc.d].link == Creating
          && s.dirs[pc.d].files == Made(pc)
          && s.dirs[pc.d].holder == if pc.MkRename? then Some(i) else None)
    && (pc.Unlock? || pc.Using? ==>
          && s.dirs[pc.d].link == Session
          && s.dirs[pc.d].files >= {Marker, Data, Lock}
          && s.dirs[pc.d].holder == Some(i))
    && (pc.Destroying? || pc.Closing? ==> s.dirs[pc.d].holder == Some(i))
    && (Checks(pc) || pc.Cleaning? ==> pc.d < |s.dirs| && !pc.link.Unlinked?)
    && (Checks(pc) && pc.link.Creating? ==> Abandoned(s, pc.d))
    && (pc.Cleaning? ==> Abandoned(s, pc.d))
  }

  ghost predicate DirOk(s: Root, d: nat)
    requires d < |s.dirs|
  {
    var dir := s.dirs[d];
    && dir.creator < |s.managers|
    && (Wants(s.managers[dir.creator], d) || Abandoned(s, d))
    && (dir.holder.Some? ==>
          var h := dir.holder.value;
          h < |s.managers| &&
          var pc := s.managers[h];
          && (pc.Cleaning? || (h == dir.creator && Holds(pc)))
          && pc.d == d)
  }

  ghost predicate Inv(s: Root) {
    && |s.process| == |s.managers|
    && (forall i :: 0 <= i < |s.managers| ==> (InCleanup(s.managers[i]) <==> s.cleanup == Some(i)))
    && (forall i :: 0 <= i < |s.managers| ==> ManagerOk(s, i))
    && (forall d :: 0 <= d < |s.dirs| ==> DirOk(s, d))
  }

  // ----- Every step keeps it -----

  /** What a step of manager `i` may do: it leaves the other managers alone, takes no lock from
      them, and changes a directory of theirs only if they abandoned it. */
  ghost predicate Effect(s: Root, i: nat, s': Root) {
    && i < |s.managers| == |s'.managers| && s'.process == s.process
    && s'.managers == s.managers[i := s'.managers[i]]
    && |s.dirs| <= |s'.dirs|
    && (forall d | 0 <= d < |s.dirs| ::
          && s'.dirs[d].creator == s.dirs[d].creator
          && (s'.dirs[d] != s.dirs[d] ==> s.dirs[d].creator == i || Abandoned(s, d))
          && (s.dirs[d].holder.Some? && s.dirs[d].holder.value != i ==> s'.dirs[d].holder == s.dirs[d].holder)
          && (Abandoned(s, d) ==> Abandoned(s', d)))
    && (InCleanup(s'.managers[i]) <==> s'.cleanup == Some(i))
    && (s'.cleanup == s.cleanup || (s.cleanup.None? && s'.cleanup == Some(i)) || (s.cleanup == Some(i) && s'.cleanup.None?))
    && ManagerOk(s', i)
  }

  lemma OthersKeep(s: Root, i: nat, s': Root)
    requires Inv(s) && Effect(s, i, s')
    requires forall d :: 0 <= d < |s'.dirs| ==> DirOk(s', d)
    ensures Inv(s')
  {
    forall j | 0 <= j < |s'.managers| ensures ManagerOk(s', j) {
      assert ManagerOk(s, j);
      var pc := s.managers[j];
      if j != i && (Creates(pc) || pc.Unlock? || pc.Using?) {
        assert !Abandoned(s, pc.d);
      }
    }
  }

  lemma LockEffect(s: Root, i: nat, a: Action, s': Root)
    requires i < |s.managers| && (s.managers[i].Start? || s.managers[i].TryLock?)
    requires LockStep(s, i, a) == Some(s')
    requires Inv(s)
    ensures Effect(s, i, s')
  {
    assert ManagerOk(s, i);
  }

  lemma LockDirs(s: Root, i: nat, a: Action, s': Root)
    requires i < |s.managers| && (s.managers[i].Start? || s.managers[i].TryLock?)
    requires LockStep(s, i, a) == Some(s')
    requires Inv(s)
    ensures forall d :: 0 <= d < |s'.dirs| ==> DirOk(s', d)
  {
    assert ManagerOk(s, i);
    forall d | 0 <= d < |s'.dirs| ensures DirOk(s', d) {
      assert d < |s.dirs| ==> DirOk(s, d);
    }
  }

  predicate InUse(s: Root, d: nat)
    requires d < |s.dirs|
  {
    var dir := s.dirs[d];
    && dir.creator < |s.managers| && s.managers[dir.creator] == Using(d)
    && dir.link == Session && dir.files >= {Marker, Data, Lock} && dir.holder == Some(dir.creator)
  }

  /** While one manager scans, nobody creates: what is not in use, complete and locked was
      abandoned. */
  lemma WhileScanning(s: Root, i: nat, d: nat)
    requires i < |s.managers| && (s.managers[i].Scan? || Checks(s.managers[i]) || s.managers[i].Cleaning?)
    requires d < |s.dirs|
    requires Inv(s)
    ensures InUse(s, d) || Abandoned(s, d)
  {
    assert DirOk(s, d);
    assert ManagerOk(s, s.dirs[d].creator);
  }

  lemma ScanEffect(s: Root, i: nat, a: Action, s': Root)
    requires i < |s.managers| && (s.managers[i].Scan? || s.managers[i].CkOpen? || s.managers[i].CkMarker?)
    requires ScanStep(s, i, a) == Some(s')
    requires Inv(s)
    ensures Effect(s, i, s')
  {
    assert ManagerOk(s, i);
    forall d | 0 <= d < |s.dirs| ensures InUse(s, d) || Abandoned(s, d) {
      WhileScanning(s, i, d);
    }
  }

  lemma DecideEffect(s: Root, i: nat, a: Action, s': Root)
    requires i < |s.managers| && (s.managers[i].CkLock? || s.managers[i].CkFlock?)
    requires ScanStep(s, i, a) == Some(s')
    requires Inv(s)
    ensures Effect(s, i, s')
  {
    assert ManagerOk(s, i);
    forall d | 0 <= d < |s.dirs| ensures InUse(s, d) || Abandoned(s, d) {
      WhileScanning(s, i, d);
    }
  }

  lemma ScanDirs(s: Root, i: nat, a: Action, s': Root)
    requires i < |s.managers| && !s.managers[i].Cleaning?
    requires ScanStep(s, i, a) == Some(s')
    requires Inv(s)
    ensures forall d :: 0 <= d < |s'.dirs| ==> DirOk(s', d)
  {
    assert ManagerOk(s, i);
    forall d | 0 <= d < |s'.dirs| ensures DirOk(s', d) {
      assert d < |s.dirs| ==> DirOk(s, d);
    }
  }

  lemma CleanEffect(s: Root, i: nat, a: Action, s': Root)
    requires i < |s.managers| && s.managers[i].Cleaning?
    requires ScanStep(s, i, a) == Some(s')
    requires Inv(s)
    ensures Effect(s, i, s')
  {
    assert ManagerOk(s, i);
  }

  lemma CleanDirs(s: Root, i: nat, a: Action, s': Root)
    requires i < |s.managers| && s.managers[i].Cleaning?
    requires ScanStep(s, i, a) == Some(s')
    requires Inv(s)
    ensures forall d :: 0 <= d < |s'.dirs| ==> DirOk(s', d)
  {
    assert ManagerOk(s, i);
    forall d | 0 <= d < |s'.dirs| ensures DirOk(s', d) {
      assert d < |s.dirs| ==> DirOk(s, d);
    }
  }

  lemma CreateEffect(s: Root, i: nat, a: Action, s': Root)
    requires i < |s.managers| && Creates(s.managers[i])
    requires CreateStep(s, i, a) == Some(s')
    requires Inv(s)
    ensures Effect(s, i, s')
  {
    assert ManagerOk(s, i);
  }

  lemma AroundEffect(s: Root, i: nat, a: Action, s': Root)
    requires i < |s.managers| && !Creates(s.managers[i]) && !s.managers[i].Undo?
    requires CreateStep(s, i, a) == Some(s')
    requires Inv(s)
    ensures Effect(s, i, s')
  {
    assert ManagerOk(s, i);
  }

  lemma CreateDirs(s: Root, i: nat, a: Action, s': Root)
    requires i < |s.managers| && Creates(s.managers[i])
    requires CreateStep(s, i, a) == Some(s')
    requires Inv(s)
    ensures forall d :: 0 <= d < |s'.dirs| ==> DirOk(s', d)
  {
    assert ManagerOk(s, i);
    forall d | 0 <= d < |s'.dirs| ensures DirOk(s', d) {
      assert d < |s.dirs| ==> DirOk(s, d);
    }
  }

  lemma AroundDirs(s: Root, i: nat, a: Action, s': Root)
    requires i < |s.managers| && !Creates(s.managers[i]) && !s.managers[i].Undo?
    requires CreateStep(s, i, a) == Some(s')
    requires Inv(s)
    ensures forall d :: 0 <= d < |s'.dirs| ==> DirOk(s', d)
  {
    assert ManagerOk(s, i);
    forall d | 0 <= d < |s'.dirs| ensures DirOk(s', d) {
      assert d < |s.dirs| ==> DirOk(s, d);
    }
  }

  lemma UndoEffect(s: Root, i: nat, a: Action, s': Root)
    requires i < |s.managers| && s.managers[i].Undo?
    requires CreateStep(s, i, a) == Some(s')
    requires Inv(s)
    ensures Effect(s, i, s')
  {
    assert ManagerOk(s, i);
  }

  lemma UndoDirs(s: Root, i: nat, a: Action, s': Root)
    requires i < |s.managers| && s.managers[i].Undo?
    requires CreateStep(s, i, a) == Some(s')
    requires Inv(s)
    ensures forall d :: 0 <= d < |s'.dirs| ==> DirOk(s', d)
  {
    assert ManagerOk(s, i);
    forall d | 0 <= d < |s'.dirs| ensures DirOk(s', d) {
      assert d < |s.dirs| ==> DirOk(s, d);
    }
  }

  lemma UseEffect(s: Root, i: nat, a: Action, s': Root)
    requires i < |s.managers|
    requires UseStep(s, i, a) == Some(s')
    requires Inv(s)
    ensures Effect(s, i, s')
  {
    assert ManagerOk(s, i);
  }

  lemma UseDirs(s: Root, i: nat, a: Action, s': Root)
    requires i < |s.managers|
    requires UseStep(s, i, a) == Some(s')
    requires Inv(s)
    ensures forall d :: 0 <= d < |s'.dirs| ==> DirOk(s', d)
  {
    assert ManagerOk(s, i);
    forall d | 0 <= d < |s'.dirs| ensures DirOk(s', d) {
      assert d < |s.dirs| ==> DirOk(s, d);
    }
  }

  lemma CrashKeeps(s: Root, p: nat)
    requires Inv(s)
    ensures Inv(Crash(s, p))
  {
    var s' := Crash(s, p);
    forall j | 0 <= j < |s'.managers| ensures ManagerOk(s', j) {
      assert ManagerOk(s, j);
    }
    forall d | 0 <= d < |s'.dirs| ensures DirOk(s', d) {
      assert DirOk(s, d);
    }
  }

  lemma StepKeepsInv(s: Root, i: nat, a: Action, s': Root)
    requires Apply(s, i, a) == Some(s')
    requires Inv(s)
    ensures Effect(s, i, s') && Inv(s')
  {
    hide Inv, DirOk, Effect, LockStep, ScanStep, CreateStep, UseStep;
    var pc := s.managers[i];
    if pc.Start? || pc.TryLock? {
      LockEffect(s, i, a, s');
      LockDirs(s, i, a, s');
    } else if pc.Cleaning? {
      CleanEffect(s, i, a, s');
      CleanDirs(s, i, a, s');
    } else if pc.Scan? || Checks(pc) {
      if pc.CkLock? || pc.CkFlock? {
        DecideEffect(s, i, a, s');
      } else {
        ScanEffect(s, i, a, s');
      }
      ScanDirs(s, i, a, s');
    } else if pc.Using? || pc.Destroying? || pc.Closing? {
      UseEffect(s, i, a, s');
      UseDirs(s, i, a, s');
    } else if pc.Undo? {
      UndoEffect(s, i, a, s');
      UndoDirs(s, i, a, s');
    } else {
      if Creates(pc) {
        CreateEffect(s, i, a, s');
        CreateDirs(s, i, a, s');
      } else {
        AroundEffect(s, i, a, s');
        AroundDirs(s, i, a, s');
      }
    }
    OthersKeep(s, i, s');
  }

  // ----- Whole runs -----

  lemma InitHasInv(s: Root)
    requires Init(s)
    ensures Inv(s)
  {
  }

  lemma {:induction false} RunHasInv(run: seq<Root>, n: nat)
    requires IsRun(run) && n < |run|
    ensures Inv(run[n])
    decreases n
  {
    hide Apply, Crash, ManagerOk, DirOk;
    if n == 0 {
      InitHasInv(run[0]);
    } else {
      RunHasInv(run, n - 1);
      var s, s' := run[n - 1], run[n - 1 + 1];
      assert Next(s, s');
      if p: nat :| Crash(s, p) == s' {
        CrashKeeps(s, p);
      } else {
        var i: nat, a: Action :| Apply(s, i, a) == Some(s');
        StepKeepsInv(s, i, a, s');
      }
    }
  }

  /** A cleaner removes a directory only if its creator crashed, failed to create it, or began to
      remove it; so it was when the cleaner began. */
  lemma CleanerRemovesOnlyAbandoned(run: seq<Root>, n: nat, i: nat, a: Action, s': Root)
    requires IsRun(run) && n < |run| && Apply(run[n], i, a) == Some(s')
    requires s'.managers[i].Cleaning?
    ensures var d := s'.managers[i].d; d < |run[n].dirs| && Abandoned(run[n], d) && Abandoned(s', d)
  {
    hide Inv, DirOk, IsRun;
    RunHasInv(run, n);
    StepKeepsInv(run[n], i, a, s');
    CleaningIsAbandoned(run[n], i, a, s');
  }

  lemma CleaningIsAbandoned(s: Root, i: nat, a: Action, s': Root)
    requires Apply(s, i, a) == Some(s') && s'.managers[i].Cleaning?
    requires Inv(s) && Effect(s, i, s')
    ensures var d := s'.managers[i].d; d < |s.dirs| && Abandoned(s, d) && Abandoned(s', d)
  {
    assert ManagerOk(s, i);
    assert ManagerOk(s', i);
  }

  /** A session in use is complete and locked, and no step of another manager and no crash of
      another process changes anything about it. */
  lemma SessionInUseIsUntouched(run: seq<Root>, n: nat, m: nat, d: nat, s': Root)
    requires IsRun(run) && n < |run| && m < |run[n].managers| && run[n].managers[m] == Using(d)
    requires (exists i: nat, a: Action :: i != m && Apply(run[n], i, a) == Some(s'))
             || (exists p: nat :: !Hit(run[n], p, m) && Crash(run[n], p) == s')
    ensures d < |run[n].dirs| && InUse(run[n], d)
    ensures d < |s'.dirs| && s'.dirs[d] == run[n].dirs[d] && s'.managers[m] == Using(d)
  {
    hide Apply, IsRun;
    RunHasInv(run, n);
    var s := run[n];
    assert ManagerOk(s, m) && DirOk(s, d);
    if p: nat :| !Hit(s, p, m) && Crash(s, p) == s' {
    } else {
      var i: nat, a: Action :| i != m && Apply(s, i, a) == Some(s');
      StepKeepsInv(s, i, a, s');
    }
  }

  /** A scanning manager's whole check of directory `d`, when nobody interferes and nothing fails. */
  function Checked(s: Root, i: nat, a: Action, steps: nat): (pc: Pc)
    requires i < |s.managers|
    decreases steps
  {
    match Apply(s, i, a)
    case None => s.managers[i]
    case Some(s') =>
      if i >= |s'.managers| then Scan
      else if steps == 0 || !Checks(s'.managers[i]) then s'.managers[i]
      else Checked(s', i, Proceed, steps - 1)
  }

  /** Exactly which directories a cleaner starts to remove: those that are abandoned, except that a
      creator still busy removing its session keeps it until it has deleted `session.lock`, and
      that a session directory without its marker, empty or not, is no longer recognised as one. */
  lemma {:induction false} CleanupDecision(run: seq<Root>, n: nat, i: nat, d: nat)
    requires IsRun(run) && n < |run| && i < |run[n].managers| && run[n].managers[i] == Scan
    requires d < |run[n].dirs| && !run[n].dirs[d].link.Unlinked?
    ensures var s, dir := run[n], run[n].dirs[d];
      dir.creator < |s.managers| &&
      var creator := s.managers[dir.creator];
      (Checked(s, i, Visit(d), 4) == Cleaning(d, dir.link) <==>
        && Abandoned(s, d)
        && (creator.Destroying? || creator.Closing? ==> Lock !in dir.files)
        && (dir.link.Session? ==> Marker in dir.files))
  {
    hide IsRun;
    RunHasInv(run, n);
    var s, dir := run[n], run[n].dirs[d];
    WhileScanning(s, i, d);
    assert DirOk(s, d) && ManagerOk(s, i) && ManagerOk(s, dir.creator);
    CheckedMeaning(s, i, d);
    HolderWhileScanning(s, i, d);
  }

  lemma HolderWhileScanning(s: Root, i: nat, d: nat)
    requires i < |s.managers| && s.managers[i] == Scan && d < |s.dirs|
    requires Inv(s)
    ensures var dir := s.dirs[d];
      dir.creator < |s.managers| &&
      var creator := s.managers[dir.creator];
      (dir.holder.Some? <==> (creator.Using? || creator.Destroying? || creator.Closing?) && creator.d == d)
  {
    assert DirOk(s, d);
    assert ManagerOk(s, s.dirs[d].creator);
  }

  lemma {:induction false} CheckedMeaning(s: Root, i: nat, d: nat)
    requires i < |s.managers| && s.managers[i] == Scan && d < |s.dirs| && !s.dirs[d].link.Unlinked?
    ensures var dir := s.dirs[d];
      Checked(s, i, Visit(d), 4) == Cleaning(d, dir.link) <==>
        (dir.link.Session? ==> Marker in dir.files) && (Lock in dir.files ==> dir.holder.None?)
  {
    var dir := s.dirs[d];
    var link := dir.link;
    var s1 := Go(s, i, CkOpen(d, link));
    assert Checked(s, i, Visit(d), 4) == Checked(s1, i, Proceed, 3);
    if link.Session? {
      var s2 := Go(s1, i, CkMarker(d, link));
      assert Checked(s1, i, Proceed, 3) == Checked(s2, i, Proceed, 2);
      if Marker in dir.files {
        var s3 := Go(s2, i, CkLock(d, link));
        assert Checked(s2, i, Proceed, 2) == Checked(s3, i, Proceed, 1);
        LockDecides(s3, i, d, link, 1);
      }
    } else {
      var s2 := Go(s1, i, CkLock(d, link));
      assert Checked(s1, i, Proceed, 3) == Checked(s2, i, Proceed, 2);
      LockDecides(s2, i, d, link, 2);
    }
  }

  lemma {:induction false} LockDecides(s: Root, i: nat, d: nat, link: Link, steps: nat)
    requires i < |s.managers| && s.managers[i] == CkLock(d, link) && d < |s.dirs| && steps > 0
    ensures Checked(s, i, Proceed, steps) == Cleaning(d, link) <==>
            (Lock in s.dirs[d].files ==> s.dirs[d].holder.None?)
  {
    if Lock in s.dirs[d].files {
      var s1 := Go(s, i, CkFlock(d, link));
      assert Checked(s, i, Proceed, steps) == Checked(s1, i, Proceed, steps - 1);
    }
  }

  // ----- A session directory without its marker -----

  /** The manager may still change the directory. */
  predicate WorksOn(pc: Pc, d: nat) {
    || ((pc.CkLock? || pc.CkFlock? || pc.Cleaning?) && pc.d == d)
    || ((pc.Undo? || pc.Destroying?) && pc.d == d)
    || Wants(pc, d)
  }

  /** A session directory whose marker is gone and that nobody works on any more. */
  predicate Forgotten(s: Root, d: nat) {
    && d < |s.dirs| && s.dirs[d].link.Session? && Marker !in s.dirs[d].files
    && forall i :: 0 <= i < |s.managers| ==> !WorksOn(s.managers[i], d)
  }

  lemma LockingStaysForgotten(s: Root, i: nat, a: Action, s': Root, d: nat)
    requires i < |s.managers| && (s.managers[i].Start? || s.managers[i].TryLock?)
    requires Forgotten(s, d) && LockStep(s, i, a) == Some(s')
    ensures Forgotten(s', d) && s'.dirs[d].files == s.dirs[d].files
  {
    assert !WorksOn(s.managers[i], d);
  }

  lemma ScanningStaysForgotten(s: Root, i: nat, a: Action, s': Root, d: nat)
    requires i < |s.managers|
    requires Forgotten(s, d) && ScanStep(s, i, a) == Some(s')
    ensures Forgotten(s', d) && s'.dirs[d].files == s.dirs[d].files
  {
    assert !WorksOn(s.managers[i], d);
  }

  lemma CreatingStaysForgotten(s: Root, i: nat, a: Action, s': Root, d: nat)
    requires i < |s.managers|
    requires Forgotten(s, d) && CreateStep(s, i, a) == Some(s')
    ensures Forgotten(s', d) && s'.dirs[d].files == s.dirs[d].files
  {
    assert !WorksOn(s.managers[i], d);
  }

  lemma UsingStaysForgotten(s: Root, i: nat, a: Action, s': Root, d: nat)
    requires i < |s.managers|
    requires Forgotten(s, d) && UseStep(s, i, a) == Some(s')
    ensures Forgotten(s', d) && s'.dirs[d].files == s.dirs[d].files
  {
    assert !WorksOn(s.managers[i], d);
  }

  lemma StaysForgotten(s: Root, i: nat, a: Action, s': Root, d: nat)
    requires Forgotten(s, d) && Apply(s, i, a) == Some(s')
    ensures Forgotten(s', d) && s'.dirs[d].files == s.dirs[d].files
  {
    hide LockStep, ScanStep, CreateStep, UseStep, Forgotten;
    var pc := s.managers[i];
    if pc.Start? || pc.TryLock? {
      LockingStaysForgotten(s, i, a, s', d);
    } else if pc.Scan? || Checks(pc) || pc.Cleaning? {
      ScanningStaysForgotten(s, i, a, s', d);
    } else if pc.Using? || pc.Destroying? || pc.Closing? {
      UsingStaysForgotten(s, i, a, s', d);
    } else {
      CreatingStaysForgotten(s, i, a, s', d);
    }
  }

  /** Such a directory stays for ever, with all that is left in it. */
  lemma {:induction false} ForgottenForEver(run: seq<Root>, m: nat, n: nat, d: nat)
    requires IsRun(run) && m <= n < |run| && Forgotten(run[m], d)
    ensures Forgotten(run[n], d) && run[n].dirs[d].files == run[m].dirs[d].files
    decreases n
  {
    if m < n {
      ForgottenForEver(run, m, n - 1, d);
      var s, s' := run[n - 1], run[n - 1 + 1];
      assert Next(s, s');
      hide Apply;
      if i: nat, a: Action :| Apply(s, i, a) == Some(s') {
        StaysForgotten(s, i, a, s', d);
      }
    }
  }
}
