/** What a move keeps, whatever fails, and what it does when nothing fails. */
module MoveTheorems {
  import opened SwapTypes
  import opened Names
  import opened MoveSpec

  /** The content of the file at a path below `n`. */
  function FileAt(n: Option<Node>, p: Path): Option<Bytes>
    decreases |p|
  {
    if n.None? then None
    else if p == [] then (if n.value.File? then Some(n.value.data) else None)
    else if n.value.Dir? then FileAt(Get(n.value.entries, p[0]), p[1..])
    else None
  }

  /** Every source file is where it was or at its target, and target files, if they are to be
      kept, are where they were. */
  ghost predicate Kept(src: Option<Node>, dst: Option<Node>, src': Option<Node>, dst': Option<Node>, keepTarget: bool) {
    && (forall p | FileAt(src, p).Some? :: FileAt(src', p) == FileAt(src, p) || FileAt(dst', p) == FileAt(src, p))
    && (keepTarget ==> forall p | FileAt(dst, p).Some? :: FileAt(dst', p) == FileAt(dst, p))
  }

  lemma UnchangedIsKept(src: Option<Node>, dst: Option<Node>)
    ensures Kept(src, dst, src, dst, true)
  {
  }

  lemma EntriesKept(s: Entries, d: Entries, s': Entries, d': Entries, keepTarget: bool)
    requires forall name :: Kept(Get(s, name), Get(d, name), Get(s', name), Get(d', name), keepTarget)
    ensures Kept(Some(Dir(s)), Some(Dir(d)), Some(Dir(s')), Some(Dir(d')), keepTarget)
  {
    forall p | FileAt(Some(Dir(s)), p).Some?
      ensures FileAt(Some(Dir(s')), p) == FileAt(Some(Dir(s)), p) || FileAt(Some(Dir(d')), p) == FileAt(Some(Dir(s)), p)
    {
      assert FileAt(Get(s, p[0]), p[1..]).Some?;
    }
    if keepTarget {
      forall p | FileAt(Some(Dir(d)), p).Some? ensures FileAt(Some(Dir(d')), p) == FileAt(Some(Dir(d)), p) {
        assert FileAt(Get(d, p[0]), p[1..]).Some?;
      }
    }
  }

  lemma RenameFileKeeps(data: Bytes, dst: Option<Node>, at: Path, mode: Mode, env: Env, errs: seq<Path>)
    ensures var r := RenameFile(data, dst, at, mode, env, errs);
      Kept(Some(File(data)), dst, r.src, r.dst, mode == FileThrowErr)
  {
    var src := Some(File(data));
    assert forall p :: FileAt(src, p).Some? ==> p == [];
    assert dst.None? ==> forall p :: FileAt(dst, p).None?;
  }

  lemma {:induction false} RenameDirKeeps(src: Node, dst: Option<Node>, at: Path, mode: Mode, env: Env, errs: seq<Path>)
    requires src.Dir?
    ensures var r := RenameDir(src, dst, at, mode, env, errs);
      Kept(Some(src), dst, r.src, r.dst, mode == FileThrowErr) && (r.src.Some? ==> r.src.value.Dir?)
    decreases src, 3
  {
    hide RecurMoveDir;
    if dst.Some? {
      RecurMoveKeeps(src, dst.value, at, mode, env, errs);
    } else {
      RecurMoveKeeps(src, Dir(map[]), at, mode, env, errs);
    }
  }

  lemma {:induction false} RecurMoveKeeps(src: Node, dst: Node, at: Path, mode: Mode, env: Env, errs: seq<Path>)
    requires src.Dir?
    ensures var r := RecurMoveDir(src, dst, at, mode, env, errs);
      Kept(Some(src), Some(dst), r.src, r.dst, mode == FileThrowErr) && r.src.Some? && r.src.value.Dir?
    decreases src, 2
  {
    hide MoveListed, Kept;
    UnchangedIsKept(Some(src), Some(dst));
    KeptWeaker(Some(src), Some(dst), Some(src), Some(dst), mode == FileThrowErr);
    if dst.Dir? && env.scan(at) {
      var names, st := Sorted(src.entries.Keys), Loop(0, src.entries, dst.entries, errs);
      MoveListedKeeps(src, names, st, at, mode, env);
      var end := MoveListed(src, names, st, at, mode, env);
      forall name ensures Kept(Get(st.src, name), Get(st.dst, name), Get(end.src, name), Get(end.dst, name), mode == FileThrowErr) {
        if name !in names {
          UnchangedIsKept(Get(st.src, name), Get(st.dst, name));
          KeptWeaker(Get(st.src, name), Get(st.dst, name), Get(end.src, name), Get(end.dst, name), mode == FileThrowErr);
        }
      }
      EntriesKept(st.src, st.dst, end.src, end.dst, mode == FileThrowErr);
    }
  }

  lemma KeptWeaker(src: Option<Node>, dst: Option<Node>, src': Option<Node>, dst': Option<Node>, keepTarget: bool)
    requires Kept(src, dst, src', dst', true)
    ensures Kept(src, dst, src', dst', keepTarget)
  {
  }

  /** What the loop has not reached yet is as it was. */
  predicate Pending(src: Node, names: seq<Name>, st: Loop)
    requires src.Dir?
  {
    && (forall i, j :: 0 <= i < j < |names| ==> names[i] != names[j])
    && (forall name :: name in names ==> name in src.entries && Get(st.src, name) == Some(src.entries[name]))
  }

  ghost predicate SameElsewhere(st: Loop, st': Loop, names: seq<Name>) {
    forall name :: name !in names ==> Get(st'.src, name) == Get(st.src, name) && Get(st'.dst, name) == Get(st.dst, name)
  }

  lemma {:induction false} MoveListedKeeps(src: Node, names: seq<Name>, st: Loop, at: Path, mode: Mode, env: Env)
    requires src.Dir? && Pending(src, names, st)
    ensures var end := MoveListed(src, names, st, at, mode, env);
      && SameElsewhere(st, end, names)
      && forall name :: name in names ==>
           Kept(Get(st.src, name), Get(st.dst, name), Get(end.src, name), Get(end.dst, name), mode == FileThrowErr)
    decreases src, 1, |names|
  {
    hide MoveOne, Kept;
    if names == [] || st.code != 0 {
      forall name | name in names
        ensures Kept(Get(st.src, name), Get(st.dst, name), Get(st.src, name), Get(st.dst, name), mode == FileThrowErr)
      {
        UnchangedIsKept(Get(st.src, name), Get(st.dst, name));
        KeptWeaker(Get(st.src, name), Get(st.dst, name), Get(st.src, name), Get(st.dst, name), mode == FileThrowErr);
      }
    } else {
      MoveOneKeeps(src, names[0], st, at, mode, env);
      var st' := MoveOne(src, names[0], st, at, mode, env);
      assert names == [names[0]] + names[1..];
      MoveListedKeeps(src, names[1..], st', at, mode, env);
      assert names[0] !in names[1..];
    }
  }

  lemma {:induction false} MoveOneKeeps(src: Node, name: Name, st: Loop, at: Path, mode: Mode, env: Env)
    requires src.Dir? && name in src.entries && Get(st.src, name) == Some(src.entries[name])
    ensures var st' := MoveOne(src, name, st, at, mode, env);
      && SameElsewhere(st, st', [name])
      && Kept(Get(st.src, name), Get(st.dst, name), Get(st'.src, name), Get(st'.dst, name), mode == FileThrowErr)
    decreases src, 0
  {
    hide RenameDir, RenameFile, Kept;
    var child, path := src.entries[name], at + [name];
    if child.Dir? {
      RenameDirKeeps(child, Get(st.dst, name), path, mode, env, st.errs);
      var r := RenameDir(child, Get(st.dst, name), path, mode, env, st.errs);
      EmptyDirHoldsNothing(Some(child), Get(st.dst, name), r.src, r.dst, env.removeSource(path), mode == FileThrowErr);
    } else {
      RenameFileKeeps(child.data, Get(st.dst, name), path, mode, env, st.errs);
    }
  }

  lemma EmptyDirHoldsNothing(src: Option<Node>, dst: Option<Node>, src': Option<Node>, dst': Option<Node>,
                             code: Errno, keepTarget: bool)
    requires Kept(src, dst, src', dst', keepTarget) && (src'.Some? ==> src'.value.Dir?)
    ensures Kept(src, dst, RemovePath(src', code).1, dst', keepTarget)
  {
    assert forall p :: FileAt(Some(Dir(map[])), p).None?;
  }

  // ----- A directory without conflicts is left empty -----

  predicate IsEmptied(src: Option<Node>) {
    src.None? || src == Some(Dir(map[]))
  }

  lemma {:induction false} RenameDirEmpties(src: Node, dst: Option<Node>, at: Path, mode: Mode, env: Env, errs: seq<Path>)
    requires src.Dir?
    ensures var r := RenameDir(src, dst, at, mode, env, errs);
      |errs| <= |r.errs| && (env.scan(at) && r.code == 0 && |r.errs| == |errs| ==> IsEmptied(r.src))
    decreases src, 3
  {
    hide RecurMoveDir;
    if dst.Some? {
      RecurMoveEmpties(src, dst.value, at, mode, env, errs);
    } else {
      RecurMoveEmpties(src, Dir(map[]), at, mode, env, errs);
    }
  }

  lemma {:induction false} RecurMoveEmpties(src: Node, dst: Node, at: Path, mode: Mode, env: Env, errs: seq<Path>)
    requires src.Dir?
    ensures var r := RecurMoveDir(src, dst, at, mode, env, errs);
      |errs| <= |r.errs| && (env.scan(at) && r.code == 0 && |r.errs| == |errs| ==> IsEmptied(r.src))
    decreases src, 2
  {
    hide MoveListed;
    if dst.Dir? {
      MoveListedEmpties(src, Sorted(src.entries.Keys), Loop(0, src.entries, dst.entries, errs), at, mode, env);
    }
  }

  lemma {:induction false} MoveListedEmpties(src: Node, names: seq<Name>, st: Loop, at: Path, mode: Mode, env: Env)
    requires src.Dir? && Pending(src, names, st)
    requires st.code == 0 ==> forall name :: name in st.src ==> name in names
    ensures var end := MoveListed(src, names, st, at, mode, env);
      |st.errs| <= |end.errs| && (end.code == 0 && |end.errs| == |st.errs| ==> end.src == map[])
    decreases src, 1, |names|
  {
    hide MoveOne;
    if names != [] && st.code == 0 {
      MoveOneEmpties(src, names[0], st, at, mode, env);
      MoveOneKeeps(src, names[0], st, at, mode, env);
      var st' := MoveOne(src, names[0], st, at, mode, env);
      assert names == [names[0]] + names[1..];
      if st'.code == 0 && |st'.errs| == |st.errs| {
        forall name | name in st'.src ensures name in names[1..] {
          assert name != names[0];
          assert Get(st'.src, name) == Get(st.src, name);
        }
        MoveListedEmpties(src, names[1..], st', at, mode, env);
      } else {
        ErrorsGrow(src, names[1..], st', at, mode, env);
      }
    }
  }

  lemma {:induction false} ErrorsGrow(src: Node, names: seq<Name>, st: Loop, at: Path, mode: Mode, env: Env)
    requires src.Dir? && forall name :: name in names ==> name in src.entries
    ensures var end := MoveListed(src, names, st, at, mode, env);
      |st.errs| <= |end.errs| && (st.code != 0 ==> end == st)
    decreases src, 1, |names|
  {
    hide MoveOne;
    if names != [] && st.code == 0 {
      MoveOneEmpties(src, names[0], st, at, mode, env);
      ErrorsGrow(src, names[1..], MoveOne(src, names[0], st, at, mode, env), at, mode, env);
    }
  }

  /** An entry moved without error or conflict is gone from the source: a subdirectory that still
      holds something, even one whose scan failed, makes its removal fail. */
  lemma {:induction false} MoveOneEmpties(src: Node, name: Name, st: Loop, at: Path, mode: Mode, env: Env)
    requires src.Dir? && name in src.entries
    ensures var st' := MoveOne(src, name, st, at, mode, env);
      |st.errs| <= |st'.errs| && (st'.code == 0 && |st'.errs| == |st.errs| ==> name !in st'.src)
    decreases src, 0
  {
    hide RenameDir;
    var child, path := src.entries[name], at + [name];
    if child.Dir? {
      RenameDirEmpties(child, Get(st.dst, name), path, mode, env, st.errs);
    }
  }

  // ----- Main results -----

  /** The target that a move merges into: none if an existing one is replaced as a whole. */
  function MergedInto(dst: Option<Node>, mode: Mode): Option<Node> {
    if mode == DirectoryReplace && NotEmpty(dst) then None else dst
  }

  /** The directory into which the source directory itself is scanned; None if the move does not get
      that far, or renames the source without looking into it. */
  function ScannedInto(dst: Option<Node>, mode: Mode, env: Env): Option<Entries> {
    var into := MergedInto(dst, mode);
    if NotEmpty(dst) && (mode == DirectoryThrowErr || (mode == DirectoryReplace && env.removeAllTarget != 0)) then None
    else if into.Some? then (if into.value.Dir? then Some(into.value.entries) else None)
    else if env.rename([]) == EXDEV && env.mkdir([]) == 0 && env.utime([]) == 0 then Some(map[])
    else None
  }

  /** What a recursive removal of the source leaves of it. */
  function RemovalLeaves(env: Env): Option<Node> {
    if env.removeAllSource == 0 then None else env.sourceLeft
  }

  /** Every file of the source is in one of two trees. */
  ghost predicate FilesIn(src: Node, a: Option<Node>, b: Option<Node>) {
    forall p | FileAt(Some(src), p).Some? ::
      FileAt(a, p) == FileAt(Some(src), p) || FileAt(b, p) == FileAt(Some(src), p)
  }

  /** A move whose scan of the source directory fails does not notice it: it removes the source, and
      reports success if it can.  (The code then also frees the list that the scan has not made; that
      this does no harm is an assumption here.) */
  lemma FailedScanRemovesSource(src: Node, dst: Option<Node>, mode: Mode, env: Env)
    requires src.Dir? && !env.scan([]) && ScannedInto(dst, mode, env).Some?
    ensures MoveDir(src, dst, mode, env)
            == Moved(env.removeAllSource, RemovalLeaves(env), Some(Dir(ScannedInto(dst, mode, env).value)), [])
  {
    var target := ScannedInto(dst, mode, env).value;
    assert RecurMoveDir(src, Dir(target), [], mode, env, []) == Moved(0, Some(src), Some(Dir(target)), []);
  }

  /** When nothing of the source is lost: in every mode, and whatever step fails, each source file is
      afterwards where it was or at its target, exactly if the scan of the source directory itself
      succeeds, or is not made, or all source files happen to be in the target already (or to
      survive a failing removal). */
  lemma NothingIsLost(src: Node, dst: Option<Node>, mode: Mode, env: Env)
    requires src.Dir?
    ensures var r, into := MoveDir(src, dst, mode, env), ScannedInto(dst, mode, env);
      FilesIn(src, r.src, r.dst) <==>
        env.scan([]) || into.None? || FilesIn(src, RemovalLeaves(env), Some(Dir(into.value)))
  {
    if !env.scan([]) && ScannedInto(dst, mode, env).Some? {
      FailedScanRemovesSource(src, dst, mode, env);
    } else {
      hide RenameDir;
      ContentsKept(src, dst, mode, env);
      SourceRemovedOnlyWhenEmpty(src, dst, mode, env);
      assert forall p :: FileAt(Some(Dir(map[])), p).None?;
    }
  }

  /** A mode that reports conflicts of files, or that requires an empty target, also keeps every
      target file, whatever step fails. */
  lemma {:induction false} TargetIsKept(src: Node, dst: Option<Node>, mode: Mode, env: Env)
    requires src.Dir? && (mode == FileThrowErr || mode == DirectoryThrowErr)
    ensures var r := MoveDir(src, dst, mode, env);
      forall p | FileAt(dst, p).Some? :: FileAt(r.dst, p) == FileAt(dst, p)
  {
    hide RenameDir;
    ContentsKept(src, dst, mode, env);
    EmptyTarget(src, dst, env);
  }

  lemma {:induction false} ContentsKept(src: Node, dst: Option<Node>, mode: Mode, env: Env)
    requires src.Dir?
    ensures var r := MoveContents(src, dst, mode, env);
      FilesIn(src, r.src, r.dst)
      && (mode == FileThrowErr ==> forall p | FileAt(dst, p).Some? :: FileAt(r.dst, p) == FileAt(dst, p))
  {
    hide RenameDir;
    RenameDirKeeps(src, None, [], mode, env, []);
    RenameDirKeeps(src, dst, [], mode, env, []);
  }

  lemma {:induction false} EmptyTarget(src: Node, dst: Option<Node>, env: Env)
    requires src.Dir?
    ensures var r := MoveContents(src, dst, DirectoryThrowErr, env);
      forall p | FileAt(dst, p).Some? :: FileAt(r.dst, p) == FileAt(dst, p)
  {
    assert forall p :: FileAt(Some(Dir(map[])), p).None?;
    if dst == Some(File([])) {
      assert RenameDir(src, dst, [], DirectoryThrowErr, env, []) == RecurMoveDir(src, File([]), [], DirectoryThrowErr, env, []);
    } else if !NotEmpty(dst) {
      assert forall p :: FileAt(dst, p).None?;
    }
  }

  /** When the recursive removal of the source runs, the source is gone or an empty directory, exactly
      unless it had entries and its own scan failed. */
  lemma SourceRemovedOnlyWhenEmpty(src: Node, dst: Option<Node>, mode: Mode, env: Env)
    requires src.Dir?
    ensures var r := MoveContents(src, dst, mode, env);
      r.code == 0 && r.errs == [] ==>
        (IsEmptied(r.src) <==> src.entries == map[] || env.scan([]) || ScannedInto(dst, mode, env).None?)
  {
    RenameDirEmpties(src, MergedInto(dst, mode), [], mode, env, []);
    if !env.scan([]) && ScannedInto(dst, mode, env).Some? {
      var target := ScannedInto(dst, mode, env).value;
      assert RecurMoveDir(src, Dir(target), [], mode, env, []) == Moved(0, Some(src), Some(Dir(target)), []);
    }
  }
}
