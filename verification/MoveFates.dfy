/** Where every file ends up, and which conflicts are reported, when no call fails. */
module MoveFates {
  import opened SwapTypes
  import opened Names
  import opened MoveSpec
  import opened MoveTheorems
  import opened MoveMeaning

  function Child(n: Option<Node>, name: Name): Option<Node> {
    if n.Some? && n.value.Dir? then Get(n.value.entries, name) else None
  }

  /** Source and target have the same name and cannot be merged or replaced. */
  predicate Clash(src: Option<Node>, dst: Option<Node>, mode: Mode) {
    && src.Some? && dst.Some?
    && !(src.value.Dir? && dst.value.Dir?)
    && (src.value.File? && dst.value.File? ==> mode == FileThrowErr)
  }

  predicate ClashAt(src: Option<Node>, dst: Option<Node>, mode: Mode, p: Path)
    decreases |p|
  {
    if p == [] then Clash(src, dst, mode) else ClashAt(Child(src, p[0]), Child(dst, p[0]), mode, p[1..])
  }

  /** The path or one of its ancestors clashes. */
  predicate Blocked(src: Option<Node>, dst: Option<Node>, mode: Mode, p: Path)
    decreases |p|
  {
    Clash(src, dst, mode) || (p != [] && Blocked(Child(src, p[0]), Child(dst, p[0]), mode, p[1..]))
  }

  /** A source file is at its target unless its path is blocked, and then it is where it was; every
      other target file is untouched. */
  ghost predicate Settled(src: Option<Node>, dst: Option<Node>, src': Option<Node>, dst': Option<Node>, mode: Mode) {
    forall p :: FileSettled(src, dst, src', dst', mode, p)
  }

  predicate FileSettled(src: Option<Node>, dst: Option<Node>, src': Option<Node>, dst': Option<Node>, mode: Mode, p: Path) {
    if FileAt(src, p).Some? && !Blocked(src, dst, mode, p) then
      FileAt(src', p).None? && FileAt(dst', p) == FileAt(src, p)
    else
      FileAt(src', p) == FileAt(src, p) && FileAt(dst', p) == FileAt(dst, p)
  }

  lemma {:induction false} NeverBlocked(src: Option<Node>, dst: Option<Node>, mode: Mode, p: Path)
    requires src.None? || dst.None?
    ensures !Blocked(src, dst, mode, p) && !ClashAt(src, dst, mode, p)
    decreases |p|
  {
    if p != [] {
      NeverBlocked(Child(src, p[0]), Child(dst, p[0]), mode, p[1..]);
    }
  }

  lemma NewTargetSettles(src: Option<Node>, src': Option<Node>, mode: Mode)
    requires IsEmptied(src')
    ensures Settled(src, None, src', src, mode)
  {
    forall p ensures FileSettled(src, None, src', src, mode, p) {
      NeverBlocked(src, None, mode, p);
    }
  }

  lemma NoSourceSettles(dst: Option<Node>, mode: Mode)
    ensures Settled(None, dst, None, dst, mode)
  {
  }

  lemma EntriesSettled(s: Entries, d: Entries, s': Entries, d': Entries, mode: Mode)
    requires forall name :: Settled(Get(s, name), Get(d, name), Get(s', name), Get(d', name), mode)
    ensures Settled(Some(Dir(s)), Some(Dir(d)), Some(Dir(s')), Some(Dir(d')), mode)
  {
    forall p ensures FileSettled(Some(Dir(s)), Some(Dir(d)), Some(Dir(s')), Some(Dir(d')), mode, p) {
      if p != [] {
        assert FileSettled(Get(s, p[0]), Get(d, p[0]), Get(s', p[0]), Get(d', p[0]), mode, p[1..]);
      }
    }
  }

  lemma RenameFileSettles(data: Bytes, dst: Option<Node>, at: Path, mode: Mode, env: Env, errs: seq<Path>)
    requires Quiet(env)
    ensures var r := RenameFile(data, dst, at, mode, env, errs);
      && r.code == 0
      && Settled(Some(File(data)), dst, r.src, r.dst, mode)
      && (Clash(Some(File(data)), dst, mode) ==> at in r.errs)
      && (forall q :: q in r.errs <==> q in errs || (q == at && Clash(Some(File(data)), dst, mode)))
  {
    var src := Some(File(data));
    var r := RenameFile(data, dst, at, mode, env, errs);
    forall p ensures FileSettled(src, dst, r.src, r.dst, mode, p) {
      if p != [] {
        NeverBlocked(None, Child(dst, p[0]), mode, p[1..]);
      }
    }
  }

  /** The conflict list has grown by exactly the clashing paths below `at`. */
  ghost predicate Reported(src: Option<Node>, dst: Option<Node>, mode: Mode, at: Path, errs: seq<Path>, errs': seq<Path>) {
    forall q :: q in errs' <==> q in errs || (at <= q && ClashAt(src, dst, mode, q[|at|..]))
  }

  lemma {:induction false} RenameDirSettles(src: Node, dst: Option<Node>, at: Path, mode: Mode, env: Env, errs: seq<Path>)
    requires src.Dir? && Quiet(env)
    ensures var r := RenameDir(src, dst, at, mode, env, errs);
      && r.code == 0
      && Settled(Some(src), dst, r.src, r.dst, mode)
      && Reported(Some(src), dst, mode, at, errs, r.errs)
    decreases src, 3
  {
    hide RecurMoveDir, Settled;
    if dst.Some? {
      RecurMoveSettles(src, dst.value, at, mode, env, errs);
    } else {
      CopyDir(src, at, mode, env, errs);
      var r := RenameDir(src, dst, at, mode, env, errs);
      NewTargetSettles(Some(src), r.src, mode);
      forall p ensures !ClashAt(Some(src), dst, mode, p) {
        NeverBlocked(Some(src), dst, mode, p);
      }
    }
  }

  lemma {:induction false} RecurMoveSettles(src: Node, dst: Node, at: Path, mode: Mode, env: Env, errs: seq<Path>)
    requires src.Dir? && Quiet(env)
    ensures var r := RecurMoveDir(src, dst, at, mode, env, errs);
      && r.code == 0
      && Settled(Some(src), Some(dst), r.src, r.dst, mode)
      && Reported(Some(src), Some(dst), mode, at, errs, r.errs)
    decreases src, 2
  {
    hide MoveListed, Settled, Reported;
    if dst.Dir? {
      var names, st := Sorted(src.entries.Keys), Loop(0, src.entries, dst.entries, errs);
      MoveListedSettles(src, names, st, at, mode, env);
      MoveListedKeeps(src, names, st, at, mode, env);
      var end := MoveListed(src, names, st, at, mode, env);
      forall name ensures Settled(Get(st.src, name), Get(st.dst, name), Get(end.src, name), Get(end.dst, name), mode) {
        if name !in names {
          NoSourceSettles(Get(st.dst, name), mode);
        }
      }
      EntriesSettled(st.src, st.dst, end.src, end.dst, mode);
      EntriesReported(src, dst, names, at, mode, errs, end.errs);
    } else {
      ClashSettles(src, dst, at, mode, errs);
    }
  }

  lemma ClashSettles(src: Node, dst: Node, at: Path, mode: Mode, errs: seq<Path>)
    requires src.Dir? && !dst.Dir?
    ensures Settled(Some(src), Some(dst), Some(src), Some(dst), mode)
    ensures Reported(Some(src), Some(dst), mode, at, errs, [at] + errs)
  {
    forall q ensures q in [at] + errs <==> q in errs || (at <= q && ClashAt(Some(src), Some(dst), mode, q[|at|..])) {
      if at <= q && q != at {
        var p := q[|at|..];
        NeverBlocked(Child(Some(src), p[0]), None, mode, p[1..]);
      }
    }
  }

  /** A clashing path below one of the entries `names`. */
  predicate ClashBelow(src: Node, dst: Entries, names: seq<Name>, mode: Mode, at: Path, q: Path)
    requires src.Dir?
  {
    at < q && q[|at|] in names && ClashAt(Get(src.entries, q[|at|]), Get(dst, q[|at|]), mode, q[|at| + 1..])
  }

  ghost predicate ReportedFor(src: Node, dst: Entries, names: seq<Name>, mode: Mode, at: Path, errs: seq<Path>, errs': seq<Path>)
    requires src.Dir?
  {
    forall q :: q in errs' <==> q in errs || ClashBelow(src, dst, names, mode, at, q)
  }

  lemma EntriesReported(src: Node, dst: Node, names: seq<Name>, at: Path, mode: Mode, errs: seq<Path>, errs': seq<Path>)
    requires src.Dir? && dst.Dir? && (forall name :: name in names <==> name in src.entries)
    requires ReportedFor(src, dst.entries, names, mode, at, errs, errs')
    ensures Reported(Some(src), Some(dst), mode, at, errs, errs')
  {
    forall q ensures q in errs' <==> q in errs || (at <= q && ClashAt(Some(src), Some(dst), mode, q[|at|..])) {
      if at < q {
        var p := q[|at|..];
        assert p[0] == q[|at|] && p[1..] == q[|at| + 1..];
        if p[0] !in names {
          NeverBlocked(None, Child(Some(dst), p[0]), mode, p[1..]);
        }
      }
    }
  }

  lemma {:induction false} MoveListedSettles(src: Node, names: seq<Name>, st: Loop, at: Path, mode: Mode, env: Env)
    requires src.Dir? && Quiet(env) && Pending(src, names, st) && st.code == 0
    ensures var end := MoveListed(src, names, st, at, mode, env);
      && end.code == 0
      && (forall name :: name in names ==>
            Settled(Get(st.src, name), Get(st.dst, name), Get(end.src, name), Get(end.dst, name), mode))
      && ReportedFor(src, st.dst, names, mode, at, st.errs, end.errs)
    decreases src, 1, |names|
  {
    hide MoveOne, Settled, ReportedFor, Reported;
    if names == [] {
      NothingReported(src, st.dst, at, mode, st.errs);
    } else {
      var st' := MoveOne(src, names[0], st, at, mode, env);
      MoveOneSettles(src, names[0], st, at, mode, env);
      MoveOneKeeps(src, names[0], st, at, mode, env);
      assert names == [names[0]] + names[1..];
      assert names[0] !in names[1..];
      MoveListedSettles(src, names[1..], st', at, mode, env);
      MoveListedKeeps(src, names[1..], st', at, mode, env);
      OneMoreReported(src, names, st, st', at, mode, MoveListed(src, names, st, at, mode, env).errs);
    }
  }

  lemma NothingReported(src: Node, dst: Entries, at: Path, mode: Mode, errs: seq<Path>)
    requires src.Dir?
    ensures ReportedFor(src, dst, [], mode, at, errs, errs)
  {
  }

  lemma OneMoreReported(src: Node, names: seq<Name>, st: Loop, st': Loop, at: Path, mode: Mode, errs: seq<Path>)
    requires src.Dir? && Pending(src, names, st) && names != []
    requires SameElsewhere(st, st', [names[0]])
    requires Reported(Get(src.entries, names[0]), Get(st.dst, names[0]), mode, at + [names[0]], st.errs, st'.errs)
    requires ReportedFor(src, st'.dst, names[1..], mode, at, st'.errs, errs)
    ensures ReportedFor(src, st.dst, names, mode, at, st.errs, errs)
  {
    assert names == [names[0]] + names[1..];
    forall q ensures q in errs <==> q in st.errs || ClashBelow(src, st.dst, names, mode, at, q) {
      if at < q {
        assert at + [names[0]] <= q <==> q[|at|] == names[0];
        assert q[|at|] != names[0] ==> Get(st'.dst, q[|at|]) == Get(st.dst, q[|at|]);
      }
    }
  }

  lemma {:induction false} MoveOneSettles(src: Node, name: Name, st: Loop, at: Path, mode: Mode, env: Env)
    requires src.Dir? && Quiet(env) && name in src.entries && Get(st.src, name) == Some(src.entries[name])
    ensures var st' := MoveOne(src, name, st, at, mode, env);
      && st'.code == 0
      && Settled(Get(st.src, name), Get(st.dst, name), Get(st'.src, name), Get(st'.dst, name), mode)
      && Reported(Get(src.entries, name), Get(st.dst, name), mode, at + [name], st.errs, st'.errs)
    decreases src, 0
  {
    hide RenameDir, RenameFile, Settled, Reported;
    var child, path, dst := src.entries[name], at + [name], Get(st.dst, name);
    if child.Dir? {
      RenameDirSettles(child, dst, path, mode, env, st.errs);
      RenameDirEmpties(child, dst, path, mode, env, st.errs);
      var r := RenameDir(child, dst, path, mode, env, st.errs);
      RemovedSettles(Some(child), dst, r.src, r.dst, mode);
    } else {
      RenameFileSettles(child.data, dst, path, mode, env, st.errs);
      FileReported(child, dst, mode, path, st.errs, RenameFile(child.data, dst, path, mode, env, st.errs).errs);
    }
  }

  lemma RemovedSettles(src: Option<Node>, dst: Option<Node>, src': Option<Node>, dst': Option<Node>, mode: Mode)
    requires Settled(src, dst, src', dst', mode)
    ensures IsEmptied(src') ==> Settled(src, dst, None, dst', mode)
  {
    if IsEmptied(src') {
      forall p ensures FileSettled(src, dst, None, dst', mode, p) {
        assert FileSettled(src, dst, src', dst', mode, p);
        assert FileAt(src', p).None?;
      }
    }
  }

  lemma FileReported(src: Node, dst: Option<Node>, mode: Mode, at: Path, errs: seq<Path>, errs': seq<Path>)
    requires src.File?
    requires forall q :: q in errs' <==> q in errs || (q == at && Clash(Some(src), dst, mode))
    ensures Reported(Some(src), dst, mode, at, errs, errs')
  {
    forall q ensures q in errs' <==> q in errs || (at <= q && ClashAt(Some(src), dst, mode, q[|at|..])) {
      if at < q {
        var p := q[|at|..];
        NeverBlocked(None, Child(dst, p[0]), mode, p[1..]);
      }
    }
  }

  /** A move without failing calls, on one device or several, except into a target that has to be
      empty and is not: every file ends up where `Settled` says, exactly the clashing paths are
      reported, and the move succeeds, leaving no source, exactly when there are none. */
  lemma {:induction false} MoveOutcome(src: Node, dst: Option<Node>, mode: Mode, env: Env)
    requires src.Dir? && Quiet(env) && !(mode == DirectoryThrowErr && NotEmpty(dst))
    ensures var r, into := MoveDir(src, dst, mode, env), MergedInto(dst, mode);
      && Settled(Some(src), into, r.src, r.dst, mode)
      && (forall q :: q in r.errs <==> ClashAt(Some(src), into, mode, q))
      && r.code == (if exists q :: ClashAt(Some(src), into, mode, q) then EEXIST else 0)
      && (r.code == 0 ==> r.src == None)
  {
    hide RenameDir, Settled;
    var into := MergedInto(dst, mode);
    var r := RenameDir(src, into, [], mode, env, []);
    RenameDirSettles(src, into, [], mode, env, []);
    RenameDirEmpties(src, into, [], mode, env, []);
    RemovedSettles(Some(src), into, r.src, r.dst, mode);
    forall q ensures q in r.errs <==> ClashAt(Some(src), into, mode, q) {
      assert q[0..] == q;
    }
    if r.errs != [] {
      assert r.errs[0] in r.errs;
    }
  }
}
