/** The order of the conflict list: conflicts that involve a directory come before conflicts of two
    files, whatever calls fail. */
module MoveConflicts {
  import opened SwapTypes
  import opened Names
  import opened MoveSpec
  import opened MoveTheorems
  import opened MoveFates

  /** A clash at path `p`, of two files or not. */
  predicate KindAt(src: Option<Node>, dst: Option<Node>, mode: Mode, p: Path, files: bool)
    decreases |p|
  {
    if p == [] then Clash(src, dst, mode) && (files <==> src.value.File? && dst.value.File?)
    else KindAt(Child(src, p[0]), Child(dst, p[0]), mode, p[1..], files)
  }

  predicate OfKind(src: Option<Node>, dst: Option<Node>, mode: Mode, at: Path, qs: seq<Path>, files: bool) {
    forall q :: q in qs ==> at <= q && KindAt(src, dst, mode, q[|at|..], files)
  }

  /** The same below the entries `names`. */
  predicate OfKindBelow(src: Node, dst: Entries, names: seq<Name>, mode: Mode, at: Path, qs: seq<Path>, files: bool)
    requires src.Dir?
  {
    forall q :: q in qs ==>
      && at < q && q[|at|] in names
      && KindAt(Get(src.entries, q[|at|]), Get(dst, q[|at|]), mode, q[|at| + 1..], files)
  }

  lemma {:induction false} NoKindWithout(src: Option<Node>, dst: Option<Node>, mode: Mode, p: Path, files: bool)
    requires src.None? || dst.None?
    ensures !KindAt(src, dst, mode, p, files)
    decreases |p|
  {
    if p != [] {
      NoKindWithout(Child(src, p[0]), Child(dst, p[0]), mode, p[1..], files);
    }
  }

  lemma NothingInNewDir(src: Node, mode: Mode, at: Path, qs: seq<Path>, files: bool)
    requires src.Dir? && OfKind(Some(src), Some(Dir(map[])), mode, at, qs, files)
    ensures qs == []
  {
    if qs != [] {
      var q := qs[0];
      assert q in qs;
      var p := q[|at|..];
      if p != [] {
        NoKindWithout(Child(Some(src), p[0]), None, mode, p[1..], files);
      }
    }
  }

  lemma {:induction false} RenameDirGrows(src: Node, dst: Option<Node>, at: Path, mode: Mode, env: Env, errs: seq<Path>)
    returns (front: seq<Path>, back: seq<Path>)
    requires src.Dir?
    ensures RenameDir(src, dst, at, mode, env, errs).errs == front + errs + back
    ensures OfKind(Some(src), dst, mode, at, front, false) && OfKind(Some(src), dst, mode, at, back, true)
    decreases src, 3
  {
    hide RecurMoveDir, OfKind;
    if dst.Some? {
      front, back := RecurMoveGrows(src, dst.value, at, mode, env, errs);
    } else {
      front, back := RecurMoveGrows(src, Dir(map[]), at, mode, env, errs);
      NothingInNewDir(src, mode, at, front, false);
      NothingInNewDir(src, mode, at, back, true);
      NoneOfKind(Some(src), dst, mode, at);
    }
  }

  lemma NoneOfKind(src: Option<Node>, dst: Option<Node>, mode: Mode, at: Path)
    ensures OfKind(src, dst, mode, at, [], false) && OfKind(src, dst, mode, at, [], true)
  {
  }

  lemma {:induction false} RecurMoveGrows(src: Node, dst: Node, at: Path, mode: Mode, env: Env, errs: seq<Path>)
    returns (front: seq<Path>, back: seq<Path>)
    requires src.Dir?
    ensures RecurMoveDir(src, dst, at, mode, env, errs).errs == front + errs + back
    ensures OfKind(Some(src), Some(dst), mode, at, front, false) && OfKind(Some(src), Some(dst), mode, at, back, true)
    decreases src, 2
  {
    hide MoveListed;
    front, back := [], [];
    if !dst.Dir? {
      front := [at];
    } else if env.scan(at) {
      var names := Sorted(src.entries.Keys);
      front, back := MoveListedGrows(src, names, Loop(0, src.entries, dst.entries, errs), at, mode, env);
      BelowIsOfKind(src, dst, names, mode, at, front, false);
      BelowIsOfKind(src, dst, names, mode, at, back, true);
    }
  }

  lemma BelowIsOfKind(src: Node, dst: Node, names: seq<Name>, mode: Mode, at: Path, qs: seq<Path>, files: bool)
    requires src.Dir? && dst.Dir? && OfKindBelow(src, dst.entries, names, mode, at, qs, files)
    ensures OfKind(Some(src), Some(dst), mode, at, qs, files)
  {
    forall q | q in qs ensures at <= q && KindAt(Some(src), Some(dst), mode, q[|at|..], files) {
      assert q[|at|..][0] == q[|at|] && q[|at|..][1..] == q[|at| + 1..];
    }
  }

  lemma {:induction false} MoveListedGrows(src: Node, names: seq<Name>, st: Loop, at: Path, mode: Mode, env: Env)
    returns (front: seq<Path>, back: seq<Path>)
    requires src.Dir? && Pending(src, names, st)
    ensures MoveListed(src, names, st, at, mode, env).errs == front + st.errs + back
    ensures OfKindBelow(src, st.dst, names, mode, at, front, false)
    ensures OfKindBelow(src, st.dst, names, mode, at, back, true)
    decreases src, 1, |names|
  {
    hide MoveOne, OfKind, OfKindBelow, Pending, SameElsewhere, Kept;
    front, back := [], [];
    NoneBelow(src, st.dst, names, mode, at);
    if names != [] && st.code == 0 {
      PendingNext(src, names, st, at, mode, env);
      var f1, b1 := MoveOneGrows(src, names[0], st, at, mode, env);
      var st' := MoveOne(src, names[0], st, at, mode, env);
      var f2, b2 := MoveListedGrows(src, names[1..], st', at, mode, env);
      front, back := f2 + f1, b1 + b2;
      OneMoreBelow(src, names, st, st', mode, at, f1, f2, false);
      OneMoreBelow(src, names, st, st', mode, at, b1, b2, true);
      OtherWayRound(src, st.dst, names, mode, at, f1, f2);
    }
  }

  lemma {:induction false} PendingNext(src: Node, names: seq<Name>, st: Loop, at: Path, mode: Mode, env: Env)
    requires src.Dir? && names != [] && Pending(src, names, st)
    ensures names[0] in src.entries && names[0] !in names[1..]
    ensures var st' := MoveOne(src, names[0], st, at, mode, env);
      Pending(src, names[1..], st') && SameElsewhere(st, st', [names[0]])
  {
    hide MoveOne, Kept;
    assert names == [names[0]] + names[1..];
    MoveOneKeeps(src, names[0], st, at, mode, env);
  }

  lemma NoneBelow(src: Node, dst: Entries, names: seq<Name>, mode: Mode, at: Path)
    requires src.Dir?
    ensures OfKindBelow(src, dst, names, mode, at, [], false) && OfKindBelow(src, dst, names, mode, at, [], true)
  {
  }

  lemma OtherWayRound(src: Node, dst: Entries, names: seq<Name>, mode: Mode, at: Path, a: seq<Path>, b: seq<Path>)
    requires src.Dir? && OfKindBelow(src, dst, names, mode, at, a + b, false)
    ensures OfKindBelow(src, dst, names, mode, at, b + a, false)
  {
    assert forall q :: q in b + a <==> q in a + b;
  }

  lemma OneMoreBelow(src: Node, names: seq<Name>, st: Loop, st': Loop, mode: Mode, at: Path, one: seq<Path>, more: seq<Path>, files: bool)
    requires src.Dir? && names != [] && names[0] !in names[1..] && SameElsewhere(st, st', [names[0]])
    requires OfKind(Get(src.entries, names[0]), Get(st.dst, names[0]), mode, at + [names[0]], one, files)
    requires OfKindBelow(src, st'.dst, names[1..], mode, at, more, files)
    ensures OfKindBelow(src, st.dst, names, mode, at, one + more, files)
  {
    assert names == [names[0]] + names[1..];
    forall q | q in one + more
      ensures at < q && q[|at|] in names
      ensures KindAt(Get(src.entries, q[|at|]), Get(st.dst, q[|at|]), mode, q[|at| + 1..], files)
    {
      if q in one {
        assert at + [names[0]] <= q;
      } else {
        assert q[|at|] !in [names[0]];
      }
    }
  }

  lemma MoveOneGrows(src: Node, name: Name, st: Loop, at: Path, mode: Mode, env: Env)
    returns (front: seq<Path>, back: seq<Path>)
    requires src.Dir? && name in src.entries
    ensures MoveOne(src, name, st, at, mode, env).errs == front + st.errs + back
    ensures OfKind(Get(src.entries, name), Get(st.dst, name), mode, at + [name], front, false)
    ensures OfKind(Get(src.entries, name), Get(st.dst, name), mode, at + [name], back, true)
    decreases src, 0
  {
    hide RenameDir;
    var child, path, dst := src.entries[name], at + [name], Get(st.dst, name);
    if child.Dir? {
      front, back := RenameDirGrows(child, dst, path, mode, env, st.errs);
    } else {
      front := if dst.Some? && dst.value.Dir? then [path] else [];
      back := if dst.Some? && dst.value.File? && mode == FileThrowErr then [path] else [];
    }
  }

  /** The conflicts of a move: first those in which a directory meets a file, then those of two files. */
  lemma {:induction false} DirectoriesFirst(src: Node, dst: Option<Node>, mode: Mode, env: Env) returns (k: nat)
    requires src.Dir?
    ensures var errs, into := MoveDir(src, dst, mode, env).errs, MergedInto(dst, mode);
      && k <= |errs|
      && OfKind(Some(src), into, mode, [], errs[..k], false)
      && OfKind(Some(src), into, mode, [], errs[k..], true)
  {
    hide RenameDir;
    var front, back := RenameDirGrows(src, MergedInto(dst, mode), [], mode, env, []);
    var errs := MoveDir(src, dst, mode, env).errs;
    k := if errs == [] then 0 else |front|;
    if errs != [] {
      assert errs == front + back;
      assert errs[..k] == front && errs[k..] == back;
    }
  }
}
