/** What a move does when no call fails, except that renames may have to cross devices. */
module MoveMeaning {
  import opened SwapTypes
  import opened Names
  import opened MoveSpec
  import opened MoveTheorems

  /** No call fails; each rename succeeds or returns EXDEV. */
  ghost predicate Quiet(env: Env) {
    && (forall p :: env.rename(p) == 0 || env.rename(p) == EXDEV)
    && (forall p :: env.scan(p))
    && (forall p :: env.mkdir(p) == 0)
    && (forall p :: env.utime(p) == 0)
    && (forall p :: env.removeTarget(p) == 0)
    && (forall p :: env.copy(p) == 0)
    && (forall p :: env.removeSource(p) == 0)
    && env.removeAllTarget == 0
    && env.removeAllSource == 0
  }

  /** The same environment on a single device. */
  function OneDevice(env: Env): Env {
    env.(rename := (p: Path) => 0)
  }

  // ----- Moving across devices into a new directory copies it exactly -----

  lemma {:induction false} CopyDir(src: Node, at: Path, mode: Mode, env: Env, errs: seq<Path>)
    requires src.Dir? && Quiet(env)
    ensures RecurMoveDir(src, Dir(map[]), at, mode, env, errs) == Moved(0, Some(Dir(map[])), Some(src), errs)
    decreases src, 1
  {
    hide MoveListed;
    CopyListed(src, Sorted(src.entries.Keys), Loop(0, src.entries, map[], errs), at, mode, env);
  }

  /** The loop has moved every entry but those in `names`. */
  ghost predicate HalfCopied(src: Node, names: seq<Name>, st: Loop)
    requires src.Dir?
  {
    && (forall i, j :: 0 <= i < j < |names| ==> names[i] != names[j])
    && (forall name :: name in names ==> name in src.entries)
    && (forall name :: Get(st.src, name) == if name in names then Get(src.entries, name) else None)
    && (forall name :: Get(st.dst, name) == if name in names then None else Get(src.entries, name))
  }

  lemma {:induction false} CopyListed(src: Node, names: seq<Name>, st: Loop, at: Path, mode: Mode, env: Env)
    requires src.Dir? && Quiet(env) && HalfCopied(src, names, st) && st.code == 0
    ensures MoveListed(src, names, st, at, mode, env) == Loop(0, map[], src.entries, st.errs)
    decreases src, 0, |names| + 1
  {
    hide MoveOne, Quiet;
    if names == [] {
      SameGets(st.src, map[]);
      SameGets(st.dst, src.entries);
    } else {
      var name := names[0];
      assert Get(st.src, name).Some? && Get(st.dst, name).None?;
      CopyOne(src, name, st, at, mode, env);
      var st' := MoveOne(src, name, st, at, mode, env);
      HalfCopiedOne(src, names, st, st');
      CopyListed(src, names[1..], st', at, mode, env);
    }
  }

  lemma HalfCopiedOne(src: Node, names: seq<Name>, st: Loop, st': Loop)
    requires src.Dir? && names != [] && HalfCopied(src, names, st)
    requires st'.src == st.src - {names[0]} && st'.dst == st.dst[names[0] := src.entries[names[0]]]
    ensures HalfCopied(src, names[1..], st')
  {
    assert names == [names[0]] + names[1..];
    assert names[0] !in names[1..];
    forall name
      ensures Get(st'.src, name) == if name in names[1..] then Get(src.entries, name) else None
      ensures Get(st'.dst, name) == if name in names[1..] then None else Get(src.entries, name)
    {
      assert Get(st.src, name) == if name in names then Get(src.entries, name) else None;
      assert Get(st.dst, name) == if name in names then None else Get(src.entries, name);
    }
  }

  lemma SameGets(a: Entries, b: Entries)
    requires forall name :: Get(a, name) == Get(b, name)
    ensures a == b
  {
    forall name ensures name in a <==> name in b {
      assert Get(a, name) == Get(b, name);
    }
    forall name | name in a ensures a[name] == b[name] {
      assert Get(a, name) == Get(b, name);
    }
  }

  lemma {:induction false} CopyOne(src: Node, name: Name, st: Loop, at: Path, mode: Mode, env: Env)
    requires src.Dir? && Quiet(env) && name in src.entries && name !in st.dst && name in st.src
    ensures MoveOne(src, name, st, at, mode, env)
            == Loop(0, st.src - {name}, st.dst[name := src.entries[name]], st.errs)
    decreases src, 0, 0
  {
    hide RecurMoveDir;
    var child := src.entries[name];
    if child.Dir? {
      CopyDir(child, at + [name], mode, env, st.errs);
    }
  }

  // ----- The slow path refines rename -----

  /** The same result, up to an emptied source that its caller removes. */
  predicate SameMove(errs: seq<Path>, r: Moved, q: Moved) {
    && r.code == q.code && r.dst == q.dst && r.errs == q.errs
    && (r.src == q.src || (r.code == 0 && r.errs == errs && IsEmptied(r.src) && IsEmptied(q.src)))
  }

  lemma {:induction false} RenameDirRefines(src: Node, dst: Option<Node>, at: Path, mode: Mode, env: Env, errs: seq<Path>)
    requires src.Dir? && Quiet(env)
    ensures SameMove(errs, RenameDir(src, dst, at, mode, env, errs), RenameDir(src, dst, at, mode, OneDevice(env), errs))
    decreases src, 3
  {
    hide RecurMoveDir;
    if dst.Some? {
      RecurMoveRefines(src, dst.value, at, mode, env, errs);
    } else {
      CopyDir(src, at, mode, env, errs);
    }
  }

  lemma {:induction false} RecurMoveRefines(src: Node, dst: Node, at: Path, mode: Mode, env: Env, errs: seq<Path>)
    requires src.Dir? && Quiet(env)
    ensures RecurMoveDir(src, dst, at, mode, env, errs) == RecurMoveDir(src, dst, at, mode, OneDevice(env), errs)
    decreases src, 2
  {
    hide MoveListed;
    if dst.Dir? {
      MoveListedRefines(src, Sorted(src.entries.Keys), Loop(0, src.entries, dst.entries, errs), at, mode, env);
    }
  }

  lemma {:induction false} MoveListedRefines(src: Node, names: seq<Name>, st: Loop, at: Path, mode: Mode, env: Env)
    requires src.Dir? && Quiet(env) && forall name :: name in names ==> name in src.entries
    ensures MoveListed(src, names, st, at, mode, env) == MoveListed(src, names, st, at, mode, OneDevice(env))
    decreases src, 1, |names|
  {
    hide MoveOne;
    if names != [] && st.code == 0 {
      MoveOneRefines(src, names[0], st, at, mode, env);
      MoveListedRefines(src, names[1..], MoveOne(src, names[0], st, at, mode, env), at, mode, env);
    }
  }

  lemma {:induction false} MoveOneRefines(src: Node, name: Name, st: Loop, at: Path, mode: Mode, env: Env)
    requires src.Dir? && Quiet(env) && name in src.entries
    ensures MoveOne(src, name, st, at, mode, env) == MoveOne(src, name, st, at, mode, OneDevice(env))
    decreases src, 0
  {
    hide RenameDir;
    var child, path := src.entries[name], at + [name];
    if child.Dir? {
      RenameDirRefines(child, Get(st.dst, name), path, mode, env, st.errs);
      RenameDirEmpties(child, Get(st.dst, name), path, mode, env, st.errs);
      RenameDirEmpties(child, Get(st.dst, name), path, mode, OneDevice(env), st.errs);
    }
  }

  /** For any choice of the renames that return EXDEV, a move ends with the same trees, the same
      conflict list and the same result as when none does. */
  lemma SlowPathRefinesRename(src: Node, dst: Option<Node>, mode: Mode, env: Env)
    requires src.Dir? && Quiet(env)
    ensures MoveDir(src, dst, mode, env) == MoveDir(src, dst, mode, OneDevice(env))
  {
    hide RenameDir;
    RenameDirRefines(src, dst, [], mode, env, []);
    RenameDirRefines(src, None, [], mode, env, []);
    SourceRemovedOnlyWhenEmpty(src, dst, mode, env);
    SourceRemovedOnlyWhenEmpty(src, dst, mode, OneDevice(env));
  }
}
