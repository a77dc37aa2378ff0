/** The move as the code runs it: the conflict list grows while directories are read in a loop. */
module MoveDir {
  import opened SwapTypes
  import opened Names
  import opened MoveSpec

  method RenameDirectory(src: Node, dst: Option<Node>, at: Path, mode: Mode, env: Env, errs: seq<Path>)
    returns (r: Moved)
    requires src.Dir?
    ensures r == RenameDir(src, dst, at, mode, env, errs)
    decreases src, 2
  {
    if dst.Some? {
      r := RecurMove(src, dst.value, at, mode, env, errs);
      return;
    }
    var err := env.rename(at);
    if err == EXDEV {
      if env.mkdir(at) != 0 {
        return Moved(env.mkdir(at), Some(src), None, errs);
      }
      var made := Dir(map[]);
      if env.utime(at) != 0 {
        return Moved(env.utime(at), Some(src), Some(made), errs);
      }
      r := RecurMove(src, made, at, mode, env, errs);
      return;
    }
    if err != 0 {
      return Moved(err, Some(src), None, errs);
    }
    return Moved(0, None, Some(src), errs);
  }

  method RecurMove(src: Node, dst: Node, at: Path, mode: Mode, env: Env, errs: seq<Path>) returns (r: Moved)
    requires src.Dir?
    ensures r == RecurMoveDir(src, dst, at, mode, env, errs)
    decreases src, 1
  {
    if !dst.Dir? {
      return Moved(0, Some(src), Some(dst), [at] + errs);
    }
    if !env.scan(at) {
      return Moved(0, Some(src), Some(dst), errs);
    }
    hide *;
    var names := Sorted(src.entries.Keys);
    var st := Loop(0, src.entries, dst.entries, errs);
    ghost var start := st;
    var i := 0;
    while i < |names|
      invariant 0 <= i <= |names| && st.code == 0
      invariant forall name :: name in names ==> name in src.entries
      invariant MoveListed(src, names, start, at, mode, env) == MoveListed(src, names[i..], st, at, mode, env)
    {
      OneMore(src, names, i, st, at, mode, env);
      st := MoveEntry(src, names[i], st, at, mode, env);
      if st.code != 0 {
        break;
      }
      i := i + 1;
    }
    Finished(src, names[i..], st, at, mode, env);
    return Moved(st.code, Some(Dir(st.src)), Some(Dir(st.dst)), st.errs);
  }

  /** The body of the loop, for one name of the source directory. */
  method MoveEntry(src: Node, name: Name, st: Loop, at: Path, mode: Mode, env: Env) returns (st': Loop)
    requires src.Dir? && name in src.entries
    ensures st' == MoveOne(src, name, st, at, mode, env)
    decreases src, 0
  {
    var child, path, size := src.entries[name], at + [name], |st.errs|;
    if !child.Dir? {
      var res := RenameFile(child.data, Get(st.dst, name), path, mode, env, st.errs);
      return Loop(res.code, Put(st.src, name, res.src), Put(st.dst, name, res.dst), res.errs);
    }
    var res := RenameDirectory(child, Get(st.dst, name), path, mode, env, st.errs);
    var err, left := res.code, res.src;
    if err == 0 && |res.errs| == size {
      var (code, rest) := RemovePath(res.src, env.removeSource(path));
      err, left := code, rest;
    }
    return Loop(err, Put(st.src, name, left), Put(st.dst, name, res.dst), res.errs);
  }

  lemma {:induction false} Finished(src: Node, names: seq<Name>, st: Loop, at: Path, mode: Mode, env: Env)
    requires src.Dir? && forall name :: name in names ==> name in src.entries
    requires names == [] || st.code != 0
    ensures MoveListed(src, names, st, at, mode, env) == st
  {
  }

  /** One round of the loop; an error ends it. */
  lemma {:induction false} OneMore(src: Node, names: seq<Name>, i: nat, st: Loop, at: Path, mode: Mode, env: Env)
    requires src.Dir? && i < |names| && st.code == 0
    requires forall name :: name in names[i..] ==> name in src.entries
    ensures names[i] in src.entries
    ensures var st' := MoveOne(src, names[i], st, at, mode, env);
      && MoveListed(src, names[i..], st, at, mode, env) == MoveListed(src, names[i + 1..], st', at, mode, env)
      && (st'.code != 0 ==> MoveListed(src, names[i..], st, at, mode, env) == st')
  {
    hide MoveOne;
    assert names[i..][0] == names[i] && names[i..][1..] == names[i + 1..];
  }

  method MoveDirFunc(src: Node, dst: Option<Node>, mode: Mode, env: Env) returns (r: Moved)
    requires src.Dir?
    ensures r == MoveSpec.MoveDir(src, dst, mode, env)
  {
    var target := dst;
    if NotEmpty(target) {
      if mode == DirectoryReplace {
        if env.removeAllTarget != 0 {
          return Moved(env.removeAllTarget, Some(src), env.targetLeft, []);
        }
        target := None;
      }
      if mode == DirectoryThrowErr {
        return Moved(ENOTEMPTY, Some(src), target, []);
      }
    }
    r := RenameDirectory(src, target, [], mode, env, []);
    if r.code == 0 {
      if r.errs != [] {
        return r.(code := EEXIST);
      }
      if r.src.Some? {
        if env.removeAllSource != 0 {
          return r.(code := env.removeAllSource, src := env.sourceLeft);
        }
        r := r.(src := None);
      }
    }
  }
}
