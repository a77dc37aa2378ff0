/**
 Moving a directory with conflicts.  The source and the target are disjoint trees of directories
 and regular files; an environment says, for each path, how each system call on it ends.  Paths
 are relative to the two roots, so one path names a source and its target.
 */
module MoveSpec {
  import opened SwapTypes
  import opened Names

  type Path = seq<Name>
  type Entries = map<Name, Node>
  datatype Node = File(data: Bytes) | Dir(entries: Entries)

  datatype Mode = DirectoryThrowErr | FileThrowErr | FileReplace | DirectoryReplace

  type Errno = nat
  const EEXIST: Errno := 17
  const EXDEV: Errno := 18
  const ENOTEMPTY: Errno := 39

  /** How the calls end, by path; zero is success.  A copy that fails may leave a partial file,
      and a recursive removal that fails may leave something. */
  datatype Env = Env(
    rename: Path -> Errno,
    scan: Path -> bool,
    mkdir: Path -> Errno,
    utime: Path -> Errno,
    removeTarget: Path -> Errno,
    copy: Path -> Errno,
    partial: Path -> Option<Bytes>,
    removeSource: Path -> Errno,
    removeAllTarget: Errno,
    targetLeft: Option<Node>,
    removeAllSource: Errno,
    sourceLeft: Option<Node>)

  /** Source, target and conflict list after a call, with the error it returns. */
  datatype Moved = Moved(code: Errno, src: Option<Node>, dst: Option<Node>, errs: seq<Path>)

  /** The same for the entries of two directories, while their loop runs. */
  datatype Loop = Loop(code: Errno, src: Entries, dst: Entries, errs: seq<Path>)

  function Get(d: Entries, name: Name): Option<Node> {
    if name in d then Some(d[name]) else None
  }

  function Put(d: Entries, name: Name, n: Option<Node>): Entries {
    if n.Some? then d[name := n.value] else d - {name}
  }

  /** Removing a directory or file by its path: no error if it is not there. */
  function RemovePath(n: Option<Node>, code: Errno): (Errno, Option<Node>) {
    if n.None? then (0, None)
    else if code != 0 then (code, n)
    else if n.value.Dir? && n.value.entries != map[] then (ENOTEMPTY, n)
    else (0, None)
  }

  function CopyAndDeleteFile(data: Bytes, dst: Option<Node>, at: Path, env: Env, errs: seq<Path>): Moved {
    var src := Some(File(data));
    var (code, dst1) := RemovePath(dst, env.removeTarget(at));
    if code != 0 then Moved(code, src, dst1, errs)
    else if env.copy(at) != 0 then
      var partial := env.partial(at);
      Moved(env.copy(at), src, if partial.Some? then Some(File(partial.value)) else None, errs)
    else if env.utime(at) != 0 then Moved(env.utime(at), src, src, errs)
    else
      var (code2, src2) := RemovePath(src, env.removeSource(at));
      Moved(code2, src2, src, errs)
  }

  function RenameFile(data: Bytes, dst: Option<Node>, at: Path, mode: Mode, env: Env, errs: seq<Path>): Moved {
    var src := Some(File(data));
    if dst.Some? && dst.value.Dir? then Moved(0, src, dst, [at] + errs)
    else if dst.Some? && mode == FileThrowErr then Moved(0, src, dst, errs + [at])
    else if env.rename(at) == EXDEV then CopyAndDeleteFile(data, dst, at, env, errs)
    else if env.rename(at) != 0 then Moved(env.rename(at), src, dst, errs)
    else Moved(0, None, src, errs)
  }

  function RenameDir(src: Node, dst: Option<Node>, at: Path, mode: Mode, env: Env, errs: seq<Path>): Moved
    requires src.Dir?
    decreases src, 3
  {
    if dst.Some? then RecurMoveDir(src, dst.value, at, mode, env, errs)
    else if env.rename(at) == EXDEV then
      if env.mkdir(at) != 0 then Moved(env.mkdir(at), Some(src), None, errs)
      else if env.utime(at) != 0 then Moved(env.utime(at), Some(src), Some(Dir(map[])), errs)
      else RecurMoveDir(src, Dir(map[]), at, mode, env, errs)
    else if env.rename(at) != 0 then Moved(env.rename(at), Some(src), None, errs)
    else Moved(0, None, Some(src), errs)
  }

  function RecurMoveDir(src: Node, dst: Node, at: Path, mode: Mode, env: Env, errs: seq<Path>): Moved
    requires src.Dir?
    decreases src, 2
  {
    if !dst.Dir? then Moved(0, Some(src), Some(dst), [at] + errs)
    else if !env.scan(at) then Moved(0, Some(src), Some(dst), errs)
    else
      var end := MoveListed(src, Sorted(src.entries.Keys), Loop(0, src.entries, dst.entries, errs), at, mode, env);
      Moved(end.code, Some(Dir(end.src)), Some(Dir(end.dst)), end.errs)
  }

  /** The loop over the names of the source directory. */
  function MoveListed(src: Node, names: seq<Name>, st: Loop, at: Path, mode: Mode, env: Env): Loop
    requires src.Dir? && forall name :: name in names ==> name in src.entries
    decreases src, 1, |names|
  {
    if names == [] || st.code != 0 then st
    else MoveListed(src, names[1..], MoveOne(src, names[0], st, at, mode, env), at, mode, env)
  }

  function MoveOne(src: Node, name: Name, st: Loop, at: Path, mode: Mode, env: Env): Loop
    requires src.Dir? && name in src.entries
    decreases src, 0
  {
    var child, path := src.entries[name], at + [name];
    if child.Dir? then
      var r := RenameDir(child, Get(st.dst, name), path, mode, env, st.errs);
      var dst' := Put(st.dst, name, r.dst);
      if r.code != 0 || |r.errs| != |st.errs| then Loop(r.code, Put(st.src, name, r.src), dst', r.errs)
      else
        var (code, left) := RemovePath(r.src, env.removeSource(path));
        Loop(code, Put(st.src, name, left), dst', r.errs)
    else
      var r := RenameFile(child.data, Get(st.dst, name), path, mode, env, st.errs);
      Loop(r.code, Put(st.src, name, r.src), Put(st.dst, name, r.dst), r.errs)
  }

  /** Something that is there and is neither an empty directory nor an empty file. */
  predicate NotEmpty(dst: Option<Node>) {
    dst.Some? && if dst.value.Dir? then dst.value.entries != map[] else dst.value.data != []
  }

  /** The first half of a move: up to the point where the source directory may be removed. */
  function MoveContents(src: Node, dst: Option<Node>, mode: Mode, env: Env): Moved
    requires src.Dir?
  {
    if NotEmpty(dst) && mode == DirectoryThrowErr then Moved(ENOTEMPTY, Some(src), dst, [])
    else if NotEmpty(dst) && mode == DirectoryReplace then
      if env.removeAllTarget != 0 then Moved(env.removeAllTarget, Some(src), env.targetLeft, [])
      else RenameDir(src, None, [], mode, env, [])
    else RenameDir(src, dst, [], mode, env, [])
  }

  /** A whole move.  The source must exist as a directory and be writable; the target is what has
      the source's name inside the destination directory. */
  function MoveDir(src: Node, dst: Option<Node>, mode: Mode, env: Env): Moved
    requires src.Dir?
  {
    var r := MoveContents(src, dst, mode, env);
    if r.code != 0 then r
    else if r.errs != [] then r.(code := EEXIST)
    else if r.src.None? then r
    else if env.removeAllSource != 0 then r.(code := env.removeAllSource, src := env.sourceLeft)
    else r.(src := None)
  }
}
