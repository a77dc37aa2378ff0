/** Listing a directory tree with a filter and a limit on the number of results. */
module ListSpec {
  import opened SwapTypes
  import opened Names

  type Path = seq<Name>

  /** A file or directory as `stat` sees it; a directory has its entries in scan order. */
  datatype Node = File(size: int, mtime: real) | Dir(size: int, mtime: real, entries: seq<Entry>)
  datatype Entry = Entry(name: Name, node: Node)

  /** The filter; no suffixes or display names, or a negative number, mean no restriction. */
  datatype Filter = Filter(suffixes: seq<string>, displayNames: seq<string>, sizeOver: int, modifiedAfter: real)

  datatype Options = Options(listNum: int, recursion: bool, filter: Filter)

  /** The file system: the tree below the listed directory, which directories cannot be scanned,
      and how shell patterns match names. */
  datatype Fs = Fs(root: Node, unreadable: Path -> bool, glob: (string, string) -> bool)

  const NO_FILTER: Filter := Filter([], [], -1, -1.0)

  /** The part of a name from its last dot on. */
  function Extension(name: Name): Option<string> {
    if name == [] then None
    else if name[|name| - 1] == '.' then Some(".")
    else match Extension(name[..|name| - 1])
      case None => None
      case Some(e) => Some(e + [name[|name| - 1]])
  }

  predicate FilterSuffix(f: Filter, e: Entry) {
    e.node.Dir? || (Extension(e.name).Some? && Extension(e.name).value in f.suffixes)
  }

  predicate FilterDisplayname(fs: Fs, f: Filter, e: Entry) {
    exists pattern :: pattern in f.displayNames && fs.glob(pattern, e.name)
  }

  /** The verdict on an entry whose `stat` is `info`. */
  predicate Judge(fs: Fs, f: Filter, e: Entry, info: Option<Node>) {
    && (f.suffixes != [] ==> FilterSuffix(f, e))
    && (f.displayNames != [] ==> FilterDisplayname(fs, f, e))
    && (f.sizeOver >= 0 ==> info.Some? && info.value.size > f.sizeOver)
    && (f.modifiedAfter >= 0.0 ==> info.Some? && info.value.mtime > f.modifiedAfter)
  }

  /** The entry judged by its own size and time. */
  predicate Matches(fs: Fs, f: Filter, e: Entry) {
    Judge(fs, f, e, Some(e.node))
  }

  // ----- The file system as paths see it -----

  function Find(entries: seq<Entry>, name: Name): Option<Node> {
    if entries == [] then None
    else if entries[0].name == name then Some(entries[0].node)
    else Find(entries[1..], name)
  }

  /** What is at a path. */
  function Lookup(n: Node, p: Path): Option<Node>
    decreases |p|
  {
    if p == [] then Some(n)
    else if n.File? then None
    else match Find(n.entries, p[0])
      case None => None
      case Some(child) => Lookup(child, p[1..])
  }

  predicate DistinctNames(n: Node) {
    n.Dir? ==>
      && (forall i, j :: 0 <= i < j < |n.entries| ==> n.entries[i].name != n.entries[j].name)
      && (forall i :: 0 <= i < |n.entries| ==> DistinctNames(n.entries[i].node))
  }

  lemma {:induction false} FindEntry(entries: seq<Entry>, i: nat)
    requires i < |entries|
    requires forall i, j :: 0 <= i < j < |entries| ==> entries[i].name != entries[j].name
    ensures Find(entries, entries[i].name) == Some(entries[i].node)
  {
    if i > 0 {
      FindEntry(entries[1..], i - 1);
    }
  }

  lemma {:induction false} LookupChild(n: Node, p: Path, dir: Node, i: nat)
    requires DistinctNames(n) && Lookup(n, p) == Some(dir) && dir.Dir? && i < |dir.entries|
    ensures DistinctNames(dir) && Lookup(n, p + [dir.entries[i].name]) == Some(dir.entries[i].node)
    decreases |p|
  {
    var path := p + [dir.entries[i].name];
    if p == [] {
      FindEntry(dir.entries, i);
    } else {
      var child := Find(n.entries, p[0]).value;
      FindIsEntry(n.entries, p[0]);
      LookupChild(child, p[1..], dir, i);
      assert path[1..] == p[1..] + [dir.entries[i].name];
    }
  }

  lemma {:induction false} FindIsEntry(entries: seq<Entry>, name: Name)
    ensures Find(entries, name).Some? ==>
            exists i :: 0 <= i < |entries| && entries[i] == Entry(name, Find(entries, name).value)
  {
    if entries != [] && entries[0].name != name {
      FindIsEntry(entries[1..], name);
      if Find(entries[1..], name).Some? {
        var i :| 0 <= i < |entries[1..]| && entries[1..][i] == Entry(name, Find(entries[1..], name).value);
        assert entries[i + 1] == Entry(name, Find(entries, name).value);
      }
    } else if entries != [] {
      assert entries[0] == Entry(name, Find(entries, name).value);
    }
  }

  // ----- The walk with a budget -----

  /** Does a scan that has counted `count` results keep this entry, and is it counted? */
  function Admit(fs: Fs, o: Options, count: nat, e: Entry): (bool, nat) {
    if o.listNum != 0 && count >= o.listNum then (false, count)
    else if e.node.Dir? && o.recursion then (true, count)
    else if Matches(fs, o.filter, e) then (true, count + 1)
    else (false, count)
  }

  /** The positions of the entries that a scan keeps from position `i` on, and the new count. */
  function Scan(fs: Fs, o: Options, entries: seq<Entry>, i: nat, count: nat): (r: (seq<nat>, nat))
    requires i <= |entries|
    ensures forall k :: 0 <= k < |r.0| ==> i <= r.0[k] < |entries|
    decreases |entries| - i
  {
    if i == |entries| then ([], count)
    else
      var (keep, count') := Admit(fs, o, count, entries[i]);
      var (rest, count'') := Scan(fs, o, entries, i + 1, count');
      ((if keep then [i] else []) + rest, count'')
  }

  datatype Listing = Listing(ok: bool, out: seq<Path>, count: nat)

  function Walk(fs: Fs, o: Options, n: Node, at: Path, count: nat): Listing
    requires n.Dir?
    decreases n, 1
  {
    if fs.unreadable(at) then Listing(false, [], count)
    else
      var (kept, count') := Scan(fs, o, n.entries, 0, count);
      WalkKept(fs, o, n, kept, at, count')
  }

  /** The loop over the entries a scan has kept. */
  function WalkKept(fs: Fs, o: Options, n: Node, kept: seq<nat>, at: Path, count: nat): Listing
    requires n.Dir? && forall k :: 0 <= k < |kept| ==> kept[k] < |n.entries|
    decreases n, 0, |kept|
  {
    if kept == [] then Listing(true, [], count)
    else
      var e := n.entries[kept[0]];
      if e.node.File? then
        var rest := WalkKept(fs, o, n, kept[1..], at, count);
        rest.(out := [at + [e.name]] + rest.out)
      else
        var inner := Walk(fs, o, e.node, at + [e.name], count);
        if !inner.ok then inner
        else
          var rest := WalkKept(fs, o, n, kept[1..], at, inner.count);
          rest.(out := inner.out + rest.out)
  }

  // ----- The walk without a budget -----

  /** All matching files below a directory, in the order of the walk. */
  function All(fs: Fs, f: Filter, n: Node, at: Path): seq<Path>
    requires n.Dir?
    decreases n, 1
  {
    AllFrom(fs, f, n, 0, at)
  }

  function AllFrom(fs: Fs, f: Filter, n: Node, i: nat, at: Path): seq<Path>
    requires n.Dir? && i <= |n.entries|
    decreases n, 0, |n.entries| - i
  {
    if i == |n.entries| then []
    else AllOf(fs, f, n, i, at) + AllFrom(fs, f, n, i + 1, at)
  }

  /** The matching files that one entry contributes. */
  function AllOf(fs: Fs, f: Filter, n: Node, i: nat, at: Path): seq<Path>
    requires n.Dir? && i < |n.entries|
    decreases n, 0, 0
  {
    var e := n.entries[i];
    if e.node.Dir? then All(fs, f, e.node, at + [e.name])
    else if Matches(fs, f, e) then [at + [e.name]]
    else []
  }
}
