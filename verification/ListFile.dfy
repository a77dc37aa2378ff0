/** The listing as the code runs it: the scan callback reads the directory it works on, and counts
    its results, in an object that all calls share. */
module ListFile {
  import opened SwapTypes
  import opened Names
  import opened ListSpec
  import opened ListTheorems

  const MAX_SUFFIX_LENGTH: nat := 256

  predicate IsAlnum(c: char) {
    '0' <= c <= '9' || 'a' <= c <= 'z' || 'A' <= c <= 'Z'
  }

  predicate SuffixOk(s: string) {
    && 1 < |s| <= MAX_SUFFIX_LENGTH
    && s[0] == '.'
    && forall i :: 1 <= i < |s| ==> IsAlnum(s[i])
  }

  method CheckSuffix(suffixes: seq<string>) returns (ok: bool)
    ensures ok <==> forall n :: 0 <= n < |suffixes| ==> SuffixOk(suffixes[n])
  {
    for n := 0 to |suffixes|
      invariant forall m :: 0 <= m < n ==> SuffixOk(suffixes[m])
    {
      var suffix := suffixes[n];
      if |suffix| <= 1 || |suffix| > MAX_SUFFIX_LENGTH {
        return false;
      }
      if suffix[0] != '.' {
        return false;
      }
      for i := 1 to |suffix|
        invariant forall j :: 1 <= j < i ==> IsAlnum(suffix[j])
      {
        if !IsAlnum(suffix[i]) {
          return false;
        }
      }
    }
    return true;
  }

  datatype Answer = Invalid | Unreadable | Listed(names: seq<Path>)

  class OptionArgs {
    var filter: Filter
    var listNum: int
    var countNum: nat
    var recursion: bool
    var path: Path

    function Opts(): Options
      reads this
    {
      Options(listNum, recursion, filter)
    }

    predicate Cleared()
      reads this
    {
      filter == NO_FILTER && listNum == 0 && countNum == 0 && !recursion && path == []
    }

    constructor ()
      ensures Cleared()
    {
      filter, listNum, countNum, recursion, path := NO_FILTER, 0, 0, false, [];
    }

    method Clear()
      modifies this
      ensures Cleared()
    {
      filter, listNum, countNum, recursion, path := NO_FILTER, 0, 0, false, [];
    }

    /** What `stat` says about a name in the directory that the shared path names. */
    function Stat(fs: Fs, e: Entry): Option<Node>
      reads this
    {
      Lookup(fs.root, path + [e.name])
    }

    method FilterResult(fs: Fs, e: Entry) returns (keep: bool)
      modifies this`countNum
      ensures keep <==> Judge(fs, filter, e, Stat(fs, e))
      ensures countNum == old(countNum) + if keep then 1 else 0
    {
      if filter.suffixes != [] && !FilterSuffix(filter, e) {
        return false;
      }
      if filter.displayNames != [] && !FilterDisplayname(fs, filter, e) {
        return false;
      }
      var info := Stat(fs, e);
      if filter.sizeOver >= 0 && (info.None? || info.value.size <= filter.sizeOver) {
        return false;
      }
      if filter.modifiedAfter >= 0.0 && (info.None? || info.value.mtime <= filter.modifiedAfter) {
        return false;
      }
      countNum := countNum + 1;
      return true;
    }

    /** The scan callback; the entry comes from the directory that the shared path names. */
    method FilterFunc(fs: Fs, e: Entry) returns (keep: bool)
      requires listNum >= 0 && Stat(fs, e) == Some(e.node)
      modifies this`countNum
      ensures (keep, countNum) == Admit(fs, Opts(), old(countNum), e)
    {
      keep := false;
      if countNum < listNum || listNum == 0 {
        if e.node.Dir? && recursion {
          keep := true;
        } else {
          keep := FilterResult(fs, e);
        }
      }
    }

    /** The scan of directory `at`, which runs the callback on each entry. */
    method ScanDir(fs: Fs, dir: Node, at: Path) returns (kept: seq<nat>)
      requires listNum >= 0 && DistinctNames(fs.root)
      requires at == path && dir.Dir? && Lookup(fs.root, at) == Some(dir)
      modifies this`countNum
      ensures (kept, countNum) == Scan(fs, Opts(), dir.entries, 0, old(countNum))
    {
      hide Scan, Admit, DistinctNames, Lookup;
      ghost var o := Opts();
      kept := [];
      var i := 0;
      while i < |dir.entries|
        invariant 0 <= i <= |dir.entries| && Opts() == o
        invariant Scan(fs, o, dir.entries, 0, old(countNum)).0 == kept + Scan(fs, o, dir.entries, i, countNum).0
        invariant Scan(fs, o, dir.entries, 0, old(countNum)).1 == Scan(fs, o, dir.entries, i, countNum).1
      {
        LookupChild(fs.root, at, dir, i);
        ScanStep(fs, o, dir.entries, i, countNum, kept);
        var keep := FilterFunc(fs, dir.entries[i]);
        if keep {
          kept := kept + [i];
        }
        i := i + 1;
      }
      ScanEnd(fs, o, dir.entries, countNum);
      ghost var all := Scan(fs, o, dir.entries, 0, old(countNum));
      assert (all.0, all.1) == all && all.0 == kept;
    }

    /** `arg` is the path argument; in nested calls it is an alias of the shared path. */
    method RecursiveFunc(fs: Fs, dir: Node, arg: Path, aliased: bool, dirents: seq<Path>)
      returns (ok: bool, out: seq<Path>)
      requires listNum >= 0 && DistinctNames(fs.root) && dir.Dir? && Lookup(fs.root, path) == Some(dir)
      requires !aliased ==> arg == path
      modifies this`path, this`countNum
      ensures var r := Walk(fs, Opts(), dir, old(path), old(countNum));
        && ok == r.ok
        && (ok ==> out == dirents + r.out && countNum == r.count && path == old(path))
      decreases dir
    {
      hide Walk, Scan, WalkKept, DistinctNames, Lookup;
      ghost var at, o := path, Opts();
      out := dirents;
      WalkStarts(fs, o, dir, at, countNum);
      if fs.unreadable(if aliased then path else arg) {
        return false, out;
      }
      var kept := ScanDir(fs, dir, if aliased then path else arg);
      ghost var start, found := countNum, [];
      var k := 0;
      while k < |kept|
        invariant 0 <= k <= |kept| && path == at && Opts() == o
        invariant forall m :: 0 <= m < |kept| ==> kept[m] < |dir.entries|
        invariant out == dirents + found
        invariant WalkKept(fs, o, dir, kept, at, start) ==
                  Behind(found, WalkKept(fs, o, dir, kept[k..], at, countNum))
      {
        var e := dir.entries[kept[k]];
        assert kept[k..] == [kept[k]] + kept[k + 1..];
        KeptFirst(fs, o, dir, kept[k], kept[k + 1..], at, countNum);
        LookupChild(fs.root, at, dir, kept[k]);
        if e.node.File? {
          out := out + [(if aliased then path else arg) + [e.name]];
          BehindMore(found, [at + [e.name]], WalkKept(fs, o, dir, kept[k + 1..], at, countNum));
          found := found + [at + [e.name]];
        } else {
          var pathTemp := path;
          path := path + [e.name];
          ghost var inner := Walk(fs, o, e.node, path, countNum);
          var ret, names := RecursiveFunc(fs, e.node, path, true, out);
          if !ret {
            return false, names;
          }
          BehindMore(found, inner.out, WalkKept(fs, o, dir, kept[k + 1..], at, countNum));
          out, found := names, found + inner.out;
          path := pathTemp;
        }
        k := k + 1;
      }
      KeptEnd(fs, o, dir, kept[k..], at, countNum);
      return true, out;
    }

    method ListFile(fs: Fs, options: Options) returns (answer: Answer)
      requires Cleared() && fs.root.Dir? && DistinctNames(fs.root)
      modifies this
      ensures Cleared()
      ensures answer.Invalid? <==> options.listNum < 0 || !(forall n :: 0 <= n < |options.filter.suffixes| ==> SuffixOk(options.filter.suffixes[n]))
      ensures !answer.Invalid? && options.recursion ==>
                var r := Walk(fs, options, fs.root, [], 0);
                answer == if r.ok then Listed(r.out) else Unreadable
      ensures !answer.Invalid? && !options.recursion ==>
                answer == if fs.unreadable([]) then Unreadable
                          else Listed(NamesOf(fs.root.entries, Scan(fs, options, fs.root.entries, 0, 0).0))
    {
      if options.listNum < 0 {
        return Invalid;
      }
      path, listNum, recursion := [], options.listNum, options.recursion;
      var ok := CheckSuffix(options.filter.suffixes);
      if !ok {
        Clear();
        return Invalid;
      }
      filter := options.filter;
      if recursion {
        var done, names := RecursiveFunc(fs, fs.root, [], false, []);
        answer := if done then Listed(names) else Unreadable;
      } else if fs.unreadable([]) {
        answer := Unreadable;
      } else {
        var kept := ScanDir(fs, fs.root, []);
        answer := Listed(NamesOf(fs.root.entries, kept));
      }
      Clear();
    }
  }

  function NamesOf(entries: seq<Entry>, kept: seq<nat>): seq<Path>
    requires forall k :: 0 <= k < |kept| ==> kept[k] < |entries|
  {
    seq(|kept|, k requires 0 <= k < |kept| => [entries[kept[k]].name])
  }

  /** A listing with what was found before it. */
  function Behind(done: seq<Path>, rest: Listing): Listing {
    rest.(out := done + rest.out)
  }

  lemma {:induction false} WalkStarts(fs: Fs, o: Options, dir: Node, at: Path, count: nat)
    requires dir.Dir?
    ensures Walk(fs, o, dir, at, count) ==
            if fs.unreadable(at) then Listing(false, [], count)
            else
              var (kept, count') := Scan(fs, o, dir.entries, 0, count);
              WalkKept(fs, o, dir, kept, at, count')
  {
  }

  lemma {:induction false} KeptEnd(fs: Fs, o: Options, dir: Node, kept: seq<nat>, at: Path, count: nat)
    requires dir.Dir? && kept == []
    ensures WalkKept(fs, o, dir, kept, at, count) == Listing(true, [], count)
  {
  }

  lemma BehindMore(done: seq<Path>, more: seq<Path>, rest: Listing)
    ensures Behind(done, Behind(more, rest)) == Behind(done + more, rest)
  {
    assert done + (more + rest.out) == done + more + rest.out;
  }

  lemma ScanStep(fs: Fs, o: Options, entries: seq<Entry>, i: nat, count: nat, kept: seq<nat>)
    requires i < |entries|
    ensures var (keep, count') := Admit(fs, o, count, entries[i]);
      var rest := Scan(fs, o, entries, i + 1, count');
      && Scan(fs, o, entries, i, count).1 == rest.1
      && kept + Scan(fs, o, entries, i, count).0 == (if keep then kept + [i] else kept) + rest.0
  {
  }

  lemma {:induction false} ScanEnd(fs: Fs, o: Options, entries: seq<Entry>, count: nat)
    ensures Scan(fs, o, entries, |entries|, count) == ([], count)
  {
  }
}
