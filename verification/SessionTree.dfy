/**
 Recursive removal of a session directory.  A plan resolves everything the environment decides:
 the order in which a directory is read, and the outcome of each system call.  Besides its result
 a removal has the sequence of states it went through, one for each deletion; a crash leaves the
 directory in one of them.
 */
module SessionTree {
  import opened SwapTypes
  import opened Names

  const MARKER: string := ".swapfs-session"
  const MAX_CLEANUP_DEPTH: nat := 16

  type Entries = map<Name, Node>

  /** `Special` is whatever is neither a directory nor a regular file. */
  datatype Node = Regular | Special | Dir(entries: Entries)

  datatype EntryPlan = EntryPlan(
    name: Name,
    markerStat: bool,
    stat: bool,
    unlink: bool,
    open: bool,
    contents: DirPlan,
    rmdir: bool)

  datatype DirPlan = DirPlan(open: bool, order: seq<EntryPlan>, readdir: bool, unlinkMarker: bool)

  /** An entry after its removal was tried: None when it is gone. */
  datatype EntryResult = EntryResult(removed: bool, left: Option<Node>, states: seq<Option<Node>>)

  datatype DirResult = DirResult(removed: bool, left: Entries, states: seq<Entries>)

  function Put(d: Entries, name: Name, n: Option<Node>): Entries {
    if n.Some? then d[name := n.value] else d - {name}
  }

  /** The states of a directory while one of its entries goes through `states`. */
  function Lift(d: Entries, name: Name, states: seq<Option<Node>>): seq<Entries> {
    seq(|states|, n requires 0 <= n < |states| => Put(d, name, states[n]))
  }

  function AsNodes(states: seq<Entries>): seq<Option<Node>> {
    seq(|states|, n requires 0 <= n < |states| => Some(Dir(states[n])))
  }

  function RemoveEntry(n: Node, p: EntryPlan, depth: nat): EntryResult
    decreases p, 0
  {
    if depth > MAX_CLEANUP_DEPTH || !p.stat then EntryResult(false, Some(n), [])
    else if !n.Dir? then
      if p.unlink then EntryResult(true, None, [None]) else EntryResult(false, Some(n), [])
    else if !p.open then EntryResult(false, Some(n), [])
    else
      var r := RemoveContents(n.entries, p.contents, depth);
      if !r.removed || !p.rmdir || r.left != map[] then
        EntryResult(false, Some(Dir(r.left)), AsNodes(r.states))
      else EntryResult(true, None, AsNodes(r.states) + [None])
  }

  function RemoveContents(d: Entries, p: DirPlan, depth: nat): DirResult
    decreases p
  {
    if !p.open then DirResult(false, d, [])
    else
      var r := RemoveListed(d, p.order, depth);
      if !r.removed || !p.readdir then DirResult(false, r.left, r.states)
      else if MARKER !in r.left then r
      else if !p.unlinkMarker || r.left[MARKER].Dir? then DirResult(false, r.left, r.states)
      else DirResult(true, r.left - {MARKER}, r.states + [r.left - {MARKER}])
  }

  /** The loop over the directory's names. */
  function RemoveListed(d: Entries, order: seq<EntryPlan>, depth: nat): DirResult
    decreases order
  {
    if order == [] then DirResult(true, d, [])
    else
      var first := RemoveOne(d, order[0], depth);
      Then(first, RemoveListed(first.left, order[1..], depth))
  }

  function Then(first: DirResult, rest: DirResult): DirResult {
    DirResult(first.removed && rest.removed, rest.left, first.states + rest.states)
  }

  predicate KeepsMarker(d: Entries, p: EntryPlan) {
    p.name == MARKER && p.markerStat && p.name in d && d[p.name].Regular?
  }

  function RemoveOne(d: Entries, p: EntryPlan, depth: nat): DirResult
    decreases p, 1
  {
    if KeepsMarker(d, p) then DirResult(true, d, [])
    else if p.name !in d then DirResult(false, d, [])
    else
      var r := RemoveEntry(d[p.name], p, depth + 1);
      DirResult(r.removed, Put(d, p.name, r.left), Lift(d, p.name, r.states))
  }

  // ----- The code's mutual recursion; the depth alone makes it terminate -----

  method RemoveEntryAt(n: Node, p: EntryPlan, depth: nat)
    returns (removed: bool, left: Option<Node>, states: seq<Option<Node>>)
    ensures EntryResult(removed, left, states) == RemoveEntry(n, p, depth)
    decreases MAX_CLEANUP_DEPTH + 1 - depth, 2
  {
    removed, left, states := false, Some(n), [];
    if depth > MAX_CLEANUP_DEPTH {
      return;
    }
    if !p.stat {
      return;
    }
    if !n.Dir? {
      if p.unlink {
        removed, left, states := true, None, [None];
      }
      return;
    }
    if !p.open {
      return;
    }
    var ok, entries, inner := RemoveTreeContentsAt(n.entries, p.contents, depth);
    left, states := Some(Dir(entries)), AsNodes(inner);
    if !ok {
      return;
    }
    if p.rmdir && entries == map[] {
      removed, left, states := true, None, states + [None];
    }
  }

  method RemoveTreeContentsAt(d: Entries, p: DirPlan, depth: nat)
    returns (removed: bool, left: Entries, states: seq<Entries>)
    requires depth <= MAX_CLEANUP_DEPTH
    ensures DirResult(removed, left, states) == RemoveContents(d, p, depth)
    decreases MAX_CLEANUP_DEPTH + 1 - depth, 1
  {
    left, states := d, [];
    if !p.open {
      removed := false;
      return;
    }
    hide RemoveEntry, RemoveListed, RemoveOne;
    removed := true;
    var next := 0;
    while next < |p.order|
      invariant 0 <= next <= |p.order|
      invariant RemoveListed(d, p.order, depth) ==
                Then(DirResult(removed, left, states), RemoveListed(left, p.order[next..], depth))
    {
      OneMore(DirResult(removed, left, states), p.order, next, depth);
      var ok, rest, inner := RemoveNameAt(left, p.order[next], depth);
      removed, left, states := removed && ok, rest, states + inner;
      next := next + 1;
    }
    NothingMore(left, p.order[next..], depth);
    if !p.readdir {
      removed := false;
    }
    if removed && MARKER in left {
      if p.unlinkMarker && !left[MARKER].Dir? {
        left := left - {MARKER};
        states := states + [left];
      } else {
        removed := false;
      }
    }
  }

  /** The body of the loop: one name that reading the directory yields. */
  method RemoveNameAt(d: Entries, entry: EntryPlan, depth: nat)
    returns (removed: bool, left: Entries, states: seq<Entries>)
    requires depth <= MAX_CLEANUP_DEPTH
    ensures DirResult(removed, left, states) == RemoveOne(d, entry, depth)
    decreases MAX_CLEANUP_DEPTH + 1 - depth, 0
  {
    if KeepsMarker(d, entry) {
      return true, d, [];
    }
    if entry.name !in d {
      return false, d, [];
    }
    var ok, node, inner := RemoveEntryAt(d[entry.name], entry, depth + 1);
    return ok, Put(d, entry.name, node), Lift(d, entry.name, inner);
  }

  lemma {:induction false} NothingMore(d: Entries, order: seq<EntryPlan>, depth: nat)
    requires order == []
    ensures RemoveListed(d, order, depth) == DirResult(true, d, [])
  {
  }

  lemma {:induction false} OneMore(done: DirResult, order: seq<EntryPlan>, next: nat, depth: nat)
    requires next < |order|
    ensures var first := RemoveOne(done.left, order[next], depth);
      Then(done, RemoveListed(done.left, order[next..], depth))
      == Then(Then(done, first), RemoveListed(first.left, order[next + 1..], depth))
  {
    assert order[next..][1..] == order[next + 1..];
  }

  // ----- What removal achieves -----

  /** The entry at a path below `n`. */
  function Lookup(n: Node, path: seq<Name>): Option<Node> {
    if path == [] then Some(n)
    else if !n.Dir? || path[0] !in n.entries then None
    else Lookup(n.entries[path[0]], path[1..])
  }

  /** No entry lies more than `levels` levels below `n`, other than regular marker files. */
  ghost predicate Fits(n: Node, levels: int) {
    forall path | |path| > levels && Lookup(n, path).Some? ::
      path != [] && path[|path| - 1] == MARKER && Lookup(n, path).value.Regular?
  }

  /** Nothing fails, and every directory is read completely. */
  predicate Faultless(n: Node, p: EntryPlan)
    decreases p, 0
  {
    && p.markerStat && p.stat && p.unlink && p.open && p.rmdir
    && (n.Dir? ==> FaultlessDir(n.entries, p.contents))
  }

  predicate FaultlessDir(d: Entries, p: DirPlan)
    decreases p
  {
    && p.open && p.readdir && p.unlinkMarker
    && (forall m, n :: 0 <= m < n < |p.order| ==> p.order[m].name != p.order[n].name)
    && (forall name :: name in d ==> exists n :: 0 <= n < |p.order| && p.order[n].name == name)
    && (forall n :: 0 <= n < |p.order| ==> p.order[n].name in d && Faultless(d[p.order[n].name], p.order[n]))
  }

  /** In a directory, everything but a marker fits one level lower. */
  ghost predicate FitsDir(d: Entries, levels: int) {
    forall name | name in d && !(name == MARKER && d[name].Regular?) :: Fits(d[name], levels - 1)
  }

  /** The entry at a path, if it is there, is a marker. */
  predicate MarkerAt(n: Node, path: seq<Name>) {
    Lookup(n, path).Some? ==> path != [] && path[|path| - 1] == MARKER && Lookup(n, path).value.Regular?
  }

  lemma FitsMeaning(n: Node, levels: int)
    ensures Fits(n, levels) <==> forall path | |path| > levels :: MarkerAt(n, path)
  {
  }

  lemma {:induction false} BelowEntry(d: Entries, path: seq<Name>)
    requires path != [] && path[0] in d
    ensures Lookup(Dir(d), path) == Lookup(d[path[0]], path[1..])
  {
  }

  lemma PathInDir(d: Entries, levels: int, path: seq<Name>)
    requires FitsDir(d, levels) && |path| > levels >= 0
    ensures MarkerAt(Dir(d), path)
  {
    if path[0] in d {
      hide Fits;
      var n := d[path[0]];
      BelowEntry(d, path);
      FitsMeaning(n, levels - 1);
      if path[0] == MARKER && n.Regular? {
        assert Lookup(n, path[1..]).Some? ==> path[1..] == [];
      } else {
        assert MarkerAt(n, path[1..]);
      }
    }
  }

  lemma PathInEntry(d: Entries, levels: int, name: Name, path: seq<Name>)
    requires Fits(Dir(d), levels) && name in d && !(name == MARKER && d[name].Regular?) && |path| > levels - 1
    ensures MarkerAt(d[name], path)
  {
    hide Fits;
    var full := [name] + path;
    assert full[1..] == path && full[0] == name;
    FitsMeaning(Dir(d), levels);
    assert MarkerAt(Dir(d), full);
    BelowEntry(d, full);
    assert path != [] ==> path[|path| - 1] == full[|full| - 1];
  }

  lemma FitsMeansDir(d: Entries, levels: int)
    requires levels >= 0
    ensures Fits(Dir(d), levels) <==> FitsDir(d, levels)
  {
    hide Fits, MarkerAt, Lookup;
    FitsMeaning(Dir(d), levels);
    if FitsDir(d, levels) {
      forall path | |path| > levels ensures MarkerAt(Dir(d), path) {
        PathInDir(d, levels, path);
      }
    }
    if Fits(Dir(d), levels) {
      forall name | name in d && !(name == MARKER && d[name].Regular?) ensures Fits(d[name], levels - 1) {
        FitsMeaning(d[name], levels - 1);
        forall path | |path| > levels - 1 ensures MarkerAt(d[name], path) {
          PathInEntry(d, levels, name, path);
        }
      }
    }
  }

  /** Without faults an entry is removed exactly when nothing but markers lies below the limit. */
  lemma {:induction false} RemovedExactlyWhenFits(n: Node, p: EntryPlan, depth: nat)
    requires Faultless(n, p)
    ensures RemoveEntry(n, p, depth).removed <==> Fits(n, MAX_CLEANUP_DEPTH - depth)
    ensures RemoveEntry(n, p, depth).removed <==> RemoveEntry(n, p, depth).left == None
    decreases p, 0
  {
    assert Lookup(n, []) == Some(n);
    if depth <= MAX_CLEANUP_DEPTH && n.Dir? {
      DirEmptiedExactlyWhenFits(n.entries, p.contents, depth);
      FitsMeansDir(n.entries, MAX_CLEANUP_DEPTH - depth);
    } else if depth <= MAX_CLEANUP_DEPTH {
      assert forall path :: |path| > 0 ==> Lookup(n, path).None?;
    }
  }

  lemma {:induction false} DirEmptiedExactlyWhenFits(d: Entries, p: DirPlan, depth: nat)
    requires FaultlessDir(d, p) && depth <= MAX_CLEANUP_DEPTH
    ensures RemoveContents(d, p, depth).removed <==> FitsDir(d, MAX_CLEANUP_DEPTH - depth)
    ensures RemoveContents(d, p, depth).removed ==> RemoveContents(d, p, depth).left == map[]
    decreases p
  {
    hide Fits, Faultless, RemoveListed;
    ListedExactlyWhenFits(d, p.order, depth);
    var r := RemoveListed(d, p.order, depth);
    if r.removed {
      ListedLeaves(d, p.order, depth);
      assert r.left - {MARKER} == map[];
    }
    AllFitMeansDir(d, p, MAX_CLEANUP_DEPTH - depth);
  }

  lemma {:induction false} AllFitMeansDir(d: Entries, p: DirPlan, levels: int)
    requires FaultlessDir(d, p)
    ensures Remaining(d, p.order) && (AllFit(d, p.order, levels - 1) <==> FitsDir(d, levels))
  {
    hide Fits, Faultless;
    if AllFit(d, p.order, levels - 1) {
      forall name | name in d && !(name == MARKER && d[name].Regular?) ensures Fits(d[name], levels - 1) {
        var n :| 0 <= n < |p.order| && p.order[n].name == name;
        assert !KeepsMarker(d, p.order[n]);
      }
    }
    if FitsDir(d, levels) {
      forall n | 0 <= n < |p.order| && !KeepsMarker(d, p.order[n]) ensures Fits(d[p.order[n].name], levels - 1) {
        assert Faultless(d[p.order[n].name], p.order[n]);
        SeesItsMarker(d[p.order[n].name], p.order[n]);
      }
    }
  }

  lemma {:induction false} SeesItsMarker(n: Node, p: EntryPlan)
    requires Faultless(n, p)
    ensures p.markerStat
  {
  }

  /** The rest of the names still to be read. */
  predicate Remaining(d: Entries, order: seq<EntryPlan>)
    decreases order
  {
    && (forall m, n :: 0 <= m < n < |order| ==> order[m].name != order[n].name)
    && (forall n :: 0 <= n < |order| ==> order[n].name in d && Faultless(d[order[n].name], order[n]))
  }

  predicate Untouched(d: Entries, d': Entries, order: seq<EntryPlan>) {
    forall n :: 0 <= n < |order| ==>
      (order[n].name in d' <==> order[n].name in d) && (order[n].name in d ==> d'[order[n].name] == d[order[n].name])
  }

  lemma {:induction false} OneLeavesOthers(d: Entries, order: seq<EntryPlan>, depth: nat)
    requires order != [] && Remaining(d, order)
    ensures var d' := RemoveOne(d, order[0], depth).left;
      && Untouched(d, d', order[1..]) && Remaining(d', order[1..])
      && (forall n :: 1 <= n < |order| ==> (KeepsMarker(d', order[n]) <==> KeepsMarker(d, order[n])))
  {
    assert forall n :: 1 <= n < |order| ==> order[n] == order[1..][n - 1];
  }

  ghost predicate AllFit(d: Entries, order: seq<EntryPlan>, levels: int)
    requires Remaining(d, order)
  {
    forall n | 0 <= n < |order| && !KeepsMarker(d, order[n]) :: Fits(d[order[n].name], levels)
  }

  lemma {:induction false} ListedExactlyWhenFits(d: Entries, order: seq<EntryPlan>, depth: nat)
    requires Remaining(d, order) && depth <= MAX_CLEANUP_DEPTH
    ensures RemoveListed(d, order, depth).removed <==> AllFit(d, order, MAX_CLEANUP_DEPTH - depth - 1)
    decreases order
  {
    hide Fits, RemoveOne, RemoveEntry, Faultless, KeepsMarker;
    if order != [] {
      var d' := RemoveOne(d, order[0], depth).left;
      OneLeavesOthers(d, order, depth);
      ListedExactlyWhenFits(d', order[1..], depth);
      OneExactlyWhenFits(d, order[0], depth);
      var levels := MAX_CLEANUP_DEPTH - depth - 1;
      assert AllFit(d', order[1..], levels) <==>
        forall n | 1 <= n < |order| && !KeepsMarker(d, order[n]) :: Fits(d[order[n].name], levels) by {
        assert forall n :: 1 <= n < |order| ==> order[n] == order[1..][n - 1];
      }
    }
  }

  lemma {:induction false} OneExactlyWhenFits(d: Entries, p: EntryPlan, depth: nat)
    requires p.name in d && Faultless(d[p.name], p) && depth <= MAX_CLEANUP_DEPTH
    ensures RemoveOne(d, p, depth).removed <==>
            KeepsMarker(d, p) || Fits(d[p.name], MAX_CLEANUP_DEPTH - depth - 1)
    decreases p, 1
  {
    if !KeepsMarker(d, p) {
      RemovedExactlyWhenFits(d[p.name], p, depth + 1);
    }
  }

  /** What is left after all names were read is what was not listed, and a kept marker. */
  lemma {:induction false} ListedLeaves(d: Entries, order: seq<EntryPlan>, depth: nat)
    requires RemoveListed(d, order, depth).removed
    ensures forall name :: name in RemoveListed(d, order, depth).left ==>
              && name in d && d[name] == RemoveListed(d, order, depth).left[name]
              && forall n :: 0 <= n < |order| && order[n].name == name ==> KeepsMarker(d, order[n])
    decreases order
  {
    hide RemoveEntry;
    if order != [] {
      var d' := RemoveOne(d, order[0], depth).left;
      ListedLeaves(d', order[1..], depth);
      RemovedIsGone(d, order[0], depth);
      assert forall n :: 1 <= n < |order| ==> order[n] == order[1..][n - 1];
    }
  }

  lemma {:induction false} RemovedIsGone(d: Entries, p: EntryPlan, depth: nat)
    requires RemoveOne(d, p, depth).removed
    ensures RemoveOne(d, p, depth).left == if KeepsMarker(d, p) then d else d - {p.name}
  {
  }

  // ----- The marker goes last -----

  predicate HasMarker(d: Entries) {
    MARKER in d && d[MARKER].Regular?
  }

  /** The marker is there as long as anything else is. */
  predicate Marked(d: Entries) {
    d == map[] || HasMarker(d)
  }

  ghost predicate AllMarked(states: seq<Entries>) {
    forall n :: 0 <= n < |states| ==> Marked(states[n])
  }

  /** Each name is read at most once, and at least once if reading ends without an error. */
  predicate Listing(d: Entries, p: DirPlan) {
    && (forall m, n :: 0 <= m < n < |p.order| ==> p.order[m].name != p.order[n].name)
    && (p.readdir ==> forall name :: name in d ==> exists n :: 0 <= n < |p.order| && p.order[n].name == name)
  }

  /** The marker is not deleted before other entries: wherever it is read, the first look at it
      succeeds, or the attempt to remove it like any other entry fails, or nothing else is left. */
  predicate MarkerSafe(d: Entries, p: DirPlan, depth: nat) {
    p.open ==> forall k :: 0 <= k < |p.order| && p.order[k].name == MARKER ==>
      || p.order[k].markerStat || !p.order[k].stat || !p.order[k].unlink
      || RemoveListed(d, p.order[..k], depth).left.Keys == {MARKER}
  }

  lemma {:induction false} ListingKeepsMarker(d: Entries, order: seq<EntryPlan>, depth: nat)
    requires HasMarker(d)
    requires forall n :: 0 <= n < |order| && order[n].name == MARKER ==> order[n].markerStat
    ensures var r := RemoveListed(d, order, depth);
      HasMarker(r.left) && forall n :: 0 <= n < |r.states| ==> HasMarker(r.states[n])
    decreases order
  {
    hide RemoveEntry;
    if order != [] {
      var first := RemoveOne(d, order[0], depth);
      ListingKeepsMarker(first.left, order[1..], depth);
    }
  }

  lemma {:induction false} ListedConcat(d: Entries, a: seq<EntryPlan>, b: seq<EntryPlan>, depth: nat)
    ensures RemoveListed(d, a + b, depth) ==
            Then(RemoveListed(d, a, depth), RemoveListed(RemoveListed(d, a, depth).left, b, depth))
    decreases |a|
  {
    hide RemoveOne;
    if a == [] {
      assert a + b == b;
      var r := RemoveListed(d, b, depth);
      assert Then(DirResult(true, d, []), r) == r;
    } else {
      var first := RemoveOne(d, a[0], depth);
      assert (a + b)[0] == a[0] && (a + b)[1..] == a[1..] + b;
      ListedConcat(first.left, a[1..], b, depth);
      ThenThen(first, RemoveListed(first.left, a[1..], depth),
               RemoveListed(RemoveListed(d, a, depth).left, b, depth));
    }
  }

  lemma ThenThen(x: DirResult, y: DirResult, z: DirResult)
    ensures Then(x, Then(y, z)) == Then(Then(x, y), z)
  {
  }

  /** The listing up to the marker, the marker, and the rest. */
  lemma {:induction false} AroundMarker(d: Entries, order: seq<EntryPlan>, k: nat, depth: nat)
    requires k < |order|
    ensures var before := RemoveListed(d, order[..k], depth);
      var marker := RemoveOne(before.left, order[k], depth);
      RemoveListed(d, order, depth) == Then(before, Then(marker, RemoveListed(marker.left, order[k + 1..], depth)))
  {
    hide RemoveOne;
    assert order == order[..k] + ([order[k]] + order[k + 1..]);
    ListedConcat(d, order[..k], [order[k]] + order[k + 1..], depth);
    assert ([order[k]] + order[k + 1..])[1..] == order[k + 1..];
  }

  /** Reading the marker as the `k`-th name, in a directory that still has it. */
  lemma {:induction false} MarkerRead(d: Entries, p: EntryPlan, depth: nat)
    requires HasMarker(d) && p.name == MARKER && depth < MAX_CLEANUP_DEPTH
    ensures RemoveOne(d, p, depth) ==
            if p.markerStat then DirResult(true, d, [])
            else if p.stat && p.unlink then DirResult(true, d - {MARKER}, [d - {MARKER}])
            else DirResult(false, d, [])
  {
    var r := RemoveEntry(d[MARKER], p, depth + 1);
    if !p.markerStat {
      assert d[MARKER := d[MARKER]] == d;
      assert Lift(d, MARKER, []) == [];
      assert Lift(d, MARKER, [None]) == [d - {MARKER}];
    }
  }

  lemma MarkedWithout(d: Entries)
    requires HasMarker(d)
    ensures Marked(d - {MARKER}) <==> d.Keys == {MARKER}
    ensures d.Keys == {MARKER} ==> d - {MARKER} == map[]
  {
    assert d.Keys == (d - {MARKER}).Keys + {MARKER};
    if d.Keys == {MARKER} {
      assert (d - {MARKER}).Keys == {};
    }
  }

  /** While names are read: all states are marked exactly if the marker is safe. */
  lemma {:induction false} ListingMarked(d: Entries, p: DirPlan, depth: nat)
    requires HasMarker(d) && Listing(d, p) && p.open && depth < MAX_CLEANUP_DEPTH
    ensures var r := RemoveListed(d, p.order, depth);
      && (AllMarked(r.states) <==> MarkerSafe(d, p, depth))
      && (MarkerSafe(d, p, depth) ==> Marked(r.left))
  {
    hide RemoveListed, RemoveOne, RemoveEntry;
    if k :| 0 <= k < |p.order| && p.order[k].name == MARKER {
      AroundMarker(d, p.order, k, depth);
      var before := RemoveListed(d, p.order[..k], depth);
      ListingKeepsMarker(d, p.order[..k], depth);
      MarkerRead(before.left, p.order[k], depth);
      MarkedWithout(before.left);
      var marker := RemoveOne(before.left, p.order[k], depth);
      if HasMarker(marker.left) {
        ListingKeepsMarker(marker.left, p.order[k + 1..], depth);
      } else if marker.left == map[] {
        NothingToList(p.order[k + 1..], depth);
      } else {
        var r := RemoveListed(d, p.order, depth);
        assert r.states[|before.states|] == marker.states[0];
      }
      assert MarkerSafe(d, p, depth) <==>
        p.order[k].markerStat || !p.order[k].stat || !p.order[k].unlink || before.left.Keys == {MARKER};
    } else {
      ListingKeepsMarker(d, p.order, depth);
    }
  }

  /** The marker goes last, whatever else fails and wherever a crash cuts the removal off: in a
      directory with a marker every state has it, unless the directory is empty, exactly if the
      marker is safe. */
  lemma {:induction false} MarkerGoesLast(d: Entries, p: DirPlan, depth: nat)
    requires HasMarker(d) && Listing(d, p) && depth < MAX_CLEANUP_DEPTH
    ensures AllMarked(RemoveContents(d, p, depth).states) <==> MarkerSafe(d, p, depth)
  {
    hide RemoveListed, MarkerSafe;
    if p.open {
      ListingMarked(d, p, depth);
      var r := RemoveListed(d, p.order, depth);
      if r.removed && p.readdir {
        ListedLeaves(d, p.order, depth);
        assert r.left - {MARKER} == map[];
        assert AllMarked(r.states + [map[]]) <==> AllMarked(r.states) by {
          assert forall n :: 0 <= n < |r.states| ==> (r.states + [map[]])[n] == r.states[n];
        }
      }
    } else {
      ClosedIsSafe(d, p, depth);
    }
  }

  lemma {:induction false} ClosedIsSafe(d: Entries, p: DirPlan, depth: nat)
    requires !p.open
    ensures MarkerSafe(d, p, depth) && RemoveContents(d, p, depth).states == []
  {
  }

  lemma {:induction false} NothingToList(order: seq<EntryPlan>, depth: nat)
    ensures RemoveListed(map[], order, depth).left == map[] && RemoveListed(map[], order, depth).states == []
    decreases order
  {
    if order != [] {
      NothingToList(order[1..], depth);
    }
  }

  // ----- A plan without faults, for any tree -----

  function PlanEntry(name: Name, n: Node): EntryPlan
    decreases n, 1
  {
    EntryPlan(name, true, true, true, true,
              if n.Dir? then PlanNames(n, Sorted(n.entries.Keys)) else DirPlan(true, [], true, true), true)
  }

  function PlanNames(n: Node, names: seq<Name>): DirPlan
    requires n.Dir? && forall name :: name in names ==> name in n.entries
    decreases n, 0
  {
    DirPlan(true, seq(|names|, i requires 0 <= i < |names| =>
                    assert names[i] in names; PlanEntry(names[i], n.entries[names[i]])), true, true)
  }

  lemma {:induction false} PlanIsFaultless(n: Node, name: Name)
    ensures Faultless(n, PlanEntry(name, n))
    decreases n, 1
  {
    if n.Dir? {
      PlanNamesFaultless(n, Sorted(n.entries.Keys));
    }
  }

  lemma {:induction false} PlanNamesFaultless(n: Node, names: seq<Name>)
    requires n.Dir? && forall name :: name in names <==> name in n.entries
    requires forall i, j :: 0 <= i < j < |names| ==> names[i] != names[j]
    ensures FaultlessDir(n.entries, PlanNames(n, names))
    decreases n, 0
  {
    var p := PlanNames(n, names);
    forall i | 0 <= i < |names| ensures p.order[i].name in n.entries && Faultless(n.entries[p.order[i].name], p.order[i]) {
      assert names[i] in names;
      PlanIsFaultless(n.entries[names[i]], names[i]);
    }
    forall name | name in n.entries ensures exists i :: 0 <= i < |p.order| && p.order[i].name == name {
      var i :| 0 <= i < |names| && names[i] == name;
      assert p.order[i] == PlanEntry(names[i], n.entries[names[i]]);
    }
  }

  /** The plan with its first look at the first name failing, and nothing else changed. */
  function FirstLookFails(p: DirPlan): DirPlan
    requires p.order != []
  {
    p.(order := p.order[0 := p.order[0].(markerStat := false)])
  }

  /** One failed look is enough: next to any other entry the marker can be deleted first, in a
      removal in which nothing else fails. */
  lemma {:induction false} MarkerCanGoFirst(d: Entries, depth: nat) returns (p: DirPlan)
    requires HasMarker(d) && d.Keys != {MARKER} && depth < MAX_CLEANUP_DEPTH
    ensures p.order != [] && FaultlessDir(d, p) && Listing(d, FirstLookFails(p))
    ensures RemoveContents(d, FirstLookFails(p), depth).states != []
    ensures RemoveContents(d, FirstLookFails(p), depth).states[0] == d - {MARKER} && !Marked(d - {MARKER})
  {
    hide FaultlessDir, RemoveContents;
    var names := [MARKER] + Sorted(d.Keys - {MARKER});
    p := PlanNames(Dir(d), names);
    PlanNamesFaultless(Dir(d), names);
    assert MARKER in names;
    assert p.order[0] == PlanEntry(MARKER, d[MARKER]);
    ListingWithoutLook(d, p);
    FirstLookDeletes(d, FirstLookFails(p), depth);
    MarkedWithout(d);
  }

  lemma {:induction false} ListingWithoutLook(d: Entries, p: DirPlan)
    requires FaultlessDir(d, p) && p.order != []
    ensures Listing(d, FirstLookFails(p)) && FirstLookFails(p).open
  {
    var q := FirstLookFails(p);
    assert forall n :: 0 <= n < |p.order| ==> q.order[n].name == p.order[n].name;
  }

  lemma {:induction false} FirstLookDeletes(d: Entries, p: DirPlan, depth: nat)
    requires HasMarker(d) && depth < MAX_CLEANUP_DEPTH && p.open && p.order != []
    requires var first := p.order[0]; first.name == MARKER && !first.markerStat && first.stat && first.unlink
    ensures RemoveContents(d, p, depth).states != []
    ensures RemoveContents(d, p, depth).states[0] == d - {MARKER}
  {
    hide RemoveListed, RemoveOne;
    AroundMarker(d, p.order, 0, depth);
    EmptyListing(d, depth);
    assert p.order[..0] == [];
    MarkerRead(d, p.order[0], depth);
    assert RemoveListed(d, p.order, depth).states[0] == d - {MARKER};
  }

  lemma {:induction false} EmptyListing(d: Entries, depth: nat)
    ensures RemoveListed(d, [], depth) == DirResult(true, d, [])
  {
  }

  /** So the marker is safe from all faults exactly in a directory that has nothing else. */
  lemma MarkerSafeFromAll(d: Entries, depth: nat)
    requires HasMarker(d) && depth < MAX_CLEANUP_DEPTH
    ensures (forall p: DirPlan | p.readdir && Listing(d, p) :: AllMarked(RemoveContents(d, p, depth).states)) <==> d.Keys == {MARKER}
  {
    hide RemoveContents, RemoveListed, Listing;
    if d.Keys == {MARKER} {
      forall p: DirPlan | p.readdir && Listing(d, p) ensures AllMarked(RemoveContents(d, p, depth).states) {
        MarkerGoesLast(d, p, depth);
        OnlyMarkerIsSafe(d, p, depth);
      }
    } else {
      var p := MarkerCanGoFirst(d, depth);
      assert FirstLookFails(p).readdir && !AllMarked(RemoveContents(d, FirstLookFails(p), depth).states);
    }
  }

  lemma OnlyMarkerIsSafe(d: Entries, p: DirPlan, depth: nat)
    requires HasMarker(d) && d.Keys == {MARKER} && Listing(d, p)
    ensures MarkerSafe(d, p, depth)
  {
    forall k | 0 <= k < |p.order| && p.order[k].name == MARKER
      ensures RemoveListed(d, p.order[..k], depth).left.Keys == {MARKER}
    {
      OthersAreNotThere(d, p.order[..k], depth);
    }
  }

  lemma {:induction false} OthersAreNotThere(d: Entries, order: seq<EntryPlan>, depth: nat)
    requires forall n :: 0 <= n < |order| ==> order[n].name !in d
    ensures RemoveListed(d, order, depth).left == d
    decreases |order|
  {
    if order != [] {
      OthersAreNotThere(d, order[1..], depth);
    }
  }

  // ----- Removal only deletes, and can be resumed -----

  predicate SameKind(a: Node, b: Node) {
    (a.Regular? <==> b.Regular?) && (a.Dir? <==> b.Dir?)
  }

  /** `a` is what deletions made of `b`. */
  ghost predicate Pruned(a: Node, b: Node) {
    forall path | Lookup(a, path).Some? :: Lookup(b, path).Some? && SameKind(Lookup(a, path).value, Lookup(b, path).value)
  }

  ghost predicate AllPruned(states: seq<Entries>, d: Entries) {
    forall n :: 0 <= n < |states| ==> Pruned(Dir(states[n]), Dir(d))
  }

  lemma PutPruned(d: Entries, name: Name, n: Option<Node>)
    requires name in d && (n.Some? ==> Pruned(n.value, d[name]))
    ensures Pruned(Dir(Put(d, name, n)), Dir(d))
  {
    var d' := Put(d, name, n);
    forall path | Lookup(Dir(d'), path).Some?
      ensures Lookup(Dir(d), path).Some? && SameKind(Lookup(Dir(d'), path).value, Lookup(Dir(d), path).value)
    {
      if path != [] && path[0] == name {
        assert Lookup(n.value, path[1..]).Some?;
      }
    }
  }

  lemma {:induction false} EntryIsPruned(n: Node, p: EntryPlan, depth: nat)
    ensures var r := RemoveEntry(n, p, depth);
      && (r.left.Some? ==> Pruned(r.left.value, n))
      && forall k :: 0 <= k < |r.states| && r.states[k].Some? ==> Pruned(r.states[k].value, n)
    decreases p, 0
  {
    hide Pruned;
    PrunedSelf(n);
    if depth <= MAX_CLEANUP_DEPTH && p.stat && n.Dir? && p.open {
      ContentsArePruned(n.entries, p.contents, depth);
    }
  }

  lemma PrunedSelf(n: Node)
    ensures Pruned(n, n)
  {
  }

  lemma PrunedTwice(a: Node, b: Node, c: Node)
    requires Pruned(a, b) && Pruned(b, c)
    ensures Pruned(a, c)
  {
    forall path | Lookup(a, path).Some?
      ensures Lookup(c, path).Some? && SameKind(Lookup(a, path).value, Lookup(c, path).value)
    {
      assert Lookup(b, path).Some?;
    }
  }

  lemma {:induction false} ContentsArePruned(d: Entries, p: DirPlan, depth: nat)
    ensures var r := RemoveContents(d, p, depth);
      Pruned(Dir(r.left), Dir(d)) && AllPruned(r.states, d)
    decreases p
  {
    hide Pruned;
    PrunedSelf(Dir(d));
    ListingPrunes(d, p.order, depth);
    var r := RemoveListed(d, p.order, depth);
    if MARKER in r.left {
      hide Lookup;
      PutPruned(r.left, MARKER, None);
      PrunedTwice(Dir(r.left - {MARKER}), Dir(r.left), Dir(d));
    }
  }

  lemma {:induction false} ListingPrunes(d: Entries, order: seq<EntryPlan>, depth: nat)
    ensures var r := RemoveListed(d, order, depth);
      Pruned(Dir(r.left), Dir(d)) && AllPruned(r.states, d)
    decreases order
  {
    hide Pruned;
    PrunedSelf(Dir(d));
    if order != [] {
      OnePrunes(d, order[0], depth);
      var first := RemoveOne(d, order[0], depth);
      ListingPrunes(first.left, order[1..], depth);
      var rest := RemoveListed(first.left, order[1..], depth);
      PrunedTwice(Dir(rest.left), Dir(first.left), Dir(d));
      forall n | 0 <= n < |rest.states| ensures Pruned(Dir(rest.states[n]), Dir(d)) {
        PrunedTwice(Dir(rest.states[n]), Dir(first.left), Dir(d));
      }
    }
  }

  lemma {:induction false} OnePrunes(d: Entries, p: EntryPlan, depth: nat)
    ensures var r := RemoveOne(d, p, depth);
      Pruned(Dir(r.left), Dir(d)) && AllPruned(r.states, d)
    decreases p, 1
  {
    hide Pruned, Lookup, RemoveEntry;
    PrunedSelf(Dir(d));
    if !KeepsMarker(d, p) && p.name in d {
      EntryIsPruned(d[p.name], p, depth + 1);
      var r := RemoveEntry(d[p.name], p, depth + 1);
      PutPruned(d, p.name, r.left);
      forall n | 0 <= n < |r.states| ensures Pruned(Dir(Put(d, p.name, r.states[n])), Dir(d)) {
        PutPruned(d, p.name, r.states[n]);
      }
    }
  }

  lemma PrunedFits(a: Node, b: Node, levels: int)
    requires Pruned(a, b) && Fits(b, levels)
    ensures Fits(a, levels)
  {
  }

  /** One attempt to remove the session directory; a crash cuts it off after some deletions. */
  datatype Attempt = Attempt(plan: EntryPlan, deletions: nat)

  function AfterAttempt(n: Option<Node>, a: Attempt): Option<Node> {
    if n.None? then None
    else
      var states := RemoveEntry(n.value, a.plan, 0).states;
      if a.deletions == 0 || states == [] then n
      else if a.deletions <= |states| then states[a.deletions - 1]
      else states[|states| - 1]
  }

  function AfterAttempts(n: Option<Node>, attempts: seq<Attempt>): Option<Node>
    decreases |attempts|
  {
    if attempts == [] then n else AfterAttempts(AfterAttempt(n, attempts[0]), attempts[1..])
  }

  ghost predicate Resumable(n: Option<Node>) {
    n.Some? ==> n.value.Dir? && Marked(n.value.entries)
  }

  /** In each attempt that meets a marker, names are read as `Listing` says and the marker is safe. */
  predicate AllSafe(n: Option<Node>, attempts: seq<Attempt>)
    decreases |attempts|
  {
    attempts == [] ||
    ((n.Some? && n.value.Dir? && HasMarker(n.value.entries) ==>
        Listing(n.value.entries, attempts[0].plan.contents) && MarkerSafe(n.value.entries, attempts[0].plan.contents, 0))
     && AllSafe(AfterAttempt(n, attempts[0]), attempts[1..]))
  }

  /** An attempt on a marked directory leaves it marked, wherever it is cut off, exactly if the
      marker is safe. */
  lemma AttemptKeepsMarker(d: Entries, p: EntryPlan)
    requires HasMarker(d) && Listing(d, p.contents) && p.stat && p.open
    ensures (forall k: nat :: Resumable(AfterAttempt(Some(Dir(d)), Attempt(p, k)))) <==> MarkerSafe(d, p.contents, 0)
  {
    hide RemoveContents, Listing, MarkerSafe, Marked;
    MarkerGoesLast(d, p.contents, 0);
    var states := RemoveContents(d, p.contents, 0).states;
    assert Marked(d) by {
      MarkedIfHas(d);
    }
    forall k: nat ensures Resumable(AfterAttempt(Some(Dir(d)), Attempt(p, k))) || !AllMarked(states) {
    }
    if n :| 0 <= n < |states| && !Marked(states[n]) {
      assert AfterAttempt(Some(Dir(d)), Attempt(p, n + 1)) == Some(Dir(states[n]));
    }
  }

  lemma MarkedIfHas(d: Entries)
    requires HasMarker(d)
    ensures Marked(d)
  {
  }

  lemma AnyAttempt(d: Entries, a: Attempt)
    requires Marked(d) && (HasMarker(d) ==> Listing(d, a.plan.contents) && MarkerSafe(d, a.plan.contents, 0))
    ensures Resumable(AfterAttempt(Some(Dir(d)), a))
  {
    hide RemoveListed, Listing, MarkerSafe;
    var p := a.plan.contents;
    if d == map[] {
      NothingToList(p.order, 0);
      assert RemoveContents(d, p, 0).states == [] && RemoveContents(d, p, 0).left == map[];
    } else if a.plan.stat && a.plan.open {
      AttemptKeepsMarker(d, a.plan);
      assert a == Attempt(a.plan, a.deletions);
    }
  }

  lemma AttemptPrunes(n: Node, a: Attempt)
    ensures var m := AfterAttempt(Some(n), a); m.Some? ==> Pruned(m.value, n)
  {
    hide Pruned, RemoveEntry;
    PrunedSelf(n);
    EntryIsPruned(n, a.plan, 0);
  }

  /** Removal can be resumed: after any number of attempts, each failed anywhere or cut off by a
      crash, what is left of a directory that was not too deep to begin with is removed by an
      attempt in which nothing fails. */
  lemma {:induction false} RemovalIsResumable(n: Node, attempts: seq<Attempt>, last: EntryPlan)
    requires Fits(n, MAX_CLEANUP_DEPTH)
    ensures var m := AfterAttempts(Some(n), attempts);
      m.Some? && Faultless(m.value, last) ==> RemoveEntry(m.value, last, 0).removed
    decreases |attempts|
  {
    hide Fits, RemoveEntry, Faultless, Pruned, AfterAttempt;
    if attempts == [] {
      if Faultless(n, last) {
        RemovedExactlyWhenFits(n, last, 0);
      }
    } else {
      AttemptPrunes(n, attempts[0]);
      var m := AfterAttempt(Some(n), attempts[0]);
      if m.Some? {
        PrunedFits(m.value, n, MAX_CLEANUP_DEPTH);
        RemovalIsResumable(m.value, attempts[1..], last);
      } else {
        GoneStaysGone(attempts[1..]);
      }
    }
  }

  /** And as long as the marker is safe in each attempt, the directory is then gone, or empty, or
      still has its marker. */
  lemma {:induction false} StaysRecognisable(n: Node, attempts: seq<Attempt>)
    requires n.Dir? && Marked(n.entries) && AllSafe(Some(n), attempts)
    ensures Resumable(AfterAttempts(Some(n), attempts))
    decreases |attempts|
  {
    hide AfterAttempt, MarkerSafe, Listing;
    if attempts != [] {
      AnyAttempt(n.entries, attempts[0]);
      var m := AfterAttempt(Some(n), attempts[0]);
      if m.Some? {
        StaysRecognisable(m.value, attempts[1..]);
      } else {
        GoneStaysGone(attempts[1..]);
      }
    }
  }

  lemma {:induction false} GoneStaysGone(attempts: seq<Attempt>)
    ensures AfterAttempts(None, attempts) == None
  {
    if attempts != [] {
      GoneStaysGone(attempts[1..]);
    }
  }
}
