/** What a listing contains: exactly as many of the matching files as the limit allows. */
module ListTheorems {
  import opened SwapTypes
  import opened Names
  import opened ListSpec

  /** `a` is `b` with some elements left out. */
  predicate Subseq(a: seq<Path>, b: seq<Path>)
    decreases |b|
  {
    a == [] || (b != [] && ((a[0] == b[0] && Subseq(a[1..], b[1..])) || Subseq(a, b[1..])))
  }

  predicate Distinct(s: seq<Path>) {
    forall i, j :: 0 <= i < j < |s| ==> s[i] != s[j]
  }

  lemma {:induction false} SubseqSelf(a: seq<Path>)
    ensures Subseq(a, a)
  {
    if a != [] {
      SubseqSelf(a[1..]);
    }
  }

  lemma {:induction false} SubseqConcat(a: seq<Path>, b: seq<Path>, c: seq<Path>, d: seq<Path>)
    requires Subseq(a, b) && Subseq(c, d)
    ensures Subseq(a + c, b + d)
    decreases |b|
  {
    if b == [] {
      assert a + c == c && b + d == d;
    } else {
      assert (b + d)[1..] == b[1..] + d && (b + d)[0] == b[0];
      if a != [] && a[0] == b[0] && Subseq(a[1..], b[1..]) {
        SubseqConcat(a[1..], b[1..], c, d);
        assert (a + c)[1..] == a[1..] + c;
      } else {
        SubseqConcat(a, b[1..], c, d);
      }
    }
  }

  lemma {:induction false} SubseqLength(a: seq<Path>, b: seq<Path>)
    requires Subseq(a, b)
    ensures |a| <= |b| && (|a| == |b| ==> a == b)
    decreases |b|
  {
    if a != [] {
      if a[0] == b[0] && Subseq(a[1..], b[1..]) {
        SubseqLength(a[1..], b[1..]);
      } else {
        SubseqLength(a, b[1..]);
      }
    }
  }

  /** A part of a sequence without repetitions has none either. */
  lemma {:induction false} SubseqDistinct(a: seq<Path>, b: seq<Path>)
    requires Subseq(a, b) && Distinct(b)
    ensures Distinct(a)
    ensures forall p :: p in a ==> p in b
    decreases |b|
  {
    if a != [] {
      assert forall j :: 1 <= j < |b| ==> b[j] == b[1..][j - 1];
      assert forall j :: 1 <= j < |a| ==> a[j] == a[1..][j - 1];
      if a[0] == b[0] && Subseq(a[1..], b[1..]) {
        SubseqDistinct(a[1..], b[1..]);
        assert b[0] !in b[1..];
        assert a[0] !in a[1..];
      } else {
        SubseqDistinct(a, b[1..]);
      }
      assert a == [a[0]] + a[1..] && b == [b[0]] + b[1..];
    }
  }

  // ----- The budget -----

  ghost predicate Readable(fs: Fs) {
    forall p :: !fs.unreadable(p)
  }

  predicate Exhausted(o: Options, count: nat) {
    o.listNum != 0 && count >= o.listNum
  }

  /** A listing that started at `count`, of which `scanned` was already counted, against all matches. */
  predicate Budgeted(o: Options, r: Listing, count: nat, scanned: nat, all: seq<Path>) {
    && r.ok && Subseq(r.out, all)
    && count <= r.count && |r.out| == scanned + (r.count - count)
    && (!Exhausted(o, r.count) ==> r.out == all)
    && (count <= o.listNum ==> r.count <= o.listNum || o.listNum == 0)
  }

  lemma {:induction false} WalkIsBudgeted(fs: Fs, o: Options, n: Node, at: Path, count: nat)
    requires n.Dir? && Readable(fs) && o.recursion
    ensures Budgeted(o, Walk(fs, o, n, at, count), count, 0, All(fs, o.filter, n, at))
    decreases n, 1
  {
    var (kept, count') := Scan(fs, o, n.entries, 0, count);
    ScanCounts(fs, o, n.entries, 0, count);
    KeptIsBudgeted(fs, o, n, 0, at, count, count');
  }

  lemma {:induction false} ScanCounts(fs: Fs, o: Options, entries: seq<Entry>, i: nat, count: nat)
    requires i <= |entries|
    ensures var count' := Scan(fs, o, entries, i, count).1;
      count <= count' && (count <= o.listNum ==> count' <= o.listNum || o.listNum == 0)
    decreases |entries| - i
  {
    if i < |entries| {
      ScanCounts(fs, o, entries, i + 1, Admit(fs, o, count, entries[i]).1);
    }
  }

  lemma {:induction false} KeptIsBudgeted(fs: Fs, o: Options, n: Node, i: nat, at: Path, count: nat, walked: nat)
    requires n.Dir? && Readable(fs) && o.recursion && i <= |n.entries|
    requires Scan(fs, o, n.entries, i, count).1 <= walked
    ensures var (kept, count') := Scan(fs, o, n.entries, i, count);
      count <= count' &&
      Budgeted(o, WalkKept(fs, o, n, kept, at, walked), walked, count' - count, AllFrom(fs, o.filter, n, i, at))
    decreases n, 0, |n.entries| - i, 1
  {
    if i == |n.entries| {
      assert Subseq([], []);
    } else {
      ScanCounts(fs, o, n.entries, i, count);
      var e := n.entries[i];
      if !Admit(fs, o, count, e).0 {
        SkippedIsBudgeted(fs, o, n, i, at, count, walked);
      } else if e.node.Dir? {
        DirIsBudgeted(fs, o, n, i, at, count, walked);
      } else {
        FileIsBudgeted(fs, o, n, i, at, count, walked);
      }
    }
  }

  lemma SkippedIsBudgeted(fs: Fs, o: Options, n: Node, i: nat, at: Path, count: nat, walked: nat)
    requires n.Dir? && Readable(fs) && o.recursion && i < |n.entries| && !Admit(fs, o, count, n.entries[i]).0
    requires Scan(fs, o, n.entries, i, count).1 <= walked
    ensures var (kept, count') := Scan(fs, o, n.entries, i, count);
      count <= count' &&
      Budgeted(o, WalkKept(fs, o, n, kept, at, walked), walked, count' - count, AllFrom(fs, o.filter, n, i, at))
    decreases n, 0, |n.entries| - i, 0
  {
    hide *;
    SkippedScan(fs, o, n, i, count);
    SkippedAddsNothing(fs, o, n, i, at, count);
    AllFromStep(fs, o.filter, n, i, at);
    ScanCounts(fs, o, n.entries, i + 1, count);
    KeptIsBudgeted(fs, o, n, i + 1, at, count, walked);
    var scan := Scan(fs, o, n.entries, i + 1, count);
    ExhaustedStays(o, count, walked);
    SkipBudget(o, WalkKept(fs, o, n, scan.0, at, walked), walked, scan.1 - count,
               AllOf(fs, o.filter, n, i, at), AllFrom(fs, o.filter, n, i + 1, at));
  }

  lemma ExhaustedStays(o: Options, count: nat, walked: nat)
    requires count <= walked
    ensures Exhausted(o, count) ==> Exhausted(o, walked)
  {
  }

  lemma AllFromStep(fs: Fs, f: Filter, n: Node, i: nat, at: Path)
    requires n.Dir? && i < |n.entries|
    ensures AllFrom(fs, f, n, i, at) == AllOf(fs, f, n, i, at) + AllFrom(fs, f, n, i + 1, at)
  {
  }

  lemma {:induction false} SkippedAddsNothing(fs: Fs, o: Options, n: Node, i: nat, at: Path, count: nat)
    requires n.Dir? && o.recursion && i < |n.entries| && !Admit(fs, o, count, n.entries[i]).0
    ensures AllOf(fs, o.filter, n, i, at) == [] || Exhausted(o, count)
  {
    hide Matches;
  }

  lemma SkippedScan(fs: Fs, o: Options, n: Node, i: nat, count: nat)
    requires n.Dir? && i < |n.entries| && !Admit(fs, o, count, n.entries[i]).0
    ensures Scan(fs, o, n.entries, i, count) == Scan(fs, o, n.entries, i + 1, count)
  {
    assert [] + Scan(fs, o, n.entries, i + 1, count).0 == Scan(fs, o, n.entries, i + 1, count).0;
  }

  lemma DirIsBudgeted(fs: Fs, o: Options, n: Node, i: nat, at: Path, count: nat, walked: nat)
    requires n.Dir? && Readable(fs) && o.recursion && i < |n.entries|
    requires n.entries[i].node.Dir? && Admit(fs, o, count, n.entries[i]).0
    requires Scan(fs, o, n.entries, i, count).1 <= walked
    ensures var (kept, count') := Scan(fs, o, n.entries, i, count);
      count <= count' &&
      Budgeted(o, WalkKept(fs, o, n, kept, at, walked), walked, count' - count, AllFrom(fs, o.filter, n, i, at))
    decreases n, 0, |n.entries| - i, 0
  {
    hide Walk, All, Budgeted, Matches;
    var e := n.entries[i];
    var (rest, count') := Scan(fs, o, n.entries, i + 1, count);
    var inner := Walk(fs, o, e.node, at + [e.name], walked);
    WalkIsBudgeted(fs, o, e.node, at + [e.name], walked);
    BudgetedOk(o, inner, walked, 0, AllOf(fs, o.filter, n, i, at));
    KeptIsBudgeted(fs, o, n, i + 1, at, count, inner.count);
    DirBudget(o, inner, WalkKept(fs, o, n, rest, at, inner.count), walked, count' - count,
              AllOf(fs, o.filter, n, i, at), AllFrom(fs, o.filter, n, i + 1, at));
    KeptFirst(fs, o, n, i, rest, at, walked);
  }

  lemma FileIsBudgeted(fs: Fs, o: Options, n: Node, i: nat, at: Path, count: nat, walked: nat)
    requires n.Dir? && Readable(fs) && o.recursion && i < |n.entries|
    requires n.entries[i].node.File? && Admit(fs, o, count, n.entries[i]).0
    requires Scan(fs, o, n.entries, i, count).1 <= walked
    ensures var (kept, count') := Scan(fs, o, n.entries, i, count);
      count <= count' &&
      Budgeted(o, WalkKept(fs, o, n, kept, at, walked), walked, count' - count, AllFrom(fs, o.filter, n, i, at))
    decreases n, 0, |n.entries| - i, 0
  {
    hide Walk, All, Budgeted, Matches;
    var e := n.entries[i];
    var (rest, count') := Scan(fs, o, n.entries, i + 1, count + 1);
    KeptIsBudgeted(fs, o, n, i + 1, at, count + 1, walked);
    FileBudget(o, WalkKept(fs, o, n, rest, at, walked), walked, count' - (count + 1), at + [e.name],
               AllFrom(fs, o.filter, n, i + 1, at));
    KeptFirst(fs, o, n, i, rest, at, walked);
  }

  /** One round of the loop over the kept entries. */
  lemma {:induction false} KeptFirst(fs: Fs, o: Options, n: Node, i: nat, rest: seq<nat>, at: Path, count: nat)
    requires n.Dir? && i < |n.entries| && forall k :: 0 <= k < |rest| ==> rest[k] < |n.entries|
    ensures var e := n.entries[i];
      WalkKept(fs, o, n, [i] + rest, at, count) ==
        if e.node.File? then
          var r := WalkKept(fs, o, n, rest, at, count);
          r.(out := [at + [e.name]] + r.out)
        else
          var inner := Walk(fs, o, e.node, at + [e.name], count);
          if !inner.ok then inner
          else
            var r := WalkKept(fs, o, n, rest, at, inner.count);
            r.(out := inner.out + r.out)
  {
    assert ([i] + rest)[1..] == rest;
  }

  lemma BudgetedOk(o: Options, r: Listing, count: nat, scanned: nat, all: seq<Path>)
    requires Budgeted(o, r, count, scanned, all)
    ensures r.ok && count <= r.count
  {
  }

  lemma SkipBudget(o: Options, r: Listing, count: nat, scanned: nat, of: seq<Path>, from: seq<Path>)
    requires Budgeted(o, r, count, scanned, from)
    requires of == [] || Exhausted(o, count)
    ensures Budgeted(o, r, count, scanned, of + from)
  {
    assert Subseq([], of);
    SubseqConcat([], of, r.out, from);
    assert [] + r.out == r.out;
    assert of == [] ==> of + from == from;
  }

  lemma FileBudget(o: Options, r: Listing, count: nat, scanned: nat, p: Path, from: seq<Path>)
    requires Budgeted(o, r, count, scanned, from)
    ensures Budgeted(o, r.(out := [p] + r.out), count, scanned + 1, [p] + from)
  {
    SubseqSelf([p]);
    SubseqConcat([p], [p], r.out, from);
  }

  lemma DirBudget(o: Options, inner: Listing, rest: Listing, count: nat, scanned: nat, of: seq<Path>, from: seq<Path>)
    requires Budgeted(o, inner, count, 0, of) && Budgeted(o, rest, inner.count, scanned, from)
    ensures Budgeted(o, rest.(out := inner.out + rest.out), count, scanned, of + from)
  {
    SubseqConcat(inner.out, of, rest.out, from);
  }

  // ----- All matches -----

  /** A file at a path below `n` that matches, judged by its own name, size and time. */
  predicate IsMatch(fs: Fs, f: Filter, n: Node, p: Path) {
    && p != [] && Lookup(n, p).Some? && Lookup(n, p).value.File?
    && Matches(fs, f, Entry(p[|p| - 1], Lookup(n, p).value))
  }

  /** What entry `k` contributes. */
  predicate IsMatchOf(fs: Fs, f: Filter, n: Node, k: nat, at: Path, p: Path)
    requires n.Dir? && k < |n.entries|
  {
    && at < p && p[|at|] == n.entries[k].name
    && if n.entries[k].node.Dir? then IsMatch(fs, f, n.entries[k].node, p[|at| + 1..])
       else |p| == |at| + 1 && Matches(fs, f, n.entries[k])
  }

  /** What the entries from position `i` on contribute. */
  ghost predicate MatchesFrom(fs: Fs, f: Filter, n: Node, i: nat, at: Path, all: seq<Path>)
    requires n.Dir?
  {
    forall p :: p in all <==> exists k :: i <= k < |n.entries| && IsMatchOf(fs, f, n, k, at, p)
  }

  lemma {:induction false} AllFromMeaning(fs: Fs, f: Filter, n: Node, i: nat, at: Path)
    requires n.Dir? && i <= |n.entries| && DistinctNames(n)
    ensures MatchesFrom(fs, f, n, i, at, AllFrom(fs, f, n, i, at))
    ensures Distinct(AllFrom(fs, f, n, i, at))
    decreases n, 0, |n.entries| - i
  {
    if i < |n.entries| {
      AllOfMeaning(fs, f, n, i, at);
      AllFromMeaning(fs, f, n, i + 1, at);
      var of, from, all := AllOf(fs, f, n, i, at), AllFrom(fs, f, n, i + 1, at), AllFrom(fs, f, n, i, at);
      Disjoint(fs, f, n, i, at, of, from);
      forall p ensures p in all <==> exists k :: i <= k < |n.entries| && IsMatchOf(fs, f, n, k, at, p) {
        assert p in all <==> p in of || p in from;
      }
    }
  }

  lemma {:induction false} Disjoint(fs: Fs, f: Filter, n: Node, i: nat, at: Path, of: seq<Path>, from: seq<Path>)
    requires n.Dir? && i < |n.entries| && DistinctNames(n)
    requires forall p :: p in of <==> IsMatchOf(fs, f, n, i, at, p)
    requires MatchesFrom(fs, f, n, i + 1, at, from)
    requires Distinct(of)
    requires Distinct(from)
    ensures Distinct(of + from)
  {
    forall p ensures !(p in of && p in from) {
    }
    forall a, b | 0 <= a < b < |of + from| ensures (of + from)[a] != (of + from)[b] {
      if a < |of| <= b {
        assert of[a] in of && from[b - |of|] in from;
      }
    }
  }

  lemma {:induction false} AllOfMeaning(fs: Fs, f: Filter, n: Node, i: nat, at: Path)
    requires n.Dir? && i < |n.entries| && DistinctNames(n)
    ensures var of := AllOf(fs, f, n, i, at);
      && (forall p :: p in of <==> IsMatchOf(fs, f, n, i, at, p))
      && Distinct(of)
    decreases n, 0, 0
  {
    var e := n.entries[i];
    if e.node.Dir? {
      AllMeaning(fs, f, e.node, at + [e.name]);
      forall p ensures p in AllOf(fs, f, n, i, at) <==> IsMatchOf(fs, f, n, i, at, p) {
        assert at + [e.name] <= p <==> at < p && p[|at|] == e.name;
      }
    } else {
      forall p ensures p == at + [e.name] <==> at < p && p[|at|] == e.name && |p| == |at| + 1 {
      }
    }
  }

  /** `All` lists exactly the matching files, each once. */
  lemma {:induction false} AllMeaning(fs: Fs, f: Filter, n: Node, at: Path)
    requires n.Dir? && DistinctNames(n)
    ensures var all := All(fs, f, n, at);
      && (forall p :: p in all <==> at <= p && IsMatch(fs, f, n, p[|at|..]))
      && Distinct(all)
    decreases n, 1
  {
    AllFromMeaning(fs, f, n, 0, at);
    forall p ensures p in All(fs, f, n, at) <==> at <= p && IsMatch(fs, f, n, p[|at|..]) {
      if at < p {
        MatchOfSome(fs, f, n, at, p);
      }
    }
  }

  lemma {:induction false} MatchOfSome(fs: Fs, f: Filter, n: Node, at: Path, p: Path)
    requires n.Dir? && DistinctNames(n) && at < p
    ensures IsMatch(fs, f, n, p[|at|..]) <==> exists k :: 0 <= k < |n.entries| && IsMatchOf(fs, f, n, k, at, p)
  {
    var q := p[|at|..];
    var name := q[0];
    assert q[1..] == p[|at| + 1..];
    FindIsEntry(n.entries, name);
    forall k | 0 <= k < |n.entries| && IsMatchOf(fs, f, n, k, at, p) ensures IsMatch(fs, f, n, q) {
      FindEntry(n.entries, k);
    }
    if IsMatch(fs, f, n, q) {
      var k :| 0 <= k < |n.entries| && n.entries[k] == Entry(name, Find(n.entries, name).value);
      assert Lookup(n, q) == Lookup(n.entries[k].node, q[1..]);
      assert n.entries[k].node.File? ==> q[1..] == [];
      assert IsMatchOf(fs, f, n, k, at, p);
    }
  }

  // ----- Main result -----

  /** A recursive listing of a readable tree has exactly min(limit, matches) distinct files, all of
      them matching; without a limit, or with one that suffices, it is the list of all matches. */
  lemma {:induction false} RecursiveListing(fs: Fs, o: Options)
    requires fs.root.Dir? && DistinctNames(fs.root) && Readable(fs) && o.recursion && o.listNum >= 0
    ensures var r, all := Walk(fs, o, fs.root, [], 0), All(fs, o.filter, fs.root, []);
      && r.ok
      && |r.out| == (if o.listNum == 0 || |all| <= o.listNum then |all| else o.listNum)
      && (o.listNum == 0 || |all| <= o.listNum ==> r.out == all)
      && (forall i :: 0 <= i < |r.out| ==> IsMatch(fs, o.filter, fs.root, r.out[i]))
      && Distinct(r.out)
      && (forall p :: p in all <==> IsMatch(fs, o.filter, fs.root, p))
  {
    hide Walk, All, IsMatch;
    var r, all := Walk(fs, o, fs.root, [], 0), All(fs, o.filter, fs.root, []);
    WalkIsBudgeted(fs, o, fs.root, [], 0);
    AllMeaning(fs, o.filter, fs.root, []);
    SubseqLength(r.out, all);
    SubseqDistinct(r.out, all);
    assert forall p: Path :: p[0..] == p;
    forall i | 0 <= i < |r.out| ensures IsMatch(fs, o.filter, fs.root, r.out[i]) {
      assert r.out[i] in all;
    }
  }
}
