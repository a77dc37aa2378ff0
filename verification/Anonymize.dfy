/** Anonymizing a path for the log: every name keeps its length in characters, and at most its first
    two characters and its last one. */
module Anonymize {
  import opened SwapTypes
  import opened Utf8

  const STAR: bv8 := 0x2A
  const DOT: bv8 := 0x2E
  const SLASH: bv8 := 0x2F
  const COLON: bv8 := 0x3A

  const PATH_MAX_LEN: nat := 4096
  const NAME_MAX_LEN: nat := 256

  // ----- Names -----

  function Stars(n: nat): Bytes {
    seq(n, _ => STAR)
  }

  function AnonymizeName(name: Bytes): Bytes {
    var len := CharsNum(name);
    if len >= 6 then FirstN(name, 2) + Stars(len - 3) + LastN(name, 1)
    else if len >= 4 then FirstN(name, 1) + Stars(len - 2) + LastN(name, 1)
    else if len >= 2 then FirstN(name, 1) + Stars(len - 1)
    else if len == 1 then Stars(1)
    else name
  }

  method AnonymizeNameOf(name: Bytes) returns (r: Bytes)
    ensures r == AnonymizeName(name)
  {
    var len := Utf8CharsNum(name);
    if len >= 6 {
      var first := Utf8FirstN(name, 2);
      var last := Utf8LastN(name, 1);
      return first + Stars(len - 3) + last;
    } else if len >= 4 {
      var first := Utf8FirstN(name, 1);
      var last := Utf8LastN(name, 1);
      return first + Stars(len - 2) + last;
    } else if len >= 2 {
      var first := Utf8FirstN(name, 1);
      return first + Stars(len - 1);
    } else if len == 1 {
      return Stars(1);
    }
    return name;
  }

  /** Which characters of a name of `n` characters stay readable. */
  predicate Shown(n: nat, i: nat) {
    if n >= 6 then i < 2 || i == n - 1
    else if n >= 4 then i < 1 || i == n - 1
    else n >= 2 && i < 1
  }

  function Mask(cs: seq<Bytes>): seq<Bytes> {
    seq(|cs|, i requires 0 <= i < |cs| => if Shown(|cs|, i) then cs[i] else [STAR])
  }

  lemma {:induction false} FlatStars(n: nat)
    ensures Flat(seq(n, _ => [STAR])) == Stars(n)
  {
    if n > 0 {
      FlatStars(n - 1);
      assert seq(n, _ => [STAR])[1..] == seq(n - 1, _ => [STAR]);
      assert Stars(n) == [STAR] + Stars(n - 1);
    }
  }

  /** Anonymizing a name masks it character by character. */
  lemma {:induction false} NameIsMasked(cs: seq<Bytes>)
    requires IsText(cs)
    ensures AnonymizeName(Flat(cs)) == Flat(Mask(cs)) && IsText(Mask(cs))
  {
    hide Flat, IsChar, FirstN, LastN, CharsNum;
    var n := |cs|;
    CountsCharacters(cs);
    var first: nat := if n >= 6 then 2 else if n >= 2 then 1 else 0;
    var last: nat := if n >= 4 then 1 else 0;
    FirstCharacters(cs, first);
    LastCharacters(cs, last);
    MaskInParts(cs, first, last);
    StarIsText(cs);
    if n == 0 {
      assert cs == [] && Mask(cs) == [];
    } else if n == 1 {
      assert cs[..0] == [] && cs[1..] == [];
      EmptyFlat();
      assert [] + Stars(1) + [] == Stars(1);
    } else if n < 4 {
      assert cs[n..] == [];
      EmptyFlat();
    }
  }

  lemma EmptyFlat()
    ensures Flat([]) == []
  {
  }

  lemma StarIsText(cs: seq<Bytes>)
    requires IsText(cs)
    ensures IsText(Mask(cs))
  {
  }

  /** A masked name is its first characters, stars, and its last characters. */
  lemma MaskInParts(cs: seq<Bytes>, first: nat, last: nat)
    requires first == if |cs| >= 6 then 2 else if |cs| >= 2 then 1 else 0
    requires last == if |cs| >= 4 then 1 else 0
    ensures Flat(Mask(cs)) == Flat(cs[..first]) + Stars(|cs| - first - last) + Flat(cs[|cs| - last..])
  {
    hide Flat;
    var n := |cs|;
    FlatStars(n - first - last);
    var stars := seq(n - first - last, _ => [STAR]);
    assert Mask(cs) == cs[..first] + stars + cs[n - last..];
    FlatAppend(cs[..first] + stars, cs[n - last..]);
    FlatAppend(cs[..first], stars);
  }

  /** `out` is `cs` with some characters starred out. */
  predicate Starred(out: seq<Bytes>, cs: seq<Bytes>) {
    |out| == |cs| && forall i :: 0 <= i < |cs| ==> out[i] == cs[i] || out[i] == [STAR]
  }

  lemma {:induction false} StarredMeaning(out: seq<Bytes>, cs: seq<Bytes>)
    requires IsText(cs) && Starred(out, cs)
    ensures |Flat(out)| <= |Flat(cs)|
    ensures forall b :: b in Flat(out) ==> b in Flat(cs) || b == STAR
    ensures out == [] <==> Flat(out) == []
  {
    if cs != [] {
      StarredMeaning(out[1..], cs[1..]);
      CharMeaning(cs[0]);
    }
  }

  lemma MaskAgain(cs: seq<Bytes>)
    ensures Mask(Mask(cs)) == Mask(cs) && Starred(Mask(cs), cs)
  {
  }

  /** What anonymizing does to a well-formed name. */
  lemma NameMeaning(s: Bytes)
    requires WellFormed(s)
    ensures var r := AnonymizeName(s);
      && WellFormed(r) && |r| <= |s| && CharsNum(r) == CharsNum(s)
      && AnonymizeName(r) == r
      && (forall b :: b in r ==> b in s || b == STAR)
  {
    var cs :| IsText(cs) && Flat(cs) == s;
    NameIsMasked(cs);
    MaskAgain(cs);
    StarredMeaning(Mask(cs), cs);
    NameIsMasked(Mask(cs));
    CountsCharacters(cs);
    CountsCharacters(Mask(cs));
  }

  // ----- Components -----

  /** The position after the last dot of `p`, zero if it has none. */
  function AfterLastDot(p: Bytes): (n: nat)
    ensures n <= |p| && DOT !in p[n..]
    ensures n > 0 ==> p[n - 1] == DOT
    ensures n == 0 <==> DOT !in p
  {
    if p == [] then 0
    else if p[|p| - 1] == DOT then |p|
    else
      var n := AfterLastDot(p[..|p| - 1]);
      assert p[n..] == p[..|p| - 1][n..] + [p[|p| - 1]];
      assert p == p[..|p| - 1] + [p[|p| - 1]];
      n
  }

  function Component(part: Bytes, isLast: bool): Bytes {
    var p := Truncate(part, NAME_MAX_LEN);
    var dot := AfterLastDot(p);
    if isLast && dot > 0 then AnonymizeName(p[..dot - 1]) + [DOT] + AnonymizeName(p[dot..])
    else AnonymizeName(p)
  }

  /** The character that byte `pos` of a text belongs to. */
  lemma {:induction false} CharHolding(cs: seq<Bytes>, k: nat, pos: nat) returns (m: nat)
    requires IsText(cs) && k <= |cs| && Start(cs, k) <= pos < |Flat(cs)|
    ensures k <= m < |cs| && Start(cs, m) <= pos < Start(cs, m + 1)
    decreases |cs| - k
  {
    StartEnd(cs);
    CharAt(cs, k);
    if pos < Start(cs, k + 1) {
      m := k;
    } else {
      m := CharHolding(cs, k + 1, pos);
    }
  }

  /** An ASCII byte is a character of its own, so text splits there into two texts. */
  lemma SplitAtAscii(cs: seq<Bytes>, x: Bytes, b: bv8, y: Bytes) returns (k: nat)
    requires IsText(cs) && Flat(cs) == x + [b] + y && b < 0x80
    ensures k < |cs| && cs[k] == [b] && x == Flat(cs[..k]) && y == Flat(cs[k + 1..])
  {
    var s := x + [b] + y;
    assert s[|x|] == b;
    StartEnd(cs);
    k := CharHolding(cs, 0, |x|);
    CharAt(cs, k);
    CharMeaning(cs[k]);
    assert s[Start(cs, k)..Start(cs, k + 1)][|x| - Start(cs, k)] == b;
    assert AsciiLeads(cs[k], |x| - Start(cs, k));
    FlatSplit(cs, k);
    FlatSplit(cs, k + 1);
    assert Flat(cs)[|x|..] == [b] + y;
    assert Flat(cs)[..|x|] == x;
    assert Flat(cs)[|x| + 1..] == y;
  }

  /** In a character a byte below 0x80 can only be the whole of it. */
  predicate AsciiLeads(c: Bytes, j: nat)
    requires j < |c| && IsChar(c)
  {
    c[j] < 0x80 ==> |c| == 1 && j == 0
  }

  lemma WellFormedParts(x: Bytes, b: bv8, y: Bytes)
    requires WellFormed(x + [b] + y) && b < 0x80
    ensures WellFormed(x) && WellFormed(y)
  {
    var cs :| IsText(cs) && Flat(cs) == x + [b] + y;
    var k := SplitAtAscii(cs, x, b, y);
    assert IsText(cs[..k]) && IsText(cs[k + 1..]);
  }

  lemma WellFormedConcat(x: Bytes, y: Bytes)
    requires WellFormed(x) && WellFormed(y)
    ensures WellFormed(x + y) && CharsNum(x + y) == CharsNum(x) + CharsNum(y)
  {
    var a :| IsText(a) && Flat(a) == x;
    var b :| IsText(b) && Flat(b) == y;
    FlatAppend(a, b);
    assert IsText(a + b);
    CountsCharacters(a);
    CountsCharacters(b);
    CountsCharacters(a + b);
  }

  lemma AsciiIsText(b: bv8)
    requires b < 0x80
    ensures WellFormed([b]) && CharsNum([b]) == 1
  {
    FlatOne([b]);
    assert IsText([[b]]);
    CountsCharacters([[b]]);
  }

  lemma TruncateKeepsText(s: Bytes, max: nat)
    requires WellFormed(s)
    ensures WellFormed(Truncate(s, max)) && |Truncate(s, max)| <= max && Truncate(s, max) <= s
  {
    var cs :| IsText(cs) && Flat(cs) == s;
    var m := TruncateMeaning(cs, max);
    assert IsText(cs[..m]);
  }

  lemma {:induction false} LastDotAt(before: Bytes, after: Bytes)
    requires DOT !in after
    ensures AfterLastDot(before + [DOT] + after) == |before| + 1
  {
    var p := before + [DOT] + after;
    assert p[|before|] == DOT;
  }

  /** A masked component: text of as many characters, no longer in bytes, without a slash if the
      component has none, and masking it again changes nothing. */
  lemma ComponentMeaning(part: Bytes, isLast: bool)
    requires WellFormed(part)
    ensures var r, p := Component(part, isLast), Truncate(part, NAME_MAX_LEN);
      && WellFormed(r) && |r| <= |p| <= |part| && CharsNum(r) == CharsNum(p)
      && (SLASH !in part ==> SLASH !in r)
      && Component(r, isLast) == r
  {
    hide AnonymizeName, WellFormed, CharsFrom, Truncate;
    TruncateKeepsText(part, NAME_MAX_LEN);
    var p := Truncate(part, NAME_MAX_LEN);
    var r := Component(part, isLast);
    var dot := AfterLastDot(p);
    if isLast && dot > 0 {
      var before, after := p[..dot - 1], p[dot..];
      assert p == before + [DOT] + after;
      WellFormedParts(before, DOT, after);
      NameMeaning(before);
      NameMeaning(after);
      var b, a := AnonymizeName(before), AnonymizeName(after);
      assert DOT !in a;
      LastDotAt(b, a);
      assert r[..|b|] == b && r[|b| + 1..] == a;
      AsciiIsText(DOT);
      WellFormedConcat(before, [DOT]);
      WellFormedConcat(before + [DOT], after);
      WellFormedConcat(b, [DOT]);
      WellFormedConcat(b + [DOT], a);
    } else {
      NameMeaning(p);
      assert isLast ==> DOT !in r;
    }
    ShortStays(r);
  }

  lemma ShortStays(s: Bytes)
    ensures |s| <= NAME_MAX_LEN ==> Truncate(s, NAME_MAX_LEN) == s
  {
  }

  /** Character by character, a masked component is the truncated one with some characters starred
      out; a dot that separates an extension stays. */
  lemma {:induction false} ComponentIsStarred(part: Bytes, isLast: bool) returns (cs: seq<Bytes>, out: seq<Bytes>)
    requires WellFormed(part)
    ensures IsText(cs) && Flat(cs) == Truncate(part, NAME_MAX_LEN)
    ensures Flat(out) == Component(part, isLast) && Starred(out, cs)
  {
    hide AnonymizeName, Flat, IsChar;
    TruncateKeepsText(part, NAME_MAX_LEN);
    var p := Truncate(part, NAME_MAX_LEN);
    cs :| IsText(cs) && Flat(cs) == p;
    var dot := AfterLastDot(p);
    if isLast && dot > 0 {
      var before, after := p[..dot - 1], p[dot..];
      assert p == before + [DOT] + after;
      var k := SplitAtAscii(cs, before, DOT, after);
      NameIsMasked(cs[..k]);
      NameIsMasked(cs[k + 1..]);
      out := Mask(cs[..k]) + [[DOT]] + Mask(cs[k + 1..]);
      FlatAppend(Mask(cs[..k]) + [[DOT]], Mask(cs[k + 1..]));
      FlatAppend(Mask(cs[..k]), [[DOT]]);
      FlatOne([DOT]);
    } else {
      NameIsMasked(cs);
      out := Mask(cs);
    }
  }

  // ----- Paths -----

  /** The first slash of `s`, or its end. */
  function FirstSlash(s: Bytes): (n: nat)
    ensures n <= |s| && SLASH !in s[..n]
    ensures n < |s| ==> s[n] == SLASH
  {
    if s == [] || s[0] == SLASH then 0
    else
      assert s[..1 + FirstSlash(s[1..])] == [s[0]] + s[1..][..FirstSlash(s[1..])];
      1 + FirstSlash(s[1..])
  }

  function Split(s: Bytes): (parts: seq<Bytes>)
    ensures parts != []
  {
    var n := FirstSlash(s);
    if n == |s| then [s] else [s[..n]] + Split(s[n + 1..])
  }

  function Join(parts: seq<Bytes>): Bytes
    requires parts != []
  {
    if |parts| == 1 then parts[0] else parts[0] + [SLASH] + Join(parts[1..])
  }

  function Masked(parts: seq<Bytes>): (out: seq<Bytes>)
    ensures |out| == |parts|
  {
    seq(|parts|, i requires 0 <= i < |parts| => Component(parts[i], i == |parts| - 1))
  }

  predicate SchemeEnds(s: Bytes, n: nat) {
    3 <= n <= |s| && s[n - 3..n] == [COLON, SLASH, SLASH]
  }

  /** The length of the prefix up to the first `://`, zero if there is none. */
  function SchemeFrom(s: Bytes, from: nat): (n: nat)
    requires from >= 3
    ensures n > 0 ==> from <= n && SchemeEnds(s, n)
    ensures forall m: nat | SchemeEnds(s, m) && m >= from :: 0 < n <= m
    decreases |s| - from
  {
    if from > |s| then 0 else if SchemeEnds(s, from) then from else SchemeFrom(s, from + 1)
  }

  function SchemeLen(s: Bytes): (n: nat)
    ensures n > 0 ==> SchemeEnds(s, n)
    ensures forall m: nat | SchemeEnds(s, m) :: 0 < n <= m
  {
    SchemeFrom(s, 3)
  }

  function AnonymizePath(path: Bytes): Bytes {
    if path == [] then []
    else
      var input := Truncate(path, PATH_MAX_LEN);
      var n := SchemeLen(input);
      input[..n] + Join(Masked(Split(input[n..])))
  }

  lemma {:induction false} SlashAt(s: Bytes, n: nat)
    requires n <= |s| && SLASH !in s[..n] && (n < |s| ==> s[n] == SLASH)
    ensures FirstSlash(s) == n
  {
    var m := FirstSlash(s);
    assert forall k :: 0 <= k < m ==> s[..m][k] == s[k];
    assert forall k :: 0 <= k < n ==> s[..n][k] == s[k];
  }

  lemma {:induction false} JoinSplit(s: Bytes)
    ensures Join(Split(s)) == s
    ensures forall i :: 0 <= i < |Split(s)| ==> SLASH !in Split(s)[i]
    decreases |s|
  {
    var n := FirstSlash(s);
    if n == |s| {
      assert s[..n] == s;
    } else {
      JoinSplit(s[n + 1..]);
      assert s == s[..n] + [SLASH] + s[n + 1..];
      assert Split(s)[1..] == Split(s[n + 1..]);
    }
  }

  lemma {:induction false} SplitJoin(parts: seq<Bytes>)
    requires parts != [] && forall i :: 0 <= i < |parts| ==> SLASH !in parts[i]
    ensures Split(Join(parts)) == parts
  {
    var s := Join(parts);
    assert s[..|parts[0]|] == parts[0];
    SlashAt(s, |parts[0]|);
    if |parts| > 1 {
      SplitJoin(parts[1..]);
      assert s[|parts[0]| + 1..] == Join(parts[1..]);
      assert parts == [parts[0]] + parts[1..];
    }
  }

  lemma {:induction false} SplitConcat(x: Bytes, y: Bytes)
    ensures Split(x + [SLASH] + y) == Split(x) + Split(y)
    decreases |x|
  {
    var s, n := x + [SLASH] + y, FirstSlash(x);
    FirstSlashOfConcat(x, y);
    hide FirstSlash;
    assert s[..n] == x[..n];
    if n == |x| {
      assert s[n + 1..] == y && x[..n] == x;
    } else {
      SplitConcat(x[n + 1..], y);
      assert s[n + 1..] == x[n + 1..] + [SLASH] + y;
      var rest := Split(x[n + 1..]);
      assert [s[..n]] + (rest + Split(y)) == ([x[..n]] + rest) + Split(y);
    }
  }

  lemma {:induction false} FirstSlashOfConcat(x: Bytes, y: Bytes)
    ensures FirstSlash(x + [SLASH] + y) == FirstSlash(x)
  {
    var s, n := x + [SLASH] + y, FirstSlash(x);
    assert s[..n] == x[..n];
    SlashAt(s, n);
  }

  lemma {:induction false} WellFormedSplit(s: Bytes)
    requires WellFormed(s)
    ensures forall i :: 0 <= i < |Split(s)| ==> WellFormed(Split(s)[i])
    decreases |s|
  {
    var n := FirstSlash(s);
    if n < |s| {
      assert s == s[..n] + [SLASH] + s[n + 1..];
      WellFormedParts(s[..n], SLASH, s[n + 1..]);
      WellFormedSplit(s[n + 1..]);
    }
  }

  lemma {:induction false} WellFormedJoin(parts: seq<Bytes>)
    requires parts != [] && forall i :: 0 <= i < |parts| ==> WellFormed(parts[i])
    ensures WellFormed(Join(parts))
  {
    if |parts| > 1 {
      WellFormedJoin(parts[1..]);
      AsciiIsText(SLASH);
      WellFormedConcat(parts[0], [SLASH]);
      WellFormedConcat(parts[0] + [SLASH], Join(parts[1..]));
    }
  }

  lemma {:induction false} JoinNotLonger(a: seq<Bytes>, b: seq<Bytes>)
    requires |a| == |b| > 0 && forall i :: 0 <= i < |a| ==> |a[i]| <= |b[i]|
    ensures |Join(a)| <= |Join(b)|
  {
    if |a| > 1 {
      JoinNotLonger(a[1..], b[1..]);
    }
  }

  /** A scheme prefix ends in a slash, so cutting it off leaves text. */
  lemma AfterScheme(s: Bytes)
    requires WellFormed(s)
    ensures var n := SchemeLen(s);
      && WellFormed(s[..n]) && WellFormed(s[n..])
      && (n > 0 ==> s == s[..n - 1] + [SLASH] + s[n..])
  {
    var n := SchemeLen(s);
    if n > 0 {
      assert s[n - 3..n][2] == SLASH;
      assert s == s[..n - 1] + [SLASH] + s[n..];
      WellFormedParts(s[..n - 1], SLASH, s[n..]);
      AsciiIsText(SLASH);
      WellFormedConcat(s[..n - 1], [SLASH]);
      assert s[..n] == s[..n - 1] + [SLASH];
    } else {
      assert s[..0] == [] && s[0..] == s;
      assert IsText([]) && Flat([]) == [];
    }
  }

  /** The components of a masked path are text, free of slashes, and stay as they are when they
      are masked again. */
  lemma {:induction false} MaskedMeaning(s: Bytes)
    requires WellFormed(s)
    ensures var out := Masked(Split(s));
      && WellFormed(Join(out)) && |Join(out)| <= |s|
      && Split(Join(out)) == out && Masked(out) == out
  {
    hide Component, WellFormed;
    var parts := Split(s);
    var out := Masked(parts);
    WellFormedSplit(s);
    JoinSplit(s);
    forall i | 0 <= i < |parts|
      ensures WellFormed(out[i]) && |out[i]| <= |parts[i]| && SLASH !in out[i]
      ensures Component(out[i], i == |out| - 1) == out[i]
    {
      ComponentMeaning(parts[i], i == |parts| - 1);
    }
    WellFormedJoin(out);
    JoinNotLonger(out, parts);
    SplitJoin(out);
  }

  /** What anonymizing does to a well-formed path: after truncation, the prefix up to `://` stays,
      and so do the slashes and the number of components behind it; each component is masked as
      `ComponentMeaning` says; the result is text and not longer. */
  lemma PathMeaning(path: Bytes)
    requires WellFormed(path) && path != []
    ensures var r, input := AnonymizePath(path), Truncate(path, PATH_MAX_LEN);
      var n := SchemeLen(input);
      && input[..n] <= r && Split(r[n..]) == Masked(Split(input[n..]))
      && |Split(r[n..])| == |Split(input[n..])|
      && WellFormed(r) && |r| <= |input| <= PATH_MAX_LEN
      && Masked(Split(r[n..])) == Split(r[n..])
  {
    hide WellFormed, Truncate, Split, Join, Masked, SchemeLen;
    TruncateKeepsText(path, PATH_MAX_LEN);
    var input := Truncate(path, PATH_MAX_LEN);
    var n := SchemeLen(input);
    AfterScheme(input);
    MaskedMeaning(input[n..]);
    var r := AnonymizePath(path);
    assert r[n..] == Join(Masked(Split(input[n..])));
    WellFormedConcat(input[..n], r[n..]);
    assert r == input[..n] + r[n..];
  }

  /** Components that stay as they are do so in any suffix of the path that starts one. */
  lemma {:induction false} SuffixStays(x: Bytes, y: Bytes)
    requires Masked(Split(x + [SLASH] + y)) == Split(x + [SLASH] + y)
    ensures Join(Masked(Split(y))) == y
  {
    hide Split, Component;
    SplitConcat(x, y);
    JoinSplit(y);
    var all, parts := Split(x + [SLASH] + y), Split(y);
    forall i | 0 <= i < |parts| ensures Masked(parts)[i] == parts[i] {
      var j := |Split(x)| + i;
      assert parts[i] == all[j] == Masked(all)[j];
      assert j == |all| - 1 <==> i == |parts| - 1;
    }
    assert Masked(parts) == parts;
  }

  /** A scheme prefix that stays in front is found again. */
  lemma SchemeFoundAgain(input: Bytes, r: Bytes)
    requires var n := SchemeLen(input); 0 < n <= |r| && r[..n] == input[..n]
    ensures SchemeLen(r) == SchemeLen(input)
  {
    hide SchemeFrom;
    var n, m := SchemeLen(input), SchemeLen(r);
    assert forall k: nat :: k < n ==> r[k] == r[..n][k] == input[..n][k] == input[k];
    assert r[n - 3..n] == input[n - 3..n];
    assert SchemeEnds(r, n);
    assert r[m - 3..m] == input[m - 3..m];
    assert SchemeEnds(input, m);
  }

  /** Anonymizing a well-formed path twice is anonymizing it once, even when cutting a component
      short has put a colon in front of an empty component and so made a new scheme prefix. */
  lemma AnonymizeTwice(path: Bytes)
    requires WellFormed(path)
    ensures AnonymizePath(AnonymizePath(path)) == AnonymizePath(path)
  {
    hide WellFormed, Split, Join, Masked, SchemeLen;
    if path != [] && AnonymizePath(path) != [] {
      PathMeaning(path);
      var r, input := AnonymizePath(path), Truncate(path, PATH_MAX_LEN);
      var n, m := SchemeLen(input), SchemeLen(r);
      AfterScheme(r);
      if n > 0 {
        SchemeFoundAgain(input, r);
        JoinSplit(r[n..]);
      } else {
        assert r[0..] == r;
        JoinSplit(r);
        if m > 0 {
          SuffixStays(r[..m - 1], r[m..]);
        }
      }
      assert r == r[..m] + r[m..];
    }
  }

  // ----- As the code runs it -----

  lemma {:induction false} JoinSnoc(parts: seq<Bytes>, last: Bytes)
    requires parts != []
    ensures Join(parts + [last]) == Join(parts) + [SLASH] + last
  {
    if |parts| > 1 {
      JoinSnoc(parts[1..], last);
      assert (parts + [last])[1..] == parts[1..] + [last];
    }
  }

  lemma JoinUpto(parts: seq<Bytes>, i: nat)
    requires i < |parts|
    ensures Join(parts[..i + 1]) == if i == 0 then parts[0] else Join(parts[..i]) + [SLASH] + parts[i]
  {
    assert parts[..i + 1] == parts[..i] + [parts[i]];
    if i > 0 {
      JoinSnoc(parts[..i], parts[i]);
    }
  }

  lemma SplitStep(s: Bytes, start: nat, i: nat)
    requires start <= i <= |s| && SLASH !in s[start..i] && (i < |s| ==> s[i] == SLASH)
    ensures i < |s| ==> Split(s[start..]) == [s[start..i]] + Split(s[i + 1..])
    ensures i == |s| ==> Split(s[start..]) == [s[start..i]]
  {
    var rest := s[start..];
    assert rest[..i - start] == s[start..i];
    SlashAt(rest, i - start);
    if i < |s| {
      assert rest[i - start + 1..] == s[i + 1..];
    } else {
      assert s[start..i] == rest;
    }
  }

  method SplitPath(rest: Bytes) returns (parts: seq<Bytes>)
    ensures parts == Split(rest)
  {
    hide Split;
    parts := [];
    var start: nat, i: nat := 0, 0;
    assert rest[0..] == rest;
    while i <= |rest|
      invariant start <= i <= |rest| + 1
      invariant i <= |rest| ==> SLASH !in rest[start..i] && Split(rest) == parts + Split(rest[start..])
      invariant i == |rest| + 1 ==> parts == Split(rest)
    {
      if i == |rest| || rest[i] == SLASH {
        SplitStep(rest, start, i);
        parts := parts + [rest[start..i]];
        start := i + 1;
      } else {
        assert rest[start..i + 1] == rest[start..i] + [rest[i]];
      }
      i := i + 1;
    }
  }

  method AnonymizeComponent(part: Bytes, isLast: bool) returns (r: Bytes)
    ensures r == Component(part, isLast)
  {
    var p := TruncateToBytes(part, NAME_MAX_LEN);
    var dot := AfterLastDot(p);
    if isLast && p != [] && dot > 0 {
      var before, after := p[..dot - 1], p[dot..];
      r := [];
      if before != [] {
        r := AnonymizeNameOf(before);
      }
      var masked := AnonymizeNameOf(after);
      r := r + [DOT] + masked;
    } else {
      r := AnonymizeNameOf(p);
    }
  }

  /** The second loop: the masked components, joined by slashes, behind the prefix. */
  method AppendComponents(prefix: Bytes, parts: seq<Bytes>) returns (result: Bytes)
    requires parts != []
    ensures result == prefix + Join(Masked(parts))
  {
    hide Component, Join;
    ghost var out := Masked(parts);
    result := prefix;
    var i := 0;
    while i < |parts|
      invariant 0 <= i <= |parts|
      invariant result == if i == 0 then prefix else prefix + Join(out[..i])
    {
      if i > 0 {
        result := result + [SLASH];
      }
      var p := AnonymizeComponent(parts[i], i == |parts| - 1);
      result := result + p;
      JoinUpto(out, i);
      assert p == out[i];
      i := i + 1;
      assert result == prefix + Join(out[..i]);
    }
    assert out[..i] == out;
  }

  method AnonymizePathOf(path: Bytes) returns (result: Bytes)
    ensures result == AnonymizePath(path)
  {
    if path == [] {
      return [];
    }
    var input := TruncateToBytes(path, PATH_MAX_LEN);
    var n := SchemeLen(input);
    var parts := SplitPath(input[n..]);
    result := AppendComponents(input[..n], parts);
  }
}
