/** UTF-8 text as sequences of characters (RFC 3629), and the scanners that count, cut and truncate
    it byte by byte.  The scanners are total: they are defined on malformed strings too. */
module Utf8 {
  import opened SwapTypes

  // ----- Well-formed text, section 4 of RFC 3629 -----

  predicate Tail(b: bv8) {
    0x80 <= b <= 0xBF
  }

  predicate IsChar(c: Bytes) {
    || (|c| == 1 && c[0] <= 0x7F)
    || (|c| == 2 && 0xC2 <= c[0] <= 0xDF && Tail(c[1]))
    || (|c| == 3 && Tail(c[1]) && Tail(c[2])
        && ((c[0] == 0xE0 && 0xA0 <= c[1]) || 0xE1 <= c[0] <= 0xEC || (c[0] == 0xED && c[1] <= 0x9F) || 0xEE <= c[0] <= 0xEF))
    || (|c| == 4 && Tail(c[1]) && Tail(c[2]) && Tail(c[3])
        && ((c[0] == 0xF0 && 0x90 <= c[1]) || 0xF1 <= c[0] <= 0xF3 || (c[0] == 0xF4 && c[1] <= 0x8F)))
  }

  predicate IsText(cs: seq<Bytes>) {
    forall i :: 0 <= i < |cs| ==> IsChar(cs[i])
  }

  function Flat(cs: seq<Bytes>): Bytes {
    if cs == [] then [] else cs[0] + Flat(cs[1..])
  }

  ghost predicate WellFormed(s: Bytes) {
    exists cs :: IsText(cs) && Flat(cs) == s
  }

  lemma {:induction false} FlatAppend(a: seq<Bytes>, b: seq<Bytes>)
    ensures Flat(a + b) == Flat(a) + Flat(b)
  {
    if a == [] {
      assert a + b == b;
    } else {
      FlatAppend(a[1..], b);
      assert (a + b)[1..] == a[1..] + b;
    }
  }

  lemma {:induction false} FlatSplit(cs: seq<Bytes>, k: nat)
    requires k <= |cs|
    ensures Flat(cs) == Flat(cs[..k]) + Flat(cs[k..])
  {
    hide Flat;
    FlatAppend(cs[..k], cs[k..]);
    assert cs[..k] + cs[k..] == cs;
  }

  lemma FlatOne(c: Bytes)
    ensures Flat([c]) == c
  {
    assert Flat([c]) == c + Flat([]);
  }

  // ----- The scanners -----

  function Utf8CharLen(lead: bv8): (n: nat)
    ensures 1 <= n <= 4
  {
    if lead < 0x80 then 1
    else if lead & 0xE0 == 0xC0 then 2
    else if lead & 0xF0 == 0xE0 then 3
    else if lead & 0xF8 == 0xF0 then 4
    else 1
  }

  predicate IsTail(b: bv8) {
    b & 0xC0 == 0x80
  }

  /** The number of characters from byte `i` on. */
  function CharsFrom(s: Bytes, i: nat): nat
    decreases |s| - i
  {
    if i >= |s| then 0 else 1 + CharsFrom(s, i + Utf8CharLen(s[i]))
  }

  /** Where the scan stands after `n` characters from byte `i`; it may step over the end. */
  function Advance(s: Bytes, i: nat, n: nat): nat
    decreases n
  {
    if n == 0 || i >= |s| then i else Advance(s, i + Utf8CharLen(s[i]), n - 1)
  }

  function Upto(s: Bytes, i: nat): Bytes {
    if i <= |s| then s[..i] else s
  }

  /** From the middle of a character back to its first byte. */
  function ToLead(s: Bytes, end: nat): (lead: nat)
    requires end < |s|
    ensures lead <= end
  {
    if end > 0 && IsTail(s[end]) then ToLead(s, end - 1) else end
  }

  function Retreat(s: Bytes, end: nat, n: nat): (start: nat)
    requires end <= |s|
    ensures start <= end
    decreases n
  {
    if n == 0 || end == 0 then end else Retreat(s, ToLead(s, end - 1), n - 1)
  }

  /** The last character boundary at or after `i` that is within `max` bytes. */
  function CutAt(s: Bytes, i: nat, max: nat): (cut: nat)
    requires i <= max < |s|
    ensures i <= cut <= max
    decreases max - i
  {
    if i + Utf8CharLen(s[i]) > max then i else CutAt(s, i + Utf8CharLen(s[i]), max)
  }

  function CharsNum(s: Bytes): nat {
    CharsFrom(s, 0)
  }

  function FirstN(s: Bytes, n: nat): Bytes {
    Upto(s, Advance(s, 0, n))
  }

  function LastN(s: Bytes, n: nat): Bytes {
    s[Retreat(s, |s|, n)..]
  }

  function Truncate(s: Bytes, max: nat): Bytes {
    if |s| <= max then s else s[..CutAt(s, 0, max)]
  }

  method Utf8CharsNum(s: Bytes) returns (count: nat)
    ensures count == CharsNum(s)
  {
    count := 0;
    var i := 0;
    while i < |s|
      invariant CharsNum(s) == count + CharsFrom(s, i)
      decreases |s| - i
    {
      i := i + Utf8CharLen(s[i]);
      count := count + 1;
    }
  }

  method Utf8FirstN(s: Bytes, n: nat) returns (r: Bytes)
    ensures r == FirstN(s, n)
  {
    var i: nat, c: nat := 0, 0;
    while c < n && i < |s|
      invariant c <= n
      invariant Advance(s, 0, n) == Advance(s, i, n - c)
    {
      i := i + Utf8CharLen(s[i]);
      c := c + 1;
    }
    r := if i <= |s| then s[..i] else s;
  }

  method Utf8LastN(s: Bytes, n: nat) returns (r: Bytes)
    ensures r == LastN(s, n)
  {
    var end: nat, c: nat := |s|, 0;
    while c < n && end > 0
      invariant c <= n && end <= |s|
      invariant Retreat(s, |s|, n) == Retreat(s, end, n - c)
    {
      ghost var last: nat := end - 1;
      end := end - 1;
      while end > 0 && IsTail(s[end])
        invariant 0 <= end <= last
        invariant ToLead(s, last) == ToLead(s, end)
      {
        end := end - 1;
      }
      c := c + 1;
    }
    r := s[end..];
  }

  method TruncateToBytes(s: Bytes, maxBytes: nat) returns (r: Bytes)
    ensures r == Truncate(s, maxBytes)
  {
    if |s| <= maxBytes {
      return s;
    }
    var i := 0;
    while i < |s|
      invariant i <= maxBytes
      invariant CutAt(s, 0, maxBytes) == CutAt(s, i, maxBytes)
      decreases |s| - i
    {
      var charLen := Utf8CharLen(s[i]);
      if i + charLen > maxBytes {
        break;
      }
      i := i + charLen;
    }
    r := s[..i];
  }

  // ----- On well-formed text the scanners see its characters -----

  lemma CharMeaning(c: Bytes)
    requires IsChar(c)
    ensures 1 <= |c| <= 4 && Utf8CharLen(c[0]) == |c| && !IsTail(c[0])
    ensures forall j :: 1 <= j < |c| ==> IsTail(c[j])
  {
  }

  /** The text before the byte at which character `k` starts. */
  function Start(cs: seq<Bytes>, k: nat): nat
    requires k <= |cs|
  {
    |Flat(cs[..k])|
  }

  lemma {:induction false} CharAt(cs: seq<Bytes>, k: nat)
    requires k < |cs| && IsText(cs)
    ensures Start(cs, k) + |cs[k]| == Start(cs, k + 1) <= |Flat(cs)|
    ensures Flat(cs)[Start(cs, k)..Start(cs, k + 1)] == cs[k]
    ensures |cs[k]| > 0 && Flat(cs)[Start(cs, k)] == cs[k][0] && Utf8CharLen(cs[k][0]) == |cs[k]|
  {
    CharMeaning(cs[k]);
    FlatSplit(cs, k);
    FlatSplit(cs, k + 1);
    FlatAppend(cs[..k], [cs[k]]);
    FlatOne(cs[k]);
    assert cs[..k + 1] == cs[..k] + [cs[k]];
  }

  lemma {:induction false} StartEnd(cs: seq<Bytes>)
    ensures Start(cs, 0) == 0 && Start(cs, |cs|) == |Flat(cs)|
  {
    assert cs[..|cs|] == cs;
  }

  lemma {:induction false} CountFrom(cs: seq<Bytes>, k: nat)
    requires IsText(cs) && k <= |cs|
    ensures CharsFrom(Flat(cs), Start(cs, k)) == |cs| - k
    decreases |cs| - k
  {
    StartEnd(cs);
    if k < |cs| {
      CharAt(cs, k);
      CountFrom(cs, k + 1);
    }
  }

  lemma {:induction false} AdvanceFrom(cs: seq<Bytes>, k: nat, n: nat)
    requires IsText(cs) && k <= |cs|
    ensures Advance(Flat(cs), Start(cs, k), n) == Start(cs, if k + n <= |cs| then k + n else |cs|)
    decreases n
  {
    StartEnd(cs);
    if n > 0 && k < |cs| {
      CharAt(cs, k);
      AdvanceFrom(cs, k + 1, n - 1);
    }
  }

  lemma {:induction false} LeadOf(cs: seq<Bytes>, k: nat, j: nat)
    requires IsText(cs) && k < |cs| && j < |cs[k]|
    ensures Start(cs, k) + j < |Flat(cs)| && ToLead(Flat(cs), Start(cs, k) + j) == Start(cs, k)
  {
    CharAt(cs, k);
    CharMeaning(cs[k]);
    assert Flat(cs)[Start(cs, k) + j] == Flat(cs)[Start(cs, k)..Start(cs, k + 1)][j];
    if j > 0 {
      LeadOf(cs, k, j - 1);
    }
  }

  lemma {:induction false} RetreatFrom(cs: seq<Bytes>, k: nat, n: nat)
    requires IsText(cs) && k <= |cs|
    ensures Start(cs, k) <= |Flat(cs)|
    ensures Retreat(Flat(cs), Start(cs, k), n) == Start(cs, if n <= k then k - n else 0)
    decreases n
  {
    StartEnd(cs);
    FlatSplit(cs, k);
    if n > 0 && k > 0 {
      CharAt(cs, k - 1);
      LeadOf(cs, k - 1, |cs[k - 1]| - 1);
      RetreatFrom(cs, k - 1, n - 1);
    }
  }

  lemma {:induction false} CountsCharacters(cs: seq<Bytes>)
    requires IsText(cs)
    ensures CharsNum(Flat(cs)) == |cs|
  {
    StartEnd(cs);
    CountFrom(cs, 0);
  }

  lemma {:induction false} FirstCharacters(cs: seq<Bytes>, n: nat)
    requires IsText(cs)
    ensures FirstN(Flat(cs), n) == Flat(cs[..if n <= |cs| then n else |cs|])
  {
    hide IsChar, Advance, Flat;
    var k := if n <= |cs| then n else |cs|;
    StartEnd(cs);
    AdvanceFrom(cs, 0, n);
    FlatSplit(cs, k);
  }

  lemma {:induction false} LastCharacters(cs: seq<Bytes>, n: nat)
    requires IsText(cs)
    ensures LastN(Flat(cs), n) == Flat(cs[if n <= |cs| then |cs| - n else 0..])
  {
    hide IsChar, Retreat, Flat;
    var k := if n <= |cs| then |cs| - n else 0;
    StartEnd(cs);
    RetreatFrom(cs, |cs|, n);
    FlatSplit(cs, k);
  }

  /** Forward and backward scanning agree: together they give the whole text, cut between two
      characters. */
  lemma FirstAndLastMakeAll(s: Bytes, n: nat)
    requires WellFormed(s) && n <= CharsNum(s)
    ensures FirstN(s, n) + LastN(s, CharsNum(s) - n) == s
    ensures WellFormed(FirstN(s, n)) && WellFormed(LastN(s, CharsNum(s) - n))
  {
    var cs :| IsText(cs) && Flat(cs) == s;
    CountsCharacters(cs);
    FirstCharacters(cs, n);
    LastCharacters(cs, |cs| - n);
    FlatSplit(cs, n);
    assert IsText(cs[..n]) && IsText(cs[n..]);
  }

  lemma {:induction false} CutFrom(cs: seq<Bytes>, k: nat, max: nat) returns (m: nat)
    requires IsText(cs) && k <= |cs| && Start(cs, k) <= max < |Flat(cs)|
    ensures k <= m < |cs| && CutAt(Flat(cs), Start(cs, k), max) == Start(cs, m)
    ensures Start(cs, m) <= max < Start(cs, m + 1)
    decreases |cs| - k
  {
    StartEnd(cs);
    CharAt(cs, k);
    if Start(cs, k + 1) > max {
      m := k;
    } else {
      m := CutFrom(cs, k + 1, max);
    }
  }

  /** Truncation keeps as many whole characters as fit. */
  lemma TruncateMeaning(cs: seq<Bytes>, max: nat) returns (m: nat)
    requires IsText(cs)
    ensures m <= |cs| && Truncate(Flat(cs), max) == Flat(cs[..m]) && |Flat(cs[..m])| <= max
    ensures m < |cs| ==> |Flat(cs[..m + 1])| > max
  {
    StartEnd(cs);
    if |Flat(cs)| <= max {
      m := |cs|;
      assert cs[..m] == cs;
    } else {
      m := CutFrom(cs, 0, max);
      FlatSplit(cs, m);
    }
  }
}
