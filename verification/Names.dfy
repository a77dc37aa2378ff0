/** File names, in the order in which a sorted directory scan yields them. */
module Names {

  type Name = string

  predicate Leq(a: Name, b: Name) {
    a == [] || (b != [] && (a[0] < b[0] || (a[0] == b[0] && Leq(a[1..], b[1..]))))
  }

  lemma {:induction false} LeqTotal(a: Name, b: Name)
    ensures Leq(a, b) || Leq(b, a)
  {
    if a != [] && b != [] {
      LeqTotal(a[1..], b[1..]);
    }
  }

  lemma {:induction false} LeqAntisymmetric(a: Name, b: Name)
    requires Leq(a, b) && Leq(b, a)
    ensures a == b
  {
    if a != [] {
      LeqAntisymmetric(a[1..], b[1..]);
      assert a == [a[0]] + a[1..] && b == [b[0]] + b[1..];
    }
  }

  lemma {:induction false} LeqTransitive(a: Name, b: Name, c: Name)
    requires Leq(a, b) && Leq(b, c)
    ensures Leq(a, c)
  {
    if a != [] && b[0] == a[0] && c[0] == a[0] {
      LeqTransitive(a[1..], b[1..], c[1..]);
    }
  }

  predicate IsFirst(m: Name, names: set<Name>) {
    m in names && forall n :: n in names ==> Leq(m, n)
  }

  lemma {:induction false} FirstExists(names: set<Name>) returns (m: Name)
    requires names != {}
    ensures IsFirst(m, names)
    decreases |names|
  {
    m :| m in names;
    LeqTotal(m, m);
    if names - {m} != {} {
      var k := FirstExists(names - {m});
      LeqTotal(m, k);
      if Leq(k, m) {
        m := k;
      } else {
        forall n | n in names ensures Leq(m, n) {
          if n != m {
            LeqTransitive(m, k, n);
          }
        }
      }
    }
  }

  lemma FirstIsUnique(names: set<Name>)
    requires names != {}
    ensures exists m :: IsFirst(m, names)
    ensures forall a, b | IsFirst(a, names) && IsFirst(b, names) :: a == b
  {
    var m := FirstExists(names);
    forall a, b | IsFirst(a, names) && IsFirst(b, names) ensures a == b {
      LeqAntisymmetric(a, b);
    }
  }

  function First(names: set<Name>): (m: Name)
    requires names != {}
    ensures IsFirst(m, names)
  {
    FirstIsUnique(names);
    var m :| IsFirst(m, names);
    m
  }

  /** All names of a directory, each once, in order. */
  function Sorted(names: set<Name>): (s: seq<Name>)
    ensures forall n :: n in names <==> n in s
    ensures forall i, j :: 0 <= i < j < |s| ==> s[i] != s[j] && Leq(s[i], s[j])
    decreases |names|
  {
    if names == {} then [] else
    var m := First(names);
    [m] + Sorted(names - {m})
  }
}
