/** Sorted traversals: the order of a `BTreeMap<String, _>` and of a sorted vector of numbers. */
module Ordering {

  /** Byte-wise lexicographic order of strings. */
  predicate Le(a: string, b: string)
  {
    a == "" || (b != "" && (a[0] < b[0] || (a[0] == b[0] && Le(a[1..], b[1..]))))
  }

  lemma {:induction false} LeReflexive(a: string)
    ensures Le(a, a)
  {
    if a != "" { LeReflexive(a[1..]); }
  }

  lemma {:induction false} LeTotal(a: string, b: string)
    ensures Le(a, b) || Le(b, a)
  {
    if a != "" && b != "" && a[0] == b[0] { LeTotal(a[1..], b[1..]); }
  }

  lemma {:induction false} LeAntisymmetric(a: string, b: string)
    requires Le(a, b) && Le(b, a)
    ensures a == b
  {
    if a != "" {
      LeAntisymmetric(a[1..], b[1..]);
      assert a == [a[0]] + a[1..] && b == [b[0]] + b[1..];
    }
  }

  lemma {:induction false} LeTransitive(a: string, b: string, c: string)
    requires Le(a, b) && Le(b, c)
    ensures Le(a, c)
  {
    if a != "" && a[0] == b[0] && b[0] == c[0] { LeTransitive(a[1..], b[1..], c[1..]); }
  }

  predicate IsLeast(x: string, s: set<string>) { x in s && forall y :: y in s ==> Le(x, y) }

  lemma {:induction false} LeastExists(s: set<string>)
    requires s != {}
    ensures exists x :: IsLeast(x, s)
    decreases |s|
  {
    var y :| y in s;
    LeReflexive(y);
    if s == {y} {
      assert IsLeast(y, s);
    } else {
      var rest := s - {y};
      assert s == rest + {y} && rest != {};
      LeastExists(rest);
      var z :| IsLeast(z, rest);
      LeTotal(y, z);
      if Le(z, y) {
        assert IsLeast(z, s);
      } else {
        forall w | w in rest ensures Le(y, w) { LeTransitive(y, z, w); }
        assert IsLeast(y, s);
      }
    }
  }

  function Least(s: set<string>): (x: string)
    requires s != {}
    ensures IsLeast(x, s)
  {
    LeastExists(s);
    assert forall x, y :: IsLeast(x, s) && IsLeast(y, s) ==> x == y by {
      forall x, y | IsLeast(x, s) && IsLeast(y, s) ensures x == y { LeAntisymmetric(x, y); }
    }
    var x :| IsLeast(x, s);
    x
  }

  predicate Distinct<T(==)>(s: seq<T>) { forall i, j :: 0 <= i < j < |s| ==> s[i] != s[j] }

  predicate Sorted(s: seq<string>) { forall i, j :: 0 <= i < j < |s| ==> s[i] != s[j] && Le(s[i], s[j]) }

  /** The elements of a set of strings, in ascending order. */
  function SortedKeys(s: set<string>): (r: seq<string>)
    ensures forall x :: x in r <==> x in s
    ensures |r| == |s|
    ensures Sorted(r)
    decreases |s|
  {
    if s == {} then []
    else
      var x := Least(s);
      var rest := SortedKeys(s - {x});
      assert forall i :: 0 <= i < |rest| ==> rest[i] in s - {x};
      [x] + rest
  }

  predicate AscendingNats(s: seq<nat>) { forall i, j :: 0 <= i < j < |s| ==> s[i] < s[j] }

  predicate IsLeastNat(x: nat, s: set<nat>) { x in s && forall y :: y in s ==> x <= y }

  lemma {:induction false} LeastNatExists(s: set<nat>)
    requires s != {}
    ensures exists x :: IsLeastNat(x, s)
    decreases |s|
  {
    var y :| y in s;
    if s == {y} {
      assert IsLeastNat(y, s);
    } else {
      assert s == (s - {y}) + {y} && s - {y} != {};
      LeastNatExists(s - {y});
      var z :| IsLeastNat(z, s - {y});
      assert IsLeastNat(if z < y then z else y, s);
    }
  }

  function LeastNat(s: set<nat>): (x: nat)
    requires s != {}
    ensures IsLeastNat(x, s)
  {
    LeastNatExists(s);
    var x :| IsLeastNat(x, s);
    x
  }

  /** The elements of a set of numbers, in ascending order. */
  function SortedNats(s: set<nat>): seq<nat>
    decreases |s|
  {
    if s == {} then [] else [LeastNat(s)] + SortedNats(s - {LeastNat(s)})
  }

  lemma {:induction false} SortedNatsSorts(s: set<nat>)
    ensures forall x :: x in SortedNats(s) <==> x in s
    ensures AscendingNats(SortedNats(s))
    decreases |s|
  {
    if s != {} {
      var x := LeastNat(s);
      SortedNatsSorts(s - {x});
      var rest := SortedNats(s - {x});
      forall i | 0 <= i < |rest| ensures x < rest[i] { assert rest[i] in rest; }
    }
  }

  lemma {:induction false} SubsetSize<T>(a: set<T>, b: set<T>)
    requires a <= b
    ensures |a| <= |b|
  {
    if a != {} {
      var x :| x in a;
      SubsetSize(a - {x}, b - {x});
    }
  }
}
