/**
  `sort.Strings`: it leaves a slice of strings in ascending order of Go's
  string comparison, as a permutation of what it held. Go's sorting algorithm
  itself is not modelled; `SortStrings` is a reference insertion sort, and
  `SortedPermutationUnique` shows that every algorithm meeting that contract
  gives the same result.
*/
module GoSort {
  import opened GoStrings

  /** `a` comes no later than `b`: Go's `a <= b` on strings. */
  predicate NotAfter(a: string, b: string) {
    !StringLess(b, a)
  }

  /** Ascending order; equal neighbours are allowed. */
  predicate Sorted(s: seq<string>) {
    forall i, j :: 0 <= i < j < |s| ==> NotAfter(s[i], s[j])
  }

  /** Strictly ascending order. */
  predicate StrictlySorted(s: seq<string>) {
    forall i, j :: 0 <= i < j < |s| ==> StringLess(s[i], s[j])
  }

  lemma NotAfterTransitive(a: string, b: string, c: string)
    requires NotAfter(a, b) && NotAfter(b, c)
    ensures NotAfter(a, c)
  {
    StringLessIsStrictTotalOrder(c, b, a);
    StringLessIsStrictTotalOrder(a, b, c);
    StringLessIsStrictTotalOrder(c, a, b);
  }

  /** A sorted sequence stays sorted with an element in front that comes no later than any of it. */
  lemma ConsSorted(y: string, t: seq<string>)
    requires Sorted(t)
    requires forall j :: 0 <= j < |t| ==> NotAfter(y, t[j])
    ensures Sorted([y] + t)
  {
    forall i, j | 0 <= i < j < |[y] + t|
      ensures NotAfter(([y] + t)[i], ([y] + t)[j])
    {
      assert ([y] + t)[j] == t[j - 1];
      if i > 0 {
        assert ([y] + t)[i] == t[i - 1];
      }
    }
  }

  /** Insert `x` into a sorted sequence before the first element not below it. */
  function Insert(x: string, s: seq<string>): (r: seq<string>)
    requires Sorted(s)
    ensures Sorted(r)
    ensures multiset(r) == multiset(s) + multiset{x}
    decreases |s|
  {
    if s == [] then [x]
    else if NotAfter(x, s[0]) then
      assert forall j :: 0 <= j < |s| ==> NotAfter(x, s[j]) by {
        forall j | 0 <= j < |s| ensures NotAfter(x, s[j]) {
          if j > 0 { NotAfterTransitive(x, s[0], s[j]); }
        }
      }
      ConsSorted(x, s);
      [x] + s
    else
      var t := Insert(x, s[1..]);
      assert NotAfter(s[0], x) by { StringLessIsStrictTotalOrder(x, s[0], x); }
      assert forall j :: 0 <= j < |t| ==> NotAfter(s[0], t[j]) by {
        forall j | 0 <= j < |t| ensures NotAfter(s[0], t[j]) {
          assert t[j] in multiset(t);
          if t[j] != x {
            assert t[j] in multiset(s[1..]);
            var k :| 0 <= k < |s[1..]| && s[1..][k] == t[j];
            assert s[k + 1] == t[j];
          }
        }
      }
      ConsSorted(s[0], t);
      assert s == [s[0]] + s[1..];
      [s[0]] + t
  }

  /** A reference implementation of `sort.Strings`' contract. */
  function SortStrings(s: seq<string>): (r: seq<string>)
    ensures Sorted(r)
    ensures multiset(r) == multiset(s)
  {
    if s == [] then []
    else
      assert s == [s[0]] + s[1..];
      Insert(s[0], SortStrings(s[1..]))
  }

  /** Two sorted permutations of the same strings are the same sequence. */
  lemma {:induction false} SortedPermutationUnique(a: seq<string>, b: seq<string>)
    requires Sorted(a) && Sorted(b)
    requires multiset(a) == multiset(b)
    ensures a == b
    decreases |a|
  {
    assert |a| == |multiset(a)| == |multiset(b)| == |b|;
    if a != [] {
      var x, y := a[0], b[0];
      assert NotAfter(y, x) by {
        assert x in multiset(b) by { assert x in multiset(a); }
        var k :| 0 <= k < |b| && b[k] == x;
        if k > 0 { assert NotAfter(b[0], b[k]); } else { StringLessIsStrictTotalOrder(x, x, x); }
      }
      assert NotAfter(x, y) by {
        assert y in multiset(a) by { assert y in multiset(b); }
        var k :| 0 <= k < |a| && a[k] == y;
        if k > 0 { assert NotAfter(a[0], a[k]); } else { StringLessIsStrictTotalOrder(y, y, y); }
      }
      StringLessIsStrictTotalOrder(x, y, x);
      assert x == y;
      assert a == [x] + a[1..];
      assert b == [y] + b[1..];
      assert multiset(a[1..]) == multiset(b[1..]) by {
        assert multiset(a) == multiset{x} + multiset(a[1..]);
        assert multiset(b) == multiset{y} + multiset(b[1..]);
        forall z ensures multiset(a[1..])[z] == multiset(b[1..])[z] {
          assert multiset(a)[z] == multiset(b)[z];
        }
      }
      SortedPermutationUnique(a[1..], b[1..]);
    }
  }
}
