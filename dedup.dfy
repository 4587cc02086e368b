/**
  Keep-first de-duplication by a key, the specification of both in-place
  `RemoveDuplicates` functions (one keyed by the string itself, one by a
  point of interest's name and kind).
*/
module Dedup {

  /** The keys of the elements of `s`. */
  function KeysOf<T, K(==)>(s: seq<T>, key: T -> K): set<K>
    decreases |s|
  {
    if s == [] then {} else KeysOf(s[..|s| - 1], key) + {key(s[|s| - 1])}
  }

  lemma {:induction false} KeysOfMembers<T, K>(s: seq<T>, key: T -> K, k: K)
    ensures k in KeysOf(s, key) <==> exists i :: 0 <= i < |s| && key(s[i]) == k
    decreases |s|
  {
    if s != [] {
      var p := s[..|s| - 1];
      KeysOfMembers(p, key, k);
      if k in KeysOf(p, key) {
        var i :| 0 <= i < |p| && key(p[i]) == k;
        assert key(s[i]) == k;
      }
      if exists i :: 0 <= i < |s| && key(s[i]) == k {
        var i :| 0 <= i < |s| && key(s[i]) == k;
        if i < |p| { assert key(p[i]) == k; }
      }
    }
  }

  lemma KeysOfAppend<T, K>(s: seq<T>, x: T, key: T -> K)
    ensures KeysOf(s + [x], key) == KeysOf(s, key) + {key(x)}
  {
    assert (s + [x])[..|s + [x]| - 1] == s;
  }

  /** Element `i` is the first element of `s` with its key. */
  predicate IsFirst<T, K(==)>(s: seq<T>, key: T -> K, i: int)
    requires 0 <= i < |s|
  {
    key(s[i]) !in KeysOf(s[..i], key)
  }

  /** No two elements share a key. */
  predicate UniqueKeys<T, K(==)>(s: seq<T>, key: T -> K) {
    forall i, j :: 0 <= i < j < |s| ==> key(s[i]) != key(s[j])
  }

  /**
    Scan `s` left to right and keep an element exactly when no earlier element
    had its key.
  */
  function KeepFirst<T, K(==)>(s: seq<T>, key: T -> K): (r: seq<T>)
    ensures |r| <= |s|
    decreases |s|
  {
    if s == [] then []
    else
      var p := s[..|s| - 1];
      if key(s[|s| - 1]) in KeysOf(p, key) then KeepFirst(p, key) else KeepFirst(p, key) + [s[|s| - 1]]
  }

  /** One more element: it is kept exactly when its key is new, and its key joins the keys seen. */
  lemma KeepFirstStep<T, K>(s: seq<T>, i: nat, key: T -> K)
    requires i < |s|
    ensures KeepFirst(s[..i + 1], key) ==
      if key(s[i]) in KeysOf(s[..i], key) then KeepFirst(s[..i], key) else KeepFirst(s[..i], key) + [s[i]]
    ensures KeysOf(s[..i + 1], key) == KeysOf(s[..i], key) + {key(s[i])}
  {
    assert s[..i + 1][..i] == s[..i];
  }

  /** The elements of `s` whose flag in `keep` is set, in their order in `s`. */
  function Select<T>(s: seq<T>, keep: seq<bool>): (r: seq<T>)
    requires |keep| == |s|
    decreases |s|
  {
    if s == [] then []
    else Select(s[..|s| - 1], keep[..|s| - 1]) + (if keep[|s| - 1] then [s[|s| - 1]] else [])
  }

  /** The flags of the first occurrences. */
  function FirstMask<T, K(==)>(s: seq<T>, key: T -> K): (m: seq<bool>)
    ensures |m| == |s|
  {
    seq(|s|, i requires 0 <= i < |s| => IsFirst(s, key, i))
  }

  /** De-duplication keeps exactly the first occurrence of each key, in the order of the input. */
  lemma {:induction false} KeepFirstSelectsFirsts<T, K>(s: seq<T>, key: T -> K)
    ensures KeepFirst(s, key) == Select(s, FirstMask(s, key))
    decreases |s|
  {
    if s != [] {
      var p := s[..|s| - 1];
      KeepFirstSelectsFirsts(p, key);
      assert FirstMask(s, key)[..|s| - 1] == FirstMask(p, key) by {
        forall i | 0 <= i < |p|
          ensures FirstMask(s, key)[i] == FirstMask(p, key)[i]
        {
          assert s[..i] == p[..i];
        }
      }
      assert s[..|s| - 1] == p;
    }
  }

  /** De-duplication loses no key. */
  lemma {:induction false} KeepFirstKeys<T, K>(s: seq<T>, key: T -> K)
    ensures KeysOf(KeepFirst(s, key), key) == KeysOf(s, key)
    decreases |s|
  {
    if s != [] {
      var p := s[..|s| - 1];
      KeepFirstKeys(p, key);
      if key(s[|s| - 1]) !in KeysOf(p, key) {
        KeysOfAppend(KeepFirst(p, key), s[|s| - 1], key);
      }
    }
  }

  /** After de-duplication no two elements share a key. */
  lemma {:induction false} KeepFirstUnique<T, K>(s: seq<T>, key: T -> K)
    ensures UniqueKeys(KeepFirst(s, key), key)
    decreases |s|
  {
    if s != [] {
      var p := s[..|s| - 1];
      var x := s[|s| - 1];
      KeepFirstUnique(p, key);
      if key(x) !in KeysOf(p, key) {
        var kp := KeepFirst(p, key);
        KeepFirstKeys(p, key);
        forall i | 0 <= i < |kp|
          ensures key(kp[i]) != key(x)
        {
          KeysOfMembers(kp, key, key(kp[i]));
        }
      }
    }
  }

  /** A sequence without repeated keys is left as it is. */
  lemma {:induction false} KeepFirstOfUnique<T, K>(s: seq<T>, key: T -> K)
    requires UniqueKeys(s, key)
    ensures KeepFirst(s, key) == s
    decreases |s|
  {
    if s != [] {
      var p := s[..|s| - 1];
      KeepFirstOfUnique(p, key);
      KeysOfMembers(p, key, key(s[|s| - 1]));
      assert p + [s[|s| - 1]] == s;
    }
  }

  /** De-duplicating twice changes nothing the second time. */
  lemma KeepFirstIdempotent<T, K>(s: seq<T>, key: T -> K)
    ensures KeepFirst(KeepFirst(s, key), key) == KeepFirst(s, key)
  {
    KeepFirstUnique(s, key);
    KeepFirstOfUnique(KeepFirst(s, key), key);
  }

  /** Every kept element comes from the input. */
  lemma {:induction false} KeepFirstFromInput<T, K>(s: seq<T>, key: T -> K)
    ensures forall x :: x in KeepFirst(s, key) ==> x in s
    decreases |s|
  {
    if s != [] {
      KeepFirstFromInput(s[..|s| - 1], key);
    }
  }
}
