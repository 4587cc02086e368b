/**
  The records of `types/types.go` and the `NaturalOrder` comparator on points
  of interest.
*/
module Types {
  import GoStrings
  import opened GoStrconv

  /** A point of interest next to a stop: its name, colour and kind. */
  datatype Poi = Poi(name: string, color: string, poit: string)

  /** A stop: its name, its name in English and the points of interest around it. */
  datatype StopData = StopData(name: string, nameEn: string, pois: seq<Poi>)

  /** A route: reference, name, terminals, colour and stops in route order. */
  datatype RouteData = RouteData(ref: string, name: string, from: string, to: string, color: string, stops: seq<StopData>)

  /** The parameters of a request for a route scheme. */
  datatype RouteParams = RouteParams(ref: string, operator: string, network: string, poiDistance: int)

  /** `NaturalOrder.Len`: the number of points of interest being sorted. */
  function Len(s: seq<Poi>): (n: int)
    ensures n == |s|
  {
    |s|
  }

  /** `NaturalOrder.Swap`: exchanges two positions of the slice in place. */
  method Swap(s: array<Poi>, i: int, j: int)
    requires 0 <= i < s.Length && 0 <= j < s.Length
    modifies s
    ensures s[i] == old(s[j]) && s[j] == old(s[i])
    ensures forall k :: 0 <= k < s.Length && k != i && k != j ==> s[k] == old(s[k])
    ensures multiset(s[..]) == multiset(old(s[..]))
  {
    s[i], s[j] := s[j], s[i];
  }

  /**
    The comparison behind `NaturalOrder.Less`: a shorter name (in bytes) comes
    first; names of equal length compare as integers when both parse, and are
    unordered otherwise.
  */
  predicate NameLess(a: string, b: string): (r: bool)
    ensures r ==> GoStrings.Len(a) <= GoStrings.Len(b)
    ensures r && GoStrings.Len(a) == GoStrings.Len(b) ==> WellFormed(a) && WellFormed(b) && SignedValue(a) < SignedValue(b)
  {
    if GoStrings.Len(a) == GoStrings.Len(b) then
      var x := Atoi(a);
      if x.err.Some? then false
      else
        var y := Atoi(b);
        if y.err.Some? then false
        else x.value < y.value
    else GoStrings.Len(a) < GoStrings.Len(b)
  }

  /** `NaturalOrder.Less(i, j)`. */
  predicate Less(s: seq<Poi>, i: int, j: int): (r: bool)
    requires 0 <= i < |s| && 0 <= j < |s|
    ensures r ==> i != j && !NameLess(s[j].name, s[i].name)
  {
    NameLess(s[i].name, s[j].name)
  }

  /** `Less` compares the two names by the three rules of the comparator. */
  lemma LessCases(s: seq<Poi>, i: int, j: int)
    requires 0 <= i < |s| && 0 <= j < |s|
    ensures var a, b := s[i].name, s[j].name;
      && (GoStrings.Len(a) != GoStrings.Len(b) ==> (Less(s, i, j) <==> GoStrings.Len(a) < GoStrings.Len(b)))
      && (GoStrings.Len(a) == GoStrings.Len(b) && (Atoi(a).err.Some? || Atoi(b).err.Some?) ==> !Less(s, i, j))
      && (GoStrings.Len(a) == GoStrings.Len(b) && Atoi(a).err.None? && Atoi(b).err.None? ==>
            (Less(s, i, j) <==> SignedValue(a) < SignedValue(b)))
  {
  }

  /**
    `NameLess` is a strict partial order: irreflexive, asymmetric and
    transitive.
  */
  lemma NameLessIsStrictPartialOrder(a: string, b: string, c: string)
    ensures !NameLess(a, a)
    ensures NameLess(a, b) ==> !NameLess(b, a)
    ensures NameLess(a, b) && NameLess(b, c) ==> NameLess(a, c)
  {
  }

  /** Neither of `a` and `b` comes before the other. */
  predicate Incomparable(a: string, b: string) {
    !NameLess(a, b) && !NameLess(b, a)
  }

  /**
    `NameLess` is not a strict weak order, which `sort.Sort` presumes:
    "12" and "13" are both incomparable with "ab", yet "12" comes before "13".
  */
  lemma IncomparabilityNotTransitive()
    ensures Incomparable("12", "ab") && Incomparable("ab", "13") && NameLess("12", "13")
  {
    SampleNames();
  }

  /** What `Atoi` and `len` give for the three names of the example. */
  lemma SampleNames()
    ensures Atoi("ab").err.Some?
    ensures Atoi("12") == AtoiResult(12, None) && Atoi("13") == AtoiResult(13, None)
    ensures GoStrings.Len("12") == GoStrings.Len("ab") == GoStrings.Len("13") == 2
  {
    SampleLetters();
    SampleNumber('2');
    SampleNumber('3');
    assert "12" == ['1', '2'] && "13" == ['1', '3'];
    GoStrings.AsciiBytes("12");
    GoStrings.AsciiBytes("ab");
    GoStrings.AsciiBytes("13");
  }

  lemma SampleLetters()
    ensures Atoi("ab").err.Some?
  {
    assert !IsDigit("ab"[0]);
    assert Unsigned("ab") == "ab" && DigitRun("ab") == [];
  }

  lemma SampleNumber(d: char)
    requires '0' <= d <= '9'
    ensures Atoi(['1', d]) == AtoiResult(10 + (d as int - '0' as int), None)
  {
    var s := ['1', d];
    assert Unsigned(s) == s;
    assert s[..1] == ['1'] && s[..1][..0] == [];
    assert DigitsValue(s[..1]) == 1;
    assert DigitsValue(s) == 10 + (d as int - '0' as int);
  }
}
