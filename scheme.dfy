/**
  `scheme/scheme.go`: the de-duplication and colour helpers, and the
  arithmetic and aggregation that the `Mos` handler performs between reading
  its query parameters and drawing: escaping the parameters, counting the
  stops of each route, the document height and route offsets, collecting the
  badges around a stop, sorting and de-duplicating them, and placing them.
  The drawing calls themselves are not modelled; the coordinates they receive
  are computed as values.
*/
module Scheme {
  import opened GoStrings
  import opened GoStrconv
  import opened GoSort
  import opened Dedup
  import opened Palette
  import opened Osm

  // ---------------------------------------------------------------------
  // RemoveDuplicates
  // ---------------------------------------------------------------------

  /** A string is its own de-duplication key. */
  function Self(s: string): string {
    s
  }

  /** Keyed by the string itself, the keys of a sequence are its elements. */
  lemma SelfKeys(s: seq<string>, x: string)
    ensures x in KeysOf(s, Self) <==> x in s
  {
    KeysOfMembers(s, Self, x);
  }

  /**
    `RemoveDuplicates`: compacts the slice in place, keeping the first
    occurrence of each string; the caller's slice becomes `xs[..n]`.
  */
  method RemoveDuplicates(xs: array<string>) returns (n: nat)
    modifies xs
    ensures n <= xs.Length
    ensures xs[..n] == KeepFirst(old(xs[..]), Self)
  {
    ghost var input := xs[..];
    var found: set<string> := {};
    var j := 0;
    for i := 0 to xs.Length
      invariant j <= i
      invariant xs[..j] == KeepFirst(input[..i], Self)
      invariant forall k :: i <= k < xs.Length ==> xs[k] == input[k]
      invariant found == KeysOf(input[..i], Self)
    {
      KeepFirstStep(input, i, Self);
      var x := xs[i];
      if x !in found {
        ghost var kept := xs[..j];
        found := found + {x};
        xs[j] := xs[i];
        assert xs[..j + 1] == kept + [x];
        j := j + 1;
      }
    }
    assert input[..xs.Length] == input;
    n := j;
  }

  /**
    What `RemoveDuplicates` leaves: exactly the first occurrence of each
    string, in input order; no string twice; the same strings as the input.
  */
  lemma RemoveDuplicatesResult(s: seq<string>)
    ensures KeepFirst(s, Self) == Select(s, FirstMask(s, Self))
    ensures forall i, j :: 0 <= i < j < |KeepFirst(s, Self)| ==> KeepFirst(s, Self)[i] != KeepFirst(s, Self)[j]
    ensures forall x :: x in KeepFirst(s, Self) <==> x in s
    ensures |KeepFirst(s, Self)| <= |s|
  {
    KeepFirstSelectsFirsts(s, Self);
    KeepFirstUnique(s, Self);
    KeepFirstKeys(s, Self);
    forall x ensures x in KeepFirst(s, Self) <==> x in s {
      SelfKeys(s, x);
      SelfKeys(KeepFirst(s, Self), x);
    }
  }

  // ---------------------------------------------------------------------
  // getColorFromName
  // ---------------------------------------------------------------------

  /**
    What one byte adds to the colour sum: its `%x` text parsed by `Atoi` as a
    decimal number, or 0 when that text holds a hex letter.
  */
  function HexReading(b: Byte): (n: nat)
    ensures n == if b / 16 < 10 && b % 16 < 10 then (b / 16) * 10 + b % 16 else 0
  {
    AtoiHex(b);
    var r := Atoi(Hex(b));
    if r.err.Some? then 0 else r.value
  }

  /** The sum of the byte readings. */
  function HexSum(bs: seq<Byte>): nat {
    if bs == [] then 0 else HexSum(bs[..|bs| - 1]) + HexReading(bs[|bs| - 1])
  }

  lemma HexSumStep(bs: seq<Byte>, i: nat)
    requires i < |bs|
    ensures HexSum(bs[..i + 1]) == HexSum(bs[..i]) + HexReading(bs[i])
  {
    assert bs[..i + 1][..i] == bs[..i];
  }

  /**
    The colour `getColorFromName` gives a name: the palette entry at the sum
    of its byte readings, modulo 10; the empty name gets the first entry.
  */
  function ColorOf(name: string): string {
    WayColors[HexSum(Bytes(name)) % 10]
  }

  /** Every name gets one of the ten palette entries. */
  lemma ColorOfInPalette(name: string)
    ensures ColorOf(name) in WayColors
  {
  }

  /** The empty name gets the first entry. */
  lemma ColorOfEmptyName()
    ensures ColorOf("") == "#49b45d"
  {
  }

  /** `getColorFromName`, summing the byte readings in a loop. */
  method ColorFromName(name: string) returns (color: string)
    ensures color == ColorOf(name)
  {
    var bytes := Bytes(name);
    var outNum := 0;
    for i := 0 to |bytes|
      invariant outNum == HexSum(bytes[..i])
    {
      var text := Hex(bytes[i]);
      var r := Atoi(text);
      var num := if r.err.Some? then 0 else r.value;
      assert num == HexReading(bytes[i]);
      HexSumStep(bytes, i);
      outNum := outNum + num;
    }
    assert bytes[..|bytes|] == bytes;
    color := WayColors[outNum % 10];
  }

  /**
    Route "21" has bytes 0x32 and 0x31, read as 32 and 31; 63 selects entry 3.
    A byte such as 0x4a ("J") adds nothing.
  */
  lemma ColorOfTwentyOne()
    ensures ColorOf("21") == "#0ebdf5"
    ensures HexSum(Bytes("J")) == 0
  {
    TwentyOneSum();
    ColorOfSum("21", 63);
    assert WayColors[3] == "#0ebdf5";
    LetterJSum();
  }

  lemma ColorOfSum(name: string, n: nat)
    requires HexSum(Bytes(name)) == n
    ensures ColorOf(name) == WayColors[n % 10]
  {
  }

  lemma LetterJSum()
    ensures HexSum(Bytes("J")) == 0
  {
    assert "J" == ['J'];
    OneAsciiByte('J');
    HexSumOfTwo(0x4a, 0x30);
    assert 0x4a / 16 == 4 && 0x4a % 16 == 10;
  }

  lemma TwentyOneSum()
    ensures HexSum(Bytes("21")) == 63
  {
    assert "21" == ['2', '1'];
    TwoAsciiBytes('2', '1');
    HexSumOfTwo(0x32, 0x31);
    assert 0x32 / 16 == 3 && 0x32 % 16 == 2;
    assert 0x31 / 16 == 3 && 0x31 % 16 == 1;
  }

  lemma OneAsciiByte(c: char)
    requires c as int < 0x80
    ensures Bytes([c]) == [c as int]
  {
    assert [c][1..] == [];
  }

  lemma TwoAsciiBytes(c: char, d: char)
    requires c as int < 0x80 && d as int < 0x80
    ensures Bytes([c, d]) == [c as int, d as int]
  {
    OneAsciiByte(d);
    assert [c, d][1..] == [d];
  }

  lemma HexSumOfTwo(a: Byte, b: Byte)
    ensures HexSum([a]) == HexReading(a)
    ensures HexSum([a, b]) == HexReading(a) + HexReading(b)
  {
    assert [a][..0] == [];
    assert [a, b][..1] == [a];
  }

  // ---------------------------------------------------------------------
  // Query parameters
  // ---------------------------------------------------------------------

  /** The number of double quotes in `s`. */
  function QuoteCount(s: string): nat {
    if s == [] then 0 else (if s[0] == '"' then 1 else 0) + QuoteCount(s[1..])
  }

  /**
    `strings.Replace(s, "\"", "\\\"", -1)`: every double quote gets a
    backslash in front of it.
  */
  function EscapeQuotes(s: string): (r: string)
    ensures |r| == |s| + QuoteCount(s)
    ensures QuoteCount(s) == 0 ==> r == s
    ensures forall i :: 0 <= i < |r| && r[i] == '"' ==> i > 0 && r[i - 1] == '\\'
    ensures r != [] ==> r[0] != '"'
  {
    if s == [] then []
    else
      var rest := EscapeQuotes(s[1..]);
      var head := if s[0] == '"' then "\\\"" else [s[0]];
      assert forall i :: 0 <= i < |head + rest| && (head + rest)[i] == '"' ==> i > 0 && (head + rest)[i - 1] == '\\' by {
        forall i | 0 <= i < |head + rest| && (head + rest)[i] == '"'
          ensures i > 0 && (head + rest)[i - 1] == '\\'
        {
          if i >= |head| {
            assert (head + rest)[i] == rest[i - |head|];
            if i > |head| { assert (head + rest)[i - 1] == rest[i - 1 - |head|]; }
          }
        }
      }
      head + rest
  }

  /** Undoes `EscapeQuotes`: a backslash followed by a quote becomes the quote. */
  function Unescape(r: string): string
    decreases |r|
  {
    if r == [] then []
    else if |r| >= 2 && r[0] == '\\' && r[1] == '"' then "\"" + Unescape(r[2..])
    else [r[0]] + Unescape(r[1..])
  }

  /** Escaping loses nothing: two parameters that differ still differ once escaped. */
  lemma {:induction false} UnescapeEscape(s: string)
    ensures Unescape(EscapeQuotes(s)) == s
  {
    if s != [] {
      UnescapeEscape(s[1..]);
      var rest := EscapeQuotes(s[1..]);
      if s[0] == '"' {
        assert EscapeQuotes(s) == "\\\"" + rest;
        assert EscapeQuotes(s)[2..] == rest;
      } else {
        assert EscapeQuotes(s) == [s[0]] + rest;
        assert EscapeQuotes(s)[1..] == rest;
      }
      assert s == [s[0]] + s[1..];
    }
  }

  /** The default distance reads as 500. */
  lemma AtoiFiveHundred()
    ensures Atoi("500") == AtoiResult(500, None)
  {
    assert WellFormed("500") by { assert Unsigned("500") == "500"; }
    assert DigitsValue("500") == 500 by {
      assert "500"[..2] == "50";
      assert "50"[..1] == "5";
      assert "5"[..0] == "";
    }
  }

  /** The query parameters of a request: route reference, network, operator, distance. */
  datatype Request = Request(ref: string, network: string, operator: string, distance: string)

  /** What `Mos` derives from them before querying. */
  datatype Params = Params(themeColor: string, transRef: string, transNet: string, transOp: string,
                           walkDistance: string, maxDist: int)

  /**
    The start of `Mos`: the theme colour from the raw reference, the three
    escaped parameters, the distance defaulting to "500", and `maxDist` as
    `Atoi` returns it with its error ignored.
  */
  method Prepare(req: Request) returns (p: Params)
    ensures p.themeColor == ColorOf(req.ref)
    ensures p.transRef == EscapeQuotes(req.ref)
    ensures p.transNet == EscapeQuotes(req.network)
    ensures p.transOp == EscapeQuotes(req.operator)
    ensures p.walkDistance == if req.distance == "" then "500" else req.distance
    ensures p.maxDist == Atoi(p.walkDistance).value
    ensures req.distance == "" ==> p.maxDist == 500
    ensures !WellFormed(p.walkDistance) && !DigitsOverflow(p.walkDistance) ==> p.maxDist == 0
    ensures DigitsOverflow(p.walkDistance) ==> p.maxDist == if Negative(p.walkDistance) then MinInt64 else MaxInt64
  {
    var themeColor := ColorFromName(req.ref);
    var transNet := EscapeQuotes(req.network);
    var transOp := EscapeQuotes(req.operator);
    var transRef := EscapeQuotes(req.ref);
    var walkDistance := req.distance;
    if walkDistance == "" {
      walkDistance := "500";
      AtoiFiveHundred();
    }
    var maxDist := Atoi(walkDistance).value;
    p := Params(themeColor, transRef, transNet, transOp, walkDistance, maxDist);
  }

  // ---------------------------------------------------------------------
  // Counting the stops of each route
  // ---------------------------------------------------------------------

  /** The roles that make a member a stop. */
  predicate IsStopRole(role: string) {
    role == "stop" || role == "stop_exit_only" || role == "stop_entry_only"
  }

  /** A relation drawn as a route: `type` is "route" and `ref` is the escaped reference. */
  predicate IsRouteOf(rel: Relation, transRef: string) {
    Tag(rel.tags, "type") == "route" && Tag(rel.tags, "ref") == transRef
  }

  /** The relations drawn as routes, in relation order. */
  function Routes(rels: seq<Relation>, transRef: string): (r: seq<Relation>)
    ensures |r| <= |rels|
    decreases |rels|
  {
    if rels == [] then []
    else
      var last := rels[|rels| - 1];
      Routes(rels[..|rels| - 1], transRef) + (if IsRouteOf(last, transRef) then [last] else [])
  }

  /** The flags of the relations drawn as routes. */
  function RouteMask(rels: seq<Relation>, transRef: string): (m: seq<bool>)
    ensures |m| == |rels|
  {
    seq(|rels|, i requires 0 <= i < |rels| => IsRouteOf(rels[i], transRef))
  }

  /** The routes are exactly the matching relations, in the order of the result. */
  lemma {:induction false} RoutesSelectMatching(rels: seq<Relation>, transRef: string)
    ensures Routes(rels, transRef) == Select(rels, RouteMask(rels, transRef))
    decreases |rels|
  {
    if rels != [] {
      var p := rels[..|rels| - 1];
      RoutesSelectMatching(p, transRef);
      assert RouteMask(rels, transRef)[..|rels| - 1] == RouteMask(p, transRef);
    }
  }

  /** The number of stop members, counted as the loop over members counts them. */
  function StopCount(ms: seq<Member>): nat
    decreases |ms|
  {
    if ms == [] then 0 else StopCount(ms[..|ms| - 1]) + (if IsStopRole(ms[|ms| - 1].role) then 1 else 0)
  }

  /** The positions of the stop members. */
  function StopPositions(ms: seq<Member>): set<int> {
    set i | 0 <= i < |ms| && IsStopRole(ms[i].role)
  }

  /** The count is the number of members with a stop role, and no more than the members. */
  lemma {:induction false} StopCountCountsStops(ms: seq<Member>)
    ensures StopCount(ms) == |StopPositions(ms)|
    ensures StopCount(ms) <= |ms|
    decreases |ms|
  {
    if ms != [] {
      var n := |ms| - 1;
      StopCountCountsStops(ms[..n]);
      var before := StopPositions(ms[..n]);
      if IsStopRole(ms[n].role) {
        assert StopPositions(ms) == before + {n};
      } else {
        assert StopPositions(ms) == before;
      }
    }
  }

  /**
    The first loop of `Mos`: one entry per route, in relation order, holding
    that route's number of stop members.
  */
  /** The stop count of every route, in relation order. */
  function RouteStops(rels: seq<Relation>, transRef: string): (r: seq<nat>)
    ensures |r| == |Routes(rels, transRef)|
  {
    var routes := Routes(rels, transRef);
    seq(|routes|, k requires 0 <= k < |routes| => StopCount(routes[k].members))
  }

  method CountStops(rels: seq<Relation>, transRef: string) returns (stops: seq<nat>)
    ensures |stops| == |Routes(rels, transRef)|
    ensures forall k :: 0 <= k < |stops| ==> stops[k] == StopCount(Routes(rels, transRef)[k].members)
    ensures stops == RouteStops(rels, transRef)
  {
    stops := [];
    var routesNum := 0;
    var stopsNum := 0;
    for i := 0 to |rels|
      invariant routesNum == |stops| == |Routes(rels[..i], transRef)|
      invariant stopsNum == 0
      invariant forall k :: 0 <= k < |stops| ==> stops[k] == StopCount(Routes(rels[..i], transRef)[k].members)
    {
      assert rels[..i + 1][..i] == rels[..i];
      var relation := rels[i];
      if IsRouteOf(relation, transRef) {
        stops := stops + [0];
        for m := 0 to |relation.members|
          invariant stopsNum == StopCount(relation.members[..m])
        {
          assert relation.members[..m + 1][..m] == relation.members[..m];
          if IsStopRole(relation.members[m].role) {
            stopsNum := stopsNum + 1;
          }
        }
        assert relation.members[..|relation.members|] == relation.members;
        stops := stops[routesNum := stopsNum];
        stopsNum := 0;
        routesNum := routesNum + 1;
      }
    }
    assert rels[..|rels|] == rels;
  }

  // ---------------------------------------------------------------------
  // Document height and route offsets
  // ---------------------------------------------------------------------

  /** The fixed height of a route block, `125*2 + 443`. */
  const RouteBlock: int := 125 * 2 + 443

  /** The height each stop adds. */
  const StopRow: int := 260

  function Sum(s: seq<nat>): nat {
    if s == [] then 0 else Sum(s[..|s| - 1]) + s[|s| - 1]
  }

  /** The height of a route with `n` stops. */
  function RouteHeight(n: nat): nat {
    RouteBlock + n * StopRow
  }

  /** `docLen`: the sum of the route heights. */
  method DocumentHeight(stops: seq<nat>) returns (docLen: int)
    ensures docLen == RouteBlock * |stops| + StopRow * Sum(stops)
  {
    docLen := 0;
    for i := 0 to |stops|
      invariant docLen == RouteBlock * i + StopRow * Sum(stops[..i])
    {
      assert stops[..i + 1][..i] == stops[..i];
      docLen := docLen + RouteHeight(stops[i]);
    }
    assert stops[..|stops|] == stops;
  }

  /** `posFix` of route `i`: `693*i` plus the previous route's stops only. */
  function RouteOffset(stops: seq<nat>, i: nat): (r: int)
    requires i < |stops|
    ensures RouteBlock * i <= r
    ensures i <= 1 ==> r == StackedOffset(stops, i)
  {
    assert stops[..0] == [] && stops[..1][..0] == [];
    assert Sum(stops[..1]) == stops[0];
    var prevStops := if i > 0 then stops[i - 1] else 0;
    RouteBlock * i + prevStops * StopRow
  }

  /** Where route `i` would start if the routes were stacked: the heights of the routes before it. */
  function StackedOffset(stops: seq<nat>, i: nat): int
    requires i <= |stops|
  {
    RouteBlock * i + StopRow * Sum(stops[..i])
  }

  lemma {:induction false} SumAppend(s: seq<nat>, t: seq<nat>)
    ensures Sum(s + t) == Sum(s) + Sum(t)
    decreases |t|
  {
    if t == [] {
      assert s + t == s;
    } else {
      SumAppend(s, t[..|t| - 1]);
      assert (s + t)[..|s + t| - 1] == s + t[..|t| - 1];
    }
  }

  lemma {:induction false} SumPrefixBound(s: seq<nat>, i: nat)
    requires i <= |s|
    ensures Sum(s[..i]) <= Sum(s)
  {
    SumAppend(s[..i], s[i..]);
    assert s[..i] + s[i..] == s;
  }

  /**
    The offset falls short of the stacked position by the stops of every route
    before the previous one, so the two agree exactly when those routes have no
    stops; for the first two routes they always agree.
  */
  lemma RouteOffsetShortfall(stops: seq<nat>, i: nat)
    requires 0 < i < |stops|
    ensures StackedOffset(stops, i) - RouteOffset(stops, i) == StopRow * Sum(stops[..i - 1])
    ensures RouteOffset(stops, i) == StackedOffset(stops, i) <==> Sum(stops[..i - 1]) == 0
    ensures i == 1 ==> RouteOffset(stops, i) == StackedOffset(stops, i)
  {
    SumAppend(stops[..i - 1], [stops[i - 1]]);
    assert stops[..i - 1] + [stops[i - 1]] == stops[..i];
    assert [stops[i - 1]][..0] == [];
  }

  /** Every route's line and copyright line end inside the document. */
  lemma RouteEndsInsideDocument(stops: seq<nat>, i: nat)
    requires i < |stops|
    ensures 0 <= RouteOffset(stops, i)
    ensures RouteOffset(stops, i) + 580 + stops[i] * StopRow <= RouteBlock * |stops| + StopRow * Sum(stops)
  {
    var prev := if i > 0 then stops[i - 1] else 0;
    PreviousAndCurrentStops(stops, i);
    assert RouteOffset(stops, i) == 693 * i + 260 * prev;
    assert 693 * i + 580 <= 693 * |stops| by { assert i + 1 <= |stops|; }
    assert 260 * prev + 260 * stops[i] <= 260 * Sum(stops) by { assert 260 * (prev + stops[i]) <= 260 * Sum(stops); }
  }

  /** The stops of a route and of the one before it are part of the total. */
  lemma PreviousAndCurrentStops(s: seq<nat>, i: nat)
    requires i < |s|
    ensures (if i > 0 then s[i - 1] else 0) + s[i] <= Sum(s)
  {
    SumPrefixBound(s, i + 1);
    assert s[..i + 1][..i] == s[..i];
    assert Sum(s[..i + 1]) == Sum(s[..i]) + s[i];
    if i > 0 {
      assert s[..i][..i - 1] == s[..i - 1];
      assert Sum(s[..i]) == Sum(s[..i - 1]) + s[i - 1];
    }
  }

  /**
    From the third route on, a route starts inside the block of the route
    before it exactly when the route two before it has stops.
  */
  lemma RouteOverlapsPrevious(stops: seq<nat>, i: nat)
    requires 2 <= i < |stops|
    ensures RouteOffset(stops, i) < RouteOffset(stops, i - 1) + RouteHeight(stops[i - 1]) <==> stops[i - 2] > 0
  {
  }

  /**
    With stop counts 1, 0, 0 the third route starts at 1386 although the
    second one runs from 953 to 1646.
  */
  lemma ThirdRouteOverlapsSecond()
    ensures RouteOffset([1, 0, 0], 2) < RouteOffset([1, 0, 0], 1) + RouteHeight(0)
  {
  }

  // ---------------------------------------------------------------------
  // Stop rows
  // ---------------------------------------------------------------------

  /**
    Where row `k` of route `i` would start if the routes were stacked: the
    stacked offset of the route plus one stop height per stop before it.
  */
  function StackedRow(stops: seq<nat>, i: nat, k: nat): int
    requires i <= |stops|
  {
    StackedOffset(stops, i) + StopRow * k
  }

  /**
    `posFix + 260*(stopsNum - prevStops)` at the first stop of route `i`,
    with `stopsNum` counting the stops of all earlier routes: the offset and
    the counter together give the stacked offset.
  */
  lemma RowBaseStacked(stops: seq<nat>, i: nat)
    requires i < |stops|
    ensures RouteOffset(stops, i) + StopRow * (Sum(stops[..i]) - (if i > 0 then stops[i - 1] else 0)) == StackedOffset(stops, i)
  {
    if i > 0 {
      RouteOffsetShortfall(stops, i);
      SumStep(stops, i - 1);
    }
  }

  lemma SumStep(s: seq<nat>, i: nat)
    requires i < |s|
    ensures Sum(s[..i + 1]) == Sum(s[..i]) + s[i]
  {
    assert s[..i + 1][..i] == s[..i];
  }

  /** The relations before position `r` that are routes are the first routes of all the relations. */
  lemma {:induction false} RoutesOfPrefix(rels: seq<Relation>, transRef: string, j: nat)
    requires j <= |rels|
    ensures Routes(rels[..j], transRef) <= Routes(rels, transRef)
    decreases |rels|
  {
    if j < |rels| {
      var p := rels[..|rels| - 1];
      RoutesOfPrefix(p, transRef, j);
      assert p[..j] == rels[..j];
    } else {
      assert rels[..j] == rels;
    }
  }

  /** A route at position `r` is the route counted after the routes before it. */
  lemma RouteAt(rels: seq<Relation>, transRef: string, r: nat)
    requires r < |rels| && IsRouteOf(rels[r], transRef)
    ensures Routes(rels[..r + 1], transRef) == Routes(rels[..r], transRef) + [rels[r]]
    ensures |Routes(rels[..r], transRef)| < |Routes(rels, transRef)|
    ensures Routes(rels, transRef)[|Routes(rels[..r], transRef)|] == rels[r]
  {
    assert rels[..r + 1][..r] == rels[..r];
    RoutesOfPrefix(rels, transRef, r + 1);
  }

  /** A relation at position `r` that is not a route adds no route. */
  lemma NotRouteAt(rels: seq<Relation>, transRef: string, r: nat)
    requires r < |rels| && !IsRouteOf(rels[r], transRef)
    ensures Routes(rels[..r + 1], transRef) == Routes(rels[..r], transRef)
  {
    assert rels[..r + 1][..r] == rels[..r];
  }

  /**
    The second route loop of `Mos`, as far as the stop rows go: for route `i`
    and its stop `k`, the offset `posFix + 260*(stopsNum - prevStops)` from
    which the circle (+630), the two names (+647, +713) and the badge row
    (+745) are drawn. `posFix` adds only the previous route's stops, but
    `stopsNum` runs on over all earlier routes, so every row lands at its
    stacked position.
  */
  method StopRows(rels: seq<Relation>, transRef: string, stops: seq<nat>) returns (rows: seq<seq<int>>)
    requires stops == RouteStops(rels, transRef)
    ensures |rows| == |stops|
    ensures RowsStacked(stops, rows)
  {
    rows := [];
    var stopsNum := 0;
    var routesNum := 0;
    for r := 0 to |rels|
      invariant routesNum == |rows|
      invariant RowsDrawn(rels[..r], transRef, stops, rows, stopsNum)
    {
      var relation := rels[r];
      var prevStops := 0;
      if IsRouteOf(relation, transRef) {
        RouteStarts(rels, transRef, stops, r, rows, stopsNum);
        if routesNum > 0 {
          prevStops := stops[routesNum - 1];
        }
        var posFix := RouteBlock * routesNum + prevStops * StopRow;
        var row := RouteRow(relation.members, posFix, stopsNum, prevStops, StackedOffset(stops, routesNum));
        RouteEnds(rels, transRef, stops, r, rows, stopsNum, row);
        stopsNum := stopsNum + |row|;
        rows := rows + [row];
        routesNum := routesNum + 1;
      } else {
        NotRouteAt(rels, transRef, r);
      }
    }
    assert rels[..|rels|] == rels;
  }

  /**
    The state of the second route loop after the relations `done`: one row
    sequence per route among them, all stacked, and `stopsNum` the number of
    their stops.
  */
  predicate RowsDrawn(done: seq<Relation>, transRef: string, stops: seq<nat>, rows: seq<seq<int>>, stopsNum: int) {
    && |rows| == |Routes(done, transRef)| <= |stops|
    && stopsNum == Sum(stops[..|rows|])
    && RowsStacked(stops, rows)
  }

  /** At a route, its stop count is the next entry, and the counters give its stacked offset. */
  lemma RouteStarts(rels: seq<Relation>, transRef: string, stops: seq<nat>, r: nat, rows: seq<seq<int>>, stopsNum: int)
    requires stops == RouteStops(rels, transRef)
    requires r < |rels| && IsRouteOf(rels[r], transRef)
    requires RowsDrawn(rels[..r], transRef, stops, rows, stopsNum)
    ensures |rows| < |stops| && stops[|rows|] == StopCount(rels[r].members)
    ensures RouteBlock * |rows| + (if |rows| > 0 then stops[|rows| - 1] else 0) * StopRow
      + StopRow * (stopsNum - (if |rows| > 0 then stops[|rows| - 1] else 0)) == StackedOffset(stops, |rows|)
  {
    RouteAt(rels, transRef, r);
    RowBaseStacked(stops, |rows|);
  }

  /** After a route's members, its row joins the stacked rows and `stopsNum` has counted its stops. */
  lemma RouteEnds(rels: seq<Relation>, transRef: string, stops: seq<nat>, r: nat, rows: seq<seq<int>>, stopsNum: int, row: seq<int>)
    requires stops == RouteStops(rels, transRef)
    requires r < |rels| && IsRouteOf(rels[r], transRef)
    requires RowsDrawn(rels[..r], transRef, stops, rows, stopsNum)
    requires |row| == StopCount(rels[r].members)
    requires forall k :: 0 <= k < |row| ==> row[k] == StackedOffset(stops, |rows|) + StopRow * k
    ensures RowsDrawn(rels[..r + 1], transRef, stops, rows + [row], stopsNum + |row|)
  {
    RouteAt(rels, transRef, r);
    SumStep(stops, |rows|);
    ExtendRows(stops, rows, row);
  }

  /** Each of the first `|rows|` routes has one row per stop, each at its stacked position. */
  predicate RowsStacked(stops: seq<nat>, rows: seq<seq<int>>) {
    && |rows| <= |stops|
    && (forall i :: 0 <= i < |rows| ==> |rows[i]| == stops[i])
    && (forall i, k :: 0 <= i < |rows| && 0 <= k < |rows[i]| ==> rows[i][k] == StackedRow(stops, i, k))
  }

  lemma ExtendRows(stops: seq<nat>, rows: seq<seq<int>>, row: seq<int>)
    requires RowsStacked(stops, rows) && |rows| < |stops|
    requires |row| == stops[|rows|]
    requires forall k :: 0 <= k < |row| ==> row[k] == StackedOffset(stops, |rows|) + StopRow * k
    ensures RowsStacked(stops, rows + [row])
  {
  }

  /**
    The member loop of one route: a row offset for every stop member, with
    `stopsNum` moving on by one per stop; `base` is the offset of the
    route's first row.
  */
  method RouteRow(ms: seq<Member>, posFix: int, stopsNum: int, prevStops: int, base: int) returns (row: seq<int>)
    requires posFix + StopRow * (stopsNum - prevStops) == base
    ensures |row| == StopCount(ms)
    ensures forall k :: 0 <= k < |row| ==> row[k] == base + StopRow * k
  {
    row := [];
    var n := stopsNum;
    for m := 0 to |ms|
      invariant |row| == StopCount(ms[..m]) == n - stopsNum
      invariant forall k :: 0 <= k < |row| ==> row[k] == base + StopRow * k
    {
      assert ms[..m + 1][..m] == ms[..m];
      if IsStopRole(ms[m].role) {
        row := row + [posFix + StopRow * (n - prevStops)];
        n := n + 1;
      }
    }
    assert ms[..|ms|] == ms;
  }

  /**
    The stop rows of a route stay inside its stacked block: the badge row
    of its last stop (60 high, 745 below the row) ends before the next
    route's stacked offset.
  */
  lemma StopRowsInsideStackedBlock(stops: seq<nat>, i: nat, k: nat)
    requires i < |stops| && k < stops[i]
    ensures StackedOffset(stops, i) <= StackedRow(stops, i, k)
    ensures StackedRow(stops, i, k) + 745 + 60 <= StackedOffset(stops, i + 1)
  {
    SumStep(stops, i);
  }

  /**
    A route's line (drawn from `posFix` down to `posFix + 580 + 260*stops[i]`)
    ends above the circle of its last stop exactly when some route before
    the previous one has stops: the line uses the offset, the circle the
    stacked row.
  */
  lemma RouteLineShortOfLastStop(stops: seq<nat>, i: nat)
    requires i < |stops| && stops[i] > 0
    ensures RouteOffset(stops, i) + 580 + StopRow * stops[i] < StackedRow(stops, i, stops[i] - 1) + 630
      <==> i > 0 && Sum(stops[..i - 1]) > 0
  {
    if i > 0 {
      RouteOffsetShortfall(stops, i);
    }
  }

  /**
    With stop counts 1, 0, 1 the third route's line ends at 2226, but its
    only stop circle is centred at 2276.
  */
  lemma ThirdRouteLineShort()
    ensures RouteOffset([1, 0, 1], 2) + 580 + StopRow * 1 == 2226
    ensures StackedRow([1, 0, 1], 2, 0) + 630 == 2276
  {
    var s: seq<nat> := [1, 0, 1];
    assert s[..1] == [1] && s[..1][..0] == [];
    assert s[..2] == [1, 0] && s[..2][..1] == [1];
    assert Sum(s[..1]) == 1 && Sum(s[..2]) == 1;
  }

  // ---------------------------------------------------------------------
  // Collecting the badges around a stop
  // ---------------------------------------------------------------------

  /** The badge of a node with a `railway` tag, drawn as a train icon. */
  const Poezd: string := "poezd"

  /**
    The distance in metres between two points given by latitude and longitude,
    as the handler's `distance` function computes it; the model takes it as a
    parameter.
  */
  type Distance = (real, real, real, real) -> real

  /** The references a relation's members contribute for node `id`: one per member with role "stop" at `id`. */
  function MemberBadges(ms: seq<Member>, id: int, ref: string): seq<string>
    decreases |ms|
  {
    if ms == [] then []
    else
      var last := ms[|ms| - 1];
      MemberBadges(ms[..|ms| - 1], id, ref) + (if last.role == "stop" && last.node == id then [ref] else [])
  }

  /** A relation of another line: its `ref` is set and differs from the route's. */
  predicate IsForeign(rel: Relation, transRef: string) {
    Tag(rel.tags, "ref") != transRef && Tag(rel.tags, "ref") != ""
  }

  /** The badges the relations contribute for node `id`. */
  function RelationBadges(rels: seq<Relation>, id: int, transRef: string): seq<string>
    decreases |rels|
  {
    if rels == [] then []
    else
      var last := rels[|rels| - 1];
      RelationBadges(rels[..|rels| - 1], id, transRef)
        + (if IsForeign(last, transRef) then MemberBadges(last.members, id, Tag(last.tags, "ref")) else [])
  }

  /** The badges one nearby node contributes: "poezd" for a railway node, then the other lines stopping there. */
  function NodeBadges(pot: Node, rels: seq<Relation>, transRef: string): seq<string> {
    (if Tag(pot.tags, "railway") != "" then [Poezd] else []) + RelationBadges(rels, pot.id, transRef)
  }

  /** `pot` has a location strictly closer to `anchor` than `maxDist` metres. */
  predicate InRange(anchor: Node, pot: Node, maxDist: int, dist: Distance) {
    HasLocation(pot) && dist(anchor.lat, anchor.lon, pot.lat, pot.lon) < maxDist as real
  }

  /** The badges of the nodes near `anchor`, in node order. */
  function AroundBadges(anchor: Node, pots: seq<Node>, rels: seq<Relation>, transRef: string,
                        maxDist: int, dist: Distance): seq<string>
    decreases |pots|
  {
    if pots == [] then []
    else
      var last := pots[|pots| - 1];
      AroundBadges(anchor, pots[..|pots| - 1], rels, transRef, maxDist, dist)
        + (if InRange(anchor, last, maxDist, dist) then NodeBadges(last, rels, transRef) else [])
  }

  /** A node that is the stop's own stop position, with a location. */
  predicate IsStopPosition(n: Node, stopId: int) {
    HasLocation(n) && Tag(n.tags, "public_transport") == "stop_position" && n.id == stopId
  }

  /** The badges collected for stop `stopId`: the nodes around each of its stop positions among `anchors`. */
  function StopBadges(anchors: seq<Node>, nodes: seq<Node>, rels: seq<Relation>, stopId: int,
                      transRef: string, maxDist: int, dist: Distance): seq<string>
    decreases |anchors|
  {
    if anchors == [] then []
    else
      var last := anchors[|anchors| - 1];
      StopBadges(anchors[..|anchors| - 1], nodes, rels, stopId, transRef, maxDist, dist)
        + (if IsStopPosition(last, stopId) then AroundBadges(last, nodes, rels, transRef, maxDist, dist) else [])
  }

  /**
    The innermost two loops of the badge collection: for a neighbour `id`,
    the reference of every other line with a "stop" member at it, once per
    such member.
  */
  method LinesAt(rels: seq<Relation>, id: int, transRef: string) returns (found: seq<string>)
    ensures found == RelationBadges(rels, id, transRef)
  {
    found := [];
    for r := 0 to |rels|
      invariant found == RelationBadges(rels[..r], id, transRef)
    {
      assert rels[..r + 1][..r] == rels[..r];
      var rel := rels[r];
      var ref := Tag(rel.tags, "ref");
      if ref != transRef && ref != "" {
        ghost var before := found;
        for m := 0 to |rel.members|
          invariant found == before + MemberBadges(rel.members[..m], id, ref)
        {
          assert rel.members[..m + 1][..m] == rel.members[..m];
          var member := rel.members[m];
          if member.role == "stop" && member.node == id {
            found := found + [ref];
          }
        }
        assert rel.members[..|rel.members|] == rel.members;
      }
    }
    assert rels[..|rels|] == rels;
  }

  /**
    The loop over neighbours of one stop position `anchor`: each node with a
    location closer than `maxDist` adds "poezd" if it is a railway node, then
    the lines stopping at it.
  */
  method AroundStop(anchor: Node, nodes: seq<Node>, rels: seq<Relation>, transRef: string,
                    maxDist: int, dist: Distance) returns (found: seq<string>)
    ensures found == AroundBadges(anchor, nodes, rels, transRef, maxDist, dist)
  {
    found := [];
    for p := 0 to |nodes|
      invariant found == AroundBadges(anchor, nodes[..p], rels, transRef, maxDist, dist)
    {
      assert nodes[..p + 1][..p] == nodes[..p];
      var pot := nodes[p];
      if HasLocation(pot) {
        var len := dist(anchor.lat, anchor.lon, pot.lat, pot.lon);
        if len < maxDist as real {
          var railway: seq<string> := [];
          if Tag(pot.tags, "railway") != "" {
            railway := [Poezd];
          }
          var lines := LinesAt(rels, pot.id, transRef);
          found := found + (railway + lines);
        }
      }
    }
    assert nodes[..|nodes|] == nodes;
  }

  /**
    `stuffAround` as the handler builds it for one stop: every node of the
    result is tried as the stop's position, every node as a neighbour, and
    every relation and member as a line stopping at that neighbour.
  */
  method CollectBadges(res: Result, stopId: int, transRef: string, maxDist: int, dist: Distance)
    returns (stuff: seq<string>)
    ensures stuff == StopBadges(res.nodes, res.nodes, res.relations, stopId, transRef, maxDist, dist)
  {
    var nodes := res.nodes;
    stuff := [];
    for a := 0 to |nodes|
      invariant stuff == StopBadges(nodes[..a], nodes, res.relations, stopId, transRef, maxDist, dist)
    {
      assert nodes[..a + 1][..a] == nodes[..a];
      var mapNode := nodes[a];
      if HasLocation(mapNode) && Tag(mapNode.tags, "public_transport") == "stop_position" && stopId == mapNode.id {
        var around := AroundStop(mapNode, nodes, res.relations, transRef, maxDist, dist);
        stuff := stuff + around;
      }
    }
    assert nodes[..|nodes|] == nodes;
  }

  /** A member with role "stop" at node `id`. */
  predicate StopMember(m: Member, id: int) {
    m.role == "stop" && m.node == id
  }

  /** Some member has role "stop" at node `id`. */
  predicate HasStopAt(ms: seq<Member>, id: int) {
    exists i :: 0 <= i < |ms| && StopMember(ms[i], id)
  }

  /** Relation `rel` is another line stopping at node `id`, and `b` is its reference. */
  predicate LineAt(rel: Relation, id: int, transRef: string, b: string) {
    IsForeign(rel, transRef) && HasStopAt(rel.members, id) && b == Tag(rel.tags, "ref")
  }

  /** Node `pot` gives badge `b`: "poezd" for a railway node, or the reference of another line stopping there. */
  predicate Provides(pot: Node, rels: seq<Relation>, transRef: string, b: string) {
    || (b == Poezd && Tag(pot.tags, "railway") != "")
    || SomeLineAt(rels, pot.id, transRef, b)
  }

  /** Some relation of `rels` is another line stopping at node `id` with reference `b`. */
  predicate SomeLineAt(rels: seq<Relation>, id: int, transRef: string, b: string) {
    exists j :: 0 <= j < |rels| && LineAt(rels[j], id, transRef, b)
  }

  /** `pot` is in range of `anchor` and gives badge `b`. */
  predicate ProvidesNear(anchor: Node, pot: Node, rels: seq<Relation>, transRef: string,
                         maxDist: int, dist: Distance, b: string) {
    InRange(anchor, pot, maxDist, dist) && Provides(pot, rels, transRef, b)
  }

  /** Some node of `pots` within `maxDist` of `anchor` provides badge `b`. */
  predicate NearbyProvider(anchor: Node, pots: seq<Node>, rels: seq<Relation>, transRef: string,
                           maxDist: int, dist: Distance, b: string) {
    exists p :: 0 <= p < |pots| && ProvidesNear(anchor, pots[p], rels, transRef, maxDist, dist, b)
  }

  /** `anchor` is the stop's own stop position and some node near it provides badge `b`. */
  predicate StopProvider(anchor: Node, stopId: int, nodes: seq<Node>, rels: seq<Relation>, transRef: string,
                         maxDist: int, dist: Distance, b: string) {
    IsStopPosition(anchor, stopId) && NearbyProvider(anchor, nodes, rels, transRef, maxDist, dist, b)
  }

  /** A "stop" member at `id` among `ms` is one among all but the last, or the last one. */
  lemma HasStopAtStep(ms: seq<Member>, id: int)
    requires ms != []
    ensures HasStopAt(ms, id) <==> HasStopAt(ms[..|ms| - 1], id) || StopMember(ms[|ms| - 1], id)
  {
    var q := ms[..|ms| - 1];
    if HasStopAt(q, id) {
      var i :| 0 <= i < |q| && StopMember(q[i], id);
      assert ms[i] == q[i];
    }
    if HasStopAt(ms, id) {
      var i :| 0 <= i < |ms| && StopMember(ms[i], id);
      if i < |q| {
        assert q[i] == ms[i];
      }
    }
  }

  lemma {:induction false} MemberBadgesMembers(ms: seq<Member>, id: int, ref: string, b: string)
    ensures b in MemberBadges(ms, id, ref) <==> b == ref && HasStopAt(ms, id)
    decreases |ms|
  {
    if ms != [] {
      MemberBadgesMembers(ms[..|ms| - 1], id, ref, b);
      HasStopAtStep(ms, id);
    }
  }

  /** One more relation: it adds its reference when it is another line stopping at `id`. */
  lemma RelationBadgesStep(rels: seq<Relation>, id: int, transRef: string, b: string)
    requires rels != []
    ensures b in RelationBadges(rels, id, transRef) <==>
      || b in RelationBadges(rels[..|rels| - 1], id, transRef)
      || LineAt(rels[|rels| - 1], id, transRef, b)
  {
    var last := rels[|rels| - 1];
    MemberBadgesMembers(last.members, id, Tag(last.tags, "ref"), b);
  }

  /** A line among `rels` is one among all but the last, or the last one. */
  lemma SomeLineStep(rels: seq<Relation>, id: int, transRef: string, b: string)
    requires rels != []
    ensures SomeLineAt(rels, id, transRef, b) <==>
      || SomeLineAt(rels[..|rels| - 1], id, transRef, b)
      || LineAt(rels[|rels| - 1], id, transRef, b)
  {
    var q := rels[..|rels| - 1];
    if SomeLineAt(q, id, transRef, b) {
      var j :| 0 <= j < |q| && LineAt(q[j], id, transRef, b);
      assert rels[j] == q[j];
    }
    if SomeLineAt(rels, id, transRef, b) {
      var j :| 0 <= j < |rels| && LineAt(rels[j], id, transRef, b);
      if j < |q| {
        assert q[j] == rels[j];
      }
    }
  }

  lemma {:induction false} RelationBadgesMembers(rels: seq<Relation>, id: int, transRef: string, b: string)
    ensures b in RelationBadges(rels, id, transRef) <==> SomeLineAt(rels, id, transRef, b)
    decreases |rels|
  {
    if rels != [] {
      RelationBadgesMembers(rels[..|rels| - 1], id, transRef, b);
      RelationBadgesStep(rels, id, transRef, b);
      SomeLineStep(rels, id, transRef, b);
    }
  }

  lemma NodeBadgesMembers(pot: Node, rels: seq<Relation>, transRef: string, b: string)
    ensures b in NodeBadges(pot, rels, transRef) <==> Provides(pot, rels, transRef, b)
  {
    RelationBadgesMembers(rels, pot.id, transRef, b);
  }

  /** One more candidate node: its badges are those it provides when in range. */
  lemma AroundBadgesStep(anchor: Node, pots: seq<Node>, rels: seq<Relation>, transRef: string,
                         maxDist: int, dist: Distance, b: string)
    requires pots != []
    ensures b in AroundBadges(anchor, pots, rels, transRef, maxDist, dist) <==>
      || b in AroundBadges(anchor, pots[..|pots| - 1], rels, transRef, maxDist, dist)
      || ProvidesNear(anchor, pots[|pots| - 1], rels, transRef, maxDist, dist, b)
  {
    NodeBadgesMembers(pots[|pots| - 1], rels, transRef, b);
  }

  /** A provider among `pots` is a provider among all but the last, or the last one. */
  lemma NearbyProviderStep(anchor: Node, pots: seq<Node>, rels: seq<Relation>, transRef: string,
                           maxDist: int, dist: Distance, b: string)
    requires pots != []
    ensures NearbyProvider(anchor, pots, rels, transRef, maxDist, dist, b) <==>
      || NearbyProvider(anchor, pots[..|pots| - 1], rels, transRef, maxDist, dist, b)
      || ProvidesNear(anchor, pots[|pots| - 1], rels, transRef, maxDist, dist, b)
  {
    var q := pots[..|pots| - 1];
    if NearbyProvider(anchor, q, rels, transRef, maxDist, dist, b) {
      var p :| 0 <= p < |q| && ProvidesNear(anchor, q[p], rels, transRef, maxDist, dist, b);
      assert pots[p] == q[p];
    }
    if NearbyProvider(anchor, pots, rels, transRef, maxDist, dist, b) {
      var p :| 0 <= p < |pots| && ProvidesNear(anchor, pots[p], rels, transRef, maxDist, dist, b);
      if p < |q| {
        assert q[p] == pots[p];
      }
    }
  }

  lemma {:induction false} AroundBadgesMembers(anchor: Node, pots: seq<Node>, rels: seq<Relation>, transRef: string,
                                               maxDist: int, dist: Distance, b: string)
    ensures b in AroundBadges(anchor, pots, rels, transRef, maxDist, dist) <==>
      NearbyProvider(anchor, pots, rels, transRef, maxDist, dist, b)
    decreases |pots|
  {
    if pots != [] {
      AroundBadgesMembers(anchor, pots[..|pots| - 1], rels, transRef, maxDist, dist, b);
      AroundBadgesStep(anchor, pots, rels, transRef, maxDist, dist, b);
      NearbyProviderStep(anchor, pots, rels, transRef, maxDist, dist, b);
    }
  }

  /** One more candidate stop position: its badges are those it provides as a stop position. */
  lemma StopBadgesStep(anchors: seq<Node>, nodes: seq<Node>, rels: seq<Relation>, stopId: int,
                       transRef: string, maxDist: int, dist: Distance, b: string)
    requires anchors != []
    ensures b in StopBadges(anchors, nodes, rels, stopId, transRef, maxDist, dist) <==>
      || b in StopBadges(anchors[..|anchors| - 1], nodes, rels, stopId, transRef, maxDist, dist)
      || StopProvider(anchors[|anchors| - 1], stopId, nodes, rels, transRef, maxDist, dist, b)
  {
    AroundBadgesMembers(anchors[|anchors| - 1], nodes, rels, transRef, maxDist, dist, b);
  }

  /** Some stop position among `anchors` has a provider of `b` near it. */
  predicate SomeStopProvider(anchors: seq<Node>, stopId: int, nodes: seq<Node>, rels: seq<Relation>,
                             transRef: string, maxDist: int, dist: Distance, b: string) {
    exists a :: 0 <= a < |anchors| && StopProvider(anchors[a], stopId, nodes, rels, transRef, maxDist, dist, b)
  }

  /** A stop provider among `anchors` is one among all but the last, or the last one. */
  lemma SomeStopProviderStep(anchors: seq<Node>, stopId: int, nodes: seq<Node>, rels: seq<Relation>,
                             transRef: string, maxDist: int, dist: Distance, b: string)
    requires anchors != []
    ensures SomeStopProvider(anchors, stopId, nodes, rels, transRef, maxDist, dist, b) <==>
      || SomeStopProvider(anchors[..|anchors| - 1], stopId, nodes, rels, transRef, maxDist, dist, b)
      || StopProvider(anchors[|anchors| - 1], stopId, nodes, rels, transRef, maxDist, dist, b)
  {
    var q := anchors[..|anchors| - 1];
    if SomeStopProvider(q, stopId, nodes, rels, transRef, maxDist, dist, b) {
      var a :| 0 <= a < |q| && StopProvider(q[a], stopId, nodes, rels, transRef, maxDist, dist, b);
      assert anchors[a] == q[a];
    }
    if SomeStopProvider(anchors, stopId, nodes, rels, transRef, maxDist, dist, b) {
      var a :| 0 <= a < |anchors| && StopProvider(anchors[a], stopId, nodes, rels, transRef, maxDist, dist, b);
      if a < |q| {
        assert q[a] == anchors[a];
      }
    }
  }

  /**
    A badge is collected for a stop exactly when some node is the stop's own
    stop position and some node within `maxDist` of it provides the badge.
  */
  lemma {:induction false} StopBadgesMembers(anchors: seq<Node>, nodes: seq<Node>, rels: seq<Relation>, stopId: int,
                                             transRef: string, maxDist: int, dist: Distance, b: string)
    ensures b in StopBadges(anchors, nodes, rels, stopId, transRef, maxDist, dist) <==>
      SomeStopProvider(anchors, stopId, nodes, rels, transRef, maxDist, dist, b)
    decreases |anchors|
  {
    if anchors != [] {
      StopBadgesMembers(anchors[..|anchors| - 1], nodes, rels, stopId, transRef, maxDist, dist, b);
      StopBadgesStep(anchors, nodes, rels, stopId, transRef, maxDist, dist, b);
      SomeStopProviderStep(anchors, stopId, nodes, rels, transRef, maxDist, dist, b);
    }
  }

  /**
    Every collected badge is "poezd" or the non-empty reference of another
    line: the route's own reference is never among them (unless it is
    "poezd" itself).
  */
  lemma BadgesAreOtherLines(nodes: seq<Node>, rels: seq<Relation>, stopId: int, transRef: string,
                            maxDist: int, dist: Distance, b: string)
    requires b in StopBadges(nodes, nodes, rels, stopId, transRef, maxDist, dist)
    ensures b == Poezd || (b != "" && b != transRef)
  {
    StopBadgesMembers(nodes, nodes, rels, stopId, transRef, maxDist, dist, b);
    var a :| 0 <= a < |nodes| && StopProvider(nodes[a], stopId, nodes, rels, transRef, maxDist, dist, b);
    var p :| 0 <= p < |nodes| && ProvidesNear(nodes[a], nodes[p], rels, transRef, maxDist, dist, b);
  }

  /**
    With a distance that is never negative, a limit of zero or less (a
    `distance` parameter `Atoi` rejects with a syntax error gives 0)
    collects no badges at all.
  */
  lemma NoBadgesWithinZero(nodes: seq<Node>, rels: seq<Relation>, stopId: int, transRef: string,
                           maxDist: int, dist: Distance)
    requires maxDist <= 0
    requires forall la1, lo1, la2, lo2 :: dist(la1, lo1, la2, lo2) >= 0.0
    ensures StopBadges(nodes, nodes, rels, stopId, transRef, maxDist, dist) == []
  {
    NoStopBadgesWithinZero(nodes, nodes, rels, stopId, transRef, maxDist, dist);
  }

  lemma {:induction false} NoStopBadgesWithinZero(anchors: seq<Node>, nodes: seq<Node>, rels: seq<Relation>, stopId: int,
                                                  transRef: string, maxDist: int, dist: Distance)
    requires maxDist <= 0
    requires forall la1, lo1, la2, lo2 :: dist(la1, lo1, la2, lo2) >= 0.0
    ensures StopBadges(anchors, nodes, rels, stopId, transRef, maxDist, dist) == []
    decreases |anchors|
  {
    if anchors != [] {
      NoStopBadgesWithinZero(anchors[..|anchors| - 1], nodes, rels, stopId, transRef, maxDist, dist);
      NoAroundBadgesWithinZero(anchors[|anchors| - 1], nodes, rels, transRef, maxDist, dist);
    }
  }

  lemma {:induction false} NoAroundBadgesWithinZero(anchor: Node, pots: seq<Node>, rels: seq<Relation>,
                                                    transRef: string, maxDist: int, dist: Distance)
    requires maxDist <= 0
    requires forall la1, lo1, la2, lo2 :: dist(la1, lo1, la2, lo2) >= 0.0
    ensures AroundBadges(anchor, pots, rels, transRef, maxDist, dist) == []
    decreases |pots|
  {
    if pots != [] {
      NoAroundBadgesWithinZero(anchor, pots[..|pots| - 1], rels, transRef, maxDist, dist);
    }
  }

  // ---------------------------------------------------------------------
  // Sorting and de-duplicating the badges
  // ---------------------------------------------------------------------

  /** `sort.Strings`: sorts the slice in place, ascending by Go's string order. */
  method SortStringsInPlace(a: array<string>)
    modifies a
    ensures Sorted(a[..])
    ensures multiset(a[..]) == multiset(old(a[..]))
  {
    var sorted := SortStrings(a[..]);
    assert |sorted| == |multiset(sorted)| == |multiset(a[..])| == a.Length;
    forall i | 0 <= i < a.Length {
      a[i] := sorted[i];
    }
    assert a[..] == sorted;
  }

  /** After sorting, keeping the first of each string leaves a strictly ascending sequence. */
  lemma {:induction false} DedupSortedIsStrict(s: seq<string>)
    requires Sorted(s)
    ensures StrictlySorted(KeepFirst(s, Self))
    decreases |s|
  {
    if s != [] {
      var q := s[..|s| - 1];
      var last := s[|s| - 1];
      assert Sorted(q);
      DedupSortedIsStrict(q);
      SelfKeys(q, last);
      if last !in q {
        var kq := KeepFirst(q, Self);
        KeepFirstFromInput(q, Self);
        forall i | 0 <= i < |kq| ensures StringLess(kq[i], last) {
          assert kq[i] in kq;
          var k :| 0 <= k < |q| && q[k] == kq[i];
          assert NotAfter(s[k], s[|s| - 1]);
          StringLessIsStrictTotalOrder(kq[i], last, kq[i]);
        }
      }
    }
  }

  /**
    `sort.Strings(stuffAround)` followed by `RemoveDuplicates(&stuffAround)`:
    the distinct badges, each once, in strictly ascending order.
  */
  method SortAndDedup(stuff: seq<string>) returns (badges: seq<string>)
    ensures badges == KeepFirst(SortStrings(stuff), Self)
    ensures StrictlySorted(badges)
    ensures forall b :: b in badges <==> b in stuff
  {
    var a := new string[|stuff|](i requires 0 <= i < |stuff| => stuff[i]);
    assert a[..] == stuff;
    SortStringsInPlace(a);
    SortedPermutationUnique(a[..], SortStrings(stuff));
    var n := RemoveDuplicates(a);
    badges := a[..n];
    DedupSortedIsStrict(SortStrings(stuff));
    RemoveDuplicatesResult(SortStrings(stuff));
    forall b ensures b in SortStrings(stuff) <==> b in stuff {
      assert b in SortStrings(stuff) <==> b in multiset(SortStrings(stuff));
      assert b in stuff <==> b in multiset(stuff);
    }
  }

  // ---------------------------------------------------------------------
  // Placing the badges
  // ---------------------------------------------------------------------

  /** What a badge shows: its label centred at (`textX`, `textY`), or the train icon at (`iconX`, `iconY`). */
  datatype BadgeContent = Label(textX: int, textY: int, text: string) | TrainIcon(iconX: int, iconY: int)

  /** A rounded badge, 60 high: left edge, top, width, fill colour and content. */
  datatype Badge = Badge(x: int, y: int, width: int, fill: string, content: BadgeContent)

  /** `stuffWidth`: 60 for a short name or "poezd", else 18 per rune after the first plus 50. */
  function BadgeWidth(s: string): (w: int)
    ensures w >= 60
    ensures w == 60 <==> |s| < 5 || s == Poezd
  {
    if |s| < 5 || s == Poezd then 60 else (|s| - 1) * 18 + 50
  }

  /**
    How far the next badge moves right: 70 when the name has fewer than five
    bytes or is "poezd", else 18 per rune after the first plus 60.
  */
  function BadgeAdvance(s: string): (a: int)
    ensures a >= 70
    ensures a == 70 <==> Len(s) < 5 || s == Poezd
  {
    if Len(s) < 5 || s == Poezd then 70 else (|s| - 1) * 18 + 60
  }

  /** `horFix` before the badge at position `k`: the advances of the badges before it. */
  function HorFix(badges: seq<string>): int
    decreases |badges|
  {
    if badges == [] then 0 else HorFix(badges[..|badges| - 1]) + BadgeAdvance(badges[|badges| - 1])
  }

  /**
    Every advance leaves a gap of at least 10 after the badge, exactly 10 for
    an ASCII name; the width counts runes but the short-name test of the
    advance counts bytes, so a short name in another script leaves more.
  */
  lemma AdvanceCoversWidth(s: string)
    ensures BadgeAdvance(s) >= BadgeWidth(s) + 10
    ensures IsAscii(s) ==> BadgeAdvance(s) == BadgeWidth(s) + 10
  {
    if IsAscii(s) {
      AsciiBytes(s);
    }
  }

  /** "ТЭЦ" has three runes in six bytes: a badge 60 wide followed by an advance of 96. */
  lemma ShortCyrillicNameGap()
    ensures BadgeWidth("ТЭЦ") == 60 && BadgeAdvance("ТЭЦ") == 96
  {
    var s := "ТЭЦ";
    assert |EncodeRune(s[0])| == 2 && |EncodeRune(s[1])| == 2 && |EncodeRune(s[2])| == 2;
    assert s[1..][1..][1..] == [];
    assert Len(s) == 6;
  }

  /**
    The badge for `s` drawn `horFix` to the right of x = 200 and 745 below
    the stop's row offset `row`: as wide as `BadgeWidth`, in the colour of
    its name, with its label centred on it (41 below its top) or, for
    "poezd", the train icon 15 from its left edge and 15 below its top.
  */
  function Place(s: string, horFix: int, row: int): Badge {
    var x := 200 + horFix;
    var width := BadgeWidth(s);
    Badge(x, row + 745, width, ColorOf(s), if s != Poezd then Label(x + width / 2, row + 786, s) else TrainIcon(x + 15, row + 760))
  }

  /** Advances are positive, so `horFix` only grows along the row. */
  lemma {:induction false} HorFixGrows(badges: seq<string>, k: nat, j: nat)
    requires k < j <= |badges|
    ensures HorFix(badges[..k]) + BadgeAdvance(badges[k]) <= HorFix(badges[..j])
    decreases j
  {
    assert badges[..j][..j - 1] == badges[..j - 1];
    if k < j - 1 {
      HorFixGrows(badges, k, j - 1);
    }
  }

  /** Each placed badge ends at least 10 before any later badge of the row begins. */
  lemma PlacedBadgesApart(badges: seq<string>, k: nat, j: nat, row: int)
    requires k < j < |badges|
    ensures Place(badges[k], HorFix(badges[..k]), row).x + Place(badges[k], HorFix(badges[..k]), row).width + 10
      <= Place(badges[j], HorFix(badges[..j]), row).x
  {
    HorFixGrows(badges, k, j);
    AdvanceCoversWidth(badges[k]);
  }

  /** A row placed badge by badge has no two badges closer than 10. */
  lemma RowApart(badges: seq<string>, shapes: seq<Badge>, row: int)
    requires |shapes| == |badges|
    requires forall k :: 0 <= k < |shapes| ==> shapes[k] == Place(badges[k], HorFix(badges[..k]), row)
    ensures forall k, j :: 0 <= k < j < |shapes| ==> shapes[k].x + shapes[k].width + 10 <= shapes[j].x
  {
    forall k, j | 0 <= k < j < |shapes|
      ensures shapes[k].x + shapes[k].width + 10 <= shapes[j].x
    {
      PlacedBadgesApart(badges, k, j, row);
    }
  }

  /**
    One turn of the badge loop: the badge for `stuff` at `horFix`, and
    `horFix` moved on by the badge's advance.
  */
  method PlaceBadge(stuff: string, horFix: int, row: int) returns (shape: Badge, next: int)
    ensures shape == Place(stuff, horFix, row)
    ensures next == horFix + BadgeAdvance(stuff)
  {
    var strLen := |stuff|;
    var stuffWidth;
    if strLen < 5 || stuff == Poezd {
      stuffWidth := 60;
    } else {
      stuffWidth := (strLen - 1) * 18 + 50;
    }
    var fill := ColorFromName(stuff);
    var content;
    if stuff != Poezd {
      content := Label(200 + horFix + stuffWidth / 2, row + 786, stuff);
    } else {
      content := TrainIcon(215 + horFix, row + 760);
    }
    shape := Badge(200 + horFix, row + 745, stuffWidth, fill, content);
    assert stuffWidth == BadgeWidth(stuff);
    assert fill == ColorOf(stuff);
    assert content == Place(stuff, horFix, row).content;
    if Len(stuff) < 5 || stuff == Poezd {
      next := horFix + 70;
    } else {
      next := horFix + (strLen - 1) * 18 + 50 + 10;
    }
  }

  /** The whole row placed badge by badge, each at the sum of the advances before it. */
  function PlaceAll(badges: seq<string>, row: int): (r: seq<Badge>)
    ensures |r| == |badges|
  {
    if badges == [] then []
    else
      var q := badges[..|badges| - 1];
      PlaceAll(q, row) + [Place(badges[|badges| - 1], HorFix(q), row)]
  }

  /** Badge `k` of the placed row sits where `Place` puts it after the badges before it. */
  lemma {:induction false} PlaceAllAt(badges: seq<string>, k: nat, row: int)
    requires k < |badges|
    ensures PlaceAll(badges, row)[k] == Place(badges[k], HorFix(badges[..k]), row)
    decreases |badges|
  {
    var q := badges[..|badges| - 1];
    if k < |q| {
      PlaceAllAt(q, k, row);
      assert q[..k] == badges[..k];
    }
  }

  /** Every badge of the placed row is where `Place` puts it, and no two are closer than 10. */
  lemma PlacedRowApart(badges: seq<string>, row: int)
    ensures forall k :: 0 <= k < |badges| ==> PlaceAll(badges, row)[k] == Place(badges[k], HorFix(badges[..k]), row)
    ensures forall k, j :: 0 <= k < j < |badges| ==>
      PlaceAll(badges, row)[k].x + PlaceAll(badges, row)[k].width + 10 <= PlaceAll(badges, row)[j].x
  {
    forall k | 0 <= k < |badges|
      ensures PlaceAll(badges, row)[k] == Place(badges[k], HorFix(badges[..k]), row)
    {
      PlaceAllAt(badges, k, row);
    }
    RowApart(badges, PlaceAll(badges, row), row);
  }

  /**
    The badge row of one stop, whose row offset is `row`: badge `k` is placed
    at the sum of the advances of the badges before it, all 745 below the
    row offset; no two badges overlap and at least 10 separate each from
    every later one.
  */
  method LayoutBadges(badges: seq<string>, row: int) returns (shapes: seq<Badge>)
    ensures shapes == PlaceAll(badges, row)
    ensures |shapes| == |badges|
    ensures forall k :: 0 <= k < |shapes| ==> shapes[k] == Place(badges[k], HorFix(badges[..k]), row)
    ensures forall k, j :: 0 <= k < j < |shapes| ==> shapes[k].x + shapes[k].width + 10 <= shapes[j].x
    ensures forall k :: 0 <= k < |shapes| ==> shapes[k].y == row + 745
  {
    shapes := [];
    var horFix := 0;
    for i := 0 to |badges|
      invariant shapes == PlaceAll(badges[..i], row)
      invariant horFix == HorFix(badges[..i])
    {
      var shape;
      shape, horFix := PlaceBadge(badges[i], horFix, row);
      assert badges[..i + 1][..i] == badges[..i];
      shapes := shapes + [shape];
    }
    assert badges[..|badges|] == badges;
    PlacedRowApart(badges, row);
  }

  /**
    The badge row of one stop, from the query result to the placed badges:
    the distinct badges collected for it, in ascending order, each placed as
    `LayoutBadges` places it. `row` is the stop's row offset, which
    `StopRows` shows to be its stacked position `StackedRow`.
  */
  method BadgeRow(res: Result, stopId: int, transRef: string, maxDist: int, dist: Distance, row: int)
    returns (badges: seq<string>, shapes: seq<Badge>)
    ensures StrictlySorted(badges)
    ensures forall b :: b in badges <==> SomeStopProvider(res.nodes, stopId, res.nodes, res.relations, transRef, maxDist, dist, b)
    ensures |shapes| == |badges|
    ensures forall k :: 0 <= k < |shapes| ==> shapes[k] == Place(badges[k], HorFix(badges[..k]), row)
    ensures forall k, j :: 0 <= k < j < |shapes| ==> shapes[k].x + shapes[k].width + 10 <= shapes[j].x
  {
    var stuff := CollectBadges(res, stopId, transRef, maxDist, dist);
    badges := SortAndDedup(stuff);
    shapes := LayoutBadges(badges, row);
    forall b ensures b in badges <==> SomeStopProvider(res.nodes, stopId, res.nodes, res.relations, transRef, maxDist, dist, b)
    {
      StopBadgesMembers(res.nodes, res.nodes, res.relations, stopId, transRef, maxDist, dist, b);
    }
  }
}
