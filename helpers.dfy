/**
  `helpers/helpers.go`: the header translation, keep-first de-duplication of
  points of interest, the byte-sum route colour and the OSM colour names.
*/
module Helpers {
  import opened GoStrings
  import opened GoStrconv
  import opened Dedup
  import opened Palette
  import opened Types

  /** The header text per language code. */
  const Headers: map<string, string> :=
    map["ru" := "Схема маршрута", "en" := "Scheme of route", "es" := "Esquema de ruta",
        "de" := "Scheme der Route", "zh" := "路线方案", "ko" := "노선 구성표"]

  const DefaultHeader: string := "Scheme of route"

  /** `TranslateHeader`: the header for a language code, English for any other code. */
  function TranslateHeader(lang: string): (r: string)
    ensures lang in Headers ==> r == Headers[lang]
    ensures lang !in Headers ==> r == DefaultHeader
    ensures r != ""
  {
    if Index(Headers, lang) != "" then Index(Headers, lang) else DefaultHeader
  }

  /** The six known codes, and the fallback for an unknown or empty code. */
  lemma TranslateHeaderValues()
    ensures TranslateHeader("ru") == "Схема маршрута"
    ensures TranslateHeader("de") == "Scheme der Route"
    ensures TranslateHeader("ko") == "노선 구성표"
    ensures TranslateHeader("fr") == "Scheme of route"
    ensures TranslateHeader("") == "Scheme of route"
  {
  }

  /** The key two points of interest are compared by: name, "_", kind. */
  function PoiKey(p: Poi): string {
    p.name + "_" + p.poit
  }

  /**
    `RemoveDuplicates`: compacts the slice in place, keeping the first point of
    interest with each key; the caller's slice becomes `xs[..n]`.
  */
  method RemoveDuplicates(xs: array<Poi>) returns (n: nat)
    modifies xs
    ensures n <= xs.Length
    ensures xs[..n] == KeepFirst(old(xs[..]), PoiKey)
  {
    ghost var input := xs[..];
    var found: set<string> := {};
    var j := 0;
    for i := 0 to xs.Length
      invariant j <= i
      invariant xs[..j] == KeepFirst(input[..i], PoiKey)
      invariant forall k :: i <= k < xs.Length ==> xs[k] == input[k]
      invariant found == KeysOf(input[..i], PoiKey)
    {
      KeepFirstStep(input, i, PoiKey);
      var x := xs[i];
      if PoiKey(x) !in found {
        ghost var kept := xs[..j];
        found := found + {PoiKey(x)};
        xs[j] := xs[i];
        assert xs[..j + 1] == kept + [x];
        j := j + 1;
      }
    }
    assert input[..xs.Length] == input;
    n := j;
  }

  /**
    What `RemoveDuplicates` leaves: the first point of interest of each key, in
    input order, no two with the same key, every key of the input still
    present; a second run changes nothing.
  */
  lemma RemoveDuplicatesResult(s: seq<Poi>)
    ensures KeepFirst(s, PoiKey) == Select(s, FirstMask(s, PoiKey))
    ensures UniqueKeys(KeepFirst(s, PoiKey), PoiKey)
    ensures KeysOf(KeepFirst(s, PoiKey), PoiKey) == KeysOf(s, PoiKey)
    ensures KeepFirst(KeepFirst(s, PoiKey), PoiKey) == KeepFirst(s, PoiKey)
  {
    KeepFirstSelectsFirsts(s, PoiKey);
    KeepFirstUnique(s, PoiKey);
    KeepFirstKeys(s, PoiKey);
    KeepFirstIdempotent(s, PoiKey);
  }

  /**
    The key is a plain concatenation, so ("a_b", "c") and ("a", "b_c") count as
    duplicates and only the first survives.
  */
  lemma ConcatenatedKeyCollides(c1: string, c2: string)
    ensures PoiKey(Poi("a_b", c1, "c")) == PoiKey(Poi("a", c2, "b_c"))
    ensures KeepFirst([Poi("a_b", c1, "c"), Poi("a", c2, "b_c")], PoiKey) == [Poi("a_b", c1, "c")]
  {
    var s := [Poi("a_b", c1, "c"), Poi("a", c2, "b_c")];
    assert s[..1][..0] == [];
    assert s[..1] == [s[0]];
    assert KeysOf(s[..1], PoiKey) == {PoiKey(s[0])};
  }

  /** The sum of a sequence of bytes. */
  function ByteSum(bs: seq<Byte>): nat {
    if bs == [] then 0 else ByteSum(bs[..|bs| - 1]) + bs[|bs| - 1]
  }

  /** The sum of the code points of a string. */
  function CodeSum(s: string): nat {
    if s == [] then 0 else CodeSum(s[..|s| - 1]) + s[|s| - 1] as int
  }

  lemma {:induction false} AsciiByteSum(s: string, k: nat)
    requires IsAscii(s) && k <= |s|
    ensures |Bytes(s)| == |s|
    ensures ByteSum(Bytes(s)[..k]) == CodeSum(s[..k])
  {
    AsciiBytes(s);
    if k > 0 {
      AsciiByteSum(s, k - 1);
      assert Bytes(s)[..k][..k - 1] == Bytes(s)[..k - 1];
      assert s[..k][..k - 1] == s[..k - 1];
    }
  }

  /**
    `GetColorFromName`: the palette entry at the sum of the first
    `utf8.RuneCountInString(name)` bytes of `name`, modulo 10. The index stays
    within the bytes because a string has no more runes than bytes.
  */
  method GetColorFromName(name: string) returns (color: string)
    ensures color == WayColors[ByteSum(Bytes(name)[..|name|]) % 10]
    ensures color in WayColors
    ensures IsAscii(name) ==> color == WayColors[CodeSum(name) % 10]
    ensures name == "" ==> color == "#49b45d"
  {
    var bytes := Bytes(name);
    var outNum := 0;
    var strLen := |name|;
    for i := 0 to strLen
      invariant outNum == ByteSum(bytes[..i])
    {
      var r := Atoi(Itoa(bytes[i]));
      AtoiItoa(bytes[i]);
      var num := if r.err.Some? then 0 else r.value;
      assert bytes[..i + 1][..i] == bytes[..i];
      outNum := outNum + num;
    }
    color := WayColors[outNum % 10];
    if IsAscii(name) {
      AsciiByteSum(name, |name|);
      assert name[..|name|] == name;
    }
  }

  /** The OSM colour names and their hex values, built as the source builds its map. */
  const ColorNames: map<string, string> :=
    var m := map["black" := "#000000", "gray" := "#808080"];
    var m := m["grey" := m["gray"]];
    var m := m + map["maroon" := "#800000", "olive" := "#808000", "green" := "#008000",
               "teal" := "#008080", "navy" := "#000080", "purple" := "#800080",
               "white" := "#FFFFFF", "silver" := "#C0C0C0", "red" := "#FF0000",
               "yellow" := "#FFFF00", "lime" := "#00FF00", "aqua" := "#00FFFF",
               "blue" := "#0000FF", "fuchsia" := "#FF00FF"];
    m["magenta" := m["fuchsia"]]

  /** Every value in the table is a "#"-prefixed, non-empty colour. */
  lemma ColorNamesAreHex()
    ensures forall k :: k in ColorNames ==> HasPrefix(ColorNames[k], "#") && ColorNames[k] != ""
  {
  }

  /**
    `ColorOsm`: a "#"-prefixed value is already a colour; a known name gives its
    hex value; anything else (names are case-sensitive) gives "#FF00FF".
  */
  function ColorOsm(color: string): (r: string)
    ensures HasPrefix(color, "#") ==> r == color
    ensures !HasPrefix(color, "#") && color in ColorNames ==> r == ColorNames[color]
    ensures !HasPrefix(color, "#") && color !in ColorNames ==> r == "#FF00FF"
    ensures HasPrefix(r, "#")
  {
    ColorNamesAreHex();
    if HasPrefix(color, "#") then color
    else if Index(ColorNames, color) == "" then "#FF00FF"
    else Index(ColorNames, color)
  }

  /** The aliases and a plain name. */
  lemma ColorOsmValues()
    ensures ColorOsm("grey") == ColorOsm("gray") == "#808080"
    ensures ColorOsm("magenta") == ColorOsm("fuchsia") == "#FF00FF"
    ensures ColorOsm("navy") == "#000080"
  {
    assert "grey"[0] != '#';
  }

  /** A colour value passes through; the case-sensitive miss and the empty value fall back. */
  lemma ColorOsmFallbacks()
    ensures ColorOsm("Red") == "#FF00FF"
    ensures ColorOsm("#123") == "#123"
    ensures ColorOsm("") == "#FF00FF"
  {
    RedFallsBack();
    assert HasPrefix("#123", "#");
    EmptyFallsBack();
  }

  lemma RedFallsBack()
    ensures ColorOsm("Red") == "#FF00FF"
  {
    assert "Red"[0] != '#';
    assert "Red" !in ColorNames;
  }

  lemma EmptyFallsBack()
    ensures ColorOsm("") == "#FF00FF"
  {
    assert "" !in ColorNames;
  }
}
