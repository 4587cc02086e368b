# trosm route schemes, modelled in Dafny

trosm draws public-transport route schemes as SVG. Its handler takes a
route reference, network, operator and walking distance, and queries
OpenStreetMap through Overpass. It then draws one block per matching route:
a header, a coloured reference plate, a line with one row per stop, and
under each stop a row of coloured badges naming the other lines (and
railway stations) within walking distance.

This project models the deterministic logic behind those drawings, together
with the helper library and the record types:

- `scheme/scheme.go`:
  - keep-first de-duplication of strings;
  - the hex-digit route colour;
  - the steps of the `Mos` handler between reading its parameters and
    drawing: escaping the query parameters, counting each route's stops,
    the document height and route offsets, collecting a stop's badges,
    sorting and de-duplicating them, and placing them in a row.
- `helpers/helpers.go`:
  - the header translation;
  - keep-first de-duplication of points of interest by `Name + "_" + Poit`;
  - the byte-sum route colour;
  - OSM colour-name normalisation.
- `types/types.go`: the records, and the `NaturalOrder` comparator over
  points of interest.

Modules:

- `GoStrings`, `GoStrconv` and `GoSort` (files `go_strings.dfy`,
  `go_strconv.dfy`, `go_sort.dfy`) state what the code relies on from Go's
  runtime:
  - the UTF-8 bytes of a string, `len`, and byte-wise string order;
  - `strconv.Atoi` on a 64-bit `int`, and `%d`/`%x` formatting;
  - the contract of `sort.Strings`.
- `Dedup` is the keep-first specification shared by both
  `RemoveDuplicates`.
- `Palette` holds the ten route colours that both colour functions index.
- `Osm` is the query result the handler walks.
- `Types`, `Helpers` and `Scheme` model the three source files.

Where the source updates state step by step, the model keeps that form:
- the in-place compactions work on an `array` with a write index;
- the colour sums, stop counts, document height, badge collection and badge
  row are loops.

Each of these is proved against a specification function. The
specification's properties are proved as lemmas: membership, order,
uniqueness, bounds and spacing.

Behaviour followed as the code has it:

- The default walking distance is "500". A `distance` that `Atoi` rejects
  with a syntax error gives a limit of 0 (`Scheme.Prepare`). A `distance`
  whose leading digits already exceed the 64-bit range before some other
  character, such as "99999999999999999999x", gives the 64-bit bound of
  its sign: the largest value, so every located node is in range, or,
  after a minus sign, the smallest, so none is.
- Only `type` and the escaped `ref` select a route
  (`Scheme.IsRouteOf`). The network and operator only reach the Overpass
  query, which is not part of this model.
- A route's offset adds only the previous route's stops
  (`Scheme.RouteOffset`). From the third route on, a route's block starts
  inside the block before it exactly when the route two before it has
  stops (`Scheme.RouteOverlapsPrevious`). `Scheme.RouteOffsetShortfall`
  states the gap to the stacked position, and
  `Scheme.ThirdRouteOverlapsSecond` gives an example. Only what is drawn
  at that offset is affected: the header, the plate, the route line, the
  copyright, the route name and its ends, and the separator.
- The stop rows are stacked. The second route loop never resets its stop
  counter, so `posFix + 260*(stopsNum - prevStops)` is the stacked offset
  of the route plus 260 per earlier stop of the route (`Scheme.StopRows`).
  Every stop circle, stop name and badge row of a route lies inside its
  stacked block (`Scheme.StopRowsInsideStackedBlock`). A route's line
  therefore ends above its last stop's circle exactly when some route
  before the previous one has stops (`Scheme.RouteLineShortOfLastStop`,
  `Scheme.ThirdRouteLineShort`).
- The badge width counts runes. The advance's short-name test counts
  bytes, so a short name outside ASCII leaves a wider gap
  (`Scheme.AdvanceCoversWidth`, `Scheme.ShortCyrillicNameGap`).
- The two colour functions differ:
  - `scheme/scheme.go` reads each byte's `%x` text as a decimal number;
  - `helpers/helpers.go` sums the first rune-count bytes.
- `strconv.Atoi` is modelled for a 64-bit `int` as `strconv.ParseInt`
  behaves in base 10:
  - a syntax error gives 0;
  - a value out of range gives the nearest bound, with `ErrRange`;
  - the digits are read one by one and the range check comes first, so
    digits that exceed the unsigned 64-bit range before a stray character
    give the bound with `ErrRange`, not a syntax error.
- The records `Poi`, `StopData`, `RouteData` and `RouteParams`
  (types/types.go:7-33) are datatypes with the same fields in module
  `Types`; a slice field is a sequence.

## Model

| member | source | states |
|---|---|---|
| Scheme.RemoveDuplicates | scheme/scheme.go:16-27 | the slice's new contents are exactly the keep-first de-duplication of its old contents, and no longer |
| Scheme.RemoveDuplicatesResult | scheme/scheme.go:16-27 | the result holds exactly the first occurrence of each string in input order, no string twice, the same set of strings, no longer than the input |
| Dedup.KeepFirstSelectsFirsts | scheme/scheme.go:19-25 | keep-first de-duplication keeps an element exactly when no earlier element has its key, in input order |
| Dedup.KeepFirstUnique | scheme/scheme.go:20-24 | after de-duplication no two elements share a key |
| Dedup.KeepFirstKeys | scheme/scheme.go:20-24 | de-duplication loses no key of the input |
| Dedup.KeepFirstOfUnique | scheme/scheme.go:16-27 | a sequence without repeated keys is left unchanged |
| Dedup.KeepFirstIdempotent | helpers/helpers.go:27-38 | de-duplicating twice changes nothing the second time |
| Dedup.KeepFirstFromInput | scheme/scheme.go:16-27 | every kept element comes from the input |
| Dedup.KeysOfMembers | scheme/scheme.go:17-21 | the `found` set holds a key exactly when some scanned element has it |
| Scheme.SelfKeys | scheme/scheme.go:17-21 | keyed by the string itself, `found` holds exactly the strings scanned so far |
| Scheme.HexReading | scheme/scheme.go:33-37 | a byte adds its two hex digits read as a decimal number, or 0 when a hex digit is a letter |
| GoStrconv.AtoiHex | scheme/scheme.go:33-37 | `Atoi` of a byte's `%x` text succeeds exactly when both hex digits are below 10, giving them read in decimal, and gives 0 otherwise |
| GoStrconv.Hex | scheme/scheme.go:33 | `%x` of a byte is one lower-case hex digit below 16, two digits from 16 on |
| Scheme.ColorFromName | scheme/scheme.go:29-41 | the loop's colour is the palette entry at the sum of the byte readings modulo 10 (`ColorOf`) |
| Scheme.ColorOfInPalette | scheme/scheme.go:29-41 | every name gets one of the ten palette entries |
| Scheme.ColorOfEmptyName | scheme/scheme.go:29-41 | the empty name gets "#49b45d" |
| Scheme.ColorOfTwentyOne | scheme/scheme.go:29-41 | route "21" reads 32 + 31 and gets "#0ebdf5"; a byte 0x4a adds nothing |
| Scheme.EscapeQuotes | scheme/scheme.go:69-71 | the output is the input length plus the number of quotes, a string without quotes is unchanged, every quote in the output has a backslash before it |
| Scheme.UnescapeEscape | scheme/scheme.go:69-71 | escaping can be undone, so distinct parameters stay distinct |
| Scheme.AtoiFiveHundred | scheme/scheme.go:73-75 | the default distance "500" reads as 500 |
| Scheme.Prepare | scheme/scheme.go:63-75 | the theme colour comes from the raw reference; the three parameters are escaped; an empty distance becomes "500" and a limit of 500; a syntax error a limit of 0; digits overflowing before any stray character the 64-bit bound of their sign |
| GoStrconv.Atoi | scheme/scheme.go:157 | `Atoi` fails with a syntax error (value 0) exactly on input that is not an optional sign and digits and whose leading digits stay within 64 bits; leading digits beyond the unsigned 64-bit range give the bound of the sign with a range error, whatever follows them; a well-formed input gives its value, or the nearest signed 64-bit bound with a range error |
| GoStrconv.DigitsValuePrefix | scheme/scheme.go:157 | reading more digits never gives a smaller value, so the first overflow is an overflow of the whole run of digits |
| GoStrconv.AtoiOverflowBeforeJunk | scheme/scheme.go:157 | digits beyond the unsigned 64-bit range followed by a non-digit give the largest 64-bit value with a range error |
| GoStrconv.AtoiTwentyNinesThenLetter | scheme/scheme.go:157 | "99999999999999999999x" gives 9223372036854775807 with a range error |
| Scheme.Routes | scheme/scheme.go:98-99 | the routes are no more than the relations |
| Scheme.RoutesSelectMatching | scheme/scheme.go:98-99 | the routes are exactly the relations with `type` "route" and `ref` equal to the escaped reference, in relation order |
| Scheme.StopCountCountsStops | scheme/scheme.go:102-107 | a route's count is the number of members whose role is stop, stop_exit_only or stop_entry_only, and at most its number of members |
| Scheme.CountStops | scheme/scheme.go:97-112 | `stops` has one entry per route in relation order, holding that route's stop count (`RouteStops`) |
| Scheme.DocumentHeight | scheme/scheme.go:113-116 | the document height is 693 per route plus 260 per stop of every route |
| Scheme.RouteOffsetShortfall | scheme/scheme.go:119-124 | a route's offset falls short of the heights of the routes before it by 260 per stop of every route before the previous one; the two agree exactly when those routes have no stops, and always for the first two routes |
| Scheme.RouteEndsInsideDocument | scheme/scheme.go:124-130 | every route's line and copyright line end within the document height |
| Scheme.RouteOffset | scheme/scheme.go:119-123 | an offset is at least 693 per earlier route, and for the first two routes it is the stacked position |
| Scheme.RouteOverlapsPrevious | scheme/scheme.go:119-124 | from the third route on, a route starts before the end of the previous block exactly when the route two before it has stops |
| Scheme.ThirdRouteOverlapsSecond | scheme/scheme.go:119-124 | with stop counts 1, 0, 0 the third route starts before the second route's block ends |
| Scheme.RowBaseStacked | scheme/scheme.go:139-152 | at a route's first stop, `posFix + 260*(stopsNum - prevStops)` with `stopsNum` the earlier routes' stops is the route's stacked offset |
| Scheme.StopRows | scheme/scheme.go:133-214 | the second route loop gives every route one row offset per stop, row k of route i at the stacked offset of route i plus 260·k, although `posFix` adds only the previous route's stops |
| Scheme.RouteRow | scheme/scheme.go:147-211 | the member loop of one route gives one row offset per stop member, 260 apart from the route's first row |
| Scheme.StopRowsInsideStackedBlock | scheme/scheme.go:152-199 | each stop row, down to the bottom of its badge row, lies inside the route's stacked block |
| Scheme.RouteLineShortOfLastStop | scheme/scheme.go:129-152 | a route's line ends above the circle of its last stop exactly when some route before the previous one has stops |
| Scheme.ThirdRouteLineShort | scheme/scheme.go:129-152 | with stop counts 1, 0, 1 the third route's line ends at 2226 while its stop circle is centred at 2276 |
| Scheme.LinesAt | scheme/scheme.go:168-176 | for a neighbour, the references of the other lines with a "stop" member at it, once per such member, in relation and member order |
| Scheme.AroundStop | scheme/scheme.go:161-179 | around a stop position, each located node closer than the limit adds "poezd" when railway-tagged and then the lines stopping there |
| Scheme.CollectBadges | scheme/scheme.go:156-181 | the collected badges are those of the nodes around every node that is the stop's own located stop position |
| Scheme.MemberBadgesMembers | scheme/scheme.go:170-174 | a relation contributes its reference for a node exactly when one of its members has role "stop" and is that node |
| Scheme.RelationBadgesMembers | scheme/scheme.go:168-176 | a node gets a line's badge exactly when that relation's `ref` is set, differs from the route's, and it stops at the node |
| Scheme.RelationBadgesStep | scheme/scheme.go:168-176 | one more relation adds a badge exactly when it is another line stopping at the node |
| Scheme.NodeBadgesMembers | scheme/scheme.go:165-176 | a nearby node gives exactly "poezd" when railway-tagged and the references of the other lines stopping at it |
| Scheme.AroundBadgesStep | scheme/scheme.go:161-178 | one more nearby node adds exactly the badges it provides when in range |
| Scheme.AroundBadgesMembers | scheme/scheme.go:161-178 | a badge is collected around a stop position exactly when a located node within the limit provides it |
| Scheme.StopBadgesStep | scheme/scheme.go:159-181 | one more node adds badges only when it is the stop's own located stop position, and then exactly those provided near it |
| Scheme.StopBadgesMembers | scheme/scheme.go:159-181 | a badge is collected for a stop exactly when some node is its located stop position and a node within the limit of it provides the badge |
| Scheme.BadgesAreOtherLines | scheme/scheme.go:165-172 | every badge is "poezd" or a non-empty reference other than the route's own |
| Scheme.NoBadgesWithinZero | scheme/scheme.go:157-164 | with a non-negative distance and a limit of 0 or less (a distance rejected with a syntax error) no badge is collected |
| Scheme.NoStopBadgesWithinZero | scheme/scheme.go:159-164 | no stop position collects anything when the limit is 0 or less |
| Scheme.NoAroundBadgesWithinZero | scheme/scheme.go:161-164 | no neighbour is in range when the limit is 0 or less |
| Scheme.SortStringsInPlace | scheme/scheme.go:183 | `sort.Strings` leaves the slice sorted by Go's string order, a permutation of its old contents |
| GoSort.SortStrings | scheme/scheme.go:183 | the reference sort is sorted and a permutation of its input |
| GoSort.Insert | scheme/scheme.go:183 | inserting into a sorted sequence keeps it sorted and adds exactly the one element |
| GoSort.SortedPermutationUnique | scheme/scheme.go:183 | two sorted permutations of the same strings are equal, so the sort's result is determined |
| GoSort.NotAfterTransitive | scheme/scheme.go:183 | Go's `<=` on strings is transitive |
| GoStrings.StringLessIsStrictTotalOrder | scheme/scheme.go:183 | Go's byte-wise string `<` is irreflexive, transitive, total and asymmetric |
| GoStrings.BytesInjective | scheme/scheme.go:183-184 | distinct strings have distinct bytes |
| Scheme.DedupSortedIsStrict | scheme/scheme.go:183-184 | de-duplicating a sorted sequence leaves it strictly ascending |
| Scheme.SortAndDedup | scheme/scheme.go:183-184 | `stuffAround` ends strictly ascending, holding exactly the strings it held before, each once |
| Scheme.BadgeWidth | scheme/scheme.go:189-194 | a badge is at least 60 wide, exactly 60 when its name has fewer than five runes or is "poezd" |
| Scheme.BadgeAdvance | scheme/scheme.go:201-205 | `horFix` moves at least 70, exactly 70 when the name has fewer than five bytes or is "poezd" |
| Scheme.AdvanceCoversWidth | scheme/scheme.go:189-205 | each advance is at least the badge width plus 10, exactly that for an ASCII name |
| Scheme.ShortCyrillicNameGap | scheme/scheme.go:189-205 | "ТЭЦ" (three runes, six bytes) gets width 60 but advance 96 |
| Scheme.HorFixGrows | scheme/scheme.go:201-205 | `horFix` only grows along the row, by at least each badge's advance |
| Scheme.PlacedBadgesApart | scheme/scheme.go:185-205 | each placed badge ends at least 10 before any later badge of the row begins |
| Scheme.PlaceBadge | scheme/scheme.go:188-205 | one turn of the badge loop: the badge at `200 + horFix`, 745 below the stop's row offset, with its width and fill; the label 786 or the train icon 760 below the row offset; and `horFix` moved on by the advance |
| Scheme.PlaceAllAt | scheme/scheme.go:185-205 | in the row placed badge by badge, badge k is placed at the sum of the advances of the badges before it |
| Scheme.LayoutBadges | scheme/scheme.go:185-206 | badge k sits at 200 plus the advances of the badges before it and 745 below the row offset, with its width, colour and label or icon; no two badges overlap |
| Scheme.BadgeRow | scheme/scheme.go:156-206 | a stop's badge row holds exactly the distinct badges some node near one of its stop positions provides, strictly ascending; badge k is drawn at 200 plus the advances before it; no two overlap |
| GoStrings.Len | types/types.go:46 | `len` counts bytes: at least the runes, at most four per rune |
| GoStrings.RuneCountIsRuneStarts | scheme/scheme.go:189 | the rune count is the number of bytes that are not UTF-8 continuation bytes |
| GoStrings.EncodeRuneRoundTrip | scheme/scheme.go:189 | each rune's UTF-8 bytes decode back to it, and the leading byte tells their number |
| GoStrings.EncodeRune | scheme/scheme.go:189 | a rune takes one to four bytes, one exactly when it is ASCII, continuation bytes only after the first |
| Helpers.TranslateHeader | helpers/helpers.go:13-25 | a listed language code gives its header, any other code "Scheme of route", and the result is never empty |
| Helpers.TranslateHeaderValues | helpers/helpers.go:13-25 | the headers of ru, de and ko, and the fallback for an unknown or empty code |
| Helpers.RemoveDuplicates | helpers/helpers.go:27-38 | the slice's new contents are the keep-first de-duplication of its old contents by name, "_" and kind |
| Helpers.RemoveDuplicatesResult | helpers/helpers.go:27-38 | the first point of interest of each key in input order, no two sharing a key, every key kept, and a second run changes nothing |
| Helpers.ConcatenatedKeyCollides | helpers/helpers.go:31-33 | ("a_b", "c") and ("a", "b_c") have the same key, so only the first survives |
| Helpers.AsciiByteSum | helpers/helpers.go:44-51 | for an ASCII name the byte sum is the code-point sum |
| GoStrconv.AtoiItoa | helpers/helpers.go:46-50 | `Atoi` reads back what `%d` writes, so every byte adds its value |
| GoStrconv.DecimalDigitsValue | helpers/helpers.go:46-47 | `%d` writes only decimal digits, which read back as the number |
| Helpers.GetColorFromName | helpers/helpers.go:40-54 | the colour is the palette entry at the sum of the first rune-count bytes modulo 10, always a palette entry; for ASCII the sum of the codes; the empty name gives "#49b45d" |
| Helpers.ColorOsm | helpers/helpers.go:75-102 | a "#"-prefixed value is returned unchanged, a listed name gives its value, anything else "#FF00FF", so the result always starts with "#" |
| Helpers.ColorNamesAreHex | helpers/helpers.go:80-97 | every value of the colour-name table is non-empty and starts with "#" |
| Helpers.ColorOsmValues | helpers/helpers.go:80-97 | "grey" gives the value of "gray", "magenta" that of "fuchsia", and "navy" its own |
| Helpers.ColorOsmFallbacks | helpers/helpers.go:77-101 | a "#"-prefixed value passes unchanged, names are case-sensitive ("Red" is unknown), the empty name gives "#FF00FF" |
| Types.Len | types/types.go:37-39 | `Len` is the number of points of interest |
| Types.Swap | types/types.go:41-43 | positions i and j are exchanged, every other position is unchanged, the contents are a permutation |
| Types.NameLess | types/types.go:45-61 | a name only comes before one at least as long in bytes, and before one of equal length only when both parse and its value is smaller |
| Types.Less | types/types.go:45-61 | `Less(i, j)` never holds for i = j, nor together with the reverse comparison |
| Types.LessCases | types/types.go:45-61 | names of different byte lengths order by length; equal lengths where either `Atoi` reports an error (a syntax error or a value out of range) are unordered; equal lengths that both parse order by value |
| Types.NameLessIsStrictPartialOrder | types/types.go:45-61 | `Less` is irreflexive, asymmetric and transitive |
| Types.IncomparabilityNotTransitive | types/types.go:46-54 | "12" and "13" are each unordered with "ab" yet ordered with each other, so `Less` is not a strict weak order |

## Left out

- HTTP and SVG emission is not modelled: reading the form values, setting
  the header, and every drawing call. The coordinates the drawing calls
  receive are computed as values instead: the route offset
  (`Scheme.RouteOffset`), the row offset of every stop (`Scheme.StopRows`)
  and each badge's position, size, colour and content (`Scheme.Badge`).
  Of the fixed distances below those offsets, 580, 630, 745, 760 and 786
  are part of the model; those of the header, plate, names and the top of
  the route line (150, 216, 271, 354, 421, 425, 558, 647, 713) are not.
- The Overpass query and the debug printing are not modelled. The query
  result is an input. Its node and relation maps are sequences, and every
  pass visits them in the same order, where Go's map iteration order is
  unspecified.
- The haversine `distance` (in both source files) is floating-point
  trigonometry. It becomes a function parameter, assumed non-negative only
  where a lemma says so. Coordinates are `real`, and `float64` rounding
  and NaN are not modelled.
- A relation member is a node reference. Members that are ways or
  relations are not modelled; the source would dereference their missing
  node.
- Strings are sequences of Unicode scalar values, so a Go string that is
  not valid UTF-8 cannot be expressed. The UTF-8 encoder writes the
  standard encoding and does not model overlong forms.
- Go's sorting algorithm is not modelled. `sort.Strings` is specified as a
  sorted permutation, which `GoSort.SortedPermutationUnique` shows
  determines the result. `NaturalOrder` is not used with `sort.Sort`
  anywhere in these files.
- `main.go` only starts the web server and is not part of this model.
