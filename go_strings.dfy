/**
  The parts of Go's string handling that the core relies on.

  A Go string is a read-only slice of bytes. Every string the core handles is
  modelled as a Dafny `string`, a sequence of Unicode scalar values, which is a
  string that is valid UTF-8; its bytes are `Bytes(s)`. So `len(s)` is
  `|Bytes(s)|`, `utf8.RuneCountInString(s)` is `|s|`, `s[i]` is `Bytes(s)[i]`,
  and Go's `<` on strings compares `Bytes(a)` with `Bytes(b)` byte by byte.
*/
module GoStrings {

  type Byte = b: int | 0 <= b < 256

  /** A UTF-8 continuation byte, 10xxxxxx. */
  predicate IsContinuation(b: Byte) {
    0x80 <= b < 0xC0
  }

  /** The UTF-8 encoding of one scalar value: one to four bytes. */
  function EncodeRune(c: char): (r: seq<Byte>)
    ensures 1 <= |r| <= 4
    ensures !IsContinuation(r[0])
    ensures forall k :: 1 <= k < |r| ==> IsContinuation(r[k])
    ensures |r| == 1 <==> c as int < 0x80
    ensures |r| == 1 ==> r[0] == c as int
  {
    var n := c as int;
    if n < 0x80 then [n]
    else if n < 0x800 then [0xC0 + n / 64, 0x80 + n % 64]
    else if n < 0x1_0000 then [0xE0 + n / 4096, 0x80 + (n / 64) % 64, 0x80 + n % 64]
    else [0xF0 + n / 262144, 0x80 + (n / 4096) % 64, 0x80 + (n / 64) % 64, 0x80 + n % 64]
  }

  /** The length of an encoded rune, read off its leading byte. */
  function LeadLength(b: Byte): nat {
    if b < 0x80 then 1 else if b < 0xE0 then 2 else if b < 0xF0 then 3 else 4
  }

  /** The scalar value that a one- to four-byte encoding stands for. */
  function DecodeRune(bs: seq<Byte>): int
    requires 1 <= |bs| <= 4
  {
    var b: seq<int> := bs;
    if |b| == 1 then b[0]
    else if |b| == 2 then (b[0] - 0xC0) * 64 + (b[1] - 0x80)
    else if |b| == 3 then (b[0] - 0xE0) * 4096 + (b[1] - 0x80) * 64 + (b[2] - 0x80)
    else (b[0] - 0xF0) * 262144 + (b[1] - 0x80) * 4096 + (b[2] - 0x80) * 64 + (b[3] - 0x80)
  }

  /** Decoding undoes encoding, and the leading byte tells the length. */
  lemma EncodeRuneRoundTrip(c: char)
    ensures DecodeRune(EncodeRune(c)) == c as int
    ensures LeadLength(EncodeRune(c)[0]) == |EncodeRune(c)|
  {
    var n := c as int;
    if n < 0x80 {
    } else if n < 0x800 {
      SixBitSplit(n);
    } else if n < 0x1_0000 {
      SixBitSplit(n);
      SixBitSplit(n / 64);
      assert n / 4096 == (n / 64) / 64;
    } else {
      SixBitSplit(n);
      SixBitSplit(n / 64);
      SixBitSplit(n / 4096);
      assert n / 4096 == (n / 64) / 64;
      assert n / 262144 == (n / 4096) / 64;
    }
  }

  /** A number is its low six bits plus 64 times the rest. */
  lemma SixBitSplit(n: nat)
    ensures n == (n / 64) * 64 + n % 64
    ensures 0 <= n % 64 < 64
  {
  }

  /** The bytes of a Go string: the UTF-8 encoding of its runes. */
  function Bytes(s: string): (r: seq<Byte>)
    ensures |s| <= |r| <= 4 * |s|
  {
    if s == [] then [] else EncodeRune(s[0]) + Bytes(s[1..])
  }

  /** A string of ASCII characters is its own byte sequence. */
  predicate IsAscii(s: string) {
    forall i :: 0 <= i < |s| ==> s[i] as int < 0x80
  }

  lemma {:induction false} AsciiBytes(s: string)
    requires IsAscii(s)
    ensures |Bytes(s)| == |s|
    ensures forall i :: 0 <= i < |s| ==> Bytes(s)[i] == s[i] as int
  {
    if s != [] {
      AsciiBytes(s[1..]);
      assert Bytes(s) == [s[0] as int] + Bytes(s[1..]);
    }
  }

  /** A string has as many runes as its bytes have non-continuation bytes. */
  function RuneStarts(bs: seq<Byte>): nat {
    if bs == [] then 0 else RuneStarts(bs[..|bs| - 1]) + (if IsContinuation(bs[|bs| - 1]) then 0 else 1)
  }

  lemma {:induction false} RuneStartsAppend(a: seq<Byte>, b: seq<Byte>)
    ensures RuneStarts(a + b) == RuneStarts(a) + RuneStarts(b)
    decreases |b|
  {
    if b == [] {
      assert a + b == a;
    } else {
      RuneStartsAppend(a, b[..|b| - 1]);
      assert (a + b)[..|a + b| - 1] == a + b[..|b| - 1];
    }
  }

  lemma {:induction false} RuneCountIsRuneStarts(s: string)
    ensures RuneStarts(Bytes(s)) == |s|
  {
    if s != [] {
      var e := EncodeRune(s[0]);
      RuneCountIsRuneStarts(s[1..]);
      RuneStartsAppend(e, Bytes(s[1..]));
      assert RuneStarts(e) == 1 by {
        assert RuneStarts(e[..1]) == 1 by { assert e[..1][..0] == []; }
        var k := 1;
        while k < |e|
          invariant 1 <= k <= |e|
          invariant RuneStarts(e[..k]) == 1
        {
          assert e[..k + 1][..k] == e[..k];
          k := k + 1;
        }
        assert e[..|e|] == e;
      }
    }
  }

  /** Distinct strings have distinct bytes. */
  lemma {:induction false} BytesInjective(a: string, b: string)
    requires Bytes(a) == Bytes(b)
    ensures a == b
  {
    if a != [] && b != [] {
      var ea, eb := EncodeRune(a[0]), EncodeRune(b[0]);
      EncodeRuneRoundTrip(a[0]);
      EncodeRuneRoundTrip(b[0]);
      assert ea[0] == Bytes(a)[0] == Bytes(b)[0] == eb[0];
      assert |ea| == |eb|;
      assert ea == Bytes(a)[..|ea|] == Bytes(b)[..|eb|] == eb;
      assert a[0] == b[0];
      assert Bytes(a[1..]) == Bytes(a)[|ea|..] == Bytes(b)[|eb|..] == Bytes(b[1..]);
      BytesInjective(a[1..], b[1..]);
      assert a == [a[0]] + a[1..];
      assert b == [b[0]] + b[1..];
    }
  }

  /** Go's `len`: the number of bytes. */
  function Len(s: string): (n: nat)
    ensures |s| <= n <= 4 * |s|
  {
    |Bytes(s)|
  }

  /** Go's comparison of byte slices: lexicographic, a proper prefix first. */
  predicate ByteLess(a: seq<Byte>, b: seq<Byte>) {
    if a == [] then b != []
    else b != [] && (a[0] < b[0] || (a[0] == b[0] && ByteLess(a[1..], b[1..])))
  }

  lemma {:induction false} ByteLessIrreflexive(a: seq<Byte>)
    ensures !ByteLess(a, a)
  {
    if a != [] { ByteLessIrreflexive(a[1..]); }
  }

  lemma {:induction false} ByteLessTransitive(a: seq<Byte>, b: seq<Byte>, c: seq<Byte>)
    requires ByteLess(a, b) && ByteLess(b, c)
    ensures ByteLess(a, c)
  {
    if a != [] && a[0] == b[0] && b[0] == c[0] {
      ByteLessTransitive(a[1..], b[1..], c[1..]);
    }
  }

  lemma {:induction false} ByteLessTotal(a: seq<Byte>, b: seq<Byte>)
    ensures a == b || ByteLess(a, b) || ByteLess(b, a)
    ensures !(ByteLess(a, b) && ByteLess(b, a))
  {
    if a != [] && b != [] && a[0] == b[0] {
      ByteLessTotal(a[1..], b[1..]);
      if a[1..] == b[1..] {
        assert a == [a[0]] + a[1..] && b == [b[0]] + b[1..];
      }
    }
  }

  /** Go's `a < b` on strings, which `sort.Strings` sorts by. */
  predicate StringLess(a: string, b: string) {
    ByteLess(Bytes(a), Bytes(b))
  }

  /** String comparison is a strict total order. */
  lemma StringLessIsStrictTotalOrder(a: string, b: string, c: string)
    ensures !StringLess(a, a)
    ensures StringLess(a, b) && StringLess(b, c) ==> StringLess(a, c)
    ensures a == b || StringLess(a, b) || StringLess(b, a)
    ensures !(StringLess(a, b) && StringLess(b, a))
  {
    ByteLessIrreflexive(Bytes(a));
    if StringLess(a, b) && StringLess(b, c) {
      ByteLessTransitive(Bytes(a), Bytes(b), Bytes(c));
    }
    ByteLessTotal(Bytes(a), Bytes(b));
    if Bytes(a) == Bytes(b) { BytesInjective(a, b); }
  }

  /** `strings.HasPrefix(s, p)`. */
  predicate HasPrefix(s: string, p: string) {
    p <= s
  }

  /** Go's `m[k]` on a `map[string]string`: the zero value "" when `k` is absent. */
  function Index(m: map<string, string>, k: string): string {
    if k in m then m[k] else ""
  }
}
