/**
  `strconv.Atoi` and the decimal and hexadecimal formatting of `fmt`'s `%d` and
  `%x`, for a 64-bit `int`.
*/
module GoStrconv {
  import opened GoStrings

  const MaxInt64: int := 0x7FFF_FFFF_FFFF_FFFF
  const MinInt64: int := -0x8000_0000_0000_0000
  const MaxUint64: int := 0xFFFF_FFFF_FFFF_FFFF

  datatype Option<T> = None | Some(value: T)

  /** The two `NumError` causes `strconv` reports. */
  datatype NumError = ErrSyntax | ErrRange

  /** The pair `(int, error)` that `strconv.Atoi` returns. */
  datatype AtoiResult = AtoiResult(value: int, err: Option<NumError>)

  predicate IsDigit(c: char) {
    '0' <= c <= '9'
  }

  predicate AllDigits(s: string) {
    forall i :: 0 <= i < |s| ==> IsDigit(s[i])
  }

  /** The value of a string of decimal digits, most significant digit first. */
  function DigitsValue(s: string): nat
    requires AllDigits(s)
  {
    if s == [] then 0 else DigitsValue(s[..|s| - 1]) * 10 + (s[|s| - 1] as int - '0' as int)
  }

  /** What follows an optional leading sign. */
  function Unsigned(s: string): string {
    if s != [] && (s[0] == '+' || s[0] == '-') then s[1..] else s
  }

  /** The syntax `Atoi` accepts in base 10: an optional sign, then one or more digits. */
  predicate WellFormed(s: string) {
    Unsigned(s) != [] && AllDigits(Unsigned(s))
  }

  /** The mathematical value of a well-formed input. */
  function SignedValue(s: string): int
    requires WellFormed(s)
  {
    var m: int := DigitsValue(Unsigned(s));
    if s[0] == '-' then -m else m
  }

  /** The input starts with a minus sign. */
  predicate Negative(s: string) {
    s != [] && s[0] == '-'
  }

  /** The longest run of digits `s` starts with. */
  function DigitRun(s: string): (p: string)
    ensures AllDigits(p) && p <= s
    ensures p == s || !IsDigit(s[|p|])
  {
    if s == [] || !IsDigit(s[0]) then []
    else
      var rest := DigitRun(s[1..]);
      assert [s[0]] + rest <= s by { assert s == [s[0]] + s[1..]; }
      [s[0]] + rest
  }

  /**
    The digits after the sign, read up to the first non-digit, exceed the
    64-bit unsigned range. `strconv.ParseUint` reads the digits one by one
    and reports `ErrRange` as soon as the value read so far passes that
    range, before it looks at anything after them; since the value only
    grows digit by digit (`DigitsValuePrefix`), that happens exactly when the
    whole run exceeds it.
  */
  predicate DigitsOverflow(s: string) {
    DigitsValue(DigitRun(Unsigned(s))) > MaxUint64
  }

  /**
    `strconv.Atoi(s)` on a 64-bit platform: a syntax error gives 0, a value out
    of range gives the nearest bound, each with its error. The range error
    wins over a syntax error that comes after too many digits.
  */
  function Atoi(s: string): (r: AtoiResult)
    ensures r.err == Some(ErrSyntax) <==> !WellFormed(s) && !DigitsOverflow(s)
    ensures r.err == Some(ErrSyntax) ==> r.value == 0
    ensures r.err == None ==> WellFormed(s) && MinInt64 <= r.value <= MaxInt64 && r.value == SignedValue(s)
    ensures r.err == Some(ErrRange) ==> r.value == (if Negative(s) then MinInt64 else MaxInt64)
    ensures WellFormed(s) && r.err == Some(ErrRange) ==> SignedValue(s) < MinInt64 || MaxInt64 < SignedValue(s)
    ensures DigitsOverflow(s) ==> r.err == Some(ErrRange)
  {
    if !WellFormed(s) then
      if DigitsOverflow(s) then AtoiResult(if Negative(s) then MinInt64 else MaxInt64, Some(ErrRange))
      else AtoiResult(0, Some(ErrSyntax))
    else
      assert DigitRun(Unsigned(s)) == Unsigned(s);
      var v := SignedValue(s);
      if v > MaxInt64 then AtoiResult(MaxInt64, Some(ErrRange))
      else if v < MinInt64 then AtoiResult(MinInt64, Some(ErrRange))
      else AtoiResult(v, None)
  }

  /** A longer run of digits never reads as a smaller value. */
  lemma {:induction false} DigitsValuePrefix(s: string, k: nat)
    requires AllDigits(s) && k <= |s|
    ensures DigitsValue(s[..k]) <= DigitsValue(s)
    decreases |s| - k
  {
    if k < |s| {
      DigitsValuePrefix(s, k + 1);
      assert s[..k + 1][..k] == s[..k];
      assert DigitsValue(s[..k + 1]) == DigitsValue(s[..k]) * 10 + (s[k] as int - '0' as int);
    } else {
      assert s[..k] == s;
    }
  }

  /**
    Digits too many for 64 bits followed by anything that is not a digit give
    the bound and `ErrRange`, not a syntax error.
  */
  lemma {:induction false} AtoiOverflowBeforeJunk(d: string, c: char, t: string)
    requires d != [] && AllDigits(d) && DigitsValue(d) > MaxUint64 && !IsDigit(c)
    ensures Atoi(d + [c] + t) == AtoiResult(MaxInt64, Some(ErrRange))
  {
    var s := d + [c] + t;
    assert Unsigned(s) == s by { assert s[0] == d[0]; }
    DigitRunOfDigits(d, [c] + t);
    assert s == d + ([c] + t);
    assert !WellFormed(s) by { assert s[|d|] == c; }
  }

  function Pow10(n: nat): nat {
    if n == 0 then 1 else 10 * Pow10(n - 1)
  }

  /** A run of `n` nines reads as `10^n - 1`. */
  lemma {:induction false} NinesValue(s: string)
    requires forall i :: 0 <= i < |s| ==> s[i] == '9'
    ensures AllDigits(s) && DigitsValue(s) == Pow10(|s|) - 1
    decreases |s|
  {
    if s != [] {
      NinesValue(s[..|s| - 1]);
    }
  }

  lemma Pow10Twenty()
    ensures Pow10(20) == 100_000_000_000_000_000_000
  {
    assert Pow10(4) == 10_000;
    assert Pow10(8) == 100_000_000;
    assert Pow10(12) == 1_000_000_000_000;
    assert Pow10(16) == 10_000_000_000_000_000;
  }

  /**
    Twenty nines followed by a letter: too large before the letter is
    reached, so `Atoi` gives the upper bound with `ErrRange`.
  */
  lemma AtoiTwentyNinesThenLetter()
    ensures Atoi("99999999999999999999x") == AtoiResult(MaxInt64, Some(ErrRange))
  {
    var d := "99999999999999999999";
    NinesValue(d);
    Pow10Twenty();
    assert d + ['x'] + "" == "99999999999999999999x";
    AtoiOverflowBeforeJunk(d, 'x', "");
  }

  /** The digit run of digits followed by a non-digit is those digits. */
  lemma {:induction false} DigitRunOfDigits(d: string, t: string)
    requires AllDigits(d) && t != [] && !IsDigit(t[0])
    ensures DigitRun(d + t) == d
    decreases |d|
  {
    if d == [] {
      assert d + t == t;
    } else {
      DigitRunOfDigits(d[1..], t);
      assert (d + t)[1..] == d[1..] + t;
    }
  }

  /** The lower-case digit `strconv` uses for `d` in bases up to 16. */
  function DigitChar(d: nat): char
    requires d < 16
  {
    if d < 10 then ('0' as int + d) as char else ('a' as int + d - 10) as char
  }

  /** `strconv.FormatUint(n, base)`: digits, most significant first, no leading zeros. */
  function FormatUint(n: nat, base: nat): (r: string)
    requires 2 <= base <= 16
    ensures r != []
    decreases n
  {
    if n < base then [DigitChar(n)] else FormatUint(n / base, base) + [DigitChar(n % base)]
  }

  /** `fmt.Sprintf("%d", n)`. */
  function Itoa(n: int): string {
    if n < 0 then "-" + FormatUint(-n, 10) else FormatUint(n, 10)
  }

  /** Decimal digits read back give the number they were written from. */
  lemma {:induction false} DecimalDigitsValue(n: nat)
    ensures AllDigits(FormatUint(n, 10))
    ensures DigitsValue(FormatUint(n, 10)) == n
    decreases n
  {
    var s := FormatUint(n, 10);
    if n >= 10 {
      DecimalDigitsValue(n / 10);
      assert s[..|s| - 1] == FormatUint(n / 10, 10);
    }
  }

  /** `%d` writes an optional minus sign and digits, which read as the number. */
  lemma ItoaWellFormed(n: int)
    ensures WellFormed(Itoa(n)) && SignedValue(Itoa(n)) == n
  {
    var s := Itoa(n);
    if n < 0 {
      var f := FormatUint(-n, 10);
      DecimalDigitsValue(-n);
      assert s == "-" + f && s[0] == '-';
      assert s[1..] == f;
      assert Unsigned(s) == f;
    } else {
      var f := FormatUint(n, 10);
      DecimalDigitsValue(n);
      assert s == f && IsDigit(s[0]);
      assert Unsigned(s) == f;
    }
  }

  /** `Atoi` reads back what `%d` writes, for every 64-bit value. */
  lemma AtoiItoa(n: int)
    requires MinInt64 <= n <= MaxInt64
    ensures Atoi(Itoa(n)) == AtoiResult(n, None)
  {
    ItoaWellFormed(n);
  }

  /** `fmt.Sprintf("%x", b)` for a byte `b`. */
  function Hex(b: Byte): (r: string)
    ensures r == if b < 16 then [DigitChar(b)] else [DigitChar(b / 16), DigitChar(b % 16)]
  {
    assert b >= 16 ==> FormatUint(b / 16, 16) == [DigitChar(b / 16)];
    FormatUint(b, 16)
  }

  /**
    The `%x` text of a byte read as a decimal number: its two hex digits read
    as decimal digits, or 0 when a digit is one of a to f, which `Atoi`
    refuses.
  */
  lemma AtoiHex(b: Byte)
    ensures Atoi(Hex(b)).err == None <==> b / 16 < 10 && b % 16 < 10
    ensures Atoi(Hex(b)).err == None ==> Atoi(Hex(b)).value == (b / 16) * 10 + b % 16
    ensures Atoi(Hex(b)).err != None ==> Atoi(Hex(b)).value == 0
  {
    if b / 16 < 10 && b % 16 < 10 {
      AtoiHexDigits(b);
    } else {
      AtoiHexLetter(b);
    }
  }

  /** Hex digits below 10 read as decimal digits. */
  lemma AtoiHexDigits(b: Byte)
    requires b / 16 < 10 && b % 16 < 10
    ensures Atoi(Hex(b)) == AtoiResult((b / 16) * 10 + b % 16, None)
  {
    var h := Hex(b);
    assert Unsigned(h) == h;
    if b < 16 {
      assert AllDigits(h);
      assert DigitsValue(h) == b by { assert h[..0] == []; }
    } else {
      assert h[..1] == [h[0]];
      assert DigitsValue(h[..1]) == b / 16 by { assert h[..1][..0] == []; }
    }
  }

  /** A hex letter is a syntax error for `Atoi`. */
  lemma AtoiHexLetter(b: Byte)
    requires b / 16 >= 10 || b % 16 >= 10
    ensures Atoi(Hex(b)) == AtoiResult(0, Some(ErrSyntax))
  {
    var h := Hex(b);
    assert Unsigned(h) == h;
    if b < 16 || b / 16 >= 10 {
      assert !IsDigit(h[0]);
      assert DigitRun(h) == [];
    } else {
      assert !IsDigit(h[1]);
      assert DigitRun(h[1..]) == [];
      assert DigitRun(h) == [h[0]];
      assert DigitsValue([h[0]]) < 10 by { assert [h[0]][..0] == []; }
    }
  }
}
