/** Decimal and hexadecimal numerals, as `sprintf` prints them and the parsers read them. */
module Numerals {

  predicate IsDecimal(c: char) { '0' <= c <= '9' }

  predicate IsHex(c: char) { '0' <= c <= '9' || 'a' <= c <= 'f' || 'A' <= c <= 'F' }

  /** The position of `c` in its table of digits. */
  function DigitValue(c: char): (d: int)
    requires IsHex(c)
    ensures 0 <= d < 16
    ensures IsDecimal(c) ==> d < 10
  {
    if c <= '9' then c as int - '0' as int
    else if c <= 'F' then c as int - 'A' as int + 10
    else c as int - 'a' as int + 10
  }

  function DigitChar(d: int): (c: char)
    requires 0 <= d < 16
    ensures IsHex(c) && DigitValue(c) == d
    ensures d < 10 ==> IsDecimal(c)
  {
    if d < 10 then (d + '0' as int) as char else (d - 10 + 'a' as int) as char
  }

  /** The two tables of the parsers, of which `%x` prints the first. */
  const XDIGITS_L := "0123456789abcdef"
  const XDIGITS_U := "0123456789ABCDEF"

  /** The parsers know the characters of the two tables, and each means its place in the table. */
  lemma DigitsAreTables(c: char)
    ensures IsHex(c) <==> c in XDIGITS_L || c in XDIGITS_U
    ensures IsDecimal(c) <==> c in XDIGITS_L[..10]
    ensures IsHex(c) ==> XDIGITS_L[DigitValue(c)] == c || XDIGITS_U[DigitValue(c)] == c
  {
    if IsHex(c) {
      assert XDIGITS_L[DigitValue(c)] == c || XDIGITS_U[DigitValue(c)] == c;
    }
    if IsDecimal(c) {
      assert XDIGITS_L[..10][c as int - '0' as int] == c;
    }
  }

  lemma PrintsLowerCase(d: int)
    requires 0 <= d < 16
    ensures DigitChar(d) == XDIGITS_L[d]
  {}

  /** The digits `%u` (base 10) and `%x` (base 16) print. */
  function Numeral(n: nat, base: int): (s: string)
    requires base == 10 || base == 16
    ensures |s| >= 1
    ensures forall k :: 0 <= k < |s| ==> IsHex(s[k]) && (base == 10 ==> IsDecimal(s[k]))
  {
    if n < base then [DigitChar(n)]
    else if base == 10 then Numeral(n / 10, 10) + [DigitChar(n % 10)]
    else Numeral(n / 16, 16) + [DigitChar(n % 16)]
  }

  predicate HexDigits(s: string) { forall k :: 0 <= k < |s| ==> IsHex(s[k]) }

  predicate DecimalDigits(s: string) { forall k :: 0 <= k < |s| ==> IsDecimal(s[k]) }

  /** The number a string of digits denotes. */
  function Value(s: string, base: int): (v: nat)
    requires base == 10 || base == 16
    requires HexDigits(s)
  {
    if s == "" then 0
    else
      var front := Value(s[..|s| - 1], base);
      (if base == 10 then front * 10 else front * 16) + DigitValue(s[|s| - 1])
  }

  lemma {:induction false} ValueOfNumeral(n: nat, base: int)
    requires base == 10 || base == 16
    ensures Value(Numeral(n, base), base) == n
  {
    var s := Numeral(n, base);
    if n < base {
      assert s[..|s| - 1] == "";
    } else {
      ValueOfNumeral(n / base, base);
      assert s[..|s| - 1] == Numeral(n / base, base);
    }
  }

  lemma {:induction false} NumeralLength(n: nat, base: int, k: nat)
    requires base == 10 || base == 16
    requires 1 <= k && n < Power(base, k)
    ensures |Numeral(n, base)| <= k
  {
    if n >= base {
      assert Power(base, 1) == base * Power(base, 0) == base;
      assert k >= 2;
      assert n / base < Power(base, k - 1) by {
        assert Power(base, k) == base * Power(base, k - 1);
      }
      NumeralLength(n / base, base, k - 1);
    }
  }

  function Power(base: int, k: nat): int { if k == 0 then 1 else base * Power(base, k - 1) }

  /** A prefix of a digit string denotes no more than the whole string. */
  lemma {:induction false} ValueOfPrefix(s: string, k: nat, base: int)
    requires base == 10 || base == 16
    requires HexDigits(s) && k <= |s|
    ensures Value(s[..k], base) <= Value(s, base)
    decreases |s| - k
  {
    if k < |s| {
      var p := s[..k + 1];
      assert p[..k] == s[..k];
      assert Value(p, base) == Value(s[..k], base) * base + DigitValue(s[k]);
      ValueOfPrefix(s, k + 1, base);
    } else {
      assert s[..k] == s;
    }
  }

  // ---------------------------------------------------------------- the one numeral of a number

  /** A digit of the base as `%u` and `%x` print it. */
  predicate IsDigit(c: char, base: int)
    requires base == 10 || base == 16
  {
    c in XDIGITS_L[..base]
  }

  /** The place of a digit in the lower-case table is its value. */
  lemma LowerCaseDigit(c: char, base: int)
    requires (base == 10 || base == 16) && IsDigit(c, base)
    ensures IsHex(c) && DigitValue(c) < base && DigitChar(DigitValue(c)) == c && (c != '0' ==> DigitValue(c) > 0)
  {}

  lemma PrintedDigit(d: int, base: int)
    requires (base == 10 || base == 16) && 0 <= d < base
    ensures IsDigit(DigitChar(d), base) && (d > 0 ==> DigitChar(d) != '0')
  {
    PrintsLowerCase(d);
    assert XDIGITS_L[..base][d] == DigitChar(d);
  }

  /** A string of such digits without a needless zero in front. */
  predicate IsNumeral(s: string, base: int)
    requires base == 10 || base == 16
  {
    s != "" && (|s| > 1 ==> s[0] != '0') && forall k :: 0 <= k < |s| ==> IsDigit(s[k], base)
  }

  lemma NumeralNext(n: nat, base: int)
    requires (base == 10 || base == 16) && n >= base
    ensures Numeral(n, base) == Numeral(n / base, base) + [DigitChar(n % base)]
  {}

  lemma {:induction false} NumeralIsNumeral(n: nat, base: int)
    requires base == 10 || base == 16
    ensures IsNumeral(Numeral(n, base), base)
    ensures n > 0 ==> Numeral(n, base)[0] != '0'
  {
    PrintedDigit(n % base, base);
    if n >= base {
      NumeralNext(n, base);
      assert n / base > 0;
      hide Numeral, IsDigit, DigitChar;
      NumeralIsNumeral(n / base, base);
    } else {
      assert Numeral(n, base) == [DigitChar(n)];
    }
  }

  lemma NumeralDigits(s: string, base: int)
    requires (base == 10 || base == 16) && IsNumeral(s, base)
    ensures HexDigits(s)
  {
    hide IsDigit;
    forall k | 0 <= k < |s| ensures IsHex(s[k]) {
      LowerCaseDigit(s[k], base);
    }
  }

  /** A number with one digit more. */
  function WithDigit(n: nat, d: nat, base: int): nat
    requires base == 10 || base == 16
  {
    n * base + d
  }

  lemma ValueLast(s: string, base: int)
    requires (base == 10 || base == 16) && s != "" && HexDigits(s)
    ensures Value(s, base) == WithDigit(Value(s[..|s| - 1], base), DigitValue(s[|s| - 1]), base)
  {}

  lemma {:induction false} ValuePositive(s: string, base: int)
    requires (base == 10 || base == 16) && IsNumeral(s, base) && s[0] != '0'
    ensures HexDigits(s) && Value(s, base) > 0
  {
    NumeralDigits(s, base);
    LowerCaseDigit(s[|s| - 1], base);
    ValueLast(s, base);
    hide Value, IsDigit, DigitValue;
    if |s| > 1 {
      ValuePositive(s[..|s| - 1], base);
    }
  }

  lemma OneDigit(s: string, base: int)
    requires (base == 10 || base == 16) && |s| == 1 && IsDigit(s[0], base) && HexDigits(s)
    ensures s == Numeral(Value(s, base), base)
  {
    LowerCaseDigit(s[0], base);
    assert s[..0] == "" && s == [s[0]];
  }

  lemma InFront(s: string, base: int)
    requires (base == 10 || base == 16) && IsNumeral(s, base) && |s| > 1
    ensures IsNumeral(s[..|s| - 1], base) && s[..|s| - 1][0] != '0'
  {
    hide IsDigit;
  }

  /** No other string of that kind has the value. */
  lemma {:induction false} NumeralIsUnique(s: string, base: int)
    requires (base == 10 || base == 16) && IsNumeral(s, base)
    ensures HexDigits(s) && s == Numeral(Value(s, base), base)
  {
    NumeralDigits(s, base);
    assert s != "" && IsDigit(s[|s| - 1], base);
    if |s| == 1 {
      OneDigit(s, base);
    } else {
      hide *;
      var front, c := s[..|s| - 1], s[|s| - 1];
      assert s == front + [c];
      InFront(s, base);
      NumeralIsUnique(front, base);
      ValuePositive(front, base);
      NumeralGrows(front, c, base);
    }
  }

  lemma NumeralGrows(front: string, c: char, base: int)
    requires (base == 10 || base == 16) && HexDigits(front) && IsDigit(c, base)
    requires Value(front, base) > 0 && front == Numeral(Value(front, base), base)
    ensures HexDigits(front + [c]) && front + [c] == Numeral(Value(front + [c], base), base)
  {
    LowerCaseDigit(c, base);
    assert (front + [c])[..|front|] == front;
    ValueLast(front + [c], base);
    hide Value, Numeral, IsDigit, DigitValue, DigitChar, WithDigit;
    Appended(Value(front, base), DigitValue(c), base);
  }

  lemma WithoutDigit(n: nat, d: nat, base: int)
    requires (base == 10 || base == 16) && d < base
    ensures WithDigit(n, d, base) / base == n && WithDigit(n, d, base) % base == d && WithDigit(n, d, base) >= n
    ensures n > 0 ==> WithDigit(n, d, base) >= base
  {
    if base == 10 {
      assert WithDigit(n, d, 10) == 10 * n + d;
    } else {
      assert WithDigit(n, d, 16) == 16 * n + d;
    }
  }

  lemma Appended(n: nat, d: nat, base: int)
    requires (base == 10 || base == 16) && n > 0 && d < base
    ensures Numeral(WithDigit(n, d, base), base) == Numeral(n, base) + [DigitChar(d)]
  {
    hide WithDigit, Numeral, DigitChar;
    WithoutDigit(n, d, base);
    NumeralNext(WithDigit(n, d, base), base);
  }

  /** A digit counts for as much as its place says. */
  lemma {:induction false} ValueOfJoined(s: string, t: string, base: int)
    requires (base == 10 || base == 16) && HexDigits(s) && HexDigits(t)
    ensures HexDigits(s + t) && Value(s + t, base) == Value(s, base) * Power(base, |t|) + Value(t, base)
    decreases |t|
  {
    if t == "" {
      assert s + t == s && Power(base, 0) == 1;
    } else {
      var n := |t| - 1;
      ValueOfJoined(s, t[..n], base);
      assert (s + t)[..|s| + n] == s + t[..n];
      Shifted(Value(s, base), Power(base, n), Value(t[..n], base), DigitValue(t[n]), base);
    }
  }

  lemma Shifted(v: int, p: int, w: int, d: int, base: int)
    ensures (v * p + w) * base + d == v * (base * p) + (w * base + d)
  {
    assert v * p * base == v * (base * p);
  }
}
