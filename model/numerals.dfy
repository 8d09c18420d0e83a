/** Integer text as `std::ostream` and `std::to_string` print it: decimal
    with a leading '-' for negatives, and lower-case hexadecimal after
    `std::hex`, without leading zeros. Each rendering has a parser that
    undoes it. */
module Numerals {

  type Base = b: nat | 2 <= b <= 16 witness 10

  /** The glyph of digit `d`; `std::hex` prints the letters in lower case. */
  function DigitChar(d: nat): char
    requires d < 16
  {
    if d < 10 then ('0' as int + d) as char else ('a' as int + d - 10) as char
  }

  predicate IsDigitOf(c: char, base: Base) {
    || ('0' <= c <= '9' && c as int - '0' as int < base)
    || ('a' <= c <= 'f' && c as int - 'a' as int + 10 < base)
  }

  function DigitValue(c: char): nat
    requires '0' <= c <= '9' || 'a' <= c <= 'f'
  {
    if c <= '9' then c as int - '0' as int else c as int - 'a' as int + 10
  }

  /** The digits of `n` in `base`, most significant first. */
  function Render(n: nat, base: Base): (s: string)
    ensures |s| > 0
    ensures forall i :: 0 <= i < |s| ==> IsDigitOf(s[i], base)
    ensures s[0] == '0' ==> n == 0 && s == "0"
    decreases n
  {
    if n < base then [DigitChar(n)]
    else
      DivStep(n, base);
      Render(n / base, base) + [DigitChar(n % base)]
  }

  lemma DivStep(n: nat, base: Base)
    requires n >= base
    ensures 1 <= n / base < n && n % base < base
    ensures n == n / base * base + n % base
  {
  }

  /** The value of a digit string; the inverse of Render. */
  function Parse(s: string, base: Base): nat
    requires forall i :: 0 <= i < |s| ==> IsDigitOf(s[i], base)
  {
    if s == [] then 0
    else
      assert IsDigitOf(s[|s| - 1], base);
      Parse(s[..|s| - 1], base) * base + DigitValue(s[|s| - 1])
  }

  lemma {:induction false} ParseRender(n: nat, base: Base)
    ensures Parse(Render(n, base), base) == n
  {
    var s := Render(n, base);
    if n >= base {
      DivStep(n, base);
      assert s[..|s| - 1] == Render(n / base, base);
      ParseRender(n / base, base);
      assert DigitValue(DigitChar(n % base)) == n % base;
    }
  }

  /** `os << n` for a non-negative integer. */
  function DecimalText(n: nat): string { Render(n, 10) }

  /** `os << std::hex << n`. */
  function HexText(n: nat): string { Render(n, 16) }

  /** `os << i` and `std::to_string(i)` for any integer. */
  function IntText(i: int): (s: string)
    ensures |s| > 0
    ensures (s[0] == '-') == (i < 0)
  {
    if i < 0 then "-" + DecimalText(-i) else DecimalText(i)
  }

  function ParseInt(s: string): int
    requires |s| > 0
    requires s[0] == '-' ==> forall i :: 1 <= i < |s| ==> IsDigitOf(s[i], 10)
    requires s[0] != '-' ==> forall i :: 0 <= i < |s| ==> IsDigitOf(s[i], 10)
  {
    if s[0] == '-' then -(Parse(s[1..], 10) as int) else Parse(s, 10)
  }

  lemma IntTextRoundTrip(i: int)
    ensures ParseInt(IntText(i)) == i
  {
    if i < 0 {
      assert IntText(i)[1..] == DecimalText(-i);
      ParseRender(-i, 10);
    } else {
      ParseRender(i, 10);
    }
  }

  lemma HexTextRoundTrip(n: nat)
    ensures Parse(HexText(n), 16) == n
  {
    ParseRender(n, 16);
  }

  /** The length of the run of decimal digits that `s` starts with. */
  function DigitRun(s: string): (k: nat)
    ensures k <= |s|
    ensures forall i :: 0 <= i < k ==> IsDigitOf(s[i], 10)
    ensures k < |s| ==> !IsDigitOf(s[k], 10)
  {
    if s == [] || !IsDigitOf(s[0], 10) then 0 else 1 + DigitRun(s[1..])
  }

  /** A decimal rendering followed by a non-digit is read back whole. */
  lemma {:induction false} DigitRunOfDecimal(n: nat, rest: string)
    requires rest == [] || !IsDigitOf(rest[0], 10)
    ensures DigitRun(DecimalText(n) + rest) == |DecimalText(n)|
  {
    DigitRunOfDigits(DecimalText(n), rest);
  }

  lemma {:induction false} DigitRunOfDigits(d: string, rest: string)
    requires forall i :: 0 <= i < |d| ==> IsDigitOf(d[i], 10)
    requires rest == [] || !IsDigitOf(rest[0], 10)
    ensures DigitRun(d + rest) == |d|
  {
    if d != [] {
      assert (d + rest)[1..] == d[1..] + rest;
      DigitRunOfDigits(d[1..], rest);
    } else {
      assert d + rest == rest;
    }
  }
}
