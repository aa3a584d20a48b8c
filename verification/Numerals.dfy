/** Digits and numerals, shared by printf and atoi. */
module Numerals {
  import opened Basics

  const HALF := 0x8000_0000
  const DIGITS := "0123456789abcdef"

  function DigitChar(d: nat): (c: char)
    requires d < 16
  {
    DIGITS[d]
  }

  /** A number in a base, most significant digit first, at least one digit. */
  function Numeral(n: nat, base: nat): (s: string)
    requires 2 <= base <= 16
    ensures |s| > 0
    decreases n
  {
    if n < base then [DigitChar(n)] else Numeral(n / base, base) + [DigitChar(n % base)]
  }

  predicate IsDigit(c: char)
  {
    '0' <= c <= '9'
  }

  function DigitValue(c: char): (d: nat)
    requires IsDigit(c)
    ensures d < 10
  {
    c as int - '0' as int
  }

  predicate AllDigits(s: string)
  {
    forall i: nat | i < |s| :: IsDigit(s[i])
  }

  /** The number a string of decimal digits stands for. */
  function Value(s: string): (n: nat)
    requires AllDigits(s)
  {
    if s == "" then 0 else Value(s[..|s| - 1]) * 10 + DigitValue(s[|s| - 1])
  }

  lemma ValueSnoc(s: string, c: char)
    requires AllDigits(s) && IsDigit(c)
    ensures AllDigits(s + [c]) && Value(s + [c]) == Value(s) * 10 + DigitValue(c)
  {
  }

  lemma DecimalDigit(d: nat)
    requires d < 10
    ensures IsDigit(DigitChar(d)) && DigitValue(DigitChar(d)) == d
  {
  }

  /** A decimal numeral stands for its number. */
  lemma {:induction false} ValueOfNumeral(n: nat)
    ensures AllDigits(Numeral(n, 10)) && Value(Numeral(n, 10)) == n
    decreases n
  {
    hide DigitChar;
    if n < 10 {
      DecimalDigit(n);
      ValueSnoc("", DigitChar(n));
      assert "" + [DigitChar(n)] == [DigitChar(n)];
    } else {
      ValueOfNumeral(n / 10);
      DecimalDigit(n % 10);
      ValueSnoc(Numeral(n / 10, 10), DigitChar(n % 10));
    }
  }

  // ---- other bases ----

  /** What a character is worth as a digit: 0 to 9, then a to f. */
  function Worth(c: char): (d: nat)
  {
    if '0' <= c <= '9' then c as int - '0' as int
    else if 'a' <= c <= 'f' then c as int - 'a' as int + 10
    else 16
  }

  predicate DigitsIn(s: string, base: nat)
  {
    forall i: nat | i < |s| :: Worth(s[i]) < base
  }

  /** The number a string of digits stands for in a base. */
  function ValueIn(s: string, base: nat): (n: nat)
  {
    if s == "" then 0 else ValueIn(s[..|s| - 1], base) * base + Worth(s[|s| - 1])
  }

  lemma DigitWorth(d: nat)
    requires d < 16
    ensures Worth(DigitChar(d)) == d
  {
  }

  lemma ValueInSnoc(t: string, c: char, base: nat)
    ensures ValueIn(t + [c], base) == ValueIn(t, base) * base + Worth(c)
    ensures DigitsIn(t, base) && Worth(c) < base ==> DigitsIn(t + [c], base)
  {
    hide Worth;
    assert (t + [c])[..|t|] == t;
  }

  lemma Divided(n: nat, base: nat)
    requires 2 <= base <= n
    ensures 0 < n / base < n && n % base < base && n / base * base + n % base == n
  {
  }

  /** A numeral has digits of its base only, none too many, and stands for its number. */
  lemma {:induction false} NumeralStandsFor(n: nat, base: nat)
    requires 2 <= base <= 16
    ensures var s := Numeral(n, base); DigitsIn(s, base) && ValueIn(s, base) == n && (n > 0 ==> Worth(s[0]) != 0)
    decreases n
  {
    hide DigitChar, Worth, ValueIn;
    if n < base {
      OneDigit(n, base);
    } else {
      Divided(n, base);
      var q, r := n / base, n % base;
      NumeralStandsFor(q, base);
      DigitWorth(r);
      ValueInSnoc(Numeral(q, base), DigitChar(r), base);
    }
  }

  lemma OneDigit(n: nat, base: nat)
    requires n < base <= 16
    ensures var s := [DigitChar(n)]; DigitsIn(s, base) && ValueIn(s, base) == n && Worth(s[0]) == n
  {
    hide DigitChar, Worth;
    DigitWorth(n);
    assert "" + [DigitChar(n)] == [DigitChar(n)];
    ValueInSnoc("", DigitChar(n), base);
    assert ValueIn("", base) * base == 0;
  }

  function Repeat(c: char, n: nat): (s: string)
    ensures |s| == n && forall i: nat | i < n :: s[i] == c
  {
    seq(n, _ => c)
  }

  lemma RepeatSnoc(c: char, n: nat)
    ensures Repeat(c, n + 1) == Repeat(c, n) + [c]
  {
  }

  /** Zeros in front do not change a number; zeros behind multiply it. */
  lemma {:induction false} LeadingZeros(k: nat, s: string)
    requires AllDigits(s)
    ensures AllDigits(Repeat('0', k) + s) && Value(Repeat('0', k) + s) == Value(s)
    decreases |s|, k
  {
    var z := Repeat('0', k);
    if s != "" {
      LeadingZeros(k, s[..|s| - 1]);
      assert (z + s)[..|z + s| - 1] == z + s[..|s| - 1];
    } else if k > 0 {
      LeadingZeros(k - 1, "");
      RepeatSnoc('0', k - 1);
      ValueSnoc(Repeat('0', k - 1), '0');
      assert Repeat('0', k - 1) + "" == Repeat('0', k - 1);
      assert z + "" == z;
    }
  }

  lemma {:induction false} TrailingZeros(s: string, k: nat)
    requires AllDigits(s)
    ensures AllDigits(s + Repeat('0', k)) && Value(s + Repeat('0', k)) == Value(s) * Pow(10, k)
  {
    if k == 0 {
      assert s + Repeat('0', 0) == s;
    } else {
      TrailingZeros(s, k - 1);
      RepeatSnoc('0', k - 1);
      assert s + Repeat('0', k) == s + Repeat('0', k - 1) + ['0'];
      ValueSnoc(s + Repeat('0', k - 1), '0');
      MulSwap(Value(s), Pow(10, k - 1));
    }
  }

  lemma MulSwap(v: nat, p: nat)
    ensures v * p * 10 == v * (10 * p)
  {
  }

  /** How long numerals get: every 32-bit value has at most eleven octal digits, and the largest has eleven. */
  lemma {:induction false} NumeralLength(n: nat, base: nat, k: nat)
    requires 8 <= base <= 16 && n < Pow(8, k) && k > 0
    ensures |Numeral(n, base)| <= k
    decreases k
  {
    assert Pow(8, 1) == 8;
    if n >= base && k > 1 {
      DivBound(n, base, Pow(8, k - 1));
      NumeralLength(n / base, base, k - 1);
    }
  }

  lemma DivBound(n: nat, base: nat, p: nat)
    requires base >= 8 && n < 8 * p
    ensures n / base < p
  {
  }

  lemma Pow8Eleven()
    ensures Pow(8, 11) == 0x2_0000_0000
  {
  }

  lemma LargestOctal()
    ensures |Numeral(WORD - 1, 8)| == 11
  {
    assert Numeral(0x3, 8) == [DigitChar(3)];
    assert |Numeral(0x1f, 8)| == 2;
    assert |Numeral(0xff, 8)| == 3;
    assert |Numeral(0x7ff, 8)| == 4;
    assert |Numeral(0x3fff, 8)| == 5;
    assert |Numeral(0x1_ffff, 8)| == 6;
    assert |Numeral(0xf_ffff, 8)| == 7;
    assert |Numeral(0x7f_ffff, 8)| == 8;
    assert |Numeral(0x3ff_ffff, 8)| == 9;
    assert |Numeral(0x1fff_ffff, 8)| == 10;
  }
}
