/** atoi of lib/libc/atoi.c, and how it undoes printf's decimal fields. */
module Atoi {
  import opened Basics
  import opened Numerals
  import opened Printf

  // ---- what atoi computes ----

  predicate Blank(c: char)
  {
    c == ' ' || c == '\t'
  }

  function SkipBlanks(s: string): (r: string)
  {
    if s != "" && Blank(s[0]) then SkipBlanks(s[1..]) else s
  }

  /** The digits a string starts with. */
  function DigitPrefix(s: string): (d: string)
    ensures AllDigits(d)
  {
    if s != "" && IsDigit(s[0]) then [s[0]] + DigitPrefix(s[1..]) else ""
  }

  predicate Negative(s: string)
  {
    s != "" && s[0] == '-'
  }

  /** After an optional sign. */
  function Unsigned(s: string): (r: string)
  {
    if s != "" && (s[0] == '-' || s[0] == '+') then s[1..] else s
  }

  /** An unsigned word returned as an int, negated if need be. */
  function AsInt(neg: bool, val: nat): (n: int)
    requires val < WORD
    ensures -HALF <= n < HALF && (if neg then n + val else n - val) % WORD == 0
  {
    Signed(if neg && val > 0 then WORD - val else val)
  }

  function AtoiOf(s: string): (n: int)
  {
    var t := SkipBlanks(s);
    AsInt(Negative(t), Value(DigitPrefix(Unsigned(t))) % WORD)
  }

  /** The value modulo the word size can be kept along the way. */
  lemma WrapStep(v: nat, d: nat)
    ensures (v % WORD * 10 + d) % WORD == (v * 10 + d) % WORD
  {
  }

  /** Digits as an unsigned word. */
  function WordOf(d: string): (v: nat)
    requires AllDigits(d)
  {
    Value(d) % WORD
  }

  lemma WordSnoc(d: string, c: char)
    requires AllDigits(d) && IsDigit(c)
    ensures AllDigits(d + [c]) && WordOf(d + [c]) == (WordOf(d) * 10 + DigitValue(c)) % WORD
  {
    hide Value;
    ValueSnoc(d, c);
    WrapStep(Value(d), DigitValue(c));
  }

  /** Leading blanks are passed over. */
  method PastBlanks(s: string) returns (i: nat)
    ensures i <= |s| && s[i..] == SkipBlanks(s)
  {
    i := 0;
    assert s[0..] == s;
    while i < |s| && Blank(s[i])
      invariant i <= |s| && SkipBlanks(s[i..]) == SkipBlanks(s)
    {
      assert s[i..][1..] == s[i + 1..];
      i := i + 1;
    }
  }

  /** The digits from a position on, as a word. */
  method ReadDigits(s: string, start: nat) returns (val: nat)
    requires start <= |s|
    ensures val == Value(DigitPrefix(s[start..])) % WORD
  {
    var i := start;
    ghost var done := "";
    val := 0;
    ValueNone();
    hide Value, WordOf;
    while i < |s| && IsDigit(s[i])
      invariant start <= i <= |s| && AllDigits(done) && val == WordOf(done)
      invariant done + DigitPrefix(s[i..]) == DigitPrefix(s[start..])
    {
      assert s[i..][1..] == s[i + 1..];
      WordSnoc(done, s[i]);
      assert done + ([s[i]] + DigitPrefix(s[i + 1..])) == done + [s[i]] + DigitPrefix(s[i + 1..]);
      done := done + [s[i]];
      val := (val * 10 + DigitValue(s[i])) % WORD;
      i := i + 1;
    }
    assert done == DigitPrefix(s[start..]);
    WordIs(done);
  }

  method ParseInt(s: string) returns (n: int)
    ensures n == AtoiOf(s)
  {
    hide Value, AsInt, DigitPrefix, SkipBlanks;
    var i := PastBlanks(s);
    ghost var t := s[i..];
    var neg := false;
    if i < |s| && s[i] == '-' {
      neg := true;
      i := i + 1;
    } else if i < |s| && s[i] == '+' {
      i := i + 1;
    }
    assert s[i..] == Unsigned(t);
    var val := ReadDigits(s, i);
    n := AsInt(neg, val);
  }

  lemma ValueNone()
    ensures WordOf("") == 0
  {
  }

  lemma WordIs(d: string)
    requires AllDigits(d)
    ensures WordOf(d) == Value(d) % WORD
  {
  }

  // ---- round trip ----

  predicate Whitespace(s: string)
  {
    forall i: nat | i < |s| :: s[i] == ' ' || s[i] == '\t'
  }

  lemma {:induction false} BlanksSkipped(blanks: string, s: string)
    requires Whitespace(blanks) && (s == "" || !Blank(s[0]))
    ensures SkipBlanks(blanks + s) == s
  {
    if blanks == "" {
      assert blanks + s == s;
    } else {
      BlanksSkipped(blanks[1..], s);
      assert (blanks + s)[1..] == blanks[1..] + s;
    }
  }

  lemma {:induction false} DigitsTaken(d: string, rest: string)
    requires AllDigits(d) && (rest == "" || !IsDigit(rest[0]))
    ensures DigitPrefix(d + rest) == d
  {
    if d == "" {
      assert d + rest == rest;
    } else {
      DigitsTaken(d[1..], rest);
      assert (d + rest)[1..] == d[1..] + rest;
      assert d == [d[0]] + d[1..];
    }
  }

  lemma SignApart(sign: string, d: string, rest: string)
    requires sign in {"", "-", "+"} && AllDigits(d)
    requires sign == "" && d == "" && rest != "" ==> rest[0] !in {' ', '\t', '-', '+'}
    ensures var t := sign + d + rest;
            && (t == "" || !Blank(t[0])) && (Negative(t) <==> sign == "-") && Unsigned(t) == d + rest
  {
    var t := sign + d + rest;
    if sign != "" {
      assert t[1..] == d + rest;
    } else {
      assert t == d + rest;
    }
  }

  /** Every string is whitespace, a sign or none, digits, and something else; atoi reads the digits, if there are any. */
  lemma AtoiReads(blanks: string, sign: string, d: string, rest: string)
    requires Whitespace(blanks) && sign in {"", "-", "+"} && AllDigits(d) && (rest == "" || !IsDigit(rest[0]))
    requires sign == "" && d == "" && rest != "" ==> rest[0] !in {' ', '\t', '-', '+'}
    ensures AtoiOf(blanks + (sign + d + rest)) == AsInt(sign == "-", Value(d) % WORD)
  {
    hide Value, AsInt, Signed, SkipBlanks, Negative, Unsigned, DigitPrefix;
    SignApart(sign, d, rest);
    BlanksSkipped(blanks, sign + d + rest);
    DigitsTaken(d, rest);
  }

  /** The digits behind the sign of a decimal field. */
  function Digits(w: nat): (s: string)
    requires w < WORD
  {
    Numeral(Magnitude('d', w), 10)
  }

  /** Zeros are filled in behind the number. */
  predicate ZerosBehind(mods: string, w: nat)
    requires w < WORD
  {
    Left(mods) && ZeroFill(mods) && Width(mods) > |SignText('d', w)| + |Digits(w)|
  }

  function Gap(mods: string, w: nat): (n: nat)
    requires w < WORD
  {
    var len := |SignText('d', w)| + |Digits(w)|;
    if Width(mods) > len then Width(mods) - len else 0
  }

  /** A decimal field comes in three shapes. */
  lemma FieldShape(mods: string, w: nat, str: Option<string>)
    requires w < WORD
    ensures var f, sign, g := Field(mods, 'd', Arg(w, str)), SignText('d', w), Gap(mods, w);
            && (Left(mods) && !ZeroFill(mods) ==> f == Repeat(' ', 0) + (sign + Digits(w) + Repeat(' ', g)))
            && (Left(mods) && ZeroFill(mods) ==> f == Repeat(' ', 0) + (sign + (Digits(w) + Repeat('0', g)) + ""))
            && (!Left(mods) && ZeroFill(mods) ==> f == Repeat(' ', 0) + (sign + (Repeat('0', g) + Digits(w)) + ""))
            && (!Left(mods) && !ZeroFill(mods) ==> f == Repeat(' ', g) + (sign + Digits(w) + ""))
  {
    hide Width, ZeroFill, Left, Numeral;
    var sign, g, d := SignText('d', w), Gap(mods, w), Digits(w);
    assert BaseText(mods, 'd') == "" && sign + "" == sign;
    var z, b := Repeat('0', g), Repeat(' ', g);
    assert Repeat(' ', 0) == "";
    assert "" + (sign + d + b) == sign + d + b;
    assert "" + (sign + (d + z) + "") == sign + d + z;
    assert "" + (sign + (z + d) + "") == sign + z + d;
    assert b + (sign + d + "") == b + sign + d;
  }

  lemma AsIntOfMagnitude(w: nat)
    requires w < WORD
    ensures AsInt(SignText('d', w) == "-", Magnitude('d', w)) == Signed(w)
  {
  }

  /** atoi undoes a decimal field unless zeros follow the number. */
  lemma RoundTrip(mods: string, w: nat, str: Option<string>)
    requires w < WORD && !ZerosBehind(mods, w)
    ensures AtoiOf(Field(mods, 'd', Arg(w, str))) == Signed(w)
  {
    hide Width, ZeroFill, Left, Numeral, AtoiOf, AsInt, Field, Value, Magnitude, Repeat, Signed;
    var neg, g, d, m := SignText('d', w) == "-", Gap(mods, w), Digits(w), Magnitude('d', w);
    FieldShape(mods, w, str);
    SignIs(w);
    ValueOfNumeral(m);
    SmallMod(m);
    AsIntOfMagnitude(w);
    if Left(mods) && !ZeroFill(mods) {
      BlankRest(g);
      AtoiReads(Repeat(' ', 0), SignText('d', w), d, Repeat(' ', g));
    } else if Left(mods) {
      TrailingZeros(d, 0);
      assert g == 0;
      RepeatNone('0');
      assert d + "" == d;
      AtoiReads(Repeat(' ', 0), SignText('d', w), d, "");
    } else if ZeroFill(mods) {
      LeadingZeros(g, d);
      AtoiReads(Repeat(' ', 0), SignText('d', w), Repeat('0', g) + d, "");
    } else {
      AtoiReads(Repeat(' ', g), SignText('d', w), d, "");
    }
  }

  lemma SignIs(w: nat)
    requires w < WORD
    ensures SignText('d', w) == if SignText('d', w) == "-" then "-" else ""
  {
  }

  lemma SmallMod(m: nat)
    requires m < WORD
    ensures m % WORD == m
  {
  }

  lemma BlankRest(g: nat)
    ensures Repeat(' ', g) == "" || !IsDigit(Repeat(' ', g)[0])
  {
  }

  // ---- zeros behind ----

  lemma {:induction false} PowTenEven(k: nat)
    requires k > 0
    ensures Pow(10, k) % 2 == 0
  {
    var p := Pow(10, k - 1);
    assert Pow(10, k) == 10 * p;
    EvenTimes(p);
  }

  lemma EvenTimes(p: nat)
    ensures 10 * p % 2 == 0
  {
  }

  lemma OddTimesOdd(a: int, b: int)
    requires a % 2 == 1 && b % 2 == 1
    ensures (a * b) % 2 == 1
  {
    var x, y := a / 2, b / 2;
    assert a == 2 * x + 1 && b == 2 * y + 1;
    assert a * b == 2 * (2 * x * y + x + y) + 1;
  }

  /** An odd factor does not help to reach a multiple of a power of two. */
  lemma {:induction false} OddCancels(m: nat, o: nat, j: nat, q: int) returns (p: int)
    requires o % 2 == 1 && m * o == q * Pow(2, j)
    ensures m == p * Pow(2, j)
    decreases j
  {
    if j == 0 {
      p := m;
    } else {
      assert m * o == 2 * (q * Pow(2, j - 1)) by { TwoOut(q, Pow(2, j - 1)); }
      if m % 2 == 1 {
        OddTimesOdd(m, o);
      }
      var h := m / 2;
      assert m == 2 * h;
      assert h * o == q * Pow(2, j - 1) by { TwoOut(h, o); }
      p := OddCancels(h, o, j - 1, q);
      TwoOut(p, Pow(2, j - 1));
    }
  }

  lemma TwoOut(q: int, p: int)
    ensures q * (2 * p) == 2 * (q * p) && (2 * q) * p == 2 * (q * p)
  {
  }

  lemma PowTwoWord()
    ensures Pow(2, 32) == WORD
  {
    assert Pow(2, 4) == 16;
    assert Pow(2, 8) == 256;
    assert Pow(2, 12) == 4096;
    assert Pow(2, 16) == 65536;
    assert Pow(2, 20) == 1048576;
    assert Pow(2, 24) == 16777216;
    assert Pow(2, 28) == 268435456;
  }

  /** No number below the word size but zero is fixed by appending zeros, even modulo the word size. */
  lemma AppendedZeros(m: nat, k: nat)
    requires m < WORD && k > 0 && (m * Pow(10, k)) % WORD == m
    ensures m == 0
  {
    hide Pow;
    PowTenEven(k);
    PowTwoWord();
    var t := Pow(10, k);
    var q := m * t / WORD;
    assert m * t == q * WORD + m;
    assert m * (t - 1) == q * WORD by { MulMinus(m, t); }
    var p := OddCancels(m, t - 1, 32, q);
    assert m == p * WORD;
  }

  lemma MulMinus(m: int, t: int)
    ensures m * (t - 1) == m * t - m
  {
  }

  lemma AsIntInjective(neg: bool, a: nat, b: nat)
    requires a < WORD && b < WORD && AsInt(neg, a) == AsInt(neg, b)
    ensures a == b
  {
  }

  /** The exact law: atoi returns the integer printed, unless zeros were put behind a number other than zero. */
  lemma RoundTripExactly(mods: string, w: nat, str: Option<string>)
    requires w < WORD
    ensures AtoiOf(Field(mods, 'd', Arg(w, str))) == Signed(w) <==> !ZerosBehind(mods, w) || w == 0
  {
    hide Width, ZeroFill, Left, Numeral, AtoiOf, AsInt, Field, Value, Magnitude, Signed, Repeat, Pow;
    if !ZerosBehind(mods, w) {
      RoundTrip(mods, w, str);
    } else {
      var neg, g, d, m := SignText('d', w) == "-", Gap(mods, w), Digits(w), Magnitude('d', w);
      FieldShape(mods, w, str);
      SignIs(w);
      ValueOfNumeral(m);
      TrailingZeros(d, g);
      AtoiReads(Repeat(' ', 0), SignText('d', w), d + Repeat('0', g), "");
      AsIntOfMagnitude(w);
      MagnitudeZero(w);
      var v := (m * Pow(10, g)) % WORD;
      if AsInt(neg, v) == AsInt(neg, m) {
        AsIntInjective(neg, v, m);
        AppendedZeros(m, g);
      }
      ZeroTimes(Pow(10, g));
    }
  }

  lemma MagnitudeZero(w: nat)
    requires w < WORD
    ensures Magnitude('d', w) == 0 <==> w == 0
  {
  }

  lemma ZeroTimes(p: nat)
    ensures 0 * p % WORD == 0
  {
  }

  /** A plain %d, including the minimum. */
  lemma PlainRoundTrip(w: nat, str: Option<string>)
    requires w < WORD
    ensures Needs(None, "%d") == 1
    ensures AtoiOf(Render(None, "%d", [Arg(w, str)])) == Signed(w)
  {
    hide AtoiOf;
    var args := [Arg(w, str)];
    assert "%d"[1..] == "d" && "d"[1..] == "";
    assert Needs(Some(""), "d") == 1 && Render(Some(""), "d", args) == Field("", 'd', args[0]) + "";
    assert Field("", 'd', args[0]) + "" == Field("", 'd', args[0]);
    RoundTrip("", w, str);
  }

  lemma ExampleMods()
    ensures Width("-05") == 5 && ZeroFill("-05") && Left("-05")
  {
    ModSnoc("", '-');
    ModSnoc("-", '0');
    ModSnoc("-0", '5');
    assert "" + ['-'] == "-" && "-" + ['0'] == "-0" && "-0" + ['5'] == "-05";
    assert DigitsOf("-05") == "05";
    ValueSnoc("", '0');
    ValueSnoc("0", '5');
    assert "" + ['0'] == "0" && "0" + ['5'] == "05";
    assert "-05"[0] == '-';
  }

  lemma ExampleDigits()
    ensures Digits(42) == "42" && SignText('d', 42) == "" && Value("42") == 42
  {
  }

  /** The field "%-05d" of 42 reads back as 42000. */
  lemma ZerosBehindExample()
    ensures ZerosBehind("-05", 42) && AtoiOf(Field("-05", 'd', Arg(42, None))) == 42000
  {
    hide Width, ZeroFill, Left, Numeral, AtoiOf, Field, Value, Magnitude, Repeat, DigitsOf, SignText, Digits;
    ExampleMods();
    ExampleDigits();
    FieldShape("-05", 42, None);
    TrailingZeros("42", 3);
    assert Pow(10, 1) == 10 && Pow(10, 2) == 100 && Pow(10, 3) == 1000;
    AtoiReads(Repeat(' ', 0), "", "42" + Repeat('0', 3), "");
  }
}
