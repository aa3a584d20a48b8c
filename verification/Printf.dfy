/**
 printf into a buffer: the state machine of lib/libc/__printf.c and the sink of
 lib/libc/snprintf.c, against a reading of the format string field by field.
 */
module Printf {
  import opened Basics
  import opened Numerals

  const NUMBER_BUF_SIZE := 12

  /** One argument, as whichever of a 32-bit word or a string pointer the format asks for. */
  datatype Arg = Arg(word: nat, str: Option<string>)

  predicate ArgOk(a: Arg)
  {
    a.word < WORD
  }

  /** The word as a signed integer. */
  function Signed(w: nat): (n: int)
    requires w < WORD
    ensures -HALF <= n < HALF
  {
    if w >= HALF then w - WORD else w
  }

  // ---- what a format means ----

  predicate IsModifier(c: char)
  {
    c == '#' || c == '-' || c == 'q' || c == 'l' || IsDigit(c)
  }

  predicate IsNumeric(c: char)
  {
    c == 'd' || c == 'o' || c == 'u' || c == 'p' || c == 'x'
  }

  predicate TakesArg(c: char)
  {
    IsNumeric(c) || c == 's' || c == 'c'
  }

  /** The digits among the modifiers of a field. */
  function DigitsOf(mods: string): (s: string)
    ensures AllDigits(s)
  {
    if mods == "" then ""
    else
      var s, c := DigitsOf(mods[..|mods| - 1]), mods[|mods| - 1];
      if IsDigit(c) then s + [c] else s
  }

  /** The digits give the width; a leading zero among them asks for zeros. */
  function Width(mods: string): (n: nat)
  {
    Value(DigitsOf(mods))
  }

  predicate ZeroFill(mods: string)
  {
    DigitsOf(mods) != "" && DigitsOf(mods)[0] == '0'
  }

  predicate Left(mods: string)
  {
    '-' in mods
  }

  predicate Alternate(mods: string)
  {
    '#' in mods
  }

  /** Text laid out in its field: blanks go outside the prefix, zeros inside, and to the right either. */
  function Layout(mods: string, prefix: string, body: string): (s: string)
    ensures |s| == if Width(mods) > |prefix| + |body| then Width(mods) else |prefix| + |body|
  {
    var len := |prefix| + |body|;
    var fill := Repeat(if ZeroFill(mods) then '0' else ' ', if Width(mods) > len then Width(mods) - len else 0);
    if Left(mods) then prefix + body + fill
    else if ZeroFill(mods) then prefix + fill + body
    else fill + prefix + body
  }

  function Base(c: char): (b: nat)
    ensures b in {8, 10, 16}
  {
    if c == 'o' then 8 else if c == 'x' || c == 'p' then 16 else 10
  }

  function SignText(c: char, w: nat): (s: string)
    requires w < WORD
  {
    if c == 'd' && Signed(w) < 0 then "-" else ""
  }

  function BaseText(mods: string, c: char): (s: string)
  {
    if (Alternate(mods) || c == 'p') && Base(c) == 16 then "0x"
    else if (Alternate(mods) || c == 'p') && Base(c) == 8 then "0"
    else ""
  }

  function Magnitude(c: char, w: nat): (n: nat)
    requires w < WORD
    ensures n < WORD
  {
    if c == 'd' && Signed(w) < 0 then -Signed(w) else w
  }

  /** The text of one field; `a` matters only for conversions that take an argument. */
  function Field(mods: string, c: char, a: Arg): (s: string)
    requires ArgOk(a)
  {
    if IsNumeric(c) then Layout(mods, SignText(c, a.word) + BaseText(mods, c), Numeral(Magnitude(c, a.word), Base(c)))
    else if c == 's' then Layout(mods, "", if a.str.Some? then a.str.value else "(null)")
    else if c == 'c' then Layout(mods, "", CharText(a.word))
    else Layout(mods, "", [c])
  }

  /** A NUL prints as nothing. */
  function CharText(w: nat): (s: string)
  {
    if w % 256 == 0 then "" else [(w % 256) as char]
  }

  lemma NoWidth(mods: string, prefix: string, body: string)
    requires mods == "" || mods == "#"
    ensures Layout(mods, prefix, body) == prefix + body
    ensures Alternate(mods) == (mods == "#")
  {
    assert DigitsOf("") == "";
    assert mods == "#" ==> mods[..0] == "" && mods[0] == '#' && DigitsOf(mods) == "";
    assert prefix + ("" + body) == prefix + body;
  }

  /** What the numeric conversions say, in terms of digits and their worth. */
  lemma NumbersMean(a: Arg)
    requires ArgOk(a)
    ensures ValueIn(Field("", 'u', a), 10) == a.word && DigitsIn(Field("", 'u', a), 10)
    ensures ValueIn(Field("", 'o', a), 8) == a.word && DigitsIn(Field("", 'o', a), 8)
    ensures ValueIn(Field("", 'x', a), 16) == a.word && DigitsIn(Field("", 'x', a), 16)
    ensures Field("", 'p', a) == "0x" + Field("", 'x', a) && Field("#", 'x', a) == "0x" + Field("", 'x', a)
    ensures Field("#", 'o', a) == "0" + Field("", 'o', a)
    ensures var n := Signed(a.word);
            Field("", 'd', a) == (if n < 0 then "-" else "") + Numeral(if n < 0 then -n else n, 10)
  {
    hide Layout, Numeral, ValueIn, DigitsIn, Alternate;
    var w := a.word;
    NumeralStandsFor(w, 10);
    NumeralStandsFor(w, 8);
    NumeralStandsFor(w, 16);
    forall mods, prefix, body | mods == "" || mods == "#"
      ensures Layout(mods, prefix, body) == prefix + body && Alternate(mods) == (mods == "#")
    {
      NoWidth(mods, prefix, body);
    }
    assert "" + "" == "" && "" + "0x" == "0x" && "" + "0" == "0" && "-" + "" == "-";
    assert "" + Numeral(w, 10) == Numeral(w, 10) && "" + Numeral(w, 8) == Numeral(w, 8) && "" + Numeral(w, 16) == Numeral(w, 16);
  }

  /** Arguments the rest of a format takes; `mods` is what has been read of an open field. */
  function Needs(mods: Option<string>, fmt: string): (n: nat)
    decreases |fmt|
  {
    if fmt == "" then 0
    else if mods.None? then Needs(if fmt[0] == '%' then Some("") else None, fmt[1..])
    else if IsModifier(fmt[0]) then Needs(Some(mods.value + [fmt[0]]), fmt[1..])
    else (if TakesArg(fmt[0]) then 1 else 0) + Needs(None, fmt[1..])
  }

  /** The whole output. */
  function Render(mods: Option<string>, fmt: string, args: seq<Arg>): (s: string)
    requires Needs(mods, fmt) <= |args| && forall i: nat | i < |args| :: ArgOk(args[i])
    decreases |fmt|
  {
    if fmt == "" then ""
    else if mods.None? then
      if fmt[0] == '%' then Render(Some(""), fmt[1..], args) else [fmt[0]] + Render(None, fmt[1..], args)
    else if IsModifier(fmt[0]) then Render(Some(mods.value + [fmt[0]]), fmt[1..], args)
    else if TakesArg(fmt[0]) then Field(mods.value, fmt[0], args[0]) + Render(None, fmt[1..], args[1..])
    else Field(mods.value, fmt[0], Arg(0, None)) + Render(None, fmt[1..], args)
  }

  // ---- the sink of snprintf ----

  class Snp {
    const buf: array<char>
    const buflen: nat
    var bufpos: nat
    ghost const before: seq<char>
    ghost var sent: string

    /** The buffer starts with as much of what was sent as fits, and is untouched from there on. */
    ghost predicate Valid()
      reads this, buf
    {
      && buflen <= buf.Length == |before| && bufpos == Min(|sent|, buflen)
      && buf[..bufpos] == sent[..bufpos] && buf[bufpos..] == before[bufpos..]
    }

    constructor (buf: array<char>, buflen: nat)
      requires buflen <= buf.Length
      ensures Valid() && sent == "" && this.buf == buf && this.buflen == buflen && before == buf[..]
    {
      this.buf, this.buflen, bufpos, sent, before := buf, buflen, 0, "", buf[..];
    }

    /** Stores what fits and drops the rest. */
    method Send(data: string)
      requires Valid()
      modifies this, buf
      ensures Valid() && sent == old(sent) + data
    {
      ghost var start := sent;
      var i := 0;
      while i < |data|
        invariant i <= |data| && Valid() && sent == start + data[..i]
      {
        if bufpos < buflen {
          buf[bufpos] := data[i];
          bufpos := bufpos + 1;
        }
        sent := sent + [data[i]];
        i := i + 1;
      }
      assert data[..i] == data;
    }
  }

  function Min(a: nat, b: nat): (m: nat)
  {
    if a <= b then a else b
  }

  // ---- facts about modifiers ----

  lemma ModSnoc(mods: string, c: char)
    ensures DigitsOf(mods + [c]) == if IsDigit(c) then DigitsOf(mods) + [c] else DigitsOf(mods)
    ensures Left(mods + [c]) <==> Left(mods) || c == '-'
    ensures Alternate(mods + [c]) <==> Alternate(mods) || c == '#'
  {
  }

  /** A zero after other digits belongs to the width; one before them asks for zeros. */
  lemma {:induction false} ZeroDigits(s: string)
    requires AllDigits(s) && s != "" && Value(s) == 0
    ensures s[0] == '0'
  {
    if |s| > 1 {
      ZeroDigits(s[..|s| - 1]);
    }
  }

  lemma ModWidth(mods: string, c: char)
    requires IsDigit(c)
    ensures Width(mods + [c]) == Width(mods) * 10 + DigitValue(c)
    ensures ZeroFill(mods + [c]) <==> ZeroFill(mods) || (c == '0' && Width(mods) == 0)
  {
    hide DigitsOf;
    var d := DigitsOf(mods);
    ModSnoc(mods, c);
    ValueSnoc(d, c);
    if d != "" && Value(d) == 0 {
      ZeroDigits(d);
    }
  }

  // ---- the state machine ----

  class Pf {
    const snp: Snp
    var args: seq<Arg>
    var charcount: nat
    var inPct: bool
    var num: nat
    var sign: bool
    var spacing: nat
    var rightspc: bool
    var fillchar: char
    var base: nat
    var baseprefix: bool
    var altformat: bool
    ghost var mods: string

    /** The fields stand for the modifiers read so far. */
    ghost predicate Reads()
      reads this
    {
      && spacing == Width(mods) && rightspc == Left(mods) && altformat == Alternate(mods)
      && fillchar == (if ZeroFill(mods) then '0' else ' ')
      && !sign && !baseprefix
    }

    ghost predicate Valid()
      reads this, snp, snp.buf
    {
      snp.Valid() && charcount == |snp.sent|
    }

    constructor (snp: Snp, args: seq<Arg>)
      requires snp.Valid() && snp.sent == ""
      ensures Valid() && Reads() && mods == "" && !inPct && this.snp == snp && this.args == args
    {
      this.snp, this.args, charcount := snp, args, 0;
      inPct, num, sign, spacing, rightspc, fillchar := false, 0, false, 0, false, ' ';
      base, baseprefix, altformat, mods := 0, false, false, "";
    }

    method Print(txt: string)
      requires Valid()
      modifies snp, snp.buf, this`charcount
      ensures Valid() && snp.sent == old(snp.sent) + txt
    {
      snp.Send(txt);
      charcount := charcount + |txt|;
    }

    method EndField()
      modifies this`inPct, this`num, this`sign, this`spacing, this`rightspc, this`fillchar, this`base, this`baseprefix, this`altformat, this`mods
      ensures Reads() && mods == "" && !inPct
    {
      inPct, num, sign, spacing, rightspc, fillchar := false, 0, false, 0, false, ' ';
      base, baseprefix, altformat, mods := 0, false, false, "";
    }

    method Modifier(ch: char)
      requires Reads() && IsModifier(ch)
      modifies this`spacing, this`rightspc, this`fillchar, this`altformat, this`mods
      ensures Reads() && mods == old(mods) + [ch]
    {
      hide DigitsOf, Width, ZeroFill, Left, Alternate;
      ModSnoc(mods, ch);
      if IsDigit(ch) {
        ModWidth(mods, ch);
      } else {
        SameWidth(mods, ch);
      }
      mods := mods + [ch];
      if ch == '#' {
        altformat := true;
      } else if ch == '-' {
        rightspc := true;
      } else if ch == '0' {
        if spacing > 0 {
          spacing := spacing * 10;
        } else {
          fillchar := '0';
        }
      } else if IsDigit(ch) {
        spacing := spacing * 10 + DigitValue(ch);
      }
    }

    /** Prints the fill character, one at a time. */
    method Fill(spc: nat)
      requires Valid()
      modifies snp, snp.buf, this`charcount
      ensures Valid() && snp.sent == old(snp.sent) + Repeat(fillchar, spc)
    {
      var i := 0;
      while i < spc
        invariant i <= spc && Valid() && snp.sent == old(snp.sent) + Repeat(fillchar, i)
      {
        RepeatSnoc(fillchar, i);
        assert old(snp.sent) + (Repeat(fillchar, i) + [fillchar]) == old(snp.sent) + Repeat(fillchar, i) + [fillchar];
        Print([fillchar]);
        i := i + 1;
      }
    }

    /** Prefixes and text, padded to the field. */
    method PrintStuff(prefix: string, prefix2: string, stuff: string)
      requires Valid() && FieldSet()
      modifies snp, snp.buf, this`charcount
      ensures Valid() && snp.sent == old(snp.sent) + Layout(mods, prefix + prefix2, stuff)
    {
      hide Width, Left, ZeroFill, Repeat;
      var len := |prefix| + |prefix2| + |stuff|;
      var spc := if spacing > len then spacing - len else 0;
      ghost var start, fill := snp.sent, Repeat(fillchar, spc);
      RepeatNone(fillchar);
      Associate(start, prefix, prefix2, stuff, fill);
      if spc > 0 && !rightspc && fillchar != '0' {
        Fill(spc);
      }
      Print(prefix);
      Print(prefix2);
      if spc > 0 && !rightspc && fillchar == '0' {
        Fill(spc);
      }
      Print(stuff);
      if spc > 0 && rightspc {
        Fill(spc);
      }
    }

    /** The padding fields stand for the modifiers read. */
    ghost predicate FieldSet()
      reads this
    {
      spacing == Width(mods) && rightspc == Left(mods) && fillchar == (if ZeroFill(mods) then '0' else ' ')
    }

    /** Digits from right to left in a buffer of NUMBER_BUF_SIZE characters; what it holds is the numeral. */
    method Convert() returns (text: string)
      requires num < WORD && base in {8, 10, 16}
      ensures text == Numeral(num, base)
    {
      hide DigitChar, Pow, Numeral, Low, High;
      var buf := new char[NUMBER_BUF_SIZE];
      var x := NUMBER_BUF_SIZE - 1;
      buf[x] := 0 as char;
      x := x - 1;
      var xnum: nat := num;
      Pow8Eleven();
      var more := true;
      while more
        invariant -1 <= x <= NUMBER_BUF_SIZE - 2 && (more ==> x >= 0) && xnum < Pow(8, x + 1)
        invariant Numeral(num, base) == (if more then Numeral(xnum, base) else "") + buf[x + 1..NUMBER_BUF_SIZE - 1]
        decreases x
      {
        NumeralStep(xnum, base);
        StepBound(xnum, base, x);
        ghost var done, d := buf[x + 1..NUMBER_BUF_SIZE - 1], DigitChar(Low(xnum, base));
        buf[x] := DigitChar(Low(xnum, base));
        assert buf[x..NUMBER_BUF_SIZE - 1] == [d] + done;
        xnum := High(xnum, base);
        more := xnum > 0;
        ghost var higher := if more then Numeral(xnum, base) else "";
        assert higher + [d] + done == higher + ([d] + done);
        x := x - 1;
      }
      x := x + 1;
      text := buf[x..NUMBER_BUF_SIZE - 1];
    }

    method GetNum(ch: char)
      requires IsNumeric(ch) && args != [] && ArgOk(args[0]) && !sign
      modifies this`args, this`num, this`sign
      ensures args == old(args)[1..] && num == Magnitude(ch, old(args)[0].word)
      ensures sign <==> SignText(ch, old(args)[0].word) == "-"
    {
      var w := args[0].word;
      args := args[1..];
      if ch == 'd' {
        var signednum := Signed(w);
        if signednum < 0 {
          sign := true;
          num := -signednum;
        } else {
          num := signednum;
        }
      } else {
        num := w;
      }
    }

    method SetBase(ch: char)
      requires IsNumeric(ch) && !baseprefix && altformat == Alternate(mods)
      modifies this`base, this`baseprefix
      ensures base == Base(ch) && baseprefix == (Alternate(mods) || ch == 'p')
    {
      match ch {
        case 'd' => base := 10;
        case 'u' => base := 10;
        case 'x' => base := 16;
        case 'p' => base := 16;
        case _ => base := 8;
      }
      if altformat || ch == 'p' {
        baseprefix := true;
      }
    }

    /** A numeric field, all of it. */
    method PrintNum(ch: char)
      requires Valid() && Reads() && IsNumeric(ch) && args != [] && ArgOk(args[0])
      modifies snp, snp.buf, this`charcount, this`args, this`num, this`sign, this`base, this`baseprefix
      ensures Valid() && args == old(args)[1..]
      ensures snp.sent == old(snp.sent) + Field(mods, ch, old(args)[0])
    {
      hide Layout, Numeral, Width, ZeroFill, Left, Alternate;
      GetNum(ch);
      SetBase(ch);
      var text := Convert();
      var bprefix := if baseprefix && base == 16 then "0x" else if baseprefix && base == 8 then "0" else "";
      var sprefix := if sign then "-" else "";
      PrintStuff(sprefix, bprefix, text);
    }

    /** One character of the format. */
    method Send(ch: char, ghost rest: string)
      requires Valid() && Reads() && (!inPct ==> mods == "") && OkArgs(args)
      requires Needs(Open(), [ch] + rest) <= |args|
      modifies snp, snp.buf, this
      ensures Valid() && Reads() && (!inPct ==> mods == "") && OkArgs(args)
      ensures Needs(Open(), rest) <= |args|
      ensures snp.sent + Render(Open(), rest, args) == old(snp.sent) + old(Render(Open(), [ch] + rest, args))
    {
      hide Field, Width, ZeroFill, Left, Alternate, IsModifier, IsNumeric;
      ghost var start := snp.sent;
      Unfold(Open(), ch, rest, args);
      if !inPct && ch != '%' {
        Print([ch]);
        Regroup(start, [ch], Render(None, rest, args));
      } else if !inPct {
        inPct := true;
      } else if IsModifier(ch) {
        Modifier(ch);
      } else if IsNumeric(ch) {
        NumericTakes(ch);
        PrintNum(ch);
        Regroup(start, Field(mods, ch, old(args)[0]), Render(None, rest, args));
        EndField();
      } else if ch == 's' {
        var str := if args[0].str.Some? then args[0].str.value else "(null)";
        args := args[1..];
        PlainField(mods, ch, old(args)[0]);
        PrintStuff("", "", str);
        Regroup(start, Field(mods, ch, old(args)[0]), Render(None, rest, args));
        EndField();
      } else {
        var x;
        if ch == 'c' {
          x := CharText(args[0].word);
          PlainField(mods, ch, args[0]);
          args := args[1..];
        } else {
          x := [ch];
          PlainField(mods, ch, Arg(0, None));
        }
        PrintStuff("", "", x);
        Regroup(start, Field(mods, ch, if ch == 'c' then old(args)[0] else Arg(0, None)), Render(None, rest, args));
        EndField();
      }
    }

    ghost function Open(): (m: Option<string>)
      reads this
    {
      if inPct then Some(mods) else None
    }
  }

  predicate OkArgs(args: seq<Arg>)
  {
    forall i: nat | i < |args| :: ArgOk(args[i])
  }

  lemma Associate(start: string, p: string, q: string, stuff: string, fill: string)
    ensures start + p + q + stuff + fill == start + (p + q + stuff + fill)
    ensures start + p + q + fill + stuff == start + (p + q + fill + stuff)
    ensures start + fill + p + q + stuff == start + (fill + (p + q) + stuff)
    ensures start + "" == start && start + p + q + "" == start + p + q && start + p + q + stuff + "" == start + p + q + stuff
  {
  }

  lemma Regroup(start: string, now: string, later: string)
    ensures start + now + later == start + (now + later)
  {
  }

  /** The lowest digit of a number, and the number without it. */
  function Low(n: nat, base: nat): (d: nat)
    requires 2 <= base <= 16
    ensures d < 16
  {
    n % base
  }

  function High(n: nat, base: nat): (q: nat)
    requires 2 <= base <= 16
  {
    n / base
  }

  /** Each digit written leaves a number that fits the slots left. */
  lemma StepBound(n: nat, base: nat, x: nat)
    requires 8 <= base <= 16 && n < Pow(8, x + 1)
    ensures High(n, base) < Pow(8, x) && (x == 0 ==> High(n, base) == 0)
  {
  }

  /** A numeral is that of the higher digits, if any, and the lowest one. */
  lemma NumeralStep(n: nat, base: nat)
    requires 2 <= base <= 16
    ensures Numeral(n, base) == (if High(n, base) > 0 then Numeral(High(n, base), base) else "") + [DigitChar(Low(n, base))]
  {
    if n < base {
      assert n / base == 0 && n % base == n;
    } else {
      assert n / base > 0;
    }
  }

  lemma NumericTakes(c: char)
    requires IsNumeric(c)
    ensures TakesArg(c)
  {
  }

  lemma PlainField(mods: string, c: char, a: Arg)
    requires ArgOk(a) && !IsNumeric(c)
    ensures c == 's' ==> Field(mods, c, a) == Layout(mods, "" + "", if a.str.Some? then a.str.value else "(null)")
    ensures c == 'c' ==> Field(mods, c, a) == Layout(mods, "" + "", CharText(a.word))
    ensures c != 's' && c != 'c' ==> Field(mods, c, a) == Layout(mods, "" + "", [c])
  {
  }

  /** The meaning of a format that starts with `c`. */
  lemma Unfold(m: Option<string>, c: char, rest: string, args: seq<Arg>)
    requires OkArgs(args) && Needs(m, [c] + rest) <= |args|
    ensures m.None? && c != '%' ==> Needs(None, rest) <= |args| && Render(m, [c] + rest, args) == [c] + Render(None, rest, args)
    ensures m.None? && c == '%' ==> Needs(Some(""), rest) <= |args| && Render(m, [c] + rest, args) == Render(Some(""), rest, args)
    ensures m.Some? && IsModifier(c) ==>
              Needs(Some(m.value + [c]), rest) <= |args| && Render(m, [c] + rest, args) == Render(Some(m.value + [c]), rest, args)
    ensures m.Some? && !IsModifier(c) && TakesArg(c) ==>
              args != [] && OkArgs(args[1..]) && Needs(None, rest) <= |args[1..]| && Render(m, [c] + rest, args) == Field(m.value, c, args[0]) + Render(None, rest, args[1..])
    ensures m.Some? && !IsModifier(c) && !TakesArg(c) ==>
              Needs(None, rest) <= |args| && Render(m, [c] + rest, args) == Field(m.value, c, Arg(0, None)) + Render(None, rest, args)
  {
  }

  lemma SameWidth(mods: string, c: char)
    requires !IsDigit(c)
    ensures Width(mods + [c]) == Width(mods) && (ZeroFill(mods + [c]) <==> ZeroFill(mods))
  {
  }

  lemma RepeatNone(c: char)
    ensures Repeat(c, 0) == ""
  {
  }
}
