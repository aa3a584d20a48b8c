/**
 How printf's output can be read off a format without running through it:
 text stands for itself, a field for its argument, and the modifiers say where
 in the field the argument is.
 */
module PrintfReading {
  import opened Basics
  import opened Numerals
  import opened Printf

  // ---- formats ----

  predicate AreModifiers(mods: string)
  {
    forall i: nat | i < |mods| :: IsModifier(mods[i])
  }

  /** Text without a percent sign is copied. */
  lemma {:induction false} RenderText(text: string, rest: string, args: seq<Arg>)
    requires '%' !in text && OkArgs(args) && Needs(None, text + rest) <= |args|
    ensures Needs(None, rest) == Needs(None, text + rest)
    ensures Render(None, text + rest, args) == text + Render(None, rest, args)
  {
    if text == "" {
      assert text + rest == rest;
    } else {
      var more := text[1..] + rest;
      assert text + rest == [text[0]] + more && ([text[0]] + more)[1..] == more;
      Unfold(None, text[0], more, args);
      RenderText(text[1..], rest, args);
      assert text + Render(None, rest, args) == [text[0]] + (text[1..] + Render(None, rest, args));
    }
  }

  /** Modifiers are collected until the conversion. */
  lemma {:induction false} RenderModifiers(m: string, mods: string, rest: string, args: seq<Arg>)
    requires AreModifiers(mods) && OkArgs(args) && Needs(Some(m), mods + rest) <= |args|
    ensures Needs(Some(m + mods), rest) == Needs(Some(m), mods + rest)
    ensures Render(Some(m), mods + rest, args) == Render(Some(m + mods), rest, args)
    decreases |mods|
  {
    if mods == "" {
      assert mods + rest == rest && m + mods == m;
    } else {
      var more := mods[1..] + rest;
      assert mods + rest == [mods[0]] + more && ([mods[0]] + more)[1..] == more;
      Unfold(Some(m), mods[0], more, args);
      RenderModifiers(m + [mods[0]], mods[1..], rest, args);
      assert m + mods == m + [mods[0]] + mods[1..];
    }
  }

  /** A field is replaced by its text and takes one argument, or none. */
  lemma RenderField(mods: string, c: char, rest: string, args: seq<Arg>)
    requires AreModifiers(mods) && !IsModifier(c) && OkArgs(args) && Needs(None, "%" + (mods + ([c] + rest))) <= |args|
    ensures var fmt := "%" + (mods + ([c] + rest));
            if TakesArg(c) then
              && args != [] && Needs(None, fmt) == 1 + Needs(None, rest)
              && Render(None, fmt, args) == Field(mods, c, args[0]) + Render(None, rest, args[1..])
            else
              && Needs(None, fmt) == Needs(None, rest)
              && Render(None, fmt, args) == Field(mods, c, Arg(0, None)) + Render(None, rest, args)
  {
    hide Field;
    var tail := [c] + rest;
    assert ("%" + (mods + tail))[1..] == mods + tail && tail[1..] == rest;
    Unfold(None, '%', mods + tail, args);
    RenderModifiers("", mods, tail, args);
    assert "" + mods == mods;
    Unfold(Some(mods), c, rest, args);
  }

  // ---- modifiers ----

  predicate Digitless(s: string)
  {
    forall i: nat | i < |s| :: !IsDigit(s[i])
  }

  lemma {:induction false} DigitsAmong(flags: string, digits: string, more: string)
    requires Digitless(flags) && AllDigits(digits) && Digitless(more)
    ensures DigitsOf(flags + digits + more) == digits
    decreases |flags| + |digits| + |more|
  {
    var mods := flags + digits + more;
    if mods != "" {
      var n := |mods| - 1;
      if more != "" {
        assert mods[..n] == flags + digits + more[..|more| - 1];
        DigitsAmong(flags, digits, more[..|more| - 1]);
      } else if digits != "" {
        assert mods[..n] == flags + digits[..|digits| - 1] + more;
        DigitsAmong(flags, digits[..|digits| - 1], more);
        assert digits == digits[..|digits| - 1] + [mods[n]];
      } else {
        assert mods[..n] == flags[..n] + digits + more;
        DigitsAmong(flags[..n], digits, more);
      }
    }
  }

  /** The number among the flags is the width; if it begins with a zero, the fill is zeros. */
  lemma WidthGiven(flags: string, digits: string, more: string)
    requires Digitless(flags) && AllDigits(digits) && Digitless(more)
    ensures var mods := flags + digits + more;
            Width(mods) == Value(digits) && (ZeroFill(mods) <==> digits != "" && digits[0] == '0')
  {
    hide Value, DigitsOf;
    DigitsAmong(flags, digits, more);
  }

  /**
   Where a field's text is: at the left with the fill behind it, at the right
   with blanks before it, or parted by zeros into prefix and body.
   */
  lemma Placement(mods: string, prefix: string, body: string)
    ensures var s, len := Layout(mods, prefix, body), |prefix| + |body|;
            && |s| == (if Width(mods) > len then Width(mods) else len)
            && ('-' in mods ==>
                  && s[..len] == prefix + body
                  && forall i: nat | len <= i < |s| :: s[i] == if ZeroFill(mods) then '0' else ' ')
            && ('-' !in mods && !ZeroFill(mods) ==>
                  && s[|s| - len..] == prefix + body
                  && forall i: nat | i < |s| - len :: s[i] == ' ')
            && ('-' !in mods && ZeroFill(mods) ==>
                  && s[..|prefix|] == prefix && s[|s| - |body|..] == body
                  && forall i: nat | |prefix| <= i < |s| - |body| :: s[i] == '0')
  {
    hide Width, ZeroFill, Repeat;
  }

  /** What the conversions that are no numbers print. */
  lemma TextFields(mods: string, c: char, a: Arg)
    requires ArgOk(a) && !IsNumeric(c)
    ensures c == 's' && a.str.Some? ==> Field(mods, c, a) == Layout(mods, "", a.str.value)
    ensures c == 'c' && 0 < a.word < 256 ==> Field(mods, c, a) == Layout(mods, "", [a.word as char])
    ensures c == '%' ==> Field(mods, c, a) == Layout(mods, "", "%")
  {
    hide Layout;
  }

  /** So `%%` prints one percent sign. */
  lemma PercentSign(rest: string, args: seq<Arg>)
    requires OkArgs(args) && Needs(None, "%%" + rest) <= |args|
    ensures Needs(None, "%%" + rest) == Needs(None, rest)
    ensures Render(None, "%%" + rest, args) == "%" + Render(None, rest, args)
  {
    hide Layout;
    assert "%" + ("" + (['%'] + rest)) == "%%" + rest;
    RenderField("", '%', rest, args);
    TextFields("", '%', Arg(0, None));
    NoWidth("", "", "%");
    assert "" + "%" == "%";
  }
}
