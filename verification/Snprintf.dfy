/** vsnprintf of lib/libc/snprintf.c over the whole format, with the promises of section 7.19.6.5 of C99. */
module Snprintf {
  import opened Basics
  import opened Numerals
  import opened Printf

  const NUL := 0 as char

  /** __vprintf with the sink of snprintf. */
  method Vprintf(snp: Snp, fmt: string, args: seq<Arg>) returns (chars: nat)
    requires snp.Valid() && snp.sent == "" && OkArgs(args) && Needs(None, fmt) <= |args|
    modifies snp, snp.buf
    ensures snp.Valid() && snp.sent == Render(None, fmt, args) && chars == |snp.sent|
  {
    hide Field, Width, ZeroFill, Left, Alternate, Needs, Render;
    var pf := new Pf(snp, args);
    var i := 0;
    assert fmt[0..] == fmt;
    while i < |fmt|
      invariant i <= |fmt| && fresh(pf) && pf.snp == snp && pf.Valid() && pf.Reads() && (!pf.inPct ==> pf.mods == "")
      invariant OkArgs(pf.args) && Needs(pf.Open(), fmt[i..]) <= |pf.args|
      invariant snp.sent + Render(pf.Open(), fmt[i..], pf.args) == Render(None, fmt, args)
    {
      assert fmt[i..] == [fmt[i]] + fmt[i + 1..];
      pf.Send(fmt[i], fmt[i + 1..]);
      i := i + 1;
    }
    assert fmt[i..] == "";
    RenderEnd(pf.Open(), pf.args);
    chars := pf.charcount;
  }

  lemma RenderEnd(m: Option<string>, args: seq<Arg>)
    requires OkArgs(args)
    ensures Needs(m, "") == 0 && Render(m, "", args) == ""
  {
  }

  /** Stores the longest prefix that fits, terminates it, and returns the full length. */
  method Vsnprintf(buf: array<char>, len: nat, fmt: string, args: seq<Arg>) returns (chars: nat)
    requires len <= buf.Length && OkArgs(args) && Needs(None, fmt) <= |args|
    modifies buf
    ensures chars == |Render(None, fmt, args)|
    ensures len == 0 ==> buf[..] == old(buf[..])
    ensures len > 0 ==>
              var n := Min(chars, len - 1);
              buf[..n] == Render(None, fmt, args)[..n] && buf[n] == NUL && buf[n + 1..] == old(buf[..])[n + 1..]
  {
    hide Render, Needs;
    var snp := new Snp(buf, if len == 0 then 0 else len - 1);
    chars := Vprintf(snp, fmt, args);
    if len > 0 {
      ghost var n, b := snp.bufpos, buf[..];
      buf[snp.bufpos] := NUL;
      assert buf[..n] == b[..n] && buf[n + 1..] == b[n + 1..];
      assert b[n + 1..] == b[n..][1..] && snp.before[n + 1..] == snp.before[n..][1..];
    } else {
      assert buf[..] == buf[0..] && snp.before == snp.before[0..];
    }
  }
}
