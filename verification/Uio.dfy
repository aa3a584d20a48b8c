/**
 The transfer descriptor of kern/userprog/uio.c for kernel buffers: a cursor
 into a caller's buffer, plus the object offset and the count still to move.
 */
module Uios {
  newtype byte = x: int | 0 <= x < 256

  datatype UioRw = UIO_READ | UIO_WRITE

  /** `s` with the bytes from `at` on replaced by `d`. */
  function Splice(s: seq<byte>, at: nat, d: seq<byte>): (r: seq<byte>)
    requires at + |d| <= |s|
    ensures |r| == |s|
  {
    s[..at] + d + s[at + |d|..]
  }

  lemma SpliceAt(s: seq<byte>, at: nat, d: seq<byte>, i: nat)
    requires at + |d| <= |s| && i < |s|
    ensures Splice(s, at, d)[i] == if at <= i < at + |d| then d[i - at] else s[i]
  {
  }

  lemma SpliceNone(s: seq<byte>, at: nat)
    requires at <= |s|
    ensures Splice(s, at, []) == s
  {
  }

  lemma SpliceAll(s: seq<byte>, d: seq<byte>)
    requires |d| == |s|
    ensures Splice(s, 0, d) == d
  {
  }

  /** Two adjacent pieces written one after the other are one piece. */
  lemma SpliceTwice(s: seq<byte>, at: nat, d1: seq<byte>, d2: seq<byte>)
    requires at + |d1| + |d2| <= |s|
    ensures Splice(Splice(s, at, d1), at + |d1|, d2) == Splice(s, at, d1 + d2)
  {
  }

  /** memmove between two different buffers. */
  method Memmove(dst: array<byte>, to: nat, src: array<byte>, from: nat, n: nat)
    requires dst != src && to + n <= dst.Length && from + n <= src.Length
    modifies dst
    ensures dst[..] == Splice(old(dst[..]), to, src[from..from + n])
  {
    forall i | 0 <= i < n {
      dst[to + i] := src[from + i];
    }
  }

  class Uio {
    const rw: UioRw
    const buf: array<byte>   // memory the iovec points into
    var base: nat            // iov_kbase, as an index of buf
    var len: nat             // iov_len
    var offset: nat          // uio_offset
    var resid: nat           // uio_resid

    /** The iovec lies in the buffer and uio_resid does not promise more than it holds. */
    ghost predicate Valid()
      reads this
    {
      base + len <= buf.Length && resid <= len
    }

    /** mk_kuio. */
    constructor (kbuf: array<byte>, n: nat, pos: nat, rw: UioRw)
      requires n <= kbuf.Length
      ensures Valid() && this.rw == rw && buf == kbuf
      ensures base == 0 && len == n && offset == pos && resid == n
    {
      this.rw := rw;
      this.buf := kbuf;
      this.base := 0;
      this.len := n;
      this.offset := pos;
      this.resid := n;
    }

    /** The four cursor fields move together by `n`. */
    twostate predicate Advanced(n: nat)
      reads this
    {
      base == old(base) + n && len == old(len) - n && offset == old(offset) + n && resid == old(resid) - n
    }

    /**
     uiomove out of the kernel buffer `ptr` (a read). What moves is the
     smaller of `n` and the iovec, so a caller may ask for more than
     uio_resid only when the iovec itself is no longer than uio_resid.
     */
    method MoveOut(ptr: array<byte>, start: nat, n: nat)
      requires Valid() && rw == UIO_READ && ptr != buf
      requires start + n <= ptr.Length
      requires n <= resid || len == resid
      modifies this, buf
      ensures Valid()
      ensures Advanced(if n <= old(len) then n else old(len))
      ensures buf[..] == Splice(old(buf[..]), old(base), ptr[start..start + (base - old(base))])
    {
      hide Splice;
      var p: nat, left: nat := start, n;
      SpliceNone(buf[..], base);
      assert ptr[start..p] == [];
      while left > 0 && resid > 0
        invariant Valid()
        invariant p == start + n - left && left <= n
        invariant n <= old(resid) || old(len) == old(resid)
        invariant Advanced(n - left)
        invariant buf[..] == Splice(old(buf[..]), old(base), ptr[start..p])
        decreases left
      {
        var size := if len > left then left else len;
        Memmove(buf, base, ptr, p, size);
        SpliceTwice(old(buf[..]), old(base), ptr[start..p], ptr[p..p + size]);
        assert ptr[start..p] + ptr[p..p + size] == ptr[start..p + size];
        base, len, resid, offset := base + size, len - size, resid - size, offset + size;
        p, left := p + size, left - size;
      }
    }

    /** uiomove into the kernel buffer `ptr` (a write). */
    method MoveIn(ptr: array<byte>, start: nat, n: nat)
      requires Valid() && rw == UIO_WRITE && ptr != buf
      requires start + n <= ptr.Length
      requires n <= resid || len == resid
      modifies this, ptr
      ensures Valid()
      ensures Advanced(if n <= old(len) then n else old(len))
      ensures ptr[..] == Splice(old(ptr[..]), start, buf[old(base)..base])
    {
      hide Splice;
      var p: nat, left: nat := start, n;
      SpliceNone(ptr[..], start);
      assert buf[old(base)..base] == [];
      while left > 0 && resid > 0
        invariant Valid()
        invariant p == start + n - left && left <= n
        invariant n <= old(resid) || old(len) == old(resid)
        invariant Advanced(n - left)
        invariant ptr[..] == Splice(old(ptr[..]), start, buf[old(base)..base])
        decreases left
      {
        var size := if len > left then left else len;
        Memmove(ptr, p, buf, base, size);
        SpliceTwice(old(ptr[..]), start, buf[old(base)..base], buf[base..base + size]);
        assert buf[old(base)..base] + buf[base..base + size] == buf[old(base)..base + size];
        base, len, resid, offset := base + size, len - size, resid - size, offset + size;
        p, left := p + size, left - size;
      }
    }

    /** uiomovezeros: sixteen zero bytes at a time. */
    method MoveZeros(n: nat)
      requires Valid() && rw == UIO_READ && n <= resid
      modifies this, buf
      ensures Valid() && Advanced(n)
      ensures buf[..] == Splice(old(buf[..]), old(base), seq<byte>(n, _ => 0))
    {
      hide Splice;
      var zeros := new byte[16](_ => 0);
      var left: nat := n;
      SpliceNone(buf[..], base);
      assert seq<byte>(n - left, _ => 0) == [];
      while left > 0
        invariant Valid() && left <= n && left <= resid
        invariant forall i :: 0 <= i < 16 ==> zeros[i] == 0
        invariant Advanced(n - left)
        invariant buf[..] == Splice(old(buf[..]), old(base), seq<byte>(n - left, _ => 0))
      {
        var amt := if 16 > left then left else 16;
        ghost var at, before := base, buf[..];
        MoveOut(zeros, 0, amt);
        assert zeros[0..amt] == seq<byte>(amt, _ => 0);
        assert buf[..] == Splice(before, at, seq<byte>(amt, _ => 0));
        SpliceTwice(old(buf[..]), old(base), seq<byte>(n - left, _ => 0), seq<byte>(amt, _ => 0));
        assert seq<byte>(n - left, _ => 0) + seq<byte>(amt, _ => 0) == seq<byte>(n - left + amt, _ => 0);
        left := left - amt;
      }
    }
  }
}
