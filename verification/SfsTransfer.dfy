/**
 What one transfer between a file and a caller's buffer means, for both
 directions at once, and how consecutive transfers combine.
 */
module SfsTransfer {
  import opened Uios
  import opened SfsLayout
  import opened SfsState
  import opened Errno

  /** The file system and a uio at one moment. */
  datatype Snap = Snap(s: State, buf: seq<byte>, base: nat, len: nat, offset: nat, resid: nat)

  /** Every block of the device is in use. */
  ghost predicate Full(s: State)
  {
    forall b: nat | b < |s.disk| :: b in s.used
  }

  /** The same vnodes are in memory, with the same reference counts. */
  ghost predicate SameCache(v: map<nat, Vnode>, v': map<nat, Vnode>)
  {
    v'.Keys == v.Keys && forall x | x in v :: v'[x].refs == v[x].refs
  }

  /** Moreover no vnode but that of `ino` changed. */
  ghost predicate CacheBut(v: map<nat, Vnode>, v': map<nat, Vnode>, ino: nat)
  {
    SameCache(v, v') && forall x | x in v && x != ino :: v'[x] == v[x]
  }

  lemma CacheButRefl(v: map<nat, Vnode>, ino: nat)
    ensures CacheBut(v, v, ino)
  {
  }

  /** At most one block of the device is free. */
  ghost predicate AlmostFull(s: State)
  {
    exists b: nat :: FullBut(s, b)
  }

  ghost predicate FullBut(s: State, b: nat)
  {
    forall c: nat | c < |s.disk| && c != b :: c in s.used
  }

  predicate InBounds(f: seq<byte>, u: seq<byte>, off: nat, base: nat, n: nat)
  {
    n > 0 ==> off + n <= |f| && base + n <= |u|
  }

  /** The file's bytes after `n` bytes moved. */
  function FileAfter(rw: UioRw, f: seq<byte>, u: seq<byte>, off: nat, base: nat, n: nat): (r: seq<byte>)
    requires InBounds(f, u, off, base, n)
    ensures |r| == |f|
  {
    if rw == UIO_READ || n == 0 then f else Splice(f, off, u[base..base + n])
  }

  /** The caller's buffer after `n` bytes moved. */
  function BufferAfter(rw: UioRw, f: seq<byte>, u: seq<byte>, off: nat, base: nat, n: nat): (r: seq<byte>)
    requires InBounds(f, u, off, base, n)
    ensures |r| == |u|
  {
    if rw == UIO_WRITE || n == 0 then u else Splice(u, base, f[off..off + n])
  }

  /** From `a` to `b`, exactly `n` bytes of file `ino` were transferred and no other file changed. */
  ghost predicate Step(rw: UioRw, ino: nat, a: Snap, b: Snap, n: nat)
  {
    var f, g := View(a.s, ino), View(b.s, ino);
    && n <= a.len && n <= a.resid
    && b.base == a.base + n && b.len == a.len - n && b.offset == a.offset + n && b.resid == a.resid - n
    && InBounds(f.bytes, a.buf, a.offset, a.base, n)
    && g == f.(bytes := FileAfter(rw, f.bytes, a.buf, a.offset, a.base, n))
    && b.buf == BufferAfter(rw, f.bytes, a.buf, a.offset, a.base, n)
    && Live(a.s, ino) && Live(b.s, ino) && MapKept(a.s, b.s, ino) && OthersKept(a.s, b.s, ino)
    && CacheBut(a.s.vnodes, b.s.vnodes, ino)
    && (rw == UIO_READ ==> b.s == a.s)
    && (rw == UIO_WRITE ==> MappedRange(b.s, ino, a.offset, a.offset + n))
  }

  /** Every block of the file that overlaps the byte range has been given a device block. */
  ghost predicate MappedRange(s: State, ino: nat, lo: nat, hi: nat)
  {
    lo < hi ==> forall k: nat | k < MAXBLOCKS && lo < (k + 1) * BLOCKSIZE && k * BLOCKSIZE < hi :: Ptr(s, InodeOf(s, ino), k) != 0
  }

  lemma OthersKeptTrans(s: State, t: State, u: State, ino: nat)
    requires OthersKept(s, t, ino) && OthersKept(t, u, ino)
    ensures OthersKept(s, u, ino)
  {
    forall x | Live(s, x) && x != ino
      ensures Kept(s, u, x)
    {
      assert Kept(s, t, x) && Kept(t, u, x);
    }
  }

  lemma SameFilesRefl(s: State)
    ensures SameFiles(s, s)
  {
  }

  lemma SameFilesTrans(s: State, t: State, u: State)
    requires SameFiles(s, t) && SameFiles(t, u)
    ensures SameFiles(s, u)
  {
    forall x | Live(s, x)
      ensures Kept(s, u, x)
    {
      assert Kept(s, t, x) && Kept(t, u, x);
    }
  }

  lemma MovedTwice(rw: UioRw, f: seq<byte>, u: seq<byte>, off: nat, base: nat, n: nat, m: nat)
    requires InBounds(f, u, off, base, n)
    requires InBounds(f, u, off + n, base + n, m)
    ensures InBounds(f, u, off, base, n + m)
    ensures var f1, u1 := FileAfter(rw, f, u, off, base, n), BufferAfter(rw, f, u, off, base, n);
            && FileAfter(rw, f1, u1, off + n, base + n, m) == FileAfter(rw, f, u, off, base, n + m)
            && BufferAfter(rw, f1, u1, off + n, base + n, m) == BufferAfter(rw, f, u, off, base, n + m)
  {
    if n > 0 && m > 0 {
      if rw == UIO_READ {
        assert f[off..off + n] + f[off + n..off + n + m] == f[off..off + n + m];
        SpliceTwice(u, base, f[off..off + n], f[off + n..off + n + m]);
      } else {
        assert u[base..base + n] + u[base + n..base + n + m] == u[base..base + n + m];
        SpliceTwice(f, off, u[base..base + n], u[base + n..base + n + m]);
      }
    }
  }

  /** Two consecutive transfers are one. */
  lemma StepTrans(rw: UioRw, ino: nat, a: Snap, b: Snap, c: Snap, n: nat, m: nat)
    requires Step(rw, ino, a, b, n) && Step(rw, ino, b, c, m)
    ensures Step(rw, ino, a, c, n + m)
  {
    hide OthersKept, Splice, View, Ptr, InodeOf;
    var f := View(a.s, ino);
    OthersKeptTrans(a.s, b.s, c.s, ino);
    MovedTwice(rw, f.bytes, a.buf, a.offset, a.base, n, m);
  }

  lemma StepNone(rw: UioRw, ino: nat, a: Snap)
    requires Live(a.s, ino)
    ensures Step(rw, ino, a, a, 0)
  {
  }

  /** Block `k` of a file's bytes. */
  lemma BlockBytes(s: State, i: Inode, k: nat)
    requires k < MAXBLOCKS
    ensures Bytes(s, i)[k * BLOCKSIZE..k * BLOCKSIZE + BLOCKSIZE]
         == if Ptr(s, i, k) == 0 then ZeroBlock() else BlockAt(s, Ptr(s, i, k))
  {
  }

  /** Patching a block and putting it back patches the file. */
  lemma SpliceInBlock(f: seq<byte>, k: nat, skip: nat, d: seq<byte>)
    requires |f| == MAXBYTES && k < MAXBLOCKS && skip + |d| <= BLOCKSIZE
    ensures var blk := f[k * BLOCKSIZE..k * BLOCKSIZE + BLOCKSIZE];
            Splice(f, k * BLOCKSIZE, Splice(blk, skip, d)) == Splice(f, k * BLOCKSIZE + skip, d)
  {
  }

  /** The cursor fields of `b` are those of `a` moved on by `n`. */
  predicate CursorMoved(a: Snap, b: Snap, n: nat)
  {
    && n <= a.len && n <= a.resid
    && b.base == a.base + n && b.len == a.len - n && b.offset == a.offset + n && b.resid == a.resid - n
  }

  /** Blocks may have been added to files, but nothing was transferred. */
  lemma StepSame(rw: UioRw, ino: nat, a: Snap, b: Snap)
    requires SameFiles(a.s, b.s) && CacheBut(a.s.vnodes, b.s.vnodes, ino) && Live(a.s, ino)
    requires rw == UIO_READ ==> b.s == a.s
    requires CursorMoved(a, b, 0) && b.buf == a.buf
    ensures Step(rw, ino, a, b, 0)
  {
    hide View, MapKept;
    assert Kept(a.s, b.s, ino);
  }

  lemma SliceOfSlice(f: seq<byte>, lo: nat, hi: nat, a: nat, b: nat)
    requires lo <= hi <= |f| && a <= b <= hi - lo
    ensures f[lo..hi][a..b] == f[lo + a..lo + b]
  {
    var g := f[lo..hi];
    forall i | 0 <= i < b - a
      ensures g[a..b][i] == f[lo + a..lo + b][i]
    {
      assert g[a..b][i] == g[a + i] == f[lo + a + i];
    }
  }

  /** Part of one block was copied out. */
  lemma ReadStep(ino: nat, a: Snap, b: Snap, blk: Block, skip: nat, len: nat)
    requires Live(a.s, ino) && b.s == a.s
    requires a.offset < MAXBYTES && skip == a.offset % BLOCKSIZE && skip + len <= BLOCKSIZE
    requires a.base + a.len <= |a.buf|
    requires var p := Ptr(a.s, InodeOf(a.s, ino), a.offset / BLOCKSIZE);
             blk == if p == 0 then ZeroBlock() else BlockAt(a.s, p)
    requires CursorMoved(a, b, len)
    requires b.buf == Splice(a.buf, a.base, blk[skip..skip + len])
    ensures Step(UIO_READ, ino, a, b, len)
  {
    hide Splice, Bytes, Ptr, BlockAt, MapKept;
    var k := a.offset / BLOCKSIZE;
    var f := View(a.s, ino).bytes;
    BlockBytes(a.s, InodeOf(a.s, ino), k);
    assert a.offset == k * BLOCKSIZE + skip && a.offset + len <= MAXBYTES;
    SliceOfSlice(f, k * BLOCKSIZE, k * BLOCKSIZE + BLOCKSIZE, skip, skip + len);
    if len == 0 {
      SpliceNone(a.buf, a.base);
    }
    SameFilesRefl(a.s);
    assert MapKept(a.s, b.s, ino) by { assert Kept(a.s, b.s, ino); }
  }

  /** Part of one block was patched and written back. */
  lemma WriteStep(ino: nat, a: Snap, mid: State, b: Snap, skip: nat, len: nat)
    requires InvWriting(mid, ino) && Live(a.s, ino) && ino in mid.vnodes
    requires SameFiles(a.s, mid) && CacheBut(a.s.vnodes, mid.vnodes, ino)
    requires a.offset < MAXBYTES && skip == a.offset % BLOCKSIZE && skip + len <= BLOCKSIZE
    requires a.base + a.len <= |a.buf|
    requires CursorMoved(a, b, len) && b.buf == a.buf
    requires var p := Ptr(mid, InodeOf(mid, ino), a.offset / BLOCKSIZE);
             && 0 < p < |mid.disk|
             && b.s == PutBlock(mid, p, Splice(BlockAt(mid, p), skip, a.buf[a.base..a.base + len]))
    ensures InvWriting(b.s, ino)
    ensures Step(UIO_WRITE, ino, a, b, len)
  {
    hide Splice, Bytes, Ptr, BlockAt, MapKept, InvWriting, OthersKept;
    var k := a.offset / BLOCKSIZE;
    var p := Ptr(mid, InodeOf(mid, ino), k);
    var d := a.buf[a.base..a.base + len];
    var f := View(mid, ino).bytes;
    BlockBytes(mid, InodeOf(mid, ino), k);
    WriteData(mid, ino, k, Splice(BlockAt(mid, p), skip, d));
    SpliceInBlock(f, k, skip, d);
    assert a.offset == k * BLOCKSIZE + skip && a.offset + len <= MAXBYTES;
    if len == 0 {
      SpliceNone(f, a.offset);
      assert d == [];
    }
    assert Kept(a.s, mid, ino);
    SameThenOthers(a.s, mid, b.s, ino);
    StillMapped(mid, b.s, ino, k);
    assert forall j: nat | j < MAXBLOCKS && a.offset < (j + 1) * BLOCKSIZE && j * BLOCKSIZE < a.offset + len :: j == k;
  }

  lemma StillMapped(s: State, s': State, ino: nat, k: nat)
    requires MapKept(s, s', ino) && k < MAXBLOCKS && Ptr(s, InodeOf(s, ino), k) != 0
    ensures Ptr(s', InodeOf(s', ino), k) != 0
  {
  }

  lemma SameThenOthers(s: State, t: State, u: State, ino: nat)
    requires SameFiles(s, t) && OthersKept(t, u, ino) && MapKept(t, u, ino) && Live(s, ino)
    ensures OthersKept(s, u, ino) && MapKept(s, u, ino)
  {
    assert OthersKept(s, t, ino);
    OthersKeptTrans(s, t, u, ino);
    assert Kept(s, t, ino);
  }

  /** How much of a request for `len` bytes at `off` lies within the mappable blocks. */
  function Mappable(off: nat, len: nat): (n: nat)
    ensures n <= len
  {
    if off + len <= MAXBYTES then len else if off < MAXBYTES then MAXBYTES - off else 0
  }

  /** The request reaches a block that no inode can map. */
  predicate PastMap(off: nat, len: nat)
  {
    off + len > MAXBYTES && (len > 0 || off % BLOCKSIZE != 0)
  }

  /** A number as a signed 32-bit word. */
  function SignedWord(n: nat): (i: int)
    ensures n < 0x8000_0000 ==> i == n
  {
    var w := n % 0x1_0000_0000;
    if w < 0x8000_0000 then w else w - 0x1_0000_0000
  }

  /** How much of a read is left when the part past the end of the file is set aside, in 32-bit arithmetic. */
  function ReadWant(size: nat, off: nat, len: nat): (n: nat)
    ensures n <= len
  {
    var endpos := SignedWord(off + len);
    if off >= size then 0 else if endpos > size then len - (endpos - size) else len
  }

  /** A read that starts inside the file is clipped at its end exactly if its own end is a valid offset. */
  lemma ReadIsClipped(size: nat, off: nat, len: nat)
    requires off < size < 0x8000_0000 && len < 0x1_0000_0000
    ensures ReadWant(size, off, len) == (if off + len <= size then len else size - off) <==> off + len < 0x8000_0000
  {
  }

  /** Ten bytes from the end of a 100-byte file, 2^31 - 1 bytes asked for: nothing is set aside. */
  lemma ReadNotClipped()
    ensures ReadWant(100, 90, 0x7fff_ffff) == 0x7fff_ffff
  {
  }

  /** The file has no block behind byte `off`. */
  ghost predicate Unmapped(s: State, ino: nat, off: nat)
  {
    off / BLOCKSIZE < MAXBLOCKS && Ptr(s, InodeOf(s, ino), off / BLOCKSIZE) == 0
  }

  /**
   How a request that started at `a` and moved `n` bytes may have ended: it is
   cut short only at a block that cannot be mapped or had no block while the
   device was full, and then at a block boundary or before moving anything.
   */
  ghost predicate MoveResult(ino: nat, a: Snap, result: Errno, n: nat, s: State)
  {
    && result in {Success, EINVAL, ENOSPC}
    && n <= Mappable(a.offset, a.resid)
    && (result == Success ==> n == a.resid && !PastMap(a.offset, a.resid))
    && (result == EINVAL ==> n == Mappable(a.offset, a.resid) && PastMap(a.offset, a.resid))
    && (result == ENOSPC ==> Full(s) && Unmapped(a.s, ino, a.offset + n))
    && (result != Success && n > 0 ==> n < a.resid && (a.offset + n) % BLOCKSIZE == 0)
  }

  lemma StepCursor(rw: UioRw, ino: nat, a: Snap, b: Snap, n: nat)
    requires Step(rw, ino, a, b, n)
    ensures CursorMoved(a, b, n)
    ensures n > 0 ==> a.offset + n <= MAXBYTES
    ensures b.s.vnodes.Keys == a.s.vnodes.Keys
  {
  }

  /** The verdict on a whole request from the verdict on its last piece. */
  lemma MoveEnds(ino: nat, a: Snap, result: Errno, n: nat, s: State, rest: nat)
    requires n + rest == a.resid && (n > 0 ==> a.offset + n <= MAXBYTES)
    requires result in {Success, EINVAL, ENOSPC}
    requires result == Success ==> rest == 0 && (n == 0 ==> a.offset % BLOCKSIZE == 0 || a.offset < MAXBYTES)
    requires result != Success && n > 0 ==> rest > 0 && (a.offset + n) % BLOCKSIZE == 0
    requires result == EINVAL ==> a.offset + n >= MAXBYTES && (rest > 0 || a.offset % BLOCKSIZE != 0)
    requires result == ENOSPC ==> Full(s) && Unmapped(a.s, ino, a.offset + n)
    ensures MoveResult(ino, a, result, n, s)
  {
  }

  /** A block still missing after a transfer was missing before it. */
  lemma UnmappedBefore(rw: UioRw, ino: nat, a: Snap, b: Snap, n: nat)
    requires Step(rw, ino, a, b, n) && Unmapped(b.s, ino, b.offset)
    ensures Unmapped(a.s, ino, a.offset + n)
  {
  }

  /** What a read of file `ino` does, from before (`a`) to after (`b`). */
  ghost predicate ReadSpec(ino: nat, a: Snap, b: Snap, result: Errno, n: nat)
  {
    var f := View(a.s, ino);
    var want := ReadWant(f.size, a.offset, a.resid);
    && b.s == a.s
    && n == Mappable(a.offset, want)
    && InBounds(f.bytes, a.buf, a.offset, a.base, n)
    && b.buf == BufferAfter(UIO_READ, f.bytes, a.buf, a.offset, a.base, n)
    && result == if a.offset < f.size && PastMap(a.offset, want) then EINVAL else Success
  }

  /** What a write to file `ino` does: `n` bytes of the caller's buffer are stored. */
  ghost predicate WriteSpec(ino: nat, a: Snap, b: Snap, result: Errno, n: nat)
  {
    var f, g := View(a.s, ino), View(b.s, ino);
    && MoveResult(ino, a, result, n, b.s)
    && InBounds(f.bytes, a.buf, a.offset, a.base, n)
    && g.bytes == FileAfter(UIO_WRITE, f.bytes, a.buf, a.offset, a.base, n)
    && g.size == (if a.offset + n > f.size then a.offset + n else f.size)
    && g.kind == f.kind && g.links == f.links
    && b.buf == a.buf
    && Live(b.s, ino) && MapKept(a.s, b.s, ino) && OthersKept(a.s, b.s, ino)
    && MappedRange(b.s, ino, a.offset, a.offset + n)
    && CacheBut(a.s.vnodes, b.s.vnodes, ino)
  }
}
