/**
 sfs_truncate to any length. Blocks past the new end are given up, except that
 the loop over the indirect block keeps one block too many, and what a kept
 block holds past the new end is not cleared.
 */
module SfsTruncate {
  import opened Uios
  import opened Bitmaps
  import opened SfsLayout
  import opened SfsState

  const HIGHBLOCK := 142

  /** Length in blocks, rounding up. */
  function BlockLen(len: nat): (n: nat)
  {
    (len + BLOCKSIZE - 1) / BLOCKSIZE
  }

  /** Whether block `k` of a file survives truncation to `n` blocks. */
  predicate Keeps(n: nat, k: nat)
  {
    if k < NDIRECT then k < n else k <= n
  }

  /** The data blocks given up, of those below block `j`. */
  ghost function CutData(s: State, ino: nat, n: nat, j: nat): (r: set<nat>)
  {
    set b | b in s.owner && s.owner[b].DataBlock? && s.owner[b].ino == ino && s.owner[b].k < j && !Keeps(n, s.owner[b].k)
  }

  /** The indirect block is given up as well: it is looked at, and nothing in it is kept. */
  ghost predicate IndirectGone(s: State, ino: nat, n: nat)
  {
    var i := InodeOf(s, ino);
    && i.indirect != 0 && n < HIGHBLOCK
    && forall k: nat | NDIRECT <= k < MAXBLOCKS && Keeps(n, k) :: Ptr(s, i, k) == 0
  }

  ghost function CutBlocks(s: State, ino: nat, n: nat): (r: set<nat>)
  {
    CutData(s, ino, n, MAXBLOCKS) + if IndirectGone(s, ino, n) then {InodeOf(s, ino).indirect as nat} else {}
  }

  function CutDirect(d: Directs, n: nat): (r: Directs)
  {
    seq(15, k requires 0 <= k < 15 => if k < n then d[k] else 0)
  }

  function CutWords(w: Words, n: nat): (r: Words)
  {
    seq(128, j requires 0 <= j < 128 => if Keeps(n, NDIRECT + j) then w[j] else 0)
  }

  /** The indirect block is written back if it is kept and an entry of it was cleared. */
  ghost function CutDisk(s: State, ino: nat, n: nat): (disk: seq<Block>)
    ensures |disk| == |s.disk|
  {
    var b := InodeOf(s, ino).indirect;
    if b == 0 || b >= |s.disk| || IndirectGone(s, ino, n) || CutWords(WordsOf(s.disk[b]), n) == WordsOf(s.disk[b]) then s.disk
    else s.disk[b := BytesOf(CutWords(WordsOf(s.disk[b]), n))]
  }

  ghost function CutInode(s: State, ino: nat, len: word): (i: Inode)
  {
    var i, n := InodeOf(s, ino), BlockLen(len);
    i.(size := len, direct := CutDirect(i.direct, n), indirect := if IndirectGone(s, ino, n) then 0 else i.indirect)
  }

  /** The state after sfs_truncate. */
  ghost function Cut(s: State, ino: nat, len: word): (s': State)
    requires ino in s.vnodes
  {
    var n := BlockLen(len);
    var cut := CutBlocks(s, ino, n);
    State(CutDisk(s, ino, n), s.used - cut, s.mapdirty || cut != {},
          s.vnodes[ino := s.vnodes[ino].(inode := CutInode(s, ino, len), dirty := true)], s.owner - cut)
  }

  /** What is left of the bytes. */
  function CutBytes(bytes: seq<byte>, n: nat): (r: seq<byte>)
    requires |bytes| == MAXBYTES
    ensures |r| == MAXBYTES
  {
    seq(MAXBYTES, p requires 0 <= p < MAXBYTES => if Keeps(n, p / BLOCKSIZE) then bytes[p] else 0)
  }

  function CutView(f: FileView, len: nat): (r: FileView)
    requires |f.bytes| == MAXBYTES
    ensures |r.bytes| == MAXBYTES
  {
    f.(size := len, bytes := CutBytes(f.bytes, BlockLen(len)))
  }

  // ---- pointers and blocks after the cut ----

  lemma IndirectAfter(s: State, ino: nat, len: word)
    requires Owned(s) && ino in s.vnodes && Live(s, ino)
    requires InodeOf(s, ino).indirect != 0 && !IndirectGone(s, ino, BlockLen(len))
    ensures var b := InodeOf(s, ino).indirect;
            b < |s.disk| && WordsOf(BlockAt(Cut(s, ino, len), b)) == CutWords(WordsOf(s.disk[b]), BlockLen(len))
  {
    hide WordsOf, BytesOf, CutWords, IndirectGone, CutBlocks, CutInode;
    var b := InodeOf(s, ino).indirect;
    IndirectInRange(s, ino);
    WordsRoundTrip(CutWords(WordsOf(s.disk[b]), BlockLen(len)));
  }

  lemma InodeAfter(s: State, ino: nat, len: word)
    requires ino in s.vnodes
    ensures InodeOf(Cut(s, ino, len), ino) == CutInode(s, ino, len)
  {
  }

  lemma CutPtr(s: State, ino: nat, len: word, k: nat)
    requires Owned(s) && ino in s.vnodes && Live(s, ino) && k < MAXBLOCKS
    ensures var s' := Cut(s, ino, len);
            Ptr(s', InodeOf(s', ino), k) == if Keeps(BlockLen(len), k) then Ptr(s, InodeOf(s, ino), k) else 0
  {
    hide WordsOf, Owned, CutBlocks, CutDisk, BlockLen;
    var i := InodeOf(s, ino);
    InodeAfter(s, ino, len);
    IndirectInRange(s, ino);
    if k >= NDIRECT && i.indirect != 0 && !IndirectGone(s, ino, BlockLen(len)) {
      IndirectAfter(s, ino, len);
    }
  }

  /** A block of another slot of the file is not the indirect block. */
  lemma CutKeepsBlock(s: State, ino: nat, len: word, b: nat)
    requires Owned(s) && ino in s.vnodes && Live(s, ino) && b in s.owner && s.owner[b] != IndirectBlock(ino)
    ensures BlockAt(Cut(s, ino, len), b) == BlockAt(s, b)
  {
    hide WordsOf, CutBlocks, BlockLen, IndirectGone, CutWords, CutInode;
    IndirectInRange(s, ino);
  }

  lemma CutContents(s: State, ino: nat, len: word)
    requires Owned(s) && ino in s.vnodes && Live(s, ino)
    ensures var s' := Cut(s, ino, len); Bytes(s', InodeOf(s', ino)) == CutBytes(Bytes(s, InodeOf(s, ino)), BlockLen(len))
  {
    hide Ptr, Owned, Cut, BlockLen, Keeps, InodeOf;
    var s' := Cut(s, ino, len);
    var i, i' := InodeOf(s, ino), InodeOf(s', ino);
    forall p: nat | p < MAXBYTES
      ensures FileByte(s', i', p) == if Keeps(BlockLen(len), p / BLOCKSIZE) then FileByte(s, i, p) else 0
    {
      var k := p / BLOCKSIZE;
      CutPtr(s, ino, len, k);
      PtrInRange(s, ino, k);
      if Ptr(s, i, k) != 0 {
        CutKeepsBlock(s, ino, len, Ptr(s, i, k));
      }
    }
  }

  // ---- the invariant after the cut ----

  lemma CutAgrees(s: State, ino: nat, len: word)
    requires Owned(s) && ino in s.vnodes && Live(s, ino)
    ensures AgreeOff(s, Cut(s, ino, len), ino)
  {
    hide WordsOf, BlockLen, CutWords, CutInode, Owned, Ptr, BlockAt;
    var s' := Cut(s, ino, len);
    IndirectInRange(s, ino);
    forall b | Elsewhere(s, ino, b) || Elsewhere(s', ino, b)
      ensures SameBlock(s, s', b)
    {
      if b in s.owner {
        if !Belongs(s.owner[b], ino) {
          CutKeepsBlock(s, ino, len, b);
        }
      }
    }
  }

  lemma CutFileOwned(s: State, ino: nat, len: word)
    requires Owned(s) && ino in s.vnodes && Live(s, ino)
    ensures Live(Cut(s, ino, len), ino) && FileOwned(Cut(s, ino, len), ino)
  {
    hide WordsOf, BlockLen, CutWords, CutDirect, CutDisk, Ptr, Fixed, Beyond, Owned;
    var s' := Cut(s, ino, len);
    InodeAfter(s, ino, len);
    IndirectInRange(s, ino);
    forall k: nat | k < MAXBLOCKS
      ensures PtrOwned(s', ino, k)
    {
      CutPtr(s, ino, len, k);
      PtrInRange(s, ino, k);
    }
  }

  lemma CutOwner(s: State, ino: nat, len: word, b: nat)
    requires Owned(s) && ino in s.vnodes && Live(s, ino)
    requires var s' := Cut(s, ino, len); b in s'.owner && Belongs(s'.owner[b], ino)
    ensures OwnerOk(Cut(s, ino, len), b)
  {
    hide WordsOf, BlockLen, CutWords, CutDirect, CutDisk, Ptr, Fixed, FileOwned, Beyond;
    var s' := Cut(s, ino, len);
    assert OwnerOk(s, b);
    InodeAfter(s, ino, len);
    CutFileOwned(s, ino, len);
    if s.owner[b].DataBlock? {
      CutPtr(s, ino, len, s.owner[b].k);
      assert b !in CutData(s, ino, BlockLen(len), MAXBLOCKS);
      assert Keeps(BlockLen(len), s.owner[b].k);
    }
  }

  lemma CutUsed(s: State, ino: nat, len: word)
    requires Owned(s) && ino in s.vnodes && Live(s, ino)
    ensures var s' := Cut(s, ino, len); s'.used == s'.owner.Keys + Beyond(|s'.disk|)
  {
    hide WordsOf, BlockLen, CutWords, CutInode, CutDisk, Ptr, Keeps, Fixed, FileOwned;
    IndirectInRange(s, ino);
    forall b | b in CutBlocks(s, ino, BlockLen(len))
      ensures b in s.owner && b !in Beyond(|s.disk|)
    {
      assert OwnerOk(s, b);
    }
  }

  /**
   sfs_truncate: the blocks given up are free, the file holds what is left of
   its bytes, and no other file changed. All of the invariant holds again but
   that the bytes past the end are zero.
   */
  lemma CutIs(s: State, ino: nat, len: word)
    requires Inv(s) && ino in s.vnodes && len < 0x8000_0000
    ensures var s' := Cut(s, ino, len);
            && InvWriting(s', ino) && Live(s', ino)
            && View(s', ino) == CutView(View(s, ino), len)
            && OthersKept(s, s', ino)
  {
    hide WordsOf, DecodeInode, MapSynced, SuperOk, AgreeOff, Cut, Ptr, BlockLen, Bytes, CutBytes, OwnerOk, FileOwned, Fixed;
    var s' := Cut(s, ino, len);
    assert Live(s, ino) && FileOk(s, ino, 0);
    BeginWrite(s, ino);
    CutContents(s, ino, len);
    InodeAfter(s, ino, len);
    CutAgrees(s, ino, len);
    CutFileOwned(s, ino, len);
    CutUsed(s, ino, len);
    forall b | b in s'.owner && Belongs(s'.owner[b], ino)
      ensures OwnerOk(s', b)
    {
      CutOwner(s, ino, len, b);
    }
    CutDirty(s, ino, len);
    OneFileChanged(s, s', ino, ino);
  }

  lemma CutDirty(s: State, ino: nat, len: word)
    requires ino in s.vnodes
    ensures var s' := Cut(s, ino, len); ino in s'.vnodes && s'.vnodes[ino].dirty
  {
  }

  // ---- when it is what truncation should be ----

  /** The file cut off at `len`, or extended by zeros. */
  function Clipped(f: FileView, len: nat): (r: FileView)
    requires |f.bytes| == MAXBYTES
    ensures |r.bytes| == MAXBYTES
  {
    f.(size := len, bytes := seq(MAXBYTES, p requires 0 <= p < MAXBYTES => if p < len then f.bytes[p] else 0))
  }

  /** Where the blocks that are kept end. */
  function KeptEnd(len: nat): (p: nat)
  {
    var n := BlockLen(len);
    (if n < NDIRECT then n else n + 1) * BLOCKSIZE
  }

  lemma KeepsBelow(len: nat, p: nat)
    ensures Keeps(BlockLen(len), p / BLOCKSIZE) <==> p < KeptEnd(len)
    ensures len <= KeptEnd(len)
  {
  }

  /**
   Truncation does what it should exactly when the file has nothing but zeros
   from the new end to the end of the blocks that are kept; otherwise those
   bytes stay, and come back when the file grows again.
   */
  lemma TruncateExact(f: FileView, len: nat)
    requires |f.bytes| == MAXBYTES && TailClear(f)
    ensures CutView(f, len) == Clipped(f, len) <==>
            forall p: nat | len <= p < KeptEnd(len) && p < f.size && p < MAXBYTES :: f.bytes[p] == 0
    ensures TailClear(CutView(f, len)) <==> CutView(f, len) == Clipped(f, len)
  {
    hide Keeps, BlockLen, KeptEnd;
    var g, h := CutView(f, len), Clipped(f, len);
    forall p: nat | p < MAXBYTES
      ensures g.bytes[p] == if p < KeptEnd(len) then f.bytes[p] else 0
      ensures p < len ==> g.bytes[p] == f.bytes[p]
    {
      KeepsBelow(len, p);
    }
    if CutView(f, len) == Clipped(f, len) {
      forall p: nat | len <= p < KeptEnd(len) && p < f.size && p < MAXBYTES
        ensures f.bytes[p] == 0
      {
        assert g.bytes[p] == h.bytes[p];
      }
    }
    if TailClear(g) || forall p: nat | len <= p < KeptEnd(len) && p < f.size && p < MAXBYTES :: f.bytes[p] == 0 {
      assert g.bytes == h.bytes;
    }
  }

  /** It is always right when the file does not shrink, and at a block boundary below the indirect blocks. */
  lemma TruncateRight(f: FileView, len: nat)
    requires |f.bytes| == MAXBYTES && TailClear(f)
    requires len >= f.size || (len % BLOCKSIZE == 0 && len < NDIRECT * BLOCKSIZE)
    ensures CutView(f, len) == Clipped(f, len) && TailClear(CutView(f, len))
  {
    hide CutView, Clipped, TailClear;
    TruncateExact(f, len);
    BoundaryEnd(len);
  }

  lemma BoundaryEnd(len: nat)
    ensures len % BLOCKSIZE == 0 && len < NDIRECT * BLOCKSIZE ==> KeptEnd(len) == len
  {
  }

  /** Two ways to go wrong: inside a block, and at the boundary where the indirect blocks begin. */
  lemma TruncateLeaves(f: FileView)
    requires |f.bytes| == MAXBYTES
    ensures CutView(f, 1).bytes[1] == f.bytes[1] && CutView(f, 7680).bytes[7680] == f.bytes[7680]
  {
    KeepsBelow(1, 1);
    KeepsBelow(7680, 7680);
  }

  /** Truncation to zero gives up every block. */
  lemma CutZero(s: State, ino: nat)
    requires Inv(s) && ino in s.vnodes
    ensures Cut(s, ino, 0) == Truncated(s, ino)
  {
    hide WordsOf, DecodeInode, MapSynced, FilesOk, Coherent, Ptr, Fixed, FileOwned, Beyond, BlockAt;
    assert Live(s, ino);
    AllFileBlocks(s, ino);
    assert CutData(s, ino, 0, MAXBLOCKS) == DataBelow(s, ino, MAXBLOCKS);
    assert CutBlocks(s, ino, 0) == FileBlocks(s, ino);
    assert CutDirect(InodeOf(s, ino).direct, 0) == seq(15, _ => 0);
    assert CutInode(s, ino, 0) == Emptied(s.vnodes[ino].inode);
  }

  /** So the file is empty then, and exactly its blocks are free again. */
  lemma TruncatedIsEmpty(s: State, ino: nat)
    requires Inv(s) && ino in s.vnodes
    ensures var s' := Truncated(s, ino);
            && Inv(s')
            && Live(s', ino)
            && View(s', ino) == FileView(0, View(s, ino).kind, View(s, ino).links, Zeros())
            && OthersKept(s, s', ino)
  {
    hide InvWriting, Cut, Truncated, OthersKept, Bytes;
    CutIs(s, ino, 0);
    CutZero(s, ino);
    NothingKept(View(s, ino).bytes);
    EndWrite(Truncated(s, ino), ino);
  }

  lemma NothingKept(bytes: seq<byte>)
    requires |bytes| == MAXBYTES
    ensures CutBytes(bytes, BlockLen(0)) == Zeros()
  {
  }

  // ---- the loops ----

  lemma CutDataNone(s: State, ino: nat, n: nat)
    ensures CutData(s, ino, n, 0) == {}
  {
  }

  lemma CutDataNext(s: State, ino: nat, n: nat, k: nat)
    requires Owned(s) && Live(s, ino) && k < MAXBLOCKS
    ensures var b := Ptr(s, InodeOf(s, ino), k);
            && CutData(s, ino, n, k + 1) == CutData(s, ino, n, k) + (if b == 0 || Keeps(n, k) then {} else {b})
            && (b != 0 ==> b !in CutData(s, ino, n, k) && b in s.used && b < |s.disk|)
  {
    hide Ptr, InodeOf, Keeps;
    PtrInRange(s, ino, k);
    forall b | b in s.owner && s.owner[b] == DataBlock(ino, k)
      ensures b == Ptr(s, InodeOf(s, ino), k) != 0
    {
      assert OwnerOk(s, b);
    }
  }

  /** Without an indirect block, or with all of it kept, only direct blocks are given up. */
  lemma OnlyDirectCut(s: State, ino: nat, n: nat)
    requires Owned(s) && Live(s, ino) && (InodeOf(s, ino).indirect == 0 || n >= HIGHBLOCK)
    ensures CutBlocks(s, ino, n) == CutData(s, ino, n, NDIRECT)
    ensures CutDisk(s, ino, n) == s.disk
  {
    hide Fixed, FileOwned, Beyond;
    forall b | b in CutData(s, ino, n, MAXBLOCKS)
      ensures b in CutData(s, ino, n, NDIRECT)
    {
      assert OwnerOk(s, b);
    }
    var b := InodeOf(s, ino).indirect;
    if n >= HIGHBLOCK && b < |s.disk| {
      AllWordsKept(WordsOf(s.disk[b]), n);
    }
  }

  lemma AllWordsKept(w: Words, n: nat)
    requires n >= HIGHBLOCK
    ensures CutWords(w, n) == w
  {
    forall j | 0 <= j < 128
      ensures CutWords(w, n)[j] == w[j]
    {
      assert Keeps(n, NDIRECT + j);
    }
  }

  /** What the loop over the indirect block finds: whether anything is left in it, and whether it was changed. */
  lemma IndirectLoopEnds(s: State, ino: nat, n: nat, idbuf: Words)
    requires Owned(s) && Live(s, ino) && InodeOf(s, ino).indirect != 0 && n < HIGHBLOCK
    requires InodeOf(s, ino).indirect < |s.disk| && idbuf == CutWords(WordsOf(s.disk[InodeOf(s, ino).indirect]), n)
    ensures IndirectGone(s, ino, n) <==> forall j | 0 <= j < DBPERIDB :: idbuf[j] == 0
  {
    hide Owned, WordsOf;
    var i := InodeOf(s, ino);
    forall k: nat | NDIRECT <= k < MAXBLOCKS
      ensures Keeps(n, k) ==> Ptr(s, i, k) == idbuf[k - NDIRECT]
    {
    }
    if forall k: nat | NDIRECT <= k < MAXBLOCKS && Keeps(n, k) :: Ptr(s, i, k) == 0 {
      forall j | 0 <= j < DBPERIDB
        ensures idbuf[j] == 0
      {
        assert Keeps(n, NDIRECT + j) ==> Ptr(s, i, NDIRECT + j) == idbuf[j];
      }
    }
  }
}
