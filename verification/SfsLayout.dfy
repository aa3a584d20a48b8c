/**
 The on-disk structures of SFS (kern/include/kern/sfs.h): 512-byte blocks,
 big-endian 32-bit words, inodes and directory entries, each with the round
 trip that makes writing a structure out and reading it back harmless.
 */
module SfsLayout {
  import opened Uios

  const BLOCKSIZE := 512
  const NDIRECT := 15
  const DBPERIDB := 128
  const NAMELEN := 60
  const SB_LOCATION := 0
  const ROOT_LOCATION := 1
  const MAP_LOCATION := 2
  const NOINO := 0
  const BLOCKBITS := 4096

  const TYPE_INVAL := 0
  const TYPE_FILE := 1
  const TYPE_DIR := 2

  const SFS_MAGIC := 0xabad_f001

  /** Blocks one inode can map, and the bytes they hold. */
  const MAXBLOCKS := 143
  const MAXBYTES := 73216

  type half = x: nat | x < 0x1_0000
  type word = x: nat | x < 0x1_0000_0000
  type Block = b: seq<byte> | |b| == 512 witness seq(512, _ => 0)
  type Words = w: seq<word> | |w| == 128 witness seq(128, _ => 0)
  type Directs = w: seq<word> | |w| == 15 witness seq(15, _ => 0)
  type Waste = w: seq<word> | |w| == 110 witness seq(110, _ => 0)

  function ZeroBlock(): (b: Block)
  {
    seq(512, _ => 0)
  }

  // ---- words ----

  function Word(b: Block, i: nat): (r: word)
    requires i < 128
  {
    b[4 * i] as int * 0x100_0000 + b[4 * i + 1] as int * 0x1_0000 + b[4 * i + 2] as int * 0x100 + b[4 * i + 3] as int
  }

  function WordsOf(b: Block): (w: Words)
  {
    seq(128, i requires 0 <= i < 128 => Word(b, i))
  }

  function ByteOf(w: word, j: nat): (r: byte)
    requires j < 4
  {
    match j
    case 0 => (w / 0x100_0000) as byte
    case 1 => (w / 0x1_0000 % 0x100) as byte
    case 2 => (w / 0x100 % 0x100) as byte
    case _ => (w % 0x100) as byte
  }

  function BytesOf(ws: Words): (b: Block)
  {
    seq(512, p requires 0 <= p < 512 => ByteOf(ws[p / 4], p % 4))
  }

  lemma WordRoundTrip(w: word)
    ensures ByteOf(w, 0) as int * 0x100_0000 + ByteOf(w, 1) as int * 0x1_0000
         + ByteOf(w, 2) as int * 0x100 + ByteOf(w, 3) as int == w
  {
  }

  /** Words written to a block are the words read back. */
  lemma WordsRoundTrip(ws: Words)
    ensures WordsOf(BytesOf(ws)) == ws
  {
    forall i | 0 <= i < 128
      ensures WordsOf(BytesOf(ws))[i] == ws[i]
    {
      WordRoundTrip(ws[i]);
      assert (4 * i) / 4 == i && (4 * i + 1) / 4 == i && (4 * i + 2) / 4 == i && (4 * i + 3) / 4 == i;
    }
  }

  lemma ZeroWords()
    ensures WordsOf(ZeroBlock()) == seq(128, _ => 0)
  {
  }

  // ---- inodes ----

  datatype Inode = Inode(size: word, kind: half, links: half, direct: Directs, indirect: word, waste: Waste)

  function EmptyInode(kind: half): (i: Inode)
  {
    Inode(0, kind, 0, seq(15, _ => 0), 0, seq(110, _ => 0))
  }

  function InodeOfWords(w: Words): (i: Inode)
  {
    Inode(w[0], w[1] / 0x1_0000, w[1] % 0x1_0000, w[2..17], w[17], w[18..])
  }

  function WordsOfInode(i: Inode): (w: Words)
  {
    [i.size, i.kind * 0x1_0000 + i.links] + i.direct + [i.indirect] + i.waste
  }

  function DecodeInode(b: Block): (i: Inode)
  {
    InodeOfWords(WordsOf(b))
  }

  function EncodeInode(i: Inode): (b: Block)
  {
    BytesOf(WordsOfInode(i))
  }

  lemma Halves(kind: half, links: half)
    ensures (kind * 0x1_0000 + links) / 0x1_0000 == kind && (kind * 0x1_0000 + links) % 0x1_0000 == links
  {
  }

  lemma InodeWords(i: Inode)
    ensures InodeOfWords(WordsOfInode(i)) == i
  {
    var w := WordsOfInode(i);
    Halves(i.kind, i.links);
    assert w[2..17] == i.direct;
    assert w[18..] == i.waste;
  }

  /** An inode written to its block is the inode read back. */
  lemma InodeRoundTrip(i: Inode)
    ensures DecodeInode(EncodeInode(i)) == i
  {
    hide InodeOfWords, WordsOfInode, WordsOf, BytesOf;
    WordsRoundTrip(WordsOfInode(i));
    InodeWords(i);
  }

  /** A cleared block reads as an inode with nothing in it. */
  lemma ZeroBlockInode()
    ensures DecodeInode(ZeroBlock()) == EmptyInode(TYPE_INVAL)
  {
  }

  // ---- directory entries ----

  const DIRENTSIZE := 64

  /** A file name: bytes without a NUL. */
  type Name = n: seq<byte> | 0 !in n

  datatype DirEntry = DirEntry(ino: word, name: Name)

  /** The bytes before the first NUL (all of them when there is none). */
  function CString(s: seq<byte>): (n: Name)
  {
    if s == [] || s[0] == 0 then [] else [s[0]] + CString(s[1..])
  }

  lemma {:induction false} CStringOfName(n: Name, pad: seq<byte>)
    requires pad == [] || pad[0] == 0
    ensures CString(n + pad) == n
  {
    if n == [] {
      assert n + pad == pad;
    } else {
      CStringOfName(n[1..], pad);
      assert (n + pad)[1..] == n[1..] + pad;
    }
  }

  function WordAt(s: seq<byte>): (r: word)
    requires |s| >= 4
  {
    s[0] as int * 0x100_0000 + s[1] as int * 0x1_0000 + s[2] as int * 0x100 + s[3] as int
  }

  /** struct sfs_dir: the inode number, then the name with its last byte forced to NUL. */
  function DecodeEntry(s: seq<byte>): (e: DirEntry)
    requires |s| == DIRENTSIZE
  {
    DirEntry(WordAt(s), CString(s[4..63]))
  }

  function EncodeEntry(e: DirEntry): (s: seq<byte>)
    requires |e.name| + 1 <= NAMELEN
    ensures |s| == DIRENTSIZE
  {
    [ByteOf(e.ino, 0), ByteOf(e.ino, 1), ByteOf(e.ino, 2), ByteOf(e.ino, 3)]
    + e.name + seq(NAMELEN - |e.name|, _ => 0)
  }

  /** A directory entry written out is the entry read back. */
  lemma EntryRoundTrip(e: DirEntry)
    requires |e.name| + 1 <= NAMELEN
    ensures DecodeEntry(EncodeEntry(e)) == e
  {
    var s := EncodeEntry(e);
    WordRoundTrip(e.ino);
    var pad := seq<byte>(59 - |e.name|, _ => 0);
    assert s[4..63] == e.name + pad;
    CStringOfName(e.name, pad);
  }

  // ---- the structures as bytes ----

  /** The number that bytes stand for, most significant first. */
  function BigEndian(s: seq<byte>): (n: nat)
  {
    if s == [] then 0 else BigEndian(s[..|s| - 1]) * 0x100 + s[|s| - 1] as nat
  }

  lemma BigEndianTwo(s: seq<byte>)
    requires |s| == 2
    ensures BigEndian(s) == s[0] as nat * 0x100 + s[1] as nat
  {
    assert s[..1][..0] == [] && s[..1] == [s[0]];
    assert BigEndian(s[..1]) == s[0] as nat;
  }

  lemma BigEndianFour(s: seq<byte>)
    requires |s| == 4
    ensures BigEndian(s) == s[0] as nat * 0x100_0000 + s[1] as nat * 0x1_0000 + s[2] as nat * 0x100 + s[3] as nat
  {
    assert s[..3][..2] == s[..2] && s[..3][2] == s[2];
    BigEndianTwo(s[..2]);
    assert BigEndian(s[..3]) == BigEndian(s[..2]) * 0x100 + s[2] as nat;
  }

  /** Word `i` of a block, such as an entry of an indirect block, is in bytes 4i to 4i + 3. */
  lemma WordLayout(b: Block, i: nat)
    requires i < 128
    ensures WordsOf(b)[i] == BigEndian(b[4 * i..4 * i + 4])
  {
    BigEndianFour(b[4 * i..4 * i + 4]);
  }

  /** A block holds an inode: size, type, link count, 15 direct blocks, the indirect block, in this order. */
  ghost predicate HoldsInode(b: Block, i: Inode)
  {
    && BigEndian(b[0..4]) == i.size
    && BigEndian(b[4..6]) == i.kind
    && BigEndian(b[6..8]) == i.links
    && (forall k: nat | k < 15 :: BigEndian(b[8 + 4 * k..12 + 4 * k]) == i.direct[k])
    && BigEndian(b[68..72]) == i.indirect
    && (forall k: nat | k < 110 :: BigEndian(b[72 + 4 * k..76 + 4 * k]) == i.waste[k])
  }

  lemma HalvesLayout(b: Block)
    ensures WordsOf(b)[1] == BigEndian(b[4..6]) * 0x1_0000 + BigEndian(b[6..8])
    ensures BigEndian(b[4..6]) < 0x1_0000 && BigEndian(b[6..8]) < 0x1_0000
  {
    BigEndianTwo(b[4..6]);
    BigEndianTwo(b[6..8]);
  }

  /** What an inode is read from. */
  lemma InodeLayout(b: Block)
    ensures HoldsInode(b, DecodeInode(b))
  {
    hide WordsOf, BigEndian;
    var i := DecodeInode(b);
    WordLayout(b, 0);
    HalvesLayout(b);
    WordLayout(b, 17);
    forall k: nat | k < 15
      ensures BigEndian(b[8 + 4 * k..12 + 4 * k]) == i.direct[k]
    {
      WordLayout(b, 2 + k);
    }
    forall k: nat | k < 110
      ensures BigEndian(b[72 + 4 * k..76 + 4 * k]) == i.waste[k]
    {
      WordLayout(b, 18 + k);
    }
  }

  /** What an inode is written as. */
  lemma InodeEncoded(i: Inode)
    ensures HoldsInode(EncodeInode(i), i)
  {
    hide EncodeInode, DecodeInode, HoldsInode;
    InodeLayout(EncodeInode(i));
    InodeRoundTrip(i);
  }

  /** Equal numbers are equal bytes. */
  lemma {:induction false} BigEndianInjective(s: seq<byte>, t: seq<byte>)
    requires |s| == |t| && BigEndian(s) == BigEndian(t)
    ensures s == t
  {
    if s != [] {
      BigEndianInjective(s[..|s| - 1], t[..|t| - 1]);
    }
  }

  lemma SliceSame(b: Block, c: Block, lo: nat, hi: nat, p: nat)
    requires lo <= p < hi <= 512 && BigEndian(b[lo..hi]) == BigEndian(c[lo..hi])
    ensures b[p] == c[p]
  {
    BigEndianInjective(b[lo..hi], c[lo..hi]);
    assert b[lo..hi][p - lo] == c[lo..hi][p - lo];
  }

  /** So only one block holds a given inode. */
  lemma OneBlockHolds(b: Block, c: Block, i: Inode)
    requires HoldsInode(b, i) && HoldsInode(c, i)
    ensures b == c
  {
    hide BigEndian;
    forall p: nat | p < 512
      ensures b[p] == c[p]
    {
      if p < 4 {
        SliceSame(b, c, 0, 4, p);
      } else if p < 6 {
        SliceSame(b, c, 4, 6, p);
      } else if p < 8 {
        SliceSame(b, c, 6, 8, p);
      } else if p < 68 {
        var k := (p - 8) / 4;
        assert BigEndian(b[8 + 4 * k..12 + 4 * k]) == i.direct[k] && BigEndian(c[8 + 4 * k..12 + 4 * k]) == i.direct[k];
        SliceSame(b, c, 8 + 4 * k, 12 + 4 * k, p);
      } else if p < 72 {
        SliceSame(b, c, 68, 72, p);
      } else {
        var k := (p - 72) / 4;
        assert BigEndian(b[72 + 4 * k..76 + 4 * k]) == i.waste[k] && BigEndian(c[72 + 4 * k..76 + 4 * k]) == i.waste[k];
        SliceSame(b, c, 72 + 4 * k, 76 + 4 * k, p);
      }
    }
  }

  /** 64 bytes hold a directory entry: the inode number, the name, and a NUL unless the name takes 59 bytes. */
  ghost predicate HoldsEntry(s: seq<byte>, e: DirEntry)
    requires |s| == DIRENTSIZE
  {
    && BigEndian(s[0..4]) == e.ino
    && |e.name| <= 59 && s[4..4 + |e.name|] == e.name
    && (|e.name| < 59 ==> s[4 + |e.name|] == 0)
  }

  lemma {:induction false} CStringIs(s: seq<byte>)
    ensures var n := CString(s); |n| <= |s| && s[..|n|] == n && (|n| < |s| ==> s[|n|] == 0)
  {
    if s != [] && s[0] != 0 {
      CStringIs(s[1..]);
    }
  }

  lemma FirstPart(s: seq<byte>, lo: nat, hi: nat, n: nat)
    requires lo + n <= hi <= |s|
    ensures s[lo..hi][..n] == s[lo..lo + n] && (lo + n < hi ==> s[lo..hi][n] == s[lo + n])
  {
  }

  lemma EntryLayout(s: seq<byte>)
    requires |s| == DIRENTSIZE
    ensures HoldsEntry(s, DecodeEntry(s))
  {
    hide BigEndian, CString;
    BigEndianFour(s[0..4]);
    var name := s[4..63];
    CStringIs(name);
    FirstPart(s, 4, 63, |CString(name)|);
  }

  lemma EntryEncoded(e: DirEntry)
    requires |e.name| + 1 <= NAMELEN
    ensures HoldsEntry(EncodeEntry(e), e)
    ensures forall p: nat | 4 + |e.name| <= p < DIRENTSIZE :: EncodeEntry(e)[p] == 0
  {
    hide DecodeEntry, HoldsEntry;
    EntryLayout(EncodeEntry(e));
    EntryRoundTrip(e);
  }

  // ---- sizes of the free map ----

  /** SFS_BITMAPSIZE and SFS_BITBLOCKS: the map is a whole number of blocks. */
  function BitBlocks(nblocks: nat): (n: nat)
  {
    (nblocks + BLOCKBITS - 1) / BLOCKBITS
  }

  function BitmapSize(nblocks: nat): (n: nat)
    ensures nblocks <= n < nblocks + BLOCKBITS
    ensures n == BitBlocks(nblocks) * BLOCKBITS
  {
    (nblocks + BLOCKBITS - 1) / BLOCKBITS * BLOCKBITS
  }
}
