/**
 Making, mounting and remounting an SFS image (sbin/mksfs/mksfs.c,
 kern/fs/sfs/sfs_fs.c).
 */
module SfsMount {
  import opened Errno
  import opened Uios
  import opened Bitmaps
  import opened SfsLayout
  import opened SfsState
  import opened SfsTransfer
  import opened SfsDirectory
  import opened SfsOps
  import opened SfsImage
  import opened SfsFileSystem

  // ---- mksfs ----

  /** doallocbit: the bit must not have been allocated already. */
  method DoAllocBit(bitbuf: array<bv8>, bit: nat)
    requires bit < 8 * bitbuf.Length && !IsSet(bitbuf[..], bit)
    modifies bitbuf
    ensures forall i: nat {:trigger IsSet(bitbuf[..], i)} ::
              i < 8 * bitbuf.Length ==> IsSet(bitbuf[..], i) == (i == bit || old(IsSet(bitbuf[..], i)))
  {
    hide Mask, Bit;
    ghost var before := bitbuf[..];
    var ix, mask := bit / 8, Mask(bit % 8);
    bitbuf[ix] := bitbuf[ix] | mask;
    assert bitbuf[..] == WithBit(before, bit, true);
    forall i: nat | i < 8 * bitbuf.Length
      ensures IsSet(bitbuf[..], i) == (i == bit || IsSet(before, i))
    {
      WithBitAt(before, bit, true, i);
    }
  }

  const MAXBITBLOCKS := 32

  /** The marking part of writebitmap: exactly the new file system's own blocks and the numbers past the end. */
  method FillBitmap(fsblocks: nat) returns (bitbuf: array<bv8>)
    requires MAP_LOCATION + BitBlocks(fsblocks) <= fsblocks && BitBlocks(fsblocks) <= MAXBITBLOCKS
    ensures fresh(bitbuf) && bitbuf.Length == MAXBITBLOCKS * BLOCKSIZE
    ensures forall i: nat {:trigger IsSet(bitbuf[..], i)} ::
              i < BitmapSize(fsblocks) ==> IsSet(bitbuf[..], i) == FreshMark(fsblocks, i)
  {
    bitbuf := new bv8[MAXBITBLOCKS * BLOCKSIZE](_ => 0);
    var nbits, nblocks := BitmapSize(fsblocks), BitBlocks(fsblocks);
    assert forall i: nat {:trigger IsSet(bitbuf[..], i)} :: i < 8 * bitbuf.Length ==> !IsSet(bitbuf[..], i) by {
      NoBits();
    }
    hide IsSet;
    DoAllocBit(bitbuf, SB_LOCATION);
    DoAllocBit(bitbuf, ROOT_LOCATION);
    for i := 0 to nblocks
      invariant forall j: nat {:trigger IsSet(bitbuf[..], j)} ::
          j < 8 * bitbuf.Length ==> IsSet(bitbuf[..], j) == (j < MAP_LOCATION + i)
    {
      DoAllocBit(bitbuf, MAP_LOCATION + i);
    }
    for i := fsblocks to nbits
      invariant forall j: nat {:trigger IsSet(bitbuf[..], j)} ::
          j < 8 * bitbuf.Length ==> IsSet(bitbuf[..], j) == (j < MAP_LOCATION + nblocks || fsblocks <= j < i)
    {
      DoAllocBit(bitbuf, i);
    }
  }

  /** struct sfs_super with the volume name given. */
  function EncodeSuper(nblocks: word, volname: Name): (b: Block)
    requires |volname| < 32
  {
    [ByteOf(SFS_MAGIC, 0), ByteOf(SFS_MAGIC, 1), ByteOf(SFS_MAGIC, 2), ByteOf(SFS_MAGIC, 3)]
    + [ByteOf(nblocks, 0), ByteOf(nblocks, 1), ByteOf(nblocks, 2), ByteOf(nblocks, 3)]
    + volname + seq(504 - |volname|, _ => 0)
  }

  lemma SuperIs(nblocks: word, volname: Name)
    requires |volname| < 32
    ensures SuperOk(EncodeSuper(nblocks, volname), nblocks)
  {
    WordRoundTrip(nblocks);
    var b := EncodeSuper(nblocks, volname);
    assert Word(b, 0) == SFS_MAGIC;
    assert Word(b, 1) == nblocks;
  }

  /** The superblock as bytes: magic number, size, volume name, zeros. */
  ghost predicate SuperBytes(b: Block, nblocks: nat, volname: Name)
  {
    && |volname| < 32
    && BigEndian(b[0..4]) == 0xabad_f001 && BigEndian(b[4..8]) == nblocks
    && b[8..8 + |volname|] == volname && forall p: nat | 8 + |volname| <= p < 512 :: b[p] == 0
  }

  /** The root inode as bytes: a directory with one link and nothing else. */
  ghost predicate RootBytes(b: Block)
  {
    forall p: nat | p < 512 :: b[p] == if p == 5 then 2 else if p == 7 then 1 else 0
  }

  lemma SuperEncoded(nblocks: word, volname: Name)
    requires |volname| < 32
    ensures SuperBytes(EncodeSuper(nblocks, volname), nblocks, volname)
  {
    var b := EncodeSuper(nblocks, volname);
    BigEndianFour(b[0..4]);
    BigEndianFour(b[4..8]);
    WordRoundTrip(nblocks);
  }

  lemma RootEncoded()
    ensures RootBytes(EncodeInode(EmptyInode(TYPE_DIR).(links := 1)))
  {
    var w := WordsOfInode(EmptyInode(TYPE_DIR).(links := 1));
    assert w[1] == 0x2_0001;
    assert forall j: nat | j < 128 && j != 1 :: w[j] == 0;
  }

  /**
   mksfs on a device with arbitrary old contents. A name that is too long is
   refused before anything is written, a device too large for the map buffer
   only when the superblock and the root inode are already out.
   */
  method Mksfs(dev: seq<Block>, volname: Name) returns (ok: bool, image: seq<Block>)
    requires MAP_LOCATION + BitBlocks(|dev|) <= |dev| < 0x1_0000_0000
    ensures |image| == |dev|
    ensures ok <==> |volname| < 32 && BitBlocks(|dev|) <= MAXBITBLOCKS
    ensures ok ==> FreshImage(image) && MapSynced(FreshState(image))
    ensures ok ==> Whole(FreshState(image)) && AbsOf(FreshState(image)) == AbsFs(map[], map[], map[])
    ensures |volname| >= 32 ==> image == dev
    ensures |volname| < 32 ==> SuperBytes(image[SB_LOCATION], |dev|, volname) && RootBytes(image[ROOT_LOCATION])
    ensures !ok ==> image[MAP_LOCATION..] == dev[MAP_LOCATION..]
  {
    hide EncodeSuper, EncodeInode, DecodeInode, MapBlockIs, WordsOf, BlockOfBits, Whole, AbsOf, SuperBytes, RootBytes;
    var size := |dev|;
    image := dev;
    if |volname| >= 32 {
      return false, image;
    }
    SuperIs(size, volname);
    SuperEncoded(size, volname);
    image := image[SB_LOCATION := EncodeSuper(size, volname)];
    var root := EmptyInode(TYPE_DIR).(links := 1);
    InodeRoundTrip(root);
    RootEncoded();
    image := image[ROOT_LOCATION := EncodeInode(root)];
    if BitBlocks(size) > MAXBITBLOCKS {
      return false, image;
    }
    var bitbuf := FillBitmap(size);
    image := WriteMap(image, bitbuf);
    ghost var bits := bitbuf[..512 * BitBlocks(size)];
    FreshMarks(size, bitbuf[..], bits);
    MapOnDisk(FreshState(image), bits);
    FreshIsEmpty(image);
    ok := true;
  }

  lemma FreshMarks(n: nat, all: seq<bv8>, bits: seq<bv8>)
    requires MAP_LOCATION + BitBlocks(n) <= n && 512 * BitBlocks(n) <= |all| && bits == all[..512 * BitBlocks(n)]
    requires forall i: nat {:trigger IsSet(all, i)} :: i < BitmapSize(n) ==> IsSet(all, i) == FreshMark(n, i)
    ensures MarkedIn(bits, BitmapSize(n)) == FreshOwner(n).Keys + Beyond(n)
  {
    hide Bit, Mask;
    forall i: nat | i < BitmapSize(n)
      ensures IsSet(bits, i) == FreshMark(n, i)
    {
      assert IsSet(bits, i) == IsSet(all, i);
    }
    forall i: nat
      ensures i in MarkedIn(bits, BitmapSize(n)) <==> i in FreshOwner(n).Keys + Beyond(n)
    {
      assert i in Beyond(n) <==> Past(n, i);
    }
  }

  /** The writing part of writebitmap. */
  method WriteMap(dev: seq<Block>, bitbuf: array<bv8>) returns (image: seq<Block>)
    requires MAP_LOCATION + BitBlocks(|dev|) <= |dev| && 512 * BitBlocks(|dev|) <= bitbuf.Length
    ensures |image| == |dev|
    ensures image[SB_LOCATION] == dev[SB_LOCATION] && image[ROOT_LOCATION] == dev[ROOT_LOCATION]
    ensures forall j: nat | j < BitBlocks(|dev|) :: MapBlockIs(image, j, bitbuf[..512 * BitBlocks(|dev|)])
  {
    hide MapBlockIs, BlockOfBits;
    image := dev;
    ghost var bits := bitbuf[..512 * BitBlocks(|dev|)];
    for i := 0 to BitBlocks(|dev|)
      invariant |image| == |dev| && image[..MAP_LOCATION] == dev[..MAP_LOCATION]
      invariant forall j: nat | j < i :: MapBlockIs(image, j, bits)
    {
      ghost var before := image;
      assert bitbuf[i * 512..(i + 1) * 512] == bits[i * 512..(i + 1) * 512];
      image := image[MAP_LOCATION + i := BlockOfBits(bitbuf[i * 512..(i + 1) * 512])];
      MapBlockWritten(before, image, bits, i);
    }
    assert image[..MAP_LOCATION][SB_LOCATION] == dev[..MAP_LOCATION][SB_LOCATION];
    assert image[..MAP_LOCATION][ROOT_LOCATION] == dev[..MAP_LOCATION][ROOT_LOCATION];
  }

  // ---- mount ----

  /** sfs_mapio, reading: the device's map blocks fill the bitmap. */
  method MapIoRead(freemap: Bitmap, dev: seq<Block>)
    requires freemap.nbits == BitmapSize(|dev|) && freemap.v.Length == 512 * BitBlocks(|dev|)
    requires MAP_LOCATION + BitBlocks(|dev|) <= |dev|
    modifies freemap.v
    ensures forall j: nat | j < BitBlocks(|dev|) :: MapBlockIs(dev, j, freemap.v[..])
  {
    for j := 0 to BitBlocks(|dev|)
      invariant forall i: nat | i < j :: MapBlockIs(dev, i, freemap.v[..])
    {
      ghost var before := freemap.v[..];
      ReadMapBlock(freemap.v, j, dev[MAP_LOCATION + j]);
      MapBlockRead(dev, before, freemap.v[..], j);
    }
  }

  method ReadMapBlock(v: array<bv8>, j: nat, blk: Block)
    requires (j + 1) * 512 <= v.Length
    modifies v
    ensures v[..] == old(v[..j * 512]) + BitsOfBlock(blk) + old(v[(j + 1) * 512..])
  {
    ghost var before := v[..];
    forall i | 0 <= i < 512 {
      v[j * 512 + i] := blk[i] as bv8;
    }
    forall p | 0 <= p < v.Length
      ensures v[p] == (before[..j * 512] + BitsOfBlock(blk) + before[(j + 1) * 512..])[p]
    {
      if j * 512 <= p < (j + 1) * 512 {
        assert v[j * 512 + (p - j * 512)] == blk[p - j * 512] as bv8;
      }
    }
  }

  lemma MapBlockRead(dev: seq<Block>, before: seq<bv8>, after: seq<bv8>, j: nat)
    requires (j + 1) * 512 <= |before| && MAP_LOCATION + j < |dev|
    requires after == before[..j * 512] + BitsOfBlock(dev[MAP_LOCATION + j]) + before[(j + 1) * 512..]
    requires forall i: nat | i < j :: MapBlockIs(dev, i, before)
    ensures forall i: nat | i < j + 1 :: MapBlockIs(dev, i, after)
  {
    hide BitsOfBlock;
    forall i: nat | i < j + 1
      ensures MapBlockIs(dev, i, after)
    {
      if i < j {
        assert MapBlockIs(dev, i, before);
        assert (i + 1) * 512 <= j * 512;
        assert after[i * 512..(i + 1) * 512] == before[i * 512..(i + 1) * 512];
      } else {
        assert after[j * 512..(j + 1) * 512] == BitsOfBlock(dev[MAP_LOCATION + j]);
      }
    }
  }

  /**
   sfs_domount: refuse a device of the wrong sector size or without the magic
   number; otherwise the blocks the superblock counts, their own free map, and
   no vnodes. The device may be larger than the file system.
   */
  method DoMount(blocksize: nat, dev: seq<Block>, ghost owner: map<nat, Slot>) returns (result: Errno, fs: Sfs?)
    requires |dev| > 0
    requires WordsOf(dev[SB_LOCATION])[0] == SFS_MAGIC ==>
               var n := WordsOf(dev[SB_LOCATION])[1]; MAP_LOCATION + BitBlocks(n) <= n <= |dev|
    ensures result == (if blocksize != BLOCKSIZE then ENXIO
                       else if WordsOf(dev[SB_LOCATION])[0] != SFS_MAGIC then EINVAL
                       else Success)
    ensures result != Success ==> fs == null
    ensures result == Success ==>
              && fs != null && fresh(fs) && fresh(fs.freemap) && fresh(fs.freemap.v)
              && fs.Wf() && WordsOf(dev[SB_LOCATION])[1] <= |dev|
              && fs.disk == dev[..WordsOf(dev[SB_LOCATION])[1]] && fs.vnodes == map[] && !fs.freemapdirty && fs.owner == owner
              && MountedMap(fs.St())
  {
    hide WordsOf, MapBlockIs, DiskBit;
    if blocksize != BLOCKSIZE {
      return ENXIO, null;
    }
    if WordsOf(dev[SB_LOCATION])[0] != SFS_MAGIC {
      return EINVAL, null;
    }
    var nblocks := WordsOf(dev[SB_LOCATION])[1];
    var freemap := new Bitmap(BitmapSize(nblocks));
    MapIoRead(freemap, dev[..nblocks]);
    fs := new Sfs(nblocks, dev[..nblocks], freemap, owner);
    MapOnDisk(fs.St(), freemap.v[..]);
    return Success, fs;
  }

  /** The free map in memory is the one found on the device. */
  ghost predicate MountedMap(s: State)
  {
    && (forall b: nat {:trigger DiskBit(s, b)} | b < BitmapSize(|s.disk|) :: DiskBit(s, b) <==> b in s.used)
    && (forall b | b in s.used :: b < BitmapSize(|s.disk|))
  }

  /** A mounted map and a synced one that live on the same device are the same map. */
  lemma SameMap(s: State, t: State)
    requires Inv(s) && !s.mapdirty && MountedMap(t) && t.disk == s.disk
    ensures t.used == s.used
  {
    hide DiskBit;
    SameDiskBits(s, t);
    assert MapSynced(s);
    forall b: nat
      ensures b in t.used <==> b in s.used
    {
      if b in s.used {
        UsedInRange(s, b);
      }
      if b < BitmapSize(|s.disk|) {
        assert DiskBit(s, b) == DiskBit(t, b);
      }
    }
  }

  lemma UsedInRange(s: State, b: nat)
    requires Inv(s) && b in s.used
    ensures b < BitmapSize(|s.disk|)
  {
  }
}
