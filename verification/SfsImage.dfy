/**
 The device image between mounts: what sfs_sync leaves on the device is what
 mounting reads back, and what mksfs writes is an empty file system.
 */
module SfsImage {
  import opened Uios
  import opened Bitmaps
  import opened SfsLayout
  import opened SfsState
  import opened SfsTransfer
  import opened SfsDirectory
  import opened SfsOps

  // ---- the free map as device blocks ----

  function BlockOfBits(bits: seq<bv8>): (b: Block)
    requires |bits| == 512
  {
    seq(512, i requires 0 <= i < 512 => bits[i] as byte)
  }

  function BitsOfBlock(b: Block): (bits: seq<bv8>)
    ensures |bits| == 512
  {
    seq(512, i requires 0 <= i < 512 => b[i] as bv8)
  }

  /** Map block `j` of the device holds the bits `bits`. */
  ghost predicate MapBlockIs(disk: seq<Block>, j: nat, bits: seq<bv8>)
    requires (j + 1) * 512 <= |bits|
  {
    MAP_LOCATION + j < |disk| && BitsOfBlock(disk[MAP_LOCATION + j]) == bits[j * 512..(j + 1) * 512]
  }

  lemma BlockOfBitsIs(bits: seq<bv8>)
    requires |bits| == 512
    ensures BitsOfBlock(BlockOfBits(bits)) == bits
  {
  }

  lemma BitPosition(b: nat)
    ensures b / 8 == b / BLOCKBITS * 512 + b % BLOCKBITS / 8
    ensures b / BLOCKBITS * 512 <= b / 8 < (b / BLOCKBITS + 1) * 512
  {
  }

  /** If the map blocks hold `bits`, the device's bits are those of `bits`. */
  lemma DiskBitIs(s: State, bits: seq<bv8>, b: nat)
    requires b < 8 * |bits| && |bits| == 512 * BitBlocks(|s.disk|)
    requires forall j: nat | j < BitBlocks(|s.disk|) :: MapBlockIs(s.disk, j, bits)
    ensures DiskBit(s, b) <==> IsSet(bits, b)
  {
    hide Bit;
    BitPosition(b);
    var j := b / BLOCKBITS;
    assert MapBlockIs(s.disk, j, bits);
    MapByte(BlockAt(s, MAP_LOCATION + j), bits, j, b % BLOCKBITS / 8);
  }

  lemma MapByte(blk: Block, bits: seq<bv8>, j: nat, i: nat)
    requires i < 512 && (j + 1) * 512 <= |bits| && BitsOfBlock(blk) == bits[j * 512..(j + 1) * 512]
    ensures blk[i] as bv8 == bits[j * 512 + i]
  {
  }

  lemma MapOnDisk(s: State, bits: seq<bv8>)
    requires |bits| == 512 * BitBlocks(|s.disk|)
    requires forall j: nat | j < BitBlocks(|s.disk|) :: MapBlockIs(s.disk, j, bits)
    requires s.used == MarkedIn(bits, BitmapSize(|s.disk|))
    ensures forall b: nat {:trigger DiskBit(s, b)} | b < BitmapSize(|s.disk|) :: DiskBit(s, b) <==> b in s.used
  {
    hide Bit, DiskBit, MapBlockIs;
    forall b: nat | b < BitmapSize(|s.disk|)
      ensures DiskBit(s, b) <==> b in s.used
    {
      DiskBitIs(s, bits, b);
    }
  }

  // ---- writing the free map ----

  /** Only blocks of the free map differ. */
  ghost predicate OnlyMapDiffers(s: State, s': State)
  {
    && |s'.disk| == |s.disk| && s'.used == s.used && s'.vnodes == s.vnodes && s'.owner == s.owner
    && forall b | b in s.owner && !s.owner[b].MapBlock? :: BlockAt(s', b) == BlockAt(s, b)
  }

  lemma FileOffMap(s: State, s': State, x: nat)
    requires Owned(s) && OnlyMapDiffers(s, s') && Live(s, x)
    ensures InodeOf(s', x) == InodeOf(s, x)
    ensures forall k: nat | k < MAXBLOCKS :: Ptr(s', InodeOf(s, x), k) == Ptr(s, InodeOf(s, x), k)
    ensures Kept(s, s', x)
  {
    hide WordsOf, DecodeInode;
    var i := InodeOf(s, x);
    assert InodeOf(s', x) == i;
    IndirectInRange(s, x);
    forall k: nat | k < MAXBLOCKS
      ensures Ptr(s', i, k) == Ptr(s, i, k)
      ensures Ptr(s, i, k) != 0 ==> BlockAt(s', Ptr(s, i, k)) == BlockAt(s, Ptr(s, i, k))
    {
      PtrInRange(s, x, k);
      SamePtr(s, s', i, k);
    }
    SameBytes(s, s', i);
  }

  /** File `x` has the same inode and the same block map in both states, and reads the same. */
  ghost predicate SameFile(s: State, s': State, x: nat)
  {
    && InodeOf(s', x) == InodeOf(s, x)
    && (forall k: nat | k < MAXBLOCKS :: Ptr(s', InodeOf(s, x), k) == Ptr(s, InodeOf(s, x), k))
    && Kept(s, s', x)
  }

  ghost predicate SameOwners(s: State, s': State)
  {
    && |s'.disk| == |s.disk| && s'.used == s.used && s'.owner == s.owner
    && BlockAt(s', SB_LOCATION) == BlockAt(s, SB_LOCATION)
    && s'.vnodes.Keys <= s.vnodes.Keys
    && forall x | Live(s, x) :: SameFile(s, s', x)
  }

  lemma StillOwned(s: State, s': State)
    requires Owned(s) && SameOwners(s, s')
    ensures Owned(s')
  {
    hide View, Ptr, InodeOf, WordsOf, MapKept, BlockAt, Beyond;
    forall x | Live(s', x)
      ensures FileOwned(s', x)
    {
      assert FileOwned(s, x) && SameFile(s, s', x);
      forall k: nat | k < MAXBLOCKS
        ensures PtrOwned(s', x, k)
      {
        assert PtrOwned(s, x, k);
      }
    }
    forall b | b in s'.owner
      ensures OwnerOk(s', b)
    {
      assert OwnerOk(s, b);
      if s.owner[b].IndirectBlock? || s.owner[b].DataBlock? {
        assert SameFile(s, s', s.owner[b].ino);
      }
    }
    forall i: nat | i < BitBlocks(|s'.disk|)
      ensures MapOwned(s', i)
    {
      assert MapOwned(s, i);
    }
  }

  lemma AllFilesSame(s: State, s': State)
    requires Inv(s) && SameOwners(s, s') && Coherent(s') && MapSynced(s')
    ensures Inv(s') && SameFiles(s, s')
  {
    hide View, Ptr, InodeOf, Owned, MapKept, MapSynced;
    StillOwned(s, s');
    forall x | Live(s, x)
      ensures Kept(s, s', x) && FileOk(s', x, 0)
    {
      assert SameFile(s, s', x) && FileOk(s, x, 0);
    }
  }

  /** Writing the free map to its own blocks changes no file. */
  lemma MapWritten(s: State, s': State)
    requires Inv(s) && OnlyMapDiffers(s, s') && MapSynced(s')
    ensures Inv(s') && SameFiles(s, s')
  {
    hide View, Ptr, MapSynced, DecodeInode, WordsOf;
    forall x | Live(s, x)
      ensures SameFile(s, s', x)
    {
      FileOffMap(s, s', x);
    }
    forall x | x in s'.vnodes
      ensures Clean(s', x)
    {
      assert Live(s, x) && Clean(s, x);
    }
    AllFilesSame(s, s');
  }

  // ---- mounting a synced image ----

  /** The state that mounting finds: the same device, nothing cached. */
  ghost function Remounted(s: State): (s': State)
  {
    s.(vnodes := map[])
  }

  /** Every vnode and the free map have been written out. */
  ghost predicate AllSynced(s: State)
  {
    !s.mapdirty && forall x | x in s.vnodes :: !s.vnodes[x].dirty
  }

  lemma FileRemounted(s: State, x: nat)
    requires Inv(s) && AllSynced(s) && Live(s, x)
    ensures SameFile(s, Remounted(s), x)
  {
    hide DecodeInode, WordsOf;
    if x in s.vnodes {
      assert Clean(s, x);
    }
    var s' := Remounted(s);
    var i := InodeOf(s, x);
    forall k: nat | k < MAXBLOCKS
      ensures SameSpot(s, i, s', i, k)
    {
    }
    SameContents(s, i, s', i);
  }

  /** Mounting a synced image finds every file as it was, and every block owned as it was. */
  lemma RemountKeepsFiles(s: State)
    requires Inv(s) && AllSynced(s)
    ensures Inv(Remounted(s)) && SameFiles(s, Remounted(s))
  {
    hide View, Ptr, DecodeInode, DiskBit;
    var s' := Remounted(s);
    forall x | Live(s, x)
      ensures SameFile(s, s', x)
    {
      FileRemounted(s, x);
    }
    SameDiskBits(s, s');
    AllFilesSame(s, s');
  }

  lemma SameDiskBits(s: State, s': State)
    requires s'.disk == s.disk
    ensures forall b: nat {:trigger DiskBit(s', b)} :: DiskBit(s', b) == DiskBit(s, b)
  {
  }

  /** Mounting a synced image yields a consistent file system with the same names and files. */
  lemma RemountIsFaithful(s: State)
    requires Whole(s) && AllSynced(s)
    ensures Whole(Remounted(s)) && AbsOf(Remounted(s)) == AbsOf(s).(refs := map[])
  {
    hide View, InvWriting, NameMap, Entries, NamesUnique, NoHoles, FilesOf, EntriesLive;
    var s' := Remounted(s);
    RemountKeepsFiles(s);
    RootLive(s);
    DirSame(s, s');
    FilesSame(s, s');
    assert RefsOf(s') == map[];
    forall x | Live(s', x)
      ensures LinkOk(s', x)
    {
      assert Live(s, x) && Kept(s, s', x) && LinkOk(s, x);
    }
  }

  // ---- the image mksfs writes ----

  /** Who owns the blocks of a new file system. */
  ghost function FreshOwner(nblocks: nat): (m: map<nat, Slot>)
  {
    map b: nat | b < MAP_LOCATION + BitBlocks(nblocks) :: FreshSlot(b)
  }

  function FreshSlot(b: nat): (t: Slot)
  {
    if b == SB_LOCATION then Super else if b == ROOT_LOCATION then InodeBlock(ROOT_LOCATION) else MapBlock(b - MAP_LOCATION)
  }

  /** The numbers mksfs marks: its own blocks and those past the end of the device. */
  predicate FreshMark(nblocks: nat, b: nat)
  {
    b < MAP_LOCATION + BitBlocks(nblocks) || b >= nblocks
  }

  ghost predicate FreshImage(disk: seq<Block>)
  {
    var n := |disk|;
    && MAP_LOCATION + BitBlocks(n) <= n < 0x1_0000_0000
    && SuperOk(disk[SB_LOCATION], n)
    && DecodeInode(disk[ROOT_LOCATION]) == EmptyInode(TYPE_DIR).(links := 1)
  }

  ghost function FreshState(disk: seq<Block>): (s: State)
  {
    State(disk, FreshOwner(|disk|).Keys + Beyond(|disk|), false, map[], FreshOwner(|disk|))
  }

  lemma FreshRoot(disk: seq<Block>)
    requires FreshImage(disk)
    ensures View(FreshState(disk), ROOT_LOCATION) == FileView(0, TYPE_DIR, 1, Zeros())
  {
  }

  /** A new file system is consistent and empty. */
  lemma FreshIsEmpty(disk: seq<Block>)
    requires FreshImage(disk) && MapSynced(FreshState(disk))
    ensures var s := FreshState(disk); Whole(s) && AbsOf(s) == AbsFs(map[], map[], map[])
  {
    hide DecodeInode, WordsOf, MapSynced, View, Bytes;
    var s := FreshState(disk);
    FreshRoot(disk);
    var i := InodeOf(s, ROOT_LOCATION);
    assert i == EmptyInode(TYPE_DIR).(links := 1);
    assert forall k: nat | k < MAXBLOCKS :: Ptr(s, i, k) == 0;
    forall x | Live(s, x)
      ensures x == ROOT_LOCATION
    {
    }
    assert Owned(s) by {
      assert Fixed(s) by {
        forall j: nat | j < BitBlocks(|disk|)
          ensures MapOwned(s, j)
        {
        }
      }
      forall b | b in s.owner
        ensures OwnerOk(s, b)
      {
      }
    }
    assert TailClear(View(s, ROOT_LOCATION));
    assert Dir(s) == [];
    assert SlotsNaming(Dir(s), ROOT_LOCATION) == {};
    assert NameMap(Dir(s)) == map[];
    assert FilesOf(s) == map[];
  }
}
