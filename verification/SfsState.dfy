/**
 The state of a mounted SFS as a value: the device, the free map, the cached
 inodes, and (for specification only) which structure owns each block. The
 lemmas say what each elementary change does to block ownership and to what
 every file contains.
 */
module SfsState {
  import opened Uios
  import opened Bitmaps
  import opened SfsLayout

  /** A vnode in memory: its copy of the inode, sv_dirty and vn_refcount. */
  datatype Vnode = Vnode(inode: Inode, dirty: bool, refs: nat)

  /** The places that can own a block. */
  datatype Slot =
    | Super
    | MapBlock(i: nat)
    | InodeBlock(ino: nat)
    | IndirectBlock(ino: nat)
    | DataBlock(ino: nat, k: nat)

  datatype State = State(disk: seq<Block>, used: set<nat>, mapdirty: bool, vnodes: map<nat, Vnode>, owner: map<nat, Slot>)

  /** What a file is to its users: the bytes are zero-extended to the mappable size. */
  datatype FileView = FileView(size: nat, kind: nat, links: nat, bytes: seq<byte>)

  function BlockAt(s: State, b: nat): (r: Block)
  {
    if b < |s.disk| then s.disk[b] else ZeroBlock()
  }

  /** The inode in force: the cached copy if there is one, else the one on disk. */
  function InodeOf(s: State, ino: nat): (i: Inode)
  {
    if ino in s.vnodes then s.vnodes[ino].inode else DecodeInode(BlockAt(s, ino))
  }

  /** Entry `k` of an inode's block map (0 means no block). */
  function Ptr(s: State, i: Inode, k: nat): (b: word)
  {
    if k < NDIRECT then i.direct[k]
    else if k < MAXBLOCKS && i.indirect != 0 then WordsOf(BlockAt(s, i.indirect))[k - NDIRECT]
    else 0
  }

  function FileByte(s: State, i: Inode, p: nat): (x: byte)
  {
    var b := Ptr(s, i, p / BLOCKSIZE);
    if b == 0 then 0 else BlockAt(s, b)[p % BLOCKSIZE]
  }

  function Bytes(s: State, i: Inode): (r: seq<byte>)
    ensures |r| == MAXBYTES
  {
    seq(MAXBYTES, p requires 0 <= p < MAXBYTES => FileByte(s, i, p))
  }

  function View(s: State, ino: nat): (v: FileView)
  {
    var i := InodeOf(s, ino);
    FileView(i.size, i.kind, i.links, Bytes(s, i))
  }

  // ---- ownership ----

  predicate Live(s: State, ino: nat)
  {
    ino in s.owner && s.owner[ino] == InodeBlock(ino)
  }

  /** Slot `t` really does hold block `b`. */
  ghost predicate Holds(s: State, t: Slot, b: nat)
  {
    match t
    case Super => b == SB_LOCATION
    case MapBlock(i) => i < BitBlocks(|s.disk|) && b == MAP_LOCATION + i
    case InodeBlock(ino) => b == ino
    case IndirectBlock(ino) => Live(s, ino) && b == InodeOf(s, ino).indirect
    case DataBlock(ino, k) => Live(s, ino) && k < MAXBLOCKS && b == Ptr(s, InodeOf(s, ino), k)
  }

  ghost predicate OwnerOk(s: State, b: nat)
    requires b in s.owner
  {
    && b < |s.disk|
    && (b == 0 <==> s.owner[b] == Super)
    && Holds(s, s.owner[b], b)
  }

  ghost predicate IndirectOwned(s: State, ino: nat)
  {
    var b := InodeOf(s, ino).indirect;
    b != 0 ==> b in s.owner && s.owner[b] == IndirectBlock(ino)
  }

  ghost predicate PtrOwned(s: State, ino: nat, k: nat)
  {
    var b := Ptr(s, InodeOf(s, ino), k);
    b != 0 ==> b in s.owner && s.owner[b] == DataBlock(ino, k)
  }

  ghost predicate FileOwned(s: State, ino: nat)
  {
    IndirectOwned(s, ino) && forall k: nat | k < MAXBLOCKS :: PtrOwned(s, ino, k)
  }

  predicate Past(nblocks: nat, b: nat)
  {
    nblocks <= b < BitmapSize(nblocks)
  }

  /** The numbers in the free map past the end of the device. */
  function Beyond(nblocks: nat): (r: set<nat>)
  {
    set b: nat {:trigger Past(nblocks, b)} | nblocks <= b < BitmapSize(nblocks) && Past(nblocks, b)
  }

  ghost predicate MapOwned(s: State, i: nat)
  {
    MAP_LOCATION + i in s.owner && s.owner[MAP_LOCATION + i] == MapBlock(i)
  }

  /** Block 0 holds the superblock of this file system. */
  ghost predicate SuperOk(b: Block, nblocks: nat)
  {
    WordsOf(b)[0] == SFS_MAGIC && WordsOf(b)[1] == nblocks
  }

  ghost predicate Fixed(s: State)
  {
    && |s.disk| < 0x1_0000_0000
    && SuperOk(BlockAt(s, SB_LOCATION), |s.disk|)
    && 0 in s.owner && s.owner[0] == Super
    && Live(s, ROOT_LOCATION)
    && forall i: nat | i < BitBlocks(|s.disk|) :: MapOwned(s, i)
  }

  /**
   Every block is owned at most once, and the free map marks exactly the
   owned blocks and the numbers past the end of the device.
   */
  ghost predicate Owned(s: State)
  {
    && Fixed(s)
    && (forall b | b in s.owner :: OwnerOk(s, b))
    && (forall ino | Live(s, ino) :: FileOwned(s, ino))
    && (forall ino | ino in s.vnodes :: Live(s, ino))
    && s.used == s.owner.Keys + Beyond(|s.disk|)
  }

  /** Bit `b` of the free map on the device. */
  ghost predicate DiskBit(s: State, b: nat)
  {
    Bit(BlockAt(s, MAP_LOCATION + b / BLOCKBITS)[b % BLOCKBITS / 8] as bv8, b % 8)
  }

  /** The free map in memory is the one on the device, unless marked dirty. */
  ghost predicate MapSynced(s: State)
  {
    !s.mapdirty ==> forall b: nat {:trigger DiskBit(s, b)} | b < BitmapSize(|s.disk|) :: DiskBit(s, b) <==> b in s.used
  }

  /** A cached inode that is not dirty equals its disk block. */
  ghost predicate Clean(s: State, ino: nat)
    requires ino in s.vnodes
  {
    !s.vnodes[ino].dirty ==> DecodeInode(BlockAt(s, ino)) == s.vnodes[ino].inode
  }

  ghost predicate Coherent(s: State)
  {
    forall ino | ino in s.vnodes :: Clean(s, ino)
  }

  /** Nothing but zeros is stored past the end of a file. */
  ghost predicate TailClear(v: FileView)
    requires |v.bytes| == MAXBYTES
  {
    forall p: nat | v.size <= p < MAXBYTES :: v.bytes[p] == 0
  }

  /** `w` is the file whose write is in progress (0 for none): its size is not up to date yet. */
  ghost predicate FileOk(s: State, ino: nat, w: nat)
  {
    && (ino != w ==> TailClear(View(s, ino)))
    && View(s, ino).size < 0x8000_0000
    && View(s, ino).kind == if ino == ROOT_LOCATION then TYPE_DIR else TYPE_FILE
  }

  ghost predicate FilesOk(s: State, w: nat)
  {
    forall ino | Live(s, ino) :: FileOk(s, ino, w)
  }

  /** What holds throughout a write to file `w`. */
  ghost predicate InvWriting(s: State, w: nat)
  {
    Owned(s) && MapSynced(s) && Coherent(s) && FilesOk(s, w)
  }

  /** What holds between operations. */
  ghost predicate Inv(s: State)
  {
    InvWriting(s, 0)
  }

  // ---- consequences ----

  /** Two slots of live structures never hold the same block. */
  lemma SlotsDisjoint(s: State, t: Slot, u: Slot, b: nat)
    requires Owned(s) && b != 0
    requires Holds(s, t, b) && Holds(s, u, b)
    requires t.InodeBlock? ==> Live(s, t.ino)
    requires u.InodeBlock? ==> Live(s, u.ino)
    ensures t == u
  {
    SlotIsOwner(s, t, b);
    SlotIsOwner(s, u, b);
  }

  lemma SlotIsOwner(s: State, t: Slot, b: nat)
    requires Owned(s) && b != 0
    requires Holds(s, t, b)
    requires t.InodeBlock? ==> Live(s, t.ino)
    ensures b in s.owner && s.owner[b] == t
  {
    match t
    case Super =>
    case MapBlock(i) => assert MapOwned(s, i);
    case InodeBlock(ino) =>
    case IndirectBlock(ino) => assert FileOwned(s, ino);
    case DataBlock(ino, k) => assert FileOwned(s, ino); assert PtrOwned(s, ino, k);
  }

  // ---- changing one file ----

  /** Slots that are part of file `ino`. */
  predicate Belongs(t: Slot, ino: nat)
  {
    (t.InodeBlock? || t.IndirectBlock? || t.DataBlock?) && t.ino == ino
  }

  ghost predicate SameVnode(s: State, s': State, x: nat)
  {
    && (x in s.vnodes <==> x in s'.vnodes)
    && (x in s.vnodes ==> s'.vnodes[x] == s.vnodes[x])
  }

  /** Block `b`, owned by something other than `ino`, keeps its owner and its contents. */
  ghost predicate SameBlock(s: State, s': State, b: nat)
  {
    && (b in s.owner <==> b in s'.owner)
    && (b in s.owner ==> s'.owner[b] == s.owner[b] && BlockAt(s', b) == BlockAt(s, b))
  }

  predicate Elsewhere(s: State, ino: nat, b: nat)
  {
    b in s.owner && !Belongs(s.owner[b], ino)
  }

  /** `s` and `s'` differ in file `ino` only. */
  ghost predicate AgreeOff(s: State, s': State, ino: nat)
  {
    && |s'.disk| == |s.disk|
    && (s'.mapdirty || (!s.mapdirty && s'.used == s.used))
    && (forall x | x != ino :: SameVnode(s, s', x))
    && (forall b | Elsewhere(s, ino, b) || Elsewhere(s', ino, b) :: SameBlock(s, s', b))
  }

  /** No block of file `x` was taken away. */
  ghost predicate MapKept(s: State, s': State, x: nat)
  {
    forall k: nat | k < MAXBLOCKS :: Ptr(s, InodeOf(s, x), k) != 0 ==> Ptr(s', InodeOf(s', x), k) != 0
  }

  ghost predicate Kept(s: State, s': State, x: nat)
  {
    Live(s', x) && View(s', x) == View(s, x) && MapKept(s, s', x)
  }

  /** Every file but `ino` is there in both states or in neither, and is the same. */
  ghost predicate OthersKept(s: State, s': State, ino: nat)
  {
    && (forall x | x != ino :: Live(s, x) <==> Live(s', x))
    && (forall x | Live(s, x) && x != ino :: Kept(s, s', x))
  }

  /** All files are the same in both states. */
  ghost predicate SameFiles(s: State, s': State)
  {
    && (forall x :: Live(s, x) <==> Live(s', x))
    && (forall x | Live(s, x) :: Kept(s, s', x))
  }

  /** The part of the invariant that speaks of file `ino`. */
  ghost predicate InoOk(s: State, ino: nat, w: nat)
  {
    && (forall b | b in s.owner && Belongs(s.owner[b], ino) :: OwnerOk(s, b))
    && (Live(s, ino) ==> FileOwned(s, ino) && FileOk(s, ino, w))
    && (ino in s.vnodes ==> Live(s, ino) && Clean(s, ino))
    && (ino == ROOT_LOCATION ==> Live(s, ino))
    && s.used == s.owner.Keys + Beyond(|s.disk|)
  }

  lemma SamePtr(s: State, s': State, i: Inode, k: nat)
    requires i.indirect != 0 ==> BlockAt(s', i.indirect) == BlockAt(s, i.indirect)
    ensures Ptr(s', i, k) == Ptr(s, i, k)
  {
  }

  lemma SameBytes(s: State, s': State, i: Inode)
    requires i.indirect != 0 ==> BlockAt(s', i.indirect) == BlockAt(s, i.indirect)
    requires forall k: nat | k < MAXBLOCKS :: Ptr(s, i, k) != 0 ==> BlockAt(s', Ptr(s, i, k)) == BlockAt(s, Ptr(s, i, k))
    ensures Bytes(s', i) == Bytes(s, i)
  {
  }

  /** A file other than `ino` is what it was. */
  lemma OtherFile(s: State, s': State, ino: nat, x: nat)
    requires Owned(s) && AgreeOff(s, s', ino)
    requires Live(s, x) && x != ino
    ensures Live(s', x)
    ensures InodeOf(s', x) == InodeOf(s, x)
    ensures forall k: nat | k < MAXBLOCKS :: Ptr(s', InodeOf(s, x), k) == Ptr(s, InodeOf(s, x), k)
    ensures View(s', x) == View(s, x)
  {
    assert Elsewhere(s, ino, x) && SameBlock(s, s', x);
    assert SameVnode(s, s', x);
    var i := InodeOf(s, x);
    assert FileOwned(s, x);
    if i.indirect != 0 {
      assert Elsewhere(s, ino, i.indirect) && SameBlock(s, s', i.indirect);
    }
    forall k: nat | k < MAXBLOCKS
      ensures Ptr(s', i, k) == Ptr(s, i, k)
      ensures Ptr(s, i, k) != 0 ==> BlockAt(s', Ptr(s, i, k)) == BlockAt(s, Ptr(s, i, k))
    {
      SamePtr(s, s', i, k);
      assert PtrOwned(s, x, k);
      if Ptr(s, i, k) != 0 {
        assert Elsewhere(s, ino, Ptr(s, i, k)) && SameBlock(s, s', Ptr(s, i, k));
      }
    }
    SameBytes(s, s', i);
  }

  lemma OtherLive(s: State, s': State, ino: nat, x: nat)
    requires AgreeOff(s, s', ino) && x != ino
    ensures Live(s, x) <==> Live(s', x)
  {
    assert Elsewhere(s, ino, x) || Elsewhere(s', ino, x) ==> SameBlock(s, s', x);
  }

  lemma OtherOwner(s: State, s': State, ino: nat, b: nat)
    requires Owned(s) && AgreeOff(s, s', ino)
    requires Elsewhere(s', ino, b)
    ensures OwnerOk(s', b)
  {
    assert SameBlock(s, s', b);
    assert OwnerOk(s, b);
    match s.owner[b]
    case Super =>
    case MapBlock(i) =>
    case InodeBlock(x) =>
    case IndirectBlock(x) => OtherFile(s, s', ino, x);
    case DataBlock(x, k) => OtherFile(s, s', ino, x);
  }

  lemma OtherOwned(s: State, s': State, ino: nat, x: nat)
    requires Owned(s) && AgreeOff(s, s', ino)
    requires Live(s', x) && x != ino
    ensures FileOwned(s', x)
  {
    OtherLive(s, s', ino, x);
    OtherFile(s, s', ino, x);
    assert FileOwned(s, x);
    var i := InodeOf(s, x);
    if i.indirect != 0 {
      assert Elsewhere(s, ino, i.indirect) && SameBlock(s, s', i.indirect);
    }
    forall k: nat | k < MAXBLOCKS
      ensures PtrOwned(s', x, k)
    {
      assert PtrOwned(s, x, k);
      if Ptr(s, i, k) != 0 {
        assert Elsewhere(s, ino, Ptr(s, i, k)) && SameBlock(s, s', Ptr(s, i, k));
      }
    }
  }

  lemma OthersStayOwned(s: State, s': State, ino: nat, w: nat)
    requires Owned(s) && AgreeOff(s, s', ino) && InoOk(s', ino, w)
    ensures Owned(s')
  {
    assert Fixed(s') by {
      assert Elsewhere(s, ino, 0) && SameBlock(s, s', 0);
      if ino != ROOT_LOCATION {
        OtherLive(s, s', ino, ROOT_LOCATION);
      }
      forall i: nat | i < BitBlocks(|s'.disk|)
        ensures MapOwned(s', i)
      {
        assert MapOwned(s, i);
        assert Elsewhere(s, ino, MAP_LOCATION + i) && SameBlock(s, s', MAP_LOCATION + i);
      }
    }
    forall b | b in s'.owner
      ensures OwnerOk(s', b)
    {
      if !Belongs(s'.owner[b], ino) {
        assert Elsewhere(s', ino, b);
        OtherOwner(s, s', ino, b);
      }
    }
    forall x | Live(s', x)
      ensures FileOwned(s', x)
    {
      if x != ino {
        OtherOwned(s, s', ino, x);
      }
    }
    forall x | x in s'.vnodes
      ensures Live(s', x)
    {
      if x != ino {
        assert SameVnode(s, s', x);
        OtherLive(s, s', ino, x);
      }
    }
  }

  lemma OthersStayClean(s: State, s': State, ino: nat, w: nat)
    requires Owned(s) && Coherent(s) && AgreeOff(s, s', ino) && InoOk(s', ino, w)
    ensures Coherent(s')
  {
    forall x | x in s'.vnodes
      ensures Clean(s', x)
    {
      if x != ino {
        assert SameVnode(s, s', x);
        assert Elsewhere(s, ino, x) && SameBlock(s, s', x);
        assert Clean(s, x);
      }
    }
  }

  lemma OthersStayMapped(s: State, s': State, ino: nat)
    requires Owned(s) && MapSynced(s) && AgreeOff(s, s', ino)
    ensures MapSynced(s')
  {
    hide BlockAt, Bit;
    if !s'.mapdirty {
      forall b: nat | b < BitmapSize(|s.disk|)
        ensures DiskBit(s', b) <==> b in s'.used
      {
        var i := b / BLOCKBITS;
        assert MapOwned(s, i);
        assert Elsewhere(s, ino, MAP_LOCATION + i) && SameBlock(s, s', MAP_LOCATION + i);
        assert DiskBit(s, b) <==> b in s.used;
      }
    }
  }

  /**
   The step every file operation is made of: if only file `ino` changed and
   its own part of the invariant holds again, the whole invariant holds and
   every other file has kept its size, links and bytes.
   */
  lemma OneFileChanged(s: State, s': State, ino: nat, w: nat)
    requires InvWriting(s, w) && AgreeOff(s, s', ino) && InoOk(s', ino, w)
    ensures InvWriting(s', w)
    ensures OthersKept(s, s', ino)
  {
    hide MapSynced, SuperOk;
    OthersStayOwned(s, s', ino, w);
    OthersStayClean(s, s', ino, w);
    OthersStayMapped(s, s', ino);
    forall x | Live(s, x) && x != ino
      ensures Kept(s, s', x)
    {
      OtherFile(s, s', ino, x);
    }
    forall x | x != ino
      ensures Live(s, x) <==> Live(s', x)
    {
      OtherLive(s, s', ino, x);
    }
    assert FilesOk(s', w) by {
      forall x | Live(s', x)
        ensures FileOk(s', x, w)
      {
        if x != ino {
          assert Kept(s, s', x) && FileOk(s, x, w);
        }
      }
    }
  }

  // ---- elementary changes to one file ----

  /** A free block is marked, cleared and given to slot `t`. */
  function Claim(s: State, b: nat, t: Slot): (s': State)
    requires b < |s.disk|
  {
    State(s.disk[b := ZeroBlock()], s.used + {b}, true, s.vnodes, s.owner[b := t])
  }

  function PutBlock(s: State, b: nat, blk: Block): (s': State)
    requires b < |s.disk|
  {
    s.(disk := s.disk[b := blk])
  }

  /** A cached inode is modified in memory. */
  function PutInode(s: State, ino: nat, i: Inode): (s': State)
    requires ino in s.vnodes
  {
    s.(vnodes := s.vnodes[ino := s.vnodes[ino].(inode := i, dirty := true)])
  }

  /** Spot `k` of the file reads the same in both states. */
  ghost predicate SameSpot(s: State, i: Inode, s': State, i': Inode, k: nat)
  {
    var b, b' := Ptr(s, i, k), Ptr(s', i', k);
    || (b == b' && (b != 0 ==> BlockAt(s', b) == BlockAt(s, b)))
    || (b == 0 && BlockAt(s', b') == ZeroBlock())
  }

  lemma SameContents(s: State, i: Inode, s': State, i': Inode)
    requires forall k: nat | k < MAXBLOCKS :: SameSpot(s, i, s', i', k)
    ensures Bytes(s', i') == Bytes(s, i)
  {
    forall p: nat | p < MAXBYTES
      ensures FileByte(s', i', p) == FileByte(s, i, p)
    {
      assert SameSpot(s, i, s', i', p / BLOCKSIZE);
    }
  }

  /** A block not in use is not a block of any file. */
  lemma FreshBlock(s: State, b: nat)
    requires Owned(s) && b !in s.used
    ensures b !in s.owner && b != 0
    ensures forall ino | Live(s, ino) :: ino != b && InodeOf(s, ino).indirect != b
    ensures forall ino, k: nat | Live(s, ino) && k < MAXBLOCKS :: Ptr(s, InodeOf(s, ino), k) != b
  {
    forall ino | Live(s, ino)
      ensures ino != b && InodeOf(s, ino).indirect != b
    {
      assert FileOwned(s, ino);
    }
    forall ino, k: nat | Live(s, ino) && k < MAXBLOCKS
      ensures Ptr(s, InodeOf(s, ino), k) != b
    {
      assert FileOwned(s, ino) && PtrOwned(s, ino, k);
    }
  }

  /** The pointers of file `ino` are what they were, except that slot `t` now holds `b`. */
  ghost predicate PtrsGrew(s: State, s': State, ino: nat, b: nat, t: Slot)
  {
    var i, i' := InodeOf(s, ino), InodeOf(s', ino);
    && i'.indirect == (if t == IndirectBlock(ino) then b else i.indirect)
    && (t == IndirectBlock(ino) ==> i.indirect == 0)
    && forall k: nat | k < MAXBLOCKS :: PtrGrew(Ptr(s, i, k), Ptr(s', i', k), b, t == DataBlock(ino, k))
  }

  predicate PtrGrew(old_: nat, new_: nat, b: nat, here: bool)
  {
    if here then old_ == 0 && new_ == b else new_ == old_
  }

  /** Block `b` was claimed for slot `t` of file `ino` and nothing else about the file changed. */
  ghost predicate Grew(s: State, s': State, ino: nat, b: nat, t: Slot)
  {
    && ino in s.vnodes && ino in s'.vnodes
    && (t == IndirectBlock(ino) || (t.DataBlock? && t.ino == ino && t.k < MAXBLOCKS))
    && b < |s.disk| && b !in s.used
    && s'.owner == s.owner[b := t] && s'.used == s.used + {b}
    && AgreeOff(s, s', ino)
    && Clean(s', ino)
    && PtrsGrew(s, s', ino, b, t)
    && BlockAt(s', b) == ZeroBlock()
    && (forall c | c in s.owner && s.owner[c].DataBlock? && s.owner[c].ino == ino :: BlockAt(s', c) == BlockAt(s, c))
    && InodeOf(s', ino).size == InodeOf(s, ino).size
    && InodeOf(s', ino).kind == InodeOf(s, ino).kind
    && InodeOf(s', ino).links == InodeOf(s, ino).links
  }

  lemma GrewView(s: State, s': State, ino: nat, b: nat, t: Slot, w: nat)
    requires InvWriting(s, w) && Grew(s, s', ino, b, t)
    ensures View(s', ino) == View(s, ino)
  {
    hide Ptr, InodeOf, Bytes, AgreeOff, MapSynced, SuperOk;
    var i, i' := InodeOf(s, ino), InodeOf(s', ino);
    assert FileOwned(s, ino);
    forall k: nat | k < MAXBLOCKS
      ensures SameSpot(s, i, s', i', k)
    {
      assert PtrOwned(s, ino, k);
      assert PtrGrew(Ptr(s, i, k), Ptr(s', i', k), b, t == DataBlock(ino, k));
    }
    SameContents(s, i, s', i');
  }

  lemma GrewOwned(s: State, s': State, ino: nat, b: nat, t: Slot, w: nat)
    requires InvWriting(s, w) && Grew(s, s', ino, b, t)
    ensures Live(s', ino) && FileOwned(s', ino)
    ensures forall c | c in s'.owner && Belongs(s'.owner[c], ino) :: OwnerOk(s', c)
  {
    hide Ptr, InodeOf, MapSynced, SuperOk;
    FreshBlock(s, b);
    assert FileOwned(s, ino);
    var i, i' := InodeOf(s, ino), InodeOf(s', ino);
    forall k: nat | k < MAXBLOCKS
      ensures PtrOwned(s', ino, k)
    {
      assert PtrOwned(s, ino, k);
      assert PtrGrew(Ptr(s, i, k), Ptr(s', i', k), b, t == DataBlock(ino, k));
    }
    forall c | c in s'.owner && Belongs(s'.owner[c], ino)
      ensures OwnerOk(s', c)
    {
      if c != b {
        assert OwnerOk(s, c);
      }
      if s'.owner[c].DataBlock? {
        var k := s'.owner[c].k;
        assert PtrGrew(Ptr(s, i, k), Ptr(s', i', k), b, t == DataBlock(ino, k));
      }
    }
  }

  /** Giving a file one more block changes what no file contains. */
  lemma FileGrew(s: State, s': State, ino: nat, b: nat, t: Slot, w: nat)
    requires InvWriting(s, w) && Grew(s, s', ino, b, t)
    ensures InvWriting(s', w)
    ensures SameFiles(s, s')
  {
    hide MapSynced, SuperOk;
    GrewView(s, s', ino, b, t, w);
    GrewOwned(s, s', ino, b, t, w);
    assert FileOk(s, ino, w);
    OneFileChanged(s, s', ino, w);
    assert MapKept(s, s', ino) by {
      forall k: nat | k < MAXBLOCKS && Ptr(s, InodeOf(s, ino), k) != 0
        ensures Ptr(s', InodeOf(s', ino), k) != 0
      {
        assert PtrGrew(Ptr(s, InodeOf(s, ino), k), Ptr(s', InodeOf(s', ino), k), b, t == DataBlock(ino, k));
      }
    }
  }

  lemma IndirectInRange(s: State, ino: nat)
    requires Owned(s) && Live(s, ino)
    ensures var b := InodeOf(s, ino).indirect;
            b != 0 ==> b < |s.disk| && b in s.used && b != ino && b in s.owner && s.owner[b] == IndirectBlock(ino)
  {
  }

  lemma PtrInRange(s: State, ino: nat, k: nat)
    requires Owned(s) && Live(s, ino) && k < MAXBLOCKS
    ensures var b := Ptr(s, InodeOf(s, ino), k);
            b != 0 ==> b < |s.disk| && b in s.used && b in s.owner && s.owner[b] == DataBlock(ino, k)
  {
    assert FileOwned(s, ino) && PtrOwned(s, ino, k);
    var b := Ptr(s, InodeOf(s, ino), k);
    if b != 0 {
      assert OwnerOk(s, b);
    }
  }

  /** sfs_bmap, a missing direct block. */
  lemma AttachDirect(s: State, ino: nat, k: nat, b: nat, w: nat)
    requires InvWriting(s, w) && ino in s.vnodes
    requires k < NDIRECT && s.vnodes[ino].inode.direct[k] == 0
    requires b < |s.disk| && b !in s.used
    ensures var i := s.vnodes[ino].inode;
            Grew(s, PutInode(Claim(s, b, DataBlock(ino, k)), ino, i.(direct := i.direct[k := b])), ino, b, DataBlock(ino, k))
  {
    hide DecodeInode, WordsOf, FilesOk, OwnerOk, MapSynced, SuperOk;
    FreshBlock(s, b);
    var i := s.vnodes[ino].inode;
    var i' := i.(direct := i.direct[k := b]);
    var s' := PutInode(Claim(s, b, DataBlock(ino, k)), ino, i');
    assert InodeOf(s, ino) == i && InodeOf(s', ino) == i';
    forall j: nat | j < MAXBLOCKS
      ensures PtrGrew(Ptr(s, i, j), Ptr(s', i', j), b, DataBlock(ino, k) == DataBlock(ino, j))
    {
      if NDIRECT <= j {
        assert i.indirect != b;
      }
    }
  }

  /** sfs_bmap, a missing indirect block: it starts out with no entries. */
  lemma AttachIndirect(s: State, ino: nat, b: nat, w: nat)
    requires InvWriting(s, w) && ino in s.vnodes
    requires s.vnodes[ino].inode.indirect == 0
    requires b < |s.disk| && b !in s.used
    ensures var i := s.vnodes[ino].inode;
            Grew(s, PutInode(Claim(s, b, IndirectBlock(ino)), ino, i.(indirect := b)), ino, b, IndirectBlock(ino))
  {
    hide DecodeInode, WordsOf, FilesOk, OwnerOk, MapSynced, SuperOk;
    FreshBlock(s, b);
    ZeroWords();
    var i := s.vnodes[ino].inode;
    var i' := i.(indirect := b);
    var s' := PutInode(Claim(s, b, IndirectBlock(ino)), ino, i');
    assert InodeOf(s, ino) == i && InodeOf(s', ino) == i';
    forall j: nat | j < MAXBLOCKS
      ensures PtrGrew(Ptr(s, i, j), Ptr(s', i', j), b, IndirectBlock(ino) == DataBlock(ino, j))
    {
    }
  }

  /** sfs_bmap, a missing entry of the indirect block, which is written back. */
  lemma AttachEntry(s: State, ino: nat, k: nat, b: nat, w: nat)
    requires InvWriting(s, w) && ino in s.vnodes
    requires NDIRECT <= k < MAXBLOCKS
    requires var i := s.vnodes[ino].inode; i.indirect != 0 && Ptr(s, i, k) == 0
    requires b < |s.disk| && b !in s.used
    ensures var ind := s.vnodes[ino].inode.indirect;
            && ind < |s.disk|
            && Grew(s, PutBlock(Claim(s, b, DataBlock(ino, k)), ind, BytesOf(WordsOf(BlockAt(s, ind))[k - NDIRECT := b])),
                    ino, b, DataBlock(ino, k))
  {
    hide DecodeInode, WordsOf, BytesOf, FilesOk, OwnerOk, MapSynced, SuperOk;
    FreshBlock(s, b);
    var i := s.vnodes[ino].inode;
    var ind := i.indirect;
    assert InodeOf(s, ino) == i;
    IndirectInRange(s, ino);
    var ws := WordsOf(BlockAt(s, ind))[k - NDIRECT := b];
    var s' := PutBlock(Claim(s, b, DataBlock(ino, k)), ind, BytesOf(ws));
    WordsRoundTrip(ws);
    assert InodeOf(s', ino) == i;
    forall j: nat | j < MAXBLOCKS
      ensures PtrGrew(Ptr(s, i, j), Ptr(s', i, j), b, DataBlock(ino, k) == DataBlock(ino, j))
    {
    }
    assert Clean(s, ino);
  }

  ghost function WithDirect(s: State, ino: nat, k: nat, b: nat): (s': State)
    requires ino in s.vnodes && k < NDIRECT && b < |s.disk| < 0x1_0000_0000
  {
    var i := s.vnodes[ino].inode;
    PutInode(Claim(s, b, DataBlock(ino, k)), ino, i.(direct := i.direct[k := b]))
  }

  ghost function WithIndirect(s: State, ino: nat, b: nat): (s': State)
    requires ino in s.vnodes && b < |s.disk| < 0x1_0000_0000
  {
    PutInode(Claim(s, b, IndirectBlock(ino)), ino, s.vnodes[ino].inode.(indirect := b))
  }

  ghost function WithEntry(s: State, ino: nat, k: nat, b: nat): (s': State)
    requires ino in s.vnodes && NDIRECT <= k < MAXBLOCKS && b < |s.disk| < 0x1_0000_0000
    requires s.vnodes[ino].inode.indirect < |s.disk|
  {
    var ind := s.vnodes[ino].inode.indirect;
    PutBlock(Claim(s, b, DataBlock(ino, k)), ind, BytesOf(WordsOf(BlockAt(s, ind))[k - NDIRECT := b]))
  }

  /** What giving a file one more block achieves. */
  ghost predicate Mapped(s: State, s': State, w: nat)
  {
    InvWriting(s', w) && SameFiles(s, s')
  }

  lemma DirectAttached(s: State, ino: nat, k: nat, b: nat, w: nat)
    requires InvWriting(s, w) && ino in s.vnodes
    requires k < NDIRECT && s.vnodes[ino].inode.direct[k] == 0
    requires b < |s.disk| && b !in s.used
    ensures |s.disk| < 0x1_0000_0000 && Mapped(s, WithDirect(s, ino, k, b), w)
  {
    hide Grew;
    AttachDirect(s, ino, k, b, w);
    FileGrew(s, WithDirect(s, ino, k, b), ino, b, DataBlock(ino, k), w);
  }

  lemma IndirectAttached(s: State, ino: nat, b: nat, w: nat)
    requires InvWriting(s, w) && ino in s.vnodes
    requires s.vnodes[ino].inode.indirect == 0
    requires b < |s.disk| && b !in s.used
    ensures |s.disk| < 0x1_0000_0000 && Mapped(s, WithIndirect(s, ino, b), w)
  {
    hide Grew;
    AttachIndirect(s, ino, b, w);
    FileGrew(s, WithIndirect(s, ino, b), ino, b, IndirectBlock(ino), w);
  }

  lemma EntryAttached(s: State, ino: nat, k: nat, b: nat, w: nat)
    requires InvWriting(s, w) && ino in s.vnodes
    requires NDIRECT <= k < MAXBLOCKS
    requires var i := s.vnodes[ino].inode; i.indirect != 0 && Ptr(s, i, k) == 0
    requires b < |s.disk| && b !in s.used
    ensures |s.disk| < 0x1_0000_0000 && s.vnodes[ino].inode.indirect < |s.disk|
    ensures Mapped(s, WithEntry(s, ino, k, b), w)
    ensures s.vnodes[ino].inode.indirect != b
    ensures Ptr(WithEntry(s, ino, k, b), s.vnodes[ino].inode, k) == b
  {
    hide Grew, WordsOf, BytesOf, DecodeInode;
    AttachEntry(s, ino, k, b, w);
    var ind := s.vnodes[ino].inode.indirect;
    FreshBlock(s, b);
    assert InodeOf(s, ino).indirect == ind;
    WordsRoundTrip(WordsOf(BlockAt(s, ind))[k - NDIRECT := b]);
    FileGrew(s, WithEntry(s, ino, k, b), ino, b, DataBlock(ino, k), w);
  }

  /** The bytes of a file after its block `k` is overwritten. */
  lemma BytesAfterPut(s: State, ino: nat, k: nat, blk: Block)
    requires Owned(s) && Live(s, ino) && k < MAXBLOCKS
    requires Ptr(s, InodeOf(s, ino), k) != 0
    ensures var i := InodeOf(s, ino);
            var b := Ptr(s, i, k);
            && b < |s.disk|
            && Bytes(PutBlock(s, b, blk), i) == Splice(Bytes(s, i), k * BLOCKSIZE, blk)
  {
    hide WordsOf, DecodeInode, Splice;
    var i := InodeOf(s, ino);
    var b := Ptr(s, i, k);
    PtrInRange(s, ino, k);
    IndirectInRange(s, ino);
    var s' := PutBlock(s, b, blk);
    var want := Splice(Bytes(s, i), k * BLOCKSIZE, blk);
    forall p: nat | p < MAXBYTES
      ensures FileByte(s', i, p) == want[p]
    {
      SpliceAt(Bytes(s, i), k * BLOCKSIZE, blk, p);
      var j := p / BLOCKSIZE;
      PtrInRange(s, ino, j);
      SamePtr(s, s', i, j);
      assert Bytes(s, i)[p] == FileByte(s, i, p);
    }
  }

  /** Overwriting a data block of a file changes that block of that file and nothing else. */
  lemma WriteData(s: State, ino: nat, k: nat, blk: Block)
    requires InvWriting(s, ino) && ino in s.vnodes && k < MAXBLOCKS
    requires Ptr(s, InodeOf(s, ino), k) != 0
    ensures Ptr(s, InodeOf(s, ino), k) < |s.disk|
    ensures var s' := PutBlock(s, Ptr(s, InodeOf(s, ino), k), blk);
            && InvWriting(s', ino)
            && Live(s', ino) && MapKept(s, s', ino)
            && View(s', ino) == View(s, ino).(bytes := Splice(View(s, ino).bytes, k * BLOCKSIZE, blk))
            && OthersKept(s, s', ino)
  {
    hide WordsOf, DecodeInode, Splice, Bytes, MapSynced, SuperOk;
    var i := InodeOf(s, ino);
    var b := Ptr(s, i, k);
    PtrInRange(s, ino, k);
    IndirectInRange(s, ino);
    var s' := PutBlock(s, b, blk);
    BytesAfterPut(s, ino, k, blk);
    assert FileOwned(s, ino) && FileOk(s, ino, ino) && Clean(s, ino);
    forall j: nat | j < MAXBLOCKS
      ensures Ptr(s', i, j) == Ptr(s, i, j) && PtrOwned(s', ino, j)
    {
      SamePtr(s, s', i, j);
      assert PtrOwned(s, ino, j);
    }
    assert InoOk(s', ino, ino) by {
      forall c | c in s'.owner && Belongs(s'.owner[c], ino)
        ensures OwnerOk(s', c)
      {
        assert OwnerOk(s, c);
      }
    }
    OneFileChanged(s, s', ino, ino);
  }

  lemma BeginWrite(s: State, ino: nat)
    requires Inv(s)
    ensures InvWriting(s, ino)
  {
    forall x | Live(s, x)
      ensures FileOk(s, x, ino)
    {
      assert FileOk(s, x, 0);
    }
  }

  lemma EndWrite(s: State, ino: nat)
    requires InvWriting(s, ino)
    requires Live(s, ino) ==> TailClear(View(s, ino))
    ensures Inv(s)
  {
    forall x | Live(s, x)
      ensures FileOk(s, x, 0)
    {
      assert FileOk(s, x, ino);
    }
  }

  /** The size or the link count of a cached inode is changed. */
  lemma SetMeta(s: State, ino: nat, i': Inode, w: nat)
    requires InvWriting(s, w) && ino in s.vnodes
    requires var i := s.vnodes[ino].inode;
             i'.direct == i.direct && i'.indirect == i.indirect && i'.kind == i.kind && i'.size < 0x8000_0000
    requires w != ino ==> TailClear(View(s, ino).(size := i'.size))
    ensures var s' := PutInode(s, ino, i');
            && InvWriting(s', w)
            && Live(s', ino) && MapKept(s, s', ino)
            && View(s', ino) == View(s, ino).(size := i'.size, links := i'.links)
            && OthersKept(s, s', ino)
  {
    hide WordsOf, DecodeInode, Bytes, MapSynced, SuperOk;
    var i := s.vnodes[ino].inode;
    var s' := PutInode(s, ino, i');
    assert FileOwned(s, ino) && FileOk(s, ino, w);
    forall k: nat | k < MAXBLOCKS
      ensures SameSpot(s, i, s', i', k) && PtrOwned(s', ino, k)
    {
      assert PtrOwned(s, ino, k);
    }
    SameContents(s, i, s', i');
    assert InoOk(s', ino, w) by {
      forall c | c in s'.owner && Belongs(s'.owner[c], ino)
        ensures OwnerOk(s', c)
      {
        assert OwnerOk(s, c);
      }
    }
    OneFileChanged(s, s', ino, w);
  }

  // ---- truncation ----

  /** The indirect and data blocks of a file. */
  ghost function FileBlocks(s: State, ino: nat): (r: set<nat>)
  {
    set b | b in s.owner && s.owner[b] != InodeBlock(ino) && Belongs(s.owner[b], ino)
  }

  /** The data blocks of a file below block `n`. */
  ghost function DataBelow(s: State, ino: nat, n: nat): (r: set<nat>)
  {
    set b | b in s.owner && s.owner[b].DataBlock? && s.owner[b].ino == ino && s.owner[b].k < n
  }

  lemma DataBelowNext(s: State, ino: nat, k: nat)
    requires Owned(s) && Live(s, ino) && k < MAXBLOCKS
    ensures var b := Ptr(s, InodeOf(s, ino), k);
            && DataBelow(s, ino, k + 1) == DataBelow(s, ino, k) + (if b == 0 then {} else {b})
            && (b != 0 ==> b !in DataBelow(s, ino, k) && b in s.used && b < |s.disk|)
  {
    hide Ptr, InodeOf;
    PtrInRange(s, ino, k);
    forall b | b in s.owner && s.owner[b] == DataBlock(ino, k)
      ensures b == Ptr(s, InodeOf(s, ino), k) != 0
    {
      assert OwnerOk(s, b);
    }
  }

  lemma AllFileBlocks(s: State, ino: nat)
    requires Owned(s) && Live(s, ino)
    ensures var b := InodeOf(s, ino).indirect;
            && FileBlocks(s, ino) == DataBelow(s, ino, MAXBLOCKS) + (if b == 0 then {} else {b})
            && b !in DataBelow(s, ino, MAXBLOCKS)
            && (b != 0 ==> b in s.used && b < |s.disk|)
  {
    hide Ptr, InodeOf;
    IndirectInRange(s, ino);
    forall b | b in FileBlocks(s, ino)
      ensures b == InodeOf(s, ino).indirect != 0 || b in DataBelow(s, ino, MAXBLOCKS)
    {
      assert OwnerOk(s, b);
    }
  }

  function Emptied(i: Inode): (r: Inode)
  {
    i.(size := 0, direct := seq(15, _ => 0), indirect := 0)
  }

  ghost function Truncated(s: State, ino: nat): (s': State)
    requires ino in s.vnodes
  {
    var f := FileBlocks(s, ino);
    PutInode(s.(used := s.used - f, mapdirty := s.mapdirty || f != {}, owner := s.owner - f), ino, Emptied(s.vnodes[ino].inode))
  }

  function Zeros(): (r: seq<byte>)
    ensures |r| == MAXBYTES
  {
    seq(MAXBYTES, _ => 0)
  }

  // ---- the inode cache ----

  /** sfs_loadvnode of an inode that is not in memory. */
  ghost function Loaded(s: State, ino: nat): (s': State)
  {
    s.(vnodes := s.vnodes[ino := Vnode(DecodeInode(BlockAt(s, ino)), false, 1)])
  }

  ghost function WithRefs(s: State, ino: nat, refs: nat): (s': State)
    requires ino in s.vnodes
  {
    s.(vnodes := s.vnodes[ino := s.vnodes[ino].(refs := refs)])
  }

  /** sfs_sync_inode of a dirty inode. */
  ghost function Synced(s: State, ino: nat): (s': State)
    requires ino in s.vnodes && ino < |s.disk|
  {
    s.(disk := s.disk[ino := EncodeInode(s.vnodes[ino].inode)],
       vnodes := s.vnodes[ino := s.vnodes[ino].(dirty := false)])
  }

  /** The vnode of an inode is forgotten. */
  ghost function Dropped(s: State, ino: nat): (s': State)
  {
    s.(vnodes := s.vnodes - {ino})
  }

  /** sfs_makeobj: block `b` becomes an inode with no links. */
  ghost function Created(s: State, b: nat): (s': State)
    requires b < |s.disk|
  {
    var c := Claim(s, b, InodeBlock(b));
    c.(vnodes := c.vnodes[b := Vnode(EmptyInode(TYPE_FILE), true, 1)])
  }

  /** The end of sfs_reclaim for an unlinked, emptied file: its inode block is free again. */
  ghost function Discarded(s: State, ino: nat): (s': State)
  {
    s.(used := s.used - {ino}, mapdirty := true, owner := s.owner - {ino}, vnodes := s.vnodes - {ino})
  }

  /** A change of cache state that leaves the inode in force alone. */
  lemma CacheChanged(s: State, s': State, ino: nat)
    requires Inv(s) && Live(s, ino) && AgreeOff(s, s', ino)
    requires s'.owner == s.owner && s'.used == s.used
    requires InodeOf(s', ino) == InodeOf(s, ino)
    requires forall b | b in s.owner && b != ino :: BlockAt(s', b) == BlockAt(s, b)
    requires ino in s'.vnodes ==> Clean(s', ino)
    ensures Inv(s') && SameFiles(s, s')
  {
    hide WordsOf, DecodeInode, Bytes, InodeOf, MapSynced, SuperOk;
    var i := InodeOf(s, ino);
    IndirectInRange(s, ino);
    assert FileOwned(s, ino) && FileOk(s, ino, 0);
    forall k: nat | k < MAXBLOCKS
      ensures SameSpot(s, i, s', i, k) && PtrOwned(s', ino, k) && Ptr(s', i, k) == Ptr(s, i, k)
    {
      PtrInRange(s, ino, k);
      SamePtr(s, s', i, k);
    }
    SameContents(s, i, s', i);
    assert InoOk(s', ino, 0) by {
      forall c | c in s'.owner && Belongs(s'.owner[c], ino)
        ensures OwnerOk(s', c)
      {
        assert OwnerOk(s, c);
      }
    }
    OneFileChanged(s, s', ino, 0);
  }

  lemma LoadedIsSame(s: State, ino: nat)
    requires Inv(s) && Live(s, ino) && ino !in s.vnodes
    ensures Inv(Loaded(s, ino)) && SameFiles(s, Loaded(s, ino))
  {
    hide DecodeInode;
    CacheChanged(s, Loaded(s, ino), ino);
  }

  lemma WithRefsIsSame(s: State, ino: nat, refs: nat)
    requires Inv(s) && ino in s.vnodes
    ensures Inv(WithRefs(s, ino, refs)) && SameFiles(s, WithRefs(s, ino, refs))
  {
    hide DecodeInode;
    assert Clean(s, ino);
    CacheChanged(s, WithRefs(s, ino, refs), ino);
  }

  /** Writing a dirty inode to its block changes no file; its cached copy is now clean. */
  lemma SyncedIsSame(s: State, ino: nat)
    requires Inv(s) && ino in s.vnodes
    ensures ino < |s.disk|
    ensures Inv(Synced(s, ino)) && SameFiles(s, Synced(s, ino))
  {
    hide DecodeInode, EncodeInode;
    assert OwnerOk(s, ino);
    InodeRoundTrip(s.vnodes[ino].inode);
    CacheChanged(s, Synced(s, ino), ino);
  }

  /** Forgetting a clean vnode changes no file: this is why sfs_reclaim syncs first. */
  lemma DroppedIsSame(s: State, ino: nat)
    requires Inv(s) && ino in s.vnodes && !s.vnodes[ino].dirty
    ensures Inv(Dropped(s, ino)) && SameFiles(s, Dropped(s, ino))
  {
    hide DecodeInode;
    assert Clean(s, ino);
    CacheChanged(s, Dropped(s, ino), ino);
  }

  lemma CreatedAgrees(s: State, b: nat)
    requires b < |s.disk| && b !in s.owner && b !in s.vnodes
    ensures AgreeOff(s, Created(s, b), b)
  {
  }

  lemma DiscardedAgrees(s: State, ino: nat)
    requires Live(s, ino)
    ensures AgreeOff(s, Discarded(s, ino), ino)
  {
  }

  lemma CreatedIsNew(s: State, b: nat)
    requires Inv(s) && b < |s.disk| && b !in s.used
    ensures var s' := Created(s, b);
            && Inv(s')
            && !Live(s, b) && Live(s', b)
            && View(s', b) == FileView(0, TYPE_FILE, 0, Zeros())
            && OthersKept(s, s', b)
  {
    hide WordsOf, DecodeInode, MapSynced, SuperOk, AgreeOff;
    FreshBlock(s, b);
    var s' := Created(s, b);
    assert b !in s.vnodes;
    CreatedAgrees(s, b);
    var i' := EmptyInode(TYPE_FILE);
    assert InodeOf(s', b) == i';
    assert Bytes(s', i') == Zeros();
    OneFileChanged(s, s', b, 0);
  }

  lemma DiscardedIsGone(s: State, ino: nat)
    requires Inv(s) && ino in s.vnodes && ino != ROOT_LOCATION
    requires FileBlocks(s, ino) == {}
    ensures var s' := Discarded(s, ino);
            && Inv(s')
            && !Live(s', ino)
            && OthersKept(s, s', ino)
  {
    hide WordsOf, DecodeInode, MapSynced, SuperOk, AgreeOff;
    var s' := Discarded(s, ino);
    assert OwnerOk(s, ino);
    DiscardedAgrees(s, ino);
    OneFileChanged(s, s', ino, 0);
  }
}