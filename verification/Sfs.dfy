/**
 A mounted SFS (kern/fs/sfs/sfs_vnode.c, kern/fs/sfs/sfs_fs.c): the device
 blocks, the free map and the vnodes in memory. A vnode is named by its inode
 number, of which there is at most one vnode. The panics and assertions of the
 source are preconditions here, so they are proved unreachable.
 */
module SfsFileSystem {
  import opened Errno
  import opened Uios
  import opened Bitmaps
  import opened SfsLayout
  import opened SfsState
  import opened SfsTruncate
  import opened SfsTransfer
  import opened SfsDirectory
  import opened SfsOps
  import opened SfsImage
  import opened SfsDevice

  /** When an I/O step may fail, and what the failure means. */
  ghost predicate IoResult(rw: UioRw, ino: nat, a: Snap, result: Errno, s: State)
  {
    && result in {Success, EINVAL, ENOSPC}
    && (result == EINVAL <==> a.offset >= MAXBYTES)
    && (result == ENOSPC ==> rw == UIO_WRITE && Full(s) && Unmapped(a.s, ino, a.offset))
  }

  lemma WriteVerdict(ino: nat, a: Snap, b: Snap, result: Errno, n: nat)
    requires WriteSpec(ino, a, b, result, n)
    ensures result in {Success, EINVAL, ENOSPC}
    ensures result == Success ==> n == a.resid
    ensures result == ENOSPC ==> Full(b.s)
  {
  }

  lemma RootSize(s: State)
    requires DirSound(s) && ROOT_LOCATION in s.vnodes
    ensures s.vnodes[ROOT_LOCATION].inode.size / DIRENTSIZE == |Dir(s)|
  {
  }

  /** How binding `name` ends; only lack of space is not decided by the names there are. */
  ghost predicate LinkAnswer(names: map<Name, nat>, name: Name, result: Errno, full: bool)
  {
    if name in names then result == EEXIST
    else if |name| + 1 > NAMELEN then result == ENAMETOOLONG
    else if |names| == MAXSLOTS then result == EINVAL
    else result == Success || (result == ENOSPC && full)
  }

  /** One more reference to the vnode of `ino`. */
  ghost function Held(a: AbsFs, ino: nat): (r: AbsFs)
    ensures r.names == a.names && r.files == a.files
  {
    a.(refs := a.refs[ino := if ino in a.refs then a.refs[ino] + 1 else 1])
  }

  lemma InodeBlockUsed(s: State, ino: nat)
    requires Whole(s) && Live(s, ino)
    ensures ino in s.used && ino < |s.disk|
    ensures forall x | x in s.vnodes :: x in s.used
    ensures ino !in s.vnodes ==> DecodeInode(BlockAt(s, ino)).kind in {TYPE_FILE, TYPE_DIR}
  {
    hide DirOk, LinksOk, CacheOk, DecodeInode;
    assert OwnerOk(s, ino) && FileOk(s, ino, 0);
  }

  lemma CachedUsed(s: State)
    requires Whole(s)
    ensures forall x | x in s.vnodes :: x in s.used
  {
    hide DirOk, LinksOk, CacheOk;
  }

  lemma WholeOwned(s: State)
    requires Whole(s)
    ensures Owned(s)
  {
  }

  lemma HeldIs(s: State, s': State, ino: nat)
    requires Whole(s) && Live(s, ino)
    requires s' == if ino in s.vnodes then WithRefs(s, ino, s.vnodes[ino].refs + 1) else Loaded(s, ino)
    ensures Whole(s') && SameFiles(s, s') && Dir(s') == Dir(s)
    ensures AbsOf(s') == Held(AbsOf(s), ino)
  {
    hide DecodeInode, DirOk, LinksOk, View, InvWriting, SameFiles, NameMap, FilesOf;
    if ino in s.vnodes {
      WithRefsIsSame(s, ino, s.vnodes[ino].refs + 1);
    } else {
      LoadedIsSame(s, ino);
    }
    WholeSame(s, s');
    WholeSound(s);
    WholeSound(s');
    AbsSameFiles(s, s');
    assert RefsOf(s') == Held(AbsOf(s), ino).refs;
  }

  /** The only reference is being released and no name is left. */
  ghost predicate Orphaned(s: State, ino: nat)
  {
    ino in s.vnodes && s.vnodes[ino].refs == 1 && View(s, ino).links == 0
  }

  /** One reference to the vnode of `ino` fewer. */
  ghost function Released(a: AbsFs, ino: nat): (r: AbsFs)
  {
    if ino !in a.refs then a
    else if a.refs[ino] > 1 then a.(refs := a.refs[ino := a.refs[ino] - 1])
    else if ino in a.files && a.files[ino].links == 0 then AbsFs(a.names, a.files - {ino}, a.refs - {ino})
    else a.(refs := a.refs - {ino})
  }

  lemma WholeInv(s: State)
    requires Whole(s)
    ensures Inv(s)
  {
  }

  lemma WholeRefs(s: State, ino: nat)
    requires Whole(s) && ino in s.vnodes
    ensures s.vnodes[ino].refs > 0
    ensures View(s, ino).links == s.vnodes[ino].inode.links
    ensures Live(s, ino)
  {
  }

  lemma ReleasedOne(s: State, s': State, ino: nat)
    requires Whole(s) && ino in s.vnodes && s.vnodes[ino].refs > 1
    requires s' == WithRefs(s, ino, s.vnodes[ino].refs - 1)
    ensures Whole(s') && AbsOf(s') == Released(AbsOf(s), ino) && !Orphaned(s, ino)
  {
    hide DirOk, LinksOk, View, InvWriting, SameFiles, NameMap, FilesOf;
    WithRefsIsSame(s, ino, s.vnodes[ino].refs - 1);
    WholeSame(s, s');
    WholeSound(s);
    WholeSound(s');
    AbsSameFiles(s, s');
    assert RefsOf(s') == Released(AbsOf(s), ino).refs;
  }

  lemma ReleasedLinked(s: State, s': State, ino: nat)
    requires Whole(s) && Whole(s') && ino in s.vnodes && s.vnodes[ino].refs == 1 && View(s, ino).links > 0
    requires AbsOf(s') == AbsOf(s).(refs := AbsOf(s).refs - {ino})
    ensures AbsOf(s') == Released(AbsOf(s), ino)
  {
    hide DirOk, LinksOk, View, InvWriting, NameMap;
  }

  lemma ReleasedLast(s: State, s': State, ino: nat)
    requires Whole(s) && Whole(s') && ino in s.vnodes && s.vnodes[ino].refs == 1 && View(s, ino).links == 0
    requires ino != ROOT_LOCATION
    requires AbsOf(s') == AbsFs(AbsOf(s).names, AbsOf(s).files - {ino}, AbsOf(s).refs - {ino})
    ensures AbsOf(s') == Released(AbsOf(s), ino)
  {
    hide LinksOk, View, NameMap, DirOk;
    assert Live(s, ino) by { WholeInv(s); CachedLive(s, ino, 0); }
  }

  lemma UnlinkedNotRoot(s: State, ino: nat)
    requires Whole(s) && ino in s.vnodes && View(s, ino).links == 0
    ensures ino != ROOT_LOCATION
  {
    hide View;
    RootLive(s);
    assert LinkOk(s, ROOT_LOCATION);
  }

  lemma TruncatedFacts(s: State, ino: nat)
    requires ino in s.vnodes
    ensures var t := Truncated(s, ino);
            && t.owner == s.owner - FileBlocks(s, ino) && t.used == s.used - FileBlocks(s, ino)
            && t.vnodes.Keys == s.vnodes.Keys
            && (forall x | x in t.vnodes && x != ino :: t.vnodes[x] == s.vnodes[x])
            && t.vnodes[ino].inode.links == s.vnodes[ino].inode.links
  {
  }

  lemma NoBlocksLeft(s: State, u: State, ino: nat)
    requires u.owner == s.owner - FileBlocks(s, ino)
    ensures FileBlocks(u, ino) == {}
  {
  }

  lemma InodeUsed(s: State, ino: nat)
    requires Inv(s) && ino in s.vnodes
    ensures ino in s.used
  {
  }

  lemma SameThenGone(s: State, t: State, u: State, v: State, ino: nat)
    requires OthersKept(s, t, ino) && SameFiles(t, u) && OthersKept(u, v, ino)
    requires t.vnodes.Keys == s.vnodes.Keys && (forall x | x in t.vnodes && x != ino :: t.vnodes[x] == s.vnodes[x])
    requires SameCache(t.vnodes, u.vnodes) && v.vnodes == u.vnodes - {ino}
    ensures OthersKept(s, v, ino) && CacheLost(s, v, ino)
  {
    assert OthersKept(t, u, ino);
    OthersKeptTrans(s, t, u, ino);
    OthersKeptTrans(s, u, v, ino);
  }

  /** A linked inode has a positive link count. */
  lemma NamedHasLinks(s: State, slot: nat)
    requires Whole(s) && slot < |Dir(s)| && Dir(s)[slot].ino != NOINO && Dir(s)[slot].ino in s.vnodes
    ensures s.vnodes[Dir(s)[slot].ino].inode.links > 0
  {
    hide View, Entries, NamesUnique, NoHoles, InvWriting;
    var ino := Dir(s)[slot].ino;
    assert Live(s, ino) && LinkOk(s, ino);
    CachedLinks(s, ino);
    assert slot in SlotsNaming(Dir(s), ino);
  }

  /** What sfs_creat does; `full` says that no block was free, `tight` that at most one is now. */
  ghost predicate CreatSpec(a: AbsFs, b: AbsFs, name: Name, excl: bool, result: Errno, ino: nat, full: bool, tight: bool)
  {
    if name in a.names then
      if excl then result == EEXIST && b == a
      else result == Success && ino == a.names[name] && b == Held(a, ino)
    else
      && (if full then result == ENOSPC else LinkAnswer(a.names, name, result, tight))
      && (if result == Success then
            && ino !in a.files && ino !in a.refs && ino != ROOT_LOCATION
            && b == AbsFs(a.names[name := ino], a.files[ino := FileView(0, TYPE_FILE, 1, Zeros())], a.refs[ino := 1])
          else b == a)
  }

  /** A file that never got a block takes nothing but its inode's block with it. */
  lemma OneBlockBack(t: State, u: State, ino: nat)
    requires Inv(t) && ino in t.vnodes && Full(t) && |u.disk| == |t.disk|
    requires t.vnodes[ino].inode == EmptyInode(TYPE_FILE)
    requires u.used == t.used - (if Orphaned(t, ino) then FileBlocks(t, ino) + {ino} else {})
    ensures AlmostFull(u)
  {
    hide Inv, Orphaned, FileBlocks;
    NoBlocksYet(t, ino);
    assert FullBut(u, ino);
  }

  lemma NewInode(s: State, t: State, ino: nat)
    requires ino < |s.disk| && CacheBut(Created(s, ino).vnodes, t.vnodes, ROOT_LOCATION) && ino != ROOT_LOCATION && Whole(t)
    ensures Inv(t) && ino in t.vnodes && t.vnodes[ino].inode == EmptyInode(TYPE_FILE)
  {
    hide Inv, DirOk, LinksOk;
  }

  lemma NoBlocksYet(t: State, ino: nat)
    requires Inv(t) && ino in t.vnodes && t.vnodes[ino].inode == EmptyInode(TYPE_FILE)
    ensures FileBlocks(t, ino) == {}
  {
    hide FileBlocks, FilesOk, MapSynced, Coherent;
    AllFileBlocks(t, ino);
    assert DataBelow(t, ino, MAXBLOCKS) == {};
  }

  lemma NotFull(s: State, b: nat)
    requires b < |s.disk| && b !in s.used
    ensures !Full(s)
  {
  }

  /** Releasing a linked file frees no block. */
  lemma StillFull(t: State, u: State, ino: nat)
    requires Whole(t) && |u.disk| == |t.disk| && ino in AbsOf(t).files && AbsOf(t).files[ino].links > 0
    requires u.used == t.used - (if Orphaned(t, ino) then FileBlocks(t, ino) + {ino} else {})
    ensures Full(t) ==> Full(u)
  {
    hide Whole, NameMap;
  }

  /** The state after sfs_makeobj is ready for the directory to be written. */
  lemma CreatedReady(s: State, b: nat)
    requires Whole(s) && b < |s.disk| && b !in s.used && Whole(Created(s, b))
    ensures var t := Created(s, b);
            && Inv(t) && DirOk(t) && Live(t, b) && 0 < b < 0x1_0000_0000 && b != ROOT_LOCATION
            && b in t.vnodes && b !in s.vnodes && b !in FilesOf(s)
            && (ROOT_LOCATION in s.vnodes ==> ROOT_LOCATION in t.vnodes)
  {
    hide DirOk, LinksOk, CacheOk;
    FreshBlock(s, b);
    RootLive(s);
  }

  lemma AbsAfterFailure(s: State, s': State)
    requires Whole(s) && Inv(s') && SameFiles(s, s') && SameCache(s.vnodes, s'.vnodes)
    ensures Whole(s') && AbsOf(s') == AbsOf(s)
  {
    hide View, InvWriting, DirOk, LinksOk, NameMap, SameFiles, FilesOf, RefsOf;
    WholeSame(s, s');
    WholeSound(s);
    WholeSound(s');
    AbsSameFiles(s, s');
    RefsSame(s, s');
  }

  /** Releasing the vnode of a file that never got a name undoes its creation. */
  lemma NewFileGone(a: AbsFs, ino: nat)
    requires ino !in a.files && ino !in a.refs
    ensures Released(AbsFs(a.names, a.files[ino := FileView(0, TYPE_FILE, 0, Zeros())], a.refs[ino := 1]), ino) == a
  {
    assert a.files[ino := FileView(0, TYPE_FILE, 0, Zeros())] - {ino} == a.files;
    assert a.refs[ino := 1] - {ino} == a.refs;
  }

  lemma NewUnheld(s: State, ino: nat)
    requires Whole(s) && ino !in s.vnodes
    ensures ino !in AbsOf(s).refs
  {
    hide View, InvWriting, DirOk, LinksOk, CacheOk, NameMap, FilesOf;
  }

  lemma CachedReady(s: State, ino: nat)
    requires Whole(s) && ino in s.vnodes
    ensures Inv(s) && DirOk(s) && Live(s, ino) && 0 < ino < 0x1_0000_0000
  {
    hide DirOk, LinksOk, CacheOk, DecodeInode;
    assert OwnerOk(s, ino);
  }

  /** What a name is bound to is a linked file. */
  lemma NamesNonRoot(s: State, name: Name)
    requires Whole(s) && name in NameMap(Dir(s)) && NameMap(Dir(s))[name] != ROOT_LOCATION
    ensures var a, ino := AbsOf(s), NameMap(Dir(s))[name];
            ino in a.files && a.files[ino].links > 0 && (ino in a.refs ==> a.refs[ino] > 0)
  {
    hide View, Entries, NoHoles, InvWriting, NameMap;
    NameMapHas(Dir(s), name);
    var i: nat :| Binds(Dir(s), i, name);
    NameMapAt(Dir(s), i, name);
    var ino := Dir(s)[i].ino;
    assert Live(s, ino) && LinkOk(s, ino);
    assert i in SlotsNaming(Dir(s), ino);
  }

  /** Taking and releasing a reference to a linked file changes nothing. */
  lemma HeldReleased(a: AbsFs, ino: nat)
    requires ino in a.files && a.files[ino].links > 0 && (ino in a.refs ==> a.refs[ino] > 0)
    ensures Released(Held(a, ino), ino) == a
  {
    if ino in a.refs {
      assert a.refs[ino := a.refs[ino] + 1][ino := a.refs[ino]] == a.refs;
    } else {
      assert a.refs[ino := 1] - {ino} == a.refs;
    }
  }

  /** Bind the new name, unbind the old one: only the name changed. */
  lemma RenameDone(a: AbsFs, n1: Name, n2: Name)
    requires n1 in a.names && n2 !in a.names
    requires var ino := a.names[n1]; ino in a.files && a.files[ino].links > 0 && (ino in a.refs ==> a.refs[ino] > 0)
    ensures var ino := a.names[n1];
            Released(Unbound(Bound(Held(a, ino), n2, ino), n1), ino) == a.(names := a.names[n2 := ino] - {n1})
  {
    var ino := a.names[n1];
    var c := Unbound(Bound(Held(a, ino), n2, ino), n1);
    assert c.files == a.files;
    assert c == Held(a.(names := a.names[n2 := ino] - {n1}), ino);
    HeldReleased(a.(names := a.names[n2 := ino] - {n1}), ino);
  }

  /** File `ino` now looks like `f`. */
  ghost function FileChanged(a: AbsFs, ino: nat, f: FileView): (r: AbsFs)
  {
    a.(files := a.files[ino := f])
  }

  lemma KindTells(s: State, ino: nat)
    requires Whole(s) && ino in s.vnodes
    ensures Inv(s)
    ensures s.vnodes[ino].inode.kind == TYPE_DIR <==> ino == ROOT_LOCATION
  {
    hide DirOk, LinksOk, CacheOk;
    assert Live(s, ino) && FileOk(s, ino, 0);
  }

  lemma ReadKeeps(ino: nat, a: Snap, b: Snap, result: Errno, n: nat)
    requires ReadSpec(ino, a, b, result, n)
    ensures b.s == a.s
  {
  }

  lemma FileOpDone(s: State, s': State, ino: nat)
    requires Whole(s) && Inv(s') && ino != ROOT_LOCATION && ino in s.vnodes
    requires OthersKept(s, s', ino) && Live(s, ino) && Live(s', ino)
    requires View(s', ino).links == View(s, ino).links
    requires SameCache(s.vnodes, s'.vnodes)
    ensures Whole(s') && AbsOf(s') == FileChanged(AbsOf(s), ino, View(s', ino))
  {
    hide View, InvWriting, DirOk, LinksOk, NameMap, FilesOf, RefsOf, OthersKept;
    WholeAfterFileOp(s, s', ino);
    WholeSound(s);
    WholeSound(s');
    FilesButOne(s, s', ino);
    RefsSame(s, s');
  }

  lemma WriteKeepsWhole(ino: nat, a: Snap, b: Snap, result: Errno, n: nat)
    requires Whole(a.s) && Inv(b.s) && ino != ROOT_LOCATION && ino in a.s.vnodes
    requires WriteSpec(ino, a, b, result, n)
    ensures Whole(b.s) && AbsOf(b.s) == FileChanged(AbsOf(a.s), ino, View(b.s, ino))
  {
    hide View, InvWriting, DirOk, LinksOk, CacheOk;
    CachedLive(a.s, ino, 0);
    FileOpDone(a.s, b.s, ino);
  }

  lemma CutFacts(s: State, ino: nat, len: word)
    requires ino in s.vnodes
    ensures SameCache(s.vnodes, Cut(s, ino, len).vnodes)
    ensures Cut(s, ino, len).used == s.used - CutBlocks(s, ino, BlockLen(len))
  {
  }

  lemma CutLinks(s: State, ino: nat, len: nat)
    ensures CutView(View(s, ino), len).links == View(s, ino).links
  {
  }

  lemma WholeOnlyInv(s: State)
    ensures Whole(s) ==> Inv(s)
  {
  }

  /** What users see of a change to one file, whether or not its tail is clear. */
  lemma AbsAfterCut(s: State, s': State, ino: nat)
    requires Whole(s) && ino != ROOT_LOCATION && Live(s, ino) && Live(s', ino)
    requires OthersKept(s, s', ino) && SameCache(s.vnodes, s'.vnodes)
    ensures DirSound(s') && AbsOf(s') == FileChanged(AbsOf(s), ino, View(s', ino))
  {
    hide View, InvWriting, DirOk, LinksOk, NameMap, FilesOf, RefsOf, OthersKept;
    RootLive(s);
    DirKept(s, s', ino);
    DirOkSound(s');
    FilesButOne(s, s', ino);
    RefsSame(s, s');
  }

  lemma MapFits(s: State)
    requires Inv(s)
    ensures MAP_LOCATION + BitBlocks(|s.disk|) <= |s.disk|
  {
    assert OwnerOk(s, SB_LOCATION);
    var last := BitBlocks(|s.disk|) - 1;
    assert MapOwned(s, last) && OwnerOk(s, MAP_LOCATION + last);
  }

  lemma InMapRange(s: State, b: nat)
    requires Inv(s) && MAP_LOCATION <= b < MAP_LOCATION + BitBlocks(|s.disk|)
    ensures b in s.owner && s.owner[b].MapBlock?
  {
    assert MapOwned(s, b - MAP_LOCATION);
  }

  lemma MapBlockWritten(before: seq<Block>, disk: seq<Block>, bits: seq<bv8>, j: nat)
    requires (j + 1) * 512 <= |bits| && MAP_LOCATION + j < |before|
    requires disk == before[MAP_LOCATION + j := BlockOfBits(bits[j * 512..(j + 1) * 512])]
    requires forall i: nat | i < j :: MapBlockIs(before, i, bits)
    ensures forall i: nat | i < j + 1 :: MapBlockIs(disk, i, bits)
  {
    hide BlockOfBits, BitsOfBlock;
    BlockOfBitsIs(bits[j * 512..(j + 1) * 512]);
    forall i: nat | i < j + 1
      ensures MapBlockIs(disk, i, bits)
    {
      if i < j {
        assert MapBlockIs(before, i, bits);
      }
    }
  }

  lemma MapOnlyDiffers(s: State, s': State)
    requires Inv(s) && |s'.disk| == |s.disk| && s'.used == s.used && s'.vnodes == s.vnodes && s'.owner == s.owner
    requires forall b: nat | b < |s.disk| && !(MAP_LOCATION <= b < MAP_LOCATION + BitBlocks(|s.disk|)) :: s'.disk[b] == s.disk[b]
    ensures OnlyMapDiffers(s, s')
  {
    hide View;
    forall b | b in s.owner && !s.owner[b].MapBlock?
      ensures BlockAt(s', b) == BlockAt(s, b)
    {
      assert OwnerOk(s, b);
      if MAP_LOCATION <= b < MAP_LOCATION + BitBlocks(|s.disk|) {
        InMapRange(s, b);
      }
    }
  }

  lemma StepReads(ino: nat, a: Snap, b: Snap, n: nat)
    requires Step(UIO_READ, ino, a, b, n)
    ensures b.s == a.s
    ensures InBounds(View(a.s, ino).bytes, a.buf, a.offset, a.base, n)
    ensures b.buf == BufferAfter(UIO_READ, View(a.s, ino).bytes, a.buf, a.offset, a.base, n)
  {
  }

  /** The stale size plus the bytes just written leave nothing but zeros past the new end. */
  lemma TailAfterWrite(f: FileView, u: seq<byte>, off: nat, base: nat, n: nat, size: nat)
    requires |f.bytes| == MAXBYTES && TailClear(f)
    requires InBounds(f.bytes, u, off, base, n)
    requires size >= f.size && size >= off + n
    ensures TailClear(FileView(size, f.kind, f.links, FileAfter(UIO_WRITE, f.bytes, u, off, base, n)))
  {
  }

  lemma TailOf(s: State, ino: nat)
    requires Inv(s) && Live(s, ino)
    ensures TailClear(View(s, ino))
  {
    assert FileOk(s, ino, 0);
  }

  /** sfs_io's last step when the write did not go past the old end. */
  lemma SizeKept(ino: nat, a: Snap, b: Snap, result: Errno, n: nat)
    requires Inv(a.s) && InvWriting(b.s, ino) && Step(UIO_WRITE, ino, a, b, n)
    requires MoveResult(ino, a, result, n, b.s)
    requires ino in b.s.vnodes && b.offset <= b.s.vnodes[ino].inode.size
    ensures Inv(b.s) && WriteSpec(ino, a, b, result, n)
  {
    hide Bytes, DecodeInode, MapKept, OthersKept;
    var f := View(a.s, ino);
    assert FileOk(a.s, ino, 0);
    TailAfterWrite(f, a.buf, a.offset, a.base, n, f.size);
    EndWrite(b.s, ino);
  }

  /** sfs_io's last step when the write went past the old end. */
  lemma SizeRaised(ino: nat, a: Snap, b: Snap, c: Snap, result: Errno, n: nat)
    requires Inv(a.s) && InvWriting(b.s, ino) && Step(UIO_WRITE, ino, a, b, n)
    requires MoveResult(ino, a, result, n, b.s)
    requires ino in b.s.vnodes && b.s.vnodes[ino].inode.size < b.offset < 0x8000_0000
    requires c == b.(s := PutInode(b.s, ino, b.s.vnodes[ino].inode.(size := b.offset)))
    ensures Inv(c.s) && WriteSpec(ino, a, c, result, n)
  {
    hide Bytes, DecodeInode, MapKept, OthersKept, InvWriting, FileAfter, TailClear;
    var f := View(a.s, ino);
    TailOf(a.s, ino);
    SetMeta(b.s, ino, b.s.vnodes[ino].inode.(size := b.offset), ino);
    TailAfterWrite(f, a.buf, a.offset, a.base, n, b.offset);
    EndWrite(c.s, ino);
    OthersKeptTrans(a.s, b.s, c.s, ino);
    MapKeptTrans(a.s, b.s, c.s, ino);
    RangeKept(b.s, c.s, ino, a.offset, a.offset + n);
  }

  lemma RangeKept(s: State, s': State, ino: nat, lo: nat, hi: nat)
    requires MapKept(s, s', ino) && MappedRange(s, ino, lo, hi)
    ensures MappedRange(s', ino, lo, hi)
  {
    hide Ptr, InodeOf;
  }

  lemma MapKeptTrans(s: State, t: State, u: State, ino: nat)
    requires MapKept(s, t, ino) && MapKept(t, u, ino)
    ensures MapKept(s, u, ino)
  {
  }

  lemma InvParts(s: State, w: nat)
    requires InvWriting(s, w)
    ensures Owned(s)
  {
  }

  lemma ZeroIs(b: seq<byte>)
    requires |b| == 512 && forall i | 0 <= i < 512 :: b[i] == 0
    ensures b == ZeroBlock()
  {
  }

  lemma NotGone(s: State, ino: nat, n: nat)
    ensures IndirectGone(s, ino, n) ==> InodeOf(s, ino).indirect != 0 && n < HIGHBLOCK
  {
  }

  /** The indirect block is not among the data blocks. */
  lemma IndirectOnce(s: State, ino: nat, n: nat)
    requires Owned(s) && Live(s, ino) && InodeOf(s, ino).indirect != 0
    ensures var b := InodeOf(s, ino).indirect; b < |s.disk| && b in s.used && b !in CutData(s, ino, n, MAXBLOCKS)
  {
    IndirectInRange(s, ino);
  }

  /** The invariant holds again exactly if nothing is left past the new end. */
  lemma TruncatedTail(s: State, s': State, ino: nat, len: word)
    requires Inv(s) && Live(s, ino) && InvWriting(s', ino) && Live(s', ino)
    requires View(s', ino) == CutView(View(s, ino), len)
    ensures Inv(s') <==> CutView(View(s, ino), len) == Clipped(View(s, ino), len)
  {
    hide CutView, Clipped, Bytes, InvWriting;
    TailOf(s, ino);
    TruncateExact(View(s, ino), len);
    if TailClear(View(s', ino)) {
      EndWrite(s', ino);
    }
    if Inv(s') {
      TailOf(s', ino);
    }
  }

  lemma BlockInRange(s: State, ino: nat, k: nat, w: nat)
    requires InvWriting(s, w) && ino in s.vnodes && k < MAXBLOCKS
    ensures var b := Ptr(s, InodeOf(s, ino), k); b != 0 ==> b < |s.disk| && b in s.used
  {
    PtrInRange(s, ino, k);
  }

  lemma EntryMissing(s: State, ino: nat, idoff: nat)
    requires ino in s.vnodes && idoff < DBPERIDB && 0 < s.vnodes[ino].inode.indirect < |s.disk|
    requires WordsOf(s.disk[s.vnodes[ino].inode.indirect])[idoff] == 0
    ensures Ptr(s, InodeOf(s, ino), NDIRECT + idoff) == 0
  {
  }

  lemma IndexInRange(s: State, ino: nat, w: nat)
    requires InvWriting(s, w) && ino in s.vnodes
    ensures var b := s.vnodes[ino].inode.indirect; b != 0 ==> b < |s.disk|
  {
    IndirectInRange(s, ino);
  }

  class Sfs {
    const nblocks: nat            // sp_nblocks
    const freemap: Bitmap
    var freemapdirty: bool
    var disk: seq<Block>
    var vnodes: map<nat, Vnode>
    ghost var owner: map<nat, Slot>

    /** The fields as sfs_domount sets them; `owner` says who owns the blocks of the image. */
    constructor (nblocks: nat, disk: seq<Block>, freemap: Bitmap, ghost owner: map<nat, Slot>)
      ensures this.nblocks == nblocks && this.freemap == freemap && !freemapdirty
      ensures this.disk == disk && vnodes == map[] && this.owner == owner
    {
      this.nblocks := nblocks;
      this.freemap := freemap;
      this.freemapdirty := false;
      this.disk := disk;
      this.vnodes := map[];
      this.owner := owner;
    }

    ghost predicate Wf()
      reads this, freemap, freemap.v
    {
      freemap.Valid() && |disk| == nblocks && freemap.nbits == BitmapSize(nblocks)
    }

    ghost function St(): (s: State)
      requires Wf()
      reads this, freemap, freemap.v
    {
      State(disk, freemap.Marked(), freemapdirty, vnodes, owner)
    }

    ghost predicate Valid()
      reads this, freemap, freemap.v
    {
      Wf() && Inv(St())
    }

    ghost predicate Writing(w: nat)
      reads this, freemap, freemap.v
    {
      Wf() && InvWriting(St(), w)
    }

    // ---- space allocation ----

    /** sfs_balloc: the lowest free block, cleared. It is never block 0 nor past the end. */
    method BAlloc() returns (result: Errno, b: nat)
      requires Wf() && Owned(St())
      modifies this`disk, this`freemapdirty, freemap.v
      ensures Wf()
      ensures result == Success || result == ENOSPC
      ensures result == Success ==>
                && 0 < b < nblocks && b !in old(St()).used && (forall c: nat | c < b :: c in old(St()).used)
                && St() == old(St()).(disk := old(disk)[b := ZeroBlock()], used := old(St()).used + {b}, mapdirty := true)
      ensures result == ENOSPC ==> St() == old(St()) && Full(St())
    {
      ghost var s := St();
      result, b := freemap.Alloc();
      if result != Success {
        assert freemap.Marked() == s.used;
        return;
      }
      freemapdirty := true;
      assert b !in Beyond(nblocks);
      assert !Past(nblocks, b);
      disk := disk[b := ZeroBlock()];
    }

    /** sfs_bfree: the block must be marked. */
    method BFree(b: nat)
      requires Wf() && b in St().used
      modifies this`freemapdirty, freemap.v
      ensures Wf() && St() == old(St()).(used := old(St()).used - {b}, mapdirty := true)
    {
      freemap.Unmark(b);
      freemapdirty := true;
    }

    /** sfs_rblock into a buffer. */
    method ReadBlock(buf: array<byte>, b: nat)
      requires buf.Length == BLOCKSIZE && b < |disk|
      modifies buf
      ensures buf[..] == disk[b]
    {
      forall i | 0 <= i < BLOCKSIZE {
        buf[i] := disk[b][i];
      }
    }

    // ---- block mapping ----

    method BMapDirect(ino: nat, k: nat, doalloc: bool, ghost w: nat) returns (result: Errno, block: nat)
      requires Writing(w) && ino in vnodes && k < NDIRECT
      modifies this, freemap.v
      ensures Writing(w)
      ensures SameFiles(old(St()), St()) && CacheBut(old(vnodes), vnodes, ino)
      ensures !doalloc ==> St() == old(St()) && result != ENOSPC
      ensures result == Success ==>
                && block == Ptr(St(), InodeOf(St(), ino), k)
                && (doalloc ==> block != 0)
      ensures result == ENOSPC ==> Full(St()) && old(vnodes[ino].inode.direct[k]) == 0
      ensures result in {Success, ENOSPC}
    {
      hide InvWriting, SameFiles, Full, SpareMarked, MarkedIn, DecodeInode, WordsOf;
      ghost var s := St();
      SameFilesRefl(s);
      block := vnodes[ino].inode.direct[k];
      if block == 0 && doalloc {
        assert Owned(s) by { InvParts(s, w); }
        result, block := BAlloc();
        if result != Success {
          return;
        }
        DirectAttached(s, ino, k, block, w);
        var i := vnodes[ino].inode;
        vnodes := vnodes[ino := vnodes[ino].(inode := i.(direct := i.direct[k := block]), dirty := true)];
        owner := owner[block := DataBlock(ino, k)];
        assert St() == WithDirect(s, ino, k, block);
      }
      return Success, block;
    }

    method AddIndirect(ino: nat, ghost w: nat) returns (result: Errno, idblock: nat)
      requires Writing(w) && ino in vnodes && vnodes[ino].inode.indirect == 0
      modifies this, freemap.v
      ensures Writing(w)
      ensures SameFiles(old(St()), St()) && CacheBut(old(vnodes), vnodes, ino)
      ensures result == Success ==>
                && idblock == vnodes[ino].inode.indirect != 0
                && idblock < nblocks && disk[idblock] == ZeroBlock()
      ensures result == ENOSPC ==> Full(St())
      ensures result in {Success, ENOSPC}
    {
      hide InvWriting, SameFiles, Full, SpareMarked, MarkedIn, DecodeInode, WordsOf;
      ghost var s := St();
      SameFilesRefl(s);
      InvParts(s, w);
      result, idblock := BAlloc();
      if result != Success {
        return;
      }
      IndirectAttached(s, ino, idblock, w);
      vnodes := vnodes[ino := vnodes[ino].(inode := vnodes[ino].inode.(indirect := idblock), dirty := true)];
      owner := owner[idblock := IndirectBlock(ino)];
      assert St() == WithIndirect(s, ino, idblock);
    }

    method BMapEntry(ino: nat, idblock: nat, idbuf: Words, idoff: nat, doalloc: bool, ghost w: nat)
      returns (result: Errno, block: nat)
      requires Writing(w) && ino in vnodes && idoff < DBPERIDB
      requires idblock == vnodes[ino].inode.indirect != 0
      requires idblock < nblocks && idbuf == WordsOf(disk[idblock])
      modifies this, freemap.v
      ensures Writing(w)
      ensures SameFiles(old(St()), St()) && CacheBut(old(vnodes), vnodes, ino)
      ensures !doalloc ==> St() == old(St()) && result != ENOSPC
      ensures result == Success ==>
                && block == Ptr(St(), InodeOf(St(), ino), NDIRECT + idoff)
                && (doalloc ==> block != 0)
      ensures result == ENOSPC ==> Full(St()) && idbuf[idoff] == 0
      ensures result in {Success, ENOSPC}
    {
      hide InvWriting, SameFiles, Full, SpareMarked, MarkedIn, DecodeInode, WordsOf, BytesOf, CacheBut;
      SameFilesRefl(St());
      CacheButRefl(vnodes, ino);
      block := idbuf[idoff];
      if block == 0 && doalloc {
        result, block := AddEntry(ino, idblock, idbuf, idoff, w);
        return;
      }
      return Success, block;
    }

    /** A missing entry of the indirect block is allocated and the block written back. */
    method AddEntry(ino: nat, idblock: nat, idbuf: Words, idoff: nat, ghost w: nat) returns (result: Errno, block: nat)
      requires Writing(w) && ino in vnodes && idoff < DBPERIDB && idbuf[idoff] == 0
      requires idblock == vnodes[ino].inode.indirect != 0
      requires idblock < nblocks && idbuf == WordsOf(disk[idblock])
      modifies this`disk, this`freemapdirty, this`owner, freemap.v
      ensures Writing(w) && SameFiles(old(St()), St())
      ensures result == Success ==> block == Ptr(St(), InodeOf(St(), ino), NDIRECT + idoff) && block != 0
      ensures result == ENOSPC ==> Full(St())
      ensures result in {Success, ENOSPC}
    {
      hide InvWriting, SameFiles, Full, SpareMarked, MarkedIn, DecodeInode, WordsOf, BytesOf, Ptr;
      ghost var s := St();
      SameFilesRefl(s);
      EntryMissing(s, ino, idoff);
      assert Owned(s) by { InvParts(s, w); }
      result, block := BAlloc();
      if result != Success {
        return;
      }
      EntryAttached(s, ino, NDIRECT + idoff, block, w);
      disk := disk[idblock := BytesOf(idbuf[idoff := block])];
      owner := owner[block := DataBlock(ino, NDIRECT + idoff)];
      assert St() == WithEntry(s, ino, NDIRECT + idoff, block);
    }

    /**
     sfs_bmap: the device block behind block `fileblock` of a file, allocated
     if asked for. Whatever happens, every file reads as before; a block
     handed back is marked in use and is the one the file maps there.
     */
    method BMap(ino: nat, fileblock: nat, doalloc: bool, ghost w: nat) returns (result: Errno, block: nat)
      requires Writing(w) && ino in vnodes
      modifies this, freemap.v
      ensures Writing(w)
      ensures SameFiles(old(St()), St()) && CacheBut(old(vnodes), vnodes, ino)
      ensures !doalloc ==> St() == old(St()) && result != ENOSPC
      ensures result == Success ==>
                && fileblock < MAXBLOCKS
                && block == Ptr(St(), InodeOf(St(), ino), fileblock)
                && (block != 0 ==> block < nblocks && block in St().used)
                && (doalloc ==> block != 0)
      ensures result == EINVAL <==> fileblock >= MAXBLOCKS
      ensures result == EINVAL ==> St() == old(St())
      ensures result == ENOSPC ==> Full(St()) && Ptr(old(St()), InodeOf(old(St()), ino), fileblock) == 0
      ensures result in {Success, EINVAL, ENOSPC}
    {
      hide InvWriting, SameFiles, Full, SpareMarked, MarkedIn, DecodeInode, WordsOf;
      ghost var s := St();
      SameFilesRefl(s);
      if fileblock < NDIRECT {
        result, block := BMapDirect(ino, fileblock, doalloc, w);
        BlockInRange(St(), ino, fileblock, w);
        return;
      }
      var idnum, idoff := (fileblock - NDIRECT) / DBPERIDB, (fileblock - NDIRECT) % DBPERIDB;
      if idnum > 0 {
        return EINVAL, 0;
      }
      var idblock := vnodes[ino].inode.indirect;
      var idbuf: Words;
      if idblock == 0 && !doalloc {
        return Success, 0;
      } else if idblock == 0 {
        result, idblock := AddIndirect(ino, w);
        if result != Success {
          return result, 0;
        }
        idbuf := seq(128, _ => 0);
        ZeroWords();
      } else {
        IndexInRange(St(), ino, w);
        idbuf := WordsOf(disk[idblock]);
      }
      ghost var mid := St();
      result, block := BMapEntry(ino, idblock, idbuf, idoff, doalloc, w);
      SameFilesTrans(s, mid, St());
      BlockInRange(St(), ino, fileblock, w);
    }

    // ---- file-level I/O ----

    ghost function SnapOf(uio: Uio): (r: Snap)
      requires Wf()
      reads this, freemap, freemap.v, uio, uio.buf
    {
      Snap(St(), uio.buf[..], uio.base, uio.len, uio.offset, uio.resid)
    }

    /** The caller's buffer is not the storage of the free map. */
    ghost predicate Apart(uio: Uio)
    {
      uio.buf as object != freemap.v
    }

    /**
     sfs_partialio: part of one block. Either all `len` bytes move, or (past
     the last mappable block, or out of space) none do.
     */
    method PartialIo(ino: nat, uio: Uio, skipstart: nat, len: nat, ghost w: nat) returns (result: Errno)
      requires Writing(w) && ino in vnodes
      requires uio.rw == UIO_WRITE ==> w == ino
      requires uio.Valid() && Apart(uio) && len <= uio.resid
      requires skipstart == uio.offset % BLOCKSIZE && skipstart + len <= BLOCKSIZE
      modifies this, freemap.v, uio, uio.buf
      ensures Writing(w) && uio.Valid()
      ensures Step(uio.rw, ino, old(SnapOf(uio)), SnapOf(uio), if result == Success then len else 0)
      ensures IoResult(uio.rw, ino, old(SnapOf(uio)), result, St())
    {
      hide InvWriting, SameFiles, Step, Full, SpareMarked, MarkedIn, InodeOf, Ptr, Splice, ZeroBlock;
      ghost var a := SnapOf(uio);
      CachedLive(St(), ino, w);
      var doalloc := uio.rw == UIO_WRITE;
      var fileblock := uio.offset / BLOCKSIZE;
      var diskblock;
      result, diskblock := BMap(ino, fileblock, doalloc, w);
      ghost var mid := St();
      if result != Success {
        StepSame(uio.rw, ino, a, SnapOf(uio));
        return;
      }
      PatchBlock(ino, uio, diskblock, skipstart, len, w, a);
    }

    /** The rest of sfs_partialio: through a one-block buffer, written back if it was a write. */
    method PatchBlock(ino: nat, uio: Uio, diskblock: nat, skipstart: nat, len: nat, ghost w: nat, ghost a: Snap)
      requires Writing(w) && ino in vnodes && Live(a.s, ino)
      requires uio.rw == UIO_WRITE ==> w == ino && diskblock != 0
      requires uio.Valid() && Apart(uio) && len <= uio.resid
      requires skipstart == uio.offset % BLOCKSIZE && skipstart + len <= BLOCKSIZE && uio.offset < MAXBYTES
      requires diskblock == Ptr(St(), InodeOf(St(), ino), uio.offset / BLOCKSIZE)
      requires diskblock != 0 ==> diskblock < nblocks
      requires a == SnapOf(uio).(s := a.s)
      requires SameFiles(a.s, St()) && CacheBut(a.s.vnodes, vnodes, ino) && (uio.rw == UIO_READ ==> St() == a.s)
      modifies this`disk, uio, uio.buf
      ensures Writing(w) && uio.Valid()
      ensures Step(uio.rw, ino, a, SnapOf(uio), len)
      ensures St().used == old(St()).used
    {
      hide InvWriting, SameFiles, Step, SpareMarked, MarkedIn, InodeOf, Ptr, Splice, ZeroBlock;
      ghost var mid := St();
      var iobuf := new byte[512](_ => 0);
      if diskblock == 0 {
        ZeroIs(iobuf[..]);
      } else {
        ReadBlock(iobuf, diskblock);
      }
      ghost var blk: Block := iobuf[..];
      if uio.rw == UIO_READ {
        uio.MoveOut(iobuf, skipstart, len);
        ReadStep(ino, a, SnapOf(uio), blk, skipstart, len);
      } else {
        uio.MoveIn(iobuf, skipstart, len);
        disk := disk[diskblock := iobuf[..]];
        WriteStep(ino, a, mid, SnapOf(uio), skipstart, len);
      }
    }

    /** sfs_rwblock on a uio set up for exactly one device block: the device copies through its buffer. */
    method RwBlock(uio: Uio)
      requires uio.Valid() && uio.resid == BLOCKSIZE && uio.offset % BLOCKSIZE == 0
      requires uio.offset / BLOCKSIZE < |disk|
      modifies this`disk, uio, uio.buf
      ensures uio.Valid() && uio.Advanced(BLOCKSIZE)
      ensures uio.rw == UIO_READ ==>
                && disk == old(disk)
                && uio.buf[..] == Splice(old(uio.buf[..]), old(uio.base), disk[old(uio.offset) / BLOCKSIZE])
      ensures uio.rw == UIO_WRITE ==>
                && uio.buf[..] == old(uio.buf[..])
                && disk == old(disk)[old(uio.offset) / BLOCKSIZE := uio.buf[old(uio.base)..uio.base]]
    {
      hide Splice;
      var sector := uio.offset / BLOCKSIZE;
      var cardbuf := new byte[512](_ => 0);
      if uio.rw == UIO_WRITE {
        ghost var before := cardbuf[..];
        uio.MoveIn(cardbuf, 0, BLOCKSIZE);
        SpliceAll(before, uio.buf[old(uio.base)..uio.base]);
        disk := disk[sector := cardbuf[..]];
      } else {
        ReadBlock(cardbuf, sector);
        assert cardbuf[0..512] == cardbuf[..];
        uio.MoveOut(cardbuf, 0, BLOCKSIZE);
      }
    }

    /** The heart of sfs_blockio: the uio is pointed at the device block for the transfer, and back. */
    method DirectIo(uio: Uio, diskblock: nat)
      requires uio.Valid() && uio.resid >= BLOCKSIZE && diskblock < |disk|
      modifies this`disk, uio, uio.buf
      ensures uio.Valid() && uio.Advanced(BLOCKSIZE)
      ensures uio.rw == UIO_READ ==>
                && disk == old(disk)
                && uio.buf[..] == Splice(old(uio.buf[..]), old(uio.base), disk[diskblock])
      ensures uio.rw == UIO_WRITE ==>
                && uio.buf[..] == old(uio.buf[..])
                && disk == old(disk)[diskblock := uio.buf[old(uio.base)..uio.base]]
    {
      hide Splice;
      var saveoff := uio.offset;
      var diskoff := diskblock * BLOCKSIZE;
      uio.offset := diskoff;
      var saveres := uio.resid;
      var diskres := BLOCKSIZE;
      uio.resid := diskres;
      assert uio.offset / BLOCKSIZE == diskblock;
      RwBlock(uio);
      uio.offset := (uio.offset - diskoff) + saveoff;
      uio.resid := (uio.resid - diskres) + saveres;
    }

    /** sfs_blockio: one whole block, straight between the device and the caller's buffer. */
    method BlockIo(ino: nat, uio: Uio, ghost w: nat) returns (result: Errno)
      requires Writing(w) && ino in vnodes
      requires uio.rw == UIO_WRITE ==> w == ino
      requires uio.Valid() && Apart(uio) && uio.resid >= BLOCKSIZE
      requires uio.offset % BLOCKSIZE == 0
      modifies this, freemap.v, uio, uio.buf
      ensures Writing(w) && uio.Valid()
      ensures Step(uio.rw, ino, old(SnapOf(uio)), SnapOf(uio), if result == Success then BLOCKSIZE else 0)
      ensures IoResult(uio.rw, ino, old(SnapOf(uio)), result, St())
    {
      hide InvWriting, SameFiles, Step, Full, SpareMarked, MarkedIn, InodeOf, Ptr, Splice, ZeroBlock;
      ghost var a := SnapOf(uio);
      CachedLive(St(), ino, w);
      var doalloc := uio.rw == UIO_WRITE;
      var fileblock := uio.offset / BLOCKSIZE;
      var diskblock;
      result, diskblock := BMap(ino, fileblock, doalloc, w);
      if result != Success {
        StepSame(uio.rw, ino, a, SnapOf(uio));
        return;
      }
      TransferBlock(ino, uio, diskblock, w, a);
    }

    /** The rest of sfs_blockio: zeros for a hole, otherwise the device block itself. */
    method TransferBlock(ino: nat, uio: Uio, diskblock: nat, ghost w: nat, ghost a: Snap)
      requires Writing(w) && ino in vnodes && Live(a.s, ino)
      requires uio.rw == UIO_WRITE ==> w == ino && diskblock != 0
      requires uio.Valid() && Apart(uio) && uio.resid >= BLOCKSIZE
      requires uio.offset % BLOCKSIZE == 0 && uio.offset < MAXBYTES
      requires diskblock == Ptr(St(), InodeOf(St(), ino), uio.offset / BLOCKSIZE)
      requires diskblock != 0 ==> diskblock < nblocks
      requires a == SnapOf(uio).(s := a.s)
      requires SameFiles(a.s, St()) && CacheBut(a.s.vnodes, vnodes, ino) && (uio.rw == UIO_READ ==> St() == a.s)
      modifies this`disk, uio, uio.buf
      ensures Writing(w) && uio.Valid()
      ensures Step(uio.rw, ino, a, SnapOf(uio), BLOCKSIZE)
      ensures St().used == old(St()).used
    {
      hide InvWriting, SameFiles, Step, SpareMarked, MarkedIn, InodeOf, Ptr, Splice, ZeroBlock, CacheBut;
      ghost var mid := St();
      if diskblock == 0 {
        uio.MoveZeros(BLOCKSIZE);
        ZeroIs(seq(BLOCKSIZE, _ => 0));
        assert ZeroBlock()[0..512] == ZeroBlock();
        ReadStep(ino, a, SnapOf(uio), ZeroBlock(), 0, BLOCKSIZE);
        return;
      }
      DirectIo(uio, diskblock);
      if uio.rw == UIO_READ {
        assert disk[diskblock][0..512] == disk[diskblock];
        ReadStep(ino, a, SnapOf(uio), disk[diskblock], 0, BLOCKSIZE);
      } else {
        SpliceAll(mid.disk[diskblock], uio.buf[a.base..uio.base]);
        WriteStep(ino, a, mid, SnapOf(uio), 0, BLOCKSIZE);
      }
    }

    /**
     The body of sfs_io between the end-of-file clipping and the update of the
     size: a leading partial block, whole blocks, a trailing partial block.
     */
    method MoveBlocks(ino: nat, uio: Uio, ghost w: nat) returns (result: Errno, ghost n: nat)
      requires Writing(w) && ino in vnodes
      requires uio.rw == UIO_WRITE ==> w == ino
      requires uio.Valid() && Apart(uio)
      modifies this, freemap.v, uio, uio.buf
      ensures Writing(w) && uio.Valid()
      ensures Step(uio.rw, ino, old(SnapOf(uio)), SnapOf(uio), n)
      ensures MoveResult(ino, old(SnapOf(uio)), result, n, St())
      ensures uio.rw == UIO_READ ==> result != ENOSPC
    {
      hide InvWriting, Step, Full, SpareMarked, MarkedIn, MoveResult, Mappable, PastMap;
      ghost var a := SnapOf(uio);
      CachedLive(St(), ino, w);
      StepNone(uio.rw, ino, a);
      n := 0;
      var blkoff := uio.offset % BLOCKSIZE;
      if blkoff != 0 {
        var len := BLOCKSIZE - blkoff;
        if len > uio.resid {
          len := uio.resid;
        }
        result := PartialIo(ino, uio, blkoff, len, w);
        StepCursor(uio.rw, ino, a, SnapOf(uio), if result == Success then len else 0);
        if result != Success {
          MoveEnds(ino, a, result, n, St(), a.resid);
          return;
        }
        n := len;
      }
      if uio.resid == 0 {
        MoveEnds(ino, a, Success, n, St(), 0);
        return Success, n;
      }
      result, n := MoveAligned(ino, uio, w, a, n);
    }

    /** The block-aligned rest of a request of which `done` bytes have been moved since `a`. */
    method MoveAligned(ino: nat, uio: Uio, ghost w: nat, ghost a: Snap, ghost done: nat)
      returns (result: Errno, ghost n: nat)
      requires Writing(w) && ino in vnodes
      requires uio.rw == UIO_WRITE ==> w == ino
      requires uio.Valid() && Apart(uio)
      requires uio.offset % BLOCKSIZE == 0 && uio.resid > 0
      requires Step(uio.rw, ino, a, SnapOf(uio), done)
      modifies this, freemap.v, uio, uio.buf
      ensures Writing(w) && uio.Valid()
      ensures Step(uio.rw, ino, a, SnapOf(uio), n)
      ensures MoveResult(ino, a, result, n, St())
      ensures uio.rw == UIO_READ ==> result != ENOSPC
    {
      hide InvWriting, Step, Full, SpareMarked, MarkedIn, MoveResult, Mappable, PastMap;
      result, n := MoveWhole(ino, uio, w, a, done);
      if result != Success {
        return;
      }
      ghost var b := SnapOf(uio);
      StepCursor(uio.rw, ino, a, b, n);
      if uio.resid > 0 {
        ghost var len := uio.resid;
        result := PartialIo(ino, uio, 0, uio.resid, w);
        ghost var m := if result == Success then len else 0;
        StepTrans(uio.rw, ino, a, b, SnapOf(uio), n, m);
        StepCursor(uio.rw, ino, a, SnapOf(uio), n + m);
        if result != Success {
          if result == ENOSPC {
            UnmappedBefore(uio.rw, ino, a, b, n);
          }
          MoveEnds(ino, a, result, n, St(), uio.resid);
          return;
        }
        n := n + len;
      }
      MoveEnds(ino, a, Success, n, St(), 0);
      return Success, n;
    }

    /** The loop over whole blocks; on success less than a block is left. */
    method MoveWhole(ino: nat, uio: Uio, ghost w: nat, ghost a: Snap, ghost done: nat)
      returns (result: Errno, ghost n: nat)
      requires Writing(w) && ino in vnodes
      requires uio.rw == UIO_WRITE ==> w == ino
      requires uio.Valid() && Apart(uio)
      requires uio.offset % BLOCKSIZE == 0 && uio.resid > 0
      requires Step(uio.rw, ino, a, SnapOf(uio), done)
      modifies this, freemap.v, uio, uio.buf
      ensures Writing(w) && uio.Valid() && ino in vnodes
      ensures Step(uio.rw, ino, a, SnapOf(uio), n)
      ensures result == Success ==> uio.offset % BLOCKSIZE == 0 && uio.resid < BLOCKSIZE
      ensures result == Success ==> n > 0 || uio.resid > 0
      ensures result != Success ==> MoveResult(ino, a, result, n, St())
      ensures uio.rw == UIO_READ ==> result != ENOSPC
    {
      hide InvWriting, Step, Full, SpareMarked, MarkedIn, MoveResult, Mappable, PastMap;
      n := done;
      var nblocks := uio.resid / BLOCKSIZE;
      for i := 0 to nblocks
        invariant Writing(w) && uio.Valid() && ino in vnodes
        invariant uio.offset % BLOCKSIZE == 0 && uio.resid / BLOCKSIZE == nblocks - i
        invariant n > 0 || uio.resid > 0
        invariant Step(uio.rw, ino, a, SnapOf(uio), n)
      {
        result, n := MoveOne(ino, uio, w, a, n);
        if result != Success {
          return;
        }
      }
      return Success, n;
    }

    /** One turn of that loop. */
    method MoveOne(ino: nat, uio: Uio, ghost w: nat, ghost a: Snap, ghost done: nat)
      returns (result: Errno, ghost n: nat)
      requires Writing(w) && ino in vnodes
      requires uio.rw == UIO_WRITE ==> w == ino
      requires uio.Valid() && Apart(uio)
      requires uio.offset % BLOCKSIZE == 0 && uio.resid >= BLOCKSIZE
      requires Step(uio.rw, ino, a, SnapOf(uio), done)
      modifies this, freemap.v, uio, uio.buf
      ensures Writing(w) && uio.Valid() && ino in vnodes
      ensures Step(uio.rw, ino, a, SnapOf(uio), n)
      ensures result == Success ==> uio.offset % BLOCKSIZE == 0 && uio.resid == old(uio.resid) - BLOCKSIZE && n > 0
      ensures result != Success ==> MoveResult(ino, a, result, n, St())
      ensures uio.rw == UIO_READ ==> result != ENOSPC
    {
      hide InvWriting, Step, Full, SpareMarked, MarkedIn, MoveResult, Mappable, PastMap;
      ghost var b := SnapOf(uio);
      result := BlockIo(ino, uio, w);
      ghost var m := if result == Success then BLOCKSIZE else 0;
      n := done + m;
      StepTrans(uio.rw, ino, a, b, SnapOf(uio), done, m);
      StepCursor(uio.rw, ino, b, SnapOf(uio), m);
      if result != Success {
        StepCursor(uio.rw, ino, a, b, done);
        if result == ENOSPC {
          UnmappedBefore(uio.rw, ino, a, b, done);
        }
        MoveEnds(ino, a, result, done, St(), uio.resid);
      }
    }

    /**
     sfs_io: the whole of read and write. A read returns the file's bytes,
     clipped at the end of the file, and changes nothing on the device. A
     write stores exactly the bytes it consumed from the caller and leaves the
     size at the larger of the old size and the final offset.
     */
    method Io(ino: nat, uio: Uio) returns (result: Errno, ghost n: nat)
      requires Valid() && ino in vnodes
      requires uio.Valid() && Apart(uio)
      requires uio.offset < 0x8000_0000 && uio.resid < 0x1_0000_0000
      modifies this, freemap.v, uio, uio.buf
      ensures Valid() && uio.Valid() && CursorMoved(old(SnapOf(uio)), SnapOf(uio), n)
      ensures uio.rw == UIO_READ ==> ReadSpec(ino, old(SnapOf(uio)), SnapOf(uio), result, n)
      ensures uio.rw == UIO_WRITE ==> WriteSpec(ino, old(SnapOf(uio)), SnapOf(uio), result, n)
    {
      if uio.rw == UIO_READ {
        result, n := ReadIo(ino, uio);
      } else {
        result, n := WriteIo(ino, uio);
      }
    }

    /** sfs_io for reading: the part of the request past the end of file is set aside in extraresid. */
    method ReadIo(ino: nat, uio: Uio) returns (result: Errno, ghost n: nat)
      requires Valid() && ino in vnodes
      requires uio.Valid() && Apart(uio) && uio.rw == UIO_READ
      requires uio.offset < 0x8000_0000 && uio.resid < 0x1_0000_0000
      modifies this, freemap.v, uio, uio.buf
      ensures Valid() && uio.Valid() && CursorMoved(old(SnapOf(uio)), SnapOf(uio), n)
      ensures ReadSpec(ino, old(SnapOf(uio)), SnapOf(uio), result, n)
    {
      hide InvWriting, Step, Full, SpareMarked, MarkedIn, Bytes;
      ghost var a := SnapOf(uio);
      var size := vnodes[ino].inode.size;
      assert size == View(a.s, ino).size;
      var endpos := SignedWord(uio.offset + uio.resid);
      if uio.offset >= size {
        return Success, 0;
      }
      var extraresid := 0;
      if endpos > size {
        extraresid := endpos - size;
        assert uio.resid > extraresid;
        uio.resid := uio.resid - extraresid;
      }
      ghost var b := SnapOf(uio);
      result, n := MoveBlocks(ino, uio, 0);
      StepCursor(UIO_READ, ino, b, SnapOf(uio), n);
      StepReads(ino, b, SnapOf(uio), n);
      uio.resid := uio.resid + extraresid;
    }

    /** sfs_io for writing. */
    method WriteIo(ino: nat, uio: Uio) returns (result: Errno, ghost n: nat)
      requires Valid() && ino in vnodes
      requires uio.Valid() && Apart(uio) && uio.rw == UIO_WRITE
      requires uio.offset < 0x8000_0000 && uio.resid < 0x1_0000_0000
      modifies this, freemap.v, uio, uio.buf
      ensures Valid() && uio.Valid() && CursorMoved(old(SnapOf(uio)), SnapOf(uio), n)
      ensures WriteSpec(ino, old(SnapOf(uio)), SnapOf(uio), result, n)
    {
      hide InvWriting, Step, SpareMarked, MarkedIn, MoveResult, WriteSpec;
      ghost var a := SnapOf(uio);
      BeginWrite(St(), ino);
      result, n := MoveBlocks(ino, uio, ino);
      ghost var b := SnapOf(uio);
      StepCursor(UIO_WRITE, ino, a, b, n);
      if uio.offset > vnodes[ino].inode.size {
        vnodes := vnodes[ino := vnodes[ino].(inode := vnodes[ino].inode.(size := uio.offset), dirty := true)];
        SizeRaised(ino, a, b, SnapOf(uio), result, n);
      } else {
        SizeKept(ino, a, b, result, n);
      }
    }

    // ---- truncation ----

    /** sfs_truncate, to any length. */
    method Truncate(ino: nat, len: word)
      requires Valid() && ino in vnodes && len < 0x8000_0000
      modifies this, freemap.v
      ensures Writing(ino) && St() == Cut(old(St()), ino, len)
      ensures View(St(), ino) == CutView(old(View(St(), ino)), len)
      ensures Live(St(), ino) && OthersKept(old(St()), St(), ino)
      ensures Valid() <==> CutView(old(View(St(), ino)), len) == Clipped(old(View(St(), ino)), len)
    {
      hide InvWriting, SpareMarked, MarkedIn, DecodeInode, WordsOf, View, OthersKept, Owned, CutBlocks, CutDisk, CutData, CutDirect, IndirectGone, BlockLen, CutView, Clipped, TailClear;
      ghost var s := St();
      InvParts(s, 0);
      CachedLive(s, ino, 0);
      CutIs(s, ino, len);
      var blocklen := BlockLen(len);
      FreeDirect(ino, blocklen);
      var idblock := vnodes[ino].inode.indirect;
      if blocklen < HIGHBLOCK && idblock != 0 {
        var gone := FreeIndirect(ino, blocklen, s);
        if gone {
          vnodes := vnodes[ino := vnodes[ino].(inode := vnodes[ino].inode.(indirect := 0), dirty := true)];
        }
      } else {
        OnlyDirectCut(s, ino, blocklen);
        NotGone(s, ino, blocklen);
      }
      vnodes := vnodes[ino := vnodes[ino].(inode := vnodes[ino].inode.(size := len), dirty := true)];
      owner := owner - CutBlocks(s, ino, blocklen);
      assert vnodes == Cut(s, ino, len).vnodes;
      assert St() == Cut(s, ino, len);
      TruncatedTail(s, St(), ino, len);
    }

    /** The loop over the direct blocks. */
    method FreeDirect(ino: nat, blocklen: nat)
      requires Wf() && Owned(St()) && Live(St(), ino) && ino in vnodes
      modifies this, freemap.v
      ensures Wf() && ino in vnodes
      ensures disk == old(disk) && owner == old(owner)
      ensures St().used == old(St()).used - old(CutData(St(), ino, blocklen, NDIRECT))
      ensures freemapdirty == (old(freemapdirty) || old(CutData(St(), ino, blocklen, NDIRECT)) != {})
      ensures vnodes == old(vnodes)[ino := vnodes[ino]]
      ensures vnodes[ino].refs == old(vnodes[ino].refs)
      ensures vnodes[ino].inode == old(vnodes[ino].inode).(direct := CutDirect(old(vnodes[ino].inode.direct), blocklen))
    {
      hide SpareMarked, MarkedIn, DecodeInode, WordsOf, CutData, Owned;
      ghost var s := St();
      CutDataNone(s, ino, blocklen);
      ghost var i0 := vnodes[ino].inode;
      for i := 0 to NDIRECT
        invariant Wf() && ino in vnodes && disk == s.disk && owner == s.owner
        invariant St().used == s.used - CutData(s, ino, blocklen, i)
        invariant freemapdirty == (s.mapdirty || CutData(s, ino, blocklen, i) != {})
        invariant vnodes == s.vnodes[ino := vnodes[ino]] && vnodes[ino].refs == s.vnodes[ino].refs
        invariant vnodes[ino].inode == i0.(direct := vnodes[ino].inode.direct)
        invariant forall j | 0 <= j < NDIRECT :: vnodes[ino].inode.direct[j] == if blocklen <= j < i then 0 else i0.direct[j]
      {
        CutDataNext(s, ino, blocklen, i);
        var block := vnodes[ino].inode.direct[i];
        if i >= blocklen && block != 0 {
          BFree(block);
          var v := vnodes[ino];
          vnodes := vnodes[ino := v.(inode := v.inode.(direct := v.inode.direct[i := 0]), dirty := true)];
        }
      }
    }

    /** The loop over the indirect block, and what becomes of the block itself. */
    method FreeIndirect(ino: nat, blocklen: nat, ghost s: State) returns (gone: bool)
      requires Wf() && Owned(s) && Live(s, ino) && ino in vnodes && ino in s.vnodes && blocklen < HIGHBLOCK
      requires disk == s.disk && St().used == s.used - CutData(s, ino, blocklen, NDIRECT)
      requires freemapdirty == (s.mapdirty || CutData(s, ino, blocklen, NDIRECT) != {})
      requires InodeOf(s, ino).indirect == vnodes[ino].inode.indirect != 0
      modifies this`disk, this`freemapdirty, freemap.v
      ensures Wf() && gone == IndirectGone(s, ino, blocklen)
      ensures St().used == s.used - CutBlocks(s, ino, blocklen) && disk == CutDisk(s, ino, blocklen)
      ensures freemapdirty == (s.mapdirty || CutBlocks(s, ino, blocklen) != {})
    {
      hide SpareMarked, MarkedIn, DecodeInode, WordsOf, BytesOf, CutData, Owned, IndirectGone;
      var idblock := vnodes[ino].inode.indirect;
      IndirectOnce(s, ino, blocklen);
      var idbuf, hasnonzero, iddirty := FreeEntries(ino, blocklen, s, WordsOf(disk[idblock]));
      IndirectLoopEnds(s, ino, blocklen, idbuf);
      gone := !hasnonzero;
      if !hasnonzero {
        BFree(idblock);
      } else if iddirty {
        disk := disk[idblock := BytesOf(idbuf)];
      }
    }

    method FreeEntries(ino: nat, blocklen: nat, ghost s: State, words: Words) returns (idbuf: Words, hasnonzero: bool, iddirty: bool)
      requires Wf() && Owned(s) && Live(s, ino) && ino in s.vnodes
      requires InodeOf(s, ino).indirect != 0 && InodeOf(s, ino).indirect < |s.disk|
      requires disk == s.disk && words == WordsOf(disk[InodeOf(s, ino).indirect])
      requires St().used == s.used - CutData(s, ino, blocklen, NDIRECT)
      requires freemapdirty == (s.mapdirty || CutData(s, ino, blocklen, NDIRECT) != {})
      modifies this`freemapdirty, freemap.v
      ensures Wf() && St().used == s.used - CutData(s, ino, blocklen, MAXBLOCKS)
      ensures freemapdirty == (s.mapdirty || CutData(s, ino, blocklen, MAXBLOCKS) != {})
      ensures idbuf == CutWords(words, blocklen)
      ensures hasnonzero <==> !forall j | 0 <= j < DBPERIDB :: idbuf[j] == 0
      ensures iddirty <==> idbuf != words
    {
      hide SpareMarked, MarkedIn, DecodeInode, WordsOf, CutData, Owned;
      idbuf, hasnonzero, iddirty := words, false, false;
      for j := 0 to DBPERIDB
        invariant Wf() && St().used == s.used - CutData(s, ino, blocklen, NDIRECT + j)
        invariant freemapdirty == (s.mapdirty || CutData(s, ino, blocklen, NDIRECT + j) != {})
        invariant forall k | 0 <= k < DBPERIDB :: idbuf[k] == if k < j && !Keeps(blocklen, NDIRECT + k) then 0 else words[k]
        invariant hasnonzero <==> !forall k | 0 <= k < j :: idbuf[k] == 0
        invariant iddirty <==> !forall k | 0 <= k < j :: idbuf[k] == words[k]
      {
        CutDataNext(s, ino, blocklen, NDIRECT + j);
        if blocklen < NDIRECT + j && idbuf[j] != 0 {
          BFree(idbuf[j]);
          idbuf := idbuf[j := 0];
          iddirty := true;
        }
        if idbuf[j] != 0 {
          hasnonzero := true;
        }
      }
      assert idbuf == CutWords(words, blocklen);
    }

    // ---- directory I/O ----

    /** The file system between directory steps: all but the link counts. */
    ghost predicate DirReady()
      reads this, freemap, freemap.v
    {
      Valid() && DirOk(St()) && ROOT_LOCATION in vnodes
    }

    /** sfs_readdir: an existing slot is read whole. */
    method ReadDir(slot: nat) returns (e: DirEntry)
      requires DirReady() && slot < |Dir(St())|
      modifies this, freemap.v
      ensures Wf() && St() == old(St())
      ensures e == Dir(St())[slot]
    {
      hide InvWriting, SpareMarked, MarkedIn, View, DecodeEntry, NamesUnique, NoHoles;
      var sd := new byte[64](_ => 0);
      var ku := new Uio(sd, 64, slot * DIRENTSIZE, UIO_READ);
      ghost var a := SnapOf(ku);
      ghost var v := View(a.s, ROOT_LOCATION);
      assert slot * DIRENTSIZE + DIRENTSIZE <= v.size;
      var result, n := Io(ROOT_LOCATION, ku);
      assert result == Success && n == DIRENTSIZE && ku.resid == 0;
      SpliceAll(a.buf, v.bytes[slot * DIRENTSIZE..slot * DIRENTSIZE + DIRENTSIZE]);
      assert sd[..] == v.bytes[slot * DIRENTSIZE..slot * DIRENTSIZE + DIRENTSIZE];
      e := DecodeEntry(sd[..]);
    }

    /**
     sfs_writedir. Overwriting an existing slot cannot fail; appending one can,
     and then the directory is as it was.
     */
    method WriteDir(e: DirEntry, slot: nat) returns (result: Errno)
      requires DirReady() && slot <= |Dir(St())| && |e.name| + 1 <= NAMELEN
      modifies this, freemap.v
      ensures Valid()
      ensures result == Success ==> DirWritten(old(St()), St(), slot, e)
      ensures result != Success ==>
                && slot == |Dir(old(St()))|
                && SameFiles(old(St()), St()) && CacheBut(old(vnodes), vnodes, ROOT_LOCATION)
      ensures result == EINVAL <==> slot == MAXSLOTS
      ensures result == ENOSPC ==> Full(St())
      ensures result in {Success, EINVAL, ENOSPC}
    {
      hide InvWriting, SpareMarked, MarkedIn, View, EncodeEntry, NamesUnique, NoHoles, Full, WriteSpec, DirWritten, SameFiles;
      var bytes := EncodeEntry(e);
      var sd := new byte[64](i requires 0 <= i < 64 => bytes[i]);
      assert sd[..] == bytes;
      var ku := new Uio(sd, 64, slot * DIRENTSIZE, UIO_WRITE);
      ghost var a := SnapOf(ku);
      CachedLive(St(), ROOT_LOCATION, 0);
      assert sd[0..64] == bytes;
      ghost var n;
      result, n := Io(ROOT_LOCATION, ku);
      ghost var b := SnapOf(ku);
      WriteVerdict(ROOT_LOCATION, a, b, result, n);
      if result == Success {
        EntryWritten(a, b, n, slot, e);
        assert ku.resid == 0;
      } else {
        EntryNotWritten(a, b, result, n, slot, e);
      }
    }

    /**
     sfs_dir_findname: scan every slot. Reports the slot binding the name and
     the last free slot (-1 if there is none); the name cannot turn up twice.
     */
    method FindName(name: Name) returns (result: Errno, ino: nat, slot: nat, emptyslot: int)
      requires DirReady()
      modifies this, freemap.v
      ensures Wf() && St() == old(St())
      ensures result == Success || result == ENOENT
      ensures result == Success ==> Binds(Dir(St()), slot, name) && ino == Dir(St())[slot].ino
      ensures result == ENOENT ==> forall i: nat :: !Binds(Dir(St()), i, name)
      ensures -1 <= emptyslot < |Dir(St())|
      ensures emptyslot >= 0 ==> Dir(St())[emptyslot].ino == NOINO
      ensures forall i: nat | emptyslot < i < |Dir(St())| :: Dir(St())[i].ino != NOINO
    {
      hide InvWriting, SpareMarked, MarkedIn, View, Entries, NoHoles, EntriesLive;
      ghost var s := St();
      ghost var es := Dir(s);
      var found := false;
      ino, slot, emptyslot := NOINO, 0, -1;
      var nentries := vnodes[ROOT_LOCATION].inode.size / DIRENTSIZE;
      assert nentries == |es| by { RootSize(s); }
      for i := 0 to nentries
        invariant Wf() && St() == s
        invariant found ==> slot < i && Binds(es, slot, name) && ino == es[slot].ino
        invariant !found ==> forall j: nat | j < i :: !Binds(es, j, name)
        invariant -1 <= emptyslot < i
        invariant emptyslot >= 0 ==> es[emptyslot].ino == NOINO
        invariant forall j: nat | emptyslot < j < i :: es[j].ino != NOINO
      {
        var tsd := ReadDir(i);
        if tsd.ino == NOINO {
          emptyslot := i;
        } else if tsd.name == name {
          assert !found;
          found, slot, ino := true, i, tsd.ino;
        }
      }
      result := if found then Success else ENOENT;
    }

    /** sfs_dir_link: bind a new name, in a free slot if there is one. */
    method DirLink(name: Name, ino: nat) returns (result: Errno, slot: nat)
      requires DirReady() && Live(St(), ino) && 0 < ino < 0x1_0000_0000
      modifies this, freemap.v
      ensures Valid()
      ensures result == Success ==>
                && (forall i: nat :: !Binds(Dir(old(St())), i, name))
                && slot <= |Dir(old(St()))|
                && (slot < |Dir(old(St()))| ==> Dir(old(St()))[slot].ino == NOINO)
                && DirWritten(old(St()), St(), slot, DirEntry(ino, name))
      ensures result != Success ==> SameFiles(old(St()), St()) && CacheBut(old(vnodes), vnodes, ROOT_LOCATION)
      ensures LinkAnswer(NameMap(Dir(old(St()))), name, result, Full(St()))
      ensures result == ENOSPC ==> forall i: nat | i < |Dir(old(St()))| :: Dir(old(St()))[i].ino != NOINO
    {
      hide InvWriting, SpareMarked, MarkedIn, View, NoHoles, EntriesLive, DirWritten, SameFiles, NamesUnique, Full, NameMap;
      ghost var s := St();
      SameFilesRefl(s);
      NamesFillSlots(Dir(s));
      NameMapHas(Dir(s), name);
      var found, boundTo, at, emptyslot := FindName(name);
      if found == Success {
        return EEXIST, 0;
      }
      if |name| + 1 > NAMELEN {
        return ENAMETOOLONG, 0;
      }
      if emptyslot < 0 {
        slot := vnodes[ROOT_LOCATION].inode.size / DIRENTSIZE;
        RootSize(s);
      } else {
        slot := emptyslot;
      }
      result := WriteDir(DirEntry(ino, name), slot);
    }

    /** sfs_dir_unlink: clear an existing slot, which cannot fail. */
    method DirUnlink(slot: nat) returns (result: Errno)
      requires DirReady() && slot < |Dir(St())|
      modifies this, freemap.v
      ensures Valid() && result == Success
      ensures DirWritten(old(St()), St(), slot, DirEntry(NOINO, []))
    {
      result := WriteDir(DirEntry(NOINO, []), slot);
    }

    // ---- vnodes ----

    /** Everything holds that holds between operations. */
    ghost predicate Consistent()
      reads this, freemap, freemap.v
    {
      Wf() && Whole(St())
    }

    /**
     sfs_loadvnode: take a reference to the vnode of `ino`, reading the inode
     in if it is not in memory. A type is forced only on a block just cleared.
     */
    method LoadVnode(ino: nat, forcetype: half)
      requires Wf() && ino in St().used && ino < nblocks
      requires forall x | x in vnodes :: x in St().used
      requires ino in vnodes ==> forcetype == TYPE_INVAL
      requires ino !in vnodes && forcetype != TYPE_INVAL ==> DecodeInode(disk[ino]).kind == TYPE_INVAL
      requires ino !in vnodes && forcetype == TYPE_INVAL ==> DecodeInode(disk[ino]).kind in {TYPE_FILE, TYPE_DIR}
      modifies this`vnodes
      ensures Wf()
      ensures ino in old(vnodes) ==> St() == WithRefs(old(St()), ino, old(vnodes)[ino].refs + 1)
      ensures ino !in old(vnodes) && forcetype == TYPE_INVAL ==> St() == Loaded(old(St()), ino)
      ensures ino !in old(vnodes) && forcetype != TYPE_INVAL ==>
                vnodes == old(vnodes)[ino := Vnode(DecodeInode(disk[ino]).(kind := forcetype), true, 1)]
    {
      hide DecodeInode, SpareMarked, MarkedIn;
      if ino in vnodes {
        vnodes := vnodes[ino := vnodes[ino].(refs := vnodes[ino].refs + 1)];
        return;
      }
      var inode, dirty := DecodeInode(disk[ino]), false;
      if forcetype != TYPE_INVAL {
        inode := inode.(kind := forcetype);
        dirty := true;
      }
      vnodes := vnodes[ino := Vnode(inode, dirty, 1)];
    }

    /** sfs_loadvnode of an existing inode. */
    method GetVnode(ino: nat)
      requires Consistent() && Live(St(), ino)
      modifies this`vnodes
      ensures Consistent() && ino in vnodes
      ensures SameFiles(old(St()), St()) && Dir(St()) == Dir(old(St()))
      ensures AbsOf(St()) == Held(AbsOf(old(St())), ino)
      ensures old(ROOT_LOCATION in vnodes) ==> ROOT_LOCATION in vnodes
    {
      hide DecodeInode, SpareMarked, MarkedIn, Whole, Inv, SameFiles, View, RefsOf;
      ghost var s := St();
      InodeBlockUsed(s, ino);
      LoadVnode(ino, TYPE_INVAL);
      HeldIs(s, St(), ino);
    }

    /** sfs_makeobj: a new inode with no links, held once. */
    method MakeObj() returns (result: Errno, ino: nat)
      requires Consistent()
      modifies this, freemap.v
      ensures Consistent()
      ensures result == Success ==>
                && ino < nblocks && ino !in old(St()).used && ino !in old(vnodes)
                && St() == Created(old(St()), ino)
      ensures result == ENOSPC ==> St() == old(St()) && Full(St())
      ensures result in {Success, ENOSPC}
    {
      hide DecodeInode, SpareMarked, MarkedIn, Whole, View, Full;
      ghost var s := St();
      assert Owned(s) by { WholeOwned(s); }
      result, ino := BAlloc();
      if result != Success {
        return;
      }
      WholeCreated(s, ino);
      ZeroBlockInode();
      CachedUsed(s);
      LoadVnode(ino, TYPE_FILE);
      owner := owner[ino := InodeBlock(ino)];
      assert St() == Created(s, ino);
    }

    /** sfs_sync_inode: write a dirty inode to its block. */
    method SyncInode(ino: nat)
      requires Valid() && ino in vnodes
      modifies this`disk, this`vnodes
      ensures Valid() && ino in vnodes && !vnodes[ino].dirty && vnodes[ino].inode == old(vnodes[ino].inode)
      ensures SameFiles(old(St()), St()) && SameCache(old(vnodes), vnodes)
      ensures owner == old(owner) && St().used == old(St()).used
      ensures forall x | x in vnodes && x != ino :: vnodes[x] == old(vnodes)[x]
    {
      hide EncodeInode, SpareMarked, MarkedIn, InvWriting, SameFiles;
      ghost var s := St();
      SameFilesRefl(s);
      if vnodes[ino].dirty {
        SyncedIsSame(s, ino);
        disk := disk[ino := EncodeInode(vnodes[ino].inode)];
        vnodes := vnodes[ino := vnodes[ino].(dirty := false)];
        assert St() == Synced(s, ino);
      }
    }

    /**
     vnode_decref with sfs_reclaim: one reference less. The last reference to
     a linked inode only drops the vnode; the last reference to an unlinked
     one frees exactly the blocks of the file and its inode.
     */
    method DecRef(ino: nat)
      requires Consistent() && ino in vnodes
      modifies this, freemap.v
      ensures Consistent()
      ensures AbsOf(St()) == Released(AbsOf(old(St())), ino)
      ensures St().used == old(St()).used - (if Orphaned(old(St()), ino) then FileBlocks(old(St()), ino) + {ino} else {})
      ensures forall x | x in old(vnodes) && x != ino :: x in vnodes
    {
      hide SpareMarked, MarkedIn, View, Whole, FileBlocks, Orphaned, Released, NameMap, FilesOf;
      ghost var s := St();
      if vnodes[ino].refs > 1 {
        vnodes := vnodes[ino := vnodes[ino].(refs := vnodes[ino].refs - 1)];
        ReleasedOne(s, St(), ino);
      } else {
        WholeRefs(s, ino);
        Reclaim(ino);
      }
    }

    /** sfs_reclaim, called with the one reference that is left. */
    method Reclaim(ino: nat)
      requires Consistent() && ino in vnodes && vnodes[ino].refs == 1
      modifies this, freemap.v
      ensures Consistent()
      ensures AbsOf(St()) == Released(AbsOf(old(St())), ino)
      ensures St().used == old(St()).used - (if Orphaned(old(St()), ino) then FileBlocks(old(St()), ino) + {ino} else {})
      ensures forall x | x in old(vnodes) && x != ino :: x in vnodes
    {
      hide SpareMarked, MarkedIn, View, Whole, FileBlocks, NameMap, FilesOf, SameFiles, Inv, OthersKept, Truncated;
      ghost var s := St();
      WholeInv(s);
      WholeRefs(s, ino);
      if vnodes[ino].inode.links == 0 {
        CutZero(s, ino);
        TruncatedIsEmpty(s, ino);
        Truncate(ino, 0);
        TruncatedFacts(s, ino);
      }
      ghost var t := St();
      SyncInode(ino);
      if vnodes[ino].inode.links == 0 {
        FreeInode(ino, s, t);
      } else {
        DropVnode(ino, s);
      }
    }

    /** The inode of a file already emptied goes back to the free map. */
    method FreeInode(ino: nat, ghost s: State, ghost t: State)
      requires Valid() && ino in vnodes && vnodes[ino].inode.links == 0 && Whole(s)
      requires ino in s.vnodes && s.vnodes[ino].refs == 1 && View(s, ino).links == 0
      requires t.owner == s.owner - FileBlocks(s, ino) && t.used == s.used - FileBlocks(s, ino)
      requires OthersKept(s, t, ino) && Live(t, ino) && t.vnodes.Keys == s.vnodes.Keys
      requires forall x | x in t.vnodes && x != ino :: t.vnodes[x] == s.vnodes[x]
      requires SameFiles(t, St()) && SameCache(t.vnodes, vnodes) && owner == t.owner && St().used == t.used
      modifies this, freemap.v
      ensures Consistent()
      ensures AbsOf(St()) == Released(AbsOf(s), ino) && Orphaned(s, ino)
      ensures St().used == s.used - (FileBlocks(s, ino) + {ino})
      ensures forall x | x in s.vnodes && x != ino :: x in vnodes
    {
      hide SpareMarked, MarkedIn, View, Whole, NameMap, FilesOf, SameFiles, InvWriting, OthersKept;
      ghost var u := St();
      UnlinkedNotRoot(s, ino);
      NoBlocksLeft(s, u, ino);
      DiscardedIsGone(u, ino);
      CachedLive(u, ino, 0);
      InodeUsed(u, ino);
      BFree(ino);
      vnodes := vnodes - {ino};
      owner := owner - {ino};
      assert St() == Discarded(u, ino);
      SameThenGone(s, t, u, St(), ino);
      WholeGone(s, St(), ino);
      ReleasedLast(s, St(), ino);
    }

    /** The synced vnode of a linked inode leaves the table. */
    method DropVnode(ino: nat, ghost s: State)
      requires Valid() && ino in vnodes && !vnodes[ino].dirty && Whole(s)
      requires ino in s.vnodes && s.vnodes[ino].refs == 1 && View(s, ino).links > 0
      requires SameFiles(s, St()) && SameCache(s.vnodes, vnodes) && St().used == s.used
      modifies this`vnodes
      ensures Consistent()
      ensures AbsOf(St()) == Released(AbsOf(s), ino) && !Orphaned(s, ino)
      ensures St().used == s.used
      ensures forall x | x in s.vnodes && x != ino :: x in vnodes
    {
      hide SpareMarked, MarkedIn, View, Whole, NameMap, FilesOf, SameFiles, InvWriting;
      ghost var u := St();
      DroppedIsSame(u, ino);
      vnodes := vnodes - {ino};
      assert St() == Dropped(u, ino);
      SameFilesTrans(s, u, St());
      WholeDropped(s, St(), ino);
      ReleasedLinked(s, St(), ino);
    }

    // ---- vnode operations of the directory ----

    /** Set the link count of a vnode (marking it dirty). */
    method SetLinks(ino: nat, links: half)
      requires Wf() && ino in vnodes
      modifies this`vnodes
      ensures Wf() && St() == WithLinks(old(St()), ino, links)
    {
      vnodes := vnodes[ino := vnodes[ino].(inode := vnodes[ino].inode.(links := links), dirty := true)];
    }

    /** sfs_lookonce (and sfs_lookup): a reference to the file of that name. */
    method LookOnce(name: Name) returns (result: Errno, ino: nat, slot: nat)
      requires Consistent() && ROOT_LOCATION in vnodes
      modifies this, freemap.v
      ensures Consistent() && ROOT_LOCATION in vnodes && Dir(St()) == Dir(old(St()))
      ensures var a := AbsOf(old(St()));
              if name in a.names then
                && result == Success && ino == a.names[name] && ino in vnodes
                && AbsOf(St()) == Held(a, ino)
                && Binds(Dir(St()), slot, name) && Dir(St())[slot].ino == ino
                && vnodes[ino].inode.links > 0
              else
                result == ENOENT && AbsOf(St()) == a
      ensures Used() == old(Used())
    {
      hide InvWriting, SpareMarked, MarkedIn, View, Entries, NoHoles, NameMap, FilesOf, RefsOf, LinksOk, SameFiles;
      ghost var s := St();
      var emptyslot;
      result, ino, slot, emptyslot := FindName(name);
      NameMapHas(Dir(s), name);
      if result != Success {
        return;
      }
      NameMapAt(Dir(s), slot, name);
      GetVnode(ino);
      NamedHasLinks(St(), slot);
    }

    /** The marked blocks. */
    ghost function Used(): (r: set<nat>)
      requires Wf()
      reads this, freemap, freemap.v
    {
      freemap.Marked()
    }

    /**
     sfs_creat. An existing file is simply opened unless EXCL was given; a new
     one is empty and has one link. If any step fails nothing remains of it.
     */
    method Creat(name: Name, excl: bool) returns (result: Errno, ino: nat)
      requires Consistent() && ROOT_LOCATION in vnodes
      modifies this, freemap.v
      ensures Consistent() && ROOT_LOCATION in vnodes
      ensures CreatSpec(AbsOf(old(St())), AbsOf(St()), name, excl, result, ino, Full(old(St())), AlmostFull(St()))
      ensures result == Success ==> ino in vnodes
    {
      hide InvWriting, SpareMarked, MarkedIn, View, Entries, NoHoles, NameMap, FilesOf, RefsOf, LinksOk, SameFiles, Full, Created;
      ghost var s := St();
      var found, slot, emptyslot;
      found, ino, slot, emptyslot := FindName(name);
      NameMapHas(Dir(s), name);
      if found == Success && excl {
        return EEXIST, 0;
      }
      if found == Success {
        NameMapAt(Dir(s), slot, name);
        GetVnode(ino);
        return Success, ino;
      }
      result, ino := CreatNew(name);
    }

    /** The rest of sfs_creat, for a name that does not exist. */
    method CreatNew(name: Name) returns (result: Errno, ino: nat)
      requires Consistent() && ROOT_LOCATION in vnodes
      requires forall i: nat :: !Binds(Dir(St()), i, name)
      modifies this, freemap.v
      ensures Consistent() && ROOT_LOCATION in vnodes
      ensures CreatSpec(AbsOf(old(St())), AbsOf(St()), name, false, result, ino, Full(old(St())), AlmostFull(St()))
      ensures result == Success ==> ino in vnodes
    {
      hide InvWriting, SpareMarked, MarkedIn, View, Entries, NoHoles, NameMap, FilesOf, RefsOf, LinksOk, Full, NamesUnique, EntriesLive, CacheOk;
      ghost var s := St();
      NameMapHas(Dir(s), name);
      result, ino := MakeObj();
      if result != Success {
        return;
      }
      NotFull(s, ino);
      WholeCreated(s, ino);
      CreatedReady(s, ino);
      NewUnheld(s, ino);
      // sfs_dir_link and the link count, as in sfs_link
      result := Link(name, ino);
      if result != Success {
        ghost var t := St();
        DecRef(ino);
        NewFileGone(AbsOf(s), ino);
        if result == ENOSPC {
          NewInode(s, t, ino);
          OneBlockBack(t, St(), ino);
        }
      }
    }

    /** sfs_link: another name for a file whose vnode the caller holds. */
    method Link(name: Name, ino: nat) returns (result: Errno)
      requires Consistent() && ROOT_LOCATION in vnodes && ino in vnodes
      modifies this, freemap.v
      ensures Consistent() && ROOT_LOCATION in vnodes && ino in vnodes
      ensures var a := AbsOf(old(St()));
              && LinkAnswer(a.names, name, result, Full(St()))
              && AbsOf(St()) == if result == Success then Bound(a, name, ino) else a
      ensures result != Success ==> CacheBut(old(vnodes), vnodes, ROOT_LOCATION)
    {
      hide InvWriting, SpareMarked, MarkedIn, View, Entries, NoHoles, NameMap, FilesOf, LinksOk, SameFiles, Full, DirWritten, WithLinks, NamesUnique, EntriesLive, RefsOf;
      ghost var s := St();
      NameMapHas(Dir(s), name);
      CachedReady(s, ino);
      var slot;
      result, slot := DirLink(name, ino);
      if result != Success {
        AbsAfterFailure(s, St());
        return;
      }
      LinkComplete(s, St(), slot, name, ino);
      SetLinks(ino, vnodes[ino].inode.links + 1);
    }

    /** The common tail of sfs_remove and sfs_rename: clear a slot and lower the link count. */
    method UnlinkSlot(slot: nat, ino: nat) returns (result: Errno)
      requires Consistent() && ROOT_LOCATION in vnodes && ino in vnodes
      requires slot < |Dir(St())| && Dir(St())[slot].ino == ino
      modifies this, freemap.v
      ensures Consistent() && ROOT_LOCATION in vnodes && ino in vnodes && result == Success
      ensures AbsOf(St()) == Unbound(AbsOf(old(St())), Dir(old(St()))[slot].name)
    {
      hide InvWriting, SpareMarked, MarkedIn, View, Entries, NoHoles, NameMap, FilesOf, LinksOk, SameFiles, DirWritten, WithLinks, NamesUnique, EntriesLive, RefsOf;
      ghost var s := St();
      result := DirUnlink(slot);
      UnlinkComplete(s, St(), slot, ino);
      SetLinks(ino, vnodes[ino].inode.links - 1);
    }

    /**
     sfs_remove: the name goes at once; the file itself goes with its last
     name, or later with its last reference.
     */
    method Remove(name: Name) returns (result: Errno)
      requires Consistent() && ROOT_LOCATION in vnodes
      modifies this, freemap.v
      ensures Consistent()
      ensures var a := AbsOf(old(St()));
              if name in a.names then
                var ino := a.names[name];
                result == Success && AbsOf(St()) == Released(Unbound(Held(a, ino), name), ino)
              else
                result == ENOENT && AbsOf(St()) == a
    {
      hide InvWriting, SpareMarked, MarkedIn, View, Entries, NoHoles, NameMap, FilesOf, RefsOf, LinksOk, SameFiles, NamesUnique, EntriesLive, Held, Released, Unbound, Orphaned, FileBlocks;
      var ino, slot;
      result, ino, slot := LookOnce(name);
      if result != Success {
        return;
      }
      result := UnlinkSlot(slot, ino);
      DecRef(ino);
    }

    /**
     sfs_rename: the file gets the new name and then loses the old one, so
     either everything happened or nothing did. The source asserts that the
     old name is not a hard link to the directory itself.
     */
    method Rename(n1: Name, n2: Name) returns (result: Errno)
      requires Consistent() && ROOT_LOCATION in vnodes
      requires var a := AbsOf(St()); n1 in a.names ==> a.names[n1] != ROOT_LOCATION
      modifies this, freemap.v
      ensures Consistent()
      ensures var a := AbsOf(old(St()));
              && (if n1 !in a.names then result == ENOENT else LinkAnswer(a.names, n2, result, Full(St())))
              && AbsOf(St()) == (if result == Success then a.(names := a.names[n2 := a.names[n1]] - {n1}) else a)
    {
      hide InvWriting, SpareMarked, MarkedIn, View, Entries, NoHoles, NameMap, FilesOf, RefsOf, LinksOk, SameFiles, NamesUnique, EntriesLive, Held, Released, Unbound, Orphaned, FileBlocks, Bound, Full, DirWritten, WithLinks;
      ghost var s := St();
      var g1, slot1;
      result, g1, slot1 := LookOnce(n1);
      if result != Success {
        return;
      }
      ghost var t := St();
      NamesNonRoot(s, n1);
      CachedReady(t, g1);
      NameMapHas(Dir(t), n2);
      NameMapHas(Dir(t), n1);
      var slot2;
      result, slot2 := DirLink(n2, g1);
      if result != Success {
        AbsAfterFailure(t, St());
        ghost var u := St();
        DecRef(g1);
        HeldReleased(AbsOf(s), g1);
        StillFull(u, St(), g1);
        return;
      }
      LinkComplete(t, St(), slot2, n2, g1);
      SetLinks(g1, vnodes[g1].inode.links + 1);
      result := UnlinkSlot(slot1, g1);
      DecRef(g1);
      RenameDone(AbsOf(s), n1, n2);
    }

    // ---- vnode operations of files ----

    /** sfs_read (and the EISDIR of the directory's operation table). */
    method Read(ino: nat, uio: Uio) returns (result: Errno, ghost n: nat)
      requires Consistent() && ino in vnodes
      requires uio.Valid() && Apart(uio) && uio.rw == UIO_READ
      requires uio.offset < 0x8000_0000 && uio.resid < 0x1_0000_0000
      modifies this, freemap.v, uio, uio.buf
      ensures Consistent() && uio.Valid() && St() == old(St())
      ensures ino == ROOT_LOCATION ==> result == EISDIR && uio.buf[..] == old(uio.buf[..])
      ensures ino != ROOT_LOCATION ==>
                && ReadSpec(ino, old(SnapOf(uio)), SnapOf(uio), result, n)
                && CursorMoved(old(SnapOf(uio)), SnapOf(uio), n)
    {
      hide InvWriting, SpareMarked, MarkedIn, View, ReadSpec, DirOk, LinksOk, CacheOk;
      n := 0;
      if vnodes[ino].inode.kind == TYPE_DIR {
        KindTells(St(), ino);
        return EISDIR, 0;
      }
      KindTells(St(), ino);
      ghost var a := SnapOf(uio);
      result, n := ReadIo(ino, uio);
      ReadKeeps(ino, a, SnapOf(uio), result, n);
    }

    /** sfs_write. */
    method Write(ino: nat, uio: Uio) returns (result: Errno, ghost n: nat)
      requires Consistent() && ino in vnodes
      requires uio.Valid() && Apart(uio) && uio.rw == UIO_WRITE
      requires uio.offset < 0x8000_0000 && uio.resid < 0x1_0000_0000
      modifies this, freemap.v, uio, uio.buf
      ensures Consistent() && uio.Valid()
      ensures ino == ROOT_LOCATION ==> result == EISDIR && St() == old(St())
      ensures ino != ROOT_LOCATION ==>
                && WriteSpec(ino, old(SnapOf(uio)), SnapOf(uio), result, n)
                && CursorMoved(old(SnapOf(uio)), SnapOf(uio), n)
                && AbsOf(St()) == FileChanged(AbsOf(old(St())), ino, View(St(), ino))
    {
      hide InvWriting, SpareMarked, MarkedIn, View, WriteSpec, DirOk, LinksOk, CacheOk;
      n := 0;
      if vnodes[ino].inode.kind == TYPE_DIR {
        KindTells(St(), ino);
        return EISDIR, 0;
      }
      KindTells(St(), ino);
      ghost var a := SnapOf(uio);
      result, n := WriteIo(ino, uio);
      WriteKeepsWhole(ino, a, SnapOf(uio), result, n);
    }

    /** sfs_truncate on a file (and the EISDIR of the directory's operation table). */
    method TruncateFile(ino: nat, len: word) returns (result: Errno)
      requires Consistent() && ino in vnodes && len < 0x8000_0000
      modifies this, freemap.v
      ensures Wf()
      ensures ino == ROOT_LOCATION ==> result == EISDIR && St() == old(St())
      ensures ino != ROOT_LOCATION ==>
                && result == Success && DirSound(St())
                && AbsOf(St()) == FileChanged(AbsOf(old(St())), ino, CutView(old(View(St(), ino)), len))
                && St().used == old(St()).used - CutBlocks(old(St()), ino, BlockLen(len))
                && (Consistent() <==> CutView(old(View(St(), ino)), len) == Clipped(old(View(St(), ino)), len))
    {
      hide InvWriting, SpareMarked, MarkedIn, View, DirOk, LinksOk, CacheOk, Cut, OthersKept, CutBlocks, BlockLen, CutView, Clipped;
      ghost var s := St();
      KindTells(s, ino);
      if vnodes[ino].inode.kind == TYPE_DIR {
        return EISDIR;
      }
      CachedLive(s, ino, 0);
      Truncate(ino, len);
      CutFacts(s, ino, len);
      CutLinks(s, ino, len);
      AbsAfterCut(s, St(), ino);
      if Inv(St()) {
        FileOpDone(s, St(), ino);
      }
      WholeOnlyInv(St());
      return Success;
    }

    // ---- sync and unmount ----

    /** sfs_mapio, writing: block by block, the whole map. */
    method MapIoWrite()
      requires Wf() && Inv(St())
      modifies this`disk, this`freemapdirty
      ensures Wf() && Inv(St()) && !freemapdirty
      ensures OnlyMapDiffers(old(St()), St()) && SameFiles(old(St()), St())
    {
      var mapsize := BitBlocks(nblocks);
      assert freemap.v.Length == 512 * mapsize;
      hide SpareMarked, MarkedIn, SameFiles, MapBlockIs, DiskBit, Inv, BlockOfBits;
      ghost var s := St();
      MapFits(s);
      for j := 0 to mapsize
        invariant Wf() && |disk| == nblocks
        invariant forall b: nat | b < nblocks && !(MAP_LOCATION <= b < MAP_LOCATION + j) :: disk[b] == s.disk[b]
        invariant forall i: nat | i < j :: MapBlockIs(disk, i, freemap.v[..])
      {
        var bits := freemap.v[j * 512..(j + 1) * 512];
        ghost var before := disk;
        disk := disk[MAP_LOCATION + j := BlockOfBits(bits)];
        MapBlockWritten(before, disk, freemap.v[..], j);
      }
      freemapdirty := false;
      MapOnDisk(St(), freemap.v[..]);
      MapOnlyDiffers(s, St());
      MapWritten(s, St());
    }

    /** sfs_sync: every vnode, then the free map. The superblock is never dirty. */
    method Sync()
      requires Consistent()
      modifies this`disk, this`vnodes, this`freemapdirty
      ensures Consistent() && AllSynced(St())
      ensures AbsOf(St()) == AbsOf(old(St()))
      ensures Shows(disk, AbsOf(St())) && ShowsMarks(disk, freemap.Marked())
    {
      hide SpareMarked, MarkedIn, Whole, SameFiles, Inv, Shows, ShowsMarks;
      ghost var s := St();
      WholeInv(s);
      SameFilesRefl(s);
      var pending := vnodes.Keys;
      while pending != {}
        invariant Wf() && Inv(St()) && SameFiles(s, St()) && SameCache(s.vnodes, vnodes)
        invariant pending <= vnodes.Keys
        invariant forall x | x in vnodes && x !in pending :: !vnodes[x].dirty
        decreases |pending|
      {
        var ino :| ino in pending;
        ghost var t := St();
        SyncInode(ino);
        SameFilesTrans(s, t, St());
        pending := pending - {ino};
      }
      if freemapdirty {
        ghost var t := St();
        MapIoWrite();
        SameFilesTrans(s, t, St());
      }
      AbsAfterFailure(s, St());
      SyncedShows(St());
      SyncedMarks(St());
    }

    /** sfs_unmount: refused while any vnode is in memory. */
    method Unmount() returns (result: Errno)
      requires Consistent() && (vnodes == map[] ==> !freemapdirty)
      ensures result == (if vnodes == map[] then Success else EBUSY)
      ensures result == Success ==> AllSynced(St()) && AbsOf(St()).refs == map[]
    {
      if |vnodes| > 0 {
        assert vnodes != map[];
        return EBUSY;
      }
      return Success;
    }
  }
}
