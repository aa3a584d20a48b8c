/**
 Whole runs of the file system: starting from a new image, every sequence of
 operations behaves like a map from names to files, where a file is a byte
 array with a size; and syncing and mounting again loses nothing.
 */
module SfsRun {
  import opened Errno
  import opened Uios
  import opened Bitmaps
  import opened SfsLayout
  import opened SfsState
  import opened SfsTruncate
  import opened SfsTransfer
  import opened SfsDirectory
  import opened SfsOps
  import opened SfsImage
  import opened SfsDevice
  import opened SfsSpace
  import opened SfsFileSystem
  import opened SfsMount

  datatype FsOp =
    | GetRoot
    | Create(name: Name, excl: bool)
    | Lookup(name: Name)
    | MakeLink(name: Name, ino: nat)
    | Delete(name: Name)
    | Move(name: Name, to: Name)
    | ReadAt(ino: nat, off: nat, len: nat)
    | WriteAt(ino: nat, off: nat, data: seq<byte>)
    | Resize(ino: nat, len: nat)
    | Release(ino: nat)
    | SyncAll

  /** What the caller is told: the result, the inode found, and the bytes moved. */
  datatype Answer =
    | NotIssued
    | Done(result: Errno, ino: nat, n: nat, data: seq<byte>)

  /** Whether the device was full before, is full now, or has at most one free block now. */
  datatype Space = Space(wasFull: bool, full: bool, tight: bool)

  /**
   What the VFS layer sees to before it calls: the vnodes used are held,
   offsets and lengths fit their types. Lengths that leave something past the
   new end of a file are not asked for; `SfsTruncate` says what they do.
   */
  predicate Allowed(fs: AbsFs, op: FsOp)
  {
    match op
    case GetRoot => true
    case Create(_, _) => ROOT_LOCATION in fs.refs
    case Lookup(_) => ROOT_LOCATION in fs.refs
    case MakeLink(_, ino) => ROOT_LOCATION in fs.refs && ino in fs.refs
    case Delete(_) => ROOT_LOCATION in fs.refs
    case Move(n, _) => ROOT_LOCATION in fs.refs && (n in fs.names ==> fs.names[n] != ROOT_LOCATION)
    case ReadAt(ino, off, len) => ino in fs.refs && off < 0x8000_0000 && len < 0x1_0000_0000
    case WriteAt(ino, off, data) => ino in fs.refs && off < 0x8000_0000 && |data| < 0x1_0000_0000
    case Resize(ino, len) => ino in fs.refs && len < 0x8000_0000 && (ino in fs.files ==> SafeLength(fs.files[ino].size, len))
    case Release(ino) => ino in fs.refs
    case SyncAll => true
  }

  /** A length no shorter than the file, or a block boundary below the indirect blocks (zero among them). */
  predicate SafeLength(size: nat, len: nat)
  {
    len >= size || (len % BLOCKSIZE == 0 && len < NDIRECT * BLOCKSIZE)
  }

  /** A byte-array file after the first `n` bytes of `data` were written at `off`. */
  ghost function Written(f: FileView, off: nat, data: seq<byte>, n: nat): (g: FileView)
    requires |f.bytes| == MAXBYTES && n <= Mappable(off, |data|)
    ensures |g.bytes| == MAXBYTES && g.links == f.links
  {
    f.(bytes := if n == 0 then f.bytes else Splice(f.bytes, off, data[..n]),
       size := if off + n > f.size then off + n else f.size)
  }

  /** The bytes a read returns: those of the file, clipped at its end and at the mappable size. */
  ghost function ReadBack(f: FileView, off: nat, len: nat): (d: seq<byte>)
    requires |f.bytes| == MAXBYTES
  {
    var n := Mappable(off, ReadWant(f.size, off, len));
    if n == 0 then [] else f.bytes[off..off + n]
  }

  /** When a read fails: at the mappable size, if the file's size says there is more. */
  function ReadResult(f: FileView, off: nat, len: nat): (result: Errno)
  {
    if off < f.size && PastMap(off, ReadWant(f.size, off, len)) then EINVAL else Success
  }

  /** How a write that stored `n` of `len` bytes at `off` ends. */
  predicate WriteResult(off: nat, len: nat, result: Errno, n: nat, full: bool)
  {
    && n <= Mappable(off, len)
    && (match result
        case Success => n == len && !PastMap(off, len)
        case EINVAL => n == Mappable(off, len) && PastMap(off, len)
        case ENOSPC => full && off + n < MAXBYTES
        case _ => false)
    && (result != Success && n > 0 ==> n < len && (off + n) % BLOCKSIZE == 0)
  }

  ghost predicate IsFile(a: AbsFs, ino: nat)
  {
    ino in a.files && |a.files[ino].bytes| == MAXBYTES
  }

  /** One operation on the abstract file system, and its answer. */
  ghost predicate AbsStep(a: AbsFs, op: FsOp, r: Answer, b: AbsFs, space: Space)
  {
    r.Done? &&
    match op
    case GetRoot => r.result == Success && b == Held(a, ROOT_LOCATION)
    case Create(name, excl) => CreatSpec(a, b, name, excl, r.result, r.ino, space.wasFull, space.tight)
    case Lookup(name) =>
      if name in a.names then r.result == Success && r.ino == a.names[name] && b == Held(a, r.ino)
      else r.result == ENOENT && b == a
    case MakeLink(name, ino) =>
      && LinkAnswer(a.names, name, r.result, space.full)
      && b == if r.result == Success then Bound(a, name, ino) else a
    case Delete(name) =>
      if name in a.names then r.result == Success && b == Released(Unbound(Held(a, a.names[name]), name), a.names[name])
      else r.result == ENOENT && b == a
    case Move(n1, n2) =>
      if n1 !in a.names then r.result == ENOENT && b == a
      else
        && LinkAnswer(a.names, n2, r.result, space.full)
        && b == if r.result == Success then a.(names := a.names[n2 := a.names[n1]] - {n1}) else a
    case ReadAt(ino, off, len) =>
      b == a && if ino == ROOT_LOCATION then r.result == EISDIR else IsFile(a, ino) && ReadDone(a.files[ino], off, len, r)
    case WriteAt(ino, off, data) =>
      if ino == ROOT_LOCATION then r.result == EISDIR && b == a
      else
        && IsFile(a, ino) && WriteResult(off, |data|, r.result, r.n, space.full)
        && b == FileChanged(a, ino, Written(a.files[ino], off, data, r.n))
    case Resize(ino, len) =>
      if ino == ROOT_LOCATION then r.result == EISDIR && b == a
      else r.result == Success && IsFile(a, ino) && b == FileChanged(a, ino, Clipped(a.files[ino], len))
    case Release(ino) => r.result == Success && b == Released(a, ino)
    case SyncAll => r.result == Success && b == a
  }

  ghost predicate ReadDone(f: FileView, off: nat, len: nat, r: Answer)
    requires r.Done? && |f.bytes| == MAXBYTES
  {
    r.result == ReadResult(f, off, len) && r.data == ReadBack(f, off, len) && r.n == |r.data|
  }

  lemma FilesAre(s: State, ino: nat)
    requires Whole(s)
    ensures ino in AbsOf(s).refs <==> ino in s.vnodes
    ensures ino in s.vnodes && ino != ROOT_LOCATION ==> IsFile(AbsOf(s), ino) && AbsOf(s).files[ino] == View(s, ino)
  {
  }

  // ---- running one operation ----

  ghost function SpaceOf(s: State, s': State): (r: Space)
  {
    Space(Full(s), Full(s'), AlmostFull(s'))
  }

  method ExecRead(fs: Sfs, ino: nat, off: nat, len: nat) returns (r: Answer)
    requires fs.Consistent() && Allowed(AbsOf(fs.St()), ReadAt(ino, off, len))
    modifies fs, fs.freemap.v
    ensures fs.Consistent()
    ensures AbsStep(AbsOf(old(fs.St())), ReadAt(ino, off, len), r, AbsOf(fs.St()), SpaceOf(old(fs.St()), fs.St()))
  {
    hide View, Whole, NameMap, FilesOf, RefsOf, SpareMarked, MarkedIn, Splice, SpaceOf;
    ghost var s := fs.St();
    FilesAre(s, ino);
    var buf := new byte[len](_ => 0);
    var uio := new Uio(buf, len, off, UIO_READ);
    ghost var a := fs.SnapOf(uio);
    var result, n := fs.Read(ino, uio);
    r := Done(result, ino, uio.base, buf[..uio.base]);
    if ino != ROOT_LOCATION {
      ReadIsAbs(ino, a, fs.SnapOf(uio), result, n);
    }
  }

  lemma ReadIsAbs(ino: nat, a: Snap, b: Snap, result: Errno, n: nat)
    requires ReadSpec(ino, a, b, result, n) && CursorMoved(a, b, n)
    requires a.base == 0 && a.len <= |a.buf| == |b.buf|
    requires |View(a.s, ino).bytes| == MAXBYTES
    ensures ReadDone(View(a.s, ino), a.offset, a.resid, Done(result, ino, n, b.buf[..n]))
  {
  }

  method ExecWrite(fs: Sfs, ino: nat, off: nat, data: seq<byte>) returns (r: Answer)
    requires fs.Consistent() && Allowed(AbsOf(fs.St()), WriteAt(ino, off, data))
    modifies fs, fs.freemap.v
    ensures fs.Consistent()
    ensures AbsStep(AbsOf(old(fs.St())), WriteAt(ino, off, data), r, AbsOf(fs.St()), SpaceOf(old(fs.St()), fs.St()))
  {
    hide View, Whole, NameMap, FilesOf, RefsOf, SpareMarked, MarkedIn, Splice, InvWriting, OthersKept, MapKept, Full, AlmostFull;
    ghost var s := fs.St();
    FilesAre(s, ino);
    var buf := new byte[|data|](i requires 0 <= i < |data| => data[i]);
    assert buf[..] == data;
    var uio := new Uio(buf, |data|, off, UIO_WRITE);
    ghost var a := fs.SnapOf(uio);
    var result, n := fs.Write(ino, uio);
    r := Done(result, ino, |data| - uio.resid, []);
    if ino != ROOT_LOCATION {
      WriteIsAbs(ino, a, fs.SnapOf(uio), result, n, data);
    }
  }

  lemma WriteIsAbs(ino: nat, a: Snap, b: Snap, result: Errno, n: nat, data: seq<byte>)
    requires WriteSpec(ino, a, b, result, n)
    requires a.buf == data && a.base == 0 && a.resid == |data|
    requires |View(a.s, ino).bytes| == MAXBYTES
    ensures WriteResult(a.offset, |data|, result, n, Full(b.s))
    ensures View(b.s, ino) == Written(View(a.s, ino), a.offset, data, n)
  {
    hide Bytes, OthersKept, MapKept, Full, Ptr;
  }

  method ExecResize(fs: Sfs, ino: nat, len: nat) returns (r: Answer)
    requires fs.Consistent() && Allowed(AbsOf(fs.St()), Resize(ino, len))
    modifies fs, fs.freemap.v
    ensures fs.Consistent()
    ensures AbsStep(AbsOf(old(fs.St())), Resize(ino, len), r, AbsOf(fs.St()), SpaceOf(old(fs.St()), fs.St()))
  {
    hide View, Whole, NameMap, FilesOf, RefsOf, SpareMarked, MarkedIn, SpaceOf, CutView, Clipped, CutBlocks;
    ghost var s := fs.St();
    FilesAre(s, ino);
    if ino != ROOT_LOCATION {
      FileTail(s, ino);
      TruncateRight(View(s, ino), len);
    }
    var result := fs.TruncateFile(ino, len);
    r := Done(result, ino, 0, []);
  }

  lemma FileTail(s: State, ino: nat)
    requires Whole(s) && ino in s.vnodes
    ensures TailClear(View(s, ino))
  {
    hide View, DirOk, LinksOk, TailClear;
    WholeInv(s);
    CachedLive(s, ino, 0);
    TailOf(s, ino);
  }

  lemma SizeIs(s: State, ino: nat)
    requires Whole(s) && ino in s.vnodes
    ensures ino in AbsOf(s).files <==> ino != ROOT_LOCATION
    ensures ino != ROOT_LOCATION ==> AbsOf(s).files[ino].size == s.vnodes[ino].inode.size
  {
    hide DirOk, LinksOk, NameMap, Bytes;
  }

  /** One operation, as the VFS layer issues it. */
  method Exec(fs: Sfs, op: FsOp) returns (r: Answer)
    requires fs.Consistent() && Allowed(AbsOf(fs.St()), op)
    modifies fs, fs.freemap.v
    ensures fs.Consistent()
    ensures AbsStep(AbsOf(old(fs.St())), op, r, AbsOf(fs.St()), SpaceOf(old(fs.St()), fs.St()))
  {
    hide View, Whole, NameMap, FilesOf, RefsOf, SpareMarked, MarkedIn, Held, Released, Bound, Unbound, FileBlocks, SameFiles, DirSound, FileChanged, Full, AlmostFull, CreatSpec, LinkAnswer;
    ghost var s := fs.St();
    WholeSound(s);
    FilesAre(s, ROOT_LOCATION);
    match op
    case GetRoot =>
      WholeInv(s);
      RootLive(s);
      fs.GetVnode(ROOT_LOCATION);
      r := Done(Success, ROOT_LOCATION, 0, []);
    case Create(name, excl) =>
      var result, ino := fs.Creat(name, excl);
      r := Done(result, ino, 0, []);
    case Lookup(name) =>
      var result, ino, slot := fs.LookOnce(name);
      r := Done(result, ino, 0, []);
    case MakeLink(name, ino) =>
      FilesAre(s, ino);
      var result := fs.Link(name, ino);
      r := Done(result, ino, 0, []);
    case Delete(name) =>
      var result := fs.Remove(name);
      r := Done(result, 0, 0, []);
    case Move(n1, n2) =>
      var result := fs.Rename(n1, n2);
      r := Done(result, 0, 0, []);
    case ReadAt(ino, off, len) =>
      r := ExecRead(fs, ino, off, len);
    case WriteAt(ino, off, data) =>
      r := ExecWrite(fs, ino, off, data);
    case Resize(ino, len) =>
      r := ExecResize(fs, ino, len);
    case Release(ino) =>
      FilesAre(s, ino);
      fs.DecRef(ino);
      r := Done(Success, ino, 0, []);
    case SyncAll =>
      fs.Sync();
      r := Done(Success, 0, 0, []);
  }

  // ---- whole runs ----

  /** A run: the states passed through, all consistent, and the answers given. */
  ghost predicate AbsRun(trace: seq<State>, ops: seq<FsOp>, rs: seq<Answer>)
  {
    && |trace| == |ops| + 1 && |rs| == |ops|
    && (forall i: nat | i < |trace| :: Whole(trace[i]))
    && forall i: nat | i < |ops| :: Ran(trace[i], ops[i], rs[i], trace[i + 1])
  }

  /** A consistent state as its users see it. */
  ghost function Seen(s: State): (a: AbsFs)
    requires Whole(s)
  {
    AbsOf(s)
  }

  /** One operation of a run; what the VFS layer would not issue is not issued. */
  ghost predicate Ran(s: State, op: FsOp, r: Answer, s': State)
    requires Whole(s) && Whole(s')
  {
    && |s'.disk| == |s.disk|
    && if Allowed(Seen(s), op) then AbsStep(Seen(s), op, r, Seen(s'), SpaceOf(s, s')) else s' == s && r == NotIssued
  }

  /** The caller's side of `Allowed`, decided from the vnode table and the directory. */
  method MayIssue(fs: Sfs, op: FsOp) returns (ok: bool)
    requires fs.Consistent()
    modifies fs, fs.freemap.v
    ensures fs.Wf() && fs.St() == old(fs.St())
    ensures ok == Allowed(AbsOf(fs.St()), op)
  {
    hide View, Whole, NameMap, FilesOf, RefsOf, SpareMarked, MarkedIn, DirOk;
    ghost var s := fs.St();
    FilesAre(s, ROOT_LOCATION);
    match op
    case GetRoot =>
      return true;
    case Create(_, _) =>
      return ROOT_LOCATION in fs.vnodes;
    case Lookup(_) =>
      return ROOT_LOCATION in fs.vnodes;
    case MakeLink(_, ino) =>
      FilesAre(s, ino);
      return ROOT_LOCATION in fs.vnodes && ino in fs.vnodes;
    case Delete(_) =>
      return ROOT_LOCATION in fs.vnodes;
    case Move(n, _) =>
      if ROOT_LOCATION !in fs.vnodes {
        return false;
      }
      DirFacts(s);
      var result, ino, slot, emptyslot := fs.FindName(n);
      BoundTo(s, n, slot, result == Success);
      return result != Success || ino != ROOT_LOCATION;
    case ReadAt(ino, off, len) =>
      FilesAre(s, ino);
      return ino in fs.vnodes && off < 0x8000_0000 && len < 0x1_0000_0000;
    case WriteAt(ino, off, data) =>
      FilesAre(s, ino);
      return ino in fs.vnodes && off < 0x8000_0000 && |data| < 0x1_0000_0000;
    case Resize(ino, len) =>
      FilesAre(s, ino);
      if ino !in fs.vnodes || len >= 0x8000_0000 {
        return false;
      }
      SizeIs(s, ino);
      return ino == ROOT_LOCATION || SafeLength(fs.vnodes[ino].inode.size, len);
    case Release(ino) =>
      FilesAre(s, ino);
      return ino in fs.vnodes;
    case SyncAll =>
      return true;
  }

  lemma DirFacts(s: State)
    requires Whole(s)
    ensures Inv(s) && DirOk(s)
  {
  }

  lemma BoundTo(s: State, name: Name, slot: nat, found: bool)
    requires Whole(s) && (if found then Binds(Dir(s), slot, name) else forall i: nat :: !Binds(Dir(s), i, name))
    ensures found <==> name in AbsOf(s).names
    ensures found ==> AbsOf(s).names[name] == Dir(s)[slot].ino
  {
    hide View, LinksOk, CacheOk, NameMap, InvWriting, NoHoles, EntriesLive;
    NameMapHas(Dir(s), name);
    if found {
      NameMapAt(Dir(s), slot, name);
    }
  }

  /** Every sequence of operations on a consistent file system is a run of the abstract one. */
  method Run(fs: Sfs, ops: seq<FsOp>) returns (rs: seq<Answer>, ghost trace: seq<State>)
    requires fs.Consistent()
    modifies fs, fs.freemap.v
    ensures fs.Consistent()
    ensures AbsRun(trace, ops, rs)
    ensures trace[0] == old(fs.St()) && trace[|ops|] == fs.St()
  {
    hide Whole, SpareMarked, MarkedIn, AbsStep, Allowed, AbsOf, SpaceOf;
    rs := [];
    trace := [fs.St()];
    for i := 0 to |ops|
      invariant fs.Consistent()
      invariant |trace| == i + 1 && |rs| == i
      invariant trace[0] == old(fs.St()) && trace[i] == fs.St()
      invariant forall k: nat | k < |trace| :: Whole(trace[k])
      invariant forall k: nat | k < i :: Ran(trace[k], ops[k], rs[k], trace[k + 1])
    {
      var r := RunOne(fs, ops[i]);
      rs := rs + [r];
      trace := trace + [fs.St()];
    }
  }

  method RunOne(fs: Sfs, op: FsOp) returns (r: Answer)
    requires fs.Consistent()
    modifies fs, fs.freemap.v
    ensures fs.Consistent() && Ran(old(fs.St()), op, r, fs.St())
  {
    hide Whole, SpareMarked, MarkedIn, AbsStep, Allowed, AbsOf, SpaceOf;
    WholeSound(fs.St());
    r := NotIssued;
    var ok := MayIssue(fs, op);
    if ok {
      r := Exec(fs, op);
    }
  }

  /** mksfs, mount, then any operations: a run that starts from no names and no files. */
  method RunFromNew(dev: seq<Block>, volname: Name, ops: seq<FsOp>)
    returns (fs: Sfs, rs: seq<Answer>, ghost trace: seq<State>)
    requires MAP_LOCATION + BitBlocks(|dev|) <= |dev| && BitBlocks(|dev|) <= MAXBITBLOCKS && |volname| < 32
    ensures fs.Consistent() && fresh(fs) && fresh(fs.freemap) && fresh(fs.freemap.v)
    ensures AbsRun(trace, ops, rs)
    ensures |trace[0].disk| == |dev| && AbsOf(trace[0]) == AbsFs(map[], map[], map[]) && trace[|ops|] == fs.St()
  {
    hide View, Whole, NameMap, FilesOf, RefsOf, SpareMarked, MarkedIn, AbsOf, DecodeInode, WordsOf, MountedMap;
    var ok, image := Mksfs(dev, volname);
    ghost var s := FreshState(image);
    WholeInv(s);
    FreshMountable(image);
    var result, mounted := DoMount(BLOCKSIZE, image, FreshOwner(|image|));
    assert image[..|image|] == image;
    fs := mounted;
    MountedIs(s, fs.St());
    rs, trace := Run(fs, ops);
  }

  lemma FreshMountable(image: seq<Block>)
    requires FreshImage(image)
    ensures |image| > 0 && WordsOf(image[SB_LOCATION])[0] == SFS_MAGIC && WordsOf(image[SB_LOCATION])[1] == |image|
  {
  }

  /** A mounted image has the state its writer left. */
  lemma MountedIs(s: State, t: State)
    requires Inv(s) && AllSynced(s)
    requires t.disk == s.disk && MountedMap(t) && !t.mapdirty && t.vnodes == map[] && t.owner == s.owner
    ensures t == Remounted(s)
  {
    hide DiskBit;
    SameMap(s, t);
  }

  /**
   sfs_sync and then a mount of the image: consistent, with the same names and
   the same files. The files lost are exactly those that had no name left and
   were kept only by their vnodes.
   */
  method SyncAndRemount(fs: Sfs) returns (again: Sfs)
    requires fs.Consistent()
    modifies fs, fs.freemap.v
    ensures fs.Consistent() && AbsOf(fs.St()) == AbsOf(old(fs.St()))
    ensures Shows(fs.disk, AbsOf(fs.St())) && ShowsMarks(fs.disk, fs.freemap.Marked()) && again.disk == fs.disk
    ensures fresh(again) && fresh(again.freemap) && fresh(again.freemap.v) && again.Consistent()
    ensures AbsOf(again.St()) == AbsOf(fs.St()).(refs := map[])
    ensures var a := AbsOf(fs.St());
            forall x :: Lost(AbsOf(again.St()), x) <==> x in a.files && a.files[x].links == 0
  {
    hide View, Whole, NameMap, FilesOf, RefsOf, SpareMarked, MarkedIn, AbsOf, DecodeInode, WordsOf, MountedMap, DirSound, Shows, ShowsMarks;
    fs.Sync();
    ghost var s := fs.St();
    WholeInv(s);
    ImageMountable(s);
    var result, mounted := DoMount(BLOCKSIZE, fs.disk, fs.owner);
    assert fs.disk[..|fs.disk|] == fs.disk;
    again := mounted;
    MountedIs(s, again.St());
    RemountIsFaithful(s);
  }

  lemma ImageMountable(s: State)
    requires Inv(s)
    ensures |s.disk| > 0 && WordsOf(s.disk[SB_LOCATION])[1] == |s.disk| && WordsOf(s.disk[SB_LOCATION])[0] == SFS_MAGIC
    ensures MAP_LOCATION + BitBlocks(|s.disk|) <= |s.disk|
  {
    MapFits(s);
  }
}
