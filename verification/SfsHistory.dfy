/** What every run of the file system tells its users: reads against earlier writes, and files lost. */
module SfsHistory {
  import opened Errno
  import opened Uios
  import opened Bitmaps
  import opened SfsLayout
  import opened SfsState
  import opened SfsTruncate
  import opened SfsTransfer
  import opened SfsDirectory
  import opened SfsOps
  import opened SfsSpace
  import opened SfsFileSystem
  import opened SfsMount
  import opened SfsRun

  // ---- reads return what was written ----

  /** What one operation and its answer say about the contents of file `ino`. */
  ghost function Replayed(f: FileView, op: FsOp, r: Answer, ino: nat): (g: FileView)
    requires |f.bytes| == MAXBYTES
    ensures |g.bytes| == MAXBYTES
  {
    match op
    case WriteAt(x, off, data) =>
      if x == ino && r.Done? && r.n <= Mappable(off, |data|) then Written(f, off, data, r.n) else f
    case Resize(x, len) => if x == ino && r.Done? then Clipped(f, len) else f
    case _ => f
  }

  /** The same for operations `i` to `j`. */
  ghost function ReplayedAll(f: FileView, ops: seq<FsOp>, rs: seq<Answer>, i: nat, j: nat, ino: nat): (g: FileView)
    requires |f.bytes| == MAXBYTES && i <= j <= |ops| == |rs|
    ensures |g.bytes| == MAXBYTES
    decreases j
  {
    if i == j then f else Replayed(ReplayedAll(f, ops, rs, i, j - 1, ino), ops[j - 1], rs[j - 1], ino)
  }

  predicate SameData(f: FileView, g: FileView)
  {
    f.size == g.size && f.bytes == g.bytes
  }

  lemma StepReplays(a: AbsFs, op: FsOp, r: Answer, b: AbsFs, space: Space, ino: nat)
    requires AbsStep(a, op, r, b, space) && IsFile(a, ino) && ino in b.files && ino != ROOT_LOCATION
    ensures IsFile(b, ino) && SameData(b.files[ino], Replayed(a.files[ino], op, r, ino))
  {
    hide Written, Mappable, ReadDone, LinkAnswer;
  }

  lemma SameReplay(f: FileView, g: FileView, op: FsOp, r: Answer, ino: nat)
    requires |f.bytes| == MAXBYTES && SameData(f, g)
    ensures SameData(Replayed(f, op, r, ino), Replayed(g, op, r, ino))
  {
  }

  lemma FileIs(s: State, ino: nat)
    requires Whole(s) && ino in Seen(s).files
    ensures IsFile(Seen(s), ino) && ino != ROOT_LOCATION
  {
    hide Inv, DirOk, LinksOk, NameMap;
  }

  /** File `ino` is there at every moment from `i` to `j`. */
  ghost predicate Stays(trace: seq<State>, i: nat, j: nat, ino: nat)
    requires i <= j < |trace| && forall k: nat | k < |trace| :: Whole(trace[k])
  {
    forall k: nat | i <= k <= j :: ino in Seen(trace[k]).files
  }

  lemma RanReplays(s: State, op: FsOp, r: Answer, s': State, ino: nat)
    requires Whole(s) && Whole(s') && Ran(s, op, r, s') && ino in Seen(s).files && ino in Seen(s').files
    ensures IsFile(Seen(s), ino) && IsFile(Seen(s'), ino)
    ensures SameData(Seen(s').files[ino], Replayed(Seen(s).files[ino], op, r, ino))
  {
    hide Whole, Seen, AbsStep, SpaceOf, Allowed, Replayed;
    FileIs(s, ino);
    FileIs(s', ino);
    if Allowed(Seen(s), op) {
      StepReplays(Seen(s), op, r, Seen(s'), SpaceOf(s, s'), ino);
    } else {
      NotReplayed(Seen(s).files[ino], op, ino);
    }
  }

  lemma NotReplayed(f: FileView, op: FsOp, ino: nat)
    requires |f.bytes| == MAXBYTES
    ensures SameData(f, Replayed(f, op, NotIssued, ino))
  {
  }

  /** In every run, a file holds what the writes and truncations answered so far left in it. */
  lemma {:induction false} RunReplays(trace: seq<State>, ops: seq<FsOp>, rs: seq<Answer>, i: nat, j: nat, ino: nat)
    requires AbsRun(trace, ops, rs) && i <= j <= |ops| && Stays(trace, i, j, ino)
    ensures IsFile(Seen(trace[i]), ino) && IsFile(Seen(trace[j]), ino)
    ensures SameData(Seen(trace[j]).files[ino], ReplayedAll(Seen(trace[i]).files[ino], ops, rs, i, j, ino))
    decreases j
  {
    hide Whole, Seen, Replayed, Ran;
    if i == j {
      FileIs(trace[i], ino);
    } else {
      assert Stays(trace, i, j - 1, ino);
      RunReplays(trace, ops, rs, i, j - 1, ino);
      RanReplays(trace[j - 1], ops[j - 1], rs[j - 1], trace[j], ino);
      var f := ReplayedAll(Seen(trace[i]).files[ino], ops, rs, i, j - 1, ino);
      SameReplay(Seen(trace[j - 1]).files[ino], f, ops[j - 1], rs[j - 1], ino);
    }
  }

  lemma ReadAnswer(s: State, r: Answer, s': State, ino: nat, off: nat, len: nat)
    requires Whole(s) && Whole(s') && Ran(s, ReadAt(ino, off, len), r, s') && r.Done? && ino in Seen(s).files
    ensures IsFile(Seen(s), ino) && ReadDone(Seen(s).files[ino], off, len, r)
  {
    hide Whole, Seen, SpaceOf, ReadDone;
    FileIs(s, ino);
  }

  /** Every read returns the bytes that the earlier writes and truncations left. */
  lemma ReadsReplay(trace: seq<State>, ops: seq<FsOp>, rs: seq<Answer>, i: nat, j: nat, ino: nat, off: nat, len: nat)
    requires AbsRun(trace, ops, rs) && i <= j < |ops| && Stays(trace, i, j, ino)
    requires ops[j] == ReadAt(ino, off, len) && rs[j].Done?
    ensures IsFile(Seen(trace[i]), ino)
    ensures ReadDone(ReplayedAll(Seen(trace[i]).files[ino], ops, rs, i, j, ino), off, len, rs[j])
  {
    hide Whole, Seen, Replayed, Ran;
    RunReplays(trace, ops, rs, i, j, ino);
    ReadAnswer(trace[j], rs[j], trace[j + 1], ino, off, len);
  }

  predicate Touches(op: FsOp, ino: nat)
  {
    (op.WriteAt? || op.Resize?) && op.ino == ino
  }

  lemma {:induction false} Untouched(f: FileView, ops: seq<FsOp>, rs: seq<Answer>, i: nat, j: nat, ino: nat)
    requires |f.bytes| == MAXBYTES && i <= j <= |ops| == |rs|
    requires forall k: nat | i <= k < j :: !Touches(ops[k], ino)
    ensures ReplayedAll(f, ops, rs, i, j, ino) == f
    decreases j
  {
    if i < j {
      Untouched(f, ops, rs, i, j - 1, ino);
    }
  }

  lemma WriteAnswer(s: State, r: Answer, s': State, ino: nat, off: nat, data: seq<byte>)
    requires Whole(s) && Whole(s') && Ran(s, WriteAt(ino, off, data), r, s') && r.Done?
    requires ino in Seen(s).files && ino in Seen(s').files
    ensures IsFile(Seen(s), ino) && r.n <= Mappable(off, |data|)
    ensures Seen(s').files[ino] == Written(Seen(s).files[ino], off, data, r.n)
  {
    hide Whole, Seen, SpaceOf, Written, Mappable;
    FileIs(s, ino);
  }

  /** The bytes a write stored, whole or cut short, come back when the same place is read next. */
  lemma ReadsLastWrite(trace: seq<State>, ops: seq<FsOp>, rs: seq<Answer>, i: nat, j: nat,
                       ino: nat, off: nat, data: seq<byte>, len: nat)
    requires AbsRun(trace, ops, rs) && i < j < |ops| && Stays(trace, i, j, ino)
    requires ops[i] == WriteAt(ino, off, data) && rs[i].Done?
    requires forall k: nat | i < k < j :: !Touches(ops[k], ino)
    requires ops[j] == ReadAt(ino, off, len) && rs[j].Done? && len <= rs[i].n
    ensures len <= |data| && rs[j].data == data[..len]
    ensures len > 0 ==> rs[j].result == Success
  {
    hide Whole, Seen, Replayed, Ran, Written, ReadDone, ReplayedAll;
    assert Stays(trace, i + 1, j, ino);
    WriteAnswer(trace[i], rs[i], trace[i + 1], ino, off, data);
    ReadsReplay(trace, ops, rs, i + 1, j, ino, off, len);
    Untouched(Seen(trace[i + 1]).files[ino], ops, rs, i + 1, j, ino);
    ReadWritten(Seen(trace[i]).files[ino], off, data, rs[i].n, len, rs[j]);
  }

  lemma ReadWritten(f: FileView, off: nat, data: seq<byte>, n: nat, len: nat, r: Answer)
    requires |f.bytes| == MAXBYTES && n <= Mappable(off, |data|) && len <= n && r.Done?
    requires ReadDone(Written(f, off, data, n), off, len, r)
    ensures r.data == data[..len] && (len > 0 ==> r.result == Success)
  {
    if len > 0 {
      SpliceBack(f.bytes, off, data[..n], len);
    }
  }

  lemma SpliceBack(bytes: seq<byte>, off: nat, d: seq<byte>, len: nat)
    requires off + |d| <= |bytes| && len <= |d|
    ensures Splice(bytes, off, d)[off..off + len] == d[..len]
  {
  }

  // ---- writes that fail ----

  /**
   A write that fails without storing a byte leaves the file system as it was
   exactly when it began inside the file: past its end the size is still
   raised. At the mappable size and beyond every write fails that way.
   */
  lemma FailedWrite(a: AbsFs, ino: nat, off: nat, data: seq<byte>, r: Answer, b: AbsFs, space: Space)
    requires AbsStep(a, WriteAt(ino, off, data), r, b, space) && ino != ROOT_LOCATION && r.result != Success
    ensures r.n == 0 ==> (b == a <==> off <= a.files[ino].size)
    ensures b.files[ino].size == a.files[ino].size <==> off + r.n <= a.files[ino].size
    ensures off >= MAXBYTES ==> r.result == EINVAL && r.n == 0
  {
    if b == a {
      assert b.files[ino] == a.files[ino];
    }
  }

  // ---- lost files ----

  /** No file is lost. */
  ghost predicate Tidy(a: AbsFs)
  {
    forall x :: !Lost(a, x)
  }

  lemma StepTidy(a: AbsFs, op: FsOp, r: Answer, b: AbsFs, space: Space)
    requires AbsStep(a, op, r, b, space) && Tidy(a)
    ensures Tidy(b)
  {
    hide Mappable, ReadDone, LinkAnswer, WriteResult;
    forall x
      ensures !Lost(b, x)
    {
      assert !Lost(a, x);
    }
  }

  /** A file nobody names stays lost: nothing that can be asked for leads to it. */
  lemma StepLost(a: AbsFs, op: FsOp, r: Answer, b: AbsFs, space: Space, x: nat)
    requires AbsStep(a, op, r, b, space) && Allowed(a, op) && x != ROOT_LOCATION
    requires Lost(a, x) && forall n | n in a.names :: a.names[n] != x
    ensures Lost(b, x) && b.files[x] == a.files[x]
  {
    hide Mappable, ReadDone, LinkAnswer, WriteResult, Written;
  }

  lemma LostUnnamed(s: State, x: nat)
    requires Whole(s) && Lost(Seen(s), x)
    ensures x != ROOT_LOCATION && forall n | n in Seen(s).names :: Seen(s).names[n] != x
  {
    hide Whole, NameMap, FilesOf, RefsOf;
    FileIs(s, x);
    forall n | n in Seen(s).names
      ensures Seen(s).names[n] != x
    {
      if Seen(s).names[n] == x {
        WholeSound(s);
        NamesNonRoot(s, n);
      }
    }
  }

  /** The inode block and all blocks of a file are marked in use. */
  lemma FileMarked(s: State, x: nat)
    requires Whole(s) && x in Seen(s).files
    ensures x in s.used && FileBlocks(s, x) <= s.used
  {
    hide DirOk, LinksOk, NameMap, View;
  }

  lemma RanTidy(s: State, op: FsOp, r: Answer, s': State)
    requires Whole(s) && Whole(s') && Ran(s, op, r, s') && Tidy(Seen(s))
    ensures Tidy(Seen(s'))
  {
    hide Whole, Seen, AbsStep, SpaceOf, Allowed, Tidy;
    if Allowed(Seen(s), op) {
      StepTidy(Seen(s), op, r, Seen(s'), SpaceOf(s, s'));
    }
  }

  /** Without a new mount no file is ever lost. */
  lemma {:induction false} RunTidy(trace: seq<State>, ops: seq<FsOp>, rs: seq<Answer>, j: nat)
    requires AbsRun(trace, ops, rs) && j <= |ops| && Tidy(Seen(trace[0]))
    ensures Tidy(Seen(trace[j]))
  {
    hide Whole, Seen, Ran, Tidy;
    if j > 0 {
      RunTidy(trace, ops, rs, j - 1);
      RanTidy(trace[j - 1], ops[j - 1], rs[j - 1], trace[j]);
    }
  }

  lemma RanLost(s: State, op: FsOp, r: Answer, s': State, x: nat)
    requires Whole(s) && Whole(s') && Ran(s, op, r, s') && Lost(Seen(s), x)
    ensures Lost(Seen(s'), x) && Seen(s').files[x] == Seen(s).files[x]
  {
    hide Whole, Seen, AbsStep, SpaceOf, Allowed, Lost;
    LostUnnamed(s, x);
    if Allowed(Seen(s), op) {
      StepLost(Seen(s), op, r, Seen(s'), SpaceOf(s, s'), x);
    }
  }

  /** In every run a lost file stays lost, with its contents, and keeps its blocks marked. */
  lemma {:induction false} RunLost(trace: seq<State>, ops: seq<FsOp>, rs: seq<Answer>, j: nat, x: nat)
    requires AbsRun(trace, ops, rs) && j <= |ops| && Lost(Seen(trace[0]), x)
    ensures Lost(Seen(trace[j]), x) && Seen(trace[j]).files[x] == Seen(trace[0]).files[x]
    ensures x in trace[j].used && FileBlocks(trace[j], x) <= trace[j].used
  {
    hide Whole, Seen, Ran, FileBlocks;
    if j > 0 {
      RunLost(trace, ops, rs, j - 1, x);
      RanLost(trace[j - 1], ops[j - 1], rs[j - 1], trace[j], x);
    }
    FileMarked(trace[j], x);
  }

  // ---- running out of space ----

  lemma NoSpaceMeans(a: AbsFs, op: FsOp, r: Answer, b: AbsFs, space: Space)
    requires AbsStep(a, op, r, b, space) && r.result == ENOSPC
    ensures space.wasFull || space.full || space.tight
    ensures b.files.Keys == a.files.Keys
  {
    hide Mappable, Written;
  }

  /** ENOSPC is answered only when the files there are could fill the device. */
  lemma OutOfSpace(s: State, op: FsOp, r: Answer, s': State)
    requires Whole(s) && Whole(s') && Ran(s, op, r, s') && r.Done? && r.result == ENOSPC
    ensures |s.disk| <= MostBlocks(|s.disk|, |Seen(s).files|)
  {
    hide Whole, AbsStep, Allowed, MostBlocks, NameMap, FilesOf, RefsOf, Full, AlmostFull;
    NoSpaceMeans(Seen(s), op, r, Seen(s'), SpaceOf(s, s'));
    assert |Seen(s').files.Keys| == |Seen(s).files.Keys|;
    WholeInv(s);
    WholeInv(s');
    FullIsAlmostFull(s);
    FullIsAlmostFull(s');
    if |s.disk| > MostBlocks(|s.disk|, |Seen(s).files|) {
      SpaceLeft(s);
      SpaceLeft(s');
    }
  }

  // ---- two runs from a new file system ----

  ghost predicate OneEmptyFile(a: AbsFs, name: Name, ino: nat)
  {
    && ino != ROOT_LOCATION
    && a == AbsFs(map[name := ino], map[ino := FileView(0, TYPE_FILE, 1, Zeros())], map[ROOT_LOCATION := 1, ino := 1])
  }

  /** On a device with room to spare a first file can be created. */
  method NewFile(dev: seq<Block>, volname: Name, name: Name) returns (fs: Sfs, ino: nat)
    requires BitBlocks(|dev|) <= MAXBITBLOCKS && |volname| < 32 && |name| + 1 <= NAMELEN
    requires |dev| > MostBlocks(|dev|, 0)
    ensures fresh(fs) && fresh(fs.freemap) && fresh(fs.freemap.v)
    ensures fs.Consistent() && OneEmptyFile(AbsOf(fs.St()), name, ino)
  {
    hide Whole, AbsOf, SpareMarked, MarkedIn, Ran, Zeros, BitBlocks, OneEmptyFile;
    var rs: seq<Answer>;
    ghost var trace;
    fs, rs, trace := RunFromNew(dev, volname, [GetRoot, Create(name, false)]);
    FirstFile(trace, rs, name);
    ino := rs[1].ino;
  }

  lemma FirstFile(trace: seq<State>, rs: seq<Answer>, name: Name)
    requires |name| + 1 <= NAMELEN && AbsRun(trace, [GetRoot, Create(name, false)], rs)
    requires Seen(trace[0]) == AbsFs(map[], map[], map[]) && |trace[0].disk| > MostBlocks(|trace[0].disk|, 0)
    ensures rs[1].Done? && OneEmptyFile(Seen(trace[2]), name, rs[1].ino)
  {
    hide Whole, Seen, Zeros, MostBlocks;
    var ops := [GetRoot, Create(name, false)];
    assert Ran(trace[0], ops[0], rs[0], trace[1]);
    assert Ran(trace[1], ops[1], rs[1], trace[2]);
    NoFilesNotFull(trace[1]);
    if rs[1].result == ENOSPC {
      NoFilesNotFull(trace[2]);
    }
  }

  lemma NoFilesNotFull(s: State)
    requires Whole(s) && Seen(s).files == map[] && |s.disk| > MostBlocks(|s.disk|, 0)
    ensures !Full(s) && !AlmostFull(s)
  {
    hide Whole, MostBlocks, NameMap, RefsOf;
    WholeInv(s);
    SpaceLeft(s);
    FullIsAlmostFull(s);
  }

  lemma FullIsAlmostFull(s: State)
    ensures Full(s) ==> AlmostFull(s)
  {
    if Full(s) {
      assert FullBut(s, 0);
    }
  }

  /** One byte written at the mappable size of an empty file is refused, and the size grows to 73216. */
  method FailedWriteGrows(dev: seq<Block>, volname: Name, name: Name, x: byte) returns (fs: Sfs, ino: nat, r: Answer)
    requires BitBlocks(|dev|) <= MAXBITBLOCKS && |volname| < 32 && |name| + 1 <= NAMELEN
    requires |dev| > MostBlocks(|dev|, 0)
    ensures fs.Consistent() && r.Done? && r.result == EINVAL && r.n == 0
    ensures ino in AbsOf(fs.St()).files && AbsOf(fs.St()).files[ino].size == 73216
  {
    hide Whole, AbsOf, SpareMarked, MarkedIn, Zeros, BitBlocks, MostBlocks, SpaceOf;
    fs, ino := NewFile(dev, volname, name);
    r := RunOne(fs, WriteAt(ino, 73216, [x]));
  }

  lemma LastName(a: AbsFs, name: Name, ino: nat)
    requires OneEmptyFile(a, name, ino)
    ensures name in a.names && a.names[name] == ino
    ensures var b := Released(Unbound(Held(a, ino), name), ino);
            ino in b.files && b.files[ino].links == 0
  {
    hide Zeros;
  }

  /** A file removed while held, then a sync and a new mount: it is lost for all time to come. */
  method OrphanIsLost(dev: seq<Block>, volname: Name, name: Name, later: seq<FsOp>)
    returns (again: Sfs, ino: nat, rs: seq<Answer>, ghost trace: seq<State>)
    requires BitBlocks(|dev|) <= MAXBITBLOCKS && |volname| < 32 && |name| + 1 <= NAMELEN
    requires |dev| > MostBlocks(|dev|, 0)
    ensures again.Consistent() && AbsRun(trace, later, rs) && trace[|later|] == again.St()
    ensures forall j: nat | j <= |later| :: Lost(Seen(trace[j]), ino) && ino in trace[j].used
  {
    hide Whole, AbsOf, SpareMarked, MarkedIn, Zeros, BitBlocks, MostBlocks, SpaceOf, OneEmptyFile, Ran;
    var fs: Sfs;
    fs, ino := NewFile(dev, volname, name);
    ghost var s := fs.St();
    var removed := RunOne(fs, Delete(name));
    Removed(s, removed, fs.St(), name, ino);
    again := SyncAndRemount(fs);
    rs, trace := Run(again, later);
    forall j: nat | j <= |later|
      ensures Lost(Seen(trace[j]), ino) && ino in trace[j].used
    {
      RunLost(trace, later, rs, j, ino);
    }
  }

  lemma Removed(s: State, r: Answer, s': State, name: Name, ino: nat)
    requires Whole(s) && Whole(s') && Ran(s, Delete(name), r, s') && OneEmptyFile(Seen(s), name, ino)
    ensures ino in Seen(s').files && Seen(s').files[ino].links == 0
  {
    hide Whole, Seen, SpaceOf, Zeros;
    LastName(Seen(s), name, ino);
  }
}
