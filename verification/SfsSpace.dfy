/** How many blocks a file system of so many files can take: when running out of space is impossible. */
module SfsSpace {
  import opened Basics
  import opened Bitmaps
  import opened SfsLayout
  import opened SfsState
  import opened SfsTransfer
  import opened SfsOps

  /** The blocks of the inodes in `xs`, their own and those they map. */
  ghost function BlocksOf(s: State, xs: set<nat>): (r: set<nat>)
  {
    set b | b in s.owner && PartOf(s.owner[b], xs)
  }

  predicate PartOf(t: Slot, xs: set<nat>)
  {
    (t.InodeBlock? || t.IndirectBlock? || t.DataBlock?) && t.ino in xs
  }

  lemma {:induction false} DataBound(s: State, ino: nat, n: nat)
    requires Owned(s) && Live(s, ino) && n <= MAXBLOCKS
    ensures |DataBelow(s, ino, n)| <= n
  {
    hide Owned, Ptr;
    if n == 0 {
      assert DataBelow(s, ino, 0) == {};
    } else {
      DataBound(s, ino, n - 1);
      DataBelowNext(s, ino, n - 1);
    }
  }

  /** A file takes at most its inode, the indirect block and 143 data blocks. */
  lemma FileBound(s: State, ino: nat)
    requires Owned(s) && Live(s, ino)
    ensures |FileBlocks(s, ino)| <= MAXBLOCKS + 1
  {
    hide Owned, FileBlocks, DataBelow;
    DataBound(s, ino, MAXBLOCKS);
    AllFileBlocks(s, ino);
  }

  lemma {:induction false} FilesBound(s: State, xs: set<nat>)
    requires Owned(s) && forall x | x in xs :: Live(s, x)
    ensures |BlocksOf(s, xs)| <= (MAXBLOCKS + 2) * |xs|
  {
    hide Owned, Live, BlocksOf, FileBlocks;
    if xs == {} {
      NobodysBlocks(s);
    } else {
      var x :| x in xs;
      FilesBound(s, xs - {x});
      FileBound(s, x);
      OneMore(s, xs, x);
      UnionSize(BlocksOf(s, xs - {x}), FileBlocks(s, x), x);
      SubsetSize(BlocksOf(s, xs), BlocksOf(s, xs - {x}) + FileBlocks(s, x) + {x});
      assert |xs - {x}| == |xs| - 1;
    }
  }

  lemma NobodysBlocks(s: State)
    ensures BlocksOf(s, {}) == {}
  {
  }

  lemma SubsetSize(a: set<nat>, b: set<nat>)
    requires a <= b
    ensures |a| <= |b|
  {
    assert b == a + (b - a);
  }

  lemma OneMore(s: State, xs: set<nat>, x: nat)
    requires Owned(s) && x in xs
    ensures BlocksOf(s, xs) <= BlocksOf(s, xs - {x}) + FileBlocks(s, x) + {x}
  {
    forall b | b in BlocksOf(s, xs)
      ensures b in BlocksOf(s, xs - {x}) + FileBlocks(s, x) + {x}
    {
      assert OwnerOk(s, b);
    }
  }

  lemma UnionSize(a: set<nat>, b: set<nat>, x: nat)
    ensures |a + b + {x}| <= |a| + |b| + 1
  {
  }

  /** The live inodes: the root and the files. */
  ghost function Inodes(s: State): (r: set<nat>)
  {
    FilesOf(s).Keys + {ROOT_LOCATION}
  }

  /** The superblock and the free map come first on the device. */
  lemma ReservedBound(s: State)
    requires Owned(s)
    ensures |s.owner.Keys - BlocksOf(s, Inodes(s))| <= MAP_LOCATION + BitBlocks(|s.disk|)
  {
    hide Owned, BlocksOf, Inodes, BitBlocks;
    var rest := s.owner.Keys - BlocksOf(s, Inodes(s));
    forall b | b in rest
      ensures b < MAP_LOCATION + BitBlocks(|s.disk|)
    {
      ReservedBlock(s, b);
    }
    BelowSize(MAP_LOCATION + BitBlocks(|s.disk|), rest);
  }

  lemma ReservedBlock(s: State, b: nat)
    requires Owned(s) && b in s.owner && b !in BlocksOf(s, Inodes(s))
    ensures b < MAP_LOCATION + BitBlocks(|s.disk|)
  {
    hide View, Inodes, Fixed, FileOwned;
    assert OwnerOk(s, b);
    match s.owner[b] {
      case Super =>
      case MapBlock(i) =>
      case InodeBlock(_) => OwnersLive(s, b);
      case IndirectBlock(_) => OwnersLive(s, b);
      case DataBlock(_, _) => OwnersLive(s, b);
    }
  }

  /** Whatever part of a file owns a block, the file is live. */
  lemma OwnersLive(s: State, b: nat)
    requires Owned(s) && b in s.owner && (s.owner[b].InodeBlock? || s.owner[b].IndirectBlock? || s.owner[b].DataBlock?)
    ensures s.owner[b].ino in Inodes(s)
  {
    hide View;
    assert OwnerOk(s, b);
  }

  /** The blocks that `n` files, the root directory, the map and the superblock can take, and one more. */
  function MostBlocks(nblocks: nat, n: nat): (r: nat)
  {
    MAP_LOCATION + BitBlocks(nblocks) + (MAXBLOCKS + 2) * (n + 1) + 1
  }

  /** While the device is larger than all files could be, it is not even nearly full. */
  lemma SpaceLeft(s: State)
    requires Inv(s) && |s.disk| > MostBlocks(|s.disk|, |FilesOf(s)|)
    ensures !AlmostFull(s)
  {
    hide Owned, InvWriting, BlocksOf, FilesOf, Live;
    if b: nat :| FullBut(s, b) {
      SpaceTaken(s, b);
    }
  }

  lemma SpaceTaken(s: State, b: nat)
    requires Inv(s) && FullBut(s, b)
    ensures |s.disk| <= MostBlocks(|s.disk|, |FilesOf(s)|)
  {
    hide Owned, InvWriting, BlocksOf, FullBut, BitBlocks, Live;
    assert Owned(s) by { OwnedInv(s); }
    ReservedBound(s);
    InodesLive(s);
    FilesBound(s, Inodes(s));
    var mine := BlocksOf(s, Inodes(s));
    AllButOne(s, b);
    SubsetSize(Upto(|s.disk|) - {b}, s.owner.Keys);
    Parts(s.owner.Keys, mine);
  }

  lemma Parts(a: set<nat>, b: set<nat>)
    ensures |a| <= |a - b| + |b|
  {
    SubsetSize(a, (a - b) + b);
  }

  lemma OwnedInv(s: State)
    requires Inv(s)
    ensures Owned(s)
  {
  }

  lemma InodesLive(s: State)
    requires Owned(s)
    ensures forall x | x in Inodes(s) :: Live(s, x)
    ensures |Inodes(s)| <= |FilesOf(s)| + 1
  {
    hide View;
    assert |FilesOf(s).Keys| == |FilesOf(s)|;
  }

  ghost function Upto(n: nat): (r: set<nat>)
    ensures |r| == n && forall c: nat :: c in r <==> c < n
  {
    if n == 0 then {} else Upto(n - 1) + {n - 1}
  }

  lemma AllButOne(s: State, b: nat)
    requires Owned(s) && FullBut(s, b)
    ensures Upto(|s.disk|) - {b} <= s.owner.Keys
    ensures |Upto(|s.disk|) - {b}| >= |Upto(|s.disk|)| - 1
  {
    hide View, Fixed, FileOwned, OwnerOk, Live;
  }
}
