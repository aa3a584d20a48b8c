/**
 The device read by its format alone (kern/include/kern/sfs.h): fixed block
 numbers, byte offsets and big-endian numbers, and nothing of the code. What
 such a reader finds on a synced device is the file system its users see.
 */
module SfsDevice {
  import opened Uios
  import opened Bitmaps
  import opened SfsLayout
  import opened SfsState
  import opened SfsTransfer
  import opened SfsDirectory
  import opened SfsOps
  import opened SfsImage

  /** The device block behind block `k` of the file whose inode is in block `ino`; 0 if there is none. */
  ghost function FormatBlock(disk: seq<Block>, ino: nat, k: nat): (b: nat)
    requires ino < |disk|
  {
    if k < 15 then
      BigEndian(disk[ino][8 + 4 * k..12 + 4 * k])
    else
      var indirect := BigEndian(disk[ino][68..72]);
      if 0 < indirect < |disk| && k < 143 then BigEndian(disk[indirect][4 * (k - 15)..4 * (k - 15) + 4]) else 0
  }

  /** Byte `p` of that file; a missing block reads as zeros. */
  ghost function FormatByte(disk: seq<Block>, ino: nat, p: nat): (x: byte)
    requires ino < |disk|
  {
    var b := FormatBlock(disk, ino, p / 512);
    if 0 < b < |disk| then disk[b][p % 512] else 0
  }

  /** The file at block `ino` has this size, type, link count and contents. */
  ghost predicate FormatFile(disk: seq<Block>, ino: nat, v: FileView)
  {
    && ino < |disk|
    && BigEndian(disk[ino][0..4]) == v.size
    && BigEndian(disk[ino][4..6]) == v.kind
    && BigEndian(disk[ino][6..8]) == v.links
    && |v.bytes| == MAXBYTES && forall p: nat | p < MAXBYTES :: v.bytes[p] == FormatByte(disk, ino, p)
  }

  /** The 64 bytes of directory slot `i`: the directory's inode is in block 1. */
  ghost function FormatSlot(disk: seq<Block>, i: nat): (s: seq<byte>)
    requires 1 < |disk|
    ensures |s| == 64
  {
    seq(64, j requires 0 <= j < 64 => FormatByte(disk, 1, 64 * i + j))
  }

  /** Slot `i` is inside the directory, in use, and holds this name and inode number. */
  ghost predicate FormatBinds(disk: seq<Block>, i: nat, name: Name, ino: nat)
  {
    && 1 < |disk| && 64 * (i + 1) <= BigEndian(disk[1][0..4])
    && 0 < ino < 0x1_0000_0000 && HoldsEntry(FormatSlot(disk, i), DirEntry(ino, name))
  }

  /** Bit `b` of the free map, which begins at block 2: 4096 bits to a block, the lowest bit of a byte first. */
  ghost predicate FormatMarked(disk: seq<Block>, b: nat)
  {
    2 + b / 4096 < |disk| && disk[2 + b / 4096][b % 4096 / 8] as bv8 & ((1 as bv8) << (b % 8)) != 0
  }

  /** The names and files found are exactly these. */
  ghost predicate Shows(disk: seq<Block>, a: AbsFs)
  {
    && (forall x | x in a.files :: FormatFile(disk, x, a.files[x]))
    && (forall name: Name, i: nat, ino: nat :: FormatBinds(disk, i, name, ino) ==> name in a.names && a.names[name] == ino)
    && (forall name | name in a.names :: exists i: nat :: FormatBinds(disk, i, name, a.names[name]))
  }

  /** The blocks marked are exactly these. */
  ghost predicate ShowsMarks(disk: seq<Block>, used: set<nat>)
  {
    forall b: nat | b < |disk| :: FormatMarked(disk, b) <==> b in used
  }

  // ---- files ----

  lemma InodeWritten(s: State, x: nat)
    requires Inv(s) && AllSynced(s) && Live(s, x)
    ensures x < |s.disk| && HoldsInode(s.disk[x], InodeOf(s, x))
  {
    hide DecodeInode, HoldsInode, WordsOf, View;
    assert OwnerOk(s, x);
    if x in s.vnodes {
      assert Clean(s, x);
    }
    InodeLayout(s.disk[x]);
  }

  lemma BlockWritten(s: State, x: nat, k: nat)
    requires Inv(s) && AllSynced(s) && Live(s, x) && k < MAXBLOCKS
    ensures x < |s.disk| && FormatBlock(s.disk, x, k) == Ptr(s, InodeOf(s, x), k)
  {
    hide DecodeInode, WordsOf, View, BigEndian, InodeOf;
    InodeWritten(s, x);
    IndirectInRange(s, x);
    var i := InodeOf(s, x);
    if k >= NDIRECT && i.indirect != 0 {
      WordLayout(s.disk[i.indirect], k - NDIRECT);
    }
  }

  lemma ByteWritten(s: State, x: nat, p: nat)
    requires Inv(s) && AllSynced(s) && Live(s, x) && p < MAXBYTES
    ensures x < |s.disk| && FormatByte(s.disk, x, p) == FileByte(s, InodeOf(s, x), p)
  {
    hide FormatBlock, Ptr, InodeOf, View;
    BlockWritten(s, x, p / 512);
    PtrInRange(s, x, p / 512);
  }

  lemma FileWritten(s: State, x: nat)
    requires Inv(s) && AllSynced(s) && Live(s, x)
    ensures FormatFile(s.disk, x, View(s, x))
  {
    hide FormatByte, FileByte, InodeOf, BigEndian, Inv;
    InodeWritten(s, x);
    forall p: nat | p < MAXBYTES
      ensures View(s, x).bytes[p] == FormatByte(s.disk, x, p)
    {
      ByteWritten(s, x, p);
    }
  }

  // ---- names ----

  /** The bytes decide the entry. */
  lemma OneEntryHeld(s: seq<byte>, e: DirEntry, f: DirEntry)
    requires |s| == DIRENTSIZE && HoldsEntry(s, e) && HoldsEntry(s, f)
    ensures e == f
  {
    hide BigEndian;
    assert forall j: nat | j < |e.name| :: e.name[j] == s[4 + j];
    assert forall j: nat | j < |f.name| :: f.name[j] == s[4 + j];
  }

  lemma SlotWritten(s: State, i: nat)
    requires Whole(s) && AllSynced(s) && i < |Dir(s)|
    ensures 1 < |s.disk| && HoldsEntry(FormatSlot(s.disk, i), Dir(s)[i])
  {
    hide HoldsEntry, DecodeEntry, FormatByte, Inv, Bytes, InodeOf, NamesUnique, EntriesLive, NoHoles, LinksOk, CacheOk;
    RootLive(s);
    FileWritten(s, ROOT_LOCATION);
    var v := View(s, ROOT_LOCATION);
    var slot := v.bytes[i * DIRENTSIZE..i * DIRENTSIZE + DIRENTSIZE];
    assert FormatSlot(s.disk, i) == slot;
    EntryLayout(slot);
  }

  lemma SlotsWritten(s: State)
    requires Whole(s) && AllSynced(s)
    ensures 1 < |s.disk| && BigEndian(s.disk[1][0..4]) == 64 * |Dir(s)|
  {
    hide FormatByte, Inv, Bytes, InodeOf, NamesUnique, EntriesLive, NoHoles, LinksOk, CacheOk, BigEndian, EntryAt;
    RootLive(s);
    FileWritten(s, ROOT_LOCATION);
  }

  lemma NameFound(s: State, name: Name, i: nat, ino: nat)
    requires Whole(s) && AllSynced(s)
    ensures FormatBinds(s.disk, i, name, ino) <==> Binds(Dir(s), i, name) && Dir(s)[i].ino == ino
  {
    hide HoldsEntry, FormatSlot, Inv, View, NamesUnique, EntriesLive, NoHoles, LinksOk, CacheOk, BigEndian, Entries;
    SlotsWritten(s);
    if i < |Dir(s)| {
      SlotWritten(s, i);
      if FormatBinds(s.disk, i, name, ino) {
        OneEntryHeld(FormatSlot(s.disk, i), Dir(s)[i], DirEntry(ino, name));
      }
    }
  }

  // ---- the theorems ----

  /** A synced device shows the file system. */
  lemma SyncedShows(s: State)
    requires Whole(s) && AllSynced(s)
    ensures Shows(s.disk, AbsOf(s))
  {
    hide FormatFile, FormatBinds, Inv, View, NoHoles, EntriesLive, LinksOk, CacheOk, Entries, NameMap;
    var a := AbsOf(s);
    forall x | x in a.files
      ensures FormatFile(s.disk, x, a.files[x])
    {
      FileWritten(s, x);
    }
    forall name: Name, i: nat, ino: nat | FormatBinds(s.disk, i, name, ino)
      ensures name in a.names && a.names[name] == ino
    {
      NameFound(s, name, i, ino);
      NameMapAt(Dir(s), i, name);
    }
    forall name | name in a.names
      ensures exists i: nat :: FormatBinds(s.disk, i, name, a.names[name])
    {
      NameMapHas(Dir(s), name);
      var i: nat :| Binds(Dir(s), i, name);
      NameMapAt(Dir(s), i, name);
      NameFound(s, name, i, a.names[name]);
    }
  }

  /** And its free map marks the blocks in use. */
  lemma SyncedMarks(s: State)
    requires Inv(s) && AllSynced(s)
    ensures ShowsMarks(s.disk, s.used)
  {
    hide View, DecodeInode, WordsOf;
    forall b: nat | b < |s.disk|
      ensures FormatMarked(s.disk, b) <==> b in s.used
    {
      MaskIsShift(b % 8);
      assert DiskBit(s, b) <==> b in s.used;
      assert MapOwned(s, b / 4096);
      assert OwnerOk(s, 2 + b / 4096);
    }
  }
}
