/**
 The root directory as a sequence of slots and as a map from names to inode
 numbers, the link counts, and the invariant that ties directory, inodes and
 cache together.
 */
module SfsDirectory {
  import opened Basics
  import opened Uios
  import opened SfsLayout
  import opened SfsState
  import opened SfsTransfer
  import opened Errno

  /** Slots in the largest possible directory. */
  const MAXSLOTS := 1144

  ghost predicate DirFormat(v: FileView)
  {
    |v.bytes| == MAXBYTES && v.size <= MAXBYTES && v.size % DIRENTSIZE == 0
  }

  function EntryAt(bytes: seq<byte>, i: nat): (e: DirEntry)
    requires |bytes| == MAXBYTES && i < MAXSLOTS
  {
    DecodeEntry(bytes[i * DIRENTSIZE..i * DIRENTSIZE + DIRENTSIZE])
  }

  /** The slots of a directory file. */
  ghost function Entries(v: FileView): (es: seq<DirEntry>)
    requires DirFormat(v)
    ensures |es| == v.size / DIRENTSIZE <= MAXSLOTS
  {
    seq(v.size / DIRENTSIZE, i requires 0 <= i < v.size / DIRENTSIZE => EntryAt(v.bytes, i))
  }

  /** Slot `i` binds `name`. */
  predicate Binds(es: seq<DirEntry>, i: nat, name: Name)
  {
    i < |es| && es[i].ino != NOINO && es[i].name == name
  }

  ghost predicate NamesUnique(es: seq<DirEntry>)
  {
    forall i: nat, j: nat | i < j < |es| :: es[i].ino != NOINO && es[j].ino != NOINO ==> es[i].name != es[j].name
  }

  /** The inode number bound to `name`, or SFS_NOINO. */
  ghost function InoNamed(es: seq<DirEntry>, name: Name): (ino: nat)
  {
    if exists i: nat :: Binds(es, i, name) then
      var i: nat :| Binds(es, i, name);
      es[i].ino
    else
      NOINO
  }

  /** The directory as its users see it. */
  ghost function NameMap(es: seq<DirEntry>): (m: map<Name, nat>)
  {
    map n | n in (set i: nat | i < |es| && es[i].ino != NOINO :: es[i].name) :: InoNamed(es, n)
  }

  ghost function SlotsNaming(es: seq<DirEntry>, ino: nat): (r: set<nat>)
  {
    set i: nat | i < |es| && es[i].ino == ino
  }

  /** How many slots name inode `ino`. */
  ghost function LinksTo(es: seq<DirEntry>, ino: nat): (n: nat)
  {
    |SlotsNaming(es, ino)|
  }

  /** Entry `e` written to slot `i`, which may be the one just past the end. */
  function PutEntry(es: seq<DirEntry>, i: nat, e: DirEntry): (r: seq<DirEntry>)
    requires i <= |es|
  {
    if i == |es| then es + [e] else es[i := e]
  }

  // ---- names and counts under updates ----

  lemma NameMapHas(es: seq<DirEntry>, name: Name)
    ensures name in NameMap(es) <==> exists i: nat :: Binds(es, i, name)
    ensures name in NameMap(es) ==> NameMap(es)[name] == InoNamed(es, name)
  {
    if name in NameMap(es) {
      var i: nat :| i < |es| && es[i].ino != NOINO && name == es[i].name;
      assert Binds(es, i, name);
    }
    if i: nat :| Binds(es, i, name) {
      assert es[i].name in NameMap(es);
    }
  }

  lemma NameMapAt(es: seq<DirEntry>, i: nat, name: Name)
    requires NamesUnique(es) && Binds(es, i, name)
    ensures name in NameMap(es) && NameMap(es)[name] == es[i].ino
  {
  }

  /** There are as many names as slots in use. */
  lemma {:induction false} NamesFillSlots(es: seq<DirEntry>)
    requires NamesUnique(es)
    ensures |NameMap(es)| <= |es|
    ensures |NameMap(es)| == |es| <==> forall i: nat | i < |es| :: es[i].ino != NOINO
  {
    hide NameMap;
    if es == [] {
      NoNames();
    } else {
      var i := |es| - 1;
      var es', e := es[..i], es[i];
      assert es == PutEntry(es', i, e);
      NamesFillSlots(es');
      if e.ino != NOINO {
        assert forall j: nat :: !Binds(es', j, e.name);
        LinkNames(es', i, e);
        NameMapHas(es', e.name);
        assert |NameMap(es)| == |NameMap(es')| + 1;
      } else {
        FreeSlotNames(es', e);
      }
    }
  }

  lemma NoNames()
    ensures NameMap([]) == map[]
  {
  }

  lemma FreeSlotNames(es: seq<DirEntry>, e: DirEntry)
    requires e.ino == NOINO && NamesUnique(es)
    ensures NameMap(es + [e]) == NameMap(es)
  {
    hide NameMap;
    forall n: Name
      ensures n in NameMap(es + [e]) <==> n in NameMap(es)
      ensures n in NameMap(es) ==> NameMap(es + [e])[n] == NameMap(es)[n]
    {
      assert PutEntry(es, |es|, e) == es + [e];
      NameAfterPut(es, |es|, e, n);
    }
  }

  /** Slot `i` is the only one that differs between two directories. */
  lemma BindsAfterPut(es: seq<DirEntry>, i: nat, e: DirEntry, j: nat, name: Name)
    requires i <= |es|
    ensures Binds(PutEntry(es, i, e), j, name)
       <==> if j == i then e.ino != NOINO && e.name == name else Binds(es, j, name)
  {
  }

  lemma LinkUnique(es: seq<DirEntry>, i: nat, e: DirEntry)
    requires NamesUnique(es) && i <= |es| && forall j: nat :: !Binds(es, j, e.name)
    ensures NamesUnique(PutEntry(es, i, e))
  {
    var es' := PutEntry(es, i, e);
    forall j: nat, k: nat | j < k < |es'| && es'[j].ino != NOINO && es'[k].ino != NOINO
      ensures es'[j].name != es'[k].name
    {
      assert !Binds(es, j, e.name) && !Binds(es, k, e.name);
    }
  }

  lemma NameAfterPut(es: seq<DirEntry>, i: nat, e: DirEntry, n: Name)
    requires i <= |es| && NamesUnique(es) && NamesUnique(PutEntry(es, i, e))
    requires !Binds(es, i, n) && !Binds(PutEntry(es, i, e), i, n)
    ensures n in NameMap(PutEntry(es, i, e)) <==> n in NameMap(es)
    ensures n in NameMap(es) ==> NameMap(PutEntry(es, i, e))[n] == NameMap(es)[n]
  {
    hide NameMap, NamesUnique;
    var es' := PutEntry(es, i, e);
    NameMapHas(es, n);
    NameMapHas(es', n);
    if n in NameMap(es) {
      var j: nat :| Binds(es, j, n);
      BindsAfterPut(es, i, e, j, n);
      NameMapAt(es, j, n);
      NameMapAt(es', j, n);
    }
    if n in NameMap(es') {
      var j: nat :| Binds(es', j, n);
      BindsAfterPut(es, i, e, j, n);
    }
  }

  /** Binding an unused name in a free slot adds one name and changes no other. */
  lemma LinkNames(es: seq<DirEntry>, i: nat, e: DirEntry)
    requires NamesUnique(es) && i <= |es| && (i < |es| ==> es[i].ino == NOINO)
    requires e.ino != NOINO && forall j: nat :: !Binds(es, j, e.name)
    ensures var es' := PutEntry(es, i, e);
            NamesUnique(es') && NameMap(es') == NameMap(es)[e.name := e.ino]
  {
    hide NameMap;
    var es' := PutEntry(es, i, e);
    LinkUnique(es, i, e);
    NameMapAt(es', i, e.name);
    forall n: Name | n != e.name
      ensures n in NameMap(es') <==> n in NameMap(es)
      ensures n in NameMap(es) ==> NameMap(es')[n] == NameMap(es)[n]
    {
      NameAfterPut(es, i, e, n);
    }
    assert NameMap(es').Keys == NameMap(es)[e.name := e.ino].Keys;
  }

  /** Clearing a slot removes exactly the name it bound. */
  lemma UnlinkNames(es: seq<DirEntry>, i: nat, e: DirEntry)
    requires NamesUnique(es) && i < |es| && es[i].ino != NOINO && e.ino == NOINO
    ensures var es' := PutEntry(es, i, e);
            NamesUnique(es') && NameMap(es') == NameMap(es) - {es[i].name}
  {
    hide NameMap;
    var es' := PutEntry(es, i, e);
    forall n: Name | n != es[i].name
      ensures n in NameMap(es') <==> n in NameMap(es)
      ensures n in NameMap(es) ==> NameMap(es')[n] == NameMap(es)[n]
    {
      NameAfterPut(es, i, e, n);
    }
    NameMapHas(es', es[i].name);
    assert es[i].name !in NameMap(es') by {
      if j: nat :| Binds(es', j, es[i].name) {
        BindsAfterPut(es, i, e, j, es[i].name);
      }
    }
    assert NameMap(es').Keys == (NameMap(es) - {es[i].name}).Keys;
  }

  /** Writing a slot moves one link from the old inode to the new one. */
  lemma LinksAfterPut(es: seq<DirEntry>, i: nat, e: DirEntry, x: nat)
    requires i <= |es|
    ensures LinksTo(PutEntry(es, i, e), x)
         == LinksTo(es, x) + (if e.ino == x then 1 else 0) - (if i < |es| && es[i].ino == x then 1 else 0)
  {
    var old_, new_ := SlotsNaming(es, x), SlotsNaming(PutEntry(es, i, e), x);
    var rest := old_ - {i};
    assert new_ - {i} == rest;
    SizeWith(old_, i);
    SizeWith(new_, i);
  }

  lemma SizeWith(s: set<nat>, i: nat)
    ensures |s| == |s - {i}| + (if i in s then 1 else 0)
  {
  }

  /** A link count never outgrows the directory, so 16 bits always hold it. */
  lemma LinksBound(es: seq<DirEntry>, x: nat)
    ensures LinksTo(es, x) <= |es|
  {
    BelowSize(|es|, SlotsNaming(es, x));
  }

  // ---- slots and bytes ----

  lemma EntrySlice(bytes: seq<byte>, i: nat, d: seq<byte>, j: nat)
    requires |bytes| == MAXBYTES && i < MAXSLOTS && j < MAXSLOTS && |d| == DIRENTSIZE
    ensures Splice(bytes, i * DIRENTSIZE, d)[j * DIRENTSIZE..j * DIRENTSIZE + DIRENTSIZE]
         == if i == j then d else bytes[j * DIRENTSIZE..j * DIRENTSIZE + DIRENTSIZE]
  {
  }

  /** Writing an entry's 64 bytes at slot `i` puts the entry into the directory. */
  lemma EntriesAfterWrite(v: FileView, v': FileView, i: nat, e: DirEntry)
    requires DirFormat(v) && i <= v.size / DIRENTSIZE && i < MAXSLOTS && |e.name| + 1 <= NAMELEN
    requires v'.bytes == Splice(v.bytes, i * DIRENTSIZE, EncodeEntry(e))
    requires v'.size == if i * DIRENTSIZE + DIRENTSIZE > v.size then i * DIRENTSIZE + DIRENTSIZE else v.size
    ensures DirFormat(v') && Entries(v') == PutEntry(Entries(v), i, e)
  {
    hide DecodeEntry, EncodeEntry, Splice;
    var es, es' := Entries(v), Entries(v');
    EntryRoundTrip(e);
    forall j: nat | j < |es'|
      ensures es'[j] == PutEntry(es, i, e)[j]
    {
      EntrySlice(v.bytes, i, EncodeEntry(e), j);
    }
  }

  // ---- the directory of a file system ----

  ghost predicate DirSound(s: State)
  {
    DirFormat(View(s, ROOT_LOCATION))
  }

  ghost function Dir(s: State): (es: seq<DirEntry>)
    requires DirSound(s)
  {
    Entries(View(s, ROOT_LOCATION))
  }

  /** The directory file has a block behind every byte. */
  ghost predicate NoHoles(s: State)
  {
    forall k: nat | k < MAXBLOCKS && k * BLOCKSIZE < View(s, ROOT_LOCATION).size :: Ptr(s, InodeOf(s, ROOT_LOCATION), k) != 0
  }

  ghost predicate EntriesLive(s: State)
    requires DirSound(s)
  {
    forall i: nat | i < |Dir(s)| :: Dir(s)[i].ino != NOINO ==> Live(s, Dir(s)[i].ino)
  }

  /** Every name is bound once, to an inode that exists. */
  ghost predicate DirOk(s: State)
  {
    DirSound(s) && NamesUnique(Dir(s)) && EntriesLive(s) && NoHoles(s)
  }

  function RootLinks(x: nat): (n: nat)
  {
    if x == ROOT_LOCATION then 1 else 0
  }

  ghost predicate LinkOk(s: State, x: nat)
    requires DirSound(s)
  {
    View(s, x).links == LinksTo(Dir(s), x) + RootLinks(x)
  }

  /** Every link count is the number of slots naming the inode, plus one for the root. */
  ghost predicate LinksOk(s: State)
    requires DirSound(s)
  {
    forall x | Live(s, x) :: LinkOk(s, x)
  }

  /** Every vnode in memory is referenced. */
  ghost predicate CacheOk(s: State)
  {
    forall x | x in s.vnodes :: s.vnodes[x].refs > 0
  }

  /** What holds between operations on the file system. */
  ghost predicate Whole(s: State)
  {
    Inv(s) && DirOk(s) && LinksOk(s) && CacheOk(s)
  }

  /** From `s` to `s'`, slot `i` of the directory became `e` and no other file changed. */
  ghost predicate DirWritten(s: State, s': State, i: nat, e: DirEntry)
  {
    && DirSound(s) && DirSound(s') && i <= |Dir(s)|
    && Dir(s') == PutEntry(Dir(s), i, e)
    && Live(s', ROOT_LOCATION) && View(s', ROOT_LOCATION).links == View(s, ROOT_LOCATION).links
    && OthersKept(s, s', ROOT_LOCATION)
    && NoHoles(s')
    && SameCache(s.vnodes, s'.vnodes)
  }

  /** A request to write one directory entry. */
  ghost predicate EntryRequest(a: Snap, slot: nat, e: DirEntry)
  {
    && DirOk(a.s) && slot <= |Dir(a.s)| && |e.name| + 1 <= NAMELEN
    && a.offset == slot * DIRENTSIZE && a.resid == DIRENTSIZE
    && a.base + DIRENTSIZE <= |a.buf|
    && a.buf[a.base..a.base + DIRENTSIZE] == EncodeEntry(e)
  }

  lemma EntryWritten(a: Snap, b: Snap, n: nat, slot: nat, e: DirEntry)
    requires EntryRequest(a, slot, e)
    requires WriteSpec(ROOT_LOCATION, a, b, Success, n)
    ensures slot < MAXSLOTS && DirWritten(a.s, b.s, slot, e)
  {
    hide Entries, EncodeEntry, Splice, View, Ptr, InodeOf, NamesUnique, EntriesLive, OthersKept;
    var v, v' := View(a.s, ROOT_LOCATION), View(b.s, ROOT_LOCATION);
    assert slot < MAXSLOTS;
    EntriesAfterWrite(v, v', slot, e);
    assert NoHoles(b.s);
  }

  lemma EntryAlignment(slot: nat, n: nat)
    ensures 0 < n < DIRENTSIZE ==> (slot * DIRENTSIZE + n) % BLOCKSIZE != 0
  {
  }

  /** An entry lies within one block, so a write that fails has stored nothing of it. */
  lemma EntryNotWritten(a: Snap, b: Snap, result: Errno, n: nat, slot: nat, e: DirEntry)
    requires EntryRequest(a, slot, e) && Live(a.s, ROOT_LOCATION)
    requires WriteSpec(ROOT_LOCATION, a, b, result, n) && result != Success
    ensures slot == |Dir(a.s)|
    ensures result == EINVAL <==> slot == MAXSLOTS
    ensures SameFiles(a.s, b.s) && CacheBut(a.s.vnodes, b.s.vnodes, ROOT_LOCATION)
  {
    hide Entries, EncodeEntry, Splice, View, Ptr, InodeOf, NamesUnique, EntriesLive;
    EntryAlignment(slot, n);
    assert View(b.s, ROOT_LOCATION) == View(a.s, ROOT_LOCATION);
    assert Kept(a.s, b.s, ROOT_LOCATION);
  }
}
