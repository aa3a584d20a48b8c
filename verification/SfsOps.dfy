/**
 What the directory operations do to the whole-file-system invariant: each
 step of sfs_creat, sfs_link, sfs_remove, sfs_rename and sfs_reclaim.
 */
module SfsOps {
  import opened Uios
  import opened SfsLayout
  import opened SfsState
  import opened SfsTransfer
  import opened SfsDirectory

  /** Only files other than the directory changed, and no inode still named went away. */
  lemma DirKept(s: State, s': State, ino: nat)
    requires DirOk(s) && Live(s, ROOT_LOCATION) && ino != ROOT_LOCATION
    requires OthersKept(s, s', ino)
    requires Live(s', ino) || forall i: nat | i < |Dir(s)| :: Dir(s)[i].ino != ino
    ensures DirOk(s') && Dir(s') == Dir(s)
  {
  }

  lemma DirSame(s: State, s': State)
    requires DirOk(s) && Live(s, ROOT_LOCATION) && SameFiles(s, s')
    ensures DirOk(s') && Dir(s') == Dir(s)
  {
  }

  /** Nothing changed but the cache. */
  lemma WholeSame(s: State, s': State)
    requires Whole(s) && Inv(s') && SameFiles(s, s')
    requires forall x | x in s'.vnodes :: s'.vnodes[x].refs > 0
    ensures Whole(s') && Dir(s') == Dir(s)
  {
    hide View, InvWriting, Entries, NamesUnique, NoHoles;
    assert Live(s, ROOT_LOCATION) by { RootLive(s); }
    DirSame(s, s');
    forall x | Live(s', x)
      ensures LinkOk(s', x)
    {
      assert Live(s, x) && Kept(s, s', x) && LinkOk(s, x);
    }
  }

  lemma RootLive(s: State)
    requires Inv(s)
    ensures Live(s, ROOT_LOCATION)
  {
  }

  /** File `ino` changed, but not its link count. */
  lemma WholeAfterFileOp(s: State, s': State, ino: nat)
    requires Whole(s) && Inv(s') && ino != ROOT_LOCATION
    requires OthersKept(s, s', ino) && Live(s, ino) && Live(s', ino)
    requires View(s', ino).links == View(s, ino).links
    requires SameCache(s.vnodes, s'.vnodes)
    ensures Whole(s') && Dir(s') == Dir(s)
  {
    hide View, InvWriting, Entries, NamesUnique, NoHoles;
    RootLive(s);
    DirKept(s, s', ino);
    forall x | Live(s', x)
      ensures LinkOk(s', x)
    {
      assert Live(s, x) && LinkOk(s, x);
      if x != ino {
        assert Kept(s, s', x);
      }
    }
  }

  // ---- writing one slot and adjusting one link count ----

  /** `s'` is `s` with the link count of cached inode `ino` set to `links`. */
  ghost function WithLinks(s: State, ino: nat, links: half): (s': State)
    requires ino in s.vnodes
  {
    PutInode(s, ino, s.vnodes[ino].inode.(links := links))
  }

  lemma WithLinksIs(s: State, ino: nat, links: half)
    requires Inv(s) && ino in s.vnodes
    ensures var s' := WithLinks(s, ino, links);
            && Inv(s') && Live(s', ino)
            && View(s', ino) == View(s, ino).(links := links)
            && MapKept(s, s', ino) && OthersKept(s, s', ino)
            && SameCache(s.vnodes, s'.vnodes)
  {
    hide Bytes, DecodeInode, MapKept, OthersKept;
    assert FileOk(s, ino, 0);
    SetMeta(s, ino, s.vnodes[ino].inode.(links := links), 0);
  }

  /** Changing a link count does not touch the directory. */
  lemma DirAfterLinks(s: State, ino: nat, links: half)
    requires Inv(s) && DirOk(s) && ino in s.vnodes
    ensures var s' := WithLinks(s, ino, links);
            DirOk(s') && Dir(s') == Dir(s) && (forall x :: Live(s, x) <==> Live(s', x))
  {
    hide View, Ptr, InodeOf, NamesUnique, Entries, InvWriting, WithLinks;
    RootLive(s);
    CachedLive(s, ino, 0);
    WithLinksIs(s, ino, links);
    var s' := WithLinks(s, ino, links);
    if ino != ROOT_LOCATION {
      DirKept(s, s', ino);
    } else {
      EntriesIgnoreLinks(View(s, ino), View(s', ino));
      forall i: nat | i < |Dir(s)| && Dir(s)[i].ino != NOINO
        ensures Live(s', Dir(s)[i].ino)
      {
        assert Live(s, Dir(s)[i].ino);
      }
    }
  }

  lemma CachedLive(s: State, ino: nat, w: nat)
    requires InvWriting(s, w) && ino in s.vnodes
    ensures Live(s, ino)
  {
  }

  lemma EntriesIgnoreLinks(v: FileView, v': FileView)
    requires DirFormat(v) && v'.bytes == v.bytes && v'.size == v.size
    ensures DirFormat(v') && Entries(v') == Entries(v)
  {
  }

  /** The same inodes are there, with the same link counts. */
  ghost predicate SameLinks(s: State, t: State)
  {
    && (forall x | Live(s, x) :: Live(t, x) && View(t, x).links == View(s, x).links)
    && (forall x :: Live(t, x) ==> Live(s, x))
  }

  /** What a directory write that binds or clears a slot leaves of the directory invariant. */
  lemma SlotWritten(s: State, s': State, i: nat, e: DirEntry)
    requires Inv(s) && DirOk(s) && DirWritten(s, s', i, e)
    requires NamesUnique(PutEntry(Dir(s), i, e))
    requires e.ino != NOINO ==> Live(s, e.ino)
    ensures DirOk(s')
    ensures SameLinks(s, s')
  {
    hide View, Entries, InvWriting, NoHoles, NamesUnique;
    RootLive(s);
    forall x | Live(s, x)
      ensures Live(s', x) && View(s', x).links == View(s, x).links
    {
      if x != ROOT_LOCATION {
        assert Kept(s, s', x);
      }
    }
    forall j: nat | j < |Dir(s')| && Dir(s')[j].ino != NOINO
      ensures Live(s', Dir(s')[j].ino)
    {
      if j != i {
        assert Dir(s')[j] == Dir(s)[j];
      }
    }
  }

  /** A slot was written and the one link count it affects adjusted: all is consistent again. */
  lemma SlotAndLinks(s: State, t: State, i: nat, e: DirEntry, ino: nat, links: half)
    requires Whole(s) && Inv(t) && DirOk(t) && DirWritten(s, t, i, e)
    requires ino in t.vnodes
    requires e.ino == ino || (e.ino == NOINO && i < |Dir(s)| && Dir(s)[i].ino == ino)
    requires e.ino != NOINO ==> i == |Dir(s)| || Dir(s)[i].ino == NOINO
    requires links == LinksTo(Dir(t), ino) + RootLinks(ino)
    requires SameLinks(s, t)
    ensures Whole(WithLinks(t, ino, links))
  {
    hide View, Entries, InvWriting, NoHoles, NamesUnique, WithLinks, LinksTo, PutEntry;
    var u := WithLinks(t, ino, links);
    WithLinksIs(t, ino, links);
    DirAfterLinks(t, ino, links);
    CachedLive(t, ino, 0);
    InoPositive(t, ino);
    forall x | Live(u, x)
      ensures LinkOk(u, x)
    {
      if x != ino {
        assert Live(s, x) && LinkOk(s, x) && Kept(t, u, x);
        LinksAfterPut(Dir(s), i, e, x);
        InoPositive(s, x);
      }
    }
  }

  lemma InoPositive(s: State, x: nat)
    requires Inv(s) && Live(s, x)
    ensures x != NOINO
  {
  }

  // ---- the file system as its users see it ----

  /** Names, files (all but the directory itself) and the references held to vnodes. */
  datatype AbsFs = AbsFs(names: map<Name, nat>, files: map<nat, FileView>, refs: map<nat, nat>)

  ghost function FilesOf(s: State): (m: map<nat, FileView>)
  {
    map x | x in s.owner && Live(s, x) && x != ROOT_LOCATION :: View(s, x)
  }

  ghost function RefsOf(s: State): (m: map<nat, nat>)
  {
    map x | x in s.vnodes :: s.vnodes[x].refs
  }

  ghost function AbsOf(s: State): (a: AbsFs)
    requires DirSound(s)
  {
    AbsFs(NameMap(Dir(s)), FilesOf(s), RefsOf(s))
  }

  /** A file that nobody names or holds: its blocks are marked, and nothing leads to them. */
  ghost predicate Lost(a: AbsFs, x: nat)
  {
    x in a.files && a.files[x].links == 0 && x !in a.refs
  }

  lemma FilesSame(s: State, s': State)
    requires SameFiles(s, s')
    ensures FilesOf(s') == FilesOf(s)
  {
  }

  /** One file changed, came or went. */
  lemma FilesButOne(s: State, s': State, ino: nat)
    requires OthersKept(s, s', ino) && ino != ROOT_LOCATION
    ensures FilesOf(s') == if Live(s', ino) then FilesOf(s)[ino := View(s', ino)] else FilesOf(s) - {ino}
  {
    hide View;
    forall x | Live(s, x) && x != ino
      ensures View(s', x) == View(s, x)
    {
      assert Kept(s, s', x);
    }
    assert FilesOf(s').Keys == (if Live(s', ino) then FilesOf(s)[ino := View(s', ino)] else FilesOf(s) - {ino}).Keys;
  }

  /** Only the directory changed. */
  lemma FilesButRoot(s: State, s': State)
    requires OthersKept(s, s', ROOT_LOCATION)
    ensures FilesOf(s') == FilesOf(s)
  {
  }

  lemma RefsSame(s: State, s': State)
    requires SameCache(s.vnodes, s'.vnodes)
    ensures RefsOf(s') == RefsOf(s)
  {
  }

  /** Files after the link count of `ino` was set. */
  ghost function Relinked(files: map<nat, FileView>, ino: nat, links: nat): (m: map<nat, FileView>)
  {
    if ino in files then files[ino := files[ino].(links := links)] else files
  }

  lemma AbsAfterLinks(s: State, ino: nat, links: half)
    requires Inv(s) && DirOk(s) && ino in s.vnodes
    ensures var s' := WithLinks(s, ino, links);
            DirSound(s') && AbsOf(s') == AbsOf(s).(files := Relinked(FilesOf(s), ino, links))
  {
    hide View, InvWriting, DirOk, WithLinks, NameMap, MapKept, OthersKept;
    var s' := WithLinks(s, ino, links);
    WithLinksIs(s, ino, links);
    DirOkSound(s);
    DirAfterLinks(s, ino, links);
    DirOkSound(s');
    RefsSame(s, s');
    CachedLive(s, ino, 0);
    if ino == ROOT_LOCATION {
      FilesButRoot(s, s');
    } else {
      FilesButOne(s, s', ino);
    }
  }

  lemma DirOkSound(s: State)
    requires DirOk(s)
    ensures DirSound(s)
  {
  }

  // ---- references and reclaim ----

  /** The vnodes of `s'` are those of `s` without `ino`, with the same reference counts. */
  ghost predicate CacheLost(s: State, s': State, ino: nat)
  {
    && s'.vnodes.Keys == s.vnodes.Keys - {ino}
    && forall x | x in s'.vnodes :: s'.vnodes[x].refs == s.vnodes[x].refs
  }

  lemma AbsSameFiles(s: State, s': State)
    requires Whole(s) && DirSound(s') && Dir(s') == Dir(s) && SameFiles(s, s')
    ensures AbsOf(s').names == AbsOf(s).names && AbsOf(s').files == AbsOf(s).files
  {
    FilesSame(s, s');
  }

  lemma RefsLost(s: State, s': State, ino: nat)
    requires CacheLost(s, s', ino)
    ensures RefsOf(s') == RefsOf(s) - {ino}
  {
  }

  /** A clean vnode was dropped. */
  lemma WholeDropped(s: State, s': State, ino: nat)
    requires Whole(s) && Inv(s') && SameFiles(s, s') && CacheLost(s, s', ino)
    ensures Whole(s') && AbsOf(s') == AbsOf(s).(refs := AbsOf(s).refs - {ino})
  {
    hide View, InvWriting, DirOk, LinksOk, NameMap, SameFiles, FilesOf, RefsOf;
    WholeSame(s, s');
    WholeSound(s);
    WholeSound(s');
    AbsSameFiles(s, s');
    RefsLost(s, s', ino);
  }

  lemma WholeSound(s: State)
    requires Whole(s)
    ensures DirSound(s)
  {
  }

  /** An inode nobody names or holds was given up. */
  lemma WholeGone(s: State, s': State, ino: nat)
    requires Whole(s) && Inv(s') && OthersKept(s, s', ino) && CacheLost(s, s', ino)
    requires ino != ROOT_LOCATION && Live(s, ino) && !Live(s', ino) && View(s, ino).links == 0
    ensures Whole(s')
    ensures AbsOf(s') == AbsFs(AbsOf(s).names, AbsOf(s).files - {ino}, AbsOf(s).refs - {ino})
  {
    hide View, InvWriting, NameMap, NamesUnique, NoHoles, Entries, FilesOf, RefsOf, LinksTo;
    RootLive(s);
    assert LinkOk(s, ino);
    NobodyNames(Dir(s), ino);
    DirKept(s, s', ino);
    forall x | Live(s', x)
      ensures LinkOk(s', x)
    {
      assert x != ino && Live(s, x) && LinkOk(s, x) && Kept(s, s', x);
    }
    FilesButOne(s, s', ino);
    RefsLost(s, s', ino);
  }

  lemma NobodyNames(es: seq<DirEntry>, ino: nat)
    requires LinksTo(es, ino) == 0
    ensures forall i: nat | i < |es| :: es[i].ino != ino
  {
    forall i: nat | i < |es|
      ensures es[i].ino != ino
    {
      assert i !in SlotsNaming(es, ino);
    }
  }

  /** A new inode, which nobody names yet. */
  lemma WholeCreated(s: State, b: nat)
    requires Whole(s) && b < |s.disk| && b !in s.used
    ensures var s' := Created(s, b);
            && Whole(s') && Dir(s') == Dir(s) && b !in s.vnodes
            && AbsOf(s') == AbsFs(AbsOf(s).names, AbsOf(s).files[b := FileView(0, TYPE_FILE, 0, Zeros())], AbsOf(s).refs[b := 1])
  {
    hide View, InvWriting, NameMap, NamesUnique, NoHoles, Entries, FilesOf, LinksTo, SameCache;
    var s' := Created(s, b);
    RootLive(s);
    NotCached(s, b);
    CreatedIsNew(s, b);
    DirKept(s, s', b);
    NotNamed(s, b);
    forall x | Live(s', x)
      ensures LinkOk(s', x)
    {
      if x != b {
        assert Live(s, x) && LinkOk(s, x) && Kept(s, s', x);
      }
    }
    FilesButOne(s, s', b);
    assert RefsOf(s') == RefsOf(s)[b := 1];
  }

  lemma NotCached(s: State, b: nat)
    requires Inv(s) && b !in s.used
    ensures b !in s.vnodes && !Live(s, b) && b != NOINO
  {
  }

  /** A block that is not an inode is named by no slot. */
  lemma NotNamed(s: State, b: nat)
    requires DirOk(s) && !Live(s, b) && b != NOINO
    ensures LinksTo(Dir(s), b) == 0
  {
  }

  // ---- binding and unbinding a name ----

  ghost function LinkCount(a: AbsFs, ino: nat): (n: nat)
  {
    if ino in a.files then a.files[ino].links else 0
  }

  /** `name` now names `ino`, whose link count went up. */
  ghost function Bound(a: AbsFs, name: Name, ino: nat): (r: AbsFs)
  {
    AbsFs(a.names[name := ino], Relinked(a.files, ino, LinkCount(a, ino) + 1), a.refs)
  }

  /** `name` names nothing any more, and the link count of what it named went down. */
  ghost function Unbound(a: AbsFs, name: Name): (r: AbsFs)
  {
    if name !in a.names || LinkCount(a, a.names[name]) == 0 then a.(names := a.names - {name})
    else AbsFs(a.names - {name}, Relinked(a.files, a.names[name], LinkCount(a, a.names[name]) - 1), a.refs)
  }

  lemma AbsAfterSlot(s: State, t: State, i: nat, e: DirEntry)
    requires DirWritten(s, t, i, e)
    ensures AbsOf(t) == AbsFs(NameMap(PutEntry(Dir(s), i, e)), FilesOf(s), RefsOf(s))
  {
    hide View, NameMap, Entries, FilesOf, RefsOf, OthersKept;
    FilesButRoot(s, t);
    RefsSame(s, t);
  }

  /** A new name for `ino` was written to slot `i`; raising the link count completes the link. */
  lemma LinkComplete(s: State, t: State, i: nat, name: Name, ino: nat)
    requires Whole(s) && Inv(t) && ino in s.vnodes && ino < 0x1_0000_0000
    requires i <= |Dir(s)| && (i < |Dir(s)| ==> Dir(s)[i].ino == NOINO)
    requires forall j: nat :: !Binds(Dir(s), j, name)
    requires DirWritten(s, t, i, DirEntry(ino, name))
    ensures ino in t.vnodes && t.vnodes[ino].inode.links + 1 < 0x1_0000
    ensures var u := WithLinks(t, ino, t.vnodes[ino].inode.links + 1);
            && Whole(u) && AbsOf(u) == Bound(AbsOf(s), name, ino)
            && Dir(u) == PutEntry(Dir(s), i, DirEntry(ino, name))
            && SameCache(s.vnodes, u.vnodes)
  {
    hide View, InvWriting, Entries, NamesUnique, NoHoles, LinksTo, NameMap, FilesOf, PutEntry, OthersKept, WithLinks;
    var e := DirEntry(ino, name);
    CachedLive(s, ino, 0);
    InoPositive(s, ino);
    LinkNames(Dir(s), i, e);
    SlotWritten(s, t, i, e);
    assert LinkOk(s, ino);
    LinksAfterPut(Dir(s), i, e, ino);
    LinksBound(Dir(t), ino);
    CachedLinks(t, ino);
    var links := t.vnodes[ino].inode.links + 1;
    SlotAndLinks(s, t, i, e, ino, links);
    AbsAfterSlot(s, t, i, e);
    AbsAfterLinks(t, ino, links);
    DirAfterLinks(t, ino, links);
    WithLinksIs(t, ino, links);
    FilesHold(s, ino);
  }

  lemma CachedLinks(s: State, ino: nat)
    requires ino in s.vnodes
    ensures View(s, ino).links == s.vnodes[ino].inode.links
  {
  }

  lemma FilesHold(s: State, ino: nat)
    requires Live(s, ino)
    ensures ino in FilesOf(s) <==> ino != ROOT_LOCATION
    ensures ino in FilesOf(s) ==> FilesOf(s)[ino] == View(s, ino)
  {
  }

  /** What clearing the slot leaves to be done: the link count is one too high. */
  lemma UnlinkCount(s: State, t: State, i: nat, ino: nat)
    requires Whole(s) && ino in s.vnodes && ino in t.vnodes
    requires i < |Dir(s)| && Dir(s)[i].ino == ino
    requires DirSound(t) && Dir(t) == PutEntry(Dir(s), i, DirEntry(NOINO, []))
    requires SameLinks(s, t)
    ensures Live(s, ino) && ino != NOINO && View(s, ino).links == t.vnodes[ino].inode.links > 0
    ensures t.vnodes[ino].inode.links - 1 == LinksTo(Dir(t), ino) + RootLinks(ino)
  {
    hide View, InvWriting, Entries, NoHoles, NamesUnique, EntriesLive, LinksTo, PutEntry;
    CachedLive(s, ino, 0);
    InoPositive(s, ino);
    assert LinkOk(s, ino);
    LinksAfterPut(Dir(s), i, DirEntry(NOINO, []), ino);
    CachedLinks(t, ino);
  }

  /** From `s` to `t` the slot that names `ino` was cleared, and nothing else happened yet. */
  ghost predicate Cleared(s: State, t: State, i: nat, ino: nat)
  {
    && Whole(s) && Inv(t) && ino in s.vnodes
    && i < |Dir(s)| && Dir(s)[i].ino == ino && DirWritten(s, t, i, DirEntry(NOINO, []))
  }

  /** The link count of `ino` lowered. */
  ghost function Lowered(t: State, ino: nat): (u: State)
    requires ino in t.vnodes
  {
    var links := t.vnodes[ino].inode.links;
    WithLinks(t, ino, if links > 0 then links - 1 else 0)
  }

  lemma UnlinkWhole(s: State, t: State, i: nat, ino: nat)
    requires Cleared(s, t, i, ino)
    ensures ino in t.vnodes && t.vnodes[ino].inode.links > 0 && DirOk(t)
    ensures Live(s, ino) && ino != NOINO && View(s, ino).links == t.vnodes[ino].inode.links
    ensures Whole(Lowered(t, ino)) && SameCache(s.vnodes, Lowered(t, ino).vnodes)
  {
    hide View, InvWriting, Entries, NoHoles, NamesUnique, EntriesLive, LinksOk, CacheOk, LinksTo, NameMap, FilesOf, RefsOf, PutEntry, OthersKept, WithLinks, SameLinks;
    var e := DirEntry(NOINO, []);
    CachedLive(s, ino, 0);
    InoPositive(s, ino);
    UnlinkNames(Dir(s), i, e);
    SlotWritten(s, t, i, e);
    UnlinkCount(s, t, i, ino);
    var links := t.vnodes[ino].inode.links - 1;
    SlotAndLinks(s, t, i, e, ino, links);
    WithLinksIs(t, ino, links);
  }

  /** The abstract file system of `u` is that of `s` without the name in slot `i`. */
  ghost predicate IsUnbound(s: State, u: State, i: nat)
  {
    DirSound(s) && DirSound(u) && i < |Dir(s)| && AbsOf(u) == Unbound(AbsOf(s), Dir(s)[i].name)
  }

  lemma UnlinkAbs(s: State, t: State, i: nat, ino: nat)
    requires Cleared(s, t, i, ino) && DirOk(t) && ino in t.vnodes && t.vnodes[ino].inode.links > 0
    requires Live(s, ino) && ino != NOINO && View(s, ino).links == t.vnodes[ino].inode.links
    requires DirSound(Lowered(t, ino))
    ensures IsUnbound(s, Lowered(t, ino), i)
  {
    hide View, InvWriting, Entries, NoHoles, NamesUnique, EntriesLive, LinksTo, NameMap, FilesOf, RefsOf, PutEntry, OthersKept, WithLinks, Relinked, Unbound, DirOk, LinksOk, CacheOk;
    var e := DirEntry(NOINO, []);
    NamesSound(s);
    UnlinkNames(Dir(s), i, e);
    NameMapAt(Dir(s), i, Dir(s)[i].name);
    AbsAfterSlot(s, t, i, e);
    AbsAfterLinks(t, ino, t.vnodes[ino].inode.links - 1);
    FilesHold(s, ino);
    UnboundIs(AbsOf(s), Dir(s)[i].name, ino, t.vnodes[ino].inode.links - 1);
  }

  lemma NamesSound(s: State)
    requires Whole(s)
    ensures DirSound(s) && NamesUnique(Dir(s))
  {
  }

  /** The slot naming `ino` was cleared; lowering the link count completes the unlink. */
  lemma UnlinkComplete(s: State, t: State, i: nat, ino: nat)
    requires Cleared(s, t, i, ino)
    ensures ino in t.vnodes && t.vnodes[ino].inode.links > 0
    ensures var u := Lowered(t, ino);
            Whole(u) && IsUnbound(s, u, i) && SameCache(s.vnodes, u.vnodes)
  {
    hide Cleared, View, Inv, LinksOk, CacheOk, Lowered, NamesUnique, EntriesLive, NoHoles, Entries, SameCache, IsUnbound, Live, DirFormat;
    UnlinkWhole(s, t, i, ino);
    UnlinkAbs(s, t, i, ino);
  }

  lemma UnboundIs(a: AbsFs, name: Name, ino: nat, links: nat)
    requires name in a.names && a.names[name] == ino && (ino in a.files ==> a.files[ino].links == links + 1)
    ensures Unbound(a, name) == AbsFs(a.names - {name}, Relinked(a.files, ino, links), a.refs)
  {
  }
}
