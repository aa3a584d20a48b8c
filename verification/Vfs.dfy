/**
 Reference counting of vnodes through the path operations of kern/fs/vfs and
 the current directories of threads. What the file systems answer during a
 call is given with the call; a call takes and drops references one by one,
 and the counts are right after each.
 */
module Vfs {
  import opened Basics
  import opened Errno
  import opened VfsPath

  /**
   The two counts of every vnode in memory, and who holds references: threads'
   current directories, the boot file system, open files, and code that has a
   vnode in hand.
   */
  datatype Refs = Refs(
    count: map<nat, nat>, opencount: map<nat, nat>,
    cwd: seq<Option<nat>>, bootfs: Option<nat>, opens: multiset<nat>, hand: multiset<nat>)

  ghost function Holders(r: Refs, v: nat): (n: nat)
  {
    multiset(r.cwd)[Some(v)] + (if r.bootfs == Some(v) then 1 else 0) + r.opens[v] + r.hand[v]
  }

  ghost predicate CountOk(r: Refs, v: nat)
  {
    && (v in r.count <==> Holders(r, v) > 0)
    && (v in r.count ==> r.count[v] == Holders(r, v))
    && (v in r.opencount <==> v in r.count)
    && (v in r.opencount ==> r.opencount[v] == r.opens[v])
  }

  /** A vnode is in memory exactly while somebody holds it; its counts are those of its holders and opens. */
  ghost predicate Inv(r: Refs)
  {
    forall v: nat :: CountOk(r, v)
  }

  /** Counts are determined by holders: nothing else to say about them. */
  lemma CountsDetermined(r: Refs, q: Refs)
    requires Inv(r) && Inv(q) && q == r.(count := q.count, opencount := q.opencount)
    ensures q == r
  {
    forall v: nat
      ensures (v in q.count <==> v in r.count) && (v in q.opencount <==> v in r.opencount)
      ensures v in r.count ==> q.count[v] == r.count[v]
      ensures v in r.opencount ==> q.opencount[v] == r.opencount[v]
    {
      assert CountOk(r, v) && CountOk(q, v) && Holders(r, v) == Holders(q, v);
    }
    assert q.count == r.count;
    assert q.opencount == r.opencount;
  }

  /** Open counts never outlive references. */
  lemma OpensWithinRefs(r: Refs, v: nat)
    requires Inv(r) && v in r.opencount
    ensures v in r.count && r.opencount[v] <= r.count[v]
  {
    assert CountOk(r, v);
  }

  type Failure = e: Errno | e != Success witness EINVAL

  datatype Answer = No(err: Failure) | Got(v: nat)

  /**
   What the file systems answer during one call: the root of a device by name
   and of a vnode's file system, translation of a path from a vnode (to the
   vnode, or to its directory), creation in a directory, and operations on one
   or two vnodes.
   */
  datatype World = World(
    device: string -> Answer, fsroot: nat -> nat,
    found: (nat, string) -> Answer, parent: (nat, string) -> Answer, made: nat -> Answer,
    openErr: nat -> Errno, truncErr: nat -> Errno, opErr: nat -> Errno, pairErr: (nat, nat) -> Errno,
    typeErr: nat -> Errno, isDir: nat -> bool, sameFs: (nat, nat) -> bool)

  class Table {
    var count: map<nat, nat>
    var opencount: map<nat, nat>
    var cwd: seq<Option<nat>>
    var bootfs: Option<nat>
    ghost var opens: multiset<nat>
    ghost var hand: multiset<nat>

    ghost function View(): (r: Refs)
      reads this
    {
      Refs(count, opencount, cwd, bootfs, opens, hand)
    }

    ghost predicate Valid()
      reads this
    {
      Inv(View())
    }

    /** Only references in hand changed. */
    twostate predicate OnlyHand()
      reads this
    {
      cwd == old(cwd) && bootfs == old(bootfs) && opens == old(opens)
    }

    constructor ()
      ensures Valid() && cwd == [None] && bootfs == None && opens == multiset{} && hand == multiset{}
    {
      count, opencount := map[], map[];
      cwd, bootfs := [None], None;
      opens, hand := multiset{}, multiset{};
    }

    // ---- vnode.c ----

    /** vnode_init or vnode_incref, as a file system hands out a vnode. */
    method Take(v: nat)
      requires Valid()
      modifies this`count, this`opencount, this`hand
      ensures Valid() && OnlyHand() && hand == old(hand) + multiset{v}
    {
      hide Inv;
      TakeInv(View(), v);
      if v in count {
        count := count[v := count[v] + 1];
      } else {
        count := count[v := 1];
        opencount := opencount[v := 0];
      }
      hand := hand + multiset{v};
    }

    method IncRef(v: nat)
      requires Valid() && v in count
      modifies this`count, this`hand
      ensures Valid() && OnlyHand() && hand == old(hand) + multiset{v}
    {
      hide Inv;
      TakeInv(View(), v);
      count := count[v := count[v] + 1];
      hand := hand + multiset{v};
    }

    /** Drops a reference; the vnode is reclaimed exactly with the last one, and then nobody has it open. */
    method DecRef(v: nat)
      requires Valid() && hand[v] > 0
      modifies this`count, this`opencount, this`hand
      ensures Valid() && OnlyHand() && hand == old(hand) - multiset{v}
      ensures v !in count <==> old(Holders(View(), v)) == 1
    {
      hide Inv, Holders;
      HeldInHand(View(), v);
      DropInv(View(), v);
      if count[v] > 1 {
        count := count[v := count[v] - 1];
      } else {
        assert count[v] == 1 && opencount[v] == 0;
        count := count - {v};
        opencount := opencount - {v};
      }
      hand := hand - multiset{v};
    }

    /** The reference in hand becomes that of an open file. */
    method IncOpen(v: nat)
      requires Valid() && hand[v] > 0
      modifies this`opencount, this`opens, this`hand
      ensures Valid() && cwd == old(cwd) && bootfs == old(bootfs)
      ensures hand == old(hand) - multiset{v} && opens == old(opens) + multiset{v}
    {
      hide Inv;
      OpenInv(View(), v);
      opencount := opencount[v := opencount[v] + 1];
      hand, opens := hand - multiset{v}, opens + multiset{v};
    }

    method DecOpen(v: nat)
      requires Valid() && opens[v] > 0
      modifies this`opencount, this`opens, this`hand
      ensures Valid() && cwd == old(cwd) && bootfs == old(bootfs)
      ensures hand == old(hand) + multiset{v} && opens == old(opens) - multiset{v}
    {
      hide Inv;
      CloseInv(View(), v);
      opencount := opencount[v := opencount[v] - 1];
      hand, opens := hand + multiset{v}, opens - multiset{v};
    }

    // ---- vfscwd.c ----

    method GetCurDir(t: nat) returns (err: Errno, v: nat)
      requires Valid() && t < |cwd|
      modifies this`count, this`hand
      ensures Valid() && OnlyHand()
      ensures if cwd[t].None? then err == ENOENT && hand == old(hand)
              else err == Success && v == cwd[t].value && hand == old(hand) + multiset{v}
    {
      hide Inv;
      v := 0;
      if cwd[t].None? {
        return ENOENT, v;
      }
      v := cwd[t].value;
      HeldByCwd(View(), t);
      IncRef(v);
      err := Success;
    }

    /** The thread's current directory and the reference in hand trade places. */
    method Swap(t: nat, dir: Option<nat>) returns (was: Option<nat>)
      requires Valid() && t < |cwd| && (dir.Some? ==> hand[dir.value] > 0)
      modifies this`cwd, this`hand
      ensures Valid() && bootfs == old(bootfs) && opens == old(opens) && cwd == old(cwd)[t := dir] && was == old(cwd)[t]
      ensures hand == old(hand) - Bag(dir) + Bag(was)
    {
      hide Inv, Bag;
      SwapInv(View(), t, dir);
      was := cwd[t];
      cwd := cwd[t := dir];
      hand := hand - Bag(dir) + Bag(was);
    }

    method SetCurDir(t: nat, dir: nat, w: World) returns (err: Errno)
      requires Valid() && t < |cwd| && hand[dir] > 0
      modifies this`count, this`opencount, this`cwd, this`hand
      ensures Valid() && bootfs == old(bootfs) && opens == old(opens) && hand == old(hand)
      ensures err == ChdirErr(Success, dir, w)
      ensures cwd == if err == Success then old(cwd)[t := Some(dir)] else old(cwd)
    {
      hide Inv;
      if w.typeErr(dir) != Success {
        return w.typeErr(dir);
      }
      if !w.isDir(dir) {
        return ENOTDIR;
      }
      HeldInHand(View(), dir);
      IncRef(dir);
      var was := Swap(t, Some(dir));
      InAndOut(old(hand), dir);
      DropOld(was);
      err := Success;
    }

    /** The reference a directory change left in hand, if any, is dropped. */
    method DropOld(was: Option<nat>)
      requires Valid() && (was.Some? ==> hand[was.value] > 0)
      modifies this`count, this`opencount, this`hand
      ensures Valid() && OnlyHand() && hand == old(hand) - Bag(was)
    {
      hide Inv;
      if was.Some? {
        DecRef(was.value);
      }
    }

    /** vfs_clearcurdir, and what thread_exit does with the current directory. */
    method ClearCurDir(t: nat)
      requires Valid() && t < |cwd|
      modifies this`count, this`opencount, this`cwd, this`hand
      ensures Valid() && bootfs == old(bootfs) && opens == old(opens) && hand == old(hand) && cwd == old(cwd)[t := None]
    {
      hide Inv;
      var was := Swap(t, None);
      DropOld(was);
    }

    /** thread_fork's share: the child, if it is made, inherits the current directory. */
    method Inherit(t: nat, made: bool)
      requires Valid() && t < |cwd|
      modifies this`count, this`opencount, this`cwd, this`hand
      ensures Valid() && bootfs == old(bootfs) && opens == old(opens) && hand == old(hand)
      ensures cwd == if made then old(cwd) + [old(cwd)[t]] else old(cwd)
    {
      hide Inv, Bag;
      var dir := cwd[t];
      NoBag(hand);
      if dir.Some? {
        HeldByCwd(View(), t);
        IncRef(dir.value);
        InAndOut(old(hand), dir.value);
      }
      if made {
        InheritInv(View(), dir);
        cwd := cwd + [dir];
        hand := hand - Bag(dir);
      } else {
        DropOld(dir);
      }
    }

    // ---- vfslookup.c ----

    /** change_bootfs: the reference in hand becomes the boot file system's, and its old one is dropped. */
    method ChangeBootfs(newguy: Option<nat>)
      requires Valid() && (newguy.Some? ==> hand[newguy.value] > 0)
      modifies this`count, this`opencount, this`bootfs, this`hand
      ensures Valid() && cwd == old(cwd) && opens == old(opens) && bootfs == newguy && hand == old(hand) - Bag(newguy)
    {
      hide Inv;
      BootInv(View(), newguy);
      BagOut(hand - Bag(newguy), bootfs);
      var oldguy := bootfs;
      bootfs := newguy;
      hand := hand - Bag(newguy) + Bag(oldguy);
      DropOld(oldguy);
    }

    /** getdevice: a reference to the vnode where translation starts, and the rest of the path. */
    method StartOf(t: nat, path: string, w: World) returns (err: Errno, v: nat, rest: string)
      requires Valid() && t < |cwd|
      modifies this`count, this`opencount, this`hand
      ensures Valid() && OnlyHand()
      ensures if err == Success then hand == old(hand) + multiset{v} else hand == old(hand)
      ensures StartSpec(path, cwd[t], bootfs, w, err, v, rest)
    {
      hide Inv, Cut;
      var start;
      start, rest := GetDevice(path);
      v := 0;
      match start {
      case Relative =>
        err, v := GetCurDir(t);
      case Device(name) =>
        match w.device(name) {
          case No(e) => err := e;
          case Got(root) =>
            err, v := Success, root;
            Take(v);
        }
      case BootRoot =>
        if bootfs.None? {
          err := ENOENT;
        } else {
          v := bootfs.value;
          HeldByBoot(View());
          IncRef(v);
          err := Success;
        }
      case CurrentRoot =>
        var here;
        err, here := GetCurDir(t);
        if err == Success {
          v := w.fsroot(here);
          Take(v);
          Reorder(old(hand), here, v);
          DecRef(here);
        }
      }
      StartIs(path, start, cwd[t], bootfs, w, err, v, rest);
    }

    /** vfs_lookparent. */
    method LookParent(t: nat, path: string, w: World) returns (err: Errno, dir: nat)
      requires Valid() && t < |cwd|
      modifies this`count, this`opencount, this`hand
      ensures Valid() && OnlyHand()
      ensures if err == Success then hand == old(hand) + multiset{dir} else hand == old(hand)
      ensures LookParentSpec(path, cwd[t], bootfs, w, err, dir)
    {
      hide Inv, Cut;
      var start, rest;
      dir := 0;
      err, start, rest := StartOf(t, path, w);
      if err != Success {
        return;
      }
      if rest == "" {
        err := EINVAL;
      } else {
        match w.parent(start, rest) {
          case No(e) => err := e;
          case Got(d) =>
            dir := d;
            Take(dir);
            Reorder(old(hand), start, dir);
        }
      }
      InAndOut(old(hand), start);
      DecRef(start);
    }

    /** vfs_lookup: with nothing left to translate, the starting vnode itself. */
    method Lookup(t: nat, path: string, w: World) returns (err: Errno, v: nat)
      requires Valid() && t < |cwd|
      modifies this`count, this`opencount, this`hand
      ensures Valid() && OnlyHand()
      ensures if err == Success then hand == old(hand) + multiset{v} else hand == old(hand)
      ensures LookupSpec(path, cwd[t], bootfs, w, err, v)
    {
      hide Inv, Cut;
      var start, rest;
      v := 0;
      err, start, rest := StartOf(t, path, w);
      if err != Success {
        return;
      }
      if rest == "" {
        v := start;
        return;
      }
      match w.found(start, rest) {
        case No(e) => err := e;
        case Got(x) =>
          v := x;
          Take(v);
          Reorder(old(hand), start, v);
      }
      InAndOut(old(hand), start);
      DecRef(start);
    }

    // ---- vfspath.c ----

    /** The first half of vfs_open: a vnode in hand, by creation or by lookup. */
    method Find(t: nat, path: string, creat: bool, w: World) returns (err: Errno, v: nat)
      requires Valid() && t < |cwd|
      modifies this`count, this`opencount, this`hand
      ensures Valid() && OnlyHand()
      ensures if err == Success then hand == old(hand) + multiset{v} else hand == old(hand)
      ensures FindSpec(path, creat, cwd[t], bootfs, w, err, v)
    {
      hide Inv;
      if creat {
        var dir;
        v := 0;
        err, dir := LookParent(t, path, w);
        if err != Success {
          return;
        }
        match w.made(dir) {
          case No(e) => err := e;
          case Got(x) =>
            v := x;
            Take(v);
            Reorder(old(hand), dir, v);
        }
        InAndOut(old(hand), dir);
        DecRef(dir);
      } else {
        err, v := Lookup(t, path, w);
      }
    }

    /** vfs_open: success leaves one open and its reference; every failure leaves nothing. */
    method Open(t: nat, path: string, canwrite: bool, badMode: bool, creat: bool, trunc: bool, w: World) returns (err: Errno, v: nat)
      requires Valid() && t < |cwd|
      modifies this`count, this`opencount, this`opens, this`hand
      ensures Valid() && cwd == old(cwd) && bootfs == old(bootfs) && hand == old(hand)
      ensures opens == if err == Success then old(opens) + multiset{v} else old(opens)
      ensures OpenSpec(path, canwrite, badMode, creat, trunc, cwd[t], bootfs, w, err, v)
    {
      hide Inv;
      v := 0;
      if badMode {
        return EINVAL, v;
      }
      err, v := Find(t, path, creat, w);
      if err != Success {
        return;
      }
      InAndOut(old(hand), v);
      if w.openErr(v) != Success {
        DecRef(v);
        return w.openErr(v), v;
      }
      IncOpen(v);
      if trunc {
        err := if !canwrite then EINVAL else w.truncErr(v);
        if err != Success {
          OpenAndShut(old(opens), v);
          DecOpen(v);
          DecRef(v);
        }
      }
    }

    method Close(v: nat)
      requires Valid() && opens[v] > 0
      modifies this`count, this`opencount, this`opens, this`hand
      ensures Valid() && cwd == old(cwd) && bootfs == old(bootfs) && hand == old(hand) && opens == old(opens) - multiset{v}
    {
      hide Inv;
      DecOpen(v);
      InAndOut(old(hand), v);
      DecRef(v);
    }

    /** vfs_remove, vfs_symlink, vfs_mkdir and vfs_rmdir: an operation on the parent directory. */
    method OnParent(t: nat, path: string, w: World) returns (err: Errno)
      requires Valid() && t < |cwd|
      modifies this`count, this`opencount, this`hand
      ensures Valid() && OnlyHand() && hand == old(hand)
      ensures exists e, d :: LookParentSpec(path, cwd[t], bootfs, w, e, d) && err == if e != Success then e else w.opErr(d)
    {
      hide Inv;
      var dir;
      err, dir := LookParent(t, path, w);
      if err != Success {
        return;
      }
      err := w.opErr(dir);
      InAndOut(old(hand), dir);
      DecRef(dir);
    }

    method Rename(t: nat, oldpath: string, w: World, newpath: string, w': World) returns (err: Errno)
      requires Valid() && t < |cwd|
      modifies this`count, this`opencount, this`hand
      ensures Valid() && OnlyHand() && hand == old(hand)
      ensures RenameSpec(oldpath, newpath, cwd[t], bootfs, w, w', err)
    {
      hide Inv, LookParentSpec;
      var olddir, newdir;
      err, olddir := LookParent(t, oldpath, w);
      if err != Success {
        return;
      }
      InAndOut(old(hand), olddir);
      err, newdir := LookParent(t, newpath, w');
      if err != Success {
        DecRef(olddir);
        return;
      }
      BothOut(old(hand), olddir, newdir);
      if !w.sameFs(olddir, newdir) {
        DecRef(newdir);
        DecRef(olddir);
        return EXDEV;
      }
      err := w.pairErr(olddir, newdir);
      DecRef(newdir);
      DecRef(olddir);
    }

    method Link(t: nat, oldpath: string, w: World, newpath: string, w': World) returns (err: Errno)
      requires Valid() && t < |cwd|
      modifies this`count, this`opencount, this`hand
      ensures Valid() && OnlyHand() && hand == old(hand)
      ensures LinkSpec(oldpath, newpath, cwd[t], bootfs, w, w', err)
    {
      hide Inv, LookParentSpec, LookupSpec;
      var oldfile, newdir;
      err, oldfile := Lookup(t, oldpath, w);
      if err != Success {
        return;
      }
      InAndOut(old(hand), oldfile);
      err, newdir := LookParent(t, newpath, w');
      if err != Success {
        DecRef(oldfile);
        return;
      }
      BothOut(old(hand), oldfile, newdir);
      if !w.sameFs(oldfile, newdir) {
        DecRef(newdir);
        DecRef(oldfile);
        return EXDEV;
      }
      err := w.pairErr(oldfile, newdir);
      DecRef(newdir);
      DecRef(oldfile);
    }

    /** vfs_readlink: an operation on the vnode itself. */
    method ReadLink(t: nat, path: string, w: World) returns (err: Errno)
      requires Valid() && t < |cwd|
      modifies this`count, this`opencount, this`hand
      ensures Valid() && OnlyHand() && hand == old(hand)
      ensures exists e, v :: LookupSpec(path, cwd[t], bootfs, w, e, v) && err == if e != Success then e else w.opErr(v)
    {
      hide Inv;
      var v;
      err, v := Lookup(t, path, w);
      if err != Success {
        return;
      }
      err := w.opErr(v);
      InAndOut(old(hand), v);
      DecRef(v);
    }

    method Chdir(t: nat, path: string, w: World) returns (err: Errno, ghost dir: nat)
      requires Valid() && t < |cwd|
      modifies this`count, this`opencount, this`cwd, this`hand
      ensures Valid() && bootfs == old(bootfs) && opens == old(opens) && hand == old(hand)
      ensures ChdirSpec(path, old(cwd)[t], bootfs, w, err, dir)
      ensures cwd == if err == Success then old(cwd)[t := Some(dir)] else old(cwd)
    {
      hide Inv, LookupSpec;
      var v;
      err, v := Lookup(t, path, w);
      dir := v;
      if err != Success {
        return;
      }
      InAndOut(old(hand), v);
      err := SetCurDir(t, v, w);
      DecRef(v);
    }

    /** vfs_setbootfs: any colon left in the name is refused; the caller's current directory moves as well. */
    method SetBootfs(t: nat, fsname: string, w: World) returns (err: Errno, ghost dir: nat)
      requires Valid() && t < |cwd|
      modifies this`count, this`opencount, this`cwd, this`bootfs, this`hand
      ensures Valid() && opens == old(opens) && hand == old(hand)
      ensures BootfsSpec(fsname, old(cwd)[t], old(bootfs), w, err, dir)
      ensures cwd == if err == Success then old(cwd)[t := Some(dir)] else old(cwd)
      ensures bootfs == if err == Success then Some(dir) else old(bootfs)
    {
      hide Inv, ChdirSpec;
      dir := 0;
      var tmp := if |fsname| > NAME_MAX - 1 then fsname[..NAME_MAX - 1] else fsname;
      if ':' in tmp {
        return EINVAL, 0;
      }
      err, dir := Chdir(t, tmp + ":", w);
      if err != Success {
        return;
      }
      var newguy;
      err, newguy := GetCurDir(t);
      InAndOut(old(hand), newguy);
      ChangeBootfs(Some(newguy));
    }
  }

  // ---- what each call returns ----

  /** Where translation starts: the current directory, a device, the boot file system, or the root of the current one. */
  function StartAt(start: Start, cwd: Option<nat>, bootfs: Option<nat>, w: World): (a: Answer)
  {
    match start
    case Relative => if cwd.None? then No(ENOENT) else Got(cwd.value)
    case Device(name) => w.device(name)
    case BootRoot => if bootfs.None? then No(ENOENT) else Got(bootfs.value)
    case CurrentRoot => if cwd.None? then No(ENOENT) else Got(w.fsroot(cwd.value))
  }

  ghost predicate FromAnswer(a: Answer, err: Errno, v: nat)
  {
    match a
    case No(e) => err == e
    case Got(x) => err == Success && v == x
  }

  /** getdevice: error or starting vnode, as the one right cut of the path says. */
  ghost predicate StartSpec(path: string, cwd: Option<nat>, bootfs: Option<nat>, w: World, err: Errno, v: nat, rest: string)
  {
    exists start :: Cut(path, start, rest) && FromAnswer(StartAt(start, cwd, bootfs, w), err, v)
  }

  ghost predicate LookParentSpec(path: string, cwd: Option<nat>, bootfs: Option<nat>, w: World, err: Errno, v: nat)
  {
    exists e, x, rest ::
      && StartSpec(path, cwd, bootfs, w, e, x, rest)
      && if e != Success then err == e else if rest == "" then err == EINVAL else FromAnswer(w.parent(x, rest), err, v)
  }

  ghost predicate LookupSpec(path: string, cwd: Option<nat>, bootfs: Option<nat>, w: World, err: Errno, v: nat)
  {
    exists e, x, rest ::
      && StartSpec(path, cwd, bootfs, w, e, x, rest)
      && if e != Success then err == e else if rest == "" then err == Success && v == x else FromAnswer(w.found(x, rest), err, v)
  }

  ghost predicate FindSpec(path: string, creat: bool, cwd: Option<nat>, bootfs: Option<nat>, w: World, err: Errno, v: nat)
  {
    if creat then
      exists e, d ::
        LookParentSpec(path, cwd, bootfs, w, e, d) && if e != Success then err == e else FromAnswer(w.made(d), err, v)
    else LookupSpec(path, cwd, bootfs, w, err, v)
  }

  /** vfs_open once it has the vnode: truncating needs write access. */
  function AfterFound(canwrite: bool, trunc: bool, v: nat, w: World): (err: Errno)
    ensures err == Success <==> w.openErr(v) == Success && (trunc ==> canwrite && w.truncErr(v) == Success)
  {
    if w.openErr(v) != Success then w.openErr(v)
    else if !trunc then Success
    else if !canwrite then EINVAL
    else w.truncErr(v)
  }

  ghost predicate OpenSpec(path: string, canwrite: bool, badMode: bool, creat: bool, trunc: bool,
                           cwd: Option<nat>, bootfs: Option<nat>, w: World, err: Errno, v: nat)
  {
    if badMode then err == EINVAL
    else exists e ::
      FindSpec(path, creat, cwd, bootfs, w, e, v) && err == if e != Success then e else AfterFound(canwrite, trunc, v, w)
  }

  /** vfs_chdir and vfs_setcurdir, given the result of the lookup. */
  function ChdirErr(e: Errno, dir: nat, w: World): (err: Errno)
    ensures err == Success <==> e == Success && w.typeErr(dir) == Success && w.isDir(dir)
  {
    if e != Success then e else if w.typeErr(dir) != Success then w.typeErr(dir) else if !w.isDir(dir) then ENOTDIR else Success
  }

  ghost predicate ChdirSpec(path: string, cwd: Option<nat>, bootfs: Option<nat>, w: World, err: Errno, dir: nat)
  {
    exists e :: LookupSpec(path, cwd, bootfs, w, e, dir) && err == ChdirErr(e, dir, w)
  }

  const NAME_MAX := 255

  /** The path vfs_setbootfs makes of a name, unless it refuses the name for a colon. */
  function BootPath(fsname: string): (path: Option<string>)
  {
    var tmp := if |fsname| > NAME_MAX - 1 then fsname[..NAME_MAX - 1] else fsname;
    if ':' in tmp then None else Some(tmp + ":")
  }

  ghost predicate BootfsSpec(fsname: string, cwd: Option<nat>, bootfs: Option<nat>, w: World, err: Errno, dir: nat)
  {
    match BootPath(fsname)
    case None => err == EINVAL
    case Some(path) => ChdirSpec(path, cwd, bootfs, w, err, dir)
  }

  /**
   A colon at the end is meant to be as good as none. It is refused, except
   when the name is so long that the colon is cut off.
   */
  lemma TrailingColon(name: string)
    requires ':' !in name
    ensures BootPath(name + ":") == BootPath(name) <==> |name| >= NAME_MAX - 1
    ensures |name| < NAME_MAX - 1 ==> BootPath(name + ":") == None
  {
    var s := name + ":";
    if |name| >= NAME_MAX - 1 {
      assert s[..NAME_MAX - 1] == name[..NAME_MAX - 1];
    } else {
      assert s[|name|] == ':';
    }
  }

  lemma TrailingColonExample()
    ensures BootPath("lhd0:") == None && BootPath("lhd0") == Some("lhd0:")
  {
    assert "lhd0:"[4] == ':';
    assert "lhd0" + ":" == "lhd0:";
  }

  /** The second lookup of rename and link, then the operation, unless the file systems differ. */
  ghost predicate SecondSpec(first: Errno, a: nat, path: string, cwd: Option<nat>, bootfs: Option<nat>, w: World, w': World, err: Errno)
  {
    if first != Success then err == first
    else exists e, d ::
      LookParentSpec(path, cwd, bootfs, w', e, d) && err == if e != Success then e else if !w.sameFs(a, d) then EXDEV else w.pairErr(a, d)
  }

  ghost predicate RenameSpec(oldpath: string, newpath: string, cwd: Option<nat>, bootfs: Option<nat>, w: World, w': World, err: Errno)
  {
    exists e, d :: LookParentSpec(oldpath, cwd, bootfs, w, e, d) && SecondSpec(e, d, newpath, cwd, bootfs, w, w', err)
  }

  ghost predicate LinkSpec(oldpath: string, newpath: string, cwd: Option<nat>, bootfs: Option<nat>, w: World, w': World, err: Errno)
  {
    exists e, v :: LookupSpec(oldpath, cwd, bootfs, w, e, v) && SecondSpec(e, v, newpath, cwd, bootfs, w, w', err)
  }

  lemma StartIs(path: string, start: Start, cwd: Option<nat>, bootfs: Option<nat>, w: World, err: Errno, v: nat, rest: string)
    requires Cut(path, start, rest) && FromAnswer(StartAt(start, cwd, bootfs, w), err, v)
    ensures StartSpec(path, cwd, bootfs, w, err, v, rest)
  {
    hide Cut, StartAt, FromAnswer;
  }

  /** "/tail" starts at the boot file system, if there is one. */
  lemma AbsolutePath(tail: string, cwd: Option<nat>, bootfs: Option<nat>, w: World, err: Errno, v: nat, rest: string)
    requires StartSpec("/" + tail, cwd, bootfs, w, err, v, rest)
    ensures if bootfs.None? then err == ENOENT else err == Success && v == bootfs.value
    ensures Stripped(tail, rest)
  {
    hide Cut;
    var path := "/" + tail;
    var start :| Cut(path, start, rest) && FromAnswer(StartAt(start, cwd, bootfs, w), err, v);
    FirstOf(path, start, rest);
    MarkFirst(path);
    StripHead(path, start, rest, tail);
  }

  /** ":tail" starts at the root of the current directory's file system. */
  lemma RootPath(tail: string, cwd: Option<nat>, bootfs: Option<nat>, w: World, err: Errno, v: nat, rest: string)
    requires StartSpec(":" + tail, cwd, bootfs, w, err, v, rest)
    ensures if cwd.None? then err == ENOENT else err == Success && v == w.fsroot(cwd.value)
    ensures Stripped(tail, rest)
  {
    hide Cut;
    var path := ":" + tail;
    var start :| Cut(path, start, rest) && FromAnswer(StartAt(start, cwd, bootfs, w), err, v);
    FirstOf(path, start, rest);
    MarkFirst(path);
    StripHead(path, start, rest, tail);
  }

  /** "name:tail" starts at the device of that name. */
  lemma DevicePath(name: string, tail: string, cwd: Option<nat>, bootfs: Option<nat>, w: World, err: Errno, v: nat, rest: string)
    requires name != "" && Plain(name) && StartSpec(name + ":" + tail, cwd, bootfs, w, err, v, rest)
    ensures FromAnswer(w.device(name), err, v)
    ensures Stripped(tail, rest)
  {
    hide Cut;
    var path := name + ":" + tail;
    var start :| Cut(path, start, rest) && FromAnswer(StartAt(start, cwd, bootfs, w), err, v);
    FirstOf(path, start, rest);
    assert path[..|name|] == name && path[|name|] == ':' && path[0] == name[0];
    if start.Device? {
      SameMark(path, start.name, name);
    } else if start.Relative? {
      NoColonFirst(path, |name|);
    }
    StripHead(path, start, rest, tail);
  }

  /** Any other path starts at the current directory and is translated whole. */
  lemma RelativePath(path: string, cwd: Option<nat>, bootfs: Option<nat>, w: World, err: Errno, v: nat, rest: string)
    requires StartSpec(path, cwd, bootfs, w, err, v, rest)
    requires path == "" || (path[0] != '/' && path[0] != ':')
    requires forall n: nat | n < |path| && Plain(path[..n]) :: path[n] != ':'
    ensures rest == path && if cwd.None? then err == ENOENT else err == Success && v == cwd.value
  {
    hide Cut;
    var start :| Cut(path, start, rest) && FromAnswer(StartAt(start, cwd, bootfs, w), err, v);
    FirstOf(path, start, rest);
  }

  lemma BootInv(r: Refs, d: Option<nat>)
    requires Inv(r) && (d.Some? ==> r.hand[d.value] > 0)
    ensures Inv(r.(bootfs := d, hand := r.hand - Bag(d) + Bag(r.bootfs)))
  {
    hide Bag;
    var q := r.(bootfs := d, hand := r.hand - Bag(d) + Bag(r.bootfs));
    forall x: nat
      ensures Holders(q, x) == Holders(r, x)
    {
      BagAt(r.hand, d, r.bootfs, x);
    }
    SameHolders(r, q);
  }

  lemma BagOut(h: multiset<nat>, v: Option<nat>)
    ensures v.Some? ==> (h + Bag(v))[v.value] > 0
    ensures h + Bag(v) - Bag(v) == h
  {
  }

  lemma HeldByBoot(r: Refs)
    requires Inv(r) && r.bootfs.Some?
    ensures r.bootfs.value in r.count
  {
    assert CountOk(r, r.bootfs.value);
  }

  /** Two references in hand: the first can be dropped and the second kept. */
  lemma Reorder(h: multiset<nat>, a: nat, b: nat)
    ensures (h + multiset{a} + multiset{b})[a] > 0
    ensures h + multiset{a} + multiset{b} - multiset{a} == h + multiset{b}
  {
  }

  lemma BothOut(h: multiset<nat>, a: nat, b: nat)
    ensures (h + multiset{a} + multiset{b})[b] > 0 && (h + multiset{a})[a] > 0
    ensures h + multiset{a} + multiset{b} - multiset{b} == h + multiset{a}
    ensures h + multiset{a} - multiset{a} == h
  {
  }

  lemma OpenAndShut(o: multiset<nat>, v: nat)
    ensures (o + multiset{v})[v] > 0 && o + multiset{v} - multiset{v} == o
  {
  }

  ghost function Bag(v: Option<nat>): (m: multiset<nat>)
  {
    if v.Some? then multiset{v.value} else multiset{}
  }

  // ---- why each elementary change keeps the counts right ----

  function Counted(m: map<nat, nat>, v: nat): (n: nat)
  {
    if v in m then m[v] else 0
  }

  lemma TakeInv(r: Refs, v: nat)
    requires Inv(r)
    ensures var q := r.(count := r.count[v := Counted(r.count, v) + 1],
                        opencount := if v in r.count then r.opencount else r.opencount[v := 0],
                        hand := r.hand + multiset{v});
            Inv(q)
  {
    var q := r.(count := r.count[v := Counted(r.count, v) + 1],
                opencount := if v in r.count then r.opencount else r.opencount[v := 0],
                hand := r.hand + multiset{v});
    forall x: nat
      ensures CountOk(q, x)
    {
      assert CountOk(r, x);
    }
  }

  lemma DropInv(r: Refs, v: nat)
    requires Inv(r) && r.hand[v] > 0 && v in r.count
    ensures v in r.opencount && r.count[v] == Holders(r, v) >= 1
    ensures r.count[v] > 1 ==> Inv(r.(count := r.count[v := r.count[v] - 1], hand := r.hand - multiset{v}))
    ensures r.count[v] == 1 ==> r.opencount[v] == 0
    ensures r.count[v] == 1 ==> Inv(r.(count := r.count - {v}, opencount := r.opencount - {v}, hand := r.hand - multiset{v}))
  {
    assert CountOk(r, v);
    if r.count[v] > 1 {
      DropSome(r, v);
    } else {
      DropLast(r, v);
    }
  }

  lemma DropSome(r: Refs, v: nat)
    requires Inv(r) && r.hand[v] > 0 && v in r.count && r.count[v] > 1
    ensures Inv(r.(count := r.count[v := r.count[v] - 1], hand := r.hand - multiset{v}))
  {
    var q := r.(count := r.count[v := r.count[v] - 1], hand := r.hand - multiset{v});
    forall x: nat
      ensures CountOk(q, x)
    {
      assert CountOk(r, x);
    }
  }

  lemma DropLast(r: Refs, v: nat)
    requires Inv(r) && r.hand[v] > 0 && v in r.count && r.count[v] == 1
    ensures Inv(r.(count := r.count - {v}, opencount := r.opencount - {v}, hand := r.hand - multiset{v}))
  {
    var q := r.(count := r.count - {v}, opencount := r.opencount - {v}, hand := r.hand - multiset{v});
    forall x: nat
      ensures CountOk(q, x)
    {
      assert CountOk(r, x);
    }
  }

  lemma OpenInv(r: Refs, v: nat)
    requires Inv(r) && r.hand[v] > 0
    ensures v in r.opencount
    ensures Inv(r.(opencount := r.opencount[v := r.opencount[v] + 1], hand := r.hand - multiset{v}, opens := r.opens + multiset{v}))
  {
    assert CountOk(r, v);
    var q := r.(opencount := r.opencount[v := r.opencount[v] + 1], hand := r.hand - multiset{v}, opens := r.opens + multiset{v});
    forall x: nat
      ensures CountOk(q, x)
    {
      assert CountOk(r, x);
    }
  }

  lemma CloseInv(r: Refs, v: nat)
    requires Inv(r) && r.opens[v] > 0
    ensures v in r.opencount && r.opencount[v] > 0
    ensures Inv(r.(opencount := r.opencount[v := r.opencount[v] - 1], hand := r.hand + multiset{v}, opens := r.opens - multiset{v}))
  {
    assert CountOk(r, v);
    var q := r.(opencount := r.opencount[v := r.opencount[v] - 1], hand := r.hand + multiset{v}, opens := r.opens - multiset{v});
    forall x: nat
      ensures CountOk(q, x)
    {
      assert CountOk(r, x);
    }
  }

  /** Holders change places; nothing else does. */
  lemma SameHolders(r: Refs, q: Refs)
    requires Inv(r) && q.count == r.count && q.opencount == r.opencount && q.opens == r.opens
    requires forall x: nat :: Holders(q, x) == Holders(r, x)
    ensures Inv(q)
  {
    hide Holders;
    forall x: nat
      ensures CountOk(q, x)
    {
      assert CountOk(r, x);
    }
  }

  lemma SwapInv(r: Refs, t: nat, d: Option<nat>)
    requires Inv(r) && t < |r.cwd| && (d.Some? ==> r.hand[d.value] > 0)
    ensures Inv(r.(cwd := r.cwd[t := d], hand := r.hand - Bag(d) + Bag(r.cwd[t])))
  {
    hide Holders, Bag;
    var q := r.(cwd := r.cwd[t := d], hand := r.hand - Bag(d) + Bag(r.cwd[t]));
    forall x: nat
      ensures Holders(q, x) == Holders(r, x)
    {
      SwapHolders(r, t, d, x);
    }
    SameHolders(r, q);
  }

  lemma SwapHolders(r: Refs, t: nat, d: Option<nat>, x: nat)
    requires t < |r.cwd| && (d.Some? ==> r.hand[d.value] > 0)
    ensures Holders(r.(cwd := r.cwd[t := d], hand := r.hand - Bag(d) + Bag(r.cwd[t])), x) == Holders(r, x)
  {
    hide Bag;
    SwapCount(r.cwd, t, d, x);
    BagAt(r.hand, d, r.cwd[t], x);
  }

  lemma BagAt(h: multiset<nat>, d: Option<nat>, e: Option<nat>, x: nat)
    requires d.Some? ==> h[d.value] > 0
    ensures (h - Bag(d) + Bag(e))[x] == h[x] - (if d == Some(x) then 1 else 0) + (if e == Some(x) then 1 else 0)
  {
  }

  lemma InheritInv(r: Refs, d: Option<nat>)
    requires Inv(r) && (d.Some? ==> r.hand[d.value] > 0)
    ensures Inv(r.(cwd := r.cwd + [d], hand := r.hand - Bag(d)))
  {
    var q := r.(cwd := r.cwd + [d], hand := r.hand - Bag(d));
    assert multiset(r.cwd + [d]) == multiset(r.cwd) + multiset{d};
    forall x: nat
      ensures Holders(q, x) == Holders(r, x)
    {
    }
    SameHolders(r, q);
  }

  lemma NoBag(h: multiset<nat>)
    ensures h - Bag(None) == h
  {
  }

  lemma InAndOut(h: multiset<nat>, v: nat)
    ensures h + multiset{v} - Bag(Some(v)) == h && h + multiset{v} - multiset{v} == h && (h + multiset{v})[v] > 0
  {
  }

  lemma SwapCount(s: seq<Option<nat>>, t: nat, d: Option<nat>, x: nat)
    requires t < |s|
    ensures multiset(s[t := d])[Some(x)] == multiset(s)[Some(x)] - (if s[t] == Some(x) then 1 else 0) + (if d == Some(x) then 1 else 0)
    ensures s[t] == Some(x) ==> multiset(s)[Some(x)] > 0
  {
    assert s[t] in multiset(s);
  }

  lemma HeldByCwd(r: Refs, t: nat)
    requires Inv(r) && t < |r.cwd| && r.cwd[t].Some?
    ensures r.cwd[t].value in r.count
  {
    assert CountOk(r, r.cwd[t].value);
    assert r.cwd[t] in multiset(r.cwd);
  }

  lemma HeldInHand(r: Refs, v: nat)
    requires Inv(r) && r.hand[v] > 0
    ensures v in r.count
  {
    assert CountOk(r, v);
  }
}
