/** Whole runs of path operations, directory changes, forks and exits, with any answers from the file systems. */
module VfsRun {
  import opened Basics
  import opened Errno
  import opened Vfs

  datatype Call =
    | CallOpen(path: string, canwrite: bool, badMode: bool, creat: bool, trunc: bool, w: World)
    | CallClose(v: nat)
    | CallOnParent(path: string, w: World)
    | CallRename(path: string, w: World, path': string, w': World)
    | CallLink(path: string, w: World, path': string, w': World)
    | CallReadLink(path: string, w: World)
    | CallChdir(path: string, w: World)
    | CallClearDir
    | CallSetBootfs(name: string, w: World)
    | CallClearBootfs
    | CallFork(made: bool)
    | CallExit

  /** Who holds vnodes between calls: directories, the boot file system, open files. */
  datatype Held = Held(cwd: seq<Option<nat>>, bootfs: Option<nat>, opens: multiset<nat>)

  /** What the caller is told. */
  datatype Reply = NotMade | Reply(err: Errno, v: nat)

  ghost predicate OnParentSpec(path: string, cwd: Option<nat>, bootfs: Option<nat>, w: World, err: Errno)
  {
    exists e, d :: LookParentSpec(path, cwd, bootfs, w, e, d) && err == if e != Success then e else w.opErr(d)
  }

  ghost predicate ReadLinkSpec(path: string, cwd: Option<nat>, bootfs: Option<nat>, w: World, err: Errno)
  {
    exists e, v :: LookupSpec(path, cwd, bootfs, w, e, v) && err == if e != Success then e else w.opErr(v)
  }

  /** What a call that is made by thread `t` replies and who holds what afterwards. */
  ghost predicate CallStep(a: Held, t: nat, c: Call, r: Reply, b: Held)
    requires t < |a.cwd|
  {
    var cwd := a.cwd[t];
    r.Reply? &&
    match c
    case CallOpen(path, canwrite, badMode, creat, trunc, w) =>
      && OpenSpec(path, canwrite, badMode, creat, trunc, cwd, a.bootfs, w, r.err, r.v)
      && b == if r.err == Success then a.(opens := a.opens + multiset{r.v}) else a
    case CallClose(v) => r.err == Success && b == a.(opens := a.opens - multiset{v})
    case CallOnParent(path, w) => OnParentSpec(path, cwd, a.bootfs, w, r.err) && b == a
    case CallRename(path, w, path', w') => RenameSpec(path, path', cwd, a.bootfs, w, w', r.err) && b == a
    case CallLink(path, w, path', w') => LinkSpec(path, path', cwd, a.bootfs, w, w', r.err) && b == a
    case CallReadLink(path, w) => ReadLinkSpec(path, cwd, a.bootfs, w, r.err) && b == a
    case CallChdir(path, w) =>
      exists dir: nat ::
        && ChdirSpec(path, cwd, a.bootfs, w, r.err, dir)
        && b == if r.err == Success then a.(cwd := a.cwd[t := Some(dir)]) else a
    case CallSetBootfs(name, w) =>
      exists dir: nat ::
        && BootfsSpec(name, cwd, a.bootfs, w, r.err, dir)
        && b == if r.err == Success then a.(cwd := a.cwd[t := Some(dir)], bootfs := Some(dir)) else a
    case CallClearDir => r.err == Success && b == a.(cwd := a.cwd[t := None])
    case CallClearBootfs => r.err == Success && b == a.(bootfs := None)
    case CallFork(made) => r.err == Success && b == if made then a.(cwd := a.cwd + [cwd]) else a
    case CallExit => r.err == Success && b == a.(cwd := a.cwd[t := None])
  }

  /** Calls are made by threads there are, and closing is for files that are open. */
  predicate Made(a: Held, t: nat, c: Call)
  {
    t < |a.cwd| && (c.CallClose? ==> c.v in a.opens)
  }

  ghost predicate Called(a: Held, t: nat, c: Call, r: Reply, b: Held)
  {
    if Made(a, t, c) then CallStep(a, t, c, r, b) else r == NotMade && b == a
  }

  ghost function HeldOf(r: Refs): (h: Held)
  {
    Held(r.cwd, r.bootfs, r.opens)
  }

  /** The calls that translate a path and leave the holders as they were. */
  method ExecPath(tab: Table, t: nat, c: Call) returns (r: Reply)
    requires tab.Valid() && tab.hand == multiset{} && t < |tab.cwd|
    requires c.CallOnParent? || c.CallRename? || c.CallLink? || c.CallReadLink?
    modifies tab
    ensures tab.Valid() && tab.hand == multiset{} && tab.opens == old(tab.opens)
    ensures CallStep(old(HeldOf(tab.View())), t, c, r, HeldOf(tab.View()))
  {
    hide Inv, RenameSpec, LinkSpec, LookParentSpec, LookupSpec;
    var err := Success;
    match c {
      case CallOnParent(path, w) => err := tab.OnParent(t, path, w);
      case CallRename(path, w, path', w') => err := tab.Rename(t, path, w, path', w');
      case CallLink(path, w, path', w') => err := tab.Link(t, path, w, path', w');
      case CallReadLink(path, w) => err := tab.ReadLink(t, path, w);
    }
    r := Reply(err, 0);
  }

  /** The calls that move directories. */
  method ExecDir(tab: Table, t: nat, c: Call) returns (r: Reply)
    requires tab.Valid() && tab.hand == multiset{} && t < |tab.cwd|
    requires c.CallChdir? || c.CallClearDir? || c.CallSetBootfs? || c.CallClearBootfs? || c.CallFork? || c.CallExit?
    modifies tab
    ensures tab.Valid() && tab.hand == multiset{} && tab.opens == old(tab.opens)
    ensures CallStep(old(HeldOf(tab.View())), t, c, r, HeldOf(tab.View()))
  {
    hide Inv, ChdirSpec, BootfsSpec;
    var err := Success;
    ghost var dir;
    match c {
      case CallChdir(path, w) => err, dir := tab.Chdir(t, path, w);
      case CallClearDir => tab.ClearCurDir(t);
      case CallSetBootfs(name, w) => err, dir := tab.SetBootfs(t, name, w);
      case CallClearBootfs => tab.ChangeBootfs(None);
      case CallFork(made) => tab.Inherit(t, made);
      case CallExit => tab.ClearCurDir(t);
    }
    r := Reply(err, 0);
  }

  /** One call by thread `t`. */
  method Exec(tab: Table, files: seq<nat>, t: nat, c: Call) returns (r: Reply, now: seq<nat>)
    requires tab.Valid() && tab.hand == multiset{} && tab.opens == multiset(files)
    modifies tab
    ensures tab.Valid() && tab.hand == multiset{} && tab.opens == multiset(now)
    ensures Called(old(HeldOf(tab.View())), t, c, r, HeldOf(tab.View()))
  {
    now := files;
    r := NotMade;
    if t >= |tab.cwd| || (c.CallClose? && c.v !in files) {
      return;
    }
    if c.CallOpen? || c.CallClose? {
      r, now := ExecFile(tab, files, t, c);
    } else if c.CallOnParent? || c.CallRename? || c.CallLink? || c.CallReadLink? {
      hide CallStep, Inv;
      r := ExecPath(tab, t, c);
    } else {
      hide CallStep, Inv;
      r := ExecDir(tab, t, c);
    }
  }

  /** Opening and closing. */
  method ExecFile(tab: Table, files: seq<nat>, t: nat, c: Call) returns (r: Reply, now: seq<nat>)
    requires tab.Valid() && tab.hand == multiset{} && tab.opens == multiset(files)
    requires t < |tab.cwd| && (c.CallOpen? || (c.CallClose? && c.v in files))
    modifies tab
    ensures tab.Valid() && tab.hand == multiset{} && tab.opens == multiset(now)
    ensures CallStep(old(HeldOf(tab.View())), t, c, r, HeldOf(tab.View()))
  {
    hide Inv, OpenSpec;
    now := files;
    match c {
      case CallOpen(path, canwrite, badMode, creat, trunc, w) =>
        var err, v := tab.Open(t, path, canwrite, badMode, creat, trunc, w);
        r := Reply(err, v);
        if err == Success {
          now := files + [v];
          assert multiset(files + [v]) == multiset(files) + multiset{v};
        }
      case CallClose(v) =>
        now := Remove(files, v);
        tab.Close(v);
        r := Reply(Success, v);
    }
  }

  /** One occurrence is taken out. */
  method Remove(s: seq<nat>, v: nat) returns (r: seq<nat>)
    requires v in s
    ensures multiset(s) == multiset(r) + multiset{v}
  {
    var i := 0;
    while s[i] != v
      invariant 0 <= i < |s| && v in s[i..]
      decreases |s| - i
    {
      i := i + 1;
    }
    r := s[..i] + s[i + 1..];
    assert s == s[..i] + [v] + s[i + 1..];
  }

  /** A run of calls, from a system with one thread and nothing held. */
  ghost predicate HeldRun(trace: seq<Held>, calls: seq<(nat, Call)>, replies: seq<Reply>)
  {
    && |trace| == |calls| + 1 && |replies| == |calls| && trace[0] == Held([None], None, multiset{})
    && forall i: nat | i < |calls| :: Called(trace[i], calls[i].0, calls[i].1, replies[i], trace[i + 1])
  }

  /**
   Every sequence of calls replies, and moves directories, boot file system
   and open files, as `CallStep` says. After it the counts of every vnode are
   those of its holders, and nothing is left in hand.
   */
  method Run(calls: seq<(nat, Call)>) returns (tab: Table, replies: seq<Reply>, ghost trace: seq<Held>)
    ensures HeldRun(trace, calls, replies)
    ensures HeldOf(tab.View()) == trace[|calls|] && Inv(tab.View()) && tab.hand == multiset{}
  {
    hide Inv, Called;
    tab := new Table();
    var files: seq<nat> := [];
    replies := [];
    trace := [HeldOf(tab.View())];
    var i := 0;
    while i < |calls|
      invariant 0 <= i <= |calls| && fresh(tab) && tab.Valid() && tab.hand == multiset{} && tab.opens == multiset(files)
      invariant |trace| == i + 1 && |replies| == i && trace[0] == Held([None], None, multiset{}) && trace[i] == HeldOf(tab.View())
      invariant forall k: nat | k < i :: Called(trace[k], calls[k].0, calls[k].1, replies[k], trace[k + 1])
    {
      var r;
      r, files := Exec(tab, files, calls[i].0, calls[i].1);
      replies := replies + [r];
      trace := trace + [HeldOf(tab.View())];
      i := i + 1;
    }
  }

  /** So a vnode stays in memory exactly as long as it is some thread's directory, the boot directory or open. */
  lemma InMemoryIffHeld(r: Refs, v: nat)
    requires Inv(r) && r.hand == multiset{}
    ensures v in r.count <==> Some(v) in r.cwd || r.bootfs == Some(v) || v in r.opens
    ensures v in r.count ==> r.count[v] == multiset(r.cwd)[Some(v)] + (if r.bootfs == Some(v) then 1 else 0) + r.opens[v]
  {
    assert CountOk(r, v);
    assert Some(v) in r.cwd <==> Some(v) in multiset(r.cwd);
  }
}
