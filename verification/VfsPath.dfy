/**
 How getdevice of kern/fs/vfs/vfslookup.c cuts a path: where translation
 starts, and what is left to translate.
 */
module VfsPath {
  /** Where to start: the current directory, a named device, the boot file system, or the current one's root. */
  datatype Start = Relative | Device(name: string) | BootRoot | CurrentRoot

  predicate Plain(s: string)
  {
    forall i: nat | i < |s| :: s[i] != ':' && s[i] != '/'
  }

  /** Only slashes. */
  predicate Slashes(s: string)
  {
    forall i: nat | i < |s| :: s[i] == '/'
  }

  /** What getdevice decides, said without scanning. */
  ghost predicate Cut(path: string, start: Start, rest: string)
  {
    match start
    case Relative => rest == path && (Plain(path) || exists n: nat :: 0 < n < |path| && Plain(path[..n]) && path[n] == '/')
    case Device(name) => name != "" && Plain(name) && exists fill: string :: Slashes(fill) && path == name + ":" + fill + rest && NoSlash(rest)
    case BootRoot => exists fill: string :: Slashes(fill) && path == "/" + fill + rest && NoSlash(rest)
    case CurrentRoot => exists fill: string :: Slashes(fill) && path == ":" + fill + rest && NoSlash(rest)
  }

  predicate NoSlash(s: string)
  {
    s == "" || s[0] != '/'
  }

  /** The scan for the first colon or slash. */
  method FirstMark(path: string) returns (slash: int, colon: int)
    ensures -1 <= slash < |path| && -1 <= colon < |path| && (slash < 0 || colon < 0)
    ensures slash >= 0 ==> path[slash] == '/' && Plain(path[..slash])
    ensures colon >= 0 ==> path[colon] == ':' && Plain(path[..colon])
    ensures slash < 0 && colon < 0 ==> Plain(path)
  {
    slash, colon := -1, -1;
    var i := 0;
    while i < |path|
      invariant 0 <= i <= |path| && Plain(path[..i]) && slash == colon == -1
    {
      if path[i] == ':' {
        return -1, i;
      }
      if path[i] == '/' {
        return i, -1;
      }
      assert path[..i + 1] == path[..i] + [path[i]];
      i := i + 1;
    }
    assert path[..i] == path;
  }

  /** Skips the slashes after position `at`; what follows is the rest. */
  method SkipSlashes(path: string, at: nat) returns (rest: string, ghost fill: string)
    requires at < |path|
    ensures Slashes(fill) && path == path[..at + 1] + fill + rest && NoSlash(rest)
  {
    var i := at;
    fill := [];
    while i + 1 < |path| && path[i + 1] == '/'
      invariant at <= i < |path| && Slashes(fill) && path == path[..at + 1] + fill + path[i + 1..]
    {
      fill := fill + ['/'];
      i := i + 1;
    }
    rest := path[i + 1..];
  }

  /** The path-cutting half of getdevice. */
  method GetDevice(path: string) returns (start: Start, rest: string)
    ensures Cut(path, start, rest)
  {
    var slash, colon := FirstMark(path);
    if colon < 0 && slash != 0 {
      return Relative, path;
    }
    ghost var fill;
    if colon > 0 {
      rest, fill := SkipSlashes(path, colon);
      start := Device(path[..colon]);
      assert path[..colon + 1] == path[..colon] + ":";
      assert path == path[..colon] + ":" + fill + rest;
      return;
    }
    rest, fill := SkipSlashes(path, 0);
    if path[0] == '/' {
      start := BootRoot;
      assert path[..1] == "/";
      assert path == "/" + fill + rest;
    } else {
      start := CurrentRoot;
      assert path[..1] == ":";
      assert path == ":" + fill + rest;
    }
  }

  /** Only one cut is right. */
  lemma CutUnique(path: string, a: Start, x: string, b: Start, y: string)
    requires Cut(path, a, x) && Cut(path, b, y)
    ensures a == b && x == y
  {
    hide Cut;
    FirstOf(path, a, x);
    FirstOf(path, b, y);
    if a.Device? && b.Device? {
      SameMark(path, a.name, b.name);
    }
    var f := Fill(path, a, x);
    var g := Fill(path, b, y);
    if a != Relative {
      SameRest(path, Head(a), f, x, g, y);
    }
  }

  function Head(a: Start): (s: string)
  {
    match a
    case Relative => ""
    case Device(name) => name + ":"
    case BootRoot => "/"
    case CurrentRoot => ":"
  }

  lemma Fill(path: string, a: Start, x: string) returns (f: string)
    requires Cut(path, a, x)
    ensures a != Relative ==> Slashes(f) && path == Head(a) + f + x && NoSlash(x)
  {
    match a
    case Relative => f := [];
    case Device(n) => f :| Slashes(f) && path == n + ":" + f + x && NoSlash(x);
    case BootRoot => f :| Slashes(f) && path == "/" + f + x && NoSlash(x);
    case CurrentRoot => f :| Slashes(f) && path == ":" + f + x && NoSlash(x);
  }

  /** A device name ends at the first mark, so it is determined. */
  lemma SameMark(path: string, m: string, n: string)
    requires Plain(m) && Plain(n) && |m| < |path| && |n| < |path|
    requires path[..|m|] == m && path[..|n|] == n && path[|m|] == ':' && path[|n|] == ':'
    ensures m == n
  {
  }

  lemma SameRest(path: string, pre: string, f: string, x: string, g: string, y: string)
    requires Slashes(f) && Slashes(g) && NoSlash(x) && NoSlash(y)
    requires path == pre + f + x && path == pre + g + y
    ensures x == y
  {
    var t := path[|pre|..];
    assert t == f + x && t == g + y;
    assert forall i: nat | i < |f| :: t[i] == '/';
    assert forall i: nat | i < |g| :: t[i] == '/';
    assert x != "" ==> t[|f|] != '/';
    assert y != "" ==> t[|g|] != '/';
    assert x == t[|f|..] && y == t[|g|..];
  }

  /** What each kind of start says about the first mark of the path. */
  lemma FirstOf(path: string, a: Start, x: string)
    requires Cut(path, a, x)
    ensures a == Relative ==> x == path && (Plain(path) || exists n: nat :: 0 < n < |path| && Plain(path[..n]) && path[n] == '/')
    ensures a.Device? ==> |a.name| < |path| && path[..|a.name|] == a.name && path[|a.name|] == ':' && 0 < |a.name| && Plain(a.name)
    ensures a == BootRoot ==> path != "" && path[0] == '/'
    ensures a == CurrentRoot ==> path != "" && path[0] == ':'
  {
  }

  /** `rest` is `tail` without the slashes it begins with. */
  ghost predicate Stripped(tail: string, rest: string)
  {
    NoSlash(rest) && exists fill: string :: Slashes(fill) && tail == fill + rest
  }

  lemma StripHead(path: string, a: Start, x: string, tail: string)
    requires Cut(path, a, x) && a != Relative && path == Head(a) + tail
    ensures Stripped(tail, x)
  {
    hide Cut;
    var f := Fill(path, a, x);
    assert path[|Head(a)|..] == tail && path[|Head(a)|..] == f + x;
  }

  /** A path whose first character is a mark is neither relative nor a device's. */
  lemma MarkFirst(path: string)
    requires path != "" && (path[0] == '/' || path[0] == ':')
    ensures !Plain(path) && forall n: nat | 0 < n <= |path| :: !Plain(path[..n])
  {
    forall n: nat | 0 < n <= |path|
      ensures !Plain(path[..n])
    {
      assert path[..n][0] == path[0];
    }
  }

  /** With a colon as its first mark a path is not relative. */
  lemma NoColonFirst(path: string, k: nat)
    requires k < |path| && path[k] == ':' && Plain(path[..k])
    ensures !Plain(path) && forall n: nat | n < |path| && path[n] == '/' :: !Plain(path[..n])
  {
    assert forall m: nat | m < k :: path[m] == path[..k][m] != '/';
    forall n: nat | n < |path| && path[n] == '/'
      ensures !Plain(path[..n])
    {
      assert path[..n][k] == ':';
    }
  }
}
