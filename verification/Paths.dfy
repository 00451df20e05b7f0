/**
  Path names: skipelem and namex of kernel/fs.c, and sys_getcwd of kernel/sysfile.c.
 */
module Paths {
  import opened Dirs

  const MAXPATH := 128

  /** A result, a failure that the caller sees, or a panic of the kernel. */
  datatype Outcome<T> = Found(value: T) | Missing | Panic

  type CString = s: string | '\0' !in s

  function Trunc(s: string): string {
    if |s| <= DIRSIZ then s else s[..DIRSIZ]
  }

  // ----- Path names

  // The number of leading characters that are (or are not) slashes.
  function Lead(path: string, slash: bool): (n: nat)
    ensures n <= |path| && (n < |path| ==> (path[n] == '/') != slash)
    ensures forall i :: 0 <= i < n ==> (path[i] == '/') == slash
  {
    if path == "" || (path[0] == '/') != slash then 0 else 1 + Lead(path[1..], slash)
  }

  // The elements of a path: its maximal runs of characters other than '/'.
  function Elements(path: string): seq<string>
    decreases |path|
  {
    if path == "" then []
    else if path[0] == '/' then Elements(path[1..])
    else [path[..Lead(path, false)]] + Elements(path[Lead(path, false)..])
  }

  lemma {:induction false} SkipSlashes(path: string, n: nat)
    requires n <= |path| && forall i :: 0 <= i < n ==> path[i] == '/'
    ensures Elements(path) == Elements(path[n..])
  {
    if n > 0 {
      SkipSlashes(path[1..], n - 1);
      assert path[1..][n - 1..] == path[n..];
    } else {
      assert path[0..] == path;
    }
  }

  lemma {:induction false} LeadIs(path: string, slash: bool, n: nat)
    requires n <= |path| && (n < |path| ==> (path[n] == '/') != slash)
    requires forall i :: 0 <= i < n ==> (path[i] == '/') == slash
    ensures Lead(path, slash) == n
  {
    if n > 0 { LeadIs(path[1..], slash, n - 1); }
  }

  // One of skipelem's three loops: over slashes, or over anything else.
  method SkipRun(path: string, start: nat, slash: bool) returns (i: nat)
    requires start <= |path|
    ensures i == start + Lead(path[start..], slash) <= |path|
  {
    i := start;
    while i < |path| && (path[i] == '/') == slash
      invariant start <= i <= |path|
      invariant forall j :: start <= j < i ==> (path[j] == '/') == slash
    {
      i := i + 1;
    }
    LeadIs(path[start..], slash, i - start);
  }

  lemma SlashesGone(path: string, start: nat)
    requires start <= |path|
    ensures var i := start + Lead(path[start..], true);
      i <= |path| && (i < |path| ==> path[i] != '/') && Elements(path[i..]) == Elements(path[start..])
  {
    var n := Lead(path[start..], true);
    SkipSlashes(path[start..], n);
    assert path[start..][n..] == path[start + n..];
    if start + n < |path| { assert path[start..][n] == path[start + n]; }
  }

  lemma ElementTaken(path: string, start: nat)
    requires start < |path| && path[start] != '/'
    ensures var i := start + Lead(path[start..], false);
      start < i <= |path| && Elements(path[start..]) == [path[start..i]] + Elements(path[i..])
  {
    var n := Lead(path[start..], false);
    assert path[start..][..n] == path[start..start + n];
    assert path[start..][n..] == path[start + n..];
  }

  // The two memmoves of skipelem.
  function Moved(path: CString, s: nat, len: nat): (name: Name)
    requires s + len <= |path|
    ensures name == Trunc(path[s..s + len])
  {
    if len >= DIRSIZ then path[s..s + DIRSIZ] else path[s..s + len]
  }

  lemma MovedIsElement(path: CString, s: nat, len: nat)
    requires s + len <= |path| && 0 < len && len == Lead(path[s..], false)
    ensures Element(Moved(path, s, len))
  {
    assert forall i :: 0 <= i < len ==> path[s..][i] == path[s + i];
  }

  /** skipelem: takes the first element off a path, cut to DIRSIZ characters. */
  method SkipElem(path: CString, start: nat) returns (found: bool, next: nat, name: Name)
    requires start <= |path|
    ensures found <==> Elements(path[start..]) != []
    ensures found ==> start < next <= |path| && (next < |path| ==> path[next] != '/')
    ensures found ==> name == Trunc(Elements(path[start..])[0]) && Element(name)
    ensures found ==> Elements(path[next..]) == Elements(path[start..])[1..]
  {
    hide Elements;
    hide Lead;
    hide Trunc;
    hide Moved;
    var s := SkipRun(path, start, true);
    SlashesGone(path, start);
    if s == |path| {
      NoElements();
      assert path[s..] == "";
      return false, s, "";
    }
    var e := SkipRun(path, s, false);
    ElementTaken(path, s);
    name := Moved(path, s, e - s);
    MovedIsElement(path, s, e - s);
    next := SkipRun(path, e, true);
    SlashesGone(path, e);
    found := true;
  }

  lemma NoElements()
    ensures Elements("") == []
  {
  }

  // What a list of elements means, starting at inode ip: ilock panics on an inode that is free.
  function Resolve(fs: seq<Node>, ip: nat, elems: seq<string>): Outcome<nat>
    decreases |elems|
  {
    if elems == [] then Found(ip)
    else if !Allocated(fs, ip) then Panic
    else if !IsDir(fs, ip) then Missing
    else match Lookup(fs[ip].ents, Trunc(elems[0]))
      case None => Missing
      case Some(next) => Resolve(fs, next, elems[1..])
  }

  // The directory of the last element, with that element.
  function ResolveParent(fs: seq<Node>, ip: nat, elems: seq<string>): Outcome<(nat, string)> {
    if elems == [] then Missing
    else match Resolve(fs, ip, elems[..|elems| - 1])
      case Missing => Missing
      case Panic => Panic
      case Found(d) =>
        if !Allocated(fs, d) then Panic
        else if !IsDir(fs, d) then Missing
        else Found((d, Trunc(elems[|elems| - 1])))
  }

  function Start(path: string, cwd: nat): nat {
    if path != "" && path[0] == '/' then ROOT else cwd
  }

  function Inode(r: Outcome<(nat, string)>): Outcome<nat> {
    match r
    case Found((ip, _)) => Found(ip)
    case Missing => Missing
    case Panic => Panic
  }

  /** The elements of two paths joined by a slash are those of the one and then those of the other. */
  lemma {:induction false} ElementsJoin(a: string, b: string)
    ensures Elements(a + ("/" + b)) == Elements(a) + Elements(b)
    decreases |a|
  {
    var path := a + ("/" + b);
    if a == "" {
      assert path[1..] == b;
    } else if a[0] == '/' {
      assert path[1..] == a[1..] + ("/" + b);
      ElementsJoin(a[1..], b);
    } else {
      var n := Lead(a, false);
      LeadIs(path, false, n);
      assert path[..n] == a[..n];
      assert path[n..] == a[n..] + ("/" + b);
      ElementsJoin(a[n..], b);
    }
  }

  /**
    A relative path means what the absolute one means that has any path of the current directory in
    front; for nameiparent as well, unless the path has no elements.
   */
  lemma RelativeIsAbsolute(fs: seq<Node>, cwd: nat, prefix: string, path: string)
    requires (path == "" || path[0] != '/') && Resolve(fs, ROOT, Elements(prefix)) == Found(cwd)
    ensures Resolve(fs, Start(path, cwd), Elements(path)) == Resolve(fs, ROOT, Elements(prefix + ("/" + path)))
    ensures ResolveParent(fs, Start(path, cwd), Elements(path)) ==
      if Elements(path) == [] then Missing else ResolveParent(fs, ROOT, Elements(prefix + ("/" + path)))
  {
    hide Elements;
    hide Resolve;
    var a, b := Elements(prefix), Elements(path);
    ElementsJoin(prefix, path);
    ResolveAppend(fs, ROOT, a, b);
    if b != [] {
      assert (a + b)[..|a + b| - 1] == a + b[..|b| - 1];
      ResolveAppend(fs, ROOT, a, b[..|b| - 1]);
    }
  }

  /**
    namex: namei, and nameiparent when `wantParent`.  A path that begins with a slash is resolved
    from the root whatever the current directory is; any other as if a path of the current
    directory stood in front of it.
   */
  method Namex(fs: seq<Node>, path: CString, cwd: nat, wantParent: bool) returns (r: Outcome<(nat, string)>)
    ensures !wantParent ==> Inode(r) == Resolve(fs, Start(path, cwd), Elements(path))
    ensures wantParent ==> r == ResolveParent(fs, Start(path, cwd), Elements(path)) && (r.Found? ==> Element(r.value.1))
    ensures path != "" && path[0] == '/' && !wantParent ==> Inode(r) == Resolve(fs, ROOT, Elements(path))
    ensures path != "" && path[0] == '/' && wantParent ==> r == ResolveParent(fs, ROOT, Elements(path))
    ensures forall prefix: string :: (path == "" || path[0] != '/') && Resolve(fs, ROOT, Elements(prefix)) == Found(cwd) ==>
      if wantParent then r == if Elements(path) == [] then Missing else ResolveParent(fs, ROOT, Elements(prefix + ("/" + path)))
      else Inode(r) == Resolve(fs, ROOT, Elements(prefix + ("/" + path)))
  {
    r := NamexLoop(fs, path, cwd, wantParent);
    hide Elements;
    hide Resolve;
    hide ResolveParent;
    forall prefix: string | (path == "" || path[0] != '/') && Resolve(fs, ROOT, Elements(prefix)) == Found(cwd)
      ensures Resolve(fs, Start(path, cwd), Elements(path)) == Resolve(fs, ROOT, Elements(prefix + ("/" + path)))
      ensures ResolveParent(fs, Start(path, cwd), Elements(path)) ==
        if Elements(path) == [] then Missing else ResolveParent(fs, ROOT, Elements(prefix + ("/" + path)))
    {
      RelativeIsAbsolute(fs, cwd, prefix, path);
    }
  }

  // The body of namex.
  method NamexLoop(fs: seq<Node>, path: CString, cwd: nat, wantParent: bool) returns (r: Outcome<(nat, string)>)
    ensures !wantParent ==> Inode(r) == Resolve(fs, Start(path, cwd), Elements(path))
    ensures wantParent ==> r == ResolveParent(fs, Start(path, cwd), Elements(path)) && (r.Found? ==> Element(r.value.1))
  {
    hide Elements;
    hide Lead;
    hide Trunc;
    NoElements();
    var ip: nat := cwd;
    if path != "" && path[0] == '/' { ip := ROOT; }
    var name: Name := "";
    var at := 0;
    ghost var done := 0;
    ghost var all := Elements(path);
    assert path[0..] == path;
    assert all[..0] == [];
    var more := true;
    while more
      invariant at <= |path| && done <= |all| && Elements(path[at..]) == all[done..]
      invariant Resolve(fs, Start(path, cwd), all) == Resolve(fs, ip, all[done..])
      invariant Resolve(fs, Start(path, cwd), all[..done]) == Found(ip)
      invariant wantParent && done > 0 ==> done < |all|
      invariant !more ==> done == |all|
      decreases |path| - at, more
    {
      var next;
      more, next, name := SkipElem(path, at);
      if more {
        assert all[done..][0] == all[done];
        if !Allocated(fs, ip) {
          ResolveStops(fs, Start(path, cwd), all, done, ip);
          return Panic;
        }
        if !IsDir(fs, ip) {
          ResolveStops(fs, Start(path, cwd), all, done, ip);
          return Missing;
        }
        if wantParent && next == |path| {
          assert path[next..] == "";
          assert all[..|all| - 1] == all[..done];
          return Found((ip, name));
        }
        if wantParent { LastElement(path, next); }
        var found, _ := DirLookup(fs[ip].ents, name);
        if found.None? {
          ResolveStops(fs, Start(path, cwd), all, done, ip);
          return Missing;
        }
        ResolveStep(fs, Start(path, cwd), all, done, ip, found.value);
        assert all[done..][1..] == all[done + 1..];
        ip := found.value;
        at, done := next, done + 1;
      }
    }
    assert all[done..] == [];
    r := if wantParent then Missing else Found((ip, name));
  }

  // After the slashes, an unfinished path still has an element.
  lemma LastElement(path: string, next: nat)
    requires next < |path| && path[next] != '/'
    ensures Elements(path[next..]) != []
  {
  }

  lemma {:induction false} ResolveAppend(fs: seq<Node>, ip: nat, a: seq<string>, b: seq<string>)
    ensures Resolve(fs, ip, a + b) ==
      match Resolve(fs, ip, a)
      case Missing => Missing
      case Panic => Panic
      case Found(d) => Resolve(fs, d, b)
    decreases |a|
  {
    if a == [] {
      assert a + b == b;
    } else {
      assert (a + b)[1..] == a[1..] + b;
      if IsDir(fs, ip) {
        match Lookup(fs[ip].ents, Trunc(a[0])) {
          case None =>
          case Some(next) => ResolveAppend(fs, next, a[1..], b);
        }
      }
    }
  }

  lemma ResolveStep(fs: seq<Node>, ip: nat, all: seq<string>, k: nat, d: nat, next: nat)
    requires k < |all| && Resolve(fs, ip, all[..k]) == Found(d) && IsDir(fs, d) && Lookup(fs[d].ents, Trunc(all[k])) == Some(next)
    ensures Resolve(fs, ip, all[..k + 1]) == Found(next)
  {
    assert all[..k + 1] == all[..k] + [all[k]];
    ResolveAppend(fs, ip, all[..k], [all[k]]);
  }

  lemma ResolveStops(fs: seq<Node>, ip: nat, all: seq<string>, k: nat, d: nat)
    requires k < |all| && Resolve(fs, ip, all[..k]) == Found(d)
    requires IsDir(fs, d) ==> Lookup(fs[d].ents, Trunc(all[k])) == None
    ensures var r := if Allocated(fs, d) then Missing else Panic;
      Resolve(fs, ip, all) == r && (!IsDir(fs, d) || k < |all| - 1 ==> Inode(ResolveParent(fs, ip, all)) == r)
  {
    assert all == all[..k] + all[k..];
    ResolveAppend(fs, ip, all[..k], all[k..]);
    var last := all[..|all| - 1];
    if k < |all| - 1 {
      assert last == all[..k] + all[k..|all| - 1];
      ResolveAppend(fs, ip, all[..k], all[k..|all| - 1]);
    }
  }

  // ----- getcwd

  // The first entry that names inode i.
  function FindInum(ents: seq<Entry>, i: nat): (k: nat)
    ensures k <= |ents| && (k < |ents| ==> ents[k].inum == i) && forall j :: 0 <= j < k ==> ents[j].inum != i
  {
    if ents == [] || ents[0].inum == i then 0 else 1 + FindInum(ents[1..], i)
  }

  // Visiting inode ip panics: it is free, or it is no directory, or its ".." names a free inode.
  predicate Dead(fs: seq<Node>, ip: nat) {
    || !Allocated(fs, ip)
    || (ip != ROOT && !IsDir(fs, ip))
    || (ip != ROOT && Lookup(fs[ip].ents, "..").Some? && !Allocated(fs, Lookup(fs[ip].ents, "..").value))
  }

  // The parent of a directory and its name there.
  function Up(fs: seq<Node>, ip: nat): Option<(nat, Name)> {
    if ip == ROOT || Dead(fs, ip) then None
    else match Lookup(fs[ip].ents, "..")
      case None => None
      case Some(up) =>
        var k := FindInum(fs[up].ents, ip);
        if k == |fs[up].ents| then None else Some((up, fs[up].ents[k].name))
  }

  // The path from the root to ip, if it exists and takes no more than `room` characters.
  function Climb(fs: seq<Node>, ip: nat, room: nat): Outcome<string>
    decreases room
  {
    if Dead(fs, ip) then Panic
    else if ip == ROOT then Found("")
    else match Up(fs, ip)
      case None => Missing
      case Some((up, name)) =>
        if room < |name| + 1 then Missing else Joined(Climb(fs, up, room - |name| - 1), "/" + name)
  }

  // The path so far, once the rest of the climb is known.
  function Joined(prefix: Outcome<string>, rest: string): Outcome<string> {
    if prefix.Found? then Found(prefix.value + rest) else prefix
  }

  lemma ElementsAppend(prefix: string, name: string)
    requires 0 < |name| && '/' !in name
    ensures Elements(prefix + ("/" + name)) == Elements(prefix) + [name]
  {
    ElementsJoin(prefix, name);
    LeadIs(name, false, |name|);
    assert name[..|name|] == name && name[|name|..] == "";
  }

  /**
    The round trip: whatever directory graph the file system holds, as long as the names in each
    directory are proper and distinct, a path that getcwd builds for a directory resolves,
    element by element from the root, to that directory.
   */
  lemma {:induction false} ClimbResolves(fs: seq<Node>, ip: nat, room: nat)
    requires WellNamed(fs) && IsDir(fs, ROOT) && ip != 0 && Climb(fs, ip, room).Found?
    ensures var path := Climb(fs, ip, room).value;
      && |path| <= room && '\0' !in path && (path != "" ==> path[0] == '/') && (path == "" <==> ip == ROOT)
      && Resolve(fs, ROOT, Elements(path)) == Found(ip)
    decreases room
  {
    if ip != ROOT {
      var (up, name) := Up(fs, ip).value;
      ClimbResolves(fs, up, room - |name| - 1);
      var prefix := Climb(fs, up, room - |name| - 1).value;
      UpResolves(fs, ip, room - |name| - 1);
      ElementsAppend(prefix, name);
      ResolveAppend(fs, ROOT, Elements(prefix), [name]);
      assert [name][1..] == [];
    }
  }

  lemma UpResolves(fs: seq<Node>, ip: nat, room: nat)
    requires WellNamed(fs) && IsDir(fs, ROOT) && ip != 0 && Up(fs, ip).Some? && Climb(fs, Up(fs, ip).value.0, room).Found?
    ensures var (up, name) := Up(fs, ip).value;
      up != 0 && IsDir(fs, up) && |name| > 0 && '/' !in name && Lookup(fs[up].ents, Trunc(name)) == Some(ip)
  {
    var (up, name) := Up(fs, ip).value;
    LookupIs(fs[up].ents, FindInum(fs[up].ents, ip));
  }

  // A larger buffer never changes the answer, it only finds more.
  lemma {:induction false} ClimbMono(fs: seq<Node>, ip: nat, room: nat, more: nat)
    requires !Climb(fs, ip, room).Missing? && room <= more
    ensures Climb(fs, ip, more) == Climb(fs, ip, room)
    decreases room
  {
    if ip != ROOT && !Dead(fs, ip) {
      var (up, name) := Up(fs, ip).value;
      ClimbMono(fs, up, room - |name| - 1, more - |name| - 1);
    }
  }

  // ----- Exactly when getcwd succeeds and when it panics

  // Directories from dirs[0] on, each found in the next.
  ghost predicate Chain(fs: seq<Node>, dirs: seq<nat>) {
    dirs != [] && forall i :: 0 <= i < |dirs| - 1 ==> Up(fs, dirs[i]).Some? && Up(fs, dirs[i]).value.0 == dirs[i + 1]
  }

  // The length of the path they spell.
  ghost function ChainLength(fs: seq<Node>, dirs: seq<nat>): nat
    requires Chain(fs, dirs)
  {
    if |dirs| == 1 then 0
    else
      assert forall i :: 0 <= i < |dirs[1..]| ==> dirs[1..][i] == dirs[i + 1];
      |Up(fs, dirs[0]).value.1| + 1 + ChainLength(fs, dirs[1..])
  }

  /** A chain to the root gives success, and one to a dead inode a panic, if and only if it fits the buffer. */
  lemma {:induction false} ChainClimbs(fs: seq<Node>, dirs: seq<nat>, room: nat)
    requires Chain(fs, dirs)
    ensures var last := dirs[|dirs| - 1];
      && (Dead(fs, last) ==> (Climb(fs, dirs[0], room).Panic? <==> ChainLength(fs, dirs) <= room))
      && (!Dead(fs, last) && last == ROOT ==> (Climb(fs, dirs[0], room).Found? <==> ChainLength(fs, dirs) <= room))
    decreases |dirs|
  {
    if |dirs| > 1 {
      assert forall i :: 0 <= i < |dirs[1..]| ==> dirs[1..][i] == dirs[i + 1];
      var (up, name) := Up(fs, dirs[0]).value;
      if |name| + 1 <= room { ChainClimbs(fs, dirs[1..], room - |name| - 1); }
    }
  }

  /** And there is no other way: a success has a chain to the root, a panic one to a dead inode. */
  lemma {:induction false} ClimbHasChain(fs: seq<Node>, ip: nat, room: nat) returns (dirs: seq<nat>)
    requires !Climb(fs, ip, room).Missing?
    ensures Chain(fs, dirs) && dirs[0] == ip
    ensures Climb(fs, ip, room).Found? ==> dirs[|dirs| - 1] == ROOT && !Dead(fs, ROOT)
    ensures Climb(fs, ip, room).Panic? ==> Dead(fs, dirs[|dirs| - 1])
    decreases room
  {
    if ip == ROOT || Dead(fs, ip) {
      dirs := [ip];
    } else {
      var (up, name) := Up(fs, ip).value;
      var rest := ClimbHasChain(fs, up, room - |name| - 1);
      dirs := [ip] + rest;
      assert forall i :: 1 <= i < |dirs| ==> dirs[i] == rest[i - 1];
    }
  }

  // ----- The loop

  lemma ClimbFails(fs: seq<Node>, ip: nat, room: nat, rest: string)
    requires ip != ROOT && !Dead(fs, ip)
    requires Up(fs, ip).None? || room < |Up(fs, ip).value.1| + 1
    ensures Joined(Climb(fs, ip, room), rest) == Missing
  {
  }

  lemma ClimbStep(fs: seq<Node>, ip: nat, room: nat, rest: string)
    requires Up(fs, ip).Some? && |Up(fs, ip).value.1| + 1 <= room
    ensures var (up, name) := Up(fs, ip).value;
      Joined(Climb(fs, ip, room), rest) == Joined(Climb(fs, up, room - |name| - 1), ("/" + name) + rest)
  {
    var (up, name) := Up(fs, ip).value;
    var c := Climb(fs, up, room - |name| - 1);
    if c.Found? {
      assert (c.value + ("/" + name)) + rest == c.value + (("/" + name) + rest);
    }
  }

  lemma ClimbEnds(fs: seq<Node>, ip: nat, room: nat, rest: string)
    ensures Dead(fs, ip) ==> Joined(Climb(fs, ip, room), rest) == Panic
    ensures !Dead(fs, ip) && ip == ROOT ==> Joined(Climb(fs, ip, room), rest) == Found(rest)
  {
    assert "" + rest == rest;
  }

  lemma ClimbStarts(fs: seq<Node>, ip: nat, room: nat)
    ensures Joined(Climb(fs, ip, room), "") == Climb(fs, ip, room)
  {
    var c := Climb(fs, ip, room);
    if c.Found? { assert c.value + "" == c.value; }
  }

  method Prepend(kbuf: array<char>, pos: nat, raw: string, namelen: nat) returns (pos': nat)
    requires namelen + 1 <= pos < kbuf.Length && namelen == |CName(raw)|
    modifies kbuf
    ensures pos' == pos - namelen - 1
    ensures kbuf[pos'..kbuf.Length - 1] == ("/" + CName(raw)) + old(kbuf[pos..kbuf.Length - 1])
    ensures kbuf[kbuf.Length - 1] == old(kbuf[kbuf.Length - 1])
  {
    pos' := pos - namelen;
    forall i | 0 <= i < namelen { kbuf[pos' + i] := raw[i]; }
    pos' := pos' - 1;
    kbuf[pos'] := '/';
    Prepended(kbuf[pos'..kbuf.Length - 1], CName(raw), old(kbuf[pos..kbuf.Length - 1]));
  }

  // The loop of sys_getcwd: one directory at a time towards the root.
  method ClimbLoop(fs: seq<Node>, cwd: nat, kbuf: array<char>) returns (r: Outcome<nat>)
    requires kbuf.Length == MAXPATH
    modifies kbuf
    ensures r.Panic? <==> Climb(fs, cwd, MAXPATH - 1).Panic?
    ensures r.Missing? <==> Climb(fs, cwd, MAXPATH - 1).Missing?
    ensures r.Found? ==> r.value <= MAXPATH - 1 && Climb(fs, cwd, MAXPATH - 1) == Found(kbuf[r.value..MAXPATH - 1])
    ensures r.Found? ==> kbuf[MAXPATH - 1] == '\0'
  {
    hide Climb;
    var pos := MAXPATH - 1;
    kbuf[pos] := '\0';
    var ip := cwd;
    assert kbuf[pos..MAXPATH - 1] == "";
    ClimbStarts(fs, cwd, pos);
    while true
      invariant 0 <= pos <= MAXPATH - 1 && kbuf[MAXPATH - 1] == '\0'
      invariant Climb(fs, cwd, MAXPATH - 1) == Joined(Climb(fs, ip, pos), kbuf[pos..MAXPATH - 1])
      decreases pos
    {
      ghost var rest := kbuf[pos..MAXPATH - 1];
      ClimbEnds(fs, ip, pos, rest);
      if !Allocated(fs, ip) { return Panic; }
      if ip == ROOT { return Found(pos); }
      if !IsDir(fs, ip) { return Panic; }
      var parent, _ := DirLookup(fs[ip].ents, "..");
      if parent.None? { ClimbFails(fs, ip, pos, rest); return Missing; }
      if !Allocated(fs, parent.value) { return Panic; }
      var ents := fs[parent.value].ents;
      var off := FindEntry(ents, ip);
      if off == |ents| { ClimbFails(fs, ip, pos, rest); return Missing; }
      CNamePad(ents[off].name);
      var namelen := NameLen(Pad(ents[off].name));
      if pos < namelen + 1 { ClimbFails(fs, ip, pos, rest); return Missing; }
      ClimbStep(fs, ip, pos, rest);
      pos := Prepend(kbuf, pos, Pad(ents[off].name), namelen);
      ip := parent.value;
    }
  }

  /**
    sys_getcwd, up to the copy to user space: the bytes to copy, which are the path and its NUL, a
    failure, or the panic of ilock or dirlookup.
   */
  method GetCwd(fs: seq<Node>, cwd: nat, usize: int) returns (r: Outcome<string>)
    ensures r.Panic? <==> usize > 0 && Climb(fs, cwd, MAXPATH - 1).Panic?
    ensures r.Found? <==> Climb(fs, cwd, MAXPATH - 1).Found? && |CwdPath(fs, cwd)| + 1 <= usize
    ensures r.Found? ==> r.value == CwdPath(fs, cwd) + "\0"
    ensures r.Found? && WellNamed(fs) && IsDir(fs, ROOT) && cwd != 0 ==>
      var path := CwdPath(fs, cwd);
      '\0' !in path && path[0] == '/' && Resolve(fs, Start(path, cwd), Elements(path)) == Found(cwd)
  {
    hide Climb;
    hide WellNamed;
    hide Resolve;
    if usize <= 0 { return Missing; }
    var size := if usize > MAXPATH then MAXPATH else usize;
    var kbuf := new char[MAXPATH];
    var at := ClimbLoop(fs, cwd, kbuf);
    if at.Panic? { return Panic; }
    if at.Missing? { return Missing; }
    var pos := at.value;
    if WellNamed(fs) && IsDir(fs, ROOT) && cwd != 0 { ClimbResolves(fs, cwd, MAXPATH - 1); }
    if pos == MAXPATH - 1 {
      pos := pos - 1;
      kbuf[pos] := '/';
      assert kbuf[pos..MAXPATH - 1] == "/";
      NoElements();
      assert "/"[1..] == "" && Elements("/") == Elements("");
    }
    var pathlen := MAXPATH - 1 - pos + 1;
    if pathlen > size { return Missing; }
    assert kbuf[pos..pos + pathlen] == kbuf[pos..MAXPATH - 1] + "\0";
    r := Found(kbuf[pos..pos + pathlen]);
  }

  ghost function CwdPath(fs: seq<Node>, cwd: nat): string
    requires Climb(fs, cwd, MAXPATH - 1).Found?
  {
    var path := Climb(fs, cwd, MAXPATH - 1).value;
    if path == "" then "/" else path
  }

  /**
    On well-named trees, a relative path means what it means behind the path that getcwd gives for
    the current directory.
   */
  lemma RelativeToCwd(fs: seq<Node>, cwd: nat, path: string)
    requires WellNamed(fs) && IsDir(fs, ROOT) && cwd != 0 && Climb(fs, cwd, MAXPATH - 1).Found?
    requires path == "" || path[0] != '/'
    ensures CwdPath(fs, cwd)[0] == '/'
    ensures Resolve(fs, Start(path, cwd), Elements(path)) == Resolve(fs, ROOT, Elements(CwdPath(fs, cwd) + ("/" + path)))
  {
    ClimbResolves(fs, cwd, MAXPATH - 1);
    NoElements();
    assert "/"[1..] == "" && Elements("/") == Elements("");
    RelativeIsAbsolute(fs, cwd, CwdPath(fs, cwd), path);
  }

  lemma Prepended(buf: string, name: string, rest: string)
    requires |buf| == |name| + 1 + |rest| && buf[0] == '/'
    requires forall i :: 0 <= i < |name| ==> buf[1 + i] == name[i]
    requires forall i :: 0 <= i < |rest| ==> buf[1 + |name| + i] == rest[i]
    ensures buf == ("/" + name) + rest
  {
  }

  method FindEntry(ents: seq<Entry>, i: nat) returns (off: nat)
    ensures off == FindInum(ents, i)
  {
    off := 0;
    while off < |ents| && ents[off].inum != i
      invariant 0 <= off <= |ents|
      invariant FindInum(ents, i) == off + FindInum(ents[off..], i)
    {
      off := off + 1;
    }
  }

  method NameLen(raw: string) returns (n: nat)
    requires |raw| == DIRSIZ
    ensures n == |CName(raw)|
  {
    n := 0;
    while n < DIRSIZ && raw[n] != '\0'
      invariant 0 <= n <= DIRSIZ && '\0' !in raw[..n]
    {
      n := n + 1;
    }
    CNamePrefix(raw, n);
  }
}
