/**
  Path names over a tree whose link counts are exact: where namex and sys_getcwd can meet the
  panic of ilock, and where they cannot.
 */
module TreePaths {
  import opened Dirs
  import opened Links
  import Paths

  // dirlookup finds "." and ".." in the first two entries.
  lemma ParentIs(nodes: seq<Node>, d: nat)
    requires Shape(nodes) && IsDir(nodes, d)
    ensures Lookup(nodes[d].ents, "..") == Some(Up(nodes[d]))
  {
    assert GoodDir(nodes, d);
    assert |".."| != |"."|;
    LookupFirst(nodes[d].ents, "..", 1);
  }

  // What a lookup finds is one of the entries.
  lemma {:induction false} LookupAt(ents: seq<Entry>, name: string) returns (k: nat)
    requires Lookup(ents, name).Some?
    ensures k < |ents| && Names(ents[k], name) && Lookup(ents, name) == Some(ents[k].inum)
  {
    if Names(ents[0], name) {
      k := 0;
    } else {
      var j := LookupAt(ents[1..], name);
      k := j + 1;
    }
  }

  // A step of namex from a linked directory.
  lemma StepIsSafe(nodes: seq<Node>, home: seq<Seat>, pend: seq<nat>, d: nat, name: string)
    requires Good(nodes, home, pend) && Linked(nodes, d) && Lookup(nodes[d].ents, name).Some?
    ensures var x := Lookup(nodes[d].ents, name).value; Allocated(nodes, x) && (IsDir(nodes, x) ==> Linked(nodes, x))
  {
    hide Good;
    var k := LookupAt(nodes[d].ents, name);
    NamedByLinked(nodes, home, pend, d, k);
  }

  /** From a linked directory no path makes namei or nameiparent panic, and what they find is allocated. */
  lemma {:induction false} ResolveIsSafe(nodes: seq<Node>, home: seq<Seat>, pend: seq<nat>, ip: nat, elems: seq<string>)
    requires Good(nodes, home, pend) && Allocated(nodes, ip) && (IsDir(nodes, ip) ==> Linked(nodes, ip))
    ensures !Paths.Resolve(nodes, ip, elems).Panic? && !Paths.ResolveParent(nodes, ip, elems).Panic?
    ensures Paths.Resolve(nodes, ip, elems).Found? ==> Allocated(nodes, Paths.Resolve(nodes, ip, elems).value)
    decreases |elems|
  {
    hide Good;
    if elems != [] && IsDir(nodes, ip) {
      ResolveIsSafe(nodes, home, pend, ip, elems[..|elems| - 1]);
      if Lookup(nodes[ip].ents, Paths.Trunc(elems[0])).Some? {
        StepIsSafe(nodes, home, pend, ip, Paths.Trunc(elems[0]));
        ResolveIsSafe(nodes, home, pend, Lookup(nodes[ip].ents, Paths.Trunc(elems[0])).value, elems[1..]);
      }
    } else if elems != [] {
      ResolveIsSafe(nodes, home, pend, ip, elems[..|elems| - 1]);
    }
  }

  // A step of sys_getcwd from a linked directory finds the parent and the name there.
  lemma UpIsSafe(nodes: seq<Node>, home: seq<Seat>, pend: seq<nat>, d: nat)
    requires Good(nodes, home, pend) && Linked(nodes, d) && d != ROOT
    ensures Paths.Up(nodes, d).Some? && Paths.Up(nodes, d).value.0 == Up(nodes[d]) && Linked(nodes, Up(nodes[d]))
  {
    ParentIs(nodes, d);
    assert Homed(nodes, home, d);
  }

  /** Every linked directory has a chain of parents to the root. */
  lemma {:induction false} LinkedHasChain(nodes: seq<Node>, home: seq<Seat>, pend: seq<nat>, d: nat) returns (dirs: seq<nat>)
    requires Good(nodes, home, pend) && Linked(nodes, d)
    ensures Paths.Chain(nodes, dirs) && dirs[0] == d && dirs[|dirs| - 1] == ROOT
    decreases home[d].depth
  {
    if d == ROOT {
      dirs := [d];
    } else {
      UpIsSafe(nodes, home, pend, d);
      assert Homed(nodes, home, d);
      var rest := LinkedHasChain(nodes, home, pend, Up(nodes[d]));
      dirs := [d] + rest;
      assert forall i :: 1 <= i < |dirs| ==> dirs[i] == rest[i - 1];
    }
  }

  /**
    In a linked directory sys_getcwd never panics, and it succeeds if and only if the path to the
    root fits the buffer; with proper, distinct names that path then resolves to the directory.
   */
  lemma LinkedClimbs(nodes: seq<Node>, home: seq<Seat>, pend: seq<nat>, d: nat, room: nat) returns (dirs: seq<nat>)
    requires Good(nodes, home, pend) && Linked(nodes, d)
    ensures Paths.Chain(nodes, dirs) && dirs[0] == d && dirs[|dirs| - 1] == ROOT
    ensures !Paths.Climb(nodes, d, room).Panic?
    ensures Paths.Climb(nodes, d, room).Found? <==> Paths.ChainLength(nodes, dirs) <= room
    ensures WellNamed(nodes) && Paths.Climb(nodes, d, room).Found? ==>
      Paths.Resolve(nodes, ROOT, Paths.Elements(Paths.Climb(nodes, d, room).value)) == Paths.Found(d)
  {
    hide Good;
    hide WellNamed;
    hide Paths.Resolve;
    hide Paths.Elements;
    dirs := LinkedHasChain(nodes, home, pend, d);
    GoodFacts(nodes, home, pend);
    Paths.ChainClimbs(nodes, dirs, room);
    ClimbIsSafe(nodes, home, pend, d, room);
    NotZero(nodes, d);
    if WellNamed(nodes) && Paths.Climb(nodes, d, room).Found? { Paths.ClimbResolves(nodes, d, room); }
  }

  lemma {:induction false} ClimbIsSafe(nodes: seq<Node>, home: seq<Seat>, pend: seq<nat>, d: nat, room: nat)
    requires Good(nodes, home, pend) && Linked(nodes, d)
    ensures !Paths.Climb(nodes, d, room).Panic?
    decreases room
  {
    hide Good;
    if d != ROOT {
      UpIsSafe(nodes, home, pend, d);
      var (up, name) := Paths.Up(nodes, d).value;
      if |name| + 1 <= room { ClimbIsSafe(nodes, home, pend, up, room - |name| - 1); }
    }
  }

  /**
    In a removed directory sys_getcwd fails while the parent is linked, since no entry names the
    directory any more, and panics once the parent's inode is free.
   */
  lemma RemovedClimbs(nodes: seq<Node>, home: seq<Seat>, pend: seq<nat>, d: nat, room: nat)
    requires Good(nodes, home, pend) && IsDir(nodes, d) && !Linked(nodes, d)
    ensures Linked(nodes, Up(nodes[d])) ==> Paths.Climb(nodes, d, room) == Paths.Missing
    ensures !Allocated(nodes, Up(nodes[d])) ==> Paths.Climb(nodes, d, room) == Paths.Panic
  {
    ParentIs(nodes, d);
    NotZero(nodes, d);
    var up := Up(nodes[d]);
    if Linked(nodes, up) {
      assert GoodDir(nodes, up);
      var k := Paths.FindInum(nodes[up].ents, d);
      if k < |nodes[up].ents| { Unnamed(nodes, pend, d, up, k); }
    }
  }

  // ----- A run that gets there

  // An empty file system with room for two inodes.
  function Fresh(): seq<Node> {
    [FREE, Node(Dir, 1, [Entry(1, "."), Entry(1, "..")]), FREE, FREE]
  }

  // mkdir a; mkdir a/b; chdir a/b; unlink a/b; unlink a
  function Run(): seq<Node> {
    var s1 := WithDir(Fresh(), 2, 1, 2, "a");
    var s2 := WithDir(s1, 3, 2, 2, "b");
    var s3 := Put(WithoutDir(s2, 2, 2), 3, true);
    Put(WithoutDir(s3, 1, 2), 2, false)
  }

  lemma RunIs()
    ensures var nodes := Run(); |nodes| == 4 && nodes[2] == FREE && nodes[3] == Node(Dir, 0, [Entry(3, "."), Entry(2, "..")])
  {
    var s1 := WithDir(Fresh(), 2, 1, 2, "a");
    assert s1[1] == Node(Dir, 2, Bind([Entry(1, "."), Entry(1, "..")], 2, Entry(2, "a")));
    assert s1[2] == Node(Dir, 1, [Entry(2, "."), Entry(1, "..")]);
    var s2 := WithDir(s1, 3, 2, 2, "b");
    assert s2[2] == Node(Dir, 2, Bind(s1[2].ents, 2, Entry(3, "b"))) && s2[1] == s1[1];
    var s3 := Put(WithoutDir(s2, 2, 2), 3, true);
    assert s3[2].nlink == 1 && s3[1] == s1[1] && s3[3] == Node(Dir, 0, [Entry(3, "."), Entry(2, "..")]);
  }

  lemma FreshIsGood()
    ensures Good(Fresh(), NoSeats(4), [0, 0, 0, 0])
  {
    var nodes := Fresh();
    assert |".."| != |"."|;
    assert forall d :: IsDir(nodes, d) ==> d == 1;
    forall i | 0 <= i < 4 ensures nodes[i].nlink == Total(nodes, i) {
      TotalOnly(nodes, 1, i);
      if i == 1 { CountOne(nodes[1].ents, 1, 1); } else { CountNone(nodes[1].ents, i); }
    }
  }

  /**
    The tree stays good through the run, and its current directory is then one whose ".." names a
    free inode: sys_getcwd, and any path through "..", panics there.
   */
  lemma RemovedCwdPanics()
    ensures exists home :: Good(Run(), home, [0, 0, 0, 0])
    ensures IsDir(Run(), 3) && Paths.Climb(Run(), 3, Paths.MAXPATH - 1) == Paths.Panic
    ensures Paths.Resolve(Run(), 3, ["..", "f"]) == Paths.Panic
  {
    var home := RunIsGood();
    RunIs();
    RemovedClimbs(Run(), home, [0, 0, 0, 0], 3, Paths.MAXPATH - 1);
    ParentIs(Run(), 3);
    assert ["..", "f"][1..] == ["f"];
  }

  lemma RunIsGood() returns (home: seq<Seat>)
    ensures Good(Run(), home, [0, 0, 0, 0])
  {
    hide Good;
    var pend := [0, 0, 0, 0];
    FreshIsGood();
    assert "a"[0] != "."[0] && "b"[0] != "."[0];
    WithDirExactly(Fresh(), NoSeats(4), pend, 2, 1, 2, "a");
    var s1 := WithDir(Fresh(), 2, 1, 2, "a");
    home := Seated(NoSeats(4), 2, 1, 2);
    assert Good(s1, home, pend);
    WithDirExactly(s1, home, pend, 3, 2, 2, "b");
    var s2 := WithDir(s1, 3, 2, 2, "b");
    home := Seated(home, 3, 2, 2);
    assert Good(s2, home, pend);
    GoodFacts(s2, home, pend);
    WithoutDirKeeps(s2, home, pend, 2, 2);
    PutKeeps(WithoutDir(s2, 2, 2), home, pend, 3, true);
    var s3 := Put(WithoutDir(s2, 2, 2), 3, true);
    GoodFacts(s3, home, pend);
    WithoutDirKeeps(s3, home, pend, 1, 2);
    PutKeeps(WithoutDir(s3, 1, 2), home, pend, 2, false);
  }
}
