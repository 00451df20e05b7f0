/**
  sys_link, sys_unlink and create of kernel/sysfile.c and ireclaim of kernel/fs.c as code, each
  method a section under the locks of the inodes it changes.  The inodes that namei and
  nameiparent find are parameters, and so are the running out of disk space and the references
  that other processes hold.
 */
module LinksCode {
  import opened Dirs
  import opened Links

  // isdirempty
  method IsDirEmpty(node: Node) returns (b: bool)
    ensures b <==> Empty(node)
  {
    var k := 2;
    while k < |node.ents|
      invariant 2 <= k && forall j :: 2 <= j < k && j < |node.ents| ==> !Live(node.ents[j])
    {
      if node.ents[k].inum != 0 { return false; }
      k := k + 1;
    }
    b := true;
  }

  ghost predicate Taken(ents: seq<Entry>, name: string) {
    Lookup(ents, name) != None
  }

  // A name that is free in a good directory is not "." or "..".
  lemma FreeIsProper(nodes: seq<Node>, d: nat, name: string)
    requires Shape(nodes) && IsDir(nodes, d) && !Taken(nodes[d].ents, name) && d != 0
    ensures Proper(name)
  {
    assert GoodDir(nodes, d);
    LookupNone(nodes[d].ents, name);
    assert Live(nodes[d].ents[0]) && Live(nodes[d].ents[1]);
  }

  class FileTree {
    var nodes: seq<Node>
    ghost var home: seq<Seat>
    ghost var pend: seq<nat>    // links counted by a sys_link still on its way

    ghost predicate Valid()
      reads this
    {
      Good(nodes, home, pend)
    }

    /** sys_link up to the unlocking of ip: it refuses directories, and otherwise counts the link. */
    method LinkStart(ip: nat, held: bool) returns (ok: bool)
      requires Valid() && 0 < ip < |nodes| == |pend| && !nodes[ip].kind.Free? && nodes[ip].nlink <= MAXLINK
      modifies this`nodes, this`pend
      ensures ok <==> old(nodes)[ip].kind.File?
      ensures !ok ==> nodes == Put(old(nodes), ip, held) && pend == old(pend) && Valid()
      ensures ok ==> nodes == Raised(old(nodes), ip) && pend == old(pend)[ip := old(pend)[ip] + 1]
      ensures ok ==> (Valid() <==> old(nodes)[ip].nlink < MAXLINK)
      ensures WellNamed(old(nodes)) ==> WellNamed(nodes)
    {
      hide Good;
      hide WellNamed;
      if WellNamed(nodes) {
        PutNamed(nodes, ip, held);
        if nodes[ip].kind.File? { ReplaceNamed(nodes, ip, Raised(nodes, ip)[ip]); }
      }
      if nodes[ip].kind.Dir? {
        PutKeeps(nodes, home, pend, ip, held);
        nodes := Put(nodes, ip, held);
        return false;
      }
      RaisedExactly(nodes, home, pend, ip);
      nodes := nodes[ip := nodes[ip].(nlink := Wrap16(nodes[ip].nlink + 1))];
      pend := pend[ip := pend[ip] + 1];
      GoodIsExact(nodes, home, pend);
      ok := true;
    }

    /** sys_link while it holds dp: a counted link gets its name, unless that is taken or there is no space. */
    method LinkEnter(ip: nat, dp: nat, name: Name, full: bool) returns (ok: bool, off: nat)
      requires 0 < ip < |nodes| == |pend| && pend[ip] > 0 && 0 < dp && IsDir(nodes, dp)
      modifies this`nodes, this`pend
      ensures ok <==> !full && !Taken(old(nodes)[dp].ents, name)
      ensures !ok ==> nodes == old(nodes) && pend == old(pend)
      ensures ok ==> Slot(old(nodes)[dp].ents, off) && nodes == Enter(old(nodes), dp, off, Entry(ip, name))
      ensures ok ==> pend == old(pend)[ip := old(pend)[ip] - 1]
      ensures ok && old(Valid()) ==> (Valid() <==> Linked(old(nodes), dp))
      ensures WellNamed(old(nodes)) && Element(name) ==> WellNamed(nodes)
    {
      hide Good;
      hide WellNamed;
      var ents;
      ok, ents, off := DirLink(nodes[dp].ents, name, ip, full);
      if !ok { return; }
      if Valid() {
        GoodFacts(nodes, home, pend);
        FreeIsProper(nodes, dp, name);
        EnterExactly(nodes, home, pend, ip, dp, off, name);
      }
      if WellNamed(nodes) && Element(name) { EnterNamed(nodes, dp, off, Entry(ip, name)); }
      nodes := nodes[dp := nodes[dp].(ents := ents)];
      pend := pend[ip := pend[ip] - 1];
      GoodIsExact(nodes, home, pend);
    }

    /** The failure path of sys_link: the count is taken back, and the inode put. */
    method LinkUndo(ip: nat, held: bool)
      requires 0 < ip < |nodes| == |pend| && pend[ip] > 0 && nodes[ip].nlink <= MAXLINK
      modifies this`nodes, this`pend
      ensures old(Valid()) ==> Valid()
      ensures nodes == Put(old(nodes)[ip := old(nodes)[ip].(nlink := Wrap16(old(nodes)[ip].nlink - 1))], ip, held)
      ensures pend == old(pend)[ip := old(pend)[ip] - 1]
      ensures WellNamed(old(nodes)) ==> WellNamed(nodes)
    {
      hide Good;
      GoodIsExact(nodes, home, pend);
      if WellNamed(nodes) {
        assert IsDir(nodes, ip) ==> GoodNames(nodes[ip].ents);
        ReplaceNamed(nodes, ip, nodes[ip].(nlink := Wrap16(nodes[ip].nlink - 1)));
        PutNamed(nodes[ip := nodes[ip].(nlink := Wrap16(nodes[ip].nlink - 1))], ip, held);
      }
      hide WellNamed;
      if Valid() {
        DroppedKeeps(nodes, home, pend, ip);
        PutKeeps(nodes[ip := nodes[ip].(nlink := nodes[ip].nlink - 1)], home, pend[ip := pend[ip] - 1], ip, held);
        assert Wrap16(nodes[ip].nlink - 1) == nodes[ip].nlink - 1;
      }
      nodes := nodes[ip := nodes[ip].(nlink := Wrap16(nodes[ip].nlink - 1))];
      pend := pend[ip := pend[ip] - 1];
      nodes := Put(nodes, ip, held);
    }

    /**
      sys_link of the inode ip as `name` in dp, if that directory was found, with nobody else in
      between.  A failure only puts the inode; a success keeps the counts exact exactly when dp
      is linked and the count fits.
     */
    method Link(ip: nat, found: bool, dp: nat, name: Name, full: bool, held: bool) returns (ok: bool, off: nat)
      requires Valid() && 0 < ip < |nodes| == |pend| && !nodes[ip].kind.Free? && nodes[ip].nlink <= MAXLINK
      requires found ==> 0 < dp && IsDir(nodes, dp)
      modifies this`nodes, this`pend
      ensures ok <==> old(nodes)[ip].kind.File? && found && !full && !Taken(old(nodes)[dp].ents, name)
      ensures !ok ==> nodes == Put(old(nodes), ip, held) && Valid()
      ensures ok ==> Slot(old(nodes)[dp].ents, off) && nodes == Enter(Raised(old(nodes), ip), dp, off, Entry(ip, name))
      ensures ok ==> (Valid() <==> Linked(old(nodes), dp) && old(nodes)[ip].nlink < MAXLINK)
      ensures pend == old(pend)
      ensures WellNamed(old(nodes)) && Element(name) ==> WellNamed(nodes)
    {
      hide Good;
      hide WellNamed;
      hide Wrap16;
      GoodCount(nodes, home, pend, ip);
      PutKeeps(nodes, home, pend, ip, held);
      Restored(nodes, ip);
      ok := LinkStart(ip, held);
      off := 0;
      if !ok { return; }
      assert found ==> nodes[dp] == old(nodes)[dp];
      ok := found;
      if found { ok, off := LinkEnter(ip, dp, name, full); }
      if !ok { LinkUndo(ip, held); }
      assert pend == old(pend);
      GoodCount(nodes, home, pend, ip);
    }

    static lemma GoodCount(nodes: seq<Node>, home: seq<Seat>, pend: seq<nat>, i: nat)
      ensures Good(nodes, home, pend) && i < |nodes| ==> nodes[i].nlink >= 0
    {
    }

    // Counting a link and taking the count back.
    static lemma Restored(nodes: seq<Node>, ip: nat)
      requires ip < |nodes| && 0 <= nodes[ip].nlink <= MAXLINK
      ensures var up := Raised(nodes, ip);
        && up[ip := up[ip].(nlink := Wrap16(up[ip].nlink - 1))] == nodes && up[ip].nlink <= MAXLINK
        && (nodes[ip].nlink == MAXLINK ==> up[ip].nlink < 0)
    {
    }

    static lemma GoodIsExact(nodes: seq<Node>, home: seq<Seat>, pend: seq<nat>)
      ensures Good(nodes, home, pend) ==> Exact(nodes, pend)
    {
    }

    /**
      sys_unlink of `name` in dp.  It fails for "." and "..", a name that is not there and a
      directory that is not empty; its panic never happens; and it always keeps the counts exact.
     */
    method Unlink(dp: nat, name: Name, held: bool) returns (ok: bool, off: nat)
      requires Valid() && 0 < dp && IsDir(nodes, dp)
      modifies this`nodes
      ensures Valid()
      ensures !ok ==> nodes == old(nodes) && (!Proper(name) || !Taken(nodes[dp].ents, name) || NotEmpty(nodes, dp, name))
      ensures ok ==> CanClear(old(nodes), dp, off) && old(nodes)[dp].ents[off].name == name
      ensures ok ==> var ip := old(nodes)[dp].ents[off].inum;
        && ip < |old(nodes)| && ip != dp
        && (old(nodes)[ip].kind.Dir? ==> Empty(old(nodes)[ip]))
        && nodes == Put(if old(nodes)[ip].kind.Dir? then WithoutDir(old(nodes), dp, off) else WithoutFile(old(nodes), dp, off), ip, held)
      ensures WellNamed(old(nodes)) ==> WellNamed(nodes)
    {
      hide Good;
      hide WellNamed;
      GoodFacts(nodes, home, pend);
      ghost var was := nodes;
      off := 0;
      if name == "." || name == ".." { return false, off; }
      var found;
      found, off := DirLookup(nodes[dp].ents, name);
      if found.None? { return false, off; }
      FoundIsProper(nodes, dp, off);
      var ip := nodes[dp].ents[off].inum;
      NamedHasLink(nodes, home, pend, dp, off);
      assert nodes[ip].nlink >= 1;
      if nodes[ip].kind.Dir? {
        var empty := IsDirEmpty(nodes[ip]);
        if !empty {
          assert NotEmpty(nodes, dp, name);
          return false, off;
        }
        WithoutDirKeeps(nodes, home, pend, dp, off);
        nodes := nodes[dp := nodes[dp].(ents := nodes[dp].ents[off := GONE])];
        nodes := nodes[dp := nodes[dp].(nlink := nodes[dp].nlink - 1)];
      } else {
        NamedIsFile(nodes, home, pend, dp, off);
        WithoutFileKeeps(nodes, home, pend, dp, off);
        nodes := nodes[dp := nodes[dp].(ents := nodes[dp].ents[off := GONE])];
      }
      nodes := nodes[ip := nodes[ip].(nlink := nodes[ip].nlink - 1)];
      assert nodes == if was[ip].kind.Dir? then WithoutDir(was, dp, off) else WithoutFile(was, dp, off);
      if WellNamed(was) {
        UnlinkedNamed(was, dp, off);
        PutNamed(nodes, ip, held);
      }
      PutKeeps(nodes, home, pend, ip, held);
      nodes := Put(nodes, ip, held);
      ok := true;
    }

    static ghost predicate NotEmpty(nodes: seq<Node>, dp: nat, name: string)
      requires IsDir(nodes, dp)
    {
      exists k :: 0 <= k < |nodes[dp].ents| && Live(nodes[dp].ents[k]) && nodes[dp].ents[k].name == name
                  && IsDir(nodes, nodes[dp].ents[k].inum) && !Empty(nodes[nodes[dp].ents[k].inum])
    }

    static lemma FoundIsProper(nodes: seq<Node>, dp: nat, off: nat)
      requires Shape(nodes) && IsDir(nodes, dp) && off < |nodes[dp].ents| && Live(nodes[dp].ents[off]) && Proper(nodes[dp].ents[off].name)
      ensures CanClear(nodes, dp, off) && nodes[dp].ents[off].inum < |nodes|
    {
      assert GoodDir(nodes, dp);
    }

    // What a live entry names is allocated.
    static lemma NamedIsFile(nodes: seq<Node>, home: seq<Seat>, pend: seq<nat>, dp: nat, off: nat)
      requires Good(nodes, home, pend) && CanClear(nodes, dp, off)
      requires var ip := nodes[dp].ents[off].inum; ip < |nodes| && !nodes[ip].kind.Dir?
      ensures nodes[nodes[dp].ents[off].inum].kind.File? && nodes[dp].ents[off].inum != dp
    {
      NamedHasLink(nodes, home, pend, dp, off);
    }

    static ghost predicate Creatable(nodes: seq<Node>, dp: nat, name: string)
      requires IsDir(nodes, dp)
    {
      !Taken(nodes[dp].ents, name) && exists i :: 0 < i < |nodes| && nodes[i].kind.Free?
    }

    /**
      create, once nameiparent has found dp.  A file that exists already is returned to a caller
      who wants one; a new inode is the first that is free.  `fullIn` and `fullDp` are the failures
      of dirlink for lack of space in the new directory and in dp.  Every failure leaves things as
      they were, and ip is 0.  ilock panics if the name leads to a free inode, which takes a
      removed directory.
     */
    method Create(dp: nat, name: Name, dir: bool, fullIn: bool, fullDp: bool) returns (made: bool, ip: nat, off: nat, panic: bool)
      requires Valid() && 0 < dp && IsDir(nodes, dp) && nodes[dp].nlink <= MAXLINK
      modifies this`nodes, this`home
      ensures made <==> Creatable(old(nodes), dp, name) && !(dir && fullIn) && !fullDp
      ensures panic <==> Taken(old(nodes)[dp].ents, name) && !Allocated(old(nodes), Lookup(old(nodes)[dp].ents, name).value)
      ensures panic ==> ip == 0 && !Linked(old(nodes), dp)
      ensures !made ==> nodes == old(nodes) && home == old(home)
      ensures !made && ip != 0 ==> !dir && off < |nodes[dp].ents| && nodes[dp].ents[off] == Entry(ip, name) && ip < |nodes| && nodes[ip].kind.File?
      ensures !made && ip == 0 && Taken(nodes[dp].ents, name) ==> dir || NamesNoFile(nodes, dp, name)
      ensures made ==> 0 < ip < |old(nodes)| && old(nodes)[ip] == FREE && Slot(old(nodes)[dp].ents, off)
      ensures made ==> forall i :: 0 < i < ip ==> !old(nodes)[i].kind.Free?
      ensures made ==> nodes == if dir then WithDir(old(nodes), ip, dp, off, name)
                                else WithFile(old(nodes), ip, Node(File, 1, []), dp, off, name)
      ensures made ==> (Valid() <==> Linked(old(nodes), dp) && (dir ==> old(nodes)[dp].nlink < MAXLINK))
      ensures WellNamed(old(nodes)) && Element(name) ==> WellNamed(nodes)
    {
      hide Good;
      hide WellNamed;
      GoodFacts(nodes, home, pend);
      ip, panic := 0, false;
      var found;
      found, off := DirLookup(nodes[dp].ents, name);
      if found.Some? {
        EntryInRange(nodes, dp, off);
        var i := nodes[dp].ents[off].inum;
        if nodes[i].kind.Free? {
          NamedByLinked(nodes, home, pend, dp, off);
          return false, 0, off, true;
        }
        if !dir && nodes[i].kind.File? { return false, i, off, false; }
        return false, 0, off, false;
      }
      FreeIsProper(nodes, dp, name);
      ip := Ialloc();
      if ip == |nodes| { return false, 0, off, false; }
      if dir {
        made, off := MakeDir(ip, dp, name, fullIn, fullDp);
      } else {
        made, off := MakeFile(ip, dp, name, fullDp);
      }
      if !made { ip := 0; }
    }

    // Some entry of that name leads to something other than a file.
    static ghost predicate NamesNoFile(nodes: seq<Node>, dp: nat, name: string)
      requires IsDir(nodes, dp)
    {
      exists k :: 0 <= k < |nodes[dp].ents| && nodes[dp].ents[k].name == name
                  && !(nodes[dp].ents[k].inum < |nodes| && nodes[nodes[dp].ents[k].inum].kind.File?)
    }

    static lemma EntryInRange(nodes: seq<Node>, dp: nat, off: nat)
      requires Shape(nodes) && IsDir(nodes, dp) && off < |nodes[dp].ents|
      ensures nodes[dp].ents[off].inum < |nodes|
    {
      assert GoodDir(nodes, dp);
    }

    method MakeFile(ip: nat, dp: nat, name: Name, fullDp: bool) returns (made: bool, off: nat)
      requires Valid() && 0 < ip < |nodes| && nodes[ip] == FREE && 0 < dp && IsDir(nodes, dp) && !Taken(nodes[dp].ents, name)
      modifies this`nodes
      ensures made <==> !fullDp
      ensures !made ==> nodes == old(nodes)
      ensures made ==> Slot(old(nodes)[dp].ents, off) && nodes == WithFile(old(nodes), ip, Node(File, 1, []), dp, off, name)
      ensures made ==> (Valid() <==> Linked(old(nodes), dp))
      ensures WellNamed(old(nodes)) && Element(name) ==> WellNamed(nodes)
    {
      hide Good;
      hide WellNamed;
      GoodFacts(nodes, home, pend);
      FreeIsProper(nodes, dp, name);
      nodes := nodes[ip := Node(File, 1, [])];
      var ents;
      made, ents, off := DirLink(nodes[dp].ents, name, ip, fullDp);
      if !made {
        nodes := Put(nodes[ip := nodes[ip].(nlink := 0)], ip, false);
        return;
      }
      WithFileExactly(old(nodes), home, pend, ip, Node(File, 1, []), dp, off, name);
      if WellNamed(old(nodes)) && Element(name) { WithFileNamed(old(nodes), ip, Node(File, 1, []), dp, off, name); }
      nodes := nodes[dp := nodes[dp].(ents := ents)];
      GoodIsExact(nodes, home, pend);
    }

    method MakeDir(ip: nat, dp: nat, name: Name, fullIn: bool, fullDp: bool) returns (made: bool, off: nat)
      requires Valid() && 0 < ip < |nodes| && nodes[ip] == FREE && 0 < dp && IsDir(nodes, dp) && !Taken(nodes[dp].ents, name)
      requires nodes[dp].nlink <= MAXLINK
      modifies this`nodes, this`home
      ensures made <==> !fullIn && !fullDp
      ensures !made ==> nodes == old(nodes) && home == old(home)
      ensures made ==> Slot(old(nodes)[dp].ents, off) && nodes == WithDir(old(nodes), ip, dp, off, name)
      ensures made ==> (Valid() <==> Linked(old(nodes), dp) && old(nodes)[dp].nlink < MAXLINK)
      ensures WellNamed(old(nodes)) && Element(name) ==> WellNamed(nodes)
    {
      hide Good;
      hide WellNamed;
      GoodFacts(nodes, home, pend);
      FreeIsProper(nodes, dp, name);
      nodes := nodes[ip := Node(Dir, 1, [])];
      var ents;
      made, off := FillDir(ip, dp, fullIn);
      if made {
        made, ents, off := DirLink(nodes[dp].ents, name, ip, fullDp);
      }
      if !made {
        nodes := Put(nodes[ip := nodes[ip].(nlink := 0)], ip, false);
        return;
      }
      WithDirExactly(old(nodes), home, pend, ip, dp, off, name);
      if WellNamed(old(nodes)) && Element(name) { WithDirNamed(old(nodes), ip, dp, off, name); }
      nodes := nodes[dp := nodes[dp].(ents := ents)];
      nodes := nodes[dp := nodes[dp].(nlink := Wrap16(nodes[dp].nlink + 1))];
      assert nodes == WithDir(old(nodes), ip, dp, off, name);
      home := Seated(home, ip, dp, off);
      GoodIsExact(nodes, home, pend);
    }

    // The two entries of a new directory.
    method FillDir(ip: nat, dp: nat, full: bool) returns (ok: bool, off: nat)
      requires 0 < ip < |nodes| && nodes[ip] == Node(Dir, 1, [])
      modifies this`nodes
      ensures ok <==> !full
      ensures |nodes| == |old(nodes)| && forall i :: 0 <= i < |nodes| && i != ip ==> nodes[i] == old(nodes)[i]
      ensures ok ==> nodes == old(nodes)[ip := Node(Dir, 1, [Entry(ip, "."), Entry(dp, "..")])]
    {
      var ents;
      ok, ents, off := DirLink(nodes[ip].ents, ".", ip, full);
      if !ok { return; }
      assert ents == [Entry(ip, ".")];
      nodes := nodes[ip := nodes[ip].(ents := ents)];
      assert |".."| != |"."| && !Names(ents[0], "..") && ents[1..] == [];
      ok, ents, off := DirLink(nodes[ip].ents, "..", dp, full);
      assert off == 1 && ents == [Entry(ip, "."), Entry(dp, "..")];
      nodes := nodes[ip := nodes[ip].(ents := ents)];
    }

    // ialloc: the first free inode, or the end.
    method Ialloc() returns (i: nat)
      requires Shape(nodes)
      ensures 0 < i <= |nodes| && (i < |nodes| ==> nodes[i] == FREE) && forall j :: 0 < j < i ==> !nodes[j].kind.Free?
    {
      i := 1;
      while i < |nodes| && !nodes[i].kind.Free?
        invariant 1 <= i <= |nodes| && forall j :: 0 < j < i ==> !nodes[j].kind.Free?
      {
        i := i + 1;
      }
    }

    /** ireclaim, at boot when nobody holds an inode: afterwards every allocated inode has a link. */
    method Ireclaim()
      requires Valid()
      modifies this`nodes
      ensures Valid() && |nodes| == |old(nodes)|
      ensures forall i :: 0 <= i < |nodes| && !nodes[i].kind.Free? ==> nodes[i].nlink != 0
      ensures forall i :: 0 <= i < |nodes| ==> nodes[i] == if old(nodes)[i].nlink == 0 then FREE else old(nodes)[i]
      ensures WellNamed(old(nodes)) ==> WellNamed(nodes)
    {
      hide Good;
      hide WellNamed;
      GoodFacts(nodes, home, pend);
      var i := 1;
      while i < |nodes|
        invariant 1 <= i && |nodes| == |old(nodes)| && Valid() && i <= |nodes| && (WellNamed(old(nodes)) ==> WellNamed(nodes))
        invariant forall j :: 0 <= j < i ==> nodes[j] == if old(nodes)[j].nlink == 0 then FREE else old(nodes)[j]
        invariant forall j :: i <= j < |nodes| ==> nodes[j] == old(nodes)[j]
      {
        if !nodes[i].kind.Free? && nodes[i].nlink == 0 {
          PutKeeps(nodes, home, pend, i, false);
          if WellNamed(nodes) { PutNamed(nodes, i, false); }
          nodes := Put(nodes, i, false);
        }
        GoodFacts(nodes, home, pend);
        i := i + 1;
      }
    }
  }
}
