/**
  Link counts: sys_link, sys_unlink and create of kernel/sysfile.c, and iput and ireclaim of
  kernel/fs.c.
 */
module Links {
  import opened Dirs

  const MAXLINK := 32767            // nlink is a 16-bit short

  function Wrap16(n: int): (r: int)
    ensures r == n || r == n - 65536 || r == n + 65536
    ensures -MAXLINK - 1 - 65536 <= n <= MAXLINK + 65536 ==> -MAXLINK - 1 <= r <= MAXLINK
  {
    if n > MAXLINK then n - 65536 else if n < -MAXLINK - 1 then n + 65536 else n
  }

  // A directory that is itself linked into the file system.
  predicate Linked(nodes: seq<Node>, d: int) {
    IsDir(nodes, d) && nodes[d].nlink != 0
  }

  // ----- Counting

  // The entries of a directory other than "." that name inode i.
  function Count(ents: seq<Entry>, i: nat): nat {
    if ents == [] then 0
    else Count(ents[..|ents| - 1], i) + if Refers(ents[|ents| - 1], i) then 1 else 0
  }

  predicate Refers(e: Entry, i: nat) { Live(e) && e.inum == i && e.name != "." }

  // What a node contributes to the link count of i.
  function Weight(node: Node, i: nat): nat {
    if node.kind.Dir? && node.nlink != 0 then Count(node.ents, i) else 0
  }

  // The entries other than "." that name i in linked directories.
  function Total(nodes: seq<Node>, i: nat): nat {
    if nodes == [] then 0 else Total(nodes[..|nodes| - 1], i) + Weight(nodes[|nodes| - 1], i)
  }

  lemma {:induction false} TotalUpdate(nodes: seq<Node>, d: nat, node: Node, i: nat)
    requires d < |nodes|
    ensures Total(nodes[d := node], i) == Total(nodes, i) - Weight(nodes[d], i) + Weight(node, i)
  {
    var n := |nodes| - 1;
    if d < n {
      assert nodes[d := node][..n] == nodes[..n][d := node];
      TotalUpdate(nodes[..n], d, node, i);
    } else {
      assert nodes[d := node][..n] == nodes[..n];
    }
  }

  lemma {:induction false} TotalOnly(nodes: seq<Node>, p: nat, i: nat)
    requires p < |nodes| && forall d :: 0 <= d < |nodes| && d != p ==> Weight(nodes[d], i) == 0
    ensures Total(nodes, i) == Weight(nodes[p], i)
  {
    var n := |nodes| - 1;
    if p < n {
      TotalOnly(nodes[..n], p, i);
    } else {
      TotalNone(nodes[..n], i);
    }
  }

  lemma {:induction false} TotalNone(nodes: seq<Node>, i: nat)
    requires forall d :: 0 <= d < |nodes| ==> Weight(nodes[d], i) == 0
    ensures Total(nodes, i) == 0
  {
    if nodes != [] { TotalNone(nodes[..|nodes| - 1], i); }
  }

  lemma TotalAtLeast(nodes: seq<Node>, a: nat, i: nat)
    requires a < |nodes|
    ensures Weight(nodes[a], i) <= Total(nodes, i)
  {
    TotalUpdate(nodes, a, FREE, i);
  }

  lemma TotalTwo(nodes: seq<Node>, a: nat, b: nat, i: nat)
    requires a < |nodes| && b < |nodes| && a != b
    ensures Weight(nodes[a], i) + Weight(nodes[b], i) <= Total(nodes, i)
  {
    TotalUpdate(nodes, a, FREE, i);
    TotalAtLeast(nodes[a := FREE], b, i);
  }

  lemma {:induction false} CountUpdate(ents: seq<Entry>, k: nat, e: Entry, i: nat)
    requires k < |ents|
    ensures Count(ents[k := e], i) == Count(ents, i) - (if Refers(ents[k], i) then 1 else 0) + (if Refers(e, i) then 1 else 0)
  {
    var n := |ents| - 1;
    if k < n {
      assert ents[k := e][..n] == ents[..n][k := e];
      CountUpdate(ents[..n], k, e, i);
    } else {
      assert ents[k := e][..n] == ents[..n];
    }
  }

  lemma {:induction false} CountNone(ents: seq<Entry>, i: nat)
    requires forall k :: 0 <= k < |ents| ==> !Refers(ents[k], i)
    ensures Count(ents, i) == 0
  {
    if ents != [] { CountNone(ents[..|ents| - 1], i); }
  }

  lemma CountOne(ents: seq<Entry>, k: nat, i: nat)
    requires k < |ents| && Refers(ents[k], i) && forall j :: 0 <= j < |ents| && j != k ==> !Refers(ents[j], i)
    ensures Count(ents, i) == 1
  {
    var e := Entry(0, "");
    CountUpdate(ents, k, e, i);
    CountNone(ents[k := e], i);
  }

  lemma CountSome(ents: seq<Entry>, k: nat, i: nat)
    requires k < |ents| && Refers(ents[k], i)
    ensures Count(ents, i) >= 1
  {
    CountUpdate(ents, k, Entry(0, ""), i);
  }

  // ----- The invariant

  predicate Proper(name: string) { name != "." && name != ".." }

  function Up(node: Node): nat {
    if |node.ents| >= 2 then node.ents[1].inum else 0
  }

  // A directory starts with "." and ".."; an unlinked one holds nothing else.
  ghost predicate GoodDir(nodes: seq<Node>, d: nat)
    requires IsDir(nodes, d)
  {
    var node := nodes[d];
    && |node.ents| >= 2 && node.ents[0] == Entry(d, ".") && node.ents[1].name == ".." && Live(node.ents[1])
    && (forall k :: 2 <= k < |node.ents| && Live(node.ents[k]) ==> Proper(node.ents[k].name) && node.nlink != 0)
    && (forall k :: 0 <= k < |node.ents| ==> node.ents[k].inum < |nodes|)
  }

  ghost predicate Shape(nodes: seq<Node>) {
    && |nodes| > ROOT && nodes[0] == FREE && Linked(nodes, ROOT)
    && (forall d :: IsDir(nodes, d) ==> GoodDir(nodes, d))
    && (forall i :: 0 <= i < |nodes| && nodes[i].kind.Free? ==> nodes[i] == FREE)
    && Up(nodes[ROOT]) == ROOT
  }

  /** Where a linked directory is entered in its parent, and how far down from the root it is. */
  datatype Seat = Seat(at: nat, depth: nat)

  // A linked directory is entered in the directory its ".." names, and nowhere else.
  ghost predicate Tree(nodes: seq<Node>, home: seq<Seat>) {
    && |home| == |nodes| > ROOT && home[ROOT].at == 0
    && (forall d :: Linked(nodes, d) && d != ROOT ==> Homed(nodes, home, d))
    && (forall d, k :: Linked(nodes, d) && 2 <= k < |nodes[d].ents| && IsDir(nodes, nodes[d].ents[k].inum) ==>
          home[nodes[d].ents[k].inum].at == k && Up(nodes[nodes[d].ents[k].inum]) == d)
  }

  ghost predicate Homed(nodes: seq<Node>, home: seq<Seat>, d: nat)
    requires d < |nodes| == |home|
  {
    var up := Up(nodes[d]);
    && Linked(nodes, up) && home[up].depth < home[d].depth
    && 2 <= home[d].at < |nodes[up].ents| && nodes[up].ents[home[d].at].inum == d
  }

  /**
    Each inode's nlink is the number of entries other than "." that name it in linked directories,
    and of the links to it that sys_link has counted and not entered yet.
   */
  ghost predicate Exact(nodes: seq<Node>, pend: seq<nat>) {
    && |pend| == |nodes|
    && forall i :: 0 <= i < |nodes| ==> nodes[i].nlink == Total(nodes, i) + pend[i] && (pend[i] != 0 ==> nodes[i].kind.File?)
  }

  ghost predicate Good(nodes: seq<Node>, home: seq<Seat>, pend: seq<nat>) {
    Shape(nodes) && Tree(nodes, home) && Exact(nodes, pend)
  }

  // ----- Entering a name

  lemma BindCount(ents: seq<Entry>, off: nat, e: Entry, i: nat)
    requires Slot(ents, off)
    ensures Count(Bind(ents, off, e), i) == Count(ents, i) + if Refers(e, i) then 1 else 0
  {
    if off < |ents| {
      CountUpdate(ents, off, e, i);
    } else {
      assert (ents + [e])[..|ents|] == ents;
    }
  }

  function Enter(nodes: seq<Node>, dp: nat, off: nat, e: Entry): seq<Node>
    requires dp < |nodes| && off <= |nodes[dp].ents|
  {
    nodes[dp := nodes[dp].(ents := Bind(nodes[dp].ents, off, e))]
  }

  lemma EnterTotal(nodes: seq<Node>, dp: nat, off: nat, e: Entry, i: nat)
    requires dp < |nodes| && Slot(nodes[dp].ents, off)
    ensures Total(Enter(nodes, dp, off, e), i) == Total(nodes, i) + if Linked(nodes, dp) && Refers(e, i) then 1 else 0
  {
    BindCount(nodes[dp].ents, off, e, i);
    TotalUpdate(nodes, dp, nodes[dp].(ents := Bind(nodes[dp].ents, off, e)), i);
  }

  lemma SlotIsProper(nodes: seq<Node>, dp: nat, off: nat)
    requires Shape(nodes) && IsDir(nodes, dp) && Slot(nodes[dp].ents, off)
    ensures off >= 2
  {
    assert GoodDir(nodes, dp);
  }

  lemma NotZero(nodes: seq<Node>, d: nat)
    requires Shape(nodes) && IsDir(nodes, d)
    ensures d != 0
  {
  }

  // A file is made, or its link count changes.
  lemma SetFile(nodes: seq<Node>, home: seq<Seat>, ip: nat, node: Node)
    requires Shape(nodes) && Tree(nodes, home) && 0 < ip < |nodes| && !nodes[ip].kind.Dir? && node.kind.File?
    ensures Shape(nodes[ip := node]) && Tree(nodes[ip := node], home)
    ensures forall i: nat :: Total(nodes[ip := node], i) == Total(nodes, i)
  {
    var nodes' := nodes[ip := node];
    SetFileShape(nodes, ip, node);
    forall i: nat ensures Total(nodes', i) == Total(nodes, i) { TotalUpdate(nodes, ip, node, i); }
    forall d | Linked(nodes', d) && d != ROOT ensures Homed(nodes', home, d) {
      assert Linked(nodes, d) && Homed(nodes, home, d);
    }
  }

  lemma SetFileShape(nodes: seq<Node>, ip: nat, node: Node)
    requires Shape(nodes) && 0 < ip < |nodes| && !nodes[ip].kind.Dir? && node.kind.File?
    ensures Shape(nodes[ip := node])
  {
    var nodes' := nodes[ip := node];
    forall d | IsDir(nodes', d) ensures GoodDir(nodes', d) { assert GoodDir(nodes, d); }
  }

  lemma EnterShape(nodes: seq<Node>, dp: nat, off: nat, e: Entry)
    requires Shape(nodes) && Linked(nodes, dp) && Slot(nodes[dp].ents, off) && Proper(e.name) && e.inum < |nodes|
    ensures Shape(Enter(nodes, dp, off, e))
  {
    SlotIsProper(nodes, dp, off);
    var nodes' := Enter(nodes, dp, off, e);
    forall d | IsDir(nodes', d) ensures GoodDir(nodes', d) { assert GoodDir(nodes, d); }
  }

  lemma EnterHomed(nodes: seq<Node>, home: seq<Seat>, dp: nat, off: nat, e: Entry, d: nat)
    requires Shape(nodes) && Tree(nodes, home) && Linked(nodes, dp) && Slot(nodes[dp].ents, off)
    requires Linked(nodes, d) && d != ROOT
    ensures Linked(Enter(nodes, dp, off, e), d) && Homed(Enter(nodes, dp, off, e), home, d)
  {
    hide Shape;
    assert Homed(nodes, home, d);
    SlotIsProper(nodes, dp, off);
    NotZero(nodes, d);
  }

  // A directory that has gained an entry for a file keeps the tree.
  lemma EnterTree(nodes: seq<Node>, home: seq<Seat>, dp: nat, off: nat, e: Entry)
    requires Shape(nodes) && Tree(nodes, home) && Linked(nodes, dp) && Slot(nodes[dp].ents, off)
    requires Proper(e.name) && e.inum < |nodes| && !IsDir(nodes, e.inum)
    ensures Shape(Enter(nodes, dp, off, e)) && Tree(Enter(nodes, dp, off, e), home)
  {
    hide Homed;
    EnterShape(nodes, dp, off, e);
    SlotIsProper(nodes, dp, off);
    var nodes' := Enter(nodes, dp, off, e);
    forall d | Linked(nodes', d) && d != ROOT ensures Homed(nodes', home, d) {
      assert Linked(nodes, d);
      EnterHomed(nodes, home, dp, off, e, d);
    }
    forall d, k | Linked(nodes', d) && 2 <= k < |nodes'[d].ents| && IsDir(nodes', nodes'[d].ents[k].inum)
      ensures home[nodes'[d].ents[k].inum].at == k && Up(nodes'[nodes'[d].ents[k].inum]) == d
    {
      EnterEntry(nodes, home, dp, off, e, d, k);
    }
  }

  lemma EnterEntry(nodes: seq<Node>, home: seq<Seat>, dp: nat, off: nat, e: Entry, d: nat, k: nat)
    requires Shape(nodes) && Tree(nodes, home) && Linked(nodes, dp) && Slot(nodes[dp].ents, off) && off >= 2 && !IsDir(nodes, e.inum)
    requires var nodes' := Enter(nodes, dp, off, e);
      Shape(nodes') && Linked(nodes', d) && 2 <= k < |nodes'[d].ents| && IsDir(nodes', nodes'[d].ents[k].inum)
    ensures var nodes' := Enter(nodes, dp, off, e);
      home[nodes'[d].ents[k].inum].at == k && Up(nodes'[nodes'[d].ents[k].inum]) == d
  {
    var nodes' := Enter(nodes, dp, off, e);
    assert Linked(nodes, d) && (d != dp || k != off);
    assert nodes'[d].ents[k] == nodes[d].ents[k];
    var x := nodes[d].ents[k].inum;
    assert IsDir(nodes, x) && home[x].at == k && Up(nodes[x]) == d;
    assert GoodDir(nodes, x);
  }

  /** One more link to a file, counted before its name is entered, keeps the counts exact. */
  lemma CountedKeeps(nodes: seq<Node>, home: seq<Seat>, pend: seq<nat>, ip: nat, node: Node)
    requires Good(nodes, home, pend) && 0 < ip < |nodes| && !nodes[ip].kind.Dir? && node.kind.File? && node.nlink == nodes[ip].nlink + 1
    ensures Good(nodes[ip := node], home, pend[ip := pend[ip] + 1])
  {
    hide Tree;
    SetFile(nodes, home, ip, node);
  }

  // sys_link: the link is counted.
  function Raised(nodes: seq<Node>, ip: nat): seq<Node>
    requires ip < |nodes|
  {
    nodes[ip := nodes[ip].(nlink := Wrap16(nodes[ip].nlink + 1))]
  }

  /** Counting a link keeps the counts exact if and only if the count fits its 16 bits. */
  lemma RaisedExactly(nodes: seq<Node>, home: seq<Seat>, pend: seq<nat>, ip: nat)
    requires Good(nodes, home, pend) && 0 < ip < |nodes| && nodes[ip].kind.File? && nodes[ip].nlink <= MAXLINK
    ensures nodes[ip].nlink < MAXLINK ==> Good(Raised(nodes, ip), home, pend[ip := pend[ip] + 1])
    ensures nodes[ip].nlink == MAXLINK ==> forall p :: !Exact(Raised(nodes, ip), p)
  {
    hide Tree;
    if nodes[ip].nlink < MAXLINK {
      CountedKeeps(nodes, home, pend, ip, Raised(nodes, ip)[ip]);
    } else {
      assert Raised(nodes, ip)[ip].nlink < 0;
    }
  }

  /** Entering the name of a counted link keeps the counts exact if and only if the directory is itself linked. */
  lemma EnterExactly(nodes: seq<Node>, home: seq<Seat>, pend: seq<nat>, ip: nat, dp: nat, off: nat, name: Name)
    requires Good(nodes, home, pend) && 0 < ip < |nodes| && pend[ip] > 0
    requires IsDir(nodes, dp) && Slot(nodes[dp].ents, off) && Proper(name)
    ensures Linked(nodes, dp) ==> Good(Enter(nodes, dp, off, Entry(ip, name)), home, pend[ip := pend[ip] - 1])
    ensures !Linked(nodes, dp) ==> !Exact(Enter(nodes, dp, off, Entry(ip, name)), pend[ip := pend[ip] - 1])
  {
    hide Tree;
    var nodes' := Enter(nodes, dp, off, Entry(ip, name));
    forall i: nat ensures Total(nodes', i) == Total(nodes, i) + if Linked(nodes, dp) && i == ip then 1 else 0 {
      EnterTotal(nodes, dp, off, Entry(ip, name), i);
    }
    if Linked(nodes, dp) { EnterTree(nodes, home, dp, off, Entry(ip, name)); }
  }

  /** The failure path of sys_link takes back the count. */
  lemma DroppedKeeps(nodes: seq<Node>, home: seq<Seat>, pend: seq<nat>, ip: nat)
    requires Good(nodes, home, pend) && 0 < ip < |nodes| && pend[ip] > 0
    ensures Good(nodes[ip := nodes[ip].(nlink := nodes[ip].nlink - 1)], home, pend[ip := pend[ip] - 1])
  {
    hide Tree;
    SetFile(nodes, home, ip, nodes[ip].(nlink := nodes[ip].nlink - 1));
  }

  // A file whose count has been set gets its name, as create and an undisturbed sys_link do.
  function WithFile(nodes: seq<Node>, ip: nat, node: Node, dp: nat, off: nat, name: Name): seq<Node>
    requires ip < |nodes| && dp < |nodes| && ip != dp && off <= |nodes[dp].ents|
  {
    Enter(nodes[ip := node], dp, off, Entry(ip, name))
  }

  /** A new name for a file keeps the counts exact if and only if the directory is itself linked. */
  lemma WithFileExactly(nodes: seq<Node>, home: seq<Seat>, pend: seq<nat>, ip: nat, node: Node, dp: nat, off: nat, name: Name)
    requires Good(nodes, home, pend) && 0 < ip < |nodes| && !nodes[ip].kind.Dir? && node.kind.File? && node.nlink == nodes[ip].nlink + 1
    requires IsDir(nodes, dp) && Slot(nodes[dp].ents, off) && Proper(name)
    ensures Linked(nodes, dp) ==> Good(WithFile(nodes, ip, node, dp, off, name), home, pend)
    ensures !Linked(nodes, dp) ==> !Exact(WithFile(nodes, ip, node, dp, off, name), pend)
  {
    hide Good;
    hide Exact;
    assert |pend| == |nodes| by { GoodFacts(nodes, home, pend); }
    CountedKeeps(nodes, home, pend, ip, node);
    var pend1 := pend[ip := pend[ip] + 1];
    EnterExactly(nodes[ip := node], home, pend1, ip, dp, off, name);
    assert pend1[ip := pend1[ip] - 1] == pend;
  }

  lemma GoodFacts(nodes: seq<Node>, home: seq<Seat>, pend: seq<nat>)
    requires Good(nodes, home, pend)
    ensures Shape(nodes) && |home| == |nodes| == |pend|
  {
  }

  // ----- Making a directory

  function WithDir(nodes: seq<Node>, ip: nat, dp: nat, off: nat, name: Name): (r: seq<Node>)
    requires ip < |nodes| && dp < |nodes| && ip != dp && off <= |nodes[dp].ents|
    ensures |r| == |nodes| && r[ip] == Node(Dir, 1, [Entry(ip, "."), Entry(dp, "..")])
    ensures forall d :: 0 <= d < |nodes| && d != ip && d != dp ==> r[d] == nodes[d]
    ensures r[dp] == Node(nodes[dp].kind, Wrap16(nodes[dp].nlink + 1), Bind(nodes[dp].ents, off, Entry(ip, name)))
  {
    var nodes1 := Enter(nodes[ip := Node(Dir, 1, [Entry(ip, "."), Entry(dp, "..")])], dp, off, Entry(ip, name));
    nodes1[dp := nodes1[dp].(nlink := Wrap16(nodes1[dp].nlink + 1))]
  }

  // No entry of a linked directory names an inode whose count is 0.
  lemma Unnamed(nodes: seq<Node>, pend: seq<nat>, i: nat, d: nat, k: nat)
    requires Exact(nodes, pend) && i < |nodes| && nodes[i].nlink == 0 && Linked(nodes, d) && k < |nodes[d].ents|
    ensures !Refers(nodes[d].ents[k], i)
  {
    if Refers(nodes[d].ents[k], i) {
      CountSome(nodes[d].ents, k, i);
      TotalAtLeast(nodes, d, i);
    }
  }

  lemma NewCount(ip: nat, dp: nat, i: nat)
    requires dp != 0
    ensures Count([Entry(ip, "."), Entry(dp, "..")], i) == if i == dp then 1 else 0
  {
    var one, es := [Entry(ip, ".")], [Entry(ip, "."), Entry(dp, "..")];
    assert es[..1] == one && one[..0] == [] && |".."| != |"."|;
    assert Count(one, i) == Count(one[..0], i) == 0;
  }

  lemma WithDirTotal(nodes: seq<Node>, ip: nat, dp: nat, off: nat, name: Name, i: nat)
    requires 0 < ip < |nodes| && nodes[ip] == FREE && 0 < dp && Linked(nodes, dp) && Slot(nodes[dp].ents, off) && Proper(name)
    requires 0 < nodes[dp].nlink < MAXLINK
    ensures Total(WithDir(nodes, ip, dp, off, name), i) == Total(nodes, i) + (if i == ip then 1 else 0) + (if i == dp then 1 else 0)
  {
    var nodes1 := nodes[ip := Node(Dir, 1, [Entry(ip, "."), Entry(dp, "..")])];
    TotalUpdate(nodes, ip, nodes1[ip], i);
    NewCount(ip, dp, i);
    var nodes2 := Enter(nodes1, dp, off, Entry(ip, name));
    EnterTotal(nodes1, dp, off, Entry(ip, name), i);
    TotalUpdate(nodes2, dp, nodes2[dp].(nlink := nodes[dp].nlink + 1), i);
  }

  lemma WithDirShape(nodes: seq<Node>, ip: nat, dp: nat, off: nat, name: Name)
    requires Shape(nodes) && 0 < ip < |nodes| && nodes[ip] == FREE && Linked(nodes, dp) && Slot(nodes[dp].ents, off) && Proper(name)
    requires 0 < nodes[dp].nlink < MAXLINK
    ensures Shape(WithDir(nodes, ip, dp, off, name))
  {
    SlotIsProper(nodes, dp, off);
    var nodes' := WithDir(nodes, ip, dp, off, name);
    forall d | IsDir(nodes', d) ensures GoodDir(nodes', d) {
      if d != ip { assert GoodDir(nodes, d); }
    }
  }

  ghost predicate CanMake(nodes: seq<Node>, ip: nat, dp: nat, off: nat, name: Name) {
    && 0 < ip < |nodes| && nodes[ip] == FREE && Linked(nodes, dp) && Slot(nodes[dp].ents, off) && Proper(name)
    && 0 < nodes[dp].nlink < MAXLINK
  }

  // The seats once the directory ip is entered in dp.
  function Seated(home: seq<Seat>, ip: nat, dp: nat, off: nat): seq<Seat>
    requires ip < |home| && dp < |home|
  {
    home[ip := Seat(off, home[dp].depth + 1)]
  }

  lemma WithDirHomed(nodes: seq<Node>, home: seq<Seat>, ip: nat, dp: nat, off: nat, name: Name, d: nat)
    requires Shape(nodes) && Tree(nodes, home) && CanMake(nodes, ip, dp, off, name)
    requires Shape(WithDir(nodes, ip, dp, off, name)) && Linked(WithDir(nodes, ip, dp, off, name), d) && d != ROOT
    ensures Homed(WithDir(nodes, ip, dp, off, name), Seated(home, ip, dp, off), d)
  {
    hide Shape;
    SlotIsProper(nodes, dp, off);
    if d != ip {
      assert Linked(nodes, d) && Homed(nodes, home, d);
      NotZero(nodes, d);
    }
  }

  lemma WithDirEntry(nodes: seq<Node>, home: seq<Seat>, pend: seq<nat>, ip: nat, dp: nat, off: nat, name: Name, d: nat, k: nat)
    requires Good(nodes, home, pend) && CanMake(nodes, ip, dp, off, name) && Shape(WithDir(nodes, ip, dp, off, name))
    requires var nodes' := WithDir(nodes, ip, dp, off, name);
      Linked(nodes', d) && 2 <= k < |nodes'[d].ents| && IsDir(nodes', nodes'[d].ents[k].inum)
    ensures var nodes' := WithDir(nodes, ip, dp, off, name);
      Seated(home, ip, dp, off)[nodes'[d].ents[k].inum].at == k && Up(nodes'[nodes'[d].ents[k].inum]) == d
  {
    hide Exact;
    var nodes' := WithDir(nodes, ip, dp, off, name);
    if d != dp || k != off {
      assert Linked(nodes, d) && GoodDir(nodes, d);
      assert nodes'[d].ents[k] == nodes[d].ents[k];
      var x := nodes[d].ents[k].inum;
      Unnamed(nodes, pend, ip, d, k);
      if x != ip {
        assert IsDir(nodes, x) && home[x].at == k && Up(nodes[x]) == d;
        assert GoodDir(nodes, x);
      }
    }
  }

  lemma WithDirTree(nodes: seq<Node>, home: seq<Seat>, pend: seq<nat>, ip: nat, dp: nat, off: nat, name: Name)
    requires Good(nodes, home, pend) && CanMake(nodes, ip, dp, off, name)
    ensures Shape(WithDir(nodes, ip, dp, off, name)) && Tree(WithDir(nodes, ip, dp, off, name), Seated(home, ip, dp, off))
  {
    hide Exact;
    WithDirShape(nodes, ip, dp, off, name);
    var nodes', home' := WithDir(nodes, ip, dp, off, name), Seated(home, ip, dp, off);
    forall d | Linked(nodes', d) && d != ROOT ensures Homed(nodes', home', d) {
      WithDirHomed(nodes, home, ip, dp, off, name, d);
    }
    forall d, k | Linked(nodes', d) && 2 <= k < |nodes'[d].ents| && IsDir(nodes', nodes'[d].ents[k].inum)
      ensures home'[nodes'[d].ents[k].inum].at == k && Up(nodes'[nodes'[d].ents[k].inum]) == d
    {
      WithDirEntry(nodes, home, pend, ip, dp, off, name, d, k);
    }
  }

  /** mkdir keeps the counts exact if and only if the directory is linked and its count has room. */
  lemma WithDirExactly(nodes: seq<Node>, home: seq<Seat>, pend: seq<nat>, ip: nat, dp: nat, off: nat, name: Name)
    requires Good(nodes, home, pend) && 0 < ip < |nodes| && nodes[ip] == FREE
    requires IsDir(nodes, dp) && Slot(nodes[dp].ents, off) && Proper(name) && nodes[dp].nlink <= MAXLINK
    ensures Linked(nodes, dp) && nodes[dp].nlink < MAXLINK ==> Good(WithDir(nodes, ip, dp, off, name), Seated(home, ip, dp, off), pend)
    ensures !(Linked(nodes, dp) && nodes[dp].nlink < MAXLINK) ==> !Exact(WithDir(nodes, ip, dp, off, name), pend)
  {
    var nodes' := WithDir(nodes, ip, dp, off, name);
    assert nodes[dp].nlink == Total(nodes, dp);
    if Linked(nodes, dp) && nodes[dp].nlink < MAXLINK {
      WithDirTree(nodes, home, pend, ip, dp, off, name);
      forall i | 0 <= i < |nodes'| ensures nodes'[i].nlink == Total(nodes', i) + pend[i] {
        WithDirTotal(nodes, ip, dp, off, name, i);
      }
    } else if nodes[dp].nlink == MAXLINK {
      assert nodes'[dp].nlink < 0;
    } else {
      Adrift(nodes, home, pend, ip, dp, off, name);
    }
  }

  // A directory made inside an unlinked one makes that one count again: the link count of what
  // its ".." names is then too small.
  lemma Adrift(nodes: seq<Node>, home: seq<Seat>, pend: seq<nat>, ip: nat, dp: nat, off: nat, name: Name)
    requires Good(nodes, home, pend) && 0 < ip < |nodes| && nodes[ip] == FREE
    requires IsDir(nodes, dp) && nodes[dp].nlink == 0 && Slot(nodes[dp].ents, off) && Proper(name)
    ensures |nodes[dp].ents| >= 2 && Up(nodes[dp]) < |nodes|
    ensures var nodes', u := WithDir(nodes, ip, dp, off, name), Up(nodes[dp]);
      nodes'[u].nlink < Total(nodes', u) + pend[u]
  {
    var nodes', u := WithDir(nodes, ip, dp, off, name), Up(nodes[dp]);
    assert GoodDir(nodes, dp);
    assert nodes[u].nlink == Total(nodes, u) + pend[u];
    var nodes1 := nodes[ip := nodes'[ip]];
    TotalUpdate(nodes, ip, nodes'[ip], u);
    NewCount(ip, dp, u);
    TotalUpdate(nodes1, dp, nodes'[dp], u);
    assert nodes' == nodes1[dp := nodes'[dp]];
    BindCount(nodes[dp].ents, off, Entry(ip, name), u);
    CountSome(nodes[dp].ents, 1, u);
  }

  // ----- Removing a name

  const GONE := Entry(0, "")

  lemma ClearTotal(nodes: seq<Node>, dp: nat, off: nat, i: nat)
    requires dp < |nodes| && off < |nodes[dp].ents|
    ensures Total(nodes[dp := nodes[dp].(ents := nodes[dp].ents[off := GONE])], i)
      == Total(nodes, i) - if Linked(nodes, dp) && Refers(nodes[dp].ents[off], i) then 1 else 0
  {
    CountUpdate(nodes[dp].ents, off, GONE, i);
    TotalUpdate(nodes, dp, nodes[dp].(ents := nodes[dp].ents[off := GONE]), i);
  }

  // sys_unlink of a file
  function WithoutFile(nodes: seq<Node>, dp: nat, off: nat): (r: seq<Node>)
    requires dp < |nodes| && off < |nodes[dp].ents| && nodes[dp].ents[off].inum < |nodes| && nodes[dp].ents[off].inum != dp
  {
    var ip := nodes[dp].ents[off].inum;
    nodes[dp := nodes[dp].(ents := nodes[dp].ents[off := GONE])][ip := nodes[ip].(nlink := nodes[ip].nlink - 1)]
  }

  // The entry to be removed: a proper one, live.
  ghost predicate CanClear(nodes: seq<Node>, dp: nat, off: nat)
    requires Shape(nodes)
  {
    IsDir(nodes, dp) && 2 <= off < |nodes[dp].ents| && Live(nodes[dp].ents[off])
  }

  // The panic of sys_unlink cannot happen: what a live entry names has a link.
  lemma NamedHasLink(nodes: seq<Node>, home: seq<Seat>, pend: seq<nat>, dp: nat, off: nat)
    requires Good(nodes, home, pend) && CanClear(nodes, dp, off)
    ensures Linked(nodes, dp) && 0 < nodes[dp].ents[off].inum < |nodes| && nodes[nodes[dp].ents[off].inum].nlink >= 1
  {
    assert GoodDir(nodes, dp);
    var ip := nodes[dp].ents[off].inum;
    CountSome(nodes[dp].ents, off, ip);
    TotalAtLeast(nodes, dp, ip);
  }

  /** What a linked directory names, "." and ".." included, is allocated, and linked if it is a directory. */
  lemma NamedByLinked(nodes: seq<Node>, home: seq<Seat>, pend: seq<nat>, d: nat, k: nat)
    requires Good(nodes, home, pend) && IsDir(nodes, d) && k < |nodes[d].ents| && Live(nodes[d].ents[k])
    ensures Linked(nodes, d) ==> Allocated(nodes, nodes[d].ents[k].inum)
    ensures Linked(nodes, d) && IsDir(nodes, nodes[d].ents[k].inum) ==> Linked(nodes, nodes[d].ents[k].inum)
  {
    hide Exact;
    assert GoodDir(nodes, d);
    if k >= 2 {
      NamedHasLink(nodes, home, pend, d, k);
    } else if Linked(nodes, d) && d != ROOT {
      assert Homed(nodes, home, d);
    }
  }

  /** Removing a name of a file keeps the counts exact. */
  lemma WithoutFileKeeps(nodes: seq<Node>, home: seq<Seat>, pend: seq<nat>, dp: nat, off: nat)
    requires Good(nodes, home, pend) && CanClear(nodes, dp, off)
    requires var ip := nodes[dp].ents[off].inum; ip < |nodes| && nodes[ip].kind.File?
    ensures Good(WithoutFile(nodes, dp, off), home, pend)
  {
    hide Tree;
    var ip := nodes[dp].ents[off].inum;
    NamedHasLink(nodes, home, pend, dp, off);
    var nodes1 := nodes[dp := nodes[dp].(ents := nodes[dp].ents[off := GONE])];
    ClearTree(nodes, home, dp, off);
    SetFile(nodes1, home, ip, nodes[ip].(nlink := nodes[ip].nlink - 1));
    var nodes' := WithoutFile(nodes, dp, off);
    assert nodes' == nodes1[ip := nodes[ip].(nlink := nodes[ip].nlink - 1)];
    assert GoodDir(nodes, dp);
    forall i | 0 <= i < |nodes'| ensures nodes'[i].nlink == Total(nodes', i) + pend[i] {
      ClearTotal(nodes, dp, off, i);
    }
  }

  lemma ClearShape(nodes: seq<Node>, dp: nat, off: nat)
    requires Shape(nodes) && CanClear(nodes, dp, off)
    ensures Shape(nodes[dp := nodes[dp].(ents := nodes[dp].ents[off := GONE])])
  {
    var nodes' := nodes[dp := nodes[dp].(ents := nodes[dp].ents[off := GONE])];
    forall d | IsDir(nodes', d) ensures GoodDir(nodes', d) { assert GoodDir(nodes, d); }
  }

  lemma ClearTree(nodes: seq<Node>, home: seq<Seat>, dp: nat, off: nat)
    requires Shape(nodes) && Tree(nodes, home) && CanClear(nodes, dp, off) && !IsDir(nodes, nodes[dp].ents[off].inum)
    ensures var nodes' := nodes[dp := nodes[dp].(ents := nodes[dp].ents[off := GONE])]; Shape(nodes') && Tree(nodes', home)
  {
    ClearShape(nodes, dp, off);
    var nodes' := nodes[dp := nodes[dp].(ents := nodes[dp].ents[off := GONE])];
    forall d | Linked(nodes', d) && d != ROOT ensures Homed(nodes', home, d) {
      assert Linked(nodes, d) && Homed(nodes, home, d) && GoodDir(nodes, d);
    }
    forall d, k | Linked(nodes', d) && 2 <= k < |nodes'[d].ents| && IsDir(nodes', nodes'[d].ents[k].inum)
      ensures home[nodes'[d].ents[k].inum].at == k && Up(nodes'[nodes'[d].ents[k].inum]) == d
    {
      assert Linked(nodes, d) && (d != dp || k != off);
      assert nodes'[d].ents[k] == nodes[d].ents[k];
    }
  }

  // ----- Removing a directory

  // isdirempty
  predicate Empty(node: Node) {
    forall k :: 2 <= k < |node.ents| ==> !Live(node.ents[k])
  }

  ghost predicate CanRemove(nodes: seq<Node>, home: seq<Seat>, pend: seq<nat>, dp: nat, off: nat)
  {
    && Good(nodes, home, pend) && CanClear(nodes, dp, off)
    && IsDir(nodes, nodes[dp].ents[off].inum) && Empty(nodes[nodes[dp].ents[off].inum])
  }

  // No linked directory has an empty one for its parent.
  lemma NoneBelow(nodes: seq<Node>, home: seq<Seat>, d: nat, x: nat)
    requires Shape(nodes) && Tree(nodes, home) && IsDir(nodes, d) && Empty(nodes[d]) && Linked(nodes, x) && x != ROOT
    ensures Up(nodes[x]) != d
  {
    assert Homed(nodes, home, x);
    assert GoodDir(nodes, x);
  }

  lemma RemoveFacts(nodes: seq<Node>, home: seq<Seat>, pend: seq<nat>, dp: nat, off: nat)
    requires CanRemove(nodes, home, pend, dp, off)
    ensures var d := nodes[dp].ents[off].inum;
      d != dp && d != ROOT && Linked(nodes, dp) && Linked(nodes, d) && Up(nodes[d]) == dp && home[d].at == off
  {
    hide Exact;
    var d := nodes[dp].ents[off].inum;
    NamedHasLink(nodes, home, pend, dp, off);
    assert GoodDir(nodes, dp) && GoodDir(nodes, d);
    assert home[d].at == off && Up(nodes[d]) == dp;
  }

  // In directory x, only the entry being removed refers to the empty directory d.
  lemma OnlyEntry(nodes: seq<Node>, home: seq<Seat>, pend: seq<nat>, dp: nat, off: nat, x: nat, k: nat)
    requires CanRemove(nodes, home, pend, dp, off) && Linked(nodes, x) && k < |nodes[x].ents|
    requires Refers(nodes[x].ents[k], nodes[dp].ents[off].inum)
    ensures x == dp && k == off
  {
    hide Exact;
    var d := nodes[dp].ents[off].inum;
    RemoveFacts(nodes, home, pend, dp, off);
    assert GoodDir(nodes, x);
    if k == 1 {
      if x != ROOT { NoneBelow(nodes, home, d, x); }
    }
  }

  /** An empty directory has exactly one link, the entry in its parent. */
  lemma EmptyHasOne(nodes: seq<Node>, home: seq<Seat>, pend: seq<nat>, dp: nat, off: nat)
    requires CanRemove(nodes, home, pend, dp, off)
    ensures nodes[nodes[dp].ents[off].inum].nlink == 1
  {
    var d := nodes[dp].ents[off].inum;
    RemoveFacts(nodes, home, pend, dp, off);
    forall x | 0 <= x < |nodes| && x != dp ensures Weight(nodes[x], d) == 0 {
      if Linked(nodes, x) {
        forall k | 0 <= k < |nodes[x].ents| ensures !Refers(nodes[x].ents[k], d) {
          if Refers(nodes[x].ents[k], d) { OnlyEntry(nodes, home, pend, dp, off, x, k); }
        }
        CountNone(nodes[x].ents, d);
      }
    }
    forall k | 0 <= k < |nodes[dp].ents| && k != off ensures !Refers(nodes[dp].ents[k], d) {
      if Refers(nodes[dp].ents[k], d) { OnlyEntry(nodes, home, pend, dp, off, dp, k); }
    }
    assert GoodDir(nodes, dp);
    CountOne(nodes[dp].ents, off, d);
    TotalOnly(nodes, dp, d);
  }

  // Its parent stays linked without it.
  lemma ParentHasTwo(nodes: seq<Node>, home: seq<Seat>, pend: seq<nat>, dp: nat, off: nat)
    requires CanRemove(nodes, home, pend, dp, off)
    ensures nodes[dp].nlink >= 2
  {
    var d := nodes[dp].ents[off].inum;
    RemoveFacts(nodes, home, pend, dp, off);
    assert GoodDir(nodes, d) && GoodDir(nodes, dp);
    CountSome(nodes[d].ents, 1, dp);
    var x, k := if dp == ROOT then ROOT else Up(nodes[dp]), if dp == ROOT then 1 else home[dp].at;
    if dp != ROOT {
      assert Homed(nodes, home, dp);
      NoneBelow(nodes, home, d, dp);
    }
    assert GoodDir(nodes, x);
    CountSome(nodes[x].ents, k, dp);
    TotalTwo(nodes, d, x, dp);
  }

  // sys_unlink of a directory
  function WithoutDir(nodes: seq<Node>, dp: nat, off: nat): (r: seq<Node>)
    requires dp < |nodes| && off < |nodes[dp].ents| && nodes[dp].ents[off].inum < |nodes| && nodes[dp].ents[off].inum != dp
    ensures |r| == |nodes|
  {
    var d := nodes[dp].ents[off].inum;
    nodes[dp := nodes[dp].(ents := nodes[dp].ents[off := GONE], nlink := nodes[dp].nlink - 1)][d := nodes[d].(nlink := nodes[d].nlink - 1)]
  }

  lemma WithoutDirTotal(nodes: seq<Node>, home: seq<Seat>, pend: seq<nat>, dp: nat, off: nat, i: nat)
    requires CanRemove(nodes, home, pend, dp, off) && nodes[dp].ents[off].inum != dp
    ensures var d := nodes[dp].ents[off].inum;
      Total(WithoutDir(nodes, dp, off), i) == Total(nodes, i) - (if i == d then 1 else 0) - (if i == dp then 1 else 0)
  {
    var d := nodes[dp].ents[off].inum;
    RemoveFacts(nodes, home, pend, dp, off);
    EmptyHasOne(nodes, home, pend, dp, off);
    ParentHasTwo(nodes, home, pend, dp, off);
    assert GoodDir(nodes, dp) && GoodDir(nodes, d);
    var dirs := nodes[dp].(ents := nodes[dp].ents[off := GONE], nlink := nodes[dp].nlink - 1);
    CountUpdate(nodes[dp].ents, off, GONE, i);
    TotalUpdate(nodes, dp, dirs, i);
    TotalUpdate(nodes[dp := dirs], d, nodes[d].(nlink := 0), i);
    EmptyCount(nodes[d], i);
  }

  lemma EmptyCount(node: Node, i: nat)
    requires |node.ents| >= 2 && node.ents[0].name == "." && node.ents[1].name == ".." && Live(node.ents[1]) && Empty(node)
    ensures Count(node.ents, i) == if i == Up(node) then 1 else 0
  {
    assert |".."| != |"."|;
    if i == Up(node) { CountOne(node.ents, 1, i); } else { CountNone(node.ents, i); }
  }

  lemma WithoutDirShape(nodes: seq<Node>, home: seq<Seat>, pend: seq<nat>, dp: nat, off: nat)
    requires CanRemove(nodes, home, pend, dp, off) && nodes[dp].ents[off].inum != dp
    ensures Shape(WithoutDir(nodes, dp, off))
  {
    hide Exact;
    hide Tree;
    RemoveFacts(nodes, home, pend, dp, off);
    ParentHasTwo(nodes, home, pend, dp, off);
    var nodes' := WithoutDir(nodes, dp, off);
    forall x | IsDir(nodes', x) ensures GoodDir(nodes', x) { assert GoodDir(nodes, x); }
  }

  lemma WithoutDirHomed(nodes: seq<Node>, home: seq<Seat>, pend: seq<nat>, dp: nat, off: nat, x: nat)
    requires CanRemove(nodes, home, pend, dp, off) && nodes[dp].ents[off].inum != dp && Shape(WithoutDir(nodes, dp, off))
    requires Linked(WithoutDir(nodes, dp, off), x) && x != ROOT
    ensures Homed(WithoutDir(nodes, dp, off), home, x)
  {
    hide Exact;
    hide Shape;
    RemoveFacts(nodes, home, pend, dp, off);
    EmptyHasOne(nodes, home, pend, dp, off);
    ParentHasTwo(nodes, home, pend, dp, off);
    assert Linked(nodes, x) && Homed(nodes, home, x);
    NoneBelow(nodes, home, nodes[dp].ents[off].inum, x);
  }

  lemma WithoutDirEntry(nodes: seq<Node>, home: seq<Seat>, pend: seq<nat>, dp: nat, off: nat, x: nat, k: nat)
    requires CanRemove(nodes, home, pend, dp, off) && nodes[dp].ents[off].inum != dp && Shape(WithoutDir(nodes, dp, off))
    requires var nodes' := WithoutDir(nodes, dp, off);
      Linked(nodes', x) && 2 <= k < |nodes'[x].ents| && IsDir(nodes', nodes'[x].ents[k].inum)
    ensures var nodes' := WithoutDir(nodes, dp, off);
      home[nodes'[x].ents[k].inum].at == k && Up(nodes'[nodes'[x].ents[k].inum]) == x
  {
    hide Exact;
    var nodes' := WithoutDir(nodes, dp, off);
    RemoveFacts(nodes, home, pend, dp, off);
    assert Linked(nodes, x) && (x != dp || k != off);
    assert nodes'[x].ents[k] == nodes[x].ents[k];
    var y := nodes[x].ents[k].inum;
    assert IsDir(nodes, y) && home[y].at == k && Up(nodes[y]) == x;
    assert GoodDir(nodes, y);
  }

  lemma WithoutDirTree(nodes: seq<Node>, home: seq<Seat>, pend: seq<nat>, dp: nat, off: nat)
    requires CanRemove(nodes, home, pend, dp, off) && nodes[dp].ents[off].inum != dp
    ensures Shape(WithoutDir(nodes, dp, off)) && Tree(WithoutDir(nodes, dp, off), home)
  {
    hide Exact;
    WithoutDirShape(nodes, home, pend, dp, off);
    var nodes' := WithoutDir(nodes, dp, off);
    forall x | Linked(nodes', x) && x != ROOT ensures Homed(nodes', home, x) {
      WithoutDirHomed(nodes, home, pend, dp, off, x);
    }
    forall x, k | Linked(nodes', x) && 2 <= k < |nodes'[x].ents| && IsDir(nodes', nodes'[x].ents[k].inum)
      ensures home[nodes'[x].ents[k].inum].at == k && Up(nodes'[nodes'[x].ents[k].inum]) == x
    {
      WithoutDirEntry(nodes, home, pend, dp, off, x, k);
    }
  }

  /** Removing an empty directory keeps the counts exact, its own and its parent's. */
  lemma WithoutDirKeeps(nodes: seq<Node>, home: seq<Seat>, pend: seq<nat>, dp: nat, off: nat)
    requires CanRemove(nodes, home, pend, dp, off)
    ensures nodes[dp].ents[off].inum != dp && Good(WithoutDir(nodes, dp, off), home, pend)
    ensures WithoutDir(nodes, dp, off)[dp].nlink >= 1
  {
    RemoveFacts(nodes, home, pend, dp, off);
    ParentHasTwo(nodes, home, pend, dp, off);
    WithoutDirTree(nodes, home, pend, dp, off);
    var nodes' := WithoutDir(nodes, dp, off);
    forall i | 0 <= i < |nodes'| ensures nodes'[i].nlink == Total(nodes', i) + pend[i] {
      WithoutDirTotal(nodes, home, pend, dp, off, i);
    }
  }

  // ----- iput

  // Free an inode that has no links, unless somebody still holds it.
  function Put(nodes: seq<Node>, i: nat, held: bool): seq<Node>
    requires i < |nodes|
  {
    if nodes[i].nlink == 0 && !held then nodes[i := FREE] else nodes
  }

  lemma PutKeeps(nodes: seq<Node>, home: seq<Seat>, pend: seq<nat>, i: nat, held: bool)
    requires Good(nodes, home, pend) && i < |nodes|
    ensures Good(Put(nodes, i, held), home, pend)
  {
    var nodes' := Put(nodes, i, held);
    if nodes[i].nlink == 0 && !held {
      PutTree(nodes, home, i);
      forall j | 0 <= j < |nodes'| ensures nodes'[j].nlink == Total(nodes', j) + pend[j] {
        TotalUpdate(nodes, i, FREE, j);
      }
    }
  }

  lemma PutTree(nodes: seq<Node>, home: seq<Seat>, i: nat)
    requires Shape(nodes) && Tree(nodes, home) && i < |nodes| && nodes[i].nlink == 0
    ensures Shape(nodes[i := FREE]) && Tree(nodes[i := FREE], home)
  {
    var nodes' := nodes[i := FREE];
    forall d | IsDir(nodes', d) ensures GoodDir(nodes', d) { assert GoodDir(nodes, d); }
    forall d | Linked(nodes', d) && d != ROOT ensures Homed(nodes', home, d) {
      assert Linked(nodes, d) && Homed(nodes, home, d) && GoodDir(nodes, d);
    }
  }

  // ----- Names stay proper and distinct, in removed directories too

  lemma EnterNamed(nodes: seq<Node>, dp: nat, off: nat, e: Entry)
    requires WellNamed(nodes) && IsDir(nodes, dp) && Slot(nodes[dp].ents, off) && Live(e) && Element(e.name) && Lookup(nodes[dp].ents, e.name) == None
    ensures WellNamed(Enter(nodes, dp, off, e))
  {
    BindIsLocal(nodes[dp].ents, off, e, e.name);
    assert GoodNames(nodes[dp].ents);
    var nodes' := Enter(nodes, dp, off, e);
    forall d | IsDir(nodes', d) ensures GoodNames(nodes'[d].ents) { assert d != dp ==> GoodNames(nodes[d].ents); }
  }

  // A node whose entries are good, or fewer, takes the place of another.
  lemma ReplaceNamed(nodes: seq<Node>, d: nat, node: Node)
    requires WellNamed(nodes) && d < |nodes| && (node.kind.Dir? ==> GoodNames(node.ents))
    ensures WellNamed(nodes[d := node])
  {
    var nodes' := nodes[d := node];
    forall x | IsDir(nodes', x) ensures GoodNames(nodes'[x].ents) { assert x != d ==> GoodNames(nodes[x].ents); }
  }

  lemma ClearedNames(ents: seq<Entry>, off: nat)
    requires GoodNames(ents) && off < |ents|
    ensures GoodNames(ents[off := GONE])
  {
  }

  lemma WithFileNamed(nodes: seq<Node>, ip: nat, node: Node, dp: nat, off: nat, name: Name)
    requires WellNamed(nodes) && 0 < ip < |nodes| && node.kind.File? && IsDir(nodes, dp) && ip != dp
    requires Slot(nodes[dp].ents, off) && Element(name) && Lookup(nodes[dp].ents, name) == None
    ensures WellNamed(WithFile(nodes, ip, node, dp, off, name))
  {
    ReplaceNamed(nodes, ip, node);
    EnterNamed(nodes[ip := node], dp, off, Entry(ip, name));
  }

  lemma WithDirNamed(nodes: seq<Node>, ip: nat, dp: nat, off: nat, name: Name)
    requires WellNamed(nodes) && 0 < ip < |nodes| && IsDir(nodes, dp) && ip != dp
    requires Slot(nodes[dp].ents, off) && Element(name) && Lookup(nodes[dp].ents, name) == None
    ensures WellNamed(WithDir(nodes, ip, dp, off, name))
  {
    var node := Node(Dir, 1, [Entry(ip, "."), Entry(dp, "..")]);
    assert |"."| != |".."|;
    ReplaceNamed(nodes, ip, node);
    EnterNamed(nodes[ip := node], dp, off, Entry(ip, name));
    var nodes1 := Enter(nodes[ip := node], dp, off, Entry(ip, name));
    assert GoodNames(nodes1[dp].ents);
    ReplaceNamed(nodes1, dp, nodes1[dp].(nlink := Wrap16(nodes1[dp].nlink + 1)));
  }

  lemma UnlinkedNamed(nodes: seq<Node>, dp: nat, off: nat)
    requires WellNamed(nodes) && IsDir(nodes, dp) && off < |nodes[dp].ents|
    requires nodes[dp].ents[off].inum < |nodes| && nodes[dp].ents[off].inum != dp
    ensures WellNamed(WithoutFile(nodes, dp, off)) && WellNamed(WithoutDir(nodes, dp, off))
  {
    var ip := nodes[dp].ents[off].inum;
    assert GoodNames(nodes[dp].ents);
    ClearedNames(nodes[dp].ents, off);
    var cleared := nodes[dp].ents[off := GONE];
    assert IsDir(nodes, ip) ==> GoodNames(nodes[ip].ents);
    ReplaceNamed(nodes, dp, nodes[dp].(ents := cleared));
    ReplaceNamed(nodes[dp := nodes[dp].(ents := cleared)], ip, nodes[ip].(nlink := nodes[ip].nlink - 1));
    var node := nodes[dp].(ents := cleared, nlink := nodes[dp].nlink - 1);
    ReplaceNamed(nodes, dp, node);
    ReplaceNamed(nodes[dp := node], ip, nodes[ip].(nlink := nodes[ip].nlink - 1));
  }

  lemma PutNamed(nodes: seq<Node>, i: nat, held: bool)
    requires WellNamed(nodes) && i < |nodes|
    ensures WellNamed(Put(nodes, i, held))
  {
    ReplaceNamed(nodes, i, FREE);
  }

  // ----- What goes wrong outside the conditions

  // A root directory, a removed directory that a process still has as its current one, and a file.
  function Sample(): seq<Node> {
    [FREE, Node(Dir, 1, [Entry(1, "."), Entry(1, ".."), Entry(3, "f")]), Node(Dir, 0, [Entry(2, "."), Entry(1, "..")]),
     Node(File, 1, []), FREE]
  }

  function NoSeats(n: nat): seq<Seat> {
    seq(n, _ => Seat(0, 0))
  }

  lemma SampleShape()
    ensures Shape(Sample())
  {
    var nodes := Sample();
    assert |".."| != |"."| && |"f"| == 1 && "f"[0] != "."[0];
    assert GoodDir(nodes, 1) && GoodDir(nodes, 2);
    forall d | IsDir(nodes, d) ensures d == 1 || d == 2 {}
  }

  lemma SampleTree()
    ensures Shape(Sample()) && Tree(Sample(), NoSeats(5))
  {
    hide Shape;
    hide GoodDir;
    SampleShape();
    var nodes := Sample();
    forall d | Linked(nodes, d) ensures d == 1 {}
    assert !IsDir(nodes, nodes[1].ents[2].inum);
  }

  lemma SampleExact()
    ensures Exact(Sample(), [0, 0, 0, 0, 0])
  {
    var nodes := Sample();
    var es := nodes[1].ents;
    assert |".."| != |"."| && |"f"| == 1 && "f"[0] != "."[0];
    forall i | 0 <= i < 5 ensures nodes[i].nlink == Total(nodes, i) {
      TotalOnly(nodes, 1, i);
      if i == 1 { CountOne(es, 1, 1); } else if i == 3 { CountOne(es, 2, 3); } else { CountNone(es, i); }
    }
  }

  lemma SampleGood()
    ensures Good(Sample(), NoSeats(5), [0, 0, 0, 0, 0])
  {
    SampleTree();
    SampleExact();
  }

  /** A file made inside a removed directory has a link count of 1 and no name that counts. */
  lemma LostFile()
    ensures Good(Sample(), NoSeats(5), [0, 0, 0, 0, 0]) && IsDir(Sample(), 2)
    ensures var nodes := WithFile(Sample(), 4, Node(File, 1, []), 2, 2, "g");
      nodes[4].nlink == 1 && Total(nodes, 4) == 0
  {
    SampleGood();
    var nodes1 := Sample()[4 := Node(File, 1, [])];
    SetFile(Sample(), NoSeats(5), 4, Node(File, 1, []));
    EnterTotal(nodes1, 2, 2, Entry(4, "g"), 4);
    assert Sample()[4].nlink == Total(Sample(), 4);
  }

  /** A directory made there gives the root's ".." entry a second reader: its count is too small. */
  lemma LostDir()
    ensures Good(Sample(), NoSeats(5), [0, 0, 0, 0, 0]) && IsDir(Sample(), 2)
    ensures var nodes := WithDir(Sample(), 4, 2, 2, "g"); nodes[1].nlink == 1 < Total(nodes, 1)
  {
    SampleGood();
    assert "g"[0] != "."[0];
    Adrift(Sample(), NoSeats(5), [0, 0, 0, 0, 0], 4, 2, 2, "g");
  }

  /** At 32767 links one more makes the count negative. */
  lemma CountOverflows(nodes: seq<Node>, home: seq<Seat>, pend: seq<nat>, ip: nat, dp: nat, off: nat, name: Name)
    requires Good(nodes, home, pend) && 0 < ip < |nodes| && nodes[ip].kind.File? && nodes[ip].nlink == MAXLINK && pend[ip] == 0
    requires Linked(nodes, dp) && Slot(nodes[dp].ents, off) && Proper(name)
    ensures var nodes' := Enter(Raised(nodes, ip), dp, off, Entry(ip, name));
      nodes'[ip].nlink == -32768 && Total(nodes', ip) == 32768
  {
    SetFile(nodes, home, ip, Raised(nodes, ip)[ip]);
    EnterTotal(Raised(nodes, ip), dp, off, Entry(ip, name), ip);
    assert nodes[ip].nlink == Total(nodes, ip);
  }
}
