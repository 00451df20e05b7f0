/**
  kernel/vm.c and kernel/kalloc.c on page frames: walk, mappages, uvmunmap, uvmalloc,
  uvmdealloc, uvmcopy, uvmshare, freewalk and uvmfree.  Sizes and addresses are given in pages
  where the source insists on page alignment.
 */
module Vm {
  import opened PageTable

  // ----- How two states of memory compare

  // Every mapping of every root is the same.
  ghost predicate SameMaps(p0: seq<Page>, loc0: seq<Loc>, p1: seq<Page>) {
    forall r, v :: IsRoot(loc0, r) && 0 <= v < MAXVPN ==> Lookup(p1, r, v) == Lookup(p0, r, v)
  }

  // Existing data frames and table places stay; the unused frames `taken` became data, and
  // other unused frames may have become table pages of existing trees.
  ghost predicate Grew(p0: seq<Page>, loc0: seq<Loc>, p1: seq<Page>, loc1: seq<Loc>, taken: iset<int>) {
    && |p1| == |p0| == |loc0| == |loc1|
    && (forall g :: 0 <= g < |p0| && p0[g].Data? ==> p1[g] == p0[g] && g !in taken)
    && (forall g :: 0 <= g < |p0| && !p0[g].Data? ==> (p1[g].Data? <==> g in taken))
    && (forall g :: 0 <= g < |p0| && g in taken ==> p0[g].Unused?)
    && (forall g :: 0 <= g < |p0| && !loc0[g].NoTable? ==> loc1[g] == loc0[g])
    && (forall g :: 0 <= g < |p0| && loc1[g].Top? ==> loc0[g].Top?)
  }

  // Only table pages were added.
  ghost predicate TablesOnly(p0: seq<Page>, loc0: seq<Loc>, p1: seq<Page>, loc1: seq<Loc>) {
    Grew(p0, loc0, p1, loc1, iset{})
  }

  // r has become the root of a page table that maps no user page; nothing else changed.
  ghost predicate MakesRoot(p0: seq<Page>, loc0: seq<Loc>, p1: seq<Page>, loc1: seq<Loc>, r: int) {
    && |p1| == |p0| == |loc0| == |loc1|
    && (forall q :: IsRoot(loc1, q) <==> IsRoot(loc0, q) || q == r) && !IsRoot(loc0, r)
    && (forall q, v :: IsRoot(loc0, q) && 0 <= v < MAXVPN ==> Lookup(p1, q, v) == Lookup(p0, q, v))
    && (forall v :: 0 <= v < TRAPFRAME ==> Lookup(p1, r, v) == NOPTE)
    && (forall g :: IsData(p1, g) <==> IsData(p0, g)) && (forall g :: IsData(p0, g) ==> p1[g] == p0[g])
  }

  // One root maps k pages from vpn on to consecutive frames from ppn on; nothing else changed.
  ghost predicate MapsRange(p0: seq<Page>, loc0: seq<Loc>, p1: seq<Page>, root: int, vpn: int, k: int, ppn: int, perm: Perm) {
    forall r, v :: IsRoot(loc0, r) && 0 <= v < MAXVPN ==>
      Lookup(p1, r, v) ==
        if r == root && vpn <= v < vpn + k then PTE(true, ppn + v - vpn, perm) else Lookup(p0, r, v)
  }

  // One root lost the mappings of k pages from vpn on; nothing else changed.
  ghost predicate UnmapsRange(p0: seq<Page>, loc0: seq<Loc>, p1: seq<Page>, root: int, vpn: int, k: int) {
    forall r, v :: IsRoot(loc0, r) && 0 <= v < MAXVPN ==>
      Lookup(p1, r, v) == if r == root && vpn <= v < vpn + k then NOPTE else Lookup(p0, r, v)
  }

  // Frame g is mapped somewhere in the range.
  ghost predicate Backs(pages: seq<Page>, root: int, vpn: int, k: int, g: int) {
    exists v :: vpn <= v < vpn + k && Lookup(pages, root, v).v && Lookup(pages, root, v).ppn == g
  }

  // The mapped pages of a range are data frames, no two the same.
  ghost predicate Owns(pages: seq<Page>, root: int, vpn: int, k: int) {
    && (forall v :: vpn <= v < vpn + k && Lookup(pages, root, v).v ==> IsData(pages, Lookup(pages, root, v).ppn))
    && (forall v, w :: vpn <= v < w < vpn + k && Lookup(pages, root, v).v && Lookup(pages, root, w).v ==>
          Lookup(pages, root, v).ppn != Lookup(pages, root, w).ppn)
  }

  // The data frames of p1 are those of p0 less the freed ones; tables keep their places.
  ghost predicate Frees(p0: seq<Page>, p1: seq<Page>, freed: iset<int>) {
    && |p1| == |p0|
    && (forall g :: 0 <= g < |p0| && g in freed ==> p1[g].Unused?)
    && (forall g :: 0 <= g < |p0| && g !in freed && !p0[g].Table? ==> p1[g] == p0[g])
    && (forall g :: 0 <= g < |p0| && g !in freed && p0[g].Table? ==> p1[g].Table?)
  }

  ghost predicate IsData(pages: seq<Page>, f: int) {
    0 <= f < |pages| && pages[f].Data?
  }

  function Junk(b: int): (bytes: seq<int>)
    ensures |bytes| == PGSIZE && forall i :: 0 <= i < PGSIZE ==> bytes[i] == b
  {
    seq(PGSIZE, _ => b)
  }

  const TRAMPOLINE: int := MAXVPN - 1
  const TRAPFRAME: int := MAXVPN - 2

  // PGROUNDUP in pages: as few as hold sz bytes.
  function Pages(sz: int): (n: int)
    ensures sz <= n * PGSIZE < sz + PGSIZE
  {
    (sz + PGSIZE - 1) / PGSIZE
  }

  datatype Status = Ok | NoMemory | Panic

  lemma GrewTrans(p0: seq<Page>, loc0: seq<Loc>, p1: seq<Page>, loc1: seq<Loc>, p2: seq<Page>, loc2: seq<Loc>,
                  s: iset<int>, t: iset<int>)
    requires Grew(p0, loc0, p1, loc1, s) && Grew(p1, loc1, p2, loc2, t)
    requires GoodTrees(p0, loc0) && GoodTrees(p1, loc1)
    ensures Grew(p0, loc0, p2, loc2, s + t)
  {
    forall g | 0 <= g < |p0| && g in s + t ensures p0[g].Unused? {
      if g in t { assert p1[g].Unused?; }
    }
  }

  lemma TablesTrans(p0: seq<Page>, loc0: seq<Loc>, p1: seq<Page>, loc1: seq<Loc>, p2: seq<Page>, loc2: seq<Loc>)
    requires TablesOnly(p0, loc0, p1, loc1) && TablesOnly(p1, loc1, p2, loc2)
    requires GoodTrees(p0, loc0) && GoodTrees(p1, loc1)
    ensures TablesOnly(p0, loc0, p2, loc2)
  {
    GrewTrans(p0, loc0, p1, loc1, p2, loc2, iset{}, iset{});
  }

  lemma MapsSnoc(p0: seq<Page>, loc0: seq<Loc>, p1: seq<Page>, loc1: seq<Loc>, p2: seq<Page>,
                 root: int, vpn: int, k: int, ppn: int, perm: Perm)
    requires MapsRange(p0, loc0, p1, root, vpn, k, ppn, perm) && k >= 0
    requires forall r :: IsRoot(loc0, r) ==> IsRoot(loc1, r)
    ensures MapsRange(p1, loc1, p2, root, vpn + k, 1, ppn + k, perm) ==> MapsRange(p0, loc0, p2, root, vpn, k + 1, ppn, perm)
    ensures SameMaps(p1, loc1, p2) ==> MapsRange(p0, loc0, p2, root, vpn, k, ppn, perm)
    ensures IsRoot(loc0, root) && 0 <= vpn + k < MAXVPN ==> Lookup(p1, root, vpn + k) == Lookup(p0, root, vpn + k)
  {
    hide Lookup;
    hide IsRoot;
  }

  lemma NothingYet(p: seq<Page>, loc: seq<Loc>, root: int, vpn: int, ppn: int, perm: Perm)
    requires |p| == |loc|
    ensures TablesOnly(p, loc, p, loc) && MapsRange(p, loc, p, root, vpn, 0, ppn, perm) && SameMaps(p, loc, p)
  {
  }

  // The frames behind a range, if they are asked for.
  ghost function Backing(p: seq<Page>, root: int, vpn: int, k: int, doFree: bool): iset<int> {
    iset g | doFree && Backs(p, root, vpn, k, g)
  }

  // ----- Giving a range of one root fresh frames

  // Since p0, `root` has got mappings in k pages from lo on, each with a frame of its own that
  // was unused in p0; nothing else changed but table pages.
  ghost predicate Filled(p0: seq<Page>, loc0: seq<Loc>, p1: seq<Page>, loc1: seq<Loc>, root: int, lo: int, k: int) {
    && Grew(p0, loc0, p1, loc1, Backing(p1, root, lo, k, true))
    && Owns(p1, root, lo, k)
    && forall r, v :: IsRoot(loc0, r) && 0 <= v < MAXVPN && !(r == root && lo <= v < lo + k) ==>
         Lookup(p1, r, v) == Lookup(p0, r, v)
  }

  lemma FillNone(p: seq<Page>, loc: seq<Loc>, root: int, lo: int)
    requires |p| == |loc|
    ensures Filled(p, loc, p, loc, root, lo, 0)
  {
    hide Lookup;
    assert Backing(p, root, lo, 0, true) == iset{};
  }

  lemma FillOne(p0: seq<Page>, loc0: seq<Loc>, p1: seq<Page>, loc1: seq<Loc>, p2: seq<Page>, loc2: seq<Loc>,
                root: int, lo: int, k: int, g: int, perm: Perm)
    requires GoodTrees(p0, loc0) && GoodTrees(p1, loc1) && IsRoot(loc0, root) && 0 <= lo && 0 <= k && lo + k < MAXVPN
    requires Filled(p0, loc0, p1, loc1, root, lo, k)
    requires 0 <= g < |p2| && Grew(p1, loc1, p2, loc2, iset{g}) && MapsRange(p1, loc1, p2, root, lo + k, 1, g, perm)
    ensures Filled(p0, loc0, p2, loc2, root, lo, k + 1)
  {
    hide Lookup;
    hide GoodTrees;
    RootsKept(p0, loc0, p1, loc1, Backing(p1, root, lo, k, true));
    FillBacking(p1, loc1, p2, root, lo, k, g, perm);
    GrewTrans(p0, loc0, p1, loc1, p2, loc2, Backing(p1, root, lo, k, true), iset{g});
    forall v | lo <= v < lo + k ensures Lookup(p2, root, v) == Lookup(p1, root, v) {}
    assert Owns(p2, root, lo, k + 1);
  }

  lemma FillBacking(p1: seq<Page>, loc1: seq<Loc>, p2: seq<Page>, root: int, lo: int, k: int, g: int, perm: Perm)
    requires IsRoot(loc1, root) && 0 <= lo && 0 <= k && lo + k < MAXVPN
    requires MapsRange(p1, loc1, p2, root, lo + k, 1, g, perm)
    ensures Backing(p2, root, lo, k + 1, true) == Backing(p1, root, lo, k, true) + iset{g}
  {
    hide Lookup;
    assert Lookup(p2, root, lo + k) == PTE(true, g, perm);
    assert forall v :: lo <= v < lo + k ==> Lookup(p2, root, v) == Lookup(p1, root, v);
    BackingSnoc(p2, root, lo, k, true);
    assert forall h :: Backs(p2, root, lo, k, h) <==> Backs(p1, root, lo, k, h);
  }

  lemma BackingSnoc(p: seq<Page>, root: int, vpn: int, k: int, doFree: bool)
    requires k >= 0
    ensures var e := Lookup(p, root, vpn + k);
      Backing(p, root, vpn, k + 1, doFree) == Backing(p, root, vpn, k, doFree) + if doFree && e.v then iset{e.ppn} else iset{}
  {
    hide Lookup;
  }

  // A page that stays unmapped extends the range for free.
  lemma FillSkip(p0: seq<Page>, loc0: seq<Loc>, p1: seq<Page>, loc1: seq<Loc>, root: int, lo: int, k: int)
    requires Filled(p0, loc0, p1, loc1, root, lo, k) && k >= 0 && !Lookup(p1, root, lo + k).v
    ensures Filled(p0, loc0, p1, loc1, root, lo, k + 1)
  {
    hide Lookup;
    BackingSnoc(p1, root, lo, k, true);
    assert Backing(p1, root, lo, k + 1, true) == Backing(p1, root, lo, k, true);
  }

  // Table pages added in between do not disturb a filled range.
  lemma FillMoreTables(p0: seq<Page>, loc0: seq<Loc>, p1: seq<Page>, loc1: seq<Loc>, p2: seq<Page>, loc2: seq<Loc>,
                       root: int, lo: int, k: int)
    requires GoodTrees(p0, loc0) && GoodTrees(p1, loc1) && IsRoot(loc0, root) && 0 <= lo && 0 <= k && lo + k <= MAXVPN
    requires Filled(p0, loc0, p1, loc1, root, lo, k)
    requires TablesOnly(p1, loc1, p2, loc2) && SameMaps(p1, loc1, p2)
    ensures Filled(p0, loc0, p2, loc2, root, lo, k)
  {
    hide Lookup;
    hide GoodTrees;
    var s := Backing(p1, root, lo, k, true);
    RootsKept(p0, loc0, p1, loc1, s);
    GrewTrans(p0, loc0, p1, loc1, p2, loc2, s, iset{});
    assert s + iset{} == s;
    assert forall v :: lo <= v < lo + k ==> Lookup(p2, root, v) == Lookup(p1, root, v);
    assert forall h :: Backs(p2, root, lo, k, h) <==> Backs(p1, root, lo, k, h);
    assert Backing(p2, root, lo, k, true) == s;
  }

  // Unmapping a filled range with its frames restores every mapping and every data frame.
  lemma FillUndone(p0: seq<Page>, loc0: seq<Loc>, p1: seq<Page>, loc1: seq<Loc>, p2: seq<Page>, root: int, lo: int, k: int)
    requires Filled(p0, loc0, p1, loc1, root, lo, k) && IsRoot(loc0, root) && 0 <= lo && lo + k <= MAXVPN
    requires forall v :: lo <= v < lo + k ==> Lookup(p0, root, v) == NOPTE
    requires UnmapsRange(p1, loc1, p2, root, lo, k) && Frees(p1, p2, Backing(p1, root, lo, k, true))
    ensures SameMaps(p0, loc0, p2) && TablesOnly(p0, loc0, p2, loc1)
  {
    hide Lookup;
    hide Backing;
    RootsKept(p0, loc0, p1, loc1, Backing(p1, root, lo, k, true));
  }

  // The range of `new` holds copies of what `old` maps: same permissions and contents, frames of its own.
  ghost predicate Copied(p0: seq<Page>, p1: seq<Page>, old_: int, new_: int, k: int) {
    forall v :: 0 <= v < k ==>
      var e, e' := Lookup(p0, old_, v), Lookup(p1, new_, v);
      if !e.v then e' == NOPTE
      else e'.v && e'.perm == e.perm && IsData(p0, e.ppn) && 0 <= e'.ppn < |p1| == |p0| &&
           p0[e'.ppn].Unused? && p1[e'.ppn] == p0[e.ppn]
  }

  // The range of `new` maps the very frames `old` maps.
  ghost predicate Shared(p0: seq<Page>, loc0: seq<Loc>, p1: seq<Page>, old_: int, new_: int, k: int) {
    forall r, v :: IsRoot(loc0, r) && 0 <= v < MAXVPN ==>
      Lookup(p1, r, v) == if r == new_ && v < k then Lookup(p0, old_, v) else Lookup(p0, r, v)
  }

  // The range holds zeroed frames with the given permissions.
  ghost predicate Zeroed(p1: seq<Page>, root: int, lo: int, k: int, perm: Perm) {
    forall v :: lo <= v < lo + k ==>
      var e := Lookup(p1, root, v);
      e.v && e.perm == perm && 0 <= e.ppn < |p1| && p1[e.ppn] == Data(Junk(0))
  }

  lemma ZeroedSnoc(p1: seq<Page>, loc1: seq<Loc>, p2: seq<Page>, loc2: seq<Loc>, root: int, lo: int, k: int, g: int, perm: Perm)
    requires Zeroed(p1, root, lo, k, perm) && IsRoot(loc1, root) && 0 <= lo && 0 <= k && lo + k < MAXVPN
    requires Grew(p1, loc1, p2, loc2, iset{g}) && MapsRange(p1, loc1, p2, root, lo + k, 1, g, perm)
    requires 0 <= g < |p2| && p2[g] == Data(Junk(0))
    ensures Zeroed(p2, root, lo, k + 1, perm)
  {
    hide Lookup;
  }

  lemma CopiedSnoc(p0: seq<Page>, loc0: seq<Loc>, p1: seq<Page>, loc1: seq<Loc>, p2: seq<Page>, loc2: seq<Loc>,
                   old_: int, new_: int, k: int, g: int)
    requires Copied(p0, p1, old_, new_, k) && Filled(p0, loc0, p1, loc1, new_, 0, k) && 0 <= k < MAXVPN
    requires IsRoot(loc0, old_) && IsRoot(loc0, new_) && old_ != new_
    requires GoodTrees(p0, loc0) && GoodTrees(p1, loc1)
    requires Lookup(p0, old_, k).v && IsData(p0, Lookup(p0, old_, k).ppn)
    requires Grew(p1, loc1, p2, loc2, iset{g}) && MapsRange(p1, loc1, p2, new_, k, 1, g, Lookup(p0, old_, k).perm)
    requires 0 <= g < |p2| && p2[g] == p0[Lookup(p0, old_, k).ppn]
    ensures Copied(p0, p2, old_, new_, k + 1)
  {
    hide Lookup;
    hide GoodTrees;
    RootsKept(p0, loc0, p1, loc1, Backing(p1, new_, 0, k, true));
    GrewTrans(p0, loc0, p1, loc1, p2, loc2, Backing(p1, new_, 0, k, true), iset{g});
    forall v | 0 <= v < k ensures Lookup(p2, new_, v) == Lookup(p1, new_, v) {}
  }

  lemma RootsKept(p0: seq<Page>, loc0: seq<Loc>, p1: seq<Page>, loc1: seq<Loc>, s: iset<int>)
    requires Grew(p0, loc0, p1, loc1, s)
    ensures forall r :: IsRoot(loc1, r) <==> IsRoot(loc0, r)
  {
  }

  // ----- Felling a tree of table pages

  // The frames while freewalk works on table f: the trees under its first n entries are gone
  // and the rest is as in p0.
  ghost predicate Walking(loc: seq<Loc>, p0: seq<Page>, p: seq<Page>, f: int, n: int) {
    && |p| == |p0| == |loc| && 0 <= f < |loc| && 0 <= n
    && (forall g :: 0 <= g < |p| && g != f && Below(loc, f, n, g) ==> p[g].Unused?)
    && (forall g :: 0 <= g < |p| && g != f && !Below(loc, f, n, g) ==> p[g] == p0[g])
    && p[f].Table? && |p[f].ptes| == ENTRIES
    && (forall i :: n <= i < ENTRIES ==> p[f].ptes[i] == Entry(p0, f, i))
  }

  // The frames after freewalk(f): the whole tree is free, the rest is as in p0.
  ghost predicate Felled(loc: seq<Loc>, p0: seq<Page>, p: seq<Page>, f: int) {
    |p| == |p0| && forall g :: 0 <= g < |p| ==> p[g] == if InTree(loc, f, g) then Unused else p0[g]
  }

  // The frames of f's tree are those of t.
  ghost predicate Intact(loc: seq<Loc>, t: seq<Page>, p: seq<Page>, f: int) {
    |p| == |t| == |loc| && forall g :: InTree(loc, f, g) ==> p[g] == t[g]
  }

  lemma StartWalking(loc: seq<Loc>, t: seq<Page>, p: seq<Page>, f: int)
    requires GoodTrees(t, loc) && 0 <= f < |loc| && !loc[f].NoTable? && Intact(loc, t, p, f)
    ensures Walking(loc, p, p, f, 0)
  {
    forall g | 0 <= g < |loc| ensures !Below(loc, f, 0, g) { NothingBelowFirst(t, loc, f, g); }
    assert InTree(loc, f, f);
  }

  lemma ChildIntact(loc: seq<Loc>, t: seq<Page>, p0: seq<Page>, p: seq<Page>, f: int, i: int)
    requires GoodTrees(t, loc) && Intact(loc, t, p0, f) && Walking(loc, p0, p, f, i) && 0 <= i < ENTRIES
    requires (loc[f].Top? || loc[f].Mid?) && Entry(t, f, i).v
    ensures Intact(loc, t, p, Entry(t, f, i).ppn) && At(loc, Entry(t, f, i).ppn, ChildPlace(loc, f, i))
  {
    assert GoodEntry(loc, f, i, Entry(t, f, i));
    forall g | InTree(loc, Entry(t, f, i).ppn, g) ensures p[g] == t[g] {
      BelowNext(t, loc, f, i, g);
      assert InTree(loc, f, g);
    }
  }

  lemma WalkOn(loc: seq<Loc>, t: seq<Page>, p0: seq<Page>, p1: seq<Page>, p2: seq<Page>, f: int, i: int)
    requires GoodTrees(t, loc) && Walking(loc, p0, p1, f, i) && 0 <= i < ENTRIES
    requires (loc[f].Top? || loc[f].Mid?) && Entry(t, f, i).v && Felled(loc, p1, p2, Entry(t, f, i).ppn)
    ensures |p2| == |p1| && p2[f] == p1[f] && Walking(loc, p0, p2[f := Table(p2[f].ptes[i := NOPTE])], f, i + 1)
  {
    forall g | 0 <= g < |loc|
      ensures Below(loc, f, i + 1, g) <==> Below(loc, f, i, g) || InTree(loc, Entry(t, f, i).ppn, g)
      ensures InTree(loc, Entry(t, f, i).ppn, g) ==> g != f
    {
      BelowNext(t, loc, f, i, g);
    }
    hide Below;
    hide InTree;
  }

  lemma WalkPast(loc: seq<Loc>, t: seq<Page>, p0: seq<Page>, p: seq<Page>, f: int, i: int)
    requires GoodTrees(t, loc) && Walking(loc, p0, p, f, i) && 0 <= i < ENTRIES && !Entry(t, f, i).v
    ensures Walking(loc, p0, p, f, i + 1)
  {
    forall g | 0 <= g < |loc| ensures Below(loc, f, i + 1, g) <==> Below(loc, f, i, g) {
      if loc[f].Top? || loc[f].Mid? { BelowNext(t, loc, f, i, g); }
    }
  }

  lemma WalkDone(loc: seq<Loc>, p0: seq<Page>, p: seq<Page>, f: int)
    requires Walking(loc, p0, p, f, ENTRIES)
    ensures Felled(loc, p0, p[f := Unused], f)
  {
  }

  // A mapping found below an entry of f, or in f itself, is one of f's tree.
  lemma LeafFound(loc: seq<Loc>, t: seq<Page>, f: int, i: int)
    requires GoodTrees(t, loc) && 0 <= f < |loc| && 0 <= i < ENTRIES && Entry(t, f, i).v
    requires loc[f].Low? || !NoLeaves(t, loc, Entry(t, f, i).ppn)
    ensures !NoLeaves(t, loc, f)
  {
    if loc[f].Low? {
      assert InTree(loc, f, f);
    } else {
      assert GoodEntry(loc, f, i, Entry(t, f, i));
      var g, j :| InTree(loc, Entry(t, f, i).ppn, g) && loc[g].Low? && Entry(t, g, j).v;
      BelowNext(t, loc, f, i, g);
      assert InTree(loc, f, g);
    }
  }

  lemma AllChecked(loc: seq<Loc>, t: seq<Page>, f: int)
    requires GoodTrees(t, loc) && 0 <= f < |loc| && !loc[f].NoTable?
    requires loc[f].Low? ==> forall j :: 0 <= j < ENTRIES ==> !Entry(t, f, j).v
    requires !loc[f].Low? ==> forall j :: 0 <= j < ENTRIES && Entry(t, f, j).v ==> NoLeaves(t, loc, Entry(t, f, j).ppn)
    ensures NoLeaves(t, loc, f)
  {
    forall g, i | InTree(loc, f, g) && loc[g].Low? ensures !Entry(t, g, i).v {
      if g != f {
        assert Hangs(t, loc, g);
        var m := Entry(t, loc[g].root, loc[g].i2).ppn;
        assert Hangs(t, loc, m);
        var j := if loc[f].Top? then loc[g].i2 else loc[g].i1;
        assert Hangs(t, loc, f);
        assert Entry(t, f, j).v;
        assert InTree(loc, Entry(t, f, j).ppn, g);
      }
    }
  }

  lemma TableEdit(p: seq<Page>, free: seq<int>, f: int, page: Page)
    requires GoodFree(p, free) && 0 <= f < |p| && !p[f].Unused? && !page.Unused?
    ensures GoodFree(p[f := page], free)
  {
  }

  // What a teardown leaves: the root's tables and the frames of `freed` are free, every other
  // data frame is untouched, and so are the mappings of all other roots.
  ghost predicate TornDown(p0: seq<Page>, loc0: seq<Loc>, p1: seq<Page>, root: int, freed: iset<int>) {
    && |p1| == |p0| == |loc0|
    && (forall g :: 0 <= g < |p0| && (g in freed || InTree(loc0, root, g)) ==> p1[g].Unused?)
    && (forall g :: 0 <= g < |p0| && g !in freed && !p0[g].Table? ==> p1[g] == p0[g])
    && (forall g :: 0 <= g < |p0| && g !in freed && p0[g].Table? && !InTree(loc0, root, g) ==> p1[g].Table?)
    && (forall r, v :: IsRoot(loc0, r) && r != root && 0 <= v < MAXVPN ==> Lookup(p1, r, v) == Lookup(p0, r, v))
  }

  lemma TearDown(p0: seq<Page>, loc0: seq<Loc>, p1: seq<Page>, p2: seq<Page>, root: int, lo: int, k: int, doFree: bool)
    requires |p0| == |loc0| && IsRoot(loc0, root) && GoodTrees(p0, loc0)
    requires UnmapsRange(p0, loc0, p1, root, lo, k) && Frees(p0, p1, Backing(p0, root, lo, k, doFree))
    requires doFree ==> Owns(p0, root, lo, k)
    requires Felled(loc0, p1, p2, root)
    requires forall r, v :: IsRoot(loc0, r) && r != root ==> Lookup(p2, r, v) == Lookup(p1, r, v)
    ensures TornDown(p0, loc0, p2, root, Backing(p0, root, lo, k, doFree))
  {
    hide Lookup;
    assert forall g :: InTree(loc0, root, g) ==> p0[g].Table?;
  }

  lemma UnmapsNothing(p: seq<Page>, l: seq<Loc>, root: int)
    ensures UnmapsRange(p, l, p, root, 0, 0) && Frees(p, p, Backing(p, root, 0, 0, true)) && Frees(p, p, Backing(p, root, 0, 0, false))
  {
    hide Lookup;
  }

  // Dropping the two top mappings touches no frame and no user mapping.
  lemma TopUnmapped(p0: seq<Page>, l: seq<Loc>, p1: seq<Page>, p2: seq<Page>, root: int, n: int)
    requires IsRoot(l, root) && 0 <= n <= TRAPFRAME
    requires UnmapsRange(p0, l, p1, root, TRAMPOLINE, 1) && UnmapsRange(p1, l, p2, root, TRAPFRAME, 1)
    requires Frees(p0, p1, Backing(p0, root, TRAMPOLINE, 1, false)) && Frees(p1, p2, Backing(p1, root, TRAPFRAME, 1, false))
    requires forall v :: n <= v < TRAPFRAME ==> !Lookup(p0, root, v).v
    ensures forall v :: n <= v < MAXVPN ==> !Lookup(p2, root, v).v
    ensures forall v :: 0 <= v < n ==> Lookup(p2, root, v) == Lookup(p0, root, v)
    ensures Frees(p0, p2, iset{}) && (Owns(p0, root, 0, n) ==> Owns(p2, root, 0, n))
    ensures forall r, v :: IsRoot(l, r) && r != root && 0 <= v < MAXVPN ==> Lookup(p2, r, v) == Lookup(p0, r, v)
  {
    hide Lookup;
    hide Backs;
  }

  lemma TornDownEarlier(p0: seq<Page>, l: seq<Loc>, p2: seq<Page>, p3: seq<Page>, root: int, n: int, doFree: bool)
    requires Frees(p0, p2, iset{}) && 0 <= n
    requires forall v :: 0 <= v < n ==> Lookup(p2, root, v) == Lookup(p0, root, v)
    requires forall r, v :: IsRoot(l, r) && r != root && 0 <= v < MAXVPN ==> Lookup(p2, r, v) == Lookup(p0, r, v)
    requires TornDown(p2, l, p3, root, Backing(p2, root, 0, n, doFree))
    ensures TornDown(p0, l, p3, root, Backing(p0, root, 0, n, doFree))
  {
    hide Lookup;
    hide InTree;
    assert forall g :: Backs(p2, root, 0, n, g) <==> Backs(p0, root, 0, n, g);
  }

  lemma FreesNothing(p: seq<Page>, root: int, lo: int)
    ensures Frees(p, p, Backing(p, root, lo, 0, true))
  {
    hide Lookup;
  }

  lemma FilledFacts(p0: seq<Page>, loc0: seq<Loc>, p1: seq<Page>, loc1: seq<Loc>, root: int, lo: int, k: int)
    requires Filled(p0, loc0, p1, loc1, root, lo, k)
    ensures forall r :: IsRoot(loc1, r) <==> IsRoot(loc0, r)
    ensures Owns(p1, root, lo, k)
  {
    RootsKept(p0, loc0, p1, loc1, Backing(p1, root, lo, k, true));
  }

  lemma CopiedNone(p: seq<Page>, parent: int, child: int)
    ensures Copied(p, p, parent, child, 0)
  {
  }

  lemma CopiedSkip(p0: seq<Page>, p1: seq<Page>, parent: int, child: int, k: int)
    requires Copied(p0, p1, parent, child, k) && !Lookup(p0, parent, k).v && Lookup(p1, child, k) == NOPTE
    ensures Copied(p0, p1, parent, child, k + 1)
  {
    hide Lookup;
  }

  // Filling the child leaves the parent's mappings and frames, and the child's later pages, alone.
  lemma SourceKept(p0: seq<Page>, loc0: seq<Loc>, p1: seq<Page>, loc1: seq<Loc>, parent: int, child: int, k: int)
    requires Filled(p0, loc0, p1, loc1, child, 0, k) && IsRoot(loc0, parent) && IsRoot(loc0, child) && parent != child
    requires 0 <= k < MAXVPN
    ensures Lookup(p1, parent, k) == Lookup(p0, parent, k) && Lookup(p1, child, k) == Lookup(p0, child, k)
    ensures IsData(p0, Lookup(p0, parent, k).ppn) ==>
      IsData(p1, Lookup(p0, parent, k).ppn) && p1[Lookup(p0, parent, k).ppn] == p0[Lookup(p0, parent, k).ppn]
  {
    hide Lookup;
    hide Backing;
  }

  lemma SharedStep(p0: seq<Page>, loc0: seq<Loc>, p1: seq<Page>, loc1: seq<Loc>, p2: seq<Page>,
                   parent: int, child: int, i: int, k: int)
    requires Shared(p0, loc0, p1, parent, child, i) && IsRoot(loc0, parent) && parent != child && 0 <= i < MAXVPN
    requires forall r :: IsRoot(loc1, r) <==> IsRoot(loc0, r)
    requires Lookup(p0, parent, i).v && 0 <= k <= 1
    requires MapsRange(p1, loc1, p2, child, i, k, Lookup(p0, parent, i).ppn, Lookup(p0, parent, i).perm)
    ensures Shared(p0, loc0, p2, parent, child, i + k)
  {
    hide Lookup;
    hide IsRoot;
  }

  lemma SharedUndone(p0: seq<Page>, loc0: seq<Loc>, p1: seq<Page>, loc1: seq<Loc>, p2: seq<Page>,
                     parent: int, child: int, i: int)
    requires Shared(p0, loc0, p1, parent, child, i) && TablesOnly(p0, loc0, p1, loc1) && IsRoot(loc0, child)
    requires 0 <= i <= MAXVPN && forall v :: 0 <= v < i ==> Lookup(p0, child, v) == NOPTE
    requires UnmapsRange(p1, loc1, p2, child, 0, i) && Frees(p1, p2, Backing(p1, child, 0, i, false))
    ensures SameMaps(p0, loc0, p2) && TablesOnly(p0, loc0, p2, loc1)
  {
    hide Lookup;
    hide Backs;
    RootsKept(p0, loc0, p1, loc1, iset{});
  }

  // The frames it takes to grow an address space from oldsz to newsz bytes.
  ghost function GrowCost(p: seq<Page>, root: int, oldsz: int, newsz: int): nat
    requires 0 <= oldsz <= newsz
  {
    Cost(p, root, Pages(oldsz), All(Pages(newsz) - Pages(oldsz)), 1)
  }

  // The frames it takes to give child the first n pages of parent: d for each page, and its tables.
  ghost function CopyCost(p: seq<Page>, parent: int, child: int, n: nat, d: nat): nat {
    Cost(p, child, 0, MappedIn(p, parent, n), d)
  }

  /** Three frames a page are always enough to copy, and two to share. */
  lemma CopyBound(p: seq<Page>, parent: int, child: int, n: nat, d: nat)
    ensures CopyCost(p, parent, child, n, d) <= (d + 2) * n
  {
    CostBound(p, child, 0, MappedIn(p, parent, n), d);
  }

  class Memory {
    var pages: seq<Page>
    var free: seq<int>       // kmem.freelist, head first
    ghost var loc: seq<Loc>

    ghost predicate Valid()
      reads this
    {
      |pages| == |loc| && GoodTrees(pages, loc) && GoodFree(pages, free)
    }

    // ----- kalloc.c

    method Kalloc() returns (f: int)
      requires GoodFree(pages, free)
      modifies this`pages, this`free
      ensures f < 0 <==> old(free) == []
      ensures f < 0 ==> pages == old(pages) && free == old(free)
      ensures f >= 0 ==> f < |old(pages)| && old(pages)[f].Unused? && free == old(free)[1..]
      ensures f >= 0 ==> pages == old(pages)[f := Data(Junk(5))]
      ensures GoodFree(pages, free)
    {
      if free == [] {
        return -1;
      }
      f := free[0];
      free := free[1..];
      pages := pages[f := Data(Junk(5))];
    }

    /**
      kfree does not ask whether the frame is in use: the free list gains it, and keeps holding
      exactly the unused frames once each if and only if it was.
     */
    method Kfree(f: int)
      requires GoodFree(pages, free) && 0 <= f < |pages|
      modifies this`pages, this`free
      ensures GoodFree(pages, free) <==> !old(pages)[f].Unused?
      ensures pages == old(pages)[f := Unused] && free == [f] + old(free)
    {
      if pages[f].Unused? {
        ghost var k :| 0 <= k < |free| && free[k] == f;
        assert ([f] + free)[k + 1] == ([f] + free)[0];
      }
      pages := pages[f := Unused];
      free := [f] + free;
    }

    // What uvmcreate does to the frame it gets.
    static lemma RootIsMade(p0: seq<Page>, l0: seq<Loc>, r: int)
      requires GoodTrees(p0, l0) && 0 <= r < |p0| && p0[r].Unused?
      ensures var p1, l1 := p0[r := Table(Empty())], l0[r := Top];
        GoodTrees(p1, l1) && MakesRoot(p0, l0, p1, l1, r)
    {
      RootKeepsTrees(p0, l0, r);
      hide Lookup;
    }

    /** uvmcreate: a page table that maps nothing; no other table and no data frame changes. */
    method UvmCreate() returns (r: int)
      requires Valid()
      modifies this
      ensures Valid() && (r < 0 <==> old(free) == [])
      ensures r < 0 ==> pages == old(pages) && loc == old(loc)
      ensures r >= 0 ==> MakesRoot(old(pages), old(loc), pages, loc, r)
    {
      hide Lookup;
      hide GoodTrees;
      hide MakesRoot;
      ghost var p0, l0 := pages, loc;
      r := Kalloc();
      if r < 0 { return; }
      RootIsMade(p0, l0, r);
      pages := pages[r := Table(Empty())];
      assert pages == p0[r := Table(Empty())];
      loc := loc[r := Top];
    }

    // ----- walk

    // One level of walk: the table below entry i of table f, made if asked for.
    method Descend(f: int, i: int, alloc: bool) returns (c: int)
      requires Valid() && 0 <= f < |loc| && (loc[f].Top? || loc[f].Mid?)
      requires 0 <= i < ENTRIES && (loc[f].Top? ==> i < TOPENTRIES)
      modifies this
      ensures Valid() && SameMaps(old(pages), old(loc), pages) && TablesOnly(old(pages), old(loc), pages, loc)
      ensures c >= 0 ==> Entry(pages, f, i).v && Entry(pages, f, i).ppn == c && At(loc, c, ChildPlace(loc, f, i))
      ensures c < 0 ==> pages == old(pages) && free == old(free) && loc == old(loc) && !Entry(pages, f, i).v
      ensures c < 0 ==> !alloc || free == []
      ensures c >= 0 ==> |free| == |old(free)| - if Entry(old(pages), f, i).v then 0 else 1
      ensures c >= 0 && !Entry(old(pages), f, i).v ==> forall j :: !Entry(old(pages), c, j).v
      ensures !alloc ==> pages == old(pages) && free == old(free) && loc == old(loc)
      ensures forall g, j :: Entry(old(pages), g, j).v ==> Entry(pages, g, j) == Entry(old(pages), g, j)
      ensures forall g, j :: !(g == f && j == i) ==> Entry(pages, g, j) == Entry(old(pages), g, j)
    {
      assert GoodEntry(loc, f, i, Entry(pages, f, i));
      var e := pages[f].ptes[i];
      if e.v {
        c := e.ppn;
      } else {
        if !alloc {
          return -1;
        }
        ghost var p0 := pages;
        c := Kalloc();
        if c < 0 {
          return -1;
        }
        HangKeepsTrees(p0, loc, f, i, c);
        forall r, v | IsRoot(loc, r) && 0 <= v < MAXVPN ensures Lookup(Hang(p0, f, i, c), r, v) == Lookup(p0, r, v) {
          HangIsInvisible(p0, loc, f, i, c, r, v);
        }
        forall g, j
          ensures Entry(p0, g, j).v || !(g == f && j == i) ==> Entry(Hang(p0, f, i, c), g, j) == Entry(p0, g, j)
          ensures Entry(p0, c, j) == NOPTE
        {
          HangAt(p0, loc, f, i, c, g, j);
        }
        pages := pages[c := Table(Empty())];
        pages := pages[f := Table(pages[f].ptes[i := PTE(true, c, NOPERM)])];
        assert pages == Hang(p0, f, i, c);
        loc := loc[c := ChildPlace(loc, f, i)];
      }
    }

    /**
      walk: the level-0 table for vpn, or -1.  No mapping of any page table changes.  It allocates
      exactly the tables that are missing on the way, and fails if and only if there are fewer
      frames than that.
     */
    method Walk(root: int, vpn: int, alloc: bool) returns (f: int)
      requires Valid() && IsRoot(loc, root) && 0 <= vpn < MAXVPN
      modifies this
      ensures Valid() && SameMaps(old(pages), old(loc), pages) && TablesOnly(old(pages), old(loc), pages, loc)
      ensures f >= 0 ==> f == LeafOf(pages, root, vpn) && At(loc, f, Low(root, PX2(vpn), PX1(vpn)))
      ensures f < 0 ==> LeafOf(pages, root, vpn) == -1 && (!alloc || free == [])
      ensures alloc ==> (f < 0 <==> |old(free)| < TablesFor(old(pages), root, vpn))
      ensures f >= 0 ==> |free| == |old(free)| - TablesFor(old(pages), root, vpn) && Walked(old(pages), pages, root, vpn)
      ensures !alloc ==> pages == old(pages) && free == old(free) && loc == old(loc)
      ensures !alloc ==> (f < 0 <==> LeafOf(pages, root, vpn) == -1)
    {
      IndicesInRange(vpn);
      hide PX0;
      hide PX1;
      hide PX2;
      f := root;
      var level := 2;
      ghost var mid := root;
      while level > 0
        invariant 0 <= level <= 2 && Valid() && IsRoot(loc, root)
        invariant SameMaps(old(pages), old(loc), pages) && TablesOnly(old(pages), old(loc), pages, loc)
        invariant level == 2 ==> f == root
        invariant level == 1 ==> Entry(pages, root, PX2(vpn)).v && Entry(pages, root, PX2(vpn)).ppn == f
        invariant level == 1 ==> At(loc, f, Mid(root, PX2(vpn)))
        invariant level == 0 ==> f == LeafOf(pages, root, vpn) && At(loc, f, Low(root, PX2(vpn), PX1(vpn)))
        invariant !alloc ==> pages == old(pages) && free == old(free) && loc == old(loc)
        invariant level == 2 ==> pages == old(pages) && free == old(free)
        invariant forall g, j :: Entry(old(pages), g, j).v ==> Entry(pages, g, j) == Entry(old(pages), g, j)
        invariant level == 1 ==> mid == f && (forall g, j :: !(g == root && j == PX2(vpn)) ==> Entry(pages, g, j) == Entry(old(pages), g, j))
        invariant level == 1 ==> |free| == |old(free)| - if HasMid(old(pages), root, vpn) then 0 else 1
        invariant level < 2 && !HasMid(old(pages), root, vpn) ==> forall j :: !Entry(old(pages), mid, j).v
        invariant level == 0 ==> |free| == |old(free)| - TablesFor(old(pages), root, vpn) && Walked(old(pages), pages, root, vpn)
      {
        f := Descend(f, if level == 2 then PX2(vpn) else PX1(vpn), alloc);
        if f < 0 {
          return -1;
        }
        level := level - 1;
        if level == 1 {
          mid := f;
        } else {
          WalkedIs(old(pages), old(loc), pages, loc, root, mid, vpn);
        }
      }
    }

    // Store one entry through the pointer walk returned.
    method SetPte(ghost root: int, vpn: int, f: int, e: PTE)
      requires Valid() && IsRoot(loc, root) && 0 <= vpn < MAXVPN && f == LeafOf(pages, root, vpn) != -1
      requires if e.v then e.perm.Leaf() else e == NOPTE
      modifies this`pages
      ensures Valid() && |pages| == |old(pages)|
      ensures forall r, v :: IsRoot(loc, r) && 0 <= v < MAXVPN ==>
        Lookup(pages, r, v) == if r == root && v == vpn then e else Lookup(old(pages), r, v)
      ensures forall r, v :: IsRoot(loc, r) && 0 <= v < MAXVPN ==> LeafOf(pages, r, v) == LeafOf(old(pages), r, v)
      ensures forall g :: 0 <= g < |pages| && !pages[g].Table? ==> pages[g] == old(pages)[g]
      ensures forall g :: 0 <= g < |pages| ==> (pages[g].Table? <==> old(pages)[g].Table?)
      ensures SameTables(old(pages), pages, root)
    {
      ghost var p0 := pages;
      LeafPlace(pages, loc, root, vpn);
      SetLeafKeepsTrees(pages, loc, root, vpn, e);
      forall g, j | g != f ensures Entry(SetEntry(p0, f, PX0(vpn), e), g, j) == Entry(p0, g, j) {
        SetEntryAt(p0, f, PX0(vpn), e, g, j);
      }
      LeafKeepsTables(p0, SetEntry(p0, f, PX0(vpn), e), loc, f, root);
      forall r, v | IsRoot(loc, r) && 0 <= v < MAXVPN
        ensures LeafOf(SetEntry(p0, f, PX0(vpn), e), r, v) == LeafOf(p0, r, v)
        ensures Lookup(SetEntry(p0, f, PX0(vpn), e), r, v) == if r == root && v == vpn then e else Lookup(p0, r, v)
      {
        SetLeafIsLocal(p0, loc, root, vpn, e, r, v);
      }
      hide Lookup;
      hide LeafOf;
      hide GoodTrees;
      hide SameTables;
      pages := pages[f := Table(pages[f].ptes[PX0(vpn) := e])];
      assert pages == SetEntry(p0, f, PX0(vpn), e);
    }

    // One pass of the loop of mappages.
    method MapOne(root: int, vpn: int, ppn: int, perm: Perm) returns (st: Status)
      requires Valid() && IsRoot(loc, root) && 0 <= vpn < MAXVPN && perm.Leaf()
      modifies this
      ensures Valid() && TablesOnly(old(pages), old(loc), pages, loc)
      ensures st.Ok? ==> !Lookup(old(pages), root, vpn).v && MapsRange(old(pages), old(loc), pages, root, vpn, 1, ppn, perm)
      ensures !st.Ok? ==> SameMaps(old(pages), old(loc), pages)
      ensures st.NoMemory? <==> |old(free)| < TablesFor(old(pages), root, vpn)
      ensures st.NoMemory? ==> free == []
      ensures st.Panic? ==> Lookup(old(pages), root, vpn).v
      ensures !st.NoMemory? ==> |free| == |old(free)| - TablesFor(old(pages), root, vpn) && Walked(old(pages), pages, root, vpn)
    {
      hide HasMid;
      hide HasLow;
      hide TablesFor;
      hide Walked;
      var f := Walk(root, vpn, true);
      if f < 0 {
        return NoMemory;
      }
      IndicesInRange(vpn);
      if pages[f].ptes[PX0(vpn)].v {
        return Panic;
      }
      assert !Lookup(pages, root, vpn).v;
      hide Lookup;
      hide LeafOf;
      hide GoodTrees;
      hide GoodFree;
      ghost var p1 := pages;
      SetPte(root, vpn, f, PTE(true, ppn, perm));
      WalkedTrans(old(pages), p1, pages, root, vpn);
      return Ok;
    }

    /**
      mappages: k pages get mapped before success, exhaustion or the "remap" panic.  It runs out of
      memory exactly when the tables that are missing for the pages up to there are more than the
      free frames.
     */
    method MapPages(root: int, vpn: int, n: int, ppn: int, perm: Perm) returns (st: Status, k: int)
      requires Valid() && IsRoot(loc, root) && 0 <= vpn && 0 < n && vpn + n <= MAXVPN && perm.Leaf()
      modifies this
      ensures Valid() && TablesOnly(old(pages), old(loc), pages, loc)
      ensures 0 <= k <= n && MapsRange(old(pages), old(loc), pages, root, vpn, k, ppn, perm)
      ensures forall v :: vpn <= v < vpn + k ==> !Lookup(old(pages), root, v).v
      ensures st.Ok? <==> k == n
      ensures st.NoMemory? ==> free == []
      ensures st.NoMemory? <==> k < n && |old(free)| < Cost(old(pages), root, vpn, All(n)[..k + 1], 0)
      ensures st.Panic? ==> Lookup(old(pages), root, vpn + k).v
      ensures st.Ok? ==> |free| == |old(free)| - Cost(old(pages), root, vpn, All(n), 0)
      ensures st.Ok? ==> Tabled(old(pages), pages, root, vpn, All(n))
    {
      hide Cost;
      hide Tabled;
      hide TablesFor;
      hide Walked;
      hide Lookup;
      hide GoodTrees;
      hide GoodFree;
      hide Grew;
      hide IsRoot;
      hide MapsRange;
      hide SameMaps;
      NothingYet(pages, loc, root, vpn, ppn, perm);
      ghost var want := All(n);
      CostNone(pages, root, vpn, want, 0);
      k := 0;
      st := Ok;
      while k < n && st.Ok?
        invariant 0 <= k <= n && Valid() && TablesOnly(old(pages), old(loc), pages, loc)
        invariant MapsRange(old(pages), old(loc), pages, root, vpn, k, ppn, perm)
        invariant forall v :: vpn <= v < vpn + k ==> !Lookup(old(pages), root, v).v
        invariant st.NoMemory? ==> k < n && free == []
        invariant st.Panic? ==> k < n && Lookup(old(pages), root, vpn + k).v
        invariant st.Ok? ==> |free| == |old(free)| - Cost(old(pages), root, vpn, want[..k], 0)
        invariant st.Ok? ==> Tabled(old(pages), pages, root, vpn, want[..k])
        invariant !st.Ok? ==> (st.NoMemory? <==> |old(free)| < Cost(old(pages), root, vpn, want[..k + 1], 0))
        decreases n - k, st.Ok?
      {
        ghost var p1, loc1 := pages, loc;
        RootsKept(old(pages), old(loc), p1, loc1, iset{});
        st := MapOne(root, vpn + k, ppn + k, perm);
        TablesTrans(old(pages), old(loc), p1, loc1, pages, loc);
        MapsSnoc(old(pages), old(loc), p1, loc1, pages, root, vpn, k, ppn, perm);
        CostNext(old(pages), p1, root, vpn, want, 0, k);
        if st.Ok? {
          TabledNext(old(pages), p1, pages, root, vpn, want, k);
          k := k + 1;
        }
      }
      assert k == n ==> want[..k] == want;
    }

    // kfree of a data frame: no tree notices.
    method FreeData(g: int)
      requires Valid() && IsData(pages, g)
      modifies this`pages, this`free
      ensures Valid() && pages == old(pages)[g := Unused] && free == [g] + old(free)
      ensures forall r, v :: Lookup(pages, r, v) == Lookup(old(pages), r, v)
      ensures forall r, v :: LeafOf(pages, r, v) == LeafOf(old(pages), r, v)
      ensures forall f, i :: Entry(pages, f, i) == Entry(old(pages), f, i)
    {
      DataIsInvisible(pages, loc, g, Unused);
      hide Lookup;
      hide LeafOf;
      Kfree(g);
    }

    // One pass of the loop of uvmunmap.
    method UnmapOne(root: int, vpn: int, doFree: bool)
      requires Valid() && IsRoot(loc, root) && 0 <= vpn < MAXVPN
      requires doFree && Lookup(pages, root, vpn).v ==> IsData(pages, Lookup(pages, root, vpn).ppn)
      modifies this
      ensures Valid() && loc == old(loc) && UnmapsRange(old(pages), loc, pages, root, vpn, 1)
      ensures var e := Lookup(old(pages), root, vpn);
        Frees(old(pages), pages, if doFree && e.v then iset{e.ppn} else iset{})
    {
      var f := Walk(root, vpn, false);
      if f < 0 {
        return;
      }
      IndicesInRange(vpn);
      assert GoodEntry(loc, f, PX0(vpn), Entry(pages, f, PX0(vpn)));
      var e := pages[f].ptes[PX0(vpn)];
      assert e == Lookup(pages, root, vpn);
      if !e.v {
        return;
      }
      hide Lookup;
      hide LeafOf;
      hide GoodTrees;
      hide GoodFree;
      if doFree {
        FreeData(e.ppn);
      }
      SetPte(root, vpn, f, NOPTE);
    }

    /** uvmunmap: the range is unmapped, and with doFree exactly the frames behind it become free. */
    method UvmUnmap(root: int, vpn: int, n: int, doFree: bool)
      requires Valid() && IsRoot(loc, root) && 0 <= vpn && 0 <= n && vpn + n <= MAXVPN
      requires doFree ==> Owns(pages, root, vpn, n)
      modifies this
      ensures Valid() && loc == old(loc) && UnmapsRange(old(pages), loc, pages, root, vpn, n)
      ensures Frees(old(pages), pages, Backing(old(pages), root, vpn, n, doFree))
    {
      hide Lookup;
      hide GoodTrees;
      hide GoodFree;
      var a := vpn;
      while a < vpn + n
        invariant vpn <= a <= vpn + n && Valid() && loc == old(loc)
        invariant UnmapsRange(old(pages), loc, pages, root, vpn, a - vpn)
        invariant Frees(old(pages), pages, Backing(old(pages), root, vpn, a - vpn, doFree))
      {
        StillData(old(pages), pages, root, vpn, n, a, doFree);
        UnmapOne(root, a, doFree);
        BackingSnoc(old(pages), root, vpn, a - vpn, doFree);
        a := a + 1;
      }
    }

    // A page not reached yet still has its frame.
    lemma StillData(p0: seq<Page>, p1: seq<Page>, root: int, vpn: int, n: int, a: int, doFree: bool)
      requires IsRoot(loc, root) && 0 <= vpn <= a < vpn + n <= MAXVPN
      requires doFree ==> Owns(p0, root, vpn, n)
      requires UnmapsRange(p0, loc, p1, root, vpn, a - vpn)
      requires Frees(p0, p1, Backing(p0, root, vpn, a - vpn, doFree))
      ensures Lookup(p1, root, a) == Lookup(p0, root, a)
      ensures doFree && Lookup(p1, root, a).v ==> IsData(p1, Lookup(p1, root, a).ppn)
    {
      hide Lookup;
    }

    // ----- Growing a process

    // A fresh frame with the given contents; no tree notices.
    method TakeFrame(bytes: seq<int>) returns (mem: int)
      requires Valid()
      modifies this`pages, this`free
      ensures Valid() && (mem < 0 <==> old(free) == [])
      ensures mem < 0 ==> pages == old(pages) && free == old(free)
      ensures mem >= 0 ==> mem < |old(pages)| && old(pages)[mem].Unused? && pages == old(pages)[mem := Data(bytes)]
      ensures mem >= 0 ==> |free| == |old(free)| - 1
      ensures forall r, v :: Lookup(pages, r, v) == Lookup(old(pages), r, v)
      ensures forall f, i :: Entry(pages, f, i) == Entry(old(pages), f, i)
    {
      hide Lookup;
      hide LeafOf;
      hide GoodTrees;
      ghost var p0 := pages;
      mem := Kalloc();
      if mem < 0 {
        return;
      }
      DataIsInvisible(p0, loc, mem, Data(bytes));
      pages := pages[mem := Data(bytes)];
      assert pages == p0[mem := Data(bytes)];
    }

    // A fresh frame with the given contents, mapped at vpn; on failure nothing is mapped or kept.
    // It takes that frame and the missing tables, and fails exactly when those are not there.
    method AllocOne(root: int, vpn: int, perm: Perm, bytes: seq<int>) returns (st: Status, ghost g: int)
      requires Valid() && IsRoot(loc, root) && 0 <= vpn < MAXVPN && perm.Leaf()
      modifies this
      ensures Valid()
      ensures st.Ok? ==> 0 <= g < |pages| && pages[g] == Data(bytes)
      ensures st.Ok? ==> Grew(old(pages), old(loc), pages, loc, iset{g})
      ensures st.Ok? ==> !Lookup(old(pages), root, vpn).v && MapsRange(old(pages), old(loc), pages, root, vpn, 1, g, perm)
      ensures !st.Ok? ==> SameMaps(old(pages), old(loc), pages) && TablesOnly(old(pages), old(loc), pages, loc)
      ensures st.Panic? ==> Lookup(old(pages), root, vpn).v
      ensures st.NoMemory? <==> |old(free)| < 1 + TablesFor(old(pages), root, vpn)
      ensures st.Ok? ==> |free| == |old(free)| - 1 - TablesFor(old(pages), root, vpn)
      ensures st.Ok? ==> Walked(old(pages), pages, root, vpn)
    {
      hide Lookup;
      hide LeafOf;
      hide GoodTrees;
      hide GoodFree;
      hide Cost;
      hide Tabled;
      hide TablesFor;
      hide Walked;
      hide SameTables;
      var mem := TakeFrame(bytes);
      g := mem;
      if mem < 0 {
        return NoMemory, g;
      }
      ghost var p1 := pages;
      EntriesKeepTables(old(pages), p1, root);
      var k;
      st, k := MapPages(root, vpn, 1, mem, perm);
      assert All(1) == [true] && All(1)[..1] == [true];
      CostOne(p1, pages, root, vpn, 0);
      AsNeeded(old(pages), p1, pages, root, vpn);
      if !st.Ok? {
        FreeData(mem);
      }
    }

    /** uvmdealloc: unmap and free the pages between the rounded sizes. */
    method UvmDealloc(root: int, oldsz: int, newsz: int) returns (r: int)
      requires Valid() && IsRoot(loc, root) && 0 <= newsz && 0 <= oldsz && Pages(oldsz) <= MAXVPN
      requires newsz < oldsz ==> Owns(pages, root, Pages(newsz), Pages(oldsz) - Pages(newsz))
      modifies this
      ensures Valid() && loc == old(loc)
      ensures newsz >= oldsz ==> r == oldsz && pages == old(pages) && free == old(free)
      ensures newsz < oldsz ==>
        && r == newsz
        && UnmapsRange(old(pages), loc, pages, root, Pages(newsz), Pages(oldsz) - Pages(newsz))
        && Frees(old(pages), pages, Backing(old(pages), root, Pages(newsz), Pages(oldsz) - Pages(newsz), true))
    {
      hide Lookup;
      hide GoodTrees;
      hide GoodFree;
      if newsz >= oldsz {
        return oldsz;
      }
      if Pages(newsz) < Pages(oldsz) {
        UvmUnmap(root, Pages(newsz), Pages(oldsz) - Pages(newsz), true);
      } else {
        FreesNothing(pages, root, Pages(newsz));
      }
      return newsz;
    }

    // What uvmalloc asks uvmdealloc to undo is what it has done.
    lemma DeallocRange(p: seq<Page>, l: seq<Loc>, root: int, a: int, oldsz: int)
      requires 0 <= oldsz && Pages(oldsz) <= a
      ensures Pages(a * PGSIZE) == a && (oldsz >= a * PGSIZE ==> a == Pages(oldsz))
      ensures UnmapsRange(p, l, p, root, Pages(oldsz), 0) && Frees(p, p, Backing(p, root, Pages(oldsz), 0, true))
    {
      hide Lookup;
    }

    /**
      uvmalloc: zeroed frames for the new pages, or everything as before but for table pages.  It
      fails if and only if the frames for the pages and their missing tables are not all there.
     */
    method UvmAlloc(root: int, oldsz: int, newsz: int, perm: Perm) returns (r: int, ok: bool)
      requires Valid() && IsRoot(loc, root) && 0 <= oldsz && 0 <= newsz && Pages(newsz) <= MAXVPN && perm.Leaf()
      requires forall v :: Pages(oldsz) <= v < Pages(newsz) ==> Lookup(pages, root, v) == NOPTE
      modifies this
      ensures Valid()
      ensures newsz < oldsz ==> ok && r == oldsz && pages == old(pages) && free == old(free)
      ensures newsz >= oldsz && ok ==>
        && r == newsz
        && Filled(old(pages), old(loc), pages, loc, root, Pages(oldsz), Pages(newsz) - Pages(oldsz))
        && Zeroed(pages, root, Pages(oldsz), Pages(newsz) - Pages(oldsz), perm)
      ensures !ok ==> r == 0 && SameMaps(old(pages), old(loc), pages) && TablesOnly(old(pages), old(loc), pages, loc)
      ensures newsz >= oldsz ==> (ok <==> |old(free)| >= GrowCost(old(pages), root, oldsz, newsz))
      ensures newsz >= oldsz && ok ==> |free| == |old(free)| - GrowCost(old(pages), root, oldsz, newsz)
    {
      hide Cost;
      hide Tabled;
      hide TablesFor;
      hide Walked;
      hide Lookup;
      hide GoodTrees;
      hide GoodFree;
      hide Grew;
      hide MapsRange;
      hide IsRoot;
      hide Filled;
      if newsz < oldsz {
        return oldsz, true;
      }
      var lo, a := Pages(oldsz), Pages(oldsz);
      ghost var p0, loc0 := pages, loc;
      FillNone(pages, loc, root, lo);
      ghost var want := All(Pages(newsz) - lo);
      CostNone(pages, root, lo, want, 1);
      while a < Pages(newsz)
        invariant lo <= a <= Pages(newsz) && Valid() && IsRoot(loc, root)
        invariant Filled(p0, loc0, pages, loc, root, lo, a - lo) && Zeroed(pages, root, lo, a - lo, perm)
        invariant |free| == |old(free)| - Cost(p0, root, lo, want[..a - lo], 1) && Tabled(p0, pages, root, lo, want[..a - lo])
      {
        ghost var p1, loc1 := pages, loc;
        var st, g := AllocOne(root, a, perm, Junk(0));
        FilledFacts(p0, loc0, p1, loc1, root, lo, a - lo);
        CostNext(p0, p1, root, lo, want, 1, a - lo);
        if !st.Ok? {
          CostMono(p0, root, lo, want, 1, a + 1 - lo);
          FillMoreTables(p0, loc0, p1, loc1, pages, loc, root, lo, a - lo);
          FilledFacts(p0, loc0, pages, loc, root, lo, a - lo);
          ghost var p2, loc2 := pages, loc;
          DeallocRange(p2, loc2, root, a, oldsz);
          var _ := UvmDealloc(root, a * PGSIZE, oldsz);
          FillUndone(p0, loc0, p2, loc2, pages, root, lo, a - lo);
          return 0, false;
        }
        ZeroedSnoc(p1, loc1, pages, loc, root, lo, a - lo, g, perm);
        FillOne(p0, loc0, p1, loc1, pages, loc, root, lo, a - lo, g, perm);
        FilledFacts(p0, loc0, pages, loc, root, lo, a + 1 - lo);
        TabledNext(p0, p1, pages, root, lo, want, a - lo);
        a := a + 1;
      }
      assert want[..a - lo] == want;
      return newsz, true;
    }

    // The entry for vpn, read through walk without allocating.
    method ReadPte(root: int, vpn: int) returns (e: PTE)
      requires Valid() && IsRoot(loc, root) && 0 <= vpn < MAXVPN
      modifies this
      ensures pages == old(pages) && free == old(free) && loc == old(loc)
      ensures e == Lookup(pages, root, vpn) && (if e.v then e.perm.Leaf() else e == NOPTE)
    {
      var f := Walk(root, vpn, false);
      if f < 0 {
        return NOPTE;
      }
      IndicesInRange(vpn);
      assert GoodEntry(loc, f, PX0(vpn), Entry(pages, f, PX0(vpn)));
      return pages[f].ptes[PX0(vpn)];
    }

    /**
      uvmcopy: the first Pages(sz) pages of `parent` copied into `child`, or child as before.  It
      fails if and only if the free frames are fewer than the pages that are mapped there and the
      tables that child is missing for them.
     */
    method UvmCopy(parent: int, child: int, sz: int) returns (ok: bool)
      requires Valid() && IsRoot(loc, parent) && IsRoot(loc, child) && parent != child && 0 <= sz && Pages(sz) <= MAXVPN
      requires forall v :: 0 <= v < Pages(sz) ==> Lookup(pages, child, v) == NOPTE
      requires forall v :: 0 <= v < Pages(sz) && Lookup(pages, parent, v).v ==> IsData(pages, Lookup(pages, parent, v).ppn)
      modifies this
      ensures Valid()
      ensures ok ==> Filled(old(pages), old(loc), pages, loc, child, 0, Pages(sz))
      ensures ok ==> Copied(old(pages), pages, parent, child, Pages(sz))
      ensures !ok ==> SameMaps(old(pages), old(loc), pages) && TablesOnly(old(pages), old(loc), pages, loc)
      ensures ok <==> |old(free)| >= CopyCost(old(pages), parent, child, Pages(sz), 1)
      ensures ok ==> |free| == |old(free)| - CopyCost(old(pages), parent, child, Pages(sz), 1)
    {
      hide Cost;
      hide Tabled;
      hide TablesFor;
      hide Walked;
      hide SameTables;
      hide Lookup;
      hide GoodTrees;
      hide GoodFree;
      hide Grew;
      hide MapsRange;
      hide IsRoot;
      hide Filled;
      hide Copied;
      var i := 0;
      ghost var p0, loc0 := pages, loc;
      FillNone(pages, loc, child, 0);
      CopiedNone(pages, parent, child);
      ghost var want := MappedIn(pages, parent, Pages(sz));
      CostNone(pages, child, 0, want, 1);
      while i < Pages(sz)
        invariant 0 <= i <= Pages(sz) && Valid() && IsRoot(loc, parent) && IsRoot(loc, child)
        invariant Filled(p0, loc0, pages, loc, child, 0, i) && Copied(p0, pages, parent, child, i)
        invariant |free| == |old(free)| - Cost(p0, child, 0, want[..i], 1) && Tabled(p0, pages, child, 0, want[..i])
      {
        ghost var p1, loc1 := pages, loc;
        FilledFacts(p0, loc0, p1, loc1, child, 0, i);
        SourceKept(p0, loc0, p1, loc1, parent, child, i);
        CostNext(p0, p1, child, 0, want, 1, i);
        var e := ReadPte(parent, i);
        if !e.v {
          EntriesKeepTables(p1, pages, child);
          FillSkip(p0, loc0, p1, loc1, child, 0, i);
          CopiedSkip(p0, p1, parent, child, i);
        } else {
          var st, g := AllocOne(child, i, e.perm, pages[e.ppn].bytes);
          if !st.Ok? {
            CostMono(p0, child, 0, want, 1, i + 1);
            FillMoreTables(p0, loc0, p1, loc1, pages, loc, child, 0, i);
            FilledFacts(p0, loc0, pages, loc, child, 0, i);
            ghost var p2, loc2 := pages, loc;
            UvmUnmap(child, 0, i, true);
            FillUndone(p0, loc0, p2, loc2, pages, child, 0, i);
            return false;
          }
          CopiedSnoc(p0, loc0, p1, loc1, pages, loc, parent, child, i, g);
          FillOne(p0, loc0, p1, loc1, pages, loc, child, 0, i, g, e.perm);
        }
        FilledFacts(p0, loc0, pages, loc, child, 0, i + 1);
        TabledNext(p0, p1, pages, child, 0, want, i);
        i := i + 1;
      }
      assert want[..i] == want;
      return true;
    }

    /**
      uvmshare: `child` maps the very frames of `parent`, or is as before; no data frame is taken or
      freed.  It fails if and only if the free frames are fewer than the tables that child is
      missing.
     */
    method UvmShare(parent: int, child: int, sz: int) returns (ok: bool)
      requires Valid() && IsRoot(loc, parent) && IsRoot(loc, child) && parent != child && 0 <= sz && Pages(sz) <= MAXVPN
      requires forall v :: 0 <= v < Pages(sz) ==> Lookup(pages, child, v) == NOPTE
      modifies this
      ensures Valid() && TablesOnly(old(pages), old(loc), pages, loc)
      ensures ok ==> Shared(old(pages), old(loc), pages, parent, child, Pages(sz))
      ensures !ok ==> SameMaps(old(pages), old(loc), pages)
      ensures ok <==> |old(free)| >= CopyCost(old(pages), parent, child, Pages(sz), 0)
      ensures ok ==> |free| == |old(free)| - CopyCost(old(pages), parent, child, Pages(sz), 0)
    {
      hide Cost;
      hide Tabled;
      hide TablesFor;
      hide Walked;
      hide SameTables;
      hide Lookup;
      hide GoodTrees;
      hide GoodFree;
      hide Grew;
      hide MapsRange;
      hide IsRoot;
      hide SameMaps;
      var i := 0;
      ghost var p0, loc0 := pages, loc;
      NothingYet(pages, loc, child, 0, 0, NOPERM);
      ghost var want := MappedIn(pages, parent, Pages(sz));
      CostNone(pages, child, 0, want, 0);
      while i < Pages(sz)
        invariant 0 <= i <= Pages(sz) && Valid() && IsRoot(loc, parent) && IsRoot(loc, child)
        invariant TablesOnly(p0, loc0, pages, loc) && Shared(p0, loc0, pages, parent, child, i)
        invariant |free| == |old(free)| - Cost(p0, child, 0, want[..i], 0) && Tabled(p0, pages, child, 0, want[..i])
      {
        ghost var p1, loc1 := pages, loc;
        RootsKept(p0, loc0, p1, loc1, iset{});
        CostNext(p0, p1, child, 0, want, 0, i);
        var e := ReadPte(parent, i);
        assert e == Lookup(p0, parent, i);
        if e.v {
          var st, k := MapPages(child, i, 1, e.ppn, e.perm);
          assert All(1) == [true] && All(1)[..1] == [true];
          CostOne(p1, pages, child, i, 0);
          TablesTrans(p0, loc0, p1, loc1, pages, loc);
          RootsKept(p1, loc1, pages, loc, iset{});
          SharedStep(p0, loc0, p1, loc1, pages, parent, child, i, k);
          if !st.Ok? {
            CostMono(p0, child, 0, want, 0, i + 1);
            ghost var p2, loc2 := pages, loc;
            UvmUnmap(child, 0, i, false);
            SharedUndone(p0, loc0, p2, loc2, pages, parent, child, i);
            return false;
          }
        } else {
          EntriesKeepTables(p1, pages, child);
        }
        TabledNext(p0, p1, pages, child, 0, want, i);
        i := i + 1;
      }
      assert want[..i] == want;
      return true;
    }

    // ----- Teardown

    /** freewalk(f) while the frames of f's tree are still those of t; `false` is the "leaf" panic. */
    method Freewalk(f: int, level: nat, ghost t: seq<Page>) returns (ok: bool)
      requires GoodTrees(t, loc) && GoodFree(pages, free) && Intact(loc, t, pages, f) && 0 <= f < |loc|
      requires if level == 2 then loc[f].Top? else if level == 1 then loc[f].Mid? else loc[f].Low?
      modifies this`pages, this`free
      ensures ok <==> NoLeaves(t, loc, f)
      ensures ok ==> GoodFree(pages, free) && Felled(loc, old(pages), pages, f)
      decreases level
    {
      hide GoodFree;
      hide NoLeaves;
      hide Below;
      hide Felled;
      ghost var p0 := pages;
      StartWalking(loc, t, p0, f);
      var i := 0;
      while i < ENTRIES
        invariant 0 <= i <= ENTRIES && GoodFree(pages, free) && Walking(loc, p0, pages, f, i)
        invariant loc[f].Low? ==> forall j :: 0 <= j < i ==> !Entry(t, f, j).v
        invariant !loc[f].Low? ==> forall j :: 0 <= j < i && Entry(t, f, j).v ==> NoLeaves(t, loc, Entry(t, f, j).ppn)
      {
        var pte := pages[f].ptes[i];
        assert InTree(loc, f, f);
        assert pte == Entry(t, f, i) && GoodEntry(loc, f, i, Entry(t, f, i));
        if pte.v && !pte.perm.Leaf() {
          ChildIntact(loc, t, p0, pages, f, i);
          ghost var p1 := pages;
          ok := Freewalk(pte.ppn, level - 1, t);
          if !ok {
            LeafFound(loc, t, f, i);
            return;
          }
          WalkOn(loc, t, p0, p1, pages, f, i);
          TableEdit(pages, free, f, Table(pages[f].ptes[i := NOPTE]));
          pages := pages[f := Table(pages[f].ptes[i := NOPTE])];
        } else if pte.v {
          LeafFound(loc, t, f, i);
          return false;
        } else {
          WalkPast(loc, t, p0, pages, f, i);
        }
        i := i + 1;
      }
      AllChecked(loc, t, f);
      WalkDone(loc, p0, pages, f);
      Kfree(f);
      return true;
    }

    // All table pages of a root without mappings.
    method FreeTables(root: int)
      requires Valid() && IsRoot(loc, root) && forall v :: 0 <= v < MAXVPN ==> !Lookup(pages, root, v).v
      modifies this
      ensures Valid() && loc == Forget(old(loc), root) && Felled(old(loc), old(pages), pages, root)
      ensures forall r, v :: IsRoot(old(loc), r) && r != root ==> Lookup(pages, r, v) == Lookup(old(pages), r, v)
    {
      hide GoodTrees;
      hide GoodFree;
      hide Lookup;
      hide InTree;
      hide NoLeaves;
      ghost var p0 := pages;
      UnmappedHasNoLeaves(pages, loc, root);
      var ok := Freewalk(root, 2, pages);
      ForgetTree(p0, loc, pages, root);
      loc := Forget(loc, root);
    }

    /** uvmfree: every frame behind [0, sz) and every table page of the root returns to the free list. */
    method UvmFree(root: int, sz: int)
      requires Valid() && IsRoot(loc, root) && 0 <= sz && Pages(sz) <= MAXVPN && Owns(pages, root, 0, Pages(sz))
      requires forall v :: Pages(sz) <= v < MAXVPN ==> !Lookup(pages, root, v).v
      modifies this
      ensures Valid() && loc == Forget(old(loc), root)
      ensures TornDown(old(pages), old(loc), pages, root, Backing(old(pages), root, 0, Pages(sz), true))
    {
      hide GoodFree;
      hide GoodTrees;
      hide Lookup;
      hide InTree;
      ghost var p0, loc0 := pages, loc;
      UnmapsNothing(pages, loc, root);
      if sz > 0 {
        UvmUnmap(root, 0, Pages(sz), true);
      }
      ghost var p1 := pages;
      FreeTables(root);
      TearDown(p0, loc0, p1, pages, root, 0, Pages(sz), true);
    }

    /**
      proc_freepagetable and proc_freepagetable_thread: a process gives back the frames of its
      user memory, a thread only its table pages and never a frame it shares.
     */
    method ProcFreePagetable(root: int, sz: int, isThread: bool)
      requires Valid() && IsRoot(loc, root) && 0 <= sz && Pages(sz) <= TRAPFRAME
      requires !isThread ==> Owns(pages, root, 0, Pages(sz))
      requires forall v :: Pages(sz) <= v < TRAPFRAME ==> !Lookup(pages, root, v).v
      modifies this
      ensures Valid() && loc == Forget(old(loc), root)
      ensures TornDown(old(pages), old(loc), pages, root, Backing(old(pages), root, 0, Pages(sz), !isThread))
    {
      hide GoodFree;
      hide GoodTrees;
      hide Lookup;
      hide InTree;
      ghost var p0, loc0 := pages, loc;
      UvmUnmap(root, TRAMPOLINE, 1, false);
      ghost var p1 := pages;
      UvmUnmap(root, TRAPFRAME, 1, false);
      TopUnmapped(p0, loc0, p1, pages, root, Pages(sz));
      ghost var p2 := pages;
      if isThread {
        UnmapsNothing(pages, loc, root);
        if sz > 0 {
          UvmUnmap(root, 0, Pages(sz), false);
        }
        ghost var p3 := pages;
        FreeTables(root);
        TearDown(p2, loc0, p3, pages, root, 0, Pages(sz), false);
      } else {
        UvmFree(root, sz);
      }
      TornDownEarlier(p0, loc0, p2, pages, root, Pages(sz), !isThread);
    }
  }
}
