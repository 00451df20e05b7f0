/**
  Sv39 page tables as kernel/vm.c builds them (section 4.4 of the RISC-V Privileged
  Architecture, version 20211203): three levels of 512-entry table pages over the page frames
  of kernel/kalloc.c.  The module defines what a tree of table pages means, a flat map from
  virtual page numbers to entries, and when the frames of memory form sound trees.
 */
module PageTable {
  const ENTRIES: int := 512
  const MAXVPN: int := 0x400_0000 // MAXVA / PGSIZE
  const TOPENTRIES: int := 256    // MAXVA leaves half of the top table unused
  const PGSIZE: int := 4096

  datatype Perm = Perm(r: bool, w: bool, x: bool, u: bool) {
    predicate Leaf() {
      r || w || x
    }
  }

  /** A page-table entry: valid bit, frame number and permission bits. */
  datatype PTE = PTE(v: bool, ppn: int, perm: Perm)

  const NOPERM := Perm(false, false, false, false)
  const NOPTE := PTE(false, 0, NOPERM)

  /** The contents of a page frame, by the use that is made of it. */
  datatype Page = Unused | Table(ptes: seq<PTE>) | Data(bytes: seq<int>)

  // ----- The address split

  function PX2(vpn: int): int { vpn / 0x4_0000 }
  function PX1(vpn: int): int { vpn / ENTRIES % ENTRIES }
  function PX0(vpn: int): int { vpn % ENTRIES }

  lemma IndicesInRange(vpn: int)
    requires 0 <= vpn < MAXVPN
    ensures 0 <= PX2(vpn) < TOPENTRIES && 0 <= PX1(vpn) < ENTRIES && 0 <= PX0(vpn) < ENTRIES
  {
  }

  // The index triple determines the page.
  lemma IndicesInjective(a: int, b: int)
    requires 0 <= a < MAXVPN && 0 <= b < MAXVPN
    requires PX2(a) == PX2(b) && PX1(a) == PX1(b) && PX0(a) == PX0(b)
    ensures a == b
  {
    assert a == ENTRIES * (a / ENTRIES) + a % ENTRIES;
    assert b == ENTRIES * (b / ENTRIES) + b % ENTRIES;
    assert a / ENTRIES == ENTRIES * (a / ENTRIES / ENTRIES) + a / ENTRIES % ENTRIES;
    assert b / ENTRIES == ENTRIES * (b / ENTRIES / ENTRIES) + b / ENTRIES % ENTRIES;
    assert a / ENTRIES / ENTRIES == a / 0x4_0000 && b / ENTRIES / ENTRIES == b / 0x4_0000;
  }

  function Compose(i2: int, i1: int, i0: int): int {
    (i2 * ENTRIES + i1) * ENTRIES + i0
  }

  lemma ComposeIndices(i2: int, i1: int, i0: int)
    requires 0 <= i2 < TOPENTRIES && 0 <= i1 < ENTRIES && 0 <= i0 < ENTRIES
    ensures var v := Compose(i2, i1, i0);
      0 <= v < MAXVPN && PX2(v) == i2 && PX1(v) == i1 && PX0(v) == i0
  {
    var v := Compose(i2, i1, i0);
    assert v / ENTRIES == i2 * ENTRIES + i1;
    assert v / 0x4_0000 == v / ENTRIES / ENTRIES;
  }

  // ----- The stored word

  function Bit(b: bool): int { if b then 1 else 0 }

  // An entry as the hardware stores it: the frame number above ten flag bits, V R W X U lowest.
  function Flags(e: PTE): int {
    Bit(e.v) + 2 * (Bit(e.perm.r) + 2 * (Bit(e.perm.w) + 2 * (Bit(e.perm.x) + 2 * Bit(e.perm.u))))
  }

  function PteWord(e: PTE): int {
    e.ppn * 1024 + Flags(e)
  }

  function PteOf(word: int): PTE {
    var f := word % 1024;
    PTE(f % 2 == 1, word / 1024, Perm(f / 2 % 2 == 1, f / 2 / 2 % 2 == 1, f / 2 / 2 / 2 % 2 == 1, f / 2 / 2 / 2 / 2 % 2 == 1))
  }

  /** The record stands for the word: reading back a stored entry gives the entry. */
  lemma PteRoundTrip(e: PTE)
    requires e.ppn >= 0
    ensures PteOf(PteWord(e)) == e
    ensures PteWord(e) / 1024 * PGSIZE == e.ppn * PGSIZE && PteWord(e) % 1024 == Flags(e)
  {
    hide Flags;
    FlagBits(e);
    Split(e.ppn, Flags(e));
  }

  lemma Split(p: int, f: int)
    requires 0 <= f < 1024
    ensures (p * 1024 + f) / 1024 == p && (p * 1024 + f) % 1024 == f
  {
  }

  lemma FlagBits(e: PTE)
    ensures var f := Flags(e);
      && 0 <= f < 32 && (f % 2 == 1 <==> e.v) && (f / 2 % 2 == 1 <==> e.perm.r) && (f / 2 / 2 % 2 == 1 <==> e.perm.w)
      && (f / 2 / 2 / 2 % 2 == 1 <==> e.perm.x) && (f / 2 / 2 / 2 / 2 % 2 == 1 <==> e.perm.u)
  {
    hide Bit;
    BitIs(e.v);
    BitIs(e.perm.r);
    BitIs(e.perm.w);
    BitIs(e.perm.x);
    BitIs(e.perm.u);
    var f4 := Bit(e.perm.u);
    var f3 := Bit(e.perm.x) + 2 * f4;
    var f2 := Bit(e.perm.w) + 2 * f3;
    var f1 := Bit(e.perm.r) + 2 * f2;
    Half(Flags(e), f1, Bit(e.v));
    Half(f1, f2, Bit(e.perm.r));
    Half(f2, f3, Bit(e.perm.w));
    Half(f3, f4, Bit(e.perm.x));
  }

  /** An entry is a leaf exactly when the word has one of the bits that freewalk masks out. */
  lemma LeafBits(e: PTE)
    ensures e.perm.Leaf() <==> Flags(e) / 2 % 8 != 0
  {
    hide Bit;
    BitIs(e.v);
    BitIs(e.perm.r);
    BitIs(e.perm.w);
    BitIs(e.perm.x);
    BitIs(e.perm.u);
    var low := Bit(e.perm.r) + 2 * Bit(e.perm.w) + 4 * Bit(e.perm.x);
    Half(Flags(e), low + 8 * Bit(e.perm.u), Bit(e.v));
  }

  lemma BitIs(b: bool)
    ensures 0 <= Bit(b) <= 1 && (Bit(b) == 1 <==> b)
  {
  }

  lemma Half(w: int, q: int, b: int)
    requires w == 2 * q + b && 0 <= b <= 1
    ensures w / 2 == q && w % 2 == b
  {
  }

  // ----- What a tree means

  function Entry(pages: seq<Page>, f: int, i: int): PTE {
    if 0 <= f < |pages| && pages[f].Table? && 0 <= i < |pages[f].ptes| then pages[f].ptes[i] else NOPTE
  }

  // The level-0 table that walk reaches for vpn, or -1.
  function LeafOf(pages: seq<Page>, root: int, vpn: int): int {
    var e2 := Entry(pages, root, PX2(vpn));
    if !e2.v then -1
    else
      var e1 := Entry(pages, e2.ppn, PX1(vpn));
      if !e1.v then -1 else e1.ppn
  }

  // The flat map a root denotes.
  function Lookup(pages: seq<Page>, root: int, vpn: int): PTE {
    Entry(pages, LeafOf(pages, root, vpn), PX0(vpn))
  }

  // ----- Sound memory

  /** The one place a table page has in the one tree it belongs to. */
  datatype Loc = NoTable | Top | Mid(root: int, i2: int) | Low(root: int, i2: int, i1: int)

  ghost predicate IsRoot(loc: seq<Loc>, f: int) {
    0 <= f < |loc| && loc[f].Top?
  }

  ghost predicate At(loc: seq<Loc>, f: int, l: Loc) {
    0 <= f < |loc| && loc[f] == l
  }

  // Valid entries of upper tables point to the table of that place; those of level 0 are leaves.
  ghost predicate GoodEntry(loc: seq<Loc>, f: int, i: int, e: PTE)
    requires 0 <= f < |loc|
  {
    if !e.v then e == NOPTE
    else
      match loc[f]
      case NoTable => false
      case Top => !e.perm.Leaf() && At(loc, e.ppn, Mid(f, i))
      case Mid(r, i2) => !e.perm.Leaf() && At(loc, e.ppn, Low(r, i2, i))
      case Low(_, _, _) => e.perm.Leaf()
  }

  // Every table page but a root hangs where its place says.
  ghost predicate Hangs(pages: seq<Page>, loc: seq<Loc>, f: int)
    requires 0 <= f < |loc|
  {
    match loc[f]
    case NoTable => true
    case Top => true
    case Mid(r, i2) =>
      IsRoot(loc, r) && 0 <= i2 < TOPENTRIES && Entry(pages, r, i2).v && Entry(pages, r, i2).ppn == f
    case Low(r, i2, i1) =>
      var m := Entry(pages, r, i2).ppn;
      At(loc, m, Mid(r, i2)) && 0 <= i1 < ENTRIES && Entry(pages, m, i1).v && Entry(pages, m, i1).ppn == f
  }

  ghost predicate GoodTrees(pages: seq<Page>, loc: seq<Loc>) {
    && |loc| == |pages|
    && (forall f :: 0 <= f < |pages| ==>
          (pages[f].Table? <==> !loc[f].NoTable?) && (pages[f].Table? ==> |pages[f].ptes| == ENTRIES))
    && (forall f, i :: 0 <= f < |pages| ==> GoodEntry(loc, f, i, Entry(pages, f, i)))
    && (forall f :: 0 <= f < |pages| ==> Hangs(pages, loc, f))
  }

  // The free list holds exactly the unused frames, each once.
  ghost predicate GoodFree(pages: seq<Page>, free: seq<int>) {
    && (forall i, j :: 0 <= i < j < |free| ==> free[i] != free[j])
    && (forall i :: 0 <= i < |free| ==> 0 <= free[i] < |pages| && pages[free[i]].Unused?)
    && (forall f :: 0 <= f < |pages| && pages[f].Unused? ==> f in free)
  }

  // ----- Places are unique

  lemma LeafPlace(pages: seq<Page>, loc: seq<Loc>, root: int, vpn: int)
    requires GoodTrees(pages, loc) && IsRoot(loc, root) && LeafOf(pages, root, vpn) != -1
    ensures At(loc, LeafOf(pages, root, vpn), Low(root, PX2(vpn), PX1(vpn)))
  {
    var e2 := Entry(pages, root, PX2(vpn));
    assert GoodEntry(loc, root, PX2(vpn), e2);
    assert At(loc, e2.ppn, Mid(root, PX2(vpn)));
    assert GoodEntry(loc, e2.ppn, PX1(vpn), Entry(pages, e2.ppn, PX1(vpn)));
  }

  // ----- Elementary changes

  // Writing one entry of a level-0 table changes the flat map at one page of one root only.
  ghost function SetEntry(pages: seq<Page>, f: int, i: int, e: PTE): seq<Page>
    requires 0 <= f < |pages| && pages[f].Table? && 0 <= i < |pages[f].ptes|
  {
    pages[f := Table(pages[f].ptes[i := e])]
  }

  lemma SetEntryAt(pages: seq<Page>, f: int, i: int, e: PTE, g: int, j: int)
    requires 0 <= f < |pages| && pages[f].Table? && 0 <= i < |pages[f].ptes|
    ensures Entry(SetEntry(pages, f, i, e), g, j) == if g == f && j == i then e else Entry(pages, g, j)
  {
  }

  lemma SetLeafIsLocal(pages: seq<Page>, loc: seq<Loc>, root: int, vpn: int, e: PTE, r: int, v: int)
    requires GoodTrees(pages, loc) && IsRoot(loc, root) && 0 <= vpn < MAXVPN && LeafOf(pages, root, vpn) != -1
    requires IsRoot(loc, r) && 0 <= v < MAXVPN
    ensures var f := LeafOf(pages, root, vpn);
      && 0 <= f < |pages| && pages[f].Table? && 0 <= PX0(vpn) < |pages[f].ptes|
      && LeafOf(SetEntry(pages, f, PX0(vpn), e), r, v) == LeafOf(pages, r, v)
      && Lookup(SetEntry(pages, f, PX0(vpn), e), r, v) == if r == root && v == vpn then e else Lookup(pages, r, v)
  {
    var f := LeafOf(pages, root, vpn);
    LeafPlace(pages, loc, root, vpn);
    IndicesInRange(vpn);
    IndicesInRange(v);
    hide PX0;
    hide PX1;
    hide PX2;
    var pages' := SetEntry(pages, f, PX0(vpn), e);
    var e2 := Entry(pages, r, PX2(v));
    SetEntryAt(pages, f, PX0(vpn), e, r, PX2(v));
    assert GoodEntry(loc, r, PX2(v), e2);
    SetEntryAt(pages, f, PX0(vpn), e, e2.ppn, PX1(v));
    if LeafOf(pages, r, v) != -1 {
      LeafPlace(pages, loc, r, v);
      SetEntryAt(pages, f, PX0(vpn), e, LeafOf(pages, r, v), PX0(v));
      if LeafOf(pages, r, v) == f && PX0(v) == PX0(vpn) {
        IndicesInjective(v, vpn);
      }
    }
  }

  lemma SetLeafKeepsTrees(pages: seq<Page>, loc: seq<Loc>, root: int, vpn: int, e: PTE)
    requires GoodTrees(pages, loc) && IsRoot(loc, root) && 0 <= vpn < MAXVPN && LeafOf(pages, root, vpn) != -1
    requires if e.v then e.perm.Leaf() else e == NOPTE
    ensures var f := LeafOf(pages, root, vpn);
      && 0 <= f < |pages| && pages[f].Table? && 0 <= PX0(vpn) < |pages[f].ptes|
      && GoodTrees(SetEntry(pages, f, PX0(vpn), e), loc)
  {
    var f := LeafOf(pages, root, vpn);
    LeafPlace(pages, loc, root, vpn);
    IndicesInRange(vpn);
    hide PX0;
    hide PX1;
    hide PX2;
    var pages' := SetEntry(pages, f, PX0(vpn), e);
    forall g, j | 0 <= g < |pages| ensures GoodEntry(loc, g, j, Entry(pages', g, j)) {
      SetEntryAt(pages, f, PX0(vpn), e, g, j);
      assert GoodEntry(loc, g, j, Entry(pages, g, j));
    }
    forall g | 0 <= g < |pages| ensures Hangs(pages', loc, g) {
      HangsKept(pages, pages', loc, g, f);
    }
  }

  // What hangs somewhere keeps hanging there while the entries of upper tables stay.
  lemma HangsKept(pages: seq<Page>, pages': seq<Page>, loc: seq<Loc>, g: int, f: int)
    requires GoodTrees(pages, loc) && 0 <= g < |loc| && 0 <= f < |loc| && loc[f].Low?
    requires forall h, i :: h != f ==> Entry(pages', h, i) == Entry(pages, h, i)
    ensures Hangs(pages', loc, g)
  {
    assert Hangs(pages, loc, g);
    if loc[g].Low? { assert Hangs(pages, loc, Entry(pages, loc[g].root, loc[g].i2).ppn); }
  }

  // Frames that are not tables do not matter to any tree.
  lemma DataIsInvisible(pages: seq<Page>, loc: seq<Loc>, g: int, page: Page)
    requires 0 <= g < |pages| && !pages[g].Table? && !page.Table?
    ensures forall f, i :: Entry(pages[g := page], f, i) == Entry(pages, f, i)
    ensures forall r, v :: Lookup(pages[g := page], r, v) == Lookup(pages, r, v)
    ensures forall r, v :: LeafOf(pages[g := page], r, v) == LeafOf(pages, r, v)
    ensures GoodTrees(pages, loc) ==> GoodTrees(pages[g := page], loc)
  {
    hide PX0;
    hide PX1;
    hide PX2;
    var pages' := pages[g := page];
    assert forall f, i :: Entry(pages', f, i) == Entry(pages, f, i);
    if GoodTrees(pages, loc) {
      forall f | 0 <= f < |pages| ensures Hangs(pages', loc, f) {
        assert Hangs(pages, loc, f);
      }
    }
  }

  // ----- A new table page

  function Empty(): (s: seq<PTE>)
    ensures |s| == ENTRIES && forall i :: 0 <= i < |s| ==> s[i] == NOPTE
  {
    seq(ENTRIES, _ => NOPTE)
  }

  // An empty table changes no entry, so it can be the root of a tree of its own.
  lemma RootKeepsTrees(pages: seq<Page>, loc: seq<Loc>, f: int)
    requires GoodTrees(pages, loc) && 0 <= f < |pages| && pages[f].Unused?
    ensures GoodTrees(pages[f := Table(Empty())], loc[f := Top])
    ensures forall r, v :: Lookup(pages[f := Table(Empty())], r, v) == Lookup(pages, r, v)
    ensures forall v :: Lookup(pages, f, v) == NOPTE
  {
    hide PX0;
    hide PX1;
    hide PX2;
    var pages', loc' := pages[f := Table(Empty())], loc[f := Top];
    assert forall g, i :: Entry(pages', g, i) == Entry(pages, g, i);
    assert Entry(pages, -1, 0) == NOPTE;
    forall g, i | 0 <= g < |pages| ensures GoodEntry(loc', g, i, Entry(pages', g, i)) {
      assert GoodEntry(loc, g, i, Entry(pages, g, i));
    }
    forall g | 0 <= g < |pages| ensures Hangs(pages', loc', g) {
      assert Hangs(pages, loc, g);
    }
  }

  ghost function ChildPlace(loc: seq<Loc>, f: int, i: int): Loc
    requires 0 <= f < |loc| && (loc[f].Top? || loc[f].Mid?)
  {
    if loc[f].Top? then Mid(f, i) else Low(loc[f].root, loc[f].i2, i)
  }

  // The frames after walk has hung the fresh table page c on entry i of table f.
  ghost function Hang(pages: seq<Page>, f: int, i: int, c: int): seq<Page>
    requires 0 <= f < |pages| && pages[f].Table? && 0 <= i < |pages[f].ptes| && 0 <= c < |pages| && c != f
  {
    SetEntry(pages[c := Table(Empty())], f, i, PTE(true, c, NOPERM))
  }

  ghost predicate CanHang(pages: seq<Page>, loc: seq<Loc>, f: int, i: int, c: int) {
    && GoodTrees(pages, loc)
    && 0 <= f < |loc| && (loc[f].Top? || loc[f].Mid?) && !Entry(pages, f, i).v
    && 0 <= i < ENTRIES && (loc[f].Top? ==> i < TOPENTRIES)
    && 0 <= c < |pages| && pages[c].Unused?
  }

  lemma HangAt(pages: seq<Page>, loc: seq<Loc>, f: int, i: int, c: int, g: int, j: int)
    requires CanHang(pages, loc, f, i, c)
    ensures c != f && Entry(pages, c, j) == NOPTE
    ensures Entry(Hang(pages, f, i, c), g, j) ==
      if g == f && j == i then PTE(true, c, NOPERM) else Entry(pages, g, j)
  {
  }

  lemma HangKeepsTrees(pages: seq<Page>, loc: seq<Loc>, f: int, i: int, c: int)
    requires CanHang(pages, loc, f, i, c)
    ensures c != f && GoodTrees(Hang(pages, f, i, c), loc[c := ChildPlace(loc, f, i)])
  {
    HangAt(pages, loc, f, i, c, f, i);
    var pages', loc' := Hang(pages, f, i, c), loc[c := ChildPlace(loc, f, i)];
    forall g, j | 0 <= g < |pages| ensures GoodEntry(loc', g, j, Entry(pages', g, j)) {
      HangAt(pages, loc, f, i, c, g, j);
      assert GoodEntry(loc, g, j, Entry(pages, g, j));
    }
    forall g | 0 <= g < |pages| ensures Hangs(pages', loc', g) {
      HangKeepsHangs(pages, loc, f, i, c, g);
    }
  }

  lemma HangKeepsHangs(pages: seq<Page>, loc: seq<Loc>, f: int, i: int, c: int, g: int)
    requires CanHang(pages, loc, f, i, c) && 0 <= g < |pages|
    ensures c != f && Hangs(Hang(pages, f, i, c), loc[c := ChildPlace(loc, f, i)], g)
  {
    forall h, j ensures Entry(Hang(pages, f, i, c), h, j) ==
      if h == f && j == i then PTE(true, c, NOPERM) else Entry(pages, h, j)
    {
      HangAt(pages, loc, f, i, c, h, j);
    }
    assert Hangs(pages, loc, g) && Hangs(pages, loc, f);
    if loc[g].Low? { assert Hangs(pages, loc, Entry(pages, loc[g].root, loc[g].i2).ppn); }
  }

  // An empty table changes no mapping of any root.
  lemma HangIsInvisible(pages: seq<Page>, loc: seq<Loc>, f: int, i: int, c: int, r: int, v: int)
    requires CanHang(pages, loc, f, i, c) && IsRoot(loc, r)
    ensures c != f && Lookup(Hang(pages, f, i, c), r, v) == Lookup(pages, r, v)
  {
    hide PX0;
    hide PX1;
    hide PX2;
    var pages' := Hang(pages, f, i, c);
    HangAt(pages, loc, f, i, c, r, PX2(v));
    var e2, e2' := Entry(pages, r, PX2(v)), Entry(pages', r, PX2(v));
    HangAt(pages, loc, f, i, c, e2'.ppn, PX1(v));
    assert GoodEntry(loc, r, PX2(v), e2);
    var e1' := Entry(pages', e2'.ppn, PX1(v));
    HangAt(pages, loc, f, i, c, e1'.ppn, PX0(v));
    if e2.v {
      assert GoodEntry(loc, e2.ppn, PX1(v), Entry(pages, e2.ppn, PX1(v)));
      if Entry(pages, e2.ppn, PX1(v)).v { LeafPlace(pages, loc, r, v); }
    }
    HangAt(pages, loc, f, i, c, c, PX1(v));
    HangAt(pages, loc, f, i, c, c, PX0(v));
    HangAt(pages, loc, f, i, c, -1, PX0(v));
  }

  // ----- Whole trees

  // Frame g is a table page below one of the first n entries of table f.
  ghost predicate Below(loc: seq<Loc>, f: int, n: int, g: int)
    requires 0 <= f < |loc| && 0 <= g < |loc|
  {
    match loc[f]
    case Top => (loc[g].Mid? || loc[g].Low?) && loc[g].root == f && loc[g].i2 < n
    case Mid(r, i2) => loc[g].Low? && loc[g].root == r && loc[g].i2 == i2 && loc[g].i1 < n
    case _ => false
  }

  ghost predicate InTree(loc: seq<Loc>, f: int, g: int) {
    0 <= f < |loc| && 0 <= g < |loc| && (g == f || Below(loc, f, ENTRIES, g))
  }

  // No mapping is left in the tables at or below f.
  ghost predicate NoLeaves(pages: seq<Page>, loc: seq<Loc>, f: int) {
    forall g, i :: InTree(loc, f, g) && loc[g].Low? ==> !Entry(pages, g, i).v
  }

  // Entry i accounts for exactly the table pages placed under it.
  lemma BelowNext(pages: seq<Page>, loc: seq<Loc>, f: int, i: int, g: int)
    requires GoodTrees(pages, loc) && 0 <= f < |loc| && (loc[f].Top? || loc[f].Mid?) && 0 <= i < ENTRIES
    requires 0 <= g < |loc|
    ensures var e := Entry(pages, f, i);
      && (!e.v ==> (Below(loc, f, i + 1, g) <==> Below(loc, f, i, g)))
      && (e.v ==> (Below(loc, f, i + 1, g) <==> Below(loc, f, i, g) || InTree(loc, e.ppn, g)))
      && (e.v && InTree(loc, e.ppn, g) ==> !Below(loc, f, i, g) && g != f)
  {
    assert GoodEntry(loc, f, i, Entry(pages, f, i));
    assert Hangs(pages, loc, g);
    if loc[g].Low? { assert Hangs(pages, loc, Entry(pages, loc[g].root, loc[g].i2).ppn); }
    assert Hangs(pages, loc, f);
  }

  lemma NothingBelowFirst(pages: seq<Page>, loc: seq<Loc>, f: int, g: int)
    requires GoodTrees(pages, loc) && 0 <= f < |loc| && 0 <= g < |loc|
    ensures !Below(loc, f, 0, g)
    ensures loc[f].Low? ==> forall n :: !Below(loc, f, n, g)
  {
    assert Hangs(pages, loc, g);
    if loc[g].Low? { assert Hangs(pages, loc, Entry(pages, loc[g].root, loc[g].i2).ppn); }
  }

  // A root without mappings has no valid entry in its level-0 tables.
  lemma UnmappedHasNoLeaves(pages: seq<Page>, loc: seq<Loc>, root: int)
    requires GoodTrees(pages, loc) && IsRoot(loc, root)
    requires forall v :: 0 <= v < MAXVPN ==> !Lookup(pages, root, v).v
    ensures NoLeaves(pages, loc, root)
  {
    hide PX0;
    hide PX1;
    hide PX2;
    hide Compose;
    forall g, i | InTree(loc, root, g) && loc[g].Low? ensures !Entry(pages, g, i).v {
      assert Hangs(pages, loc, g);
      var m := Entry(pages, root, loc[g].i2).ppn;
      assert Hangs(pages, loc, m);
      if 0 <= i < ENTRIES {
        var v := Compose(loc[g].i2, loc[g].i1, i);
        ComposeIndices(loc[g].i2, loc[g].i1, i);
        assert Lookup(pages, root, v) == Entry(pages, g, i);
      }
    }
  }

  ghost function Forget(loc: seq<Loc>, root: int): seq<Loc> {
    seq(|loc|, g requires 0 <= g < |loc| => if InTree(loc, root, g) then NoTable else loc[g])
  }

  // Freeing all table pages of one root leaves the other trees as they were.
  lemma ForgetTree(pages: seq<Page>, loc: seq<Loc>, pages': seq<Page>, root: int)
    requires GoodTrees(pages, loc) && IsRoot(loc, root) && |pages'| == |pages|
    requires forall g :: 0 <= g < |pages| ==> pages'[g] == if InTree(loc, root, g) then Unused else pages[g]
    ensures GoodTrees(pages', Forget(loc, root))
    ensures forall r, v :: IsRoot(loc, r) && r != root ==> Lookup(pages', r, v) == Lookup(pages, r, v)
  {
    hide PX0;
    hide PX1;
    hide PX2;
    var loc' := Forget(loc, root);
    forall g, i ensures 0 <= g < |loc| && !InTree(loc, root, g) ==> Entry(pages', g, i) == Entry(pages, g, i) {}
    forall f, i | 0 <= f < |pages'| ensures GoodEntry(loc', f, i, Entry(pages', f, i)) {
      assert GoodEntry(loc, f, i, Entry(pages, f, i));
      if !InTree(loc, root, f) { OtherTree(pages, loc, root, f, i); }
    }
    forall f | 0 <= f < |pages'| ensures Hangs(pages', loc', f) {
      assert Hangs(pages, loc, f);
      if loc[f].Low? { assert Hangs(pages, loc, Entry(pages, loc[f].root, loc[f].i2).ppn); }
    }
    forall r, v | IsRoot(loc, r) && r != root ensures Lookup(pages', r, v) == Lookup(pages, r, v) {
      OtherTree(pages, loc, root, r, PX2(v));
      var e2 := Entry(pages, r, PX2(v));
      if e2.v {
        assert GoodEntry(loc, r, PX2(v), e2);
        OtherTree(pages, loc, root, e2.ppn, PX1(v));
      }
    }
  }

  // Tables of other trees point into their own trees.
  lemma OtherTree(pages: seq<Page>, loc: seq<Loc>, root: int, f: int, i: int)
    requires GoodTrees(pages, loc) && IsRoot(loc, root) && 0 <= f < |loc| && !InTree(loc, root, f)
    ensures Entry(pages, f, i).v && !loc[f].Low? ==> !InTree(loc, root, Entry(pages, f, i).ppn)
  {
    assert GoodEntry(loc, f, i, Entry(pages, f, i));
    assert Hangs(pages, loc, f);
  }

  // ----- How many table pages a mapping needs

  // The tables walk needs for page v of a root: the one below the root and the one below that.
  predicate HasMid(pages: seq<Page>, r: int, v: int) {
    Entry(pages, r, PX2(v)).v
  }

  predicate HasLow(pages: seq<Page>, r: int, v: int) {
    HasMid(pages, r, v) && Entry(pages, Entry(pages, r, PX2(v)).ppn, PX1(v)).v
  }

  predicate SameMid(v: int, w: int) { PX2(v) == PX2(w) }

  predicate SameLow(v: int, w: int) { PX2(v) == PX2(w) && PX1(v) == PX1(w) }

  function TablesFor(pages: seq<Page>, r: int, v: int): nat {
    (if HasMid(pages, r, v) then 0 else 1) + (if HasLow(pages, r, v) then 0 else 1)
  }

  // Root r has the tables it had, and those for page x.
  ghost predicate Walked(p0: seq<Page>, p1: seq<Page>, r: int, x: int) {
    && (forall v :: HasMid(p1, r, v) <==> HasMid(p0, r, v) || SameMid(v, x))
    && (forall v :: HasLow(p1, r, v) <==> HasLow(p0, r, v) || SameLow(v, x))
  }

  ghost predicate SameTables(p0: seq<Page>, p1: seq<Page>, r: int) {
    forall v :: (HasMid(p1, r, v) <==> HasMid(p0, r, v)) && (HasLow(p1, r, v) <==> HasLow(p0, r, v))
  }

  // Only the entries of one level-0 table differ: the tables are the same.
  lemma LeafKeepsTables(p0: seq<Page>, p1: seq<Page>, loc: seq<Loc>, f: int, r: int)
    requires GoodTrees(p0, loc) && IsRoot(loc, r) && 0 <= f < |loc| && loc[f].Low?
    requires forall g, j :: g != f ==> Entry(p1, g, j) == Entry(p0, g, j)
    ensures SameTables(p0, p1, r)
  {
    hide PX1;
    hide PX2;
    forall v ensures (HasMid(p1, r, v) <==> HasMid(p0, r, v)) && (HasLow(p1, r, v) <==> HasLow(p0, r, v)) {
      assert GoodEntry(loc, r, PX2(v), Entry(p0, r, PX2(v)));
    }
  }

  lemma EntriesKeepTables(p0: seq<Page>, p1: seq<Page>, r: int)
    requires forall g, j :: Entry(p1, g, j) == Entry(p0, g, j)
    ensures SameTables(p0, p1, r)
  {
    hide PX1;
    hide PX2;
  }

  // walk has gone through the tables `root` and m, making what was missing.
  lemma WalkedIs(p0: seq<Page>, l0: seq<Loc>, p1: seq<Page>, l1: seq<Loc>, root: int, m: int, x: int)
    requires GoodTrees(p0, l0) && GoodTrees(p1, l1) && IsRoot(l0, root) && IsRoot(l1, root)
    requires Entry(p1, root, PX2(x)).v && Entry(p1, root, PX2(x)).ppn == m && Entry(p1, m, PX1(x)).v
    requires forall g, j :: !(g == root && j == PX2(x)) && !(g == m && j == PX1(x)) ==> Entry(p1, g, j) == Entry(p0, g, j)
    requires forall g, j :: Entry(p0, g, j).v ==> Entry(p1, g, j) == Entry(p0, g, j)
    requires !Entry(p0, root, PX2(x)).v ==> forall j :: !Entry(p0, m, j).v
    ensures Walked(p0, p1, root, x)
  {
    hide PX1;
    hide PX2;
    assert GoodEntry(l1, root, PX2(x), Entry(p1, root, PX2(x)));
    forall v ensures HasMid(p1, root, v) <==> HasMid(p0, root, v) || SameMid(v, x)
      ensures HasLow(p1, root, v) <==> HasLow(p0, root, v) || SameLow(v, x)
    {
      assert GoodEntry(l1, root, PX2(v), Entry(p1, root, PX2(v)));
    }
  }

  // ----- The frames a range of new mappings takes

  // Some wanted page of the range from lo on shares the table.
  ghost predicate MidWanted(lo: int, want: seq<bool>, v: int) {
    exists i :: 0 <= i < |want| && want[i] && SameMid(v, lo + i)
  }

  ghost predicate LowWanted(lo: int, want: seq<bool>, v: int) {
    exists i :: 0 <= i < |want| && want[i] && SameLow(v, lo + i)
  }

  // Since p0 root r has got the tables for the wanted pages.
  ghost predicate Tabled(p0: seq<Page>, p1: seq<Page>, r: int, lo: int, want: seq<bool>) {
    && (forall v :: HasMid(p1, r, v) <==> HasMid(p0, r, v) || MidWanted(lo, want, v))
    && (forall v :: HasLow(p1, r, v) <==> HasLow(p0, r, v) || LowWanted(lo, want, v))
  }

  /**
    The frames it takes to map the wanted pages from lo on in root r: d for each page, and each
    table page that is missing, once.
   */
  ghost function Cost(p: seq<Page>, r: int, lo: int, want: seq<bool>, d: nat): nat {
    if want == [] then 0
    else
      var front, v := want[..|want| - 1], lo + |want| - 1;
      Cost(p, r, lo, front, d) +
      if !want[|want| - 1] then 0
      else d + (if HasMid(p, r, v) || MidWanted(lo, front, v) then 0 else 1) + (if HasLow(p, r, v) || LowWanted(lo, front, v) then 0 else 1)
  }

  /** Three frames a page are always enough. */
  lemma {:induction false} CostBound(p: seq<Page>, r: int, lo: int, want: seq<bool>, d: nat)
    ensures Cost(p, r, lo, want, d) <= (d + 2) * |want|
  {
    if want != [] { CostBound(p, r, lo, want[..|want| - 1], d); }
  }

  ghost function Wanted(want: seq<bool>): nat {
    if want == [] then 0 else Wanted(want[..|want| - 1]) + if want[|want| - 1] then 1 else 0
  }

  /** The pages and the missing tables are paid for separately. */
  lemma {:induction false} CostIs(p: seq<Page>, r: int, lo: int, want: seq<bool>, d: nat)
    ensures Cost(p, r, lo, want, d) == d * Wanted(want) + Cost(p, r, lo, want, 0)
  {
    hide HasMid;
    hide HasLow;
    hide MidWanted;
    hide LowWanted;
    if want != [] {
      var front := want[..|want| - 1];
      CostIs(p, r, lo, front, d);
      assert d * (Wanted(front) + 1) == d * Wanted(front) + d;
    }
  }

  lemma {:induction false} CostMono(p: seq<Page>, r: int, lo: int, want: seq<bool>, d: nat, k: nat)
    requires k <= |want|
    ensures Cost(p, r, lo, want[..k], d) <= Cost(p, r, lo, want, d)
  {
    if k < |want| {
      var front := want[..|want| - 1];
      CostMono(p, r, lo, front, d, k);
      assert front[..k] == want[..k];
    } else {
      assert want[..k] == want;
    }
  }

  // The next page, given that the earlier wanted ones have their tables.
  lemma CostNext(p0: seq<Page>, p1: seq<Page>, r: int, lo: int, want: seq<bool>, d: nat, k: nat)
    requires k < |want| && Tabled(p0, p1, r, lo, want[..k])
    ensures Cost(p0, r, lo, want[..k + 1], d) ==
      Cost(p0, r, lo, want[..k], d) + if want[k] then d + TablesFor(p1, r, lo + k) else 0
  {
    hide HasMid;
    hide HasLow;
    hide MidWanted;
    hide LowWanted;
    assert want[..k + 1][..k] == want[..k];
  }

  lemma CostNone(p: seq<Page>, r: int, lo: int, want: seq<bool>, d: nat)
    ensures want[..0] == [] && Cost(p, r, lo, want[..0], d) == 0 && Tabled(p, p, r, lo, want[..0])
  {
    hide HasMid;
    hide HasLow;
  }

  lemma WantedNext(lo: int, want: seq<bool>, k: nat, v: int)
    requires k < |want|
    ensures MidWanted(lo, want[..k + 1], v) <==> MidWanted(lo, want[..k], v) || (want[k] && SameMid(v, lo + k))
    ensures LowWanted(lo, want[..k + 1], v) <==> LowWanted(lo, want[..k], v) || (want[k] && SameLow(v, lo + k))
  {
    hide SameMid;
    hide SameLow;
    var a, b := want[..k], want[..k + 1];
    if MidWanted(lo, a, v) {
      var i :| 0 <= i < k && a[i] && SameMid(v, lo + i);
      assert b[i];
    }
    if LowWanted(lo, a, v) {
      var i :| 0 <= i < k && a[i] && SameLow(v, lo + i);
      assert b[i];
    }
    assert b[k] == want[k];
    if MidWanted(lo, b, v) {
      var i :| 0 <= i < k + 1 && b[i] && SameMid(v, lo + i);
      assert i < k ==> a[i];
    }
    if LowWanted(lo, b, v) {
      var i :| 0 <= i < k + 1 && b[i] && SameLow(v, lo + i);
      assert i < k ==> a[i];
    }
  }

  lemma TabledNext(p0: seq<Page>, p1: seq<Page>, p2: seq<Page>, r: int, lo: int, want: seq<bool>, k: nat)
    requires k < |want| && Tabled(p0, p1, r, lo, want[..k])
    requires if want[k] then Walked(p1, p2, r, lo + k) else SameTables(p1, p2, r)
    ensures Tabled(p0, p2, r, lo, want[..k + 1])
  {
    hide HasMid;
    hide HasLow;
    hide SameMid;
    hide SameLow;
    forall v ensures HasMid(p2, r, v) <==> HasMid(p0, r, v) || MidWanted(lo, want[..k + 1], v)
      ensures HasLow(p2, r, v) <==> HasLow(p0, r, v) || LowWanted(lo, want[..k + 1], v)
    {
      WantedNext(lo, want, k, v);
    }
  }

  // A single page.
  lemma CostOne(p0: seq<Page>, p1: seq<Page>, r: int, v: int, d: nat)
    ensures Cost(p0, r, v, [true], d) == d + TablesFor(p0, r, v)
    ensures Tabled(p0, p1, r, v, [true]) ==> Walked(p0, p1, r, v)
  {
    hide HasMid;
    hide HasLow;
    hide SameMid;
    hide SameLow;
    var want := [true];
    forall w ensures MidWanted(v, want, w) <==> SameMid(w, v)
      ensures LowWanted(v, want, w) <==> SameLow(w, v)
    {
      if SameMid(w, v) { assert want[0] && SameMid(w, v + 0); }
      if SameLow(w, v) { assert want[0] && SameLow(w, v + 0); }
    }
    assert want[..0] == [];
    assert Cost(p0, r, v, want[..0], d) == 0;
  }

  // A change that no table takes part in, then a walk.
  lemma AsNeeded(p0: seq<Page>, p1: seq<Page>, p2: seq<Page>, r: int, v: int)
    requires SameTables(p0, p1, r)
    ensures TablesFor(p0, r, v) == TablesFor(p1, r, v) && (Walked(p1, p2, r, v) ==> Walked(p0, p2, r, v))
  {
    hide HasMid;
    hide HasLow;
    hide SameMid;
    hide SameLow;
  }

  lemma WalkedTrans(p0: seq<Page>, p1: seq<Page>, p2: seq<Page>, r: int, v: int)
    requires Walked(p0, p1, r, v) && SameTables(p1, p2, r)
    ensures Walked(p0, p2, r, v)
  {
    hide HasMid;
    hide HasLow;
    hide SameMid;
    hide SameLow;
  }

  // Every page of a range is wanted.
  function All(n: nat): (want: seq<bool>)
    ensures |want| == n && forall i :: 0 <= i < n ==> want[i]
  {
    seq(n, _ => true)
  }

  // The pages of a range that a root maps.
  ghost function MappedIn(p: seq<Page>, r: int, n: nat): (want: seq<bool>)
    ensures |want| == n && forall v :: 0 <= v < n ==> want[v] == Lookup(p, r, v).v
  {
    seq(n, v => Lookup(p, r, v).v)
  }
}
