/**
  The life of one address space between its making (uvmcopy for a process, uvmshare for a thread)
  and its teardown: it grows by uvmalloc or by page faults, shrinks by uvmdealloc and stores into
  memory, and the teardown of kernel/proc.c then gives back what it gives back.
 */
module VmLife {
  import opened PageTable
  import opened Vm

  /** Memory at one moment; the process has n pages. */
  datatype Moment = Moment(pages: seq<Page>, loc: seq<Loc>, n: nat)

  datatype Event =
    | Grow(lo: nat, k: nat)  // fresh frames for k unmapped pages from lo on
    | Shrink(to: nat)        // the pages from `to` on are unmapped and their frames freed
    | Store                  // contents of data frames change

  // Frame g was in use for data at m.
  ghost predicate Held(m: Moment, g: int) { IsData(m.pages, g) }

  // What one event does to the address space under root.
  ghost predicate Happens(m: Moment, e: Event, m': Moment, root: int) {
    match e
    case Grow(lo, k) =>
      && lo + k <= m'.n <= TRAPFRAME && m.n <= m'.n
      && (forall v :: lo <= v < lo + k ==> Lookup(m.pages, root, v) == NOPTE)
      && Filled(m.pages, m.loc, m'.pages, m'.loc, root, lo, k)
    case Shrink(to) =>
      && m'.n == to <= m.n && m'.loc == m.loc && Owns(m.pages, root, to, m.n - to)
      && UnmapsRange(m.pages, m.loc, m'.pages, root, to, m.n - to)
      && Frees(m.pages, m'.pages, Backing(m.pages, root, to, m.n - to, true))
    case Store =>
      && m'.n == m.n && m'.loc == m.loc && |m'.pages| == |m.pages| && SameMaps(m.pages, m.loc, m'.pages)
      && (forall g :: 0 <= g < |m.pages| ==> (m'.pages[g].Data? <==> m.pages[g].Data?) && (!m.pages[g].Data? ==> m'.pages[g] == m.pages[g]))
  }

  /** Since m0 only the address space under root has changed, and every frame taken is mapped in it. */
  ghost predicate Lived(m0: Moment, m: Moment, root: int) {
    && |m.pages| == |m0.pages| == |m0.loc| == |m.loc| && m.n <= TRAPFRAME
    && (forall r :: IsRoot(m.loc, r) <==> IsRoot(m0.loc, r))
    && (forall r, v :: IsRoot(m0.loc, r) && r != root && 0 <= v < MAXVPN ==> Lookup(m.pages, r, v) == Lookup(m0.pages, r, v))
    && (forall g :: Held(m, g) && !Held(m0, g) ==> Backs(m.pages, root, 0, m.n, g))
  }

  // A life is a series of events, each from one moment to the next.
  ghost predicate Life(ms: seq<Moment>, es: seq<Event>, root: int)
    requires |ms| == |es| + 1
  {
    forall i :: 0 <= i < |es| ==> Happens(ms[i], es[i], ms[i + 1], root)
  }

  // ----- Every life only takes frames it maps

  lemma GrowLives(m0: Moment, m: Moment, e: Event, m': Moment, root: int)
    requires Lived(m0, m, root) && e.Grow? && Happens(m, e, m', root) && IsRoot(m0.loc, root)
    ensures Lived(m0, m', root)
  {
    hide Lookup;
    hide IsRoot;
    var taken := Backing(m'.pages, root, e.lo, e.k, true);
    RootsKept(m.pages, m.loc, m'.pages, m'.loc, taken);
    forall g | Held(m', g) && !Held(m0, g) ensures Backs(m'.pages, root, 0, m'.n, g) {
      if Held(m, g) {
        var v :| 0 <= v < m.n && Lookup(m.pages, root, v).v && Lookup(m.pages, root, v).ppn == g;
        assert Lookup(m'.pages, root, v) == Lookup(m.pages, root, v);
      } else {
        assert g in taken;
        var v :| e.lo <= v < e.lo + e.k && Lookup(m'.pages, root, v).v && Lookup(m'.pages, root, v).ppn == g;
      }
    }
  }

  lemma ShrinkLives(m0: Moment, m: Moment, e: Event, m': Moment, root: int)
    requires Lived(m0, m, root) && e.Shrink? && Happens(m, e, m', root) && IsRoot(m0.loc, root)
    ensures Lived(m0, m', root)
  {
    hide Lookup;
    hide IsRoot;
    var freed := Backing(m.pages, root, e.to, m.n - e.to, true);
    forall g | Held(m', g) && !Held(m0, g) ensures Backs(m'.pages, root, 0, m'.n, g) {
      assert g !in freed;
      assert Held(m, g);
      var v :| 0 <= v < m.n && Lookup(m.pages, root, v).v && Lookup(m.pages, root, v).ppn == g;
      assert !Backs(m.pages, root, e.to, m.n - e.to, g);
      assert v < e.to;
      assert Lookup(m'.pages, root, v) == Lookup(m.pages, root, v);
    }
  }

  lemma StoreLives(m0: Moment, m: Moment, m': Moment, root: int)
    requires Lived(m0, m, root) && Happens(m, Store, m', root) && IsRoot(m0.loc, root)
    ensures Lived(m0, m', root)
  {
    hide Lookup;
    forall g | Held(m', g) && !Held(m0, g) ensures Backs(m'.pages, root, 0, m'.n, g) {
      var v :| 0 <= v < m.n && Lookup(m.pages, root, v).v && Lookup(m.pages, root, v).ppn == g;
      assert Lookup(m'.pages, root, v) == Lookup(m.pages, root, v);
    }
  }

  lemma {:induction false} LifeLives(m0: Moment, ms: seq<Moment>, es: seq<Event>, root: int)
    requires |ms| == |es| + 1 && Life(ms, es, root) && Lived(m0, ms[0], root) && IsRoot(m0.loc, root)
    ensures Lived(m0, ms[|es|], root)
  {
    hide Lived;
    hide Happens;
    if es != [] {
      var n := |es| - 1;
      LifeLives(m0, ms[..n + 1], es[..n], root);
      assert Happens(ms[n], es[n], ms[n + 1], root);
      match es[n] {
        case Grow(_, _) => GrowLives(m0, ms[n], es[n], ms[n + 1], root);
        case Shrink(_) => ShrinkLives(m0, ms[n], es[n], ms[n + 1], root);
        case Store => StoreLives(m0, ms[n], ms[n + 1], root);
      }
    }
  }

  // ----- Threads

  // A new thread: uvmshare from its parent.
  ghost predicate StartsThread(m0: Moment, m: Moment, parent: int, thread: int) {
    && m.n <= TRAPFRAME && TablesOnly(m0.pages, m0.loc, m.pages, m.loc)
    && Shared(m0.pages, m0.loc, m.pages, parent, thread, m.n)
  }

  lemma ShareLives(m0: Moment, m: Moment, parent: int, thread: int)
    requires StartsThread(m0, m, parent, thread)
    ensures Lived(m0, m, thread)
  {
    hide Lookup;
    RootsKept(m0.pages, m0.loc, m.pages, m.loc, iset{});
  }

  // Frame g belongs to the thread alone: it maps it, and the frame was not in use when it started.
  ghost predicate Own(m0: Moment, m: Moment, thread: int, g: int) {
    Held(m, g) && !Held(m0, g) && Backs(m.pages, thread, 0, m.n, g)
  }

  /**
    After any life of a thread, its teardown leaves in use exactly the frames that were in use
    before it started and at its end, and the frames it got for itself; one that is missing at
    the end was given back by a shrinking; every other address space maps what it mapped.
   */
  lemma ThreadTeardown(m0: Moment, ms: seq<Moment>, es: seq<Event>, p2: seq<Page>, parent: int, thread: int)
    requires |ms| == |es| + 1 && Life(ms, es, thread) && StartsThread(m0, ms[0], parent, thread) && IsRoot(m0.loc, thread)
    requires var m := ms[|es|]; TornDown(m.pages, m.loc, p2, thread, Backing(m.pages, thread, 0, m.n, false))
    ensures forall g :: IsData(p2, g) <==> (Held(m0, g) && Held(ms[|es|], g)) || Own(m0, ms[|es|], thread, g)
    ensures forall g :: Held(m0, g) && !Held(ms[|es|], g) ==> GivenBack(ms, es, thread, g)
    ensures forall g :: IsData(p2, g) ==> Held(ms[|es|], g) && p2[g] == ms[|es|].pages[g]
    ensures forall r, v :: IsRoot(m0.loc, r) && r != thread && 0 <= v < MAXVPN ==> Lookup(p2, r, v) == Lookup(m0.pages, r, v)
  {
    hide Lookup;
    hide Life;
    hide GivenBack;
    hide InTree;
    ShareLives(m0, ms[0], parent, thread);
    LifeLives(m0, ms, es, thread);
    var m := ms[|es|];
    TeardownKeepsData(m, p2, thread);
    forall g | Held(m0, g) && !Held(m, g) ensures GivenBack(ms, es, thread, g) {
      assert Held(ms[0], g);
      MissingWasGivenBack(ms, es, thread, g, |es|);
    }
  }

  // Some shrinking of the life unmapped frame g and freed it.
  ghost predicate GivenBack(ms: seq<Moment>, es: seq<Event>, root: int, g: int)
    requires |ms| == |es| + 1
  {
    exists i :: 0 <= i < |es| && es[i].Shrink? && es[i].to <= ms[i].n && Backs(ms[i].pages, root, es[i].to, ms[i].n - es[i].to, g)
  }

  lemma {:induction false} MissingWasGivenBack(ms: seq<Moment>, es: seq<Event>, root: int, g: int, n: nat)
    requires n < |ms| == |es| + 1 && Life(ms, es, root) && Held(ms[0], g) && !Held(ms[n], g)
    ensures GivenBack(ms, es, root, g)
  {
    if n > 0 {
      if Held(ms[n - 1], g) {
        OnlyShrinkFrees(ms[n - 1], es[n - 1], ms[n], root, g);
      } else {
        MissingWasGivenBack(ms, es, root, g, n - 1);
      }
    }
  }

  lemma OnlyShrinkFrees(m: Moment, e: Event, m': Moment, root: int, g: int)
    requires Happens(m, e, m', root) && Held(m, g) && !Held(m', g)
    ensures e.Shrink? && e.to <= m.n && Backs(m.pages, root, e.to, m.n - e.to, g)
  {
    hide Lookup;
    if e.Shrink? { assert g in Backing(m.pages, root, e.to, m.n - e.to, true); }
  }

  // Without frames to free, a teardown changes no data frame.
  lemma TeardownKeepsData(m: Moment, p2: seq<Page>, thread: int)
    requires TornDown(m.pages, m.loc, p2, thread, Backing(m.pages, thread, 0, m.n, false))
    ensures forall g :: IsData(p2, g) <==> Held(m, g)
    ensures forall g :: IsData(p2, g) ==> p2[g] == m.pages[g]
  {
    hide Lookup;
    forall g | 0 <= g < |p2| ensures (IsData(p2, g) <==> Held(m, g)) && (Held(m, g) ==> p2[g] == m.pages[g]) {
      assert g !in Backing(m.pages, thread, 0, m.n, false);
    }
  }

  // No address space maps an unused frame.
  ghost predicate NoneDangles(pages: seq<Page>, loc: seq<Loc>) {
    forall r, v :: IsRoot(loc, r) && 0 <= v < MAXVPN && Lookup(pages, r, v).v ==> !Idle(pages, Lookup(pages, r, v).ppn)
  }

  ghost predicate Idle(pages: seq<Page>, g: int) { 0 <= g < |pages| && pages[g].Unused? }

  // Frame g is in use, and no root but the torn down one maps it.
  ghost predicate Lost(pages: seq<Page>, loc: seq<Loc>, gone: int, g: int) {
    && IsData(pages, g)
    && (forall r, v :: IsRoot(loc, r) && r != gone && 0 <= v < MAXVPN ==> !(Lookup(pages, r, v).v && Lookup(pages, r, v).ppn == g))
  }

  /**
    A thread that grows by even one page and exits leaks it: a frame that was unused before it
    started stays in use although no address space maps it any more.
   */
  lemma ThreadLeaks(m0: Moment, m1: Moment, m2: Moment, p3: seq<Page>, parent: int, thread: int, lo: nat, k: nat) returns (g: int)
    requires StartsThread(m0, m1, parent, thread) && IsRoot(m0.loc, thread) && NoneDangles(m0.pages, m0.loc)
    requires GoodTrees(m0.pages, m0.loc) && GoodTrees(m1.pages, m1.loc)
    requires Happens(m1, Grow(lo, k), m2, thread) && 0 < k && Lookup(m2.pages, thread, lo).v
    requires TornDown(m2.pages, m2.loc, p3, thread, Backing(m2.pages, thread, 0, m2.n, false))
    ensures Idle(m0.pages, g) && Lost(p3, m0.loc, thread, g)
  {
    hide Lookup;
    hide GoodTrees;
    g := Lookup(m2.pages, thread, lo).ppn;
    assert g in Backing(m2.pages, thread, lo, k, true);
    UnusedBefore(m0, m1, parent, thread, g);
    assert Held(m2, g);
    TeardownKeepsData(m2, p3, thread);
    ShareLives(m0, m1, parent, thread);
    GrowLives(m0, m1, Grow(lo, k), m2, thread);
  }

  lemma UnusedBefore(m0: Moment, m1: Moment, parent: int, thread: int, g: int)
    requires StartsThread(m0, m1, parent, thread) && Idle(m1.pages, g)
    requires GoodTrees(m0.pages, m0.loc) && GoodTrees(m1.pages, m1.loc)
    ensures Idle(m0.pages, g)
  {
    hide Lookup;
  }

  /** That run on the code: clone a thread, let it grow by a page, and free it. */
  method GrowAndExit(mem: Memory, parent: int, thread: int, sz: int, perm: Perm) returns (ok: bool)
    requires mem.Valid() && IsRoot(mem.loc, parent) && IsRoot(mem.loc, thread) && parent != thread && perm.Leaf()
    requires 0 <= sz && Pages(sz) < TRAPFRAME && NoneDangles(mem.pages, mem.loc)
    requires forall v :: 0 <= v < TRAPFRAME ==> Lookup(mem.pages, thread, v) == NOPTE
    modifies mem
    ensures ok ==> exists g :: Idle(old(mem.pages), g) && Lost(mem.pages, old(mem.loc), thread, g)
    ensures |old(mem.free)| >= 2 * Pages(sz) + 3 ==> ok
  {
    hide CopyCost;
    hide GrowCost;
    hide Lookup;
    hide GoodTrees;
    CopyBound(mem.pages, parent, thread, Pages(sz), 0);
    var n := Pages(sz);
    ghost var m0 := Moment(mem.pages, mem.loc, n);
    ok := mem.UvmShare(parent, thread, sz);
    if !ok { return; }
    ghost var m1 := Moment(mem.pages, mem.loc, n);
    assert StartsThread(m0, m1, parent, thread);
    ShareLives(m0, m1, parent, thread);
    var r;
    PagesMore(sz);
    OnePageBound(mem.pages, thread, sz);
    r, ok := mem.UvmAlloc(thread, sz, sz + PGSIZE, perm);
    if !ok { return; }
    ghost var m2 := Moment(mem.pages, mem.loc, n + 1);
    assert Happens(m1, Grow(n, 1), m2, thread);
    mem.ProcFreePagetable(thread, sz + PGSIZE, true);
    ghost var g := ThreadLeaks(m0, m1, m2, mem.pages, parent, thread, n, 1);
  }

  lemma OnePageBound(p: seq<Page>, root: int, sz: int)
    requires 0 <= sz
    ensures GrowCost(p, root, sz, sz + PGSIZE) <= 3
  {
    PagesMore(sz);
    CostBound(p, root, Pages(sz), All(1), 1);
  }

  lemma PagesMore(sz: int)
    requires 0 <= sz
    ensures 0 <= Pages(sz) && Pages(sz + PGSIZE) == Pages(sz) + 1
  {
  }

  // ----- What an address space keeps and what it gets

  /**
    The pages of root at m, when the first n0 started out as in m1: the shared ones are as they
    were, and each of the others has a frame of its own, none of those in use at m0, which all
    still are.  A process shares nothing: n0 is 0.
   */
  ghost predicate Split(m0: Moment, m1: Moment, n0: nat, m: Moment, root: int) {
    && n0 <= m.n <= TRAPFRAME
    && (forall g :: Held(m0, g) ==> Held(m, g))
    && (forall v :: 0 <= v < n0 && Lookup(m1.pages, root, v).v ==> Lookup(m.pages, root, v) == Lookup(m1.pages, root, v))
    && (forall v :: OwnPage(m1, n0, m, root, v) ==> IsData(m.pages, Frame(m, root, v)) && !Held(m0, Frame(m, root, v)))
    && (forall v, w :: OwnPage(m1, n0, m, root, v) && OwnPage(m1, n0, m, root, w) && Frame(m, root, v) == Frame(m, root, w) ==> v == w)
    && (forall v :: m.n <= v < TRAPFRAME ==> Lookup(m.pages, root, v) == NOPTE)
  }

  ghost predicate OwnPage(m1: Moment, n0: nat, m: Moment, root: int, v: int) {
    0 <= v < m.n && Lookup(m.pages, root, v).v && !(v < n0 && Lookup(m1.pages, root, v).v)
  }

  ghost function Frame(m: Moment, root: int, v: int): int { Lookup(m.pages, root, v).ppn }

  // No shrinking of the life goes below n0 pages.
  ghost predicate StaysAbove(es: seq<Event>, n0: nat) {
    forall i :: 0 <= i < |es| && es[i].Shrink? ==> n0 <= es[i].to
  }

  lemma GrowSplits(m0: Moment, m1: Moment, n0: nat, m: Moment, e: Event, m': Moment, root: int)
    requires Lived(m0, m, root) && Split(m0, m1, n0, m, root) && e.Grow? && Happens(m, e, m', root) && IsRoot(m0.loc, root)
    ensures Split(m0, m1, n0, m', root)
  {
    hide Lookup;
    hide IsRoot;
    assert IsRoot(m.loc, root);
    var taken := Backing(m'.pages, root, e.lo, e.k, true);
    forall v | 0 <= v < TRAPFRAME ensures (e.lo <= v < e.lo + e.k) || Lookup(m'.pages, root, v) == Lookup(m.pages, root, v) {}
    forall v | OwnPage(m1, n0, m', root, v)
      ensures if e.lo <= v < e.lo + e.k then Frame(m', root, v) in taken else OwnPage(m1, n0, m, root, v) && Frame(m', root, v) == Frame(m, root, v)
      ensures IsData(m'.pages, Frame(m', root, v)) && !Held(m0, Frame(m', root, v))
    {
      if e.lo <= v < e.lo + e.k { assert Backs(m'.pages, root, e.lo, e.k, Frame(m', root, v)); }
    }
    forall v | OwnPage(m1, n0, m', root, v) && Held(m, Frame(m', root, v)) ensures !(e.lo <= v < e.lo + e.k) {}
  }

  lemma ShrinkSplits(m0: Moment, m1: Moment, n0: nat, m: Moment, e: Event, m': Moment, root: int)
    requires Lived(m0, m, root) && Split(m0, m1, n0, m, root) && e.Shrink? && n0 <= e.to && Happens(m, e, m', root) && IsRoot(m0.loc, root)
    ensures Split(m0, m1, n0, m', root)
  {
    hide Lookup;
    hide IsRoot;
    assert IsRoot(m.loc, root);
    var freed := Backing(m.pages, root, e.to, m.n - e.to, true);
    forall v | 0 <= v < e.to ensures Lookup(m'.pages, root, v) == Lookup(m.pages, root, v) {}
    forall g | g in freed ensures !Held(m0, g) {
      var w :| e.to <= w < m.n && Lookup(m.pages, root, w).v && Frame(m, root, w) == g;
      assert OwnPage(m1, n0, m, root, w);
    }
    forall v | OwnPage(m1, n0, m', root, v) ensures OwnPage(m1, n0, m, root, v) && Frame(m', root, v) == Frame(m, root, v) && IsData(m'.pages, Frame(m', root, v)) {
      assert OwnPage(m1, n0, m, root, v);
      assert forall w :: e.to <= w < m.n && Lookup(m.pages, root, w).v ==> OwnPage(m1, n0, m, root, w);
      assert Frame(m, root, v) !in freed;
    }
  }

  lemma StoreSplits(m0: Moment, m1: Moment, n0: nat, m: Moment, m': Moment, root: int)
    requires Lived(m0, m, root) && Split(m0, m1, n0, m, root) && Happens(m, Store, m', root) && IsRoot(m0.loc, root)
    ensures Split(m0, m1, n0, m', root)
  {
    hide Lookup;
    forall v | 0 <= v < TRAPFRAME ensures Lookup(m'.pages, root, v) == Lookup(m.pages, root, v) {}
    forall v | OwnPage(m1, n0, m', root, v) ensures OwnPage(m1, n0, m, root, v) {}
  }

  lemma {:induction false} LifeSplits(m0: Moment, ms: seq<Moment>, es: seq<Event>, n0: nat, root: int)
    requires |ms| == |es| + 1 && Life(ms, es, root) && StaysAbove(es, n0) && IsRoot(m0.loc, root)
    requires Lived(m0, ms[0], root) && Split(m0, ms[0], n0, ms[0], root)
    ensures Lived(m0, ms[|es|], root) && Split(m0, ms[0], n0, ms[|es|], root)
  {
    hide Lived;
    hide Split;
    hide Happens;
    if es != [] {
      var n := |es| - 1;
      LifeSplits(m0, ms[..n + 1], es[..n], n0, root);
      assert Happens(ms[n], es[n], ms[n + 1], root);
      match es[n] {
        case Grow(_, _) =>
          GrowLives(m0, ms[n], es[n], ms[n + 1], root);
          GrowSplits(m0, ms[0], n0, ms[n], es[n], ms[n + 1], root);
        case Shrink(_) =>
          ShrinkLives(m0, ms[n], es[n], ms[n + 1], root);
          ShrinkSplits(m0, ms[0], n0, ms[n], es[n], ms[n + 1], root);
        case Store =>
          StoreLives(m0, ms[n], ms[n + 1], root);
          StoreSplits(m0, ms[0], n0, ms[n], ms[n + 1], root);
      }
    }
  }

  // ----- Threads that keep to themselves, and threads that shrink into what they share

  // The parent's pages have frames of their own, and the thread's table is new.
  ghost predicate Clones(m0: Moment, m: Moment, parent: int, thread: int) {
    && StartsThread(m0, m, parent, thread) && IsRoot(m0.loc, parent) && IsRoot(m0.loc, thread) && parent != thread
    && Owns(m0.pages, parent, 0, m.n) && forall v :: 0 <= v < TRAPFRAME ==> Lookup(m0.pages, thread, v) == NOPTE
  }

  lemma CloneSplits(m0: Moment, m: Moment, parent: int, thread: int)
    requires Clones(m0, m, parent, thread)
    ensures Lived(m0, m, thread) && Split(m0, m, m.n, m, thread)
    ensures forall v :: 0 <= v < m.n ==> Lookup(m.pages, thread, v) == Lookup(m0.pages, parent, v)
  {
    hide Lookup;
    ShareLives(m0, m, parent, thread);
    forall v ensures !OwnPage(m, m.n, m, thread, v) {}
  }

  // At the end of its life the thread maps exactly the pages it mapped when it was cloned.
  ghost predicate SamePages(m: Moment, m': Moment, root: int) {
    forall v :: 0 <= v < TRAPFRAME ==> (Lookup(m'.pages, root, v).v <==> Lookup(m.pages, root, v).v)
  }

  /**
    A thread that never shrinks below the size it was cloned with leaves in use the frames that
    were, and those of the pages it mapped since.  So the frames are conserved if and only if it
    ends with exactly the pages mapped that it started with.
   */
  lemma ThreadConservesExactly(m0: Moment, ms: seq<Moment>, es: seq<Event>, p2: seq<Page>, parent: int, thread: int)
    requires |ms| == |es| + 1 && Life(ms, es, thread) && Clones(m0, ms[0], parent, thread) && StaysAbove(es, ms[0].n)
    requires var m := ms[|es|]; TornDown(m.pages, m.loc, p2, thread, Backing(m.pages, thread, 0, m.n, false))
    ensures (forall g :: IsData(p2, g) <==> Held(m0, g)) <==> SamePages(ms[0], ms[|es|], thread)
    ensures forall g :: Held(m0, g) ==> IsData(p2, g)
    ensures forall g :: IsData(p2, g) && !Held(m0, g) <==> exists v :: OwnPage(ms[0], ms[0].n, ms[|es|], thread, v) && Frame(ms[|es|], thread, v) == g
  {
    hide Lookup;
    hide Life;
    hide TornDown;
    hide StaysAbove;
    var n0, m := ms[0].n, ms[|es|];
    CloneSplits(m0, ms[0], parent, thread);
    LifeSplits(m0, ms, es, n0, thread);
    TeardownKeepsData(m, p2, thread);
    forall g | Held(m, g) && !Held(m0, g) ensures exists v :: OwnPage(ms[0], n0, m, thread, v) && Frame(m, thread, v) == g {
      var v :| 0 <= v < m.n && Lookup(m.pages, thread, v).v && Lookup(m.pages, thread, v).ppn == g;
      assert v < n0 && Lookup(ms[0].pages, thread, v).v ==> Lookup(m.pages, thread, v) == Lookup(m0.pages, parent, v);
      assert OwnPage(ms[0], n0, m, thread, v) && Frame(m, thread, v) == g;
    }
    OwnPagesAreNew(m0, ms[0], m, parent, thread);
  }

  lemma OwnPagesAreNew(m0: Moment, m1: Moment, m: Moment, parent: int, thread: int)
    requires Clones(m0, m1, parent, thread) && Split(m0, m1, m1.n, m, thread) && Lived(m0, m, thread)
    ensures SamePages(m1, m, thread) <==> forall v :: !OwnPage(m1, m1.n, m, thread, v)
  {
    hide Lookup;
    forall v | m1.n <= v < TRAPFRAME ensures !Lookup(m1.pages, thread, v).v {
      assert Lookup(m1.pages, thread, v) == Lookup(m0.pages, thread, v);
    }
    forall v | 0 <= v < TRAPFRAME ensures OwnPage(m1, m1.n, m, thread, v) <==> Lookup(m.pages, thread, v).v && !Lookup(m1.pages, thread, v).v {}
    assert forall v :: 0 <= v < TRAPFRAME && Lookup(m1.pages, thread, v).v ==> Lookup(m.pages, thread, v).v;
  }

  /**
    A thread that shrinks below the size it was cloned with, after any life above it, frees its
    parent's frames: the parent still maps every page to the frame it had, and that frame is
    unused if and only if the page is at or above the thread's new size.
   */
  lemma SharedShrink(m0: Moment, ms: seq<Moment>, es: seq<Event>, to: nat, m': Moment, parent: int, thread: int, v: nat)
    requires |ms| == |es| + 1 && Life(ms, es, thread) && Clones(m0, ms[0], parent, thread) && StaysAbove(es, ms[0].n)
    requires Happens(ms[|es|], Shrink(to), m', thread) && v < ms[0].n && Lookup(m0.pages, parent, v).v
    ensures Lookup(m'.pages, parent, v) == Lookup(m0.pages, parent, v)
    ensures Idle(m'.pages, Frame(m0, parent, v)) <==> to <= v
  {
    hide Lookup;
    hide Life;
    hide StaysAbove;
    hide IsRoot;
    var n0, m, g := ms[0].n, ms[|es|], Frame(m0, parent, v);
    CloneSplits(m0, ms[0], parent, thread);
    LifeSplits(m0, ms, es, n0, thread);
    ShrinkLives(m0, m, Shrink(to), m', thread);
    assert Lookup(m.pages, thread, v) == Lookup(ms[0].pages, thread, v) == Lookup(m0.pages, parent, v);
    assert Held(m0, g) && Held(m, g);
    var freed := Backing(m.pages, thread, to, m.n - to, true);
    if to <= v {
      assert Backs(m.pages, thread, to, m.n - to, g);
      assert g in freed;
    } else {
      forall w | to <= w < m.n && Lookup(m.pages, thread, w).v ensures Frame(m, thread, w) != g {
        assert w < n0 && Lookup(ms[0].pages, thread, w).v ==> Lookup(m.pages, thread, w) == Lookup(m0.pages, parent, w);
        assert !(w < n0 && Lookup(ms[0].pages, thread, w).v) ==> OwnPage(ms[0], n0, m, thread, w);
      }
      assert g !in freed;
    }
  }

  /**
    That on the code, for a thread that shrinks at once: from newsz up to sz, the pages of the
    parent are on the free list, and when the parent's teardown frees the frame of such a page v
    the free list holds it twice.
   */
  method ShrinkAndFree(mem: Memory, parent: int, thread: int, sz: int, newsz: int, v: int) returns (ok: bool)
    requires mem.Valid() && IsRoot(mem.loc, parent) && IsRoot(mem.loc, thread) && parent != thread
    requires 0 <= newsz < sz && Pages(sz) <= TRAPFRAME && Owns(mem.pages, parent, 0, Pages(sz))
    requires forall v :: 0 <= v < TRAPFRAME ==> Lookup(mem.pages, thread, v) == NOPTE
    requires Pages(newsz) <= v < Pages(sz) && Lookup(mem.pages, parent, v).v
    modifies mem
    ensures ok ==> Lookup(mem.pages, parent, v) == Lookup(old(mem.pages), parent, v)
    ensures ok ==> Twice(mem.free, Lookup(mem.pages, parent, v).ppn)
    ensures ok <==> |old(mem.free)| >= CopyCost(old(mem.pages), parent, thread, Pages(sz), 0)
  {
    hide CopyCost;
    hide Lookup;
    hide GoodTrees;
    var n := Pages(sz);
    ghost var m0 := Moment(mem.pages, mem.loc, n);
    PagesGrow(newsz, sz);
    ok := mem.UvmShare(parent, thread, sz);
    if !ok { return; }
    ghost var m1 := Moment(mem.pages, mem.loc, n);
    assert Clones(m0, m1, parent, thread);
    CloneSplits(m0, m1, parent, thread);
    SharedIsOwned(m0, m1, parent, thread, Pages(newsz));
    var r := mem.UvmDealloc(thread, sz, newsz);
    ghost var m2 := Moment(mem.pages, mem.loc, Pages(newsz));
    SharedShrink(m0, [m1], [], Pages(newsz), m2, parent, thread, v);
    var e := mem.ReadPte(parent, v);
    assert e.ppn in mem.free;
    ListedAgain(mem.free, e.ppn);
    mem.Kfree(e.ppn);
    DataIsInvisible(m2.pages, m2.loc, e.ppn, Unused);
  }

  predicate Twice(free: seq<int>, g: int) {
    exists i, j :: 0 <= i < j < |free| && free[i] == g && free[j] == g
  }

  lemma ListedAgain(free: seq<int>, g: int)
    requires g in free
    ensures Twice([g] + free, g)
  {
    var k :| 0 <= k < |free| && free[k] == g;
    assert ([g] + free)[0] == g && ([g] + free)[k + 1] == g;
  }

  lemma SharedIsOwned(m0: Moment, m: Moment, parent: int, thread: int, to: nat)
    requires Clones(m0, m, parent, thread) && to <= m.n
    ensures Owns(m.pages, thread, to, m.n - to)
  {
    hide Lookup;
    CloneSplits(m0, m, parent, thread);
  }

  lemma PagesGrow(a: int, b: int)
    requires 0 <= a <= b
    ensures 0 <= Pages(a) <= Pages(b)
  {
  }

  // ----- Processes

  // A new process: uvmcopy from its parent, or an empty one.
  ghost predicate StartsProcess(m0: Moment, m: Moment, child: int) {
    && m.n <= TRAPFRAME && Filled(m0.pages, m0.loc, m.pages, m.loc, child, 0, m.n)
    && forall v :: 0 <= v < TRAPFRAME ==> Lookup(m0.pages, child, v) == NOPTE
  }

  lemma ForkSplits(m0: Moment, m: Moment, child: int)
    requires StartsProcess(m0, m, child) && IsRoot(m0.loc, child)
    ensures Lived(m0, m, child) && Split(m0, m, 0, m, child)
  {
    hide Lookup;
    var taken := Backing(m.pages, child, 0, m.n, true);
    RootsKept(m0.pages, m0.loc, m.pages, m.loc, taken);
    forall v | OwnPage(m, 0, m, child, v) ensures !Held(m0, Frame(m, child, v)) && IsData(m.pages, Frame(m, child, v)) {
      assert Backs(m.pages, child, 0, m.n, Frame(m, child, v)) && Frame(m, child, v) in taken;
    }
  }

  /** Over any life of a process, from uvmcopy to its teardown, exactly the frames in use before are in use after. */
  lemma ProcessConserves(m0: Moment, ms: seq<Moment>, es: seq<Event>, p2: seq<Page>, child: int)
    requires |ms| == |es| + 1 && Life(ms, es, child) && StartsProcess(m0, ms[0], child) && IsRoot(m0.loc, child)
    requires var m := ms[|es|]; TornDown(m.pages, m.loc, p2, child, Backing(m.pages, child, 0, m.n, true))
    ensures forall g :: IsData(p2, g) <==> Held(m0, g)
    ensures forall g :: IsData(p2, g) ==> Held(ms[|es|], g) && p2[g] == ms[|es|].pages[g]
    ensures forall r, v :: IsRoot(m0.loc, r) && r != child && 0 <= v < MAXVPN ==> Lookup(p2, r, v) == Lookup(m0.pages, r, v)
  {
    hide Lookup;
    hide Life;
    hide StartsProcess;
    hide InTree;
    ForkSplits(m0, ms[0], child);
    LifeSplits(m0, ms, es, 0, child);
    var m := ms[|es|];
    forall g | 0 <= g < |p2| ensures IsData(p2, g) <==> Held(m0, g) {
      assert g in Backing(m.pages, child, 0, m.n, true) <==> Backs(m.pages, child, 0, m.n, g);
      if v :| 0 <= v < m.n && Lookup(m.pages, child, v).v && Lookup(m.pages, child, v).ppn == g {
        assert OwnPage(ms[0], 0, m, child, v);
      }
    }
  }
}
