/**
  Page accounting over runs of all address spaces together: fork, clone, growth, shrinking and
  the reaping of processes and threads in any order.  The accounts are good when every mapped
  page is in use and every user page in use is mapped; the theorems say which requests keep them.
 */
module VmSystem {
  import opened PageTable
  import opened Vm

  /** A slot of the process table.  A thread's leader is the process whose pages it came to share. */
  datatype Space = Empty | Live(root: int, n: nat, thread: bool, leader: nat)

  datatype Sys = Sys(pages: seq<Page>, loc: seq<Loc>, slots: seq<Space>)

  datatype Act =
    | Make(r: int)                          // allocproc: a new page table
    | Fork(i: nat, c: nat, r: int)          // slot i forks into slot c
    | Clone(i: nat, c: nat, r: int)         // slot i starts a thread in slot c
    | Grow(i: nat, lo: nat, k: nat, n: nat) // sbrk or a page fault: fresh frames for k pages from lo on
    | Shrink(i: nat, to: nat)               // sbrk with a negative argument
    | Store                                 // contents of data frames change
    | Reap(i: nat)                          // freeproc

  ghost predicate IsLive(s: Sys, i: int) { 0 <= i < |s.slots| && s.slots[i].Live? }

  ghost predicate IsFree(s: Sys, c: int) { 0 <= c < |s.slots| && s.slots[c].Empty? }

  // A page table that was made and is nobody's yet.
  ghost predicate Spare(s: Sys, r: int) {
    && IsRoot(s.loc, r) && (forall i :: IsLive(s, i) ==> s.slots[i].root != r)
    && (forall v :: 0 <= v < TRAPFRAME ==> Lookup(s.pages, r, v) == NOPTE)
  }

  // Slot i maps its page v to frame g.
  ghost predicate Maps(s: Sys, i: int, v: int, g: int) {
    && IsLive(s, i) && 0 <= v < s.slots[i].n
    && Lookup(s.pages, s.slots[i].root, v).v && Lookup(s.pages, s.slots[i].root, v).ppn == g
  }

  // ----- What each request does

  ghost predicate Does(s: Sys, act: Act, s': Sys) {
    match act
    case Make(r) => s'.slots == s.slots && MakesRoot(s.pages, s.loc, s'.pages, s'.loc, r)
    case Fork(i, c, r) =>
      && IsLive(s, i) && IsFree(s, c) && Spare(s, r) && Filled(s.pages, s.loc, s'.pages, s'.loc, r, 0, s.slots[i].n)
      && s'.slots == s.slots[c := Live(r, s.slots[i].n, false, c)]
    case Clone(i, c, r) =>
      && IsLive(s, i) && IsFree(s, c) && Spare(s, r) && TablesOnly(s.pages, s.loc, s'.pages, s'.loc)
      && Shared(s.pages, s.loc, s'.pages, s.slots[i].root, r, s.slots[i].n)
      && s'.slots == s.slots[c := Live(r, s.slots[i].n, true, s.slots[i].leader)]
    case Grow(i, lo, k, n) =>
      && IsLive(s, i) && s.slots[i].n <= n && lo + k <= n <= TRAPFRAME
      && (forall v :: lo <= v < lo + k ==> Lookup(s.pages, s.slots[i].root, v) == NOPTE)
      && Filled(s.pages, s.loc, s'.pages, s'.loc, s.slots[i].root, lo, k) && s'.slots == s.slots[i := s.slots[i].(n := n)]
    case Shrink(i, to) =>
      && IsLive(s, i) && to <= s.slots[i].n && s'.loc == s.loc && s'.slots == s.slots[i := s.slots[i].(n := to)]
      && UnmapsRange(s.pages, s.loc, s'.pages, s.slots[i].root, to, s.slots[i].n - to)
      && Frees(s.pages, s'.pages, Backing(s.pages, s.slots[i].root, to, s.slots[i].n - to, true))
    case Store =>
      && s'.loc == s.loc && s'.slots == s.slots && |s'.pages| == |s.pages| && SameMaps(s.pages, s.loc, s'.pages)
      && (forall g :: 0 <= g < |s.pages| ==> (s'.pages[g].Data? <==> s.pages[g].Data?))
    case Reap(i) =>
      && IsLive(s, i) && s'.slots == s.slots[i := Empty] && s'.loc == Forget(s.loc, s.slots[i].root)
      && TornDown(s.pages, s.loc, s'.pages, s.slots[i].root,
                  Backing(s.pages, s.slots[i].root, 0, s.slots[i].n, !s.slots[i].thread))
  }

  // ----- Good accounts

  ghost predicate Shape(s: Sys) {
    && |s.pages| == |s.loc|
    && (forall i :: IsLive(s, i) ==> IsRoot(s.loc, s.slots[i].root) && s.slots[i].n <= TRAPFRAME)
    && (forall i, j :: IsLive(s, i) && IsLive(s, j) && s.slots[i].root == s.slots[j].root ==> i == j)
    && (forall i, v :: IsLive(s, i) && s.slots[i].n <= v < TRAPFRAME ==> Lookup(s.pages, s.slots[i].root, v) == NOPTE)
  }

  // Some address space maps frame g.
  ghost predicate Mapped(s: Sys, g: int) {
    exists i, v :: Maps(s, i, v, g)
  }

  /**
    Every mapped frame is in use, once per address space, and every frame in use is mapped, but
    for those the kernel has for itself.
   */
  ghost predicate Sound(s: Sys, kern: iset<int>) {
    && Shape(s)
    && (forall i, v, g :: Maps(s, i, v, g) ==> IsData(s.pages, g) && g !in kern)
    && (forall i, v, w, g :: Maps(s, i, v, g) && Maps(s, i, w, g) ==> v == w)
    && (forall g :: g in kern ==> IsData(s.pages, g))
    && (forall g :: IsData(s.pages, g) && g !in kern ==> Mapped(s, g))
  }

  // No other address space maps a frame that slot i maps at or above page `from`.
  ghost predicate Alone(s: Sys, i: int, from: nat) {
    forall v, j, w, g :: from <= v && Maps(s, i, v, g) && Maps(s, j, w, g) ==> j == i
  }

  // Another address space maps every frame that slot i maps.
  ghost predicate Covered(s: Sys, i: int) {
    forall v, g :: Maps(s, i, v, g) ==> exists j, w :: j != i && Maps(s, j, w, g)
  }

  /** When a request keeps the accounts. */
  ghost predicate Guard(s: Sys, act: Act) {
    match act
    case Shrink(i, to) => Alone(s, i, to)
    case Reap(i) => IsLive(s, i) && if s.slots[i].thread then Covered(s, i) else Alone(s, i, 0)
    case _ => true
  }

  // ----- Requests that always keep them

  lemma MakeKeeps(s: Sys, r: int, s': Sys, kern: iset<int>)
    requires Sound(s, kern) && Does(s, Make(r), s')
    ensures Sound(s', kern)
  {
    hide Lookup;
    hide IsRoot;
    SameAccounts(s, s', kern);
  }

  lemma StoreKeeps(s: Sys, s': Sys, kern: iset<int>)
    requires Sound(s, kern) && Does(s, Store, s')
    ensures Sound(s', kern)
  {
    hide Lookup;
    hide IsRoot;
    SameAccounts(s, s', kern);
  }

  lemma SameAccounts(s: Sys, s': Sys, kern: iset<int>)
    requires Sound(s, kern) && s'.slots == s.slots && |s'.pages| == |s'.loc| == |s.pages|
    requires forall r, v :: IsRoot(s.loc, r) && 0 <= v < TRAPFRAME ==> IsRoot(s'.loc, r) && Lookup(s'.pages, r, v) == Lookup(s.pages, r, v)
    requires forall g :: IsData(s'.pages, g) <==> IsData(s.pages, g)
    ensures Sound(s', kern)
  {
    hide Lookup;
    hide IsRoot;
    forall i, v | IsLive(s, i) && 0 <= v < TRAPFRAME ensures Lookup(s'.pages, s.slots[i].root, v) == Lookup(s.pages, s.slots[i].root, v) {
      assert IsRoot(s.loc, s.slots[i].root);
    }
    forall i | IsLive(s, i) ensures IsRoot(s'.loc, s.slots[i].root) {
      assert Lookup(s'.pages, s.slots[i].root, 0) == Lookup(s.pages, s.slots[i].root, 0);
    }
    assert forall i, v, g :: Maps(s', i, v, g) <==> Maps(s, i, v, g);
    forall g | IsData(s'.pages, g) && g !in kern ensures Mapped(s', g) {
      var i, v :| Maps(s, i, v, g);
      assert Maps(s', i, v, g);
    }
  }

  // Slot x, with root r, has got k pages from lo on; the rest is as it was.
  ghost predicate Gets(s: Sys, s': Sys, x: int, lo: nat, k: nat) {
    && IsLive(s', x) && |s'.slots| == |s.slots| && (forall i :: 0 <= i < |s.slots| && i != x ==> s'.slots[i] == s.slots[i])
    && (IsLive(s, x) ==> s'.slots[x].root == s.slots[x].root && s.slots[x].n <= s'.slots[x].n)
    && (IsFree(s, x) ==> lo == 0 && k == s'.slots[x].n && Spare(s, s'.slots[x].root))
    && IsRoot(s.loc, s'.slots[x].root) && lo + k <= s'.slots[x].n <= TRAPFRAME
    && (forall v :: lo <= v < lo + k ==> Lookup(s.pages, s'.slots[x].root, v) == NOPTE)
  }

  lemma FillMaps(s: Sys, s': Sys, x: int, lo: nat, k: nat, i: int, v: int, g: int)
    requires Shape(s) && 0 <= x < |s.slots| && Gets(s, s', x, lo, k) && Filled(s.pages, s.loc, s'.pages, s'.loc, s'.slots[x].root, lo, k)
    ensures Maps(s', i, v, g) <==> Maps(s, i, v, g) || (i == x && lo <= v < lo + k && Maps(s', x, v, g))
    ensures i == x && lo <= v < lo + k && Maps(s', x, v, g) ==> g in Backing(s'.pages, s'.slots[x].root, lo, k, true)
  {
    hide Lookup;
    if IsLive(s, i) && i != x { assert IsRoot(s.loc, s.slots[i].root) && s.slots[i].root != s'.slots[x].root; }
    if Maps(s', i, v, g) && i == x && lo <= v < lo + k { assert Backs(s'.pages, s'.slots[x].root, lo, k, g); }
  }

  lemma FillKeeps(s: Sys, s': Sys, x: int, lo: nat, k: nat, kern: iset<int>)
    requires Sound(s, kern) && 0 <= x < |s.slots| && Gets(s, s', x, lo, k)
    requires Filled(s.pages, s.loc, s'.pages, s'.loc, s'.slots[x].root, lo, k)
    ensures Sound(s', kern)
  {
    hide Lookup;
    var root := s'.slots[x].root;
    var taken := Backing(s'.pages, root, lo, k, true);
    RootsKept(s.pages, s.loc, s'.pages, s'.loc, taken);
    FillShape(s, s', x, lo, k);
    forall i, v, g ensures Maps(s', i, v, g) <==> Maps(s, i, v, g) || (i == x && lo <= v < lo + k && Maps(s', x, v, g)) {
      FillMaps(s, s', x, lo, k, i, v, g);
    }
    forall v, g | lo <= v < lo + k && Maps(s', x, v, g) ensures g in taken { FillMaps(s, s', x, lo, k, x, v, g); }
    hide Gets;
    hide Shape;
    hide Filled;
    assert Grew(s.pages, s.loc, s'.pages, s'.loc, taken) && Owns(s'.pages, root, lo, k) by { FilledIs(s, s', root, lo, k); }
    FillSound(s, s', x, lo, k, kern);
  }

  lemma FilledIs(s: Sys, s': Sys, root: int, lo: nat, k: nat)
    requires Filled(s.pages, s.loc, s'.pages, s'.loc, root, lo, k)
    ensures Grew(s.pages, s.loc, s'.pages, s'.loc, Backing(s'.pages, root, lo, k, true)) && Owns(s'.pages, root, lo, k)
  {
  }

  lemma FillSound(s: Sys, s': Sys, x: int, lo: nat, k: nat, kern: iset<int>)
    requires Sound(s, kern) && Shape(s') && IsLive(s', x) && lo + k <= s'.slots[x].n
    requires Grew(s.pages, s.loc, s'.pages, s'.loc, Backing(s'.pages, s'.slots[x].root, lo, k, true)) && Owns(s'.pages, s'.slots[x].root, lo, k)
    requires forall i, v, g :: Maps(s', i, v, g) <==> Maps(s, i, v, g) || (i == x && lo <= v < lo + k && Maps(s', x, v, g))
    requires forall v, g :: lo <= v < lo + k && Maps(s', x, v, g) ==> g in Backing(s'.pages, s'.slots[x].root, lo, k, true)
    ensures Sound(s', kern)
  {
    hide Lookup;
    hide Shape;
    var taken := Backing(s'.pages, s'.slots[x].root, lo, k, true);
    forall i, v, g | Maps(s', i, v, g) ensures IsData(s'.pages, g) && g !in kern {
      assert lo <= v < lo + k && i == x ==> g in taken;
    }
    forall g | IsData(s'.pages, g) && g !in kern ensures Mapped(s', g) {
      if g in taken {
        var v :| lo <= v < lo + k && Lookup(s'.pages, s'.slots[x].root, v).v && Lookup(s'.pages, s'.slots[x].root, v).ppn == g;
        assert Maps(s', x, v, g);
      } else {
        assert Mapped(s, g);
        var i, v :| Maps(s, i, v, g);
        assert Maps(s', i, v, g);
      }
    }
  }

  lemma FillShape(s: Sys, s': Sys, x: int, lo: nat, k: nat)
    requires Shape(s) && 0 <= x < |s.slots| && Gets(s, s', x, lo, k) && Filled(s.pages, s.loc, s'.pages, s'.loc, s'.slots[x].root, lo, k)
    ensures Shape(s')
  {
    hide Lookup;
    RootsKept(s.pages, s.loc, s'.pages, s'.loc, Backing(s'.pages, s'.slots[x].root, lo, k, true));
    forall i, v | IsLive(s', i) && s'.slots[i].n <= v < TRAPFRAME ensures Lookup(s'.pages, s'.slots[i].root, v) == NOPTE {
      assert IsLive(s, i) ==> Lookup(s.pages, s.slots[i].root, v) == NOPTE;
      assert IsRoot(s.loc, s'.slots[i].root) && (i != x ==> s'.slots[i].root != s'.slots[x].root);
    }
  }

  lemma CloneKeeps(s: Sys, i: nat, c: nat, r: int, s': Sys, kern: iset<int>)
    requires Sound(s, kern) && Does(s, Clone(i, c, r), s')
    ensures Sound(s', kern)
    ensures forall j, v, g :: Maps(s', j, v, g) <==> if j == c then Maps(s, i, v, g) else Maps(s, j, v, g)
  {
    hide Lookup;
    RootsKept(s.pages, s.loc, s'.pages, s'.loc, iset{});
    forall j, v, g ensures Maps(s', j, v, g) <==> if j == c then Maps(s, i, v, g) else Maps(s, j, v, g) {
      if IsLive(s, j) { assert IsRoot(s.loc, s.slots[j].root) && s.slots[j].root != r; }
    }
    forall j, v | IsLive(s', j) && s'.slots[j].n <= v < TRAPFRAME ensures Lookup(s'.pages, s'.slots[j].root, v) == NOPTE {
      if j != c { assert Lookup(s.pages, s.slots[j].root, v) == NOPTE; }
      assert IsRoot(s.loc, s'.slots[j].root);
    }
    assert Shape(s');
    CloneSound(s, i, c, s', kern);
  }

  lemma CloneSound(s: Sys, i: nat, c: nat, s': Sys, kern: iset<int>)
    requires Sound(s, kern) && Shape(s') && IsFree(s, c) && forall g :: IsData(s'.pages, g) <==> IsData(s.pages, g)
    requires forall j, v, g :: Maps(s', j, v, g) <==> if j == c then Maps(s, i, v, g) else Maps(s, j, v, g)
    ensures Sound(s', kern)
  {
    hide Shape;
    hide Maps;
    forall g | IsData(s'.pages, g) && g !in kern ensures Mapped(s', g) {
      var j, v :| Maps(s, j, v, g);
      assert j != c by { LiveMaps(s, j, v, g); }
      assert Maps(s', j, v, g);
    }
  }

  lemma LiveMaps(s: Sys, i: int, v: int, g: int)
    requires Maps(s, i, v, g)
    ensures IsLive(s, i)
  {
  }

  // ----- Requests that keep them if and only if

  // Slot i has lost its pages from `to` on, and the frames of `freed` are unused now.
  ghost predicate Loses(s: Sys, s': Sys, i: int, to: nat, freed: iset<int>) {
    && (forall j, v, g :: Maps(s', j, v, g) <==> Maps(s, j, v, g) && (j == i ==> v < to))
    && (forall g :: IsData(s'.pages, g) <==> IsData(s.pages, g) && g !in freed)
  }

  lemma LosesExactly(s: Sys, s': Sys, i: int, to: nat, freed: iset<int>, kern: iset<int>)
    requires Sound(s, kern) && Shape(s') && Loses(s, s', i, to, freed)
    requires forall g :: g in freed <==> exists v :: to <= v && Maps(s, i, v, g)
    ensures Sound(s', kern) <==> Alone(s, i, to)
  {
    hide Maps;
    hide Shape;
    if Alone(s, i, to) {
      forall j, v, g | Maps(s', j, v, g) ensures IsData(s'.pages, g) {
        assert forall w :: to <= w && Maps(s, i, w, g) ==> j == i && v == w;
      }
      forall g | IsData(s'.pages, g) && g !in kern ensures Mapped(s', g) {
        var j, v :| Maps(s, j, v, g);
        assert Maps(s', j, v, g);
      }
    } else {
      var v, j, w, g :| to <= v && Maps(s, i, v, g) && Maps(s, j, w, g) && j != i;
      assert Maps(s', j, w, g) && g in freed;
    }
  }

  lemma ThreadReapExactly(s: Sys, s': Sys, i: int, kern: iset<int>)
    requires Sound(s, kern) && Shape(s') && Loses(s, s', i, 0, iset{})
    ensures Sound(s', kern) <==> Covered(s, i)
  {
    hide Shape;
    if Covered(s, i) {
      forall g | IsData(s'.pages, g) && g !in kern ensures Mapped(s', g) {
        var j, v :| Maps(s, j, v, g);
        if j == i {
          j, v :| j != i && Maps(s, j, v, g);
        }
        assert Maps(s', j, v, g);
      }
    } else {
      var v, g :| Maps(s, i, v, g) && !exists j, w :: j != i && Maps(s, j, w, g);
      assert forall j, w :: Maps(s', j, w, g) ==> j == i && w < 0;
    }
  }

  lemma ShrinkExactly(s: Sys, i: nat, to: nat, s': Sys, kern: iset<int>)
    requires Sound(s, kern) && Does(s, Shrink(i, to), s')
    ensures Sound(s', kern) <==> Alone(s, i, to)
  {
    hide Lookup;
    var root, n := s.slots[i].root, s.slots[i].n;
    var freed := Backing(s.pages, root, to, n - to, true);
    forall j, v | IsLive(s, j) && 0 <= v < TRAPFRAME
      ensures Lookup(s'.pages, s.slots[j].root, v) == if j == i && to <= v < n then NOPTE else Lookup(s.pages, s.slots[j].root, v)
    {
      assert IsRoot(s.loc, s.slots[j].root);
    }
    forall g ensures g in freed <==> exists v :: to <= v && Maps(s, i, v, g) {
      if v :| to <= v < n && Lookup(s.pages, root, v).v && Lookup(s.pages, root, v).ppn == g { assert Maps(s, i, v, g); }
      if v :| to <= v && Maps(s, i, v, g) { assert Backs(s.pages, root, to, n - to, g); }
    }
    forall g | 0 <= g < |s.pages| ensures IsData(s'.pages, g) <==> IsData(s.pages, g) && g !in freed {}
    assert Shape(s');
    LosesExactly(s, s', i, to, freed, kern);
  }

  lemma ReapMaps(s: Sys, i: nat, s': Sys)
    requires Shape(s) && Does(s, Reap(i), s')
    ensures Shape(s') && Loses(s, s', i, 0, Backing(s.pages, s.slots[i].root, 0, s.slots[i].n, !s.slots[i].thread))
  {
    hide Lookup;
    hide InTree;
    var root := s.slots[i].root;
    ForgetRoots(s.loc, root);
    forall j, v | IsLive(s, j) && j != i && 0 <= v < TRAPFRAME ensures Lookup(s'.pages, s.slots[j].root, v) == Lookup(s.pages, s.slots[j].root, v) {
      assert IsRoot(s.loc, s.slots[j].root) && s.slots[j].root != root;
    }
  }

  lemma ForgetRoots(loc: seq<Loc>, root: int)
    ensures |Forget(loc, root)| == |loc| && forall r :: IsRoot(loc, r) && r != root ==> IsRoot(Forget(loc, root), r)
  {
  }

  lemma ReapExactly(s: Sys, i: nat, s': Sys, kern: iset<int>)
    requires Sound(s, kern) && Does(s, Reap(i), s')
    ensures Sound(s', kern) <==> Guard(s, Reap(i))
  {
    hide Lookup;
    hide Shape;
    hide Loses;
    var root, n := s.slots[i].root, s.slots[i].n;
    ReapMaps(s, i, s');
    if s.slots[i].thread {
      assert Backing(s.pages, root, 0, n, false) == iset{};
      ThreadReapExactly(s, s', i, kern);
    } else {
      forall g ensures g in Backing(s.pages, root, 0, n, true) <==> exists v :: 0 <= v && Maps(s, i, v, g) {
        if v :| 0 <= v < n && Lookup(s.pages, root, v).v && Lookup(s.pages, root, v).ppn == g { assert Maps(s, i, v, g); }
        if v :| 0 <= v && Maps(s, i, v, g) { assert Backs(s.pages, root, 0, n, g); }
      }
      LosesExactly(s, s', i, 0, Backing(s.pages, root, 0, n, true), kern);
    }
  }

  /** Each request, by any address space, keeps the accounts if and only if its guard holds. */
  lemma StepExactly(s: Sys, act: Act, s': Sys, kern: iset<int>)
    requires Sound(s, kern) && Does(s, act, s')
    ensures Sound(s', kern) <==> Guard(s, act)
  {
    hide Sound;
    hide Guard;
    match act {
      case Make(r) => MakeKeeps(s, r, s', kern); AlwaysGuarded(s, act);
      case Fork(i, c, r) => GrantKeeps(s, act, s', kern); AlwaysGuarded(s, act);
      case Clone(i, c, r) => CloneKeeps(s, i, c, r, s', kern); AlwaysGuarded(s, act);
      case Grow(i, lo, k, n) => GrantKeeps(s, act, s', kern); AlwaysGuarded(s, act);
      case Shrink(i, to) => ShrinkExactly(s, i, to, s', kern); GuardIs(s, act);
      case Store => StoreKeeps(s, s', kern); AlwaysGuarded(s, act);
      case Reap(i) => ReapExactly(s, i, s', kern);
    }
  }

  lemma AlwaysGuarded(s: Sys, act: Act)
    requires !act.Shrink? && !act.Reap?
    ensures Guard(s, act)
  {
  }

  lemma GuardIs(s: Sys, act: Act)
    requires act.Shrink?
    ensures Guard(s, act) <==> Alone(s, act.i, act.to)
  {
  }

  lemma GrantKeeps(s: Sys, act: Act, s': Sys, kern: iset<int>)
    requires Sound(s, kern) && Does(s, act, s') && (act.Fork? || act.Grow?)
    ensures Sound(s', kern)
  {
    hide Lookup;
    if act.Fork? {
      assert Gets(s, s', act.c, 0, s.slots[act.i].n);
      FillKeeps(s, s', act.c, 0, s.slots[act.i].n, kern);
    } else {
      assert Gets(s, s', act.i, act.lo, act.k);
      FillKeeps(s, s', act.i, act.lo, act.k, kern);
    }
  }

  // ----- Whole runs

  ghost predicate Run(ss: seq<Sys>, acts: seq<Act>) {
    |ss| == |acts| + 1 && forall k :: 0 <= k < |acts| ==> Does(ss[k], acts[k], ss[k + 1])
  }

  /** Over every run of all address spaces, the accounts are good throughout if and only if every request's guard holds. */
  lemma RunExactly(ss: seq<Sys>, acts: seq<Act>, kern: iset<int>)
    requires Run(ss, acts) && Sound(ss[0], kern)
    ensures (forall k :: 0 <= k < |ss| ==> Sound(ss[k], kern)) <==> (forall k :: 0 <= k < |acts| ==> Guard(ss[k], acts[k]))
  {
    hide Sound;
    hide Guard;
    hide Does;
    if forall k :: 0 <= k < |ss| ==> Sound(ss[k], kern) {
      forall k | 0 <= k < |acts| ensures Guard(ss[k], acts[k]) {
        StepExactly(ss[k], acts[k], ss[k + 1], kern);
        assert Sound(ss[k + 1], kern);
      }
    }
    if forall k :: 0 <= k < |acts| ==> Guard(ss[k], acts[k]) {
      forall k | 0 <= k < |ss| ensures Sound(ss[k], kern) { GuardedPrefix(ss, acts, kern, k); }
    }
  }

  lemma {:induction false} GuardedPrefix(ss: seq<Sys>, acts: seq<Act>, kern: iset<int>, n: nat)
    requires Run(ss, acts) && Sound(ss[0], kern) && n < |ss| && forall k :: 0 <= k < n ==> Guard(ss[k], acts[k])
    ensures Sound(ss[n], kern)
  {
    hide Sound;
    hide Guard;
    hide Does;
    if n > 0 {
      GuardedPrefix(ss, acts, kern, n - 1);
      StepExactly(ss[n - 1], acts[n - 1], ss[n], kern);
    }
  }

  // ----- With threads: families

  /**
    A thread maps only what its leader maps, page by page; the leader is a live process; and
    address spaces with different leaders share no frame.
   */
  ghost predicate Families(s: Sys) {
    && (forall i :: IsLive(s, i) ==> Leads(s, i))
    && (forall i, v, g :: Maps(s, i, v, g) ==> Maps(s, s.slots[i].leader, v, g))
    && (forall i, j, v, w, g :: Maps(s, i, v, g) && Maps(s, j, w, g) ==> s.slots[i].leader == s.slots[j].leader)
  }

  ghost predicate Leads(s: Sys, i: int)
    requires IsLive(s, i)
  {
    var l := s.slots[i].leader;
    IsLive(s, l) && !s.slots[l].thread && s.slots[l].leader == l && (!s.slots[i].thread ==> l == i)
  }

  // Process i has a thread.
  ghost predicate HasThread(s: Sys, i: int) {
    exists j :: IsLive(s, j) && s.slots[j].thread && s.slots[j].leader == i
  }

  /** What programs must keep to: threads do not change their size or fault, and a process neither shrinks nor is reaped while it has threads. */
  ghost predicate Disciplined(s: Sys, act: Act) {
    match act
    case Grow(i, lo, k, n) => IsLive(s, i) && !s.slots[i].thread
    case Shrink(i, to) => IsLive(s, i) && !s.slots[i].thread && !HasThread(s, i)
    case Reap(i) => IsLive(s, i) && (s.slots[i].thread || !HasThread(s, i))
    case _ => true
  }

  lemma DisciplineGuards(s: Sys, act: Act)
    requires Families(s) && Disciplined(s, act)
    ensures Guard(s, act)
  {
    hide Lookup;
    if act.Reap? && s.slots[act.i].thread {
      forall v, g | Maps(s, act.i, v, g) ensures exists j, w :: j != act.i && Maps(s, j, w, g) {
        assert Maps(s, s.slots[act.i].leader, v, g) && s.slots[act.i].leader != act.i;
      }
    } else if act.Reap? || act.Shrink? {
      forall v, j, w, g | Maps(s, act.i, v, g) && Maps(s, j, w, g) ensures j == act.i {
        assert s.slots[j].leader == s.slots[act.i].leader && Leads(s, j) && Leads(s, act.i);
      }
    }
  }

  // What a disciplined request does to the maps.
  ghost predicate Moves(s: Sys, act: Act, s': Sys) {
    && |s'.slots| == |s.slots|
    && match act
       case Make(_) => s'.slots == s.slots && forall i, v, g :: Maps(s', i, v, g) <==> Maps(s, i, v, g)
       case Store => s'.slots == s.slots && forall i, v, g :: Maps(s', i, v, g) <==> Maps(s, i, v, g)
       case Fork(i, c, r) =>
         && IsFree(s, c) && s'.slots == s.slots[c := s'.slots[c]] && IsLive(s', c) && !s'.slots[c].thread && s'.slots[c].leader == c
         && (forall j, v, g :: j != c ==> (Maps(s', j, v, g) <==> Maps(s, j, v, g)))
         && (forall v, g :: Maps(s', c, v, g) ==> !Mapped(s, g))
       case Clone(i, c, r) =>
         && IsLive(s, i) && IsFree(s, c) && s'.slots == s.slots[c := s'.slots[c]] && IsLive(s', c) && s'.slots[c].thread && s'.slots[c].leader == s.slots[i].leader
         && (forall j, v, g :: Maps(s', j, v, g) <==> if j == c then Maps(s, i, v, g) else Maps(s, j, v, g))
       case Grow(i, lo, k, n) =>
         && IsLive(s, i) && s'.slots == s.slots[i := s.slots[i].(n := n)]
         && (forall j, v, g :: Maps(s, j, v, g) ==> Maps(s', j, v, g))
         && (forall j, v, g :: Maps(s', j, v, g) && !Maps(s, j, v, g) ==> j == i && !Mapped(s, g))
       case Shrink(i, to) =>
         && IsLive(s, i) && s'.slots == s.slots[i := s.slots[i].(n := to)]
         && (forall j, v, g :: Maps(s', j, v, g) <==> Maps(s, j, v, g) && (j == i ==> v < to))
       case Reap(i) =>
         && IsLive(s, i) && s'.slots == s.slots[i := Empty]
         && (forall j, v, g :: Maps(s', j, v, g) <==> Maps(s, j, v, g) && j != i)
  }

  lemma FreshIsUnmapped(s: Sys, s': Sys, x: int, lo: nat, k: nat, v: int, g: int, kern: iset<int>)
    requires Sound(s, kern) && 0 <= x < |s.slots| && Gets(s, s', x, lo, k)
    requires Filled(s.pages, s.loc, s'.pages, s'.loc, s'.slots[x].root, lo, k) && lo <= v < lo + k && Maps(s', x, v, g)
    ensures !Mapped(s, g)
  {
    hide Lookup;
    FillMaps(s, s', x, lo, k, x, v, g);
    FilledIs(s, s', s'.slots[x].root, lo, k);
    assert !IsData(s.pages, g);
  }

  lemma DoesMoves(s: Sys, act: Act, s': Sys, kern: iset<int>)
    requires Sound(s, kern) && Does(s, act, s')
    ensures Moves(s, act, s')
  {
    hide Lookup;
    match act {
      case Make(_) => SameMoves(s, s');
      case Store => SameMoves(s, s');
      case Fork(i, c, r) =>
        FillMoves(s, s', c, 0, s.slots[i].n, kern);
      case Clone(i, c, r) => CloneKeeps(s, i, c, r, s', kern);
      case Grow(i, lo, k, n) =>
        FillMoves(s, s', i, lo, k, kern);
      case Shrink(i, to) => ShrinkMoves(s, i, to, s');
      case Reap(i) => ReapMaps(s, i, s');
    }
  }

  lemma SameMoves(s: Sys, s': Sys)
    requires Shape(s) && s'.slots == s.slots
    requires forall r, v :: IsRoot(s.loc, r) && 0 <= v < TRAPFRAME ==> Lookup(s'.pages, r, v) == Lookup(s.pages, r, v)
    ensures forall i, v, g :: Maps(s', i, v, g) <==> Maps(s, i, v, g)
  {
    hide Lookup;
    hide IsRoot;
    forall i, v | IsLive(s, i) && 0 <= v < TRAPFRAME ensures Lookup(s'.pages, s.slots[i].root, v) == Lookup(s.pages, s.slots[i].root, v) {
      assert IsRoot(s.loc, s.slots[i].root);
    }
  }

  lemma ShrinkMoves(s: Sys, i: nat, to: nat, s': Sys)
    requires Shape(s) && Does(s, Shrink(i, to), s')
    ensures forall j, v, g :: Maps(s', j, v, g) <==> Maps(s, j, v, g) && (j == i ==> v < to)
  {
    hide Lookup;
    forall j, v | IsLive(s, j) && 0 <= v < TRAPFRAME
      ensures Lookup(s'.pages, s.slots[j].root, v) == if j == i && to <= v < s.slots[i].n then NOPTE else Lookup(s.pages, s.slots[j].root, v)
    {
      assert IsRoot(s.loc, s.slots[j].root);
    }
  }

  lemma FillMoves(s: Sys, s': Sys, x: int, lo: nat, k: nat, kern: iset<int>)
    requires Sound(s, kern) && 0 <= x < |s.slots| && Gets(s, s', x, lo, k)
    requires Filled(s.pages, s.loc, s'.pages, s'.loc, s'.slots[x].root, lo, k)
    ensures forall j, v, g :: Maps(s, j, v, g) ==> Maps(s', j, v, g)
    ensures forall j, v, g :: Maps(s', j, v, g) && !Maps(s, j, v, g) ==> j == x && !Mapped(s, g)
  {
    hide Lookup;
    hide Gets;
    hide Filled;
    hide Maps;
    hide Sound;
    assert Shape(s) by { SoundShape(s, kern); }
    forall j, v, g ensures Maps(s, j, v, g) ==> Maps(s', j, v, g)
      ensures Maps(s', j, v, g) && !Maps(s, j, v, g) ==> j == x && !Mapped(s, g)
    {
      FillMaps(s, s', x, lo, k, j, v, g);
      if j == x && lo <= v < lo + k && Maps(s', x, v, g) { FreshIsUnmapped(s, s', x, lo, k, v, g, kern); }
    }
  }

  lemma SoundShape(s: Sys, kern: iset<int>)
    requires Sound(s, kern)
    ensures Shape(s)
  {
  }

  lemma MovesKeepFamilies(s: Sys, act: Act, s': Sys)
    requires Families(s) && Disciplined(s, act) && Moves(s, act, s')
    ensures Families(s')
  {
    hide Maps;
    forall i, v, g ensures (Maps(s, i, v, g) ==> IsLive(s, i)) && (Maps(s', i, v, g) ==> IsLive(s', i)) {
      if Maps(s, i, v, g) { LiveMaps(s, i, v, g); }
      if Maps(s', i, v, g) { LiveMaps(s', i, v, g); }
    }
    forall i | IsLive(s', i) ensures Leads(s', i) {
      if IsLive(s, i) { assert Leads(s, i); }
      if act.Clone? { assert Leads(s, act.i); }
    }
    match act {
      case Reap(i) => ReapKeepsFamilies(s, i, s');
      case Shrink(i, to) => ShrinkKeepsFamilies(s, i, to, s');
      case Fork(i, c, r) => NewFamily(s, c, s');
      case Grow(i, lo, k, n) => NewFamily(s, i, s');
      case Clone(i, c, r) =>
      case Make(_) =>
      case Store =>
    }
  }

  lemma NewFamily(s: Sys, x: int, s': Sys)
    requires Families(s) && |s'.slots| == |s.slots| && (forall i :: IsLive(s', i) ==> Leads(s', i))
    requires forall j, v, g :: Maps(s, j, v, g) ==> Maps(s', j, v, g)
    requires forall j, v, g :: Maps(s', j, v, g) && !Maps(s, j, v, g) ==> j == x && !Mapped(s, g)
    requires IsLive(s', x) && !s'.slots[x].thread && forall i :: 0 <= i < |s.slots| && i != x ==> s'.slots[i] == s.slots[i]
    requires IsLive(s, x) ==> s'.slots[x].leader == s.slots[x].leader
    ensures Families(s')
  {
    hide Maps;
    forall i, v, g ensures Maps(s, i, v, g) ==> IsLive(s, i) { if Maps(s, i, v, g) { LiveMaps(s, i, v, g); } }
    forall i, v, g ensures Maps(s', i, v, g) ==> IsLive(s', i) { if Maps(s', i, v, g) { LiveMaps(s', i, v, g); } }
    assert Leads(s', x);
    forall i, v, g | Maps(s', i, v, g) ensures Maps(s', s'.slots[i].leader, v, g) {
      if Maps(s, i, v, g) { assert Maps(s, s.slots[i].leader, v, g); }
    }
    forall i, j, v, w, g | Maps(s', i, v, g) && Maps(s', j, w, g) ensures s'.slots[i].leader == s'.slots[j].leader {
      if !Maps(s, i, v, g) || !Maps(s, j, w, g) { assert !Maps(s, i, v, g) && !Maps(s, j, w, g); }
    }
  }

  lemma ReapKeepsFamilies(s: Sys, i: nat, s': Sys)
    requires Families(s) && Disciplined(s, Reap(i)) && Moves(s, Reap(i), s') && forall j :: IsLive(s', j) ==> Leads(s', j)
    ensures Families(s')
  {
    hide Maps;
    forall j, v, g ensures Maps(s', j, v, g) ==> IsLive(s', j) { if Maps(s', j, v, g) { LiveMaps(s', j, v, g); } }
    forall j, v, g | Maps(s', j, v, g) ensures Maps(s', s'.slots[j].leader, v, g) {
      assert Leads(s, j) && Leads(s', j);
    }
    forall j, k, v, w, g | Maps(s', j, v, g) && Maps(s', k, w, g) ensures s'.slots[j].leader == s'.slots[k].leader {
      assert Maps(s, j, v, g) && Maps(s, k, w, g);
    }
  }

  lemma ShrinkKeepsFamilies(s: Sys, i: nat, to: nat, s': Sys)
    requires Families(s) && Disciplined(s, Shrink(i, to)) && Moves(s, Shrink(i, to), s') && forall j :: IsLive(s', j) ==> Leads(s', j)
    ensures Families(s')
  {
    hide Maps;
    forall j, v, g ensures Maps(s', j, v, g) ==> IsLive(s', j) { if Maps(s', j, v, g) { LiveMaps(s', j, v, g); } }
    forall j, v, g | Maps(s', j, v, g) ensures Maps(s', s'.slots[j].leader, v, g) {
      assert Leads(s, j) && Maps(s, s.slots[j].leader, v, g);
      assert s.slots[j].leader == i ==> j == i;
    }
    forall j, k, v, w, g | Maps(s', j, v, g) && Maps(s', k, w, g) ensures s'.slots[j].leader == s'.slots[k].leader {
      assert Maps(s, j, v, g) && Maps(s, k, w, g);
    }
  }

  /**
    Disciplined runs never go wrong: as long as threads leave their size alone and processes
    outlive their threads and do not shrink under them, no page leaks and none is freed while it
    is mapped, however the requests interleave.
   */
  lemma {:induction false} DisciplineSuffices(ss: seq<Sys>, acts: seq<Act>, kern: iset<int>)
    requires Run(ss, acts) && Sound(ss[0], kern) && Families(ss[0])
    requires forall k :: 0 <= k < |acts| ==> Disciplined(ss[k], acts[k])
    ensures forall k :: 0 <= k < |ss| ==> Sound(ss[k], kern) && Families(ss[k])
  {
    hide Sound;
    hide Families;
    hide Does;
    hide Disciplined;
    hide Guard;
    hide Moves;
    if acts != [] {
      var n := |acts| - 1;
      DisciplineSuffices(ss[..n + 1], acts[..n], kern);
      assert forall k :: 0 <= k < n + 1 ==> ss[..n + 1][k] == ss[k];
      assert Sound(ss[..n + 1][n], kern) && Families(ss[..n + 1][n]);
      DisciplineGuards(ss[n], acts[n]);
      StepExactly(ss[n], acts[n], ss[n + 1], kern);
      DoesMoves(ss[n], acts[n], ss[n + 1], kern);
      MovesKeepFamilies(ss[n], acts[n], ss[n + 1]);
      forall k | 0 <= k < |ss| ensures Sound(ss[k], kern) && Families(ss[k]) {
        if k < |ss| - 1 { assert ss[k] == ss[..n + 1][k]; }
      }
    }
  }

  /** A process that is reaped while a thread it cloned still runs leaves the thread with pages that are free. */
  lemma ReapedUnderThread(s: Sys, i: nat, c: nat, r: int, s1: Sys, s2: Sys, v: nat, g: int, kern: iset<int>)
    requires Sound(s, kern) && Does(s, Clone(i, c, r), s1) && Does(s1, Reap(i), s2)
    requires !s.slots[i].thread && Maps(s, i, v, g)
    ensures Maps(s2, c, v, g) && 0 <= g < |s2.pages| && s2.pages[g].Unused?
  {
    hide Lookup;
    hide InTree;
    CloneKeeps(s, i, c, r, s1, kern);
    assert Maps(s1, c, v, g) && Maps(s1, i, v, g);
    ReapMaps(s1, i, s2);
    assert Backs(s1.pages, s1.slots[i].root, 0, s1.slots[i].n, g);
    assert IsData(s1.pages, g);
  }

  /** In good accounts the code may run: every address space owns its frames, as uvmdealloc and the teardown of a process need. */
  lemma SoundOwns(s: Sys, kern: iset<int>, i: nat)
    requires Sound(s, kern) && IsLive(s, i)
    ensures Owns(s.pages, s.slots[i].root, 0, s.slots[i].n)
  {
    hide Lookup;
    var root, n := s.slots[i].root, s.slots[i].n;
    forall v | 0 <= v < n && Lookup(s.pages, root, v).v ensures Maps(s, i, v, Lookup(s.pages, root, v).ppn) {}
  }

  // ----- Without threads nothing can go wrong

  ghost predicate NoThreads(s: Sys) {
    forall i :: IsLive(s, i) ==> !s.slots[i].thread
  }

  /** Runs without clone keep good accounts, whatever the processes ask for. */
  lemma {:induction false} ProcessesAreSafe(ss: seq<Sys>, acts: seq<Act>, kern: iset<int>)
    requires Run(ss, acts) && Sound(ss[0], kern) && Families(ss[0]) && NoThreads(ss[0])
    requires forall k :: 0 <= k < |acts| ==> !acts[k].Clone?
    ensures forall k :: 0 <= k < |ss| ==> Sound(ss[k], kern)
  {
    hide Sound;
    hide Families;
    forall k | 0 <= k < |acts| ensures Disciplined(ss[k], acts[k]) {
      StaysThreadless(ss, acts, k);
      assert Does(ss[k], acts[k], ss[k + 1]);
    }
    DisciplineSuffices(ss, acts, kern);
  }

  lemma {:induction false} StaysThreadless(ss: seq<Sys>, acts: seq<Act>, n: nat)
    requires Run(ss, acts) && NoThreads(ss[0]) && n < |ss| && forall k :: 0 <= k < |acts| ==> !acts[k].Clone?
    ensures NoThreads(ss[n])
  {
    if n > 0 {
      StaysThreadless(ss, acts, n - 1);
      assert Does(ss[n - 1], acts[n - 1], ss[n]);
    }
  }

  // ----- The code

  /** The process table and memory, with what kfork, kclone, growproc and freeproc do to them. */
  class Kernel {
    const mem: Memory
    var slots: seq<Space>
    var sizes: seq<int>     // p->sz, in bytes

    ghost function Now(): Sys
      reads this, mem
    {
      Sys(mem.pages, mem.loc, slots)
    }

    ghost predicate Valid(kern: iset<int>)
      reads this, mem
    {
      && mem.Valid() && Sound(Now(), kern) && |sizes| == |slots|
      && forall i :: IsLive(Now(), i) ==> sizes[i] >= 0 && slots[i].n == Pages(sizes[i])
    }

    // At boot every slot is unused, and the frames in use are the kernel's.
    constructor (m: Memory, procs: nat)
      requires m.Valid()
      ensures mem == m && Valid(iset g | IsData(m.pages, g)) && Families(Now()) && NoThreads(Now())
    {
      mem := m;
      slots, sizes := seq(procs, _ => Empty), seq(procs, _ => 0);
    }

    // kfork, once allocproc has found slot c and made the page table r.
    method Kfork(i: nat, c: nat, r: int, ghost kern: iset<int>) returns (ok: bool)
      requires Valid(kern) && IsLive(Now(), i) && IsFree(Now(), c) && Spare(Now(), r)
      modifies this, mem
      ensures Valid(kern)
      ensures ok ==> Does(old(Now()), Fork(i, c, r), Now()) && Copied(old(mem.pages), mem.pages, old(slots)[i].root, r, old(slots)[i].n)
      ensures !ok ==> slots == old(slots) && SameMaps(old(mem.pages), old(mem.loc), mem.pages)
      ensures ok <==> |old(mem.free)| >= CopyCost(old(mem.pages), old(slots)[i].root, r, old(slots)[i].n, 1)
    {
      hide CopyCost;
      hide Lookup;
      hide GoodTrees;
      hide Filled;
      ghost var was := Now();
      SoundOwns(was, kern, i);
      hide Sound;
      SoundShape(was, kern);
      ok := mem.UvmCopy(slots[i].root, r, sizes[i]);
      if ok {
        slots, sizes := slots[c := Live(r, slots[i].n, false, c)], sizes[c := sizes[i]];
        StepExactly(was, Fork(i, c, r), Now(), kern);
      } else {
        TablesKeep(was, Now(), kern);
      }
    }

    // kclone, likewise.
    method Kclone(i: nat, c: nat, r: int, ghost kern: iset<int>) returns (ok: bool)
      requires Valid(kern) && IsLive(Now(), i) && IsFree(Now(), c) && Spare(Now(), r)
      modifies this, mem
      ensures Valid(kern)
      ensures ok ==> Does(old(Now()), Clone(i, c, r), Now())
      ensures !ok ==> slots == old(slots) && SameMaps(old(mem.pages), old(mem.loc), mem.pages)
      ensures ok <==> |old(mem.free)| >= CopyCost(old(mem.pages), old(slots)[i].root, r, old(slots)[i].n, 0)
    {
      hide CopyCost;
      hide Lookup;
      hide GoodTrees;
      hide Sound;
      ghost var was := Now();
      SoundShape(was, kern);
      ok := mem.UvmShare(slots[i].root, r, sizes[i]);
      if ok {
        slots, sizes := slots[c := Live(r, slots[i].n, true, slots[i].leader)], sizes[c := sizes[i]];
        StepExactly(was, Clone(i, c, r), Now(), kern);
      } else {
        TablesKeep(was, Now(), kern);
      }
    }

    // Table pages that were added along the way do not matter.
    static lemma TablesKeep(s: Sys, s': Sys, kern: iset<int>)
      requires Sound(s, kern) && s'.slots == s.slots
      requires SameMaps(s.pages, s.loc, s'.pages) && TablesOnly(s.pages, s.loc, s'.pages, s'.loc)
      ensures Sound(s', kern)
    {
      hide Lookup;
      RootsKept(s.pages, s.loc, s'.pages, s'.loc, iset{});
      SameAccounts(s, s', kern);
    }

    /**
      growproc by n bytes.  Growing fails if and only if the address space or the free frames do
      not suffice for the new pages and their tables, and keeps the accounts; shrinking keeps them
      if and only if nobody else maps what goes.
     */
    method Growproc(i: nat, n: int, perm: Perm, ghost kern: iset<int>) returns (ok: bool)
      requires Valid(kern) && IsLive(Now(), i) && perm.Leaf()
      modifies this, mem
      ensures n >= 0 ==> Valid(kern)
      ensures n > 0 && ok ==> Grown(old(Now()), i, old(sizes), n)
      ensures n > 0 ==> 0 <= old(sizes)[i]
      ensures n > 0 ==> (ok <==>
        && old(sizes)[i] + n <= TRAPFRAME * PGSIZE
        && |old(mem.free)| >= GrowCost(old(mem.pages), old(slots)[i].root, old(sizes)[i], old(sizes)[i] + n))
      ensures n > 0 && !ok ==> slots == old(slots) && sizes == old(sizes) && SameMaps(old(mem.pages), old(mem.loc), mem.pages)
      ensures n == 0 ==> ok && Now() == old(Now()) && sizes == old(sizes)
      ensures n < 0 && old(sizes)[i] + n >= 0 ==>
        ok && Shrunk(old(Now()), i, old(sizes), n) && (Valid(kern) <==> Alone(old(Now()), i, PagesOf(old(sizes)[i] + n)))
      ensures n < 0 && old(sizes)[i] + n < 0 ==> ok && Now() == old(Now()) && sizes == old(sizes) && Valid(kern)
    {
      hide GrowCost;
      hide Does;
      hide Sound;
      hide Alone;
      hide Lookup;
      hide GoodTrees;
      ok := true;
      if n > 0 {
        if sizes[i] + n > TRAPFRAME * PGSIZE { return false; }
        ok := More(i, n, perm, kern);
      } else if n < 0 && sizes[i] + n >= 0 {
        Less(i, n, kern);
      }
    }

    ghost predicate Grown(was: Sys, i: nat, sizes0: seq<int>, n: int)
      reads this, mem
    {
      && i < |sizes0| && sizes == sizes0[i := sizes0[i] + n] && PagesOf(sizes0[i]) <= PagesOf(sizes0[i] + n)
      && Does(was, Grow(i, PagesOf(sizes0[i]), PagesOf(sizes0[i] + n) - PagesOf(sizes0[i]), PagesOf(sizes0[i] + n)), Now())
    }

    ghost predicate Shrunk(was: Sys, i: nat, sizes0: seq<int>, n: int)
      reads this, mem
    {
      i < |sizes0| && sizes == sizes0[i := sizes0[i] + n] && Does(was, Shrink(i, PagesOf(sizes0[i] + n)), Now())
    }

    static function PagesOf(sz: int): nat {
      if sz < 0 then 0 else Pages(sz)
    }

    method More(i: nat, n: int, perm: Perm, ghost kern: iset<int>) returns (ok: bool)
      requires Valid(kern) && IsLive(Now(), i) && perm.Leaf() && n > 0 && sizes[i] + n <= TRAPFRAME * PGSIZE
      modifies this, mem
      ensures Valid(kern) && (ok ==> Grown(old(Now()), i, old(sizes), n)) && 0 <= old(sizes)[i]
      ensures ok <==> |old(mem.free)| >= GrowCost(old(mem.pages), old(slots)[i].root, old(sizes)[i], old(sizes)[i] + n)
      ensures !ok ==> slots == old(slots) && sizes == old(sizes) && SameMaps(old(mem.pages), old(mem.loc), mem.pages)
    {
      hide Filled;
      hide SameMaps;
      hide TablesOnly;
      hide Zeroed;
      hide GrowCost;
      hide Lookup;
      hide GoodTrees;
      hide Sound;
      ghost var was := Now();
      SoundShape(was, kern);
      var sz := sizes[i];
      Rounded(sz, sz + n);
      var r;
      r, ok := mem.UvmAlloc(slots[i].root, sz, sz + n, perm);
      if !ok {
        TablesKeep(was, Now(), kern);
        return;
      }
      slots, sizes := slots[i := slots[i].(n := Pages(sz + n))], sizes[i := sz + n];
      StepExactly(was, Grow(i, Pages(sz), Pages(sz + n) - Pages(sz), Pages(sz + n)), Now(), kern);
      AlwaysGuarded(was, Grow(i, Pages(sz), Pages(sz + n) - Pages(sz), Pages(sz + n)));
    }

    method Less(i: nat, n: int, ghost kern: iset<int>)
      requires Valid(kern) && IsLive(Now(), i) && n < 0 <= sizes[i] + n
      modifies this, mem
      ensures Shrunk(old(Now()), i, old(sizes), n) && (Valid(kern) <==> Alone(old(Now()), i, PagesOf(old(sizes)[i] + n)))
    {
      hide Lookup;
      hide GoodTrees;
      hide Sound;
      hide Alone;
      ghost var was := Now();
      SoundShape(was, kern);
      SoundOwns(was, kern, i);
      var sz := sizes[i];
      Rounded(sz + n, sz);
      var r := mem.UvmDealloc(slots[i].root, sz, sz + n);
      slots, sizes := slots[i := slots[i].(n := Pages(sz + n))], sizes[i := sz + n];
      StepExactly(was, Shrink(i, Pages(sz + n)), Now(), kern);
      GuardIs(was, Shrink(i, Pages(sz + n)));
    }

    static lemma Rounded(a: int, b: int)
      requires 0 <= a <= b
      ensures 0 <= Pages(a) <= Pages(b) && (b <= TRAPFRAME * PGSIZE ==> Pages(b) <= TRAPFRAME)
    {
    }

    /** freeproc: the accounts stay good if and only if a thread leaves nothing of its own behind, and a process nothing that others map. */
    method Freeproc(i: nat, ghost kern: iset<int>)
      requires Valid(kern) && IsLive(Now(), i)
      modifies this, mem
      ensures Does(old(Now()), Reap(i), Now()) && (Valid(kern) <==> old(Guard(Now(), Reap(i))))
    {
      hide Lookup;
      hide GoodTrees;
      hide Sound;
      hide Guard;
      ghost var was := Now();
      SoundShape(was, kern);
      SoundOwns(was, kern, i);
      assert forall v :: slots[i].n <= v < TRAPFRAME ==> Lookup(mem.pages, slots[i].root, v) == NOPTE;
      mem.ProcFreePagetable(slots[i].root, sizes[i], slots[i].thread);
      slots, sizes := slots[i := Empty], sizes[i := 0];
      StepExactly(was, Reap(i), Now(), kern);
    }
  }
}
