/**
  malloc, free and morecore of user/umalloc.c on the memory they work on: headers linked in a
  circle by address, walked with the pointers p and prevp.  Addresses are in bytes.
 */
module HeapCode {
  import opened Heap

  const MINUNITS: int := 4096
  const INTLIMIT: int := 0x8000_0000

  // The C conversion of an unsigned long to int.
  function ToInt(x: int): int {
    var m := x % (2 * INTLIMIT);
    if m < INTLIMIT then m else m - 2 * INTLIMIT
  }

  lemma SmallToInt(x: int)
    requires 0 <= x < INTLIMIT
    ensures ToInt(x) == x
  {
  }

  function NUnits(nbytes: nat): int {
    (nbytes + HEADER - 1) / HEADER + 1
  }

  // How far a call of sbrk with the converted argument moves the break: a negative request
  // beyond the process size leaves it where it is and still reports success.
  function BreakMove(brk: int, n: int): (d: int)
    ensures 0 <= brk ==> 0 <= brk + d && (0 <= brk + n ==> d == n)
  {
    if n >= 0 || brk + n >= 0 then n else 0
  }

  /**
    morecore gets the memory it will hand out exactly when the request is under 2^27 units;
    from there on the int argument of sbrk drops the high bits and at most one unit arrives.
   */
  lemma MorecoreOwnsItsBlock(nu: int, brk: int)
    requires MINUNITS <= nu <= NUnits(0xFFFF_FFFF) && 0 <= brk
    ensures BreakMove(brk, ToInt(nu * HEADER)) == nu * HEADER <==> nu < INTLIMIT / HEADER
    ensures nu >= INTLIMIT / HEADER ==> BreakMove(brk, ToInt(nu * HEADER)) <= HEADER
  {
    assert NUnits(0xFFFF_FFFF) == 0x1000_0001;
    var x := nu * HEADER;
    if x < INTLIMIT {
      assert ToInt(x) == x;
    } else if x < 2 * INTLIMIT {
      assert ToInt(x) == x - 2 * INTLIMIT < 0;
    } else {
      assert ToInt(x) == x - 2 * INTLIMIT;
    }
  }

  // ----- The circle of headers

  // Node 0 is base; node j is the j-th free block.
  ghost function NodeOf(base: int, free: seq<Block>, j: nat): int
    requires j <= |free|
  {
    if j == 0 then base else free[j - 1].addr
  }

  ghost function UnitsOf(free: seq<Block>, j: nat): int
    requires j <= |free|
  {
    if j == 0 then 0 else free[j - 1].units
  }

  ghost function Next(free: seq<Block>, j: nat): nat {
    if j < |free| then j + 1 else 0
  }

  // The s.ptr fields form one circle: base, then the free blocks by address, then base again.
  ghost predicate Circle(ptr: map<int, int>, base: int, free: seq<Block>) {
    forall j {:trigger ptr[NodeOf(base, free, j)]} {:trigger NodeOf(base, free, j) in ptr} :: 0 <= j <= |free| ==>
      NodeOf(base, free, j) in ptr && ptr[NodeOf(base, free, j)] == NodeOf(base, free, Next(free, j))
  }

  ghost predicate Sized(size: map<int, int>, base: int, free: seq<Block>) {
    forall j {:trigger NodeOf(base, free, j)} :: 0 <= j <= |free| ==>
      NodeOf(base, free, j) in size && size[NodeOf(base, free, j)] == UnitsOf(free, j)
  }

  // Nodes come in address order.
  ghost predicate Ordered(base: int, free: seq<Block>) {
    forall i, j {:trigger NodeOf(base, free, i), NodeOf(base, free, j)} :: 0 <= i < j <= |free| ==>
      NodeOf(base, free, i) < NodeOf(base, free, j)
  }

  // The stores of free, for a block bp linked in after p and before `next`.
  function SplicedSize(size: map<int, int>, p: int, bp: int, next: int, l: bool, r: bool): map<int, int>
    requires p in size && bp in size && next in size
  {
    var size' := if r then size[bp := size[bp] + size[next]] else size;
    if l then size'[p := size'[p] + size'[bp]] else size'
  }

  function SplicedPtr(ptr: map<int, int>, p: int, bp: int, next: int, l: bool, r: bool): map<int, int>
    requires p in ptr && next in ptr
  {
    var after := if r then ptr[next] else next;
    ptr[bp := after][p := if l then after else bp]
  }

  // The nodes after a release: the old ones up to p, then bp unless it was absorbed, then the rest.
  lemma ReleasedNodes(base: int, free: seq<Block>, b: Block, j: nat)
    requires j <= |free|
    ensures var f := Release(free, b, j);
      var s := if JoinsLeft(free, b, j) then 0 else 1;
      var r := if JoinsRight(free, b, j) then 1 else 0;
      && |f| == |free| + s - r
      && (forall i :: 0 <= i <= j ==> NodeOf(base, f, i) == NodeOf(base, free, i))
      && (forall i :: 0 <= i < j ==> UnitsOf(f, i) == UnitsOf(free, i))
      && (s == 1 ==> NodeOf(base, f, j + 1) == b.addr && UnitsOf(f, j) == UnitsOf(free, j))
      && UnitsOf(f, j + s) == b.units + (if s == 0 then UnitsOf(free, j) else 0) + (if r == 1 then free[j].units else 0)
      && (forall i :: j + s < i <= |f| ==> NodeOf(base, f, i) == NodeOf(base, free, i - s + r))
      && (forall i :: j + s < i <= |f| ==> UnitsOf(f, i) == UnitsOf(free, i - s + r))
  {
    hide Release;
    var l, r, mid := ReleaseAt(free, b, j);
  }

  // The circle after a release, link by link.
  ghost predicate LinkAfterFree(ptr: map<int, int>, base: int, free: seq<Block>, b: Block, j: nat, i: nat)
    requires j <= |free| && i <= |Release(free, b, j)|
  {
    var p, next := NodeOf(base, free, j), NodeOf(base, free, Next(free, j));
    var f := Release(free, b, j);
    && p in ptr && next in ptr
    && var ptr' := SplicedPtr(ptr, p, b.addr, next, JoinsLeft(free, b, j), JoinsRight(free, b, j));
    NodeOf(base, f, i) in ptr' && ptr'[NodeOf(base, f, i)] == NodeOf(base, f, Next(f, i))
  }

  // A node other than p and b keeps its link.
  lemma LinkKept(ptr: map<int, int>, base: int, free: seq<Block>, b: Block, j: nat, i: nat, o: nat)
    requires j <= |free| && Circle(ptr, base, free) && i <= |Release(free, b, j)| && o <= |free|
    requires NodeOf(base, Release(free, b, j), i) == NodeOf(base, free, o)
    requires NodeOf(base, Release(free, b, j), Next(Release(free, b, j), i)) == NodeOf(base, free, Next(free, o))
    requires NodeOf(base, free, o) != NodeOf(base, free, j) && NodeOf(base, free, o) != b.addr
    ensures LinkAfterFree(ptr, base, free, b, j, i)
  {
    hide Release;
    hide JoinsLeft;
    hide JoinsRight;
    assert ptr[NodeOf(base, free, o)] == NodeOf(base, free, Next(free, o));
    assert ptr[NodeOf(base, free, j)] == NodeOf(base, free, Next(free, j));
    assert NodeOf(base, free, Next(free, j)) in ptr;
  }

  // Links before the spot are the old ones.
  lemma EarlierLinks(ptr: map<int, int>, base: int, free: seq<Block>, b: Block, j: nat, i: nat)
    requires j <= |free| && Circle(ptr, base, free) && Ordered(base, free) && NodeOf(base, free, j) < b.addr
    requires i < j && i <= |Release(free, b, j)|
    ensures LinkAfterFree(ptr, base, free, b, j, i)
  {
    hide Release;
    hide UnitsOf;
    hide Circle;
    ReleasedNodes(base, free, b, j);
    LinkKept(ptr, base, free, b, j, i, i);
  }

  // So are the links after it, one place off for each block that came or went.
  lemma LaterLinks(ptr: map<int, int>, base: int, free: seq<Block>, b: Block, j: nat, i: nat)
    requires j <= |free| && Circle(ptr, base, free) && Ordered(base, free)
    requires NodeOf(base, free, j) < b.addr && (j < |free| ==> b.addr < free[j].addr)
    requires (if JoinsLeft(free, b, j) then j else j + 1) < i <= |Release(free, b, j)|
    ensures LinkAfterFree(ptr, base, free, b, j, i)
  {
    hide Release;
    hide UnitsOf;
    hide Circle;
    ReleasedNodes(base, free, b, j);
    var o := i + (if JoinsRight(free, b, j) then 1 else 0) - (if JoinsLeft(free, b, j) then 0 else 1);
    assert NodeOf(base, free, j) < NodeOf(base, free, j + 1) <= NodeOf(base, free, o);
    LinkKept(ptr, base, free, b, j, i, o);
  }

  // Links away from the spot are the old ones.
  lemma OtherLinks(ptr: map<int, int>, base: int, free: seq<Block>, b: Block, j: nat, i: nat)
    requires j <= |free| && Circle(ptr, base, free) && Ordered(base, free)
    requires NodeOf(base, free, j) < b.addr && (j < |free| ==> b.addr < free[j].addr)
    requires i < j || (if JoinsLeft(free, b, j) then j else j + 1) < i
    requires i <= |Release(free, b, j)|
    ensures LinkAfterFree(ptr, base, free, b, j, i)
  {
    hide LinkAfterFree;
    hide Release;
    hide Circle;
    hide Ordered;
    hide JoinsLeft;
    if i < j { EarlierLinks(ptr, base, free, b, j, i); } else { LaterLinks(ptr, base, free, b, j, i); }
  }

  // The links out of p and out of the block put back.
  lemma NewLinks(ptr: map<int, int>, base: int, free: seq<Block>, b: Block, j: nat, i: nat)
    requires j <= |free| && Circle(ptr, base, free) && Ordered(base, free)
    requires NodeOf(base, free, j) < b.addr && (j < |free| ==> b.addr < free[j].addr)
    requires i == j || (i == j + 1 && !JoinsLeft(free, b, j))
    requires i <= |Release(free, b, j)|
    ensures LinkAfterFree(ptr, base, free, b, j, i)
  {
    hide Release;
    hide UnitsOf;
    var f := Release(free, b, j);
    ReleasedNodes(base, free, b, j);
    var next := NodeOf(base, free, Next(free, j));
    assert JoinsRight(free, b, j) ==> ptr[next] == NodeOf(base, free, Next(free, j + 1));
  }

  lemma SplicedCircle(ptr: map<int, int>, base: int, free: seq<Block>, b: Block, j: nat)
    requires j <= |free| && Circle(ptr, base, free) && Ordered(base, free)
    requires NodeOf(base, free, j) < b.addr && (j < |free| ==> b.addr < free[j].addr)
    ensures var p, next := NodeOf(base, free, j), NodeOf(base, free, Next(free, j));
      && p in ptr && next in ptr
      && Circle(SplicedPtr(ptr, p, b.addr, next, JoinsLeft(free, b, j), JoinsRight(free, b, j)), base, Release(free, b, j))
  {
    hide Release;
    hide SplicedPtr;
    assert NodeOf(base, free, j) in ptr && NodeOf(base, free, Next(free, j)) in ptr;
    var p, next, f := NodeOf(base, free, j), NodeOf(base, free, Next(free, j)), Release(free, b, j);
    var ptr' := SplicedPtr(ptr, p, b.addr, next, JoinsLeft(free, b, j), JoinsRight(free, b, j));
    forall i | 0 <= i <= |f|
      ensures NodeOf(base, f, i) in ptr' && ptr'[NodeOf(base, f, i)] == NodeOf(base, f, Next(f, i))
    {
      if i == j || (i == j + 1 && !JoinsLeft(free, b, j)) {
        NewLinks(ptr, base, free, b, j, i);
      } else {
        OtherLinks(ptr, base, free, b, j, i);
      }
      assert LinkAfterFree(ptr, base, free, b, j, i);
    }
  }

  lemma SplicedSizes(size: map<int, int>, base: int, free: seq<Block>, b: Block, j: nat)
    requires j <= |free| && Sized(size, base, free) && Ordered(base, free)
    requires NodeOf(base, free, j) < b.addr && (j < |free| ==> b.addr < free[j].addr)
    requires b.addr in size && size[b.addr] == b.units
    ensures var p, next := NodeOf(base, free, j), NodeOf(base, free, Next(free, j));
      && p in size && next in size
      && Sized(SplicedSize(size, p, b.addr, next, JoinsLeft(free, b, j), JoinsRight(free, b, j)), base, Release(free, b, j))
  {
    hide Release;
    var f := Release(free, b, j);
    var p, next := NodeOf(base, free, j), NodeOf(base, free, Next(free, j));
    var l, r := JoinsLeft(free, b, j), JoinsRight(free, b, j);
    var size' := SplicedSize(size, p, b.addr, next, l, r);
    ReleasedNodes(base, free, b, j);
    var s := if l then 0 else 1;
    var d := if r then 1 else 0;
    forall i | 0 <= i <= |f|
      ensures NodeOf(base, f, i) in size' && size'[NodeOf(base, f, i)] == UnitsOf(f, i)
    {
      if i < j {
        assert NodeOf(base, free, i) < p < b.addr;
      } else if i > j + s {
        var o := i - s + d;
        assert NodeOf(base, free, o) > p && NodeOf(base, free, o) != b.addr by {
          assert NodeOf(base, free, j + 1) <= NodeOf(base, free, o);
        }
      }
    }
  }

  // Unlinking a whole free block: its predecessor points past it.
  lemma UnlinkedCircle(ptr: map<int, int>, base: int, free: seq<Block>, i: nat)
    requires i < |free| && Circle(ptr, base, free) && Ordered(base, free)
    ensures NodeOf(base, free, i) in ptr && free[i].addr in ptr
    ensures Circle(ptr[NodeOf(base, free, i) := ptr[free[i].addr]], base, free[..i] + free[i + 1..])
  {
    var f := free[..i] + free[i + 1..];
    assert NodeOf(base, free, i) in ptr && NodeOf(base, free, i + 1) in ptr;
    var ptr' := ptr[NodeOf(base, free, i) := ptr[free[i].addr]];
    UnlinkedNodes(base, free, i);
    forall m | 0 <= m <= |f|
      ensures NodeOf(base, f, m) in ptr' && ptr'[NodeOf(base, f, m)] == NodeOf(base, f, Next(f, m))
    {
      var o := if m <= i then m else m + 1;
      if m == i {
        assert ptr[NodeOf(base, free, i + 1)] == NodeOf(base, free, Next(free, i + 1));
      } else {
        assert NodeOf(base, free, o) != NodeOf(base, free, i);
        assert ptr[NodeOf(base, free, o)] == NodeOf(base, free, Next(free, o));
      }
    }
  }

  lemma UnlinkedNodes(base: int, free: seq<Block>, i: nat)
    requires i < |free|
    ensures var f := free[..i] + free[i + 1..];
      && (forall m :: 0 <= m <= i ==> NodeOf(base, f, m) == NodeOf(base, free, m) && UnitsOf(f, m) == UnitsOf(free, m))
      && (forall m :: i < m <= |f| ==> NodeOf(base, f, m) == NodeOf(base, free, m + 1) && UnitsOf(f, m) == UnitsOf(free, m + 1))
  {
  }

  lemma UnlinkedSizes(size: map<int, int>, base: int, free: seq<Block>, i: nat)
    requires i < |free| && Sized(size, base, free)
    ensures Sized(size, base, free[..i] + free[i + 1..])
  {
    var f := free[..i] + free[i + 1..];
    UnlinkedNodes(base, free, i);
    forall m | 0 <= m <= |f|
      ensures NodeOf(base, f, m) in size && size[NodeOf(base, f, m)] == UnitsOf(f, m)
    {
      var o := if m <= i then m else m + 1;
      assert NodeOf(base, free, o) in size;
    }
  }

  // Shrinking a free block leaves every node where it is.
  lemma ShrunkBlock(ptr: map<int, int>, size: map<int, int>, base: int, free: seq<Block>, i: nat, n: int, c: int)
    requires i < |free| && Circle(ptr, base, free) && Sized(size, base, free) && Ordered(base, free)
    requires forall m :: 0 <= m <= |free| ==> NodeOf(base, free, m) != c
    ensures var f := free[i := Block(free[i].addr, free[i].units - n)];
      Circle(ptr, base, f) && Sized(size[free[i].addr := free[i].units - n][c := n], base, f)
  {
    var f := free[i := Block(free[i].addr, free[i].units - n)];
    assert forall m :: 0 <= m <= |free| ==> NodeOf(base, f, m) == NodeOf(base, free, m);
    forall m | 0 <= m <= |f| ensures NodeOf(base, f, m) in ptr && ptr[NodeOf(base, f, m)] == NodeOf(base, f, Next(f, m)) {
      assert ptr[NodeOf(base, free, m)] == NodeOf(base, free, Next(free, m));
    }
    var size' := size[free[i].addr := free[i].units - n][c := n];
    forall m | 0 <= m <= |f| ensures NodeOf(base, f, m) in size' && size'[NodeOf(base, f, m)] == UnitsOf(f, m) {
      assert NodeOf(base, free, m) in size;
      if m != i + 1 { assert NodeOf(base, free, m) != NodeOf(base, free, i + 1); }
    }
  }

  // The header malloc writes into a block it splits belongs to no one yet.
  lemma CutIsFresh(h: State, base: int, i: nat, n: int)
    requires Inv(h) && base < h.lo && i < |h.free| && 1 <= n < h.free[i].units
    ensures forall m :: 0 <= m <= |h.free| ==> NodeOf(base, h.free, m) != Cut(h.free[i], n).addr
    ensures forall k :: 0 <= k < |h.live| ==> h.live[k].addr != Cut(h.free[i], n).addr && h.live[k].addr != h.free[i].addr
  {
    forall m | 0 <= m <= |h.free| ensures NodeOf(base, h.free, m) != Cut(h.free[i], n).addr {
      if 0 < m <= i { assert h.free[m - 1].End() < h.free[i].addr; }
      if i + 1 < m { assert h.free[i].End() < h.free[m - 1].addr; }
    }
    forall k | 0 <= k < |h.live|
      ensures h.live[k].addr != Cut(h.free[i], n).addr && h.live[k].addr != h.free[i].addr
    {
      assert Apart(h.free[i], h.live[k]);
    }
  }

  // Where in address order a block in use belongs.
  lemma FindPosition(h: State, k: nat) returns (t: nat)
    requires Inv(h) && k < |h.live|
    ensures Position(h.free, h.live[k], t)
  {
    t := 0;
    while t < |h.free| && h.free[t].addr < h.live[k].addr
      invariant t <= |h.free|
      invariant forall j :: 0 <= j < t ==> h.free[j].addr < h.live[k].addr
    {
      t := t + 1;
    }
    forall j | t <= j < |h.free| ensures h.live[k].addr < h.free[j].addr {
      assert Apart(h.free[t], h.live[k]);
      if t < j { assert h.free[t].End() < h.free[j].addr; }
    }
  }

  lemma NodesOrdered(h: State, base: int)
    requires Inv(h) && base < h.lo
    ensures Ordered(base, h.free)
  {
    forall i, j | 0 <= i < j <= |h.free| ensures NodeOf(base, h.free, i) < NodeOf(base, h.free, j) {
      if i > 0 { assert h.free[i - 1].End() < h.free[j - 1].addr; }
    }
  }

  // No two blocks share a header.
  lemma DistinctHeaders(h: State, base: int, k: nat)
    requires Inv(h) && base < h.lo && k < |h.live|
    ensures forall m :: 0 <= m < |h.live| && m != k ==> h.live[m].addr != h.live[k].addr
    ensures forall i :: 0 <= i <= |h.free| ==> NodeOf(base, h.free, i) != h.live[k].addr
  {
    forall m | 0 <= m < |h.live| && m != k ensures h.live[m].addr != h.live[k].addr {
      assert if m < k then Apart(h.live[m], h.live[k]) else Apart(h.live[k], h.live[m]);
    }
    forall i | 0 <= i <= |h.free| ensures NodeOf(base, h.free, i) != h.live[k].addr {
      if i > 0 { assert Apart(h.free[i - 1], h.live[k]); }
    }
  }

  ghost predicate Headers(size: map<int, int>, live: seq<Block>) {
    forall k :: 0 <= k < |live| ==> live[k].addr in size && size[live[k].addr] == live[k].units
  }

  // The headers of the other blocks in use survive a free.
  lemma SplicedHeaders(h: State, base: int, size: map<int, int>, k: nat, j: nat)
    requires Inv(h) && base < h.lo && k < |h.live| && j <= |h.free|
    requires Headers(size, h.live) && Sized(size, base, h.free)
    ensures var p, next := NodeOf(base, h.free, j), NodeOf(base, h.free, Next(h.free, j));
      && p in size && next in size
      && forall l, r :: Headers(SplicedSize(size, p, h.live[k].addr, next, l, r), h.live[..k] + h.live[k + 1..])
  {
    forall m | 0 <= m < |h.live| && m != k
      ensures h.live[m].addr != h.live[k].addr && h.live[m].addr != NodeOf(base, h.free, j)
    {
      DistinctHeaders(h, base, m);
    }
  }

  // ----- Walking the circle

  // Node j has been passed when walking forward from node f to node a.
  ghost predicate Passed(f: nat, a: nat, j: nat) {
    if f <= a then f < j <= a else f < j || j <= a
  }

  // Steps left from node a until the walk is back at node f.
  ghost function Left(n: nat, f: nat, a: nat): nat
    requires f <= n && a <= n
  {
    if f <= a then n + 1 - a + f else f - a
  }

  lemma WalkStep(free: seq<Block>, f: nat, a: nat)
    requires f <= |free| && a <= |free|
    ensures Next(free, a) <= |free|
    ensures Next(free, a) != f ==>
      && Left(|free|, f, Next(free, a)) < Left(|free|, f, a)
      && (forall j :: 0 <= j <= |free| ==> (Passed(f, Next(free, a), j) <==> Passed(f, a, j) || j == Next(free, a)))
    ensures Next(free, a) == f ==> forall j :: 0 <= j <= |free| ==> Passed(f, a, j) || j == f
  {
  }

  // The memory represents a heap state.
  ghost predicate Represents(ptr: map<int, int>, size: map<int, int>, base: int, h: State) {
    Circle(ptr, base, h.free) && Sized(size, base, h.free) && Headers(size, h.live)
  }

  lemma FreeHeader(ptr: map<int, int>, size: map<int, int>, base: int, h: State, i: nat)
    requires Inv(h) && 0 < base < h.lo && Represents(ptr, size, base, h) && i < |h.free|
    ensures h.free[i].addr in ptr && h.free[i].addr in size && size[h.free[i].addr] == h.free[i].units
    ensures NodeOf(base, h.free, i) > 0 && h.free[i].addr > 0
  {
    assert NodeOf(base, h.free, i + 1) in size && NodeOf(base, h.free, i + 1) in ptr;
  }

  lemma TakeNode(base: int, free: seq<Block>, i: nat, n: int)
    requires i < |free|
    ensures i <= |Take(free, i, n)| && NodeOf(base, Take(free, i, n), i) == NodeOf(base, free, i)
  {
  }

  // A header above the heap disturbs none of the others.
  lemma GrownRepresents(ptr: map<int, int>, size: map<int, int>, base: int, h: State, hp: int, units: int)
    requires Inv(h) && base < h.lo && h.hi <= hp && Represents(ptr, size, base, h)
    ensures Represents(ptr, size[hp := units], base, AfterGrow(h, hp, units))
  {
    NodesOrdered(h, base);
    assert forall i :: 0 <= i <= |h.free| ==> NodeOf(base, h.free, i) < hp;
    hide Circle;
  }

  lemma CarvedWhole(ptr: map<int, int>, size: map<int, int>, base: int, h: State, i: nat)
    requires Inv(h) && base < h.lo && i < |h.free| && Represents(ptr, size, base, h)
    ensures NodeOf(base, h.free, i) in ptr && h.free[i].addr in ptr
    ensures Represents(ptr[NodeOf(base, h.free, i) := ptr[h.free[i].addr]], size, base, AfterMalloc(h, i, h.free[i].units))
  {
    NodesOrdered(h, base);
    UnlinkedCircle(ptr, base, h.free, i);
    UnlinkedSizes(size, base, h.free, i);
    assert NodeOf(base, h.free, i + 1) in size;
    hide Circle;
    hide Inv;
  }

  lemma CarvedPart(ptr: map<int, int>, size: map<int, int>, base: int, h: State, i: nat, n: int)
    requires Inv(h) && base < h.lo && i < |h.free| && Represents(ptr, size, base, h) && 1 <= n < h.free[i].units
    ensures var size' := size[h.free[i].addr := h.free[i].units - n][Cut(h.free[i], n).addr := n];
      Represents(ptr, size', base, AfterMalloc(h, i, n))
  {
    NodesOrdered(h, base);
    CutIsFresh(h, base, i, n);
    ShrunkBlock(ptr, size, base, h.free, i, n, Cut(h.free[i], n).addr);
    hide Circle;
    hide Sized;
    hide Inv;
  }

  class Allocator {
    const base: int              // &base, in the data segment below the heap
    var ptr: map<int, int>       // header fields s.ptr and s.size, by address
    var size: map<int, int>
    var freep: int               // 0 before the first call of malloc
    var brk: int                 // the process's break

    ghost var h: State
    ghost var at: nat            // freep is the at-th node of the circle

    ghost function Node(j: nat): int
      requires j <= |h.free|
      reads this
    {
      NodeOf(base, h.free, j)
    }

    ghost predicate Valid()
      reads this
    {
      && 0 < base < h.lo && h.hi <= brk
      && Inv(h)
      && (if freep == 0 then h.free == [] && h.live == []
          else Represents(ptr, size, base, h) && at <= |h.free| && freep == Node(at))
    }

    constructor (b: int, heapStart: int)
      requires 0 < b < heapStart
      ensures Valid() && freep == 0 && h == State([], [], heapStart, heapStart, 0) && brk == heapStart
    {
      base := b;
      ptr, size, freep, brk := map[], map[], 0, heapStart;
      h := State([], [], heapStart, heapStart, 0);
      at := 0;
    }

    /** The search loop of free: the node p after which block bp belongs. */
    method FindSpot(bp: int, ghost k: nat) returns (p: int, ghost j: nat)
      requires Valid() && freep != 0 && k < |h.live| && h.live[k].addr == bp
      ensures j <= |h.free| && p == Node(j) && Position(h.free, h.live[k], j)
    {
      ghost var t := FindPosition(h, k);
      ghost var n := |h.free| + 1;
      p := freep;
      j := at;
      while !(bp > p && bp < ptr[p])
        invariant j <= |h.free| && p == Node(j)
        decreases if j <= t then t - j else n - j + t
      {
        OnlyAtSpot(k, j, t);
        if p >= ptr[p] && (bp > p || bp < ptr[p]) {
          break;
        }
        p := ptr[p];
        j := Next(h.free, j);
      }
      OnlyAtSpot(k, j, t);
    }

    // The loop's two exit tests hold at the right node and nowhere else.
    lemma OnlyAtSpot(k: nat, j: nat, t: nat)
      requires Valid() && freep != 0 && k < |h.live| && Position(h.free, h.live[k], t) && j <= |h.free|
      ensures var bp, p := h.live[k].addr, Node(j);
        (bp > p && bp < ptr[p]) || (p >= ptr[p] && (bp > p || bp < ptr[p])) <==> j == t
    {
      NodesOrdered(h, base);
      assert Node(0) == base;
      if j < |h.free| { assert Node(j) < Node(j + 1); }
    }

    /** The tail of free: link bp in after p, merging with either neighbour. */
    method Splice(bp: int, p: int, ghost k: nat, ghost j: nat)
      requires Valid() && freep != 0 && k < |h.live| && h.live[k].addr == bp
      requires j <= |h.free| && p == Node(j) && Position(h.free, h.live[k], j)
      modifies this`ptr, this`size, this`freep, this`h, this`at
      ensures Valid() && freep == p && at == j
      ensures h == AfterFree(old(h), k, j)
    {
      hide Release;
      hide Inv;
      ghost var b := h.live[k];
      NodesOrdered(h, base);
      JoinsAgree(k, j);
      SplicedCircle(ptr, base, h.free, b, j);
      SplicedSizes(size, base, h.free, b, j);
      SplicedHeaders(h, base, size, k, j);
      FreeKeepsInv(h, k, j);
      ReleasedNodes(base, h.free, b, j);
      LinkIn(bp, p);
      freep := p;
      h, at := AfterFree(h, k, j), j;
    }

    // The stores of free once p is found.
    method LinkIn(bp: int, p: int)
      requires p in ptr && p in size && bp in size && ptr[p] in ptr && ptr[p] in size && p != bp && ptr[p] != bp
      modifies this`ptr, this`size
      ensures var next := old(ptr)[p];
        var l, r := p + HEADER * old(size)[p] == bp, bp + HEADER * old(size)[bp] == next;
        && ptr == SplicedPtr(old(ptr), p, bp, next, l, r)
        && size == SplicedSize(old(size), p, bp, next, l, r)
    {
      var next := ptr[p];
      if bp + HEADER * size[bp] == next {
        size := size[bp := size[bp] + size[next]];
        ptr := ptr[bp := ptr[next]];
      } else {
        ptr := ptr[bp := next];
      }
      if p + HEADER * size[p] == bp {
        size := size[p := size[p] + size[bp]];
        ptr := ptr[p := ptr[bp]];
      } else {
        ptr := ptr[p := bp];
      }
    }

    // The pointer comparisons of free test whether the block touches its neighbours.
    lemma JoinsAgree(k: nat, j: nat)
      requires Valid() && freep != 0 && k < |h.live| && j <= |h.free| && Position(h.free, h.live[k], j)
      ensures Node(j) < h.live[k].addr && (j < |h.free| ==> h.live[k].addr < h.free[j].addr)
      ensures h.live[k].End() == Node(Next(h.free, j)) <==> JoinsRight(h.free, h.live[k], j)
      ensures Node(j) + HEADER * UnitsOf(h.free, j) == h.live[k].addr <==> JoinsLeft(h.free, h.live[k], j)
    {
    }

    /** free(ap), for the k-th block in use. */
    method Free(ap: int, ghost k: nat) returns (ghost j: nat)
      requires Valid() && freep != 0 && k < |h.live| && h.live[k].addr == ap - HEADER
      modifies this`ptr, this`size, this`freep, this`h, this`at
      ensures Valid() && freep != 0
      ensures Position(old(h.free), old(h.live)[k], j) && h == AfterFree(old(h), k, j)
    {
      var bp := ap - HEADER;
      var p;
      p, j := FindSpot(bp, k);
      NodesOrdered(h, base);
      assert Node(0) <= p;
      Splice(bp, p, k, j);
    }

    // sbrk and the new header: the region becomes one more block in use.
    method Extend(units: int) returns (hp: int)
      requires Valid() && freep != 0 && 1 <= units < INTLIMIT / HEADER
      modifies this`size, this`brk, this`h
      ensures Valid() && hp == old(brk) && brk == hp + HEADER * units
      ensures h == AfterGrow(old(h), hp, units)
    {
      hide Inv;
      hide Represents;
      GrowKeepsInv(h, brk, units);
      GrownRepresents(ptr, size, base, h, brk, units);
      SmallToInt(units * HEADER);
      hp := brk;
      brk := brk + BreakMove(brk, ToInt(units * HEADER));
      size := size[hp := units];
      h := AfterGrow(h, hp, units);
    }

    /** morecore(nu); `grant` says whether sbrk finds the memory. */
    method Morecore(nu: int, grant: bool) returns (r: int, ghost big: nat)
      requires Valid() && freep != 0 && 1 <= nu < INTLIMIT / HEADER
      modifies this
      ensures Valid() && freep != 0
      ensures !grant ==> r == 0 && h == old(h) && freep == old(freep) && brk == old(brk)
      ensures grant ==> r == freep && h.live == old(h.live) && h.total == old(h.total) + Asked(nu)
      ensures grant ==> h.lo == old(h.lo) && brk == old(brk) + HEADER * Asked(nu)
      ensures grant ==> big < |h.free| && h.free[big].units >= nu
    {
      hide Release;
      hide Inv;
      var units := nu;
      if units < MINUNITS {
        units := MINUNITS;
      }
      if !grant {
        return 0, 0;
      }
      ghost var h0 := h;
      var hp := Extend(units);
      ghost var j := Free(hp + HEADER, |h.live| - 1);
      big := GrowThenFree(h0, hp, units, j);
      return freep, big;
    }

    // The stores of malloc once p is found.
    method TakeOut(prevp: int, p: int, nunits: int) returns (q: int)
      requires p in ptr && p in size
      modifies this`ptr, this`size
      ensures old(size)[p] == nunits ==>
        q == p && ptr == old(ptr)[prevp := old(ptr)[p]] && size == old(size)
      ensures old(size)[p] != nunits ==>
        && q == p + HEADER * (old(size)[p] - nunits)
        && ptr == old(ptr) && size == old(size)[p := old(size)[p] - nunits][q := nunits]
    {
      q := p;
      if size[p] == nunits {
        ptr := ptr[prevp := ptr[p]];
      } else {
        size := size[p := size[p] - nunits];
        q := p + HEADER * size[p];
        size := size[q := nunits];
      }
    }

    /** The exit of malloc's loop: p, the i-th free block, is large enough. */
    method Carve(prevp: int, p: int, nunits: int, ghost i: nat) returns (r: int)
      requires Valid() && freep != 0 && i < |h.free| && p == h.free[i].addr && prevp == Node(i)
      requires 1 <= nunits <= h.free[i].units
      modifies this`ptr, this`size, this`freep, this`h, this`at
      ensures Valid() && freep == prevp && at == i
      ensures r == Cut(old(h.free)[i], nunits).addr + HEADER && h == AfterMalloc(old(h), i, nunits) && r > 0
    {
      hide Represents;
      hide Inv;
      hide Take;
      CarvedState(i, nunits);
      r := TakeOut(prevp, p, nunits);
      freep := prevp;
      h, at := AfterMalloc(h, i, nunits), i;
      r := r + HEADER;
    }

    lemma CarvedState(i: nat, n: int)
      requires Valid() && freep != 0 && i < |h.free| && 1 <= n <= h.free[i].units
      ensures var b := h.free[i];
        && b.addr in ptr && b.addr in size && size[b.addr] == b.units && Node(i) > 0 && b.addr > 0
        && Inv(AfterMalloc(h, i, n)) && i <= |Take(h.free, i, n)| && NodeOf(base, Take(h.free, i, n), i) == Node(i)
        && (b.units == n ==> Represents(ptr[Node(i) := ptr[b.addr]], size, base, AfterMalloc(h, i, n)))
        && (b.units != n ==>
              Represents(ptr, size[b.addr := b.units - n][Cut(b, n).addr := n], base, AfterMalloc(h, i, n)))
    {
      hide Represents;
      hide Inv;
      hide Take;
      MallocKeepsInv(h, i, n);
      FreeHeader(ptr, size, base, h, i);
      TakeNode(base, h.free, i, n);
      if h.free[i].units == n {
        CarvedWhole(ptr, size, base, h, i);
      } else {
        CarvedPart(ptr, size, base, h, i, n);
      }
    }

    // The first call of malloc links base to itself.
    method Start()
      requires Valid() && freep == 0
      modifies this`ptr, this`size, this`freep, this`at
      ensures Valid() && freep != 0
    {
      ptr := ptr[base := base];
      size := size[base := 0];
      freep := base;
      at := 0;
      assert Node(0) == base;
    }

    ghost predicate TooSmall(f: nat, a: nat, n: int)
      reads this
    {
      forall j :: 0 <= j <= |h.free| && Passed(f, a, j) ==> UnitsOf(h.free, j) < n
    }

    // Distinct nodes have distinct addresses, so p == freep only back at the start.
    lemma SameNode(i: nat, j: nat)
      requires Inv(h) && base < h.lo && i <= |h.free| && j <= |h.free| && Node(i) == Node(j)
      ensures i == j
    {
      NodesOrdered(h, base);
    }

    // Back at the start, every free block has been tried.
    lemma NothingFits(a: nat, n: int)
      requires at <= |h.free| && a <= |h.free| && Next(h.free, a) == at
      requires TooSmall(at, a, n) && UnitsOf(h.free, at) < n
      ensures forall j :: 0 <= j < |h.free| ==> h.free[j].units < n
    {
      forall j | 0 <= j < |h.free| ensures h.free[j].units < n {
        assert Passed(at, a, j + 1) || j + 1 == at;
      }
    }

    lemma HeaderAt(j: nat)
      requires Valid() && freep != 0 && j <= |h.free|
      ensures Node(j) in ptr && Node(j) in size
      ensures ptr[Node(j)] == NodeOf(base, h.free, Next(h.free, j)) && size[Node(j)] == UnitsOf(h.free, j)
    {
    }

    /** malloc(nbytes); `grant` says whether sbrk finds the memory if it is asked. */
    method Malloc(nbytes: nat, grant: bool) returns (r: int)
      requires Valid() && nbytes <= INTLIMIT - 2 * HEADER
      modifies this
      ensures Valid() && freep != 0 && h.lo == old(h.lo)
      ensures r != 0 ==> h.live == old(h.live) + [Block(r - HEADER, NUnits(nbytes))]
      ensures r != 0 ==> r + nbytes <= Block(r - HEADER, NUnits(nbytes)).End() < r + nbytes + HEADER
      ensures r == 0 ==> h == old(h) && !grant
      ensures h.total == old(h.total) ||
        (grant && h.total == old(h.total) + Asked(NUnits(nbytes)))
      ensures r == 0 || h.total != old(h.total) ==>
        forall j :: 0 <= j < |old(h.free)| ==> old(h.free)[j].units < NUnits(nbytes)
    {
      hide Inv;
      hide Represents;
      var nunits := NUnits(nbytes);
      if freep == 0 {
        Start();
      }
      var prevp := freep;
      ghost var a: nat := at;
      HeaderAt(a);
      var p := ptr[prevp];
      ghost var grown := false;
      while true
        invariant Valid() && freep != 0 && a <= |h.free| && prevp == Node(a)
        invariant p == NodeOf(base, h.free, Next(h.free, a))
        invariant h.live == old(h.live) && h.lo == old(h.lo)
        invariant TooSmall(at, a, nunits)
        invariant !grown ==> h == old(h)
        invariant grown ==> grant && h.total == old(h.total) + Asked(nunits)
        invariant grown ==> exists j :: 0 <= j < |h.free| && h.free[j].units >= nunits
        invariant grown ==> forall j :: 0 <= j < |old(h.free)| ==> old(h.free)[j].units < nunits
        decreases if grown then 0 else 1, Left(|h.free|, at, a)
      {
        ghost var b: nat := Next(h.free, a);
        HeaderAt(b);
        WalkStep(h.free, at, a);
        if size[p] >= nunits {
          r := Carve(prevp, p, nunits, b - 1);
          return;
        }
        if p == freep {
          SameNode(b, at);
          NothingFits(a, nunits);
          ghost var big;
          p, big := Morecore(nunits, grant);
          if p == 0 {
            return 0;
          }
          grown := true;
          b := at;
          HeaderAt(b);
        }
        prevp := p;
        p := ptr[p];
        a := b;
      }
    }
  }

  // The units morecore asks for.
  function Asked(nu: int): int {
    if nu < MINUNITS then MINUNITS else nu
  }
}
