/**
  The storage allocator of user/umalloc.c (Kernighan and Ritchie), on values: what the sequence
  of free blocks and the blocks in use look like, and what malloc and free do to them.
 */
module Heap {
  const HEADER: int := 16 // sizeof(Header), the allocation unit

  /** A block of memory, header included. */
  datatype Block = Block(addr: int, units: int) {
    function End(): int {
      addr + HEADER * units
    }
  }

  ghost predicate Apart(a: Block, b: Block) {
    a.End() <= b.addr || b.End() <= a.addr
  }

  // Address-ordered and fully coalesced: no two free blocks touch.
  ghost predicate Separated(free: seq<Block>) {
    forall i, j :: 0 <= i < j < |free| ==> free[i].End() < free[j].addr
  }

  ghost predicate AllApart(s: seq<Block>) {
    forall i, j :: 0 <= i < j < |s| ==> Apart(s[i], s[j])
  }

  ghost predicate Within(s: seq<Block>, lo: int, hi: int) {
    forall i :: 0 <= i < |s| ==> s[i].units >= 1 && lo <= s[i].addr && s[i].End() <= hi
  }

  ghost function Units(s: seq<Block>): int {
    if s == [] then 0 else s[0].units + Units(s[1..])
  }

  /** Free blocks in address order, blocks in use, the heap's extent and all units ever obtained. */
  datatype State = State(free: seq<Block>, live: seq<Block>, lo: int, hi: int, total: int)

  ghost predicate Inv(h: State) {
    && h.lo <= h.hi
    && Within(h.free, h.lo, h.hi) && Within(h.live, h.lo, h.hi)
    && Separated(h.free)
    && AllApart(h.live)
    && (forall i, j :: 0 <= i < |h.free| && 0 <= j < |h.live| ==> Apart(h.free[i], h.live[j]))
    && Units(h.free) + Units(h.live) == h.total
  }

  // ----- The two operations on the free list

  // Block b belongs between free[i - 1] and free[i].
  ghost predicate Position(free: seq<Block>, b: Block, i: nat) {
    && i <= |free|
    && (forall j :: 0 <= j < i ==> free[j].addr < b.addr)
    && (forall j :: i <= j < |free| ==> b.addr < free[j].addr)
  }

  ghost predicate JoinsLeft(free: seq<Block>, b: Block, i: nat) {
    0 < i <= |free| && free[i - 1].End() == b.addr
  }

  ghost predicate JoinsRight(free: seq<Block>, b: Block, i: nat) {
    i < |free| && b.End() == free[i].addr
  }

  // The free list after b has been put back at position i and merged with the neighbours it touches.
  ghost function Release(free: seq<Block>, b: Block, i: nat): seq<Block>
    requires i <= |free|
  {
    var l := if JoinsLeft(free, b, i) then 1 else 0;
    var r := if JoinsRight(free, b, i) then 1 else 0;
    var addr := if l == 1 then free[i - 1].addr else b.addr;
    var units := b.units + (if l == 1 then free[i - 1].units else 0) + (if r == 1 then free[i].units else 0);
    free[..i - l] + [Block(addr, units)] + free[i + r..]
  }

  // malloc cuts its block off the tail of the free block it found.
  function Cut(b: Block, n: int): Block {
    Block(b.addr + HEADER * (b.units - n), n)
  }

  ghost function Take(free: seq<Block>, i: nat, n: int): seq<Block>
    requires i < |free|
  {
    if free[i].units == n then free[..i] + free[i + 1..]
    else free[i := Block(free[i].addr, free[i].units - n)]
  }

  // ----- Sums

  lemma {:induction false} UnitsConcat(a: seq<Block>, b: seq<Block>)
    ensures Units(a + b) == Units(a) + Units(b)
  {
    if a == [] {
      assert a + b == b;
    } else {
      assert (a + b)[1..] == a[1..] + b;
      UnitsConcat(a[1..], b);
    }
  }

  lemma UnitsSplit(s: seq<Block>, i: nat)
    requires i <= |s|
    ensures Units(s) == Units(s[..i]) + Units(s[i..])
    ensures i < |s| ==> Units(s[i..]) == s[i].units + Units(s[i + 1..])
  {
    assert s == s[..i] + s[i..];
    UnitsConcat(s[..i], s[i..]);
    if i < |s| { assert s[i..][1..] == s[i + 1..]; }
  }

  lemma {:induction false} UnitsUpdate(s: seq<Block>, i: nat, b: Block)
    requires i < |s|
    ensures Units(s[i := b]) == Units(s) - s[i].units + b.units
  {
    if i == 0 {
      assert s[i := b][1..] == s[1..];
    } else {
      assert s[i := b][1..] == s[1..][i - 1 := b];
      UnitsUpdate(s[1..], i - 1, b);
    }
  }

  lemma UnitsSingle(b: Block)
    ensures Units([b]) == b.units
  {
    assert [b][1..] == [];
  }

  // ----- free

  // A block in use lies strictly between its free neighbours.
  lemma Neighbours(h: State, k: nat, i: nat)
    requires Inv(h) && k < |h.live| && Position(h.free, h.live[k], i)
    ensures forall j :: 0 <= j < i ==> h.free[j].End() <= h.live[k].addr
    ensures forall j :: i <= j < |h.free| ==> h.live[k].End() <= h.free[j].addr
  {
    forall j | 0 <= j < |h.free| ensures Apart(h.free[j], h.live[k]) {}
  }

  // The list Release builds: kept prefix, merged block, kept suffix.
  lemma ReleaseParts(free: seq<Block>, b: Block, i: nat) returns (l: nat, r: nat, mid: Block)
    requires i <= |free|
    ensures l <= i && r <= |free| - i && l <= 1 && r <= 1
    ensures Release(free, b, i) == free[..i - l] + [mid] + free[i + r..]
    ensures mid.units == b.units + (if l == 1 then free[i - 1].units else 0) + (if r == 1 then free[i].units else 0)
    ensures mid.addr == if l == 1 then free[i - 1].addr else b.addr
    ensures l == 1 <==> JoinsLeft(free, b, i)
    ensures r == 1 <==> JoinsRight(free, b, i)
    ensures mid.End() == if r == 1 then free[i].End() else b.End()
  {
    l := if JoinsLeft(free, b, i) then 1 else 0;
    r := if JoinsRight(free, b, i) then 1 else 0;
    mid := Release(free, b, i)[i - l];
  }

  lemma ReleaseAt(free: seq<Block>, b: Block, i: nat) returns (l: nat, r: nat, mid: Block)
    requires i <= |free|
    ensures l <= i && r <= |free| - i && l <= 1 && r <= 1 && |Release(free, b, i)| == |free| + 1 - l - r
    ensures forall j :: 0 <= j < i - l ==> Release(free, b, i)[j] == free[j]
    ensures Release(free, b, i)[i - l] == mid
    ensures forall j :: i - l < j < |Release(free, b, i)| ==> Release(free, b, i)[j] == free[j + r + l - 1]
    ensures mid.addr == if l == 1 then free[i - 1].addr else b.addr
    ensures mid.units == b.units + (if l == 1 then free[i - 1].units else 0) + (if r == 1 then free[i].units else 0)
    ensures l == 1 <==> JoinsLeft(free, b, i)
    ensures r == 1 <==> JoinsRight(free, b, i)
    ensures mid.End() == if r == 1 then free[i].End() else b.End()
  {
    hide Release;
    l, r, mid := ReleaseParts(free, b, i);
  }

  // The merged block has a gap on either side.
  lemma ReleaseGaps(free: seq<Block>, b: Block, i: nat, l: nat, r: nat, mid: Block)
    requires Separated(free) && b.units >= 1 && (forall j :: 0 <= j < |free| ==> free[j].units >= 1)
    requires i <= |free| && l <= i && r <= |free| - i
    requires forall j :: 0 <= j < i ==> free[j].End() <= b.addr
    requires forall j :: i <= j < |free| ==> b.End() <= free[j].addr
    requires l <= 1 && r <= 1 && (l == 1 <==> JoinsLeft(free, b, i)) && (r == 1 <==> JoinsRight(free, b, i))
    requires mid.addr == if l == 1 then free[i - 1].addr else b.addr
    requires mid.End() == if r == 1 then free[i].End() else b.End()
    ensures forall j :: 0 <= j < i - l ==> free[j].End() < mid.addr
    ensures forall j :: i + r <= j < |free| ==> mid.End() < free[j].addr
  {
  }

  lemma ReleaseSeparated(free: seq<Block>, b: Block, i: nat)
    requires Separated(free) && b.units >= 1 && (forall j :: 0 <= j < |free| ==> free[j].units >= 1)
    requires i <= |free|
    requires forall j :: 0 <= j < i ==> free[j].End() <= b.addr
    requires forall j :: i <= j < |free| ==> b.End() <= free[j].addr
    ensures Separated(Release(free, b, i))
  {
    hide Release;
    hide JoinsLeft;
    hide JoinsRight;
    var l, r, mid := ReleaseAt(free, b, i);
    ReleaseGaps(free, b, i, l, r, mid);
    Refilled(free, Release(free, b, i), i, l, r, mid);
  }

  // A list with a stretch replaced by one block that keeps its distance.
  lemma Refilled(free: seq<Block>, f: seq<Block>, i: nat, l: nat, r: nat, mid: Block)
    requires Separated(free) && l <= i && i + r <= |free| && |f| == |free| + 1 - l - r && f[i - l] == mid
    requires forall j :: 0 <= j < i - l ==> f[j] == free[j]
    requires forall j :: i - l < j < |f| ==> f[j] == free[j + r + l - 1]
    requires forall j :: 0 <= j < i - l ==> free[j].End() < mid.addr
    requires forall j :: i + r <= j < |free| ==> mid.End() < free[j].addr
    ensures Separated(f)
  {
    forall x, y | 0 <= x < y < |f| ensures f[x].End() < f[y].addr {
      if x < i - l {
        assert f[x] == free[x];
        if y > i - l { assert f[y] == free[y + r + l - 1]; }
      } else {
        assert f[y] == free[y + r + l - 1];
        if x > i - l { assert f[x] == free[x + r + l - 1]; }
      }
    }
  }

  lemma ReleaseUnits(free: seq<Block>, b: Block, i: nat)
    requires i <= |free|
    ensures Units(Release(free, b, i)) == Units(free) + b.units
  {
    hide Units;
    hide Release;
    var l, r, mid := ReleaseParts(free, b, i);
    UnitsConcat(free[..i - l] + [mid], free[i + r..]);
    UnitsConcat(free[..i - l], [mid]);
    UnitsSingle(mid);
    UnitsSplit(free, i);
    UnitsSplit(free, i - l);
  }

  // What is apart from the free list and from b stays apart from the merged list.
  lemma ReleaseApart(free: seq<Block>, b: Block, i: nat, c: Block)
    requires i <= |free| && b.units >= 1 && (forall j :: 0 <= j < |free| ==> free[j].units >= 1)
    requires c.units >= 1 && Apart(b, c) && (forall j :: 0 <= j < |free| ==> Apart(free[j], c))
    ensures forall j :: 0 <= j < |Release(free, b, i)| ==> Apart(Release(free, b, i)[j], c)
  {
    hide Release;
    var l, r, mid := ReleaseAt(free, b, i);
    assert Apart(mid, c);
  }

  lemma ReleaseWithin(free: seq<Block>, b: Block, i: nat, lo: int, hi: int)
    requires i <= |free| && Within(free, lo, hi) && Within([b], lo, hi)
    ensures Within(Release(free, b, i), lo, hi)
  {
    hide Release;
    var l, r, mid := ReleaseAt(free, b, i);
    assert [b][0] == b;
    assert lo <= mid.addr && mid.End() <= hi;
  }

  ghost function AfterFree(h: State, k: nat, i: nat): State
    requires k < |h.live| && i <= |h.free|
  {
    h.(free := Release(h.free, h.live[k], i), live := h.live[..k] + h.live[k + 1..])
  }

  // Freeing any block in use keeps the heap sound: ordered, coalesced, disjoint, nothing lost.
  lemma FreeKeepsInv(h: State, k: nat, i: nat)
    requires Inv(h) && k < |h.live| && Position(h.free, h.live[k], i)
    ensures Inv(AfterFree(h, k, i))
  {
    hide Units;
    hide Release;
    var b, h' := h.live[k], AfterFree(h, k, i);
    Neighbours(h, k, i);
    ReleaseSeparated(h.free, b, i);
    ReleaseUnits(h.free, b, i);
    ReleaseWithin(h.free, b, i, h.lo, h.hi);
    UnitsSplit(h.live, k);
    UnitsConcat(h.live[..k], h.live[k + 1..]);
    forall m, j | 0 <= m < |h'.free| && 0 <= j < |h'.live| ensures Apart(h'.free[m], h'.live[j]) {
      assert h'.live[j] == h.live[if j < k then j else j + 1];
      ReleaseApart(h.free, b, i, h'.live[j]);
    }
  }

  // ----- malloc

  lemma TakeUnits(free: seq<Block>, i: nat, n: int)
    requires i < |free|
    ensures Units(Take(free, i, n)) == Units(free) - n
  {
    hide Units;
    if free[i].units == n {
      UnitsSplit(free, i);
      UnitsConcat(free[..i], free[i + 1..]);
    } else {
      UnitsUpdate(free, i, Block(free[i].addr, free[i].units - n));
    }
  }

  ghost function AfterMalloc(h: State, i: nat, n: int): State
    requires i < |h.free|
  {
    h.(free := Take(h.free, i, n), live := h.live + [Cut(h.free[i], n)])
  }

  // Handing out part or all of a free block keeps the heap sound.
  lemma MallocKeepsInv(h: State, i: nat, n: int)
    requires Inv(h) && i < |h.free| && 1 <= n <= h.free[i].units
    ensures Inv(AfterMalloc(h, i, n))
  {
    hide Units;
    hide Take;
    var c, h' := Cut(h.free[i], n), AfterMalloc(h, i, n);
    TakeUnits(h.free, i, n);
    UnitsConcat(h.live, [c]);
    UnitsSingle(c);
    TakeApart(h.free, i, n);
    forall j | 0 <= j < |h.live| ensures Apart(h.live[j], c) {
      assert Apart(h.free[i], h.live[j]);
    }
    forall m, j | 0 <= m < |h'.free| && 0 <= j < |h'.live| ensures Apart(h'.free[m], h'.live[j]) {
      if j < |h.live| {
        assert Apart(h.free[TakeFrom(h.free, i, n, m)], h.live[j]);
      }
    }
  }

  // The old index of the m-th block left by Take.
  ghost function TakeFrom(free: seq<Block>, i: nat, n: int, m: nat): nat
    requires i < |free|
  {
    if free[i].units == n && m >= i then m + 1 else m
  }

  lemma TakeApart(free: seq<Block>, i: nat, n: int)
    requires Separated(free) && (forall j :: 0 <= j < |free| ==> free[j].units >= 1)
    requires i < |free| && 1 <= n <= free[i].units
    ensures Separated(Take(free, i, n))
    ensures |Take(free, i, n)| == |free| - (if free[i].units == n then 1 else 0)
    ensures forall m :: 0 <= m < |Take(free, i, n)| ==> Apart(Take(free, i, n)[m], Cut(free[i], n))
    ensures forall m :: 0 <= m < |Take(free, i, n)| ==>
      var o := free[TakeFrom(free, i, n, m)];
      Take(free, i, n)[m].addr == o.addr && 1 <= Take(free, i, n)[m].units <= o.units
  {
    var f := Take(free, i, n);
    forall m | 0 <= m < |f|
      ensures f[m].addr == free[TakeFrom(free, i, n, m)].addr
      ensures 1 <= f[m].units <= free[TakeFrom(free, i, n, m)].units
      ensures Apart(f[m], Cut(free[i], n))
    {
      var o := TakeFrom(free, i, n, m);
      if o != i {
        assert f[m] == free[o];
        if o < i { assert free[o].End() < free[i].addr; } else { assert free[i].End() < free[o].addr; }
      }
    }
  }

  // ----- Growing the heap

  ghost function AfterGrow(h: State, addr: int, units: int): State {
    h.(live := h.live + [Block(addr, units)], hi := addr + HEADER * units, total := h.total + units)
  }

  lemma GrowKeepsInv(h: State, addr: int, units: int)
    requires Inv(h) && h.hi <= addr && units >= 1
    ensures Inv(AfterGrow(h, addr, units))
  {
    UnitsConcat(h.live, [Block(addr, units)]);
    UnitsSingle(Block(addr, units));
  }

  // Freeing the region just obtained puts all of it on the free list.
  lemma GrowThenFree(h: State, addr: int, units: int, j: nat) returns (big: nat)
    requires Inv(h) && units >= 1 && j <= |h.free|
    ensures var h' := AfterFree(AfterGrow(h, addr, units), |h.live|, j);
      h'.live == h.live && h'.total == h.total + units && big < |h'.free| && h'.free[big].units >= units
  {
    hide Release;
    var l, r, mid := ReleaseAt(h.free, Block(addr, units), j);
    big := j - l;
  }
}
