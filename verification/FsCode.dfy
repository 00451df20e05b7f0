/**
  balloc, bfree, bmap, readi, writei and itrunc of kernel/fs.c and the inode loop of filewrite
  in kernel/file.c, over the bitmap, the blocks and the inode table.  `trail` records the block
  numbers passed to log_write since the operation began.
 */
module FsCode {
  import opened Fs

  const MAXOPBLOCKS: int := 10
  const UINT: int := 0x1_0000_0000

  // ----- Counting logged blocks

  lemma {:induction false} SubsetSize<T>(a: set<T>, b: set<T>)
    requires a <= b
    ensures |a| <= |b|
  {
    if a != {} {
      var x :| x in a;
      SubsetSize(a - {x}, b - {x});
    }
  }

  // Block number 0 stands for no block.
  ghost function Nz(b: int): set<int> {
    if b == 0 then {} else {b}
  }

  // How many of `left` bytes the block at o takes.
  function ChunkLen(o: int, left: int): int {
    if left < BSIZE - o % BSIZE then left else BSIZE - o % BSIZE
  }

  // How many of n bytes at off count when only `reach` of them can be read: whole chunks.
  function Counts(off: int, n: int, reach: int): int {
    if reach >= n then n
    else if (off + reach) / BSIZE * BSIZE < off then 0
    else (off + reach) / BSIZE * BSIZE - off
  }

  // A copy has failed in the chunk at tot.
  lemma CountsAt(off: int, n: int, reach: int, tot: int)
    requires 0 <= off && 0 <= tot <= reach && tot < n && reach < tot + ChunkLen(off + tot, n - tot)
    requires tot == 0 || (off + tot) % BSIZE == 0
    ensures reach < n && tot == Counts(off, n, reach)
  {
    var o := off + tot;
    assert (off + reach) / BSIZE == o / BSIZE;
  }

  lemma ChunkAligns(o: int, left: int)
    requires 0 <= o && 0 < left
    ensures ChunkLen(o, left) == left || (o + ChunkLen(o, left)) % BSIZE == 0
  {
  }

  /**
    When only `reach` bytes can be read, a write leaves the bytes it counts and no others if and
    only if the rest of what could be read falls beyond the end of the file or changes nothing.
   */
  lemma LandedExactly(c: seq<int>, off: int, src: seq<int>, reach: nat)
    requires 0 <= off <= |c|
    ensures var n, w := Counts(off, |src|, reach), Min(reach, |src|);
      && 0 <= n <= w
      && (Landed(c, off, src[..w], n) == Overwrite(c, off, src[..n]) <==>
            forall p :: off + n <= p < off + w && p < |c| ==> c[p] == src[p - off])
  {
    var n, w := Counts(off, |src|, reach), Min(reach, |src|);
    CountsBound(off, |src|, reach);
    LandedIs(c, off, src[..w], n);
    assert src[..w][..n] == src[..n];
  }

  lemma CountsBound(off: int, n: int, reach: int)
    requires 0 <= off && 0 <= n && 0 <= reach
    ensures 0 <= Counts(off, n, reach) <= Min(reach, n)
  {
  }

  function Min(a: int, b: int): int { if a < b then a else b }

  predicate Unaligned(off: int) {
    off % BSIZE != 0
  }

  // The blocks a write of n bytes at off touches.
  function Touched(off: int, n: int): int {
    (off % BSIZE + n + BSIZE - 1) / BSIZE
  }

  // Data blocks, a bitmap block for each that may be new (an unaligned first one is not), the
  // indirect block, its bitmap block and the inode block.
  function LogBound(off: int, n: int): int {
    Touched(off, n) + (Touched(off, n) - (if Unaligned(off) then 1 else 0)) + 3
  }

  // The chunk size of filewrite keeps every chunk within one operation's budget.
  lemma ChunkFits(off: int, n: int)
    requires 0 <= off && 0 < n <= (MAXOPBLOCKS - 1 - 1 - 2) / 2 * BSIZE
    ensures LogBound(off, n) <= MAXOPBLOCKS
  {
  }

  // ----- The log account of one writei

  // After `tot` bytes of a write of n bytes at off: how many blocks have been visited and how
  // many bitmap blocks that can have cost.
  ghost predicate Progress(off: int, n: int, tot: int, visits: int, bits: int, had: bool, has: bool) {
    && 0 <= tot <= n && 0 <= visits
    && (visits == 0 ==> tot == 0)
    && (visits > 0 && tot < n ==> off + tot == (off / BSIZE + visits) * BSIZE)
    && (visits > 0 && tot == n ==> (off / BSIZE + visits - 1) * BSIZE < off + n)
    && bits <= visits - (if visits > 0 && Unaligned(off) then 1 else 0) + (if !had && has then 1 else 0)
  }

  lemma ProgressStep(off: int, n: int, tot: int, visits: int, bits: int, had: bool, has: bool, has': bool, more: int, k: int)
    requires Progress(off, n, tot, visits, bits, had, has) && 0 <= off && tot < n
    requires k == ChunkLen(off + tot, n - tot)
    requires more <= (if visits == 0 && Unaligned(off) then 0 else 1) + (if !has && has' then 1 else 0)
    requires (had ==> has) && (has ==> has')
    ensures Progress(off, n, tot + k, visits + 1, bits + more, had, has')
  {
  }

  lemma ProgressBound(off: int, n: int, tot: int, visits: int, bits: int, had: bool, has: bool)
    requires Progress(off, n, tot, visits, bits, had, has) && 0 <= off
    ensures visits + bits + 2 <= LogBound(off, n)
  {
  }

  // A read of m bytes at off that has copied tot of them, from `done` blocks.
  ghost predicate Visited(off: int, m: int, tot: int, done: int) {
    && 0 <= tot <= m && done == (if tot == 0 then 0 else Touched(off, tot))
    && (0 < tot < m ==> (off + tot) % BSIZE == 0)
  }

  lemma VisitNone(off: int, m: int)
    requires m >= 0
    ensures Visited(off, m, 0, 0)
  {
  }

  lemma VisitStep(off: int, m: int, tot: int, done: int, k: int)
    requires Visited(off, m, tot, done) && 0 <= off && tot < m && k == ChunkLen(off + tot, m - tot)
    ensures Visited(off, m, tot + k, done + 1)
  {
    if tot > 0 { assert Touched(off, tot) * BSIZE == off % BSIZE + tot; }
  }

  // It is complete exactly when it has visited all the blocks it touches.
  lemma VisitsLeft(off: int, m: int, tot: int, done: int)
    requires Visited(off, m, tot, done) && 0 <= off && m > 0
    ensures if tot == m then done == Touched(off, m) else done < Touched(off, m)
  {
    if 0 < tot < m { assert Touched(off, tot) * BSIZE == off % BSIZE + tot; }
  }

  // Everything logged so far but the indirect block is bitmap blocks and data blocks.
  ghost predicate Accounted(off: int, n: int, tot: int, before: int, bits: int, visits: int,
                            logged: set<int>, ind0: int, ind: int) {
    && |logged - Nz(ind)| <= before + bits + visits
    && (ind0 != 0 ==> ind != 0)
    && Progress(off, n, tot, visits, bits, ind0 != 0, ind != 0)
  }

  lemma LoggedMore(logged: set<int>, logged': set<int>, more: set<int>, a: int, ind: int, ind': int)
    requires logged' <= logged + more + Nz(a) + Nz(ind') && (ind != 0 ==> ind' == ind)
    ensures |logged' - Nz(ind')| <= |logged - Nz(ind)| + |more| + if a == 0 then 0 else 1
  {
    SubsetSize(logged' - Nz(ind'), (logged - Nz(ind)) + more + Nz(a));
  }

  lemma AccountStep(off: int, n: int, tot: int, before: int, bits: int, visits: int, logged: set<int>, ind0: int, ind: int,
                    logged': set<int>, ind': int, a: int, more: set<int>, k: int)
    requires Accounted(off, n, tot, before, bits, visits, logged, ind0, ind) && 0 <= off && tot < n && (ind != 0 ==> ind' == ind)
    requires logged' <= logged + more + Nz(a) + Nz(ind')
    requires |more| <= (if (visits == 0 && Unaligned(off)) || a == 0 then 0 else 1) + (if ind == 0 && ind' != 0 then 1 else 0)
    requires a == 0 ==> k == 0
    requires a != 0 ==> k == ChunkLen(off + tot, n - tot)
    ensures Accounted(off, n, tot + k, before, bits + |more|, if a == 0 then visits else visits + 1, logged', ind0, ind')
  {
    hide Progress;
    hide Nz;
    hide ChunkLen;
    hide Unaligned;
    LoggedMore(logged, logged', more, a, ind, ind');
    if a == 0 {
      ProgressFull(off, n, tot, visits, bits, ind0 != 0, ind != 0, ind' != 0, |more|);
    } else {
      ProgressStep(off, n, tot, visits, bits, ind0 != 0, ind != 0, ind' != 0, |more|, k);
    }
  }

  lemma ProgressFull(off: int, n: int, tot: int, visits: int, bits: int, had: bool, has: bool, has': bool, more: int)
    requires Progress(off, n, tot, visits, bits, had, has) && (had ==> has) && (has ==> has')
    requires more <= if !has && has' then 1 else 0
    ensures Progress(off, n, tot, visits, bits + more, had, has')
  {
  }

  lemma AccountStart(off: int, n: int, logged: set<int>, ind0: int)
    requires n >= 0
    ensures Accounted(off, n, 0, |logged|, 0, 0, logged, ind0, ind0)
  {
    SubsetSize(logged - Nz(ind0), logged);
  }

  lemma VisitsZero(off: int, n: int, tot: int, before: int, bits: int, visits: int, logged: set<int>, ind0: int, ind: int)
    requires Accounted(off, n, tot, before, bits, visits, logged, ind0, ind)
    ensures visits == 0 ==> tot == 0
  {
  }

  lemma ChunkPositive(o: int, left: int)
    requires left > 0
    ensures 0 < ChunkLen(o, left)
  {
  }

  lemma CountsShort(off: int, n: int, reach: int)
    requires 0 <= off && 0 <= n && 0 <= reach
    ensures reach < n ==> reach < Counts(off, n, reach) + BSIZE && Counts(off, n, reach) < n
    ensures reach >= n ==> Counts(off, n, reach) == n
  {
  }

  lemma BoundPositive(off: int, n: int)
    requires 0 <= n
    ensures LogBound(off, n) >= 0
  {
  }

  // With the indirect block the account is under the bound: there is room for the inode block.
  lemma AccountBound(off: int, n: int, tot: int, before: int, bits: int, visits: int, logged: set<int>, ind0: int, ind: int)
    requires Accounted(off, n, tot, before, bits, visits, logged, ind0, ind) && 0 <= off
    ensures |logged| < before + LogBound(off, n)
  {
    hide Progress;
    hide LogBound;
    ProgressBound(off, n, tot, visits, bits, ind0 != 0, ind != 0);
    SubsetSize(logged, (logged - Nz(ind)) + Nz(ind));
  }

  // ----- The log_writes of one operation

  // A trail that grows keeps its blocks.
  lemma InLonger(t: seq<int>, t': seq<int>)
    requires t <= t'
    ensures forall x :: x in t ==> x in t'
  {
    forall x | x in t ensures x in t' {
      var k :| 0 <= k < |t| && t[k] == x;
      assert t'[k] == x;
    }
  }

  // What a block allocation and the store of its address change.
  lemma AttachCovered(l: Layout, s: State, i: int, k: int, b: int, trail: seq<int>)
    requires CanAttach(l, s, i, k, b) && (k > NDIRECT ==> 0 < s.inodes[i].addrs[NDIRECT] < |s.blocks|)
    requires BBlock(l, b) in trail && b in trail && (k > NDIRECT ==> s.inodes[i].addrs[NDIRECT] in trail)
    ensures Covers(l, s, Attach(s, i, k, b), trail + [IBlock(l, i)])
  {
    hide Ref;
    hide SetWord;
  }

  // Every bit that differs is in a logged bitmap block.
  ghost predicate BitsLogged(l: Layout, bits0: seq<bool>, bits: seq<bool>, trail: seq<int>) {
    |bits| == |bits0| && forall b :: 0 <= b < |bits| && bits[b] != bits0[b] ==> BBlock(l, b) in trail
  }

  // The distinct blocks of a trail of log_writes.
  ghost function Elems(trail: seq<int>): set<int> {
    if trail == [] then {} else Elems(trail[..|trail| - 1]) + {trail[|trail| - 1]}
  }

  lemma ElemsMore(trail: seq<int>, b: int)
    ensures Elems(trail + [b]) == Elems(trail) + {b}
  {
    assert (trail + [b])[..|trail|] == trail;
  }

  // The log_writes of a block allocation and of the store of its address.
  lemma ElemsAlloc(trail: seq<int>, bb: int, b: int, last: seq<int>)
    requires |last| <= 1
    ensures Elems(trail + [bb, b] + last) == Elems(trail) + {bb} + {b} + (if last == [] then {} else {last[0]})
  {
    ElemsMore(trail, bb);
    ElemsMore(trail + [bb], b);
    assert trail + [bb] + [b] == trail + [bb, b];
    if last == [] {
      assert trail + [bb, b] + last == trail + [bb, b];
    } else {
      ElemsMore(trail + [bb, b], last[0]);
      assert last == [last[0]];
    }
  }

  lemma {:induction false} ElemsPrefix(trail: seq<int>, k: nat)
    requires k <= |trail|
    ensures Elems(trail[..k]) <= Elems(trail)
  {
    if k < |trail| {
      var front := trail[..|trail| - 1];
      assert front[..k] == trail[..k];
      ElemsPrefix(front, k);
    } else {
      assert trail[..k] == trail;
    }
  }

  /** Every log_write of the trail finds some of the operation's budget unused. */
  ghost predicate Budgeted(trail: seq<int>) {
    forall k :: 0 <= k < |trail| ==> |Elems(trail[..k])| < MAXOPBLOCKS
  }

  lemma BudgetedByLast(trail: seq<int>)
    requires trail != [] ==> |Elems(trail[..|trail| - 1])| < MAXOPBLOCKS
    ensures Budgeted(trail)
  {
    forall k | 0 <= k < |trail| ensures |Elems(trail[..k])| < MAXOPBLOCKS {
      var front := trail[..|trail| - 1];
      assert front[..k] == trail[..k];
      ElemsPrefix(front, k);
      SubsetSize(Elems(trail[..k]), Elems(front));
    }
  }

  class FileSystem {
    const l: Layout
    var bitmap: seq<bool>
    var blocks: seq<Block>
    var inodes: seq<Inode>
    ghost var owner: seq<Owner>
    ghost var trail: seq<int>      // the blocks passed to log_write since the operation began
    ghost var past: seq<seq<int>>  // the trails of the operations that have ended

    ghost function Now(): State
      reads this
    {
      State(bitmap, blocks, inodes, owner)
    }

    ghost predicate DiskFull()
      reads this
    {
      forall b :: 0 <= b < |bitmap| ==> bitmap[b]
    }

    /** Allocate a zeroed disk block; 0 if there is none. */
    method Balloc() returns (r: int)
      requires |bitmap| == |blocks| == l.size && |bitmap| > 0 && bitmap[0]
      modifies this`bitmap, this`blocks, this`trail
      ensures 0 <= r < l.size
      ensures r == 0 ==> bitmap == old(bitmap) && blocks == old(blocks) && trail == old(trail)
      ensures r == 0 ==> DiskFull()
      ensures r != 0 ==> !old(bitmap)[r] && forall b :: 0 <= b < r ==> old(bitmap)[b]
      ensures r != 0 ==> bitmap == old(bitmap)[r := true] && blocks == old(blocks)[r := Zero()]
      ensures r != 0 ==> trail == old(trail) + [BBlock(l, r), r]
    {
      var b := 0;
      while b < l.size
        invariant 0 <= b && b % BPB == 0
        invariant forall c :: 0 <= c < b && c < l.size ==> bitmap[c]
        invariant bitmap == old(bitmap) && blocks == old(blocks) && trail == old(trail)
      {
        var bi := 0;
        while bi < BPB && b + bi < l.size
          invariant 0 <= bi <= BPB
          invariant forall c :: 0 <= c < b + bi && c < l.size ==> bitmap[c]
          invariant bitmap == old(bitmap) && blocks == old(blocks) && trail == old(trail)
        {
          if !bitmap[b + bi] {
            bitmap := bitmap[b + bi := true];
            assert (b + bi) / BPB == b / BPB;
            trail := trail + [BBlock(l, b)];
            blocks := blocks[b + bi := Zero()]; // bzero
            trail := trail + [b + bi];
            return b + bi;
          }
          bi := bi + 1;
        }
        b := b + BPB;
      }
      return 0;
    }

    /** Free a disk block; `false` is the panic "freeing free block". */
    method Bfree(b: int) returns (ok: bool)
      requires 0 <= b < |bitmap|
      modifies this`bitmap, this`trail
      ensures ok <==> old(bitmap)[b]
      ensures ok ==> bitmap == old(bitmap)[b := false] && trail == old(trail) + [BBlock(l, b)]
      ensures ok ==> forall bits0 :: BitsLogged(l, bits0, old(bitmap), old(trail)) ==> BitsLogged(l, bits0, bitmap, trail)
    {
      if !bitmap[b] {
        return false;
      }
      bitmap := bitmap[b := false];
      trail := trail + [BBlock(l, b)];
      return true;
    }

    // balloc and the store of its result in an empty slot of inode i.
    method AllocSlot(i: int, k: int) returns (b: int)
      requires Sound(l, Now()) && 0 <= i < |inodes| && 0 <= k < SLOTS && Ref(Now(), i, k) == 0
      requires k > NDIRECT ==> inodes[i].addrs[NDIRECT] != 0
      modifies this`bitmap, this`blocks, this`inodes, this`owner, this`trail
      ensures Sound(l, Now()) && |inodes| == |old(inodes)|
      ensures b == 0 ==> Now() == old(Now()) && trail == old(trail) && DiskFull()
      ensures b != 0 ==> CanAttach(l, old(Now()), i, k, b) && (k > NDIRECT ==> 0 < old(inodes)[i].addrs[NDIRECT] < |old(blocks)|)
      ensures b != 0 ==> Now() == Attach(old(Now()), i, k, b)
      ensures b != 0 ==> trail == old(trail) + [BBlock(l, b), b] + (if k > NDIRECT then [inodes[i].addrs[NDIRECT]] else [])
    {
      hide Ref;
      hide GetWord;
      hide SetWord;
      ghost var s := Now();
      IndirectOwner(l, s, i);
      b := Balloc();
      if b == 0 {
        return;
      }
      AttachSound(l, s, i, k, b);
      if k <= NDIRECT {
        inodes := inodes[i := inodes[i].(addrs := inodes[i].addrs[k := b])];
      } else {
        var a := inodes[i].addrs[NDIRECT];
        blocks := blocks[a := SetWord(blocks[a], k - NDIRECT - 1, b)];
        trail := trail + [a];
      }
      owner := owner[b := Slot(i, k)];
    }

    // The address in slot k of inode i, with a fresh block put there if it is empty.
    method LoadSlot(i: int, k: int) returns (a: int, ghost bits: set<int>)
      requires Sound(l, Now()) && 0 <= i < |inodes| && 0 <= k < SLOTS
      requires k > NDIRECT ==> inodes[i].addrs[NDIRECT] != 0
      modifies this`bitmap, this`blocks, this`inodes, this`owner, this`trail
      ensures Sound(l, Now()) && |inodes| == |old(inodes)| && Grown(old(Now()), Now(), i)
      ensures a == Ref(Now(), i, k) && (a == 0 ==> DiskFull())
      ensures Ref(old(Now()), i, k) != 0 ==> Now() == old(Now()) && trail == old(trail) && bits == {}
      ensures Elems(trail) <= old(Elems(trail)) + bits + Nz(a) + Nz(inodes[i].addrs[NDIRECT]) && old(trail) <= trail
      ensures |bits| <= if Ref(old(Now()), i, k) == 0 && a != 0 then 1 else 0
      ensures forall k' :: 0 <= k' < SLOTS && k' != k ==> Ref(Now(), i, k') == Ref(old(Now()), i, k')
      ensures Covers(l, old(Now()), Now(), trail + [IBlock(l, i)])
    {
      hide GetWord;
      hide Written;
      hide Sound;
      hide Attach;
      hide Elems;
      ghost var s0 := Now();
      SoundIsShaped(l, s0);
      IndirectOwner(l, s0, i);
      GrownRefl(s0, i);
      bits := {};
      a := if k <= NDIRECT then inodes[i].addrs[k] else GetWord(blocks[inodes[i].addrs[NDIRECT]], k - NDIRECT - 1);
      if a == 0 {
        a := AllocSlot(i, k);
        if a != 0 {
          bits := {BBlock(l, a)};
          GrownByAttach(l, s0, i, k, a);
          SoundIsShaped(l, Now());
          ElemsAlloc(old(trail), BBlock(l, a), a, if k > NDIRECT then [inodes[i].addrs[NDIRECT]] else []);
          forall k' | 0 <= k' < SLOTS ensures Ref(Now(), i, k') == if k' == k then a else Ref(s0, i, k') {
            AttachRef(l, s0, i, k, a, i, k');
          }
          assert inodes[i].addrs[NDIRECT] == Ref(Now(), i, NDIRECT);
          assert s0.inodes[i].addrs[NDIRECT] == Ref(s0, i, NDIRECT);
          AttachCovered(l, s0, i, k, a, trail);
        }
      }
    }

    /** The disk block of the n-th block of file i, made if there is none; 0 if the disk is full. */
    method Bmap(i: int, n: int) returns (a: int, ghost bits: set<int>)
      requires Sound(l, Now()) && 0 <= i < |inodes| && 0 <= n < MAXFILE
      modifies this`bitmap, this`blocks, this`inodes, this`owner, this`trail
      ensures Sound(l, Now()) && |inodes| == |old(inodes)| && Grown(old(Now()), Now(), i)
      ensures a == Addr(Now(), i, n) && (a == 0 ==> DiskFull())
      ensures Addr(old(Now()), i, n) != 0 ==> Now() == old(Now()) && trail == old(trail) && bits == {}
      ensures Covers(l, old(Now()), Now(), trail + [IBlock(l, i)])
      ensures Elems(trail) <= old(Elems(trail)) + bits + Nz(a) + Nz(inodes[i].addrs[NDIRECT]) && old(trail) <= trail
      ensures |bits| <= (if Addr(old(Now()), i, n) == 0 && a != 0 then 1 else 0) +
                        (if old(inodes)[i].addrs[NDIRECT] == 0 && inodes[i].addrs[NDIRECT] != 0 then 1 else 0)
    {
      hide GetWord;
      hide Written;
      hide Sound;
      hide Elems;
      ghost var s0 := Now();
      SoundIsShaped(l, s0);
      if n < NDIRECT {
        a, bits := LoadSlot(i, n);
        return;
      }
      a, bits := LoadSlot(i, NDIRECT);
      ghost var s1, first, t1 := Now(), bits, trail;
      SoundIsShaped(l, s1);
      if a == 0 {
        return;
      }
      a, bits := LoadSlot(i, n + 1);
      SoundIsShaped(l, Now());
      assert inodes[i].addrs[NDIRECT] == Ref(Now(), i, NDIRECT) == Ref(s1, i, NDIRECT) == s1.inodes[i].addrs[NDIRECT];
      bits := first + bits;
      WrittenThenGrown(s0, s1, Now(), i, 0, []);
      InLonger(t1, trail);
      CoversTrans(l, s0, s1, Now(), t1 + [IBlock(l, i)], trail + [IBlock(l, i)], trail + [IBlock(l, i)]);
    }

    // What the file system keeps between operations.
    ghost predicate Valid()
      reads this
    {
      Sound(l, Now()) && Mapped(Now())
    }

    ghost function File(i: int): seq<int>
      requires Valid() && 0 <= i < |inodes|
      reads this
    {
      assert MappedTo(Now(), i, inodes[i].size);
      Content(Now(), i)
    }

    // The overflow test on unsigned off + n.
    lemma WrapTest(off: nat, n: nat)
      requires off < UINT && n < UINT
      ensures (off + n) % UINT < off <==> off + n >= UINT
    {
    }

    // One pass of the loop of readi: at most a block's worth from o on.
    method ReadChunk(i: int, o: int, left: int) returns (chunk: seq<int>)
      requires Valid() && 0 <= i < |inodes| && 0 <= o && 0 < left && o + left <= inodes[i].size
      modifies this`bitmap, this`blocks, this`inodes, this`owner, this`trail
      ensures Now() == old(Now()) && trail == old(trail)
      ensures 0 < |chunk| == ChunkLen(o, left) <= left && chunk == File(i)[o..o + |chunk|]
    {
      hide Ref;
      hide Sound;
      hide Written;
      hide Content;
      SoundIsShaped(l, Now());
      assert MappedTo(Now(), i, inodes[i].size);
      ByteBelow(inodes[i].size, o);
      var a, bits := Bmap(i, o / BSIZE);
      RefInRange(l, Now(), i, o / BSIZE);
      var k := ChunkLen(o, left);
      chunk := blocks[a].bytes[o % BSIZE..o % BSIZE + k];
      ChunkIsContent(Now(), i, o, k);
    }

    /**
      Read up to n bytes of file i from off, as one slice, block by block; nothing is allocated or
      logged.  `copies` is how many copies to user memory succeed: the read fails exactly when it
      needs more, and has then delivered a prefix.
     */
    method Readi(i: int, off: nat, n: nat, copies: nat) returns (ret: int, data: seq<int>)
      requires Valid() && 0 <= i < |inodes| && off < UINT && n < UINT
      modifies this`bitmap, this`blocks, this`inodes, this`owner, this`trail
      ensures Now() == old(Now()) && trail == old(trail)
      ensures off > inodes[i].size || off + n >= UINT ==> ret == 0 && data == []
      ensures off <= inodes[i].size && off + n < UINT ==>
        var m := if off + n > inodes[i].size then inodes[i].size - off else n;
        && (ret == -1 <==> m > 0 && copies < Touched(off, m))
        && (ret != -1 ==> ret == m && data == File(i)[off..off + m])
        && (ret == -1 ==> |data| < m && data == File(i)[off..off + |data|])
    {
      hide Sound;
      hide Mapped;
      hide Content;
      hide Visited;
      hide ChunkLen;
      hide Touched;
      SoundIsShaped(l, Now());
      FileSize(i);
      WrapTest(off, n);
      ret, data := 0, [];
      if off > inodes[i].size || (off + n) % UINT < off {
        return;
      }
      var m := if off + n > inodes[i].size then inodes[i].size - off else n;
      ghost var s, file := Now(), Content(Now(), i);
      var tot, done := 0, 0;
      VisitNone(off, m);
      while tot < m
        invariant 0 <= tot <= m && Now() == s && trail == old(trail) && 0 <= done <= copies
        invariant data == file[off..off + tot] && Visited(off, m, tot, done)
      {
        VisitsLeft(off, m, tot, done);
        var chunk := ReadChunk(i, off + tot, m - tot);
        if done == copies {
          return -1, data;
        }
        VisitStep(off, m, tot, done, |chunk|);
        data := data + chunk;
        tot, done := tot + |chunk|, done + 1;
      }
      if m > 0 { VisitsLeft(off, m, tot, done); }
      ret := tot;
    }

    lemma FileSize(i: int)
      requires Valid() && 0 <= i < |inodes|
      ensures |File(i)| == inodes[i].size && 0 <= inodes[i].size <= MAXFILE * BSIZE
    {
      assert MappedTo(Now(), i, inodes[i].size);
    }

    lemma RefInRange(l: Layout, s: State, i: int, n: int)
      requires Sound(l, s) && 0 <= i < |s.inodes| && 0 <= n < MAXFILE && Addr(s, i, n) != 0
      ensures 0 < Addr(s, i, n) < |s.blocks|
    {
      assert SlotOk(l, s, i, DataSlot(n));
    }

    // A stretch of a data block is the stretch of the file it stands for.
    lemma ChunkIsContent(s: State, i: int, o: int, k: int)
      requires Shaped(s) && 0 <= i < |s.inodes| && 0 <= o && 0 < k && o + k <= s.inodes[i].size <= MAXFILE * BSIZE
      requires o % BSIZE + k <= BSIZE && 0 <= Addr(s, i, o / BSIZE) < |s.blocks|
      ensures s.blocks[Addr(s, i, o / BSIZE)].bytes[o % BSIZE..o % BSIZE + k] == Content(s, i)[o..o + k]
    {
      hide Ref;
      forall p | o <= p < o + k ensures p / BSIZE == o / BSIZE && p % BSIZE == o % BSIZE + (p - o) {
        SameBlock(o, k, p);
      }
    }

    // One pass of the loop of writei.  `reach` is how many bytes of src can be read: a copy that
    // needs more leaves what it could read in the block, and the block is not logged.
    method WriteChunk(i: int, off: int, src: seq<int>, reach: nat, tot: int, ghost s0: State)
      returns (a: int, k: int, ok: bool, ghost bits: set<int>)
      requires Sound(l, Now()) && 0 <= i < |inodes| == |s0.inodes| && 0 <= off && off + |src| <= MAXFILE * BSIZE && 0 <= tot < |src|
      requires Written(s0, Now(), i, off, src[..tot]) && tot <= reach
      modifies this`bitmap, this`blocks, this`inodes, this`owner, this`trail
      ensures Sound(l, Now()) && |inodes| == |old(inodes)| && 0 <= k <= |src| - tot
      ensures old(inodes)[i].addrs[NDIRECT] != 0 ==> inodes[i].addrs[NDIRECT] == old(inodes)[i].addrs[NDIRECT]
      ensures a == 0 ==> k == 0 && !ok && DiskFull() && Written(s0, Now(), i, off, src[..tot])
      ensures a == 0 ==> Addr(old(Now()), i, (off + tot) / BSIZE) == 0
      ensures Covers(l, old(Now()), Now(), trail + [IBlock(l, i)] + if ok || a == 0 then [] else [a])
      ensures a != 0 ==> k == ChunkLen(off + tot, |src| - tot) && (ok <==> tot + k <= reach)
      ensures a != 0 && ok ==> Written(s0, Now(), i, off, src[..tot + k])
      ensures a != 0 && !ok ==> reach <= |src| && Written(s0, Now(), i, off, src[..reach])
      ensures Elems(trail) <= old(Elems(trail)) + bits + Nz(a) + Nz(inodes[i].addrs[NDIRECT]) && old(trail) <= trail
      ensures |bits| <= (if Addr(old(Now()), i, (off + tot) / BSIZE) == 0 && a != 0 then 1 else 0) +
                        (if old(inodes)[i].addrs[NDIRECT] == 0 && inodes[i].addrs[NDIRECT] != 0 then 1 else 0)
    {
      hide Ref;
      hide Sound;
      hide Written;
      hide Elems;
      SoundIsShaped(l, Now());
      ghost var s1 := Now();
      var o := off + tot;
      a, bits := Bmap(i, o / BSIZE);
      ghost var s2 := Now();
      SoundIsShaped(l, s2);
      WrittenThenGrown(s0, s1, s2, i, off, src[..tot]);
      IndirectStays(s1, s2, i, 0, []);
      k, ok := 0, false;
      if a == 0 {
        return;
      }
      k := ChunkLen(o, |src| - tot);
      ok := tot + k <= reach;
      CopyIn(i, off, src, tot, if ok then k else reach - tot, a, s0);
      ghost var t1 := trail;
      if ok {
        ElemsMore(trail, a);
        trail := trail + [a];
      }
      CoversTrans(l, s1, s2, Now(), t1 + [IBlock(l, i)], [a], trail + [IBlock(l, i)] + if ok then [] else [a]);
    }

    // either_copyin of m bytes of src into the block of file position off + tot.
    method CopyIn(i: int, off: int, src: seq<int>, tot: int, m: int, a: int, ghost s0: State)
      requires Sound(l, Now()) && 0 <= i < |inodes| == |s0.inodes| && 0 <= off && off + |src| <= MAXFILE * BSIZE && 0 <= tot < |src|
      requires 0 <= m <= ChunkLen(off + tot, |src| - tot) && a != 0 && a == Addr(Now(), i, (off + tot) / BSIZE)
      requires Written(s0, Now(), i, off, src[..tot])
      modifies this`blocks
      ensures Sound(l, Now()) && Written(s0, Now(), i, off, src[..tot + m])
      ensures Covers(l, old(Now()), Now(), [a])
    {
      hide Ref;
      hide Sound;
      hide Written;
      var o := off + tot;
      SoundIsShaped(l, Now());
      RefInRange(l, Now(), i, o / BSIZE);
      if m == 0 { return; }
      var chunk := src[tot..tot + m];
      assert src[..tot] + chunk == src[..tot + m];
      PutSound(l, Now(), i, o / BSIZE, o % BSIZE, chunk);
      WrittenThenPut(l, s0, Now(), i, off, src[..tot], chunk);
      ghost var s2 := Now();
      var bytes := blocks[a].bytes;
      blocks := blocks[a := Block(bytes[..o % BSIZE] + chunk + bytes[o % BSIZE + m..])];
      assert Now() == PutBytes(s2, a, o % BSIZE, chunk);
    }

    // Where writei stops: at the end of what it can read, or for want of a block.
    ghost predicate Stops(s0: State, i: int, off: int, n: int, reach: nat, tot: int, w: int)
      reads this
      requires Shaped(s0) && 0 <= i < |s0.inodes|
    {
      || (tot == Counts(off, n, reach) && w == Min(reach, n))
      || (w == tot < n && tot <= reach && DiskFull() && 0 <= off + tot < MAXFILE * BSIZE && Addr(s0, i, (off + tot) / BSIZE) == 0)
    }

    // The loop of writei, with its log account; w is how many bytes have reached a block, and
    // the last of them may have changed a block that is not logged.
    method WriteLoop(i: int, off: int, src: seq<int>, reach: nat) returns (tot: int, ghost w: int, ghost spill: seq<int>)
      requires Valid() && 0 <= i < |inodes| && 0 <= off <= inodes[i].size && off + |src| <= MAXFILE * BSIZE
      modifies this`bitmap, this`blocks, this`inodes, this`owner, this`trail
      ensures Sound(l, Now()) && |inodes| == |old(inodes)| && 0 <= tot <= w <= |src| && Shaped(old(Now()))
      ensures Written(old(Now()), Now(), i, off, src[..w]) && Stops(old(Now()), i, off, |src|, reach, tot, w)
      ensures old(trail) <= trail && |Elems(trail)| < |old(Elems(trail))| + LogBound(off, |src|)
      ensures Covers(l, old(Now()), Now(), trail + [IBlock(l, i)] + spill) && |spill| <= 1 && (spill != [] ==> tot < |src|)
      ensures reach >= |src| ==> spill == []
    {
      hide Ref;
      hide Sound;
      hide Written;
      hide Accounted;
      hide LogBound;
      hide MappedTo;
      hide ChunkLen;
      hide Nz;
      hide Elems;
      hide Counts;
      hide Covers;
      ghost var s0 := Now();
      SoundIsShaped(l, s0);
      ghost var ind0 := inodes[i].addrs[NDIRECT];
      assert MappedTo(s0, i, inodes[i].size);
      tot, w, spill := 0, 0, [];
      ghost var bits, visits, seen := 0, 0, 0;
      assert src[..0] == [];
      WrittenNothing(s0, i, off);
      CoversNothing(l, s0, trail + [IBlock(l, i)] + spill);
      AccountStart(off, |src|, Elems(trail), ind0);
      while tot < |src|
        invariant 0 <= tot <= |src| && Sound(l, Now()) && Shaped(Now()) && |inodes| == |s0.inodes|
        invariant tot <= reach && seen == tot == w && spill == [] && (tot == 0 || tot == |src| || (off + tot) % BSIZE == 0)
        invariant Written(s0, Now(), i, off, src[..w]) && old(trail) <= trail
        invariant Covers(l, s0, Now(), trail + [IBlock(l, i)] + spill)
        invariant Accounted(off, |src|, seen, |old(Elems(trail))|, bits, visits, Elems(trail), ind0, inodes[i].addrs[NDIRECT])
      {
        ghost var s1, t1, log1 := Now(), trail, Elems(trail);
        SoundIsShaped(l, s1);
        var a, k, ok, more := WriteChunk(i, off, src, reach, tot, s0);
        SoundIsShaped(l, Now());
        InLonger(t1, trail);
        spill := if ok || a == 0 then [] else [a];
        CoversTrans(l, s0, s1, Now(), t1 + [IBlock(l, i)] + [], trail + [IBlock(l, i)] + spill, trail + [IBlock(l, i)] + spill);
        if Unaligned(off) { FirstBlockStays(s0, s1, i, off, src[..tot]); }
        VisitsZero(off, |src|, tot, |old(Elems(trail))|, bits, visits, log1, ind0, s1.inodes[i].addrs[NDIRECT]);
        AccountStep(off, |src|, tot, |old(Elems(trail))|, bits, visits, log1, ind0, s1.inodes[i].addrs[NDIRECT],
                    Elems(trail), inodes[i].addrs[NDIRECT], a, more, k);
        bits, visits, seen := bits + |more|, if a == 0 then visits else visits + 1, tot + k;
        if !ok {
          if a == 0 {
            NewBlock(s0, s1, i, off, src[..tot]);
          } else {
            CountsAt(off, |src|, reach, tot);
            w := reach;
          }
          break;
        }
        ChunkPositive(off + tot, |src| - tot);
        ChunkAligns(off + tot, |src| - tot);
        tot, w := tot + k, tot + k;
      }
      if tot == |src| { CountsAll(off, |src|, reach); }
      AccountBound(off, |src|, seen, |old(Elems(trail))|, bits, visits, Elems(trail), ind0, inodes[i].addrs[NDIRECT]);
    }

    lemma CoversNothing(l: Layout, s: State, trail: seq<int>)
      ensures Covers(l, s, s, trail)
    {
    }

    lemma CountsAll(off: int, n: int, reach: int)
      requires reach >= n
      ensures Counts(off, n, reach) == n
    {
    }

    // A block that is missing after the writes so far was missing before.
    lemma NewBlock(s0: State, s1: State, i: int, off: int, data: seq<int>)
      requires Written(s0, s1, i, off, data) && 0 <= i < |s0.inodes| && 0 <= (off + |data|) / BSIZE < MAXFILE
      requires Addr(s1, i, (off + |data|) / BSIZE) == 0
      ensures Addr(s0, i, (off + |data|) / BSIZE) == 0
    {
    }

    /**
      Write src into file i at off; `reach` is how many bytes of src can be read.  The file
      becomes one overwrite of its old contents by the w bytes that reached a block, cut to the
      tot bytes that count; no other file changes, and the blocks logged stay within the bound.
      Unless a new block is needed and the disk is full, tot is the whole chunks that can be read
      and w all that can.  Every change is in a logged block, but for the chunk that failed.
     */
    method Writei(i: int, off: nat, src: seq<int>, reach: nat) returns (tot: int, ghost w: int, ghost spill: seq<int>)
      requires Valid() && 0 <= i < |inodes| && off < UINT && |src| < UINT
      modifies this`bitmap, this`blocks, this`inodes, this`owner, this`trail
      ensures Valid() && |inodes| == |old(inodes)|
      ensures tot == -1 <==> off > old(inodes)[i].size || off + |src| > MAXFILE * BSIZE
      ensures tot == -1 ==> Now() == old(Now()) && trail == old(trail)
      ensures tot >= -1
      ensures tot >= 0 ==> tot <= w <= |src| && off <= |old(File(i))| && File(i) == Landed(old(File(i)), off, src[..w], tot)
      ensures tot >= 0 ==> Shaped(old(Now())) && Stops(old(Now()), i, off, |src|, reach, tot, w)
      ensures tot >= 0 ==> SameFiles(old(Now()), Now(), i)
      ensures old(trail) <= trail
      ensures tot >= 0 ==> old(trail) < trail && |Elems(trail[..|trail| - 1])| < |old(Elems(trail))| + LogBound(off, |src|)
      ensures Covers(l, old(Now()), Now(), trail + spill) && |spill| <= 1 && (reach >= |src| ==> spill == [])
    {
      hide Ref;
      hide Sound;
      hide Mapped;
      hide Written;
      hide Content;
      hide LogBound;
      hide SameFiles;
      hide Landed;
      hide Elems;
      hide Counts;
      FileSize(i);
      WrapTest(off, |src|);
      BoundPositive(off, |src|);
      w, spill := 0, [];
      if off > inodes[i].size || (off + |src|) % UINT < off {
        return -1, w, spill;
      }
      if off + |src| > MAXFILE * BSIZE {
        return -1, w, spill;
      }
      tot, w, spill := WriteLoop(i, off, src, reach);
      ghost var s1 := Now();
      WriteIsOverwrite(l, old(Now()), s1, i, off, src[..w], tot);
      IndirectStays(old(Now()), s1, i, off, src[..w]);
      if off + tot > inodes[i].size {
        inodes := inodes[i := inodes[i].(size := off + tot)];
      }
      assert Now() == Resize(s1, i, NewSize(s1.inodes[i].size, off, tot));
      ghost var before := trail;
      trail := trail + [IBlock(l, i)]; // iupdate
      assert trail[..|trail| - 1] == before;
      CoversTrans(l, old(Now()), s1, Now(), before + [IBlock(l, i)] + spill, [IBlock(l, i)], trail + spill);
    }

    /** The input: two bytes for the start of a file, of which the second cannot be read.  writei reports 0 and has changed the file. */
    method SpillOne(i: int, x: int) returns (tot: int)
      requires Valid() && 0 <= i < |inodes| && |File(i)| > 0 && File(i)[0] != x
      modifies this`bitmap, this`blocks, this`inodes, this`owner, this`trail
      ensures Valid() && tot == 0 && |inodes| == |old(inodes)| && File(i) == old(File(i))[0 := x] != old(File(i))
    {
      hide Sound;
      hide Content;
      hide SameFiles;
      hide Elems;
      FileSize(i);
      SoundIsShaped(l, Now());
      ghost var c := File(i);
      assert MappedTo(Now(), i, inodes[i].size) && Addr(Now(), i, 0) != 0;
      ghost var w, spill;
      tot, w, spill := Writei(i, 0, [x, x], 1);
      assert tot == 0 && w == 1 && [x, x][..1] == [x];
      assert Landed(c, 0, [x], 0) == c[0 := x];
      assert c[0 := x][0] != c[0];
    }

    // The direct blocks of itrunc.
    method FreeDirect(i: int) returns (ok: bool)
      requires Sound(l, Now()) && 0 <= i < |inodes|
      modifies this`bitmap, this`inodes, this`trail
      ensures ok && Shaped(old(Now())) && Freed(old(Now()), bitmap, i, NDIRECT, 0)
      ensures |inodes| == |old(inodes)| && |inodes[i].addrs| == NDIRECT + 1
      ensures forall j :: 0 <= j < |inodes| && j != i ==> inodes[j] == old(inodes)[j]
      ensures inodes[i].addrs[NDIRECT] == old(inodes)[i].addrs[NDIRECT]
      ensures forall q :: 0 <= q < NDIRECT ==> inodes[i].addrs[q] == 0
      ensures BitsLogged(l, old(bitmap), bitmap, trail)
    {
      hide Sound;
      hide Freed;
      ghost var s0 := Now();
      SoundIsShaped(l, s0);
      FreedNone(l, s0, i);
      var k := 0;
      while k < NDIRECT
        invariant 0 <= k <= NDIRECT && |inodes| == |s0.inodes| && |inodes[i].addrs| == NDIRECT + 1
        invariant Freed(s0, bitmap, i, k, 0) && BitsLogged(l, s0.bitmap, bitmap, trail)
        invariant forall j :: 0 <= j < |inodes| && j != i ==> inodes[j] == s0.inodes[j]
        invariant forall q :: 0 <= q < k ==> inodes[i].addrs[q] == 0
        invariant forall q :: k <= q <= NDIRECT ==> inodes[i].addrs[q] == s0.inodes[i].addrs[q]
      {
        FreedNext(l, s0, bitmap, i, k, 0, k, k + 1, 0);
        if inodes[i].addrs[k] != 0 {
          ok := Bfree(inodes[i].addrs[k]);
          if !ok {
            return;
          }
          inodes := inodes[i := inodes[i].(addrs := inodes[i].addrs[k := 0])];
        }
        k := k + 1;
      }
      return true;
    }

    // The blocks listed in the indirect block.
    method FreeIndirect(i: int, a: int, ghost s0: State) returns (ok: bool)
      requires Sound(l, s0) && 0 <= i < |s0.inodes| && blocks == s0.blocks
      requires a == s0.inodes[i].addrs[NDIRECT] != 0 && Shaped(s0) && Freed(s0, bitmap, i, NDIRECT, 0)
      requires BitsLogged(l, s0.bitmap, bitmap, trail)
      modifies this`bitmap, this`trail
      ensures ok && Freed(s0, bitmap, i, NDIRECT, SLOTS) && BitsLogged(l, s0.bitmap, bitmap, trail)
    {
      hide Sound;
      hide Freed;
      hide GetWord;
      SoundIsShaped(l, s0);
      IndirectOwner(l, s0, i);
      FreedSame(s0, bitmap, i);
      var j := 0;
      while j < NINDIRECT
        invariant 0 <= j <= NINDIRECT && Freed(s0, bitmap, i, NDIRECT, NDIRECT + 1 + j)
        invariant BitsLogged(l, s0.bitmap, bitmap, trail)
      {
        FreedNext(l, s0, bitmap, i, NDIRECT, NDIRECT + 1 + j, NDIRECT + 1 + j, NDIRECT, NDIRECT + 2 + j);
        var w := GetWord(blocks[a], j);
        if w != 0 {
          ok := Bfree(w);
          if !ok {
            return;
          }
        }
        j := j + 1;
      }
      return true;
    }

    lemma FreedSame(s0: State, bits: seq<bool>, i: int)
      requires Shaped(s0) && Freed(s0, bits, i, NDIRECT, 0)
      ensures Freed(s0, bits, i, NDIRECT, NDIRECT + 1)
    {
    }

    /** Discard the contents of file i: exactly its blocks become free, and no bfree panics. */
    method Itrunc(i: int) returns (ok: bool)
      requires Valid() && 0 <= i < |inodes|
      modifies this
      ensures ok && Valid() && Shaped(old(Now())) && Now() == Truncated(old(Now()), i)
      ensures File(i) == [] && SameFiles(old(Now()), Now(), i)
      ensures Covers(l, old(Now()), Now(), trail)
    {
      hide Sound;
      hide Mapped;
      hide Freed;
      hide Content;
      hide SameFiles;
      hide BBlock;
      ghost var s0 := Now();
      SoundIsShaped(l, s0);
      ok := FreeDirect(i);
      var a := inodes[i].addrs[NDIRECT];
      FreedNext(l, s0, bitmap, i, NDIRECT, 0, NDIRECT, NDIRECT + 1, 0);
      if a != 0 {
        ok := FreeIndirect(i, a, s0);
        if !ok {
          return;
        }
        FreedNext(l, s0, bitmap, i, NDIRECT, SLOTS, NDIRECT, NDIRECT + 1, SLOTS);
        ok := Bfree(a);
        if !ok {
          return;
        }
        inodes := inodes[i := inodes[i].(addrs := inodes[i].addrs[NDIRECT := 0])];
      } else {
        NoIndirect(l, s0, bitmap, i);
      }
      inodes := inodes[i := inodes[i].(size := 0)];
      trail := trail + [IBlock(l, i)]; // iupdate
      FreedAll(l, s0, bitmap, i);
      TruncatedSound(l, s0, i);
      owner := Truncated(s0, i).owner;
      assert inodes[i].addrs == Truncated(s0, i).inodes[i].addrs;
      assert inodes == Truncated(s0, i).inodes;
      assert blocks == s0.blocks && IBlock(l, i) in trail;
    }

    lemma NoIndirect(l: Layout, s0: State, bits: seq<bool>, i: int)
      requires Sound(l, s0) && 0 <= i < |s0.inodes| && s0.inodes[i].addrs[NDIRECT] == 0
      requires Freed(s0, bits, i, NDIRECT + 1, 0)
      ensures Freed(s0, bits, i, NDIRECT + 1, SLOTS)
    {
      hide GetWord;
      forall b | 0 <= b < |bits|
        ensures bits[b] <==> s0.bitmap[b] && !(OwnedBy(s0.owner[b], i) && DoneSlot(s0.owner[b].k, NDIRECT + 1, SLOTS))
      {
        assert OwnerOk(l, s0, b);
      }
    }

    // One operation of filewrite: begin_op, writei of a chunk, end_op.
    method WriteOneChunk(i: int, off: nat, chunk: seq<int>, reach: nat) returns (tot: int, ghost w: int, ghost spill: seq<int>)
      requires Valid() && 0 <= i < |inodes| && off < UINT && 0 < |chunk| <= (MAXOPBLOCKS - 1 - 1 - 2) / 2 * BSIZE
      modifies this
      ensures Valid() && |inodes| == |old(inodes)|
      ensures |past| == |old(past)| + 1 && past[..|old(past)|] == old(past) && Budgeted(past[|old(past)|])
      ensures tot == -1 <==> off > old(inodes)[i].size || off + |chunk| > MAXFILE * BSIZE
      ensures tot == -1 ==> Now() == old(Now())
      ensures tot >= -1
      ensures tot >= 0 ==> tot <= w <= |chunk| && tot <= reach && off <= |old(File(i))| && File(i) == Landed(old(File(i)), off, chunk[..w], tot)
      ensures tot >= 0 ==> Shaped(old(Now())) && Stops(old(Now()), i, off, |chunk|, reach, tot, w)
      ensures tot >= 0 ==> tot == |chunk| || (w == tot && DiskFull()) || (w == reach < |chunk| && reach < tot + BSIZE)
      ensures Covers(l, old(Now()), Now(), past[|old(past)|] + spill) && |spill| <= 1 && (reach >= |chunk| ==> spill == [])
      ensures SameFiles(old(Now()), Now(), i)
    {
      hide Sound;
      hide Mapped;
      hide Content;
      hide SameFiles;
      hide Landed;
      hide LogBound;
      hide Covers;
      CountsBound(off, |chunk|, reach);
      CountsShort(off, |chunk|, reach);
      hide Counts;
      SameFilesRefl(i);
      ChunkFits(off, |chunk|);
      trail := []; // begin_op
      assert Elems(trail) == {};
      tot, w, spill := Writei(i, off, chunk, reach);
      BudgetedByLast(trail);
      past := past + [trail]; // end_op
    }

    // Why filewrite may stop before all of src is written.
    ghost predicate Stopped(size: int, off: nat, end: int, w: int, n: int, reach: nat)
      reads this
    {
      || off > size || DiskFull() || end + 3 * BSIZE > MAXFILE * BSIZE
      || (w == reach < n && off + reach < end + BSIZE)
    }

    /**
      The inode branch of filewrite: chunk after chunk, each its own logged operation, and every
      log_write of every one of them finds unused budget.
     */
    method FileWrite(i: int, off: nat, src: seq<int>, reach: nat) returns (ret: int, end: int, ghost w: int)
      requires Valid() && 0 <= i < |inodes| && off + |src| < UINT
      modifies this
      ensures Valid() && |inodes| == |old(inodes)| && off <= end <= off + w <= off + |src|
      ensures |past| >= |old(past)| + (if src == [] then 0 else 1) && past[..|old(past)|] == old(past)
      ensures forall t :: |old(past)| <= t < |past| ==> Budgeted(past[t])
      ensures ret == if end == off + |src| then |src| else -1
      ensures off + w > off ==> off <= |old(File(i))|
      ensures off <= |old(File(i))| ==> File(i) == Landed(old(File(i)), off, src[..w], end - off)
      ensures off > |old(File(i))| ==> end == off && File(i) == old(File(i))
      ensures SameFiles(old(Now()), Now(), i)
      ensures end < off + |src| ==> Stopped(|old(File(i))|, off, end, w, |src|, reach)
    {
      hide Sound;
      hide Mapped;
      hide Content;
      hide SameFiles;
      hide Overwrite;
      hide Landed;
      hide Budgeted;
      hide Stops;
      hide Covers;
      var max := (MAXOPBLOCKS - 1 - 1 - 2) / 2 * BSIZE;
      var k := 0;
      end, w := off, 0;
      FileSize(i);
      SameFilesRefl(i);
      ghost var s0, file := Now(), File(i);
      assert src[..0] == [];
      if off <= |file| {
        OverwriteNothing(file, off);
        LandedWhole(file, off, []);
      }
      var go := true;
      while k < |src| && go
        invariant 0 <= k <= |src| && Valid() && |inodes| == |s0.inodes|
        invariant off + k <= end <= off + w <= off + |src| && (go ==> end == off + k == off + w && k <= reach)
        invariant end == off + |src| ==> k == |src|
        invariant |past| >= |old(past)| + (if k == 0 && go then 0 else 1) && past[..|old(past)|] == old(past)
        invariant forall t :: |old(past)| <= t < |past| ==> Budgeted(past[t])
        invariant SameFiles(s0, Now(), i)
        invariant w > 0 ==> off <= |file|
        invariant off <= |file| ==> File(i) == Landed(file, off, src[..w], end - off)
        invariant off > |file| ==> end == off && File(i) == file
        invariant !go ==> Stopped(|file|, off, end, w, |src|, reach)
        decreases |src| - k, go
      {
        var n1 := if |src| - k > max then max else |src| - k;
        FileSize(i);
        ghost var s1 := Now();
        var chunk := src[k..k + n1];
        if off <= |file| { LandedNext(file, off, src, k, 0, 0); }
        var r, w1, _ := WriteOneChunk(i, end, chunk, reach - k);
        SameFilesTrans(s0, s1, Now(), i);
        if r >= 0 {
          assert chunk[..w1] == src[k..k + w1];
          LandedNext(file, off, src, k, w1, r);
          end, w := end + r, k + w1;
        }
        if r != n1 {
          go := false;
        } else {
          k := k + r;
        }
      }
      ret := if k == |src| then |src| else -1;
    }

    lemma LandedNext(file: seq<int>, off: int, src: seq<int>, k: int, w: int, r: int)
      requires 0 <= off <= |file| && 0 <= k <= k + w <= |src| && 0 <= r <= w
      ensures off + k <= |Landed(file, off, src[..k], k)|
      ensures Landed(Landed(file, off, src[..k], k), off + k, src[k..k + w], r) == Landed(file, off, src[..k + w], k + r)
    {
      hide Overwrite;
      LandedWhole(file, off, src[..k]);
      LandedAfter(file, off, src[..k], src[k..k + w], r);
      assert src[..k] + src[k..k + w] == src[..k + w];
    }

    lemma SameFilesRefl(i: int)
      requires Valid() && 0 <= i < |inodes|
      ensures SameFiles(Now(), Now(), i)
    {
      hide Content;
      forall j | 0 <= j < |inodes| ensures 0 <= inodes[j].size <= MAXFILE * BSIZE {
        assert MappedTo(Now(), j, inodes[j].size);
      }
    }

    lemma OverwriteNothing(c: seq<int>, off: int)
      requires 0 <= off <= |c|
      ensures Overwrite(c, off, []) == c
    {
    }
  }
}
