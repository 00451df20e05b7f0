/**
  The block layer of kernel/fs.c on values: the free bitmap, inodes with direct and indirect
  block addresses, and file contents.  `Sound` says that set bits are exactly the metadata
  blocks plus the blocks that inodes refer to, each referred to from exactly one slot.
 */
module Fs {
  const BSIZE: int := 1024
  const BPB: int := 8192        // bitmap bits per block
  const IPB: int := 16          // inodes per block
  const NDIRECT: int := 12
  const NINDIRECT: int := 256
  const MAXFILE: int := 268
  const SLOTS: int := 269       // the addresses an inode can hold: 12 direct, the indirect block, 256 in it

  datatype Block = Block(bytes: seq<int>)
  datatype Inode = Inode(size: int, addrs: seq<int>)
  datatype Owner = Nobody | Slot(inum: int, k: int)

  /** Where things are on disk. */
  datatype Layout = Layout(size: int, ninodes: int, inodestart: int, bmapstart: int, datastart: int)

  datatype State = State(bitmap: seq<bool>, blocks: seq<Block>, inodes: seq<Inode>, owner: seq<Owner>)

  // The bitmap block of block b, and the inode block of inode i.
  function BBlock(l: Layout, b: int): int {
    b / BPB + l.bmapstart
  }

  function IBlock(l: Layout, i: int): int {
    i / IPB + l.inodestart
  }

  /** Whatever differs between the two states is stored in one of the blocks of the trail. */
  ghost predicate Covers(l: Layout, s0: State, s1: State, trail: seq<int>) {
    && |s1.bitmap| == |s0.bitmap| && |s1.blocks| == |s0.blocks| && |s1.inodes| == |s0.inodes|
    && (forall b :: 0 <= b < |s0.bitmap| && s1.bitmap[b] != s0.bitmap[b] ==> BBlock(l, b) in trail)
    && (forall b :: 0 <= b < |s0.blocks| && s1.blocks[b] != s0.blocks[b] ==> b in trail)
    && (forall i :: 0 <= i < |s0.inodes| && s1.inodes[i] != s0.inodes[i] ==> IBlock(l, i) in trail)
  }

  lemma CoversTrans(l: Layout, s0: State, s1: State, s2: State, t1: seq<int>, t2: seq<int>, t: seq<int>)
    requires Covers(l, s0, s1, t1) && Covers(l, s1, s2, t2)
    requires forall x :: x in t1 || x in t2 ==> x in t
    ensures Covers(l, s0, s2, t)
  {
    hide BBlock;
    hide IBlock;
  }

  // ----- Words in a block (little-endian uints)

  function GetWord(b: Block, j: int): int
    requires 0 <= j < NINDIRECT && |b.bytes| == BSIZE
  {
    b.bytes[4 * j] + 0x100 * b.bytes[4 * j + 1] + 0x1_0000 * b.bytes[4 * j + 2] + 0x100_0000 * b.bytes[4 * j + 3]
  }

  function SetWord(b: Block, j: int, w: int): (r: Block)
    requires 0 <= j < NINDIRECT && |b.bytes| == BSIZE
    ensures |r.bytes| == BSIZE
  {
    Block(b.bytes[4 * j := w % 0x100][4 * j + 1 := w / 0x100 % 0x100]
                 [4 * j + 2 := w / 0x1_0000 % 0x100][4 * j + 3 := w / 0x100_0000])
  }

  lemma WordDigits(w: int)
    requires 0 <= w < 0x1_0000_0000
    ensures w == w % 0x100 + 0x100 * (w / 0x100 % 0x100) + 0x1_0000 * (w / 0x1_0000 % 0x100) + 0x100_0000 * (w / 0x100_0000)
  {
    assert w / 0x1_0000 == w / 0x100 / 0x100;
    assert w / 0x100_0000 == w / 0x1_0000 / 0x100;
  }

  lemma GetSet(b: Block, j: int, w: int, m: int)
    requires 0 <= j < NINDIRECT && 0 <= m < NINDIRECT && |b.bytes| == BSIZE && 0 <= w < 0x1_0000_0000
    ensures GetWord(SetWord(b, j, w), m) == if m == j then w else GetWord(b, m)
  {
    WordDigits(w);
  }

  function Zero(): (b: Block)
    ensures |b.bytes| == BSIZE
    ensures forall i :: 0 <= i < BSIZE ==> b.bytes[i] == 0
  {
    Block(seq(BSIZE, _ => 0))
  }

  lemma ZeroWords(j: int)
    requires 0 <= j < NINDIRECT
    ensures GetWord(Zero(), j) == 0
  {
  }

  // ----- References

  // Slot k of inode i: a direct address, the indirect block, or an entry of the indirect block.
  function Ref(s: State, i: int, k: int): int
    requires Shaped(s) && 0 <= i < |s.inodes| && 0 <= k < SLOTS
  {
    if k <= NDIRECT then s.inodes[i].addrs[k]
    else
      var a := s.inodes[i].addrs[NDIRECT];
      if 0 < a < |s.blocks| then GetWord(s.blocks[a], k - NDIRECT - 1) else 0
  }

  // The slot of the n-th data block.
  function DataSlot(n: int): int {
    if n < NDIRECT then n else n + 1
  }

  function Addr(s: State, i: int, n: int): int
    requires Shaped(s) && 0 <= i < |s.inodes| && 0 <= n < MAXFILE
  {
    Ref(s, i, DataSlot(n))
  }

  function NBlocks(size: int): int {
    (size + BSIZE - 1) / BSIZE
  }

  // ----- Soundness

  predicate Shaped(s: State) {
    && |s.blocks| == |s.bitmap| == |s.owner| < 0x1_0000_0000
    && (forall b :: 0 <= b < |s.blocks| ==> |s.blocks[b].bytes| == BSIZE)
    && (forall i :: 0 <= i < |s.inodes| ==> |s.inodes[i].addrs| == NDIRECT + 1)
  }

  ghost predicate SlotOk(l: Layout, s: State, i: int, k: int)
    requires Shaped(s) && 0 <= i < |s.inodes| && 0 <= k < SLOTS
  {
    var b := Ref(s, i, k);
    b != 0 ==> 0 < l.datastart <= b < |s.blocks| && s.owner[b] == Slot(i, k)
  }

  ghost predicate OwnerOk(l: Layout, s: State, b: int)
    requires Shaped(s) && 0 <= b < |s.blocks|
  {
    match s.owner[b]
    case Nobody => true
    case Slot(i, k) => l.datastart <= b && 0 <= i < |s.inodes| && 0 <= k < SLOTS && Ref(s, i, k) == b
  }

  /** Exact block ownership. */
  ghost predicate Sound(l: Layout, s: State) {
    && Shaped(s) && |s.blocks| == l.size && |s.inodes| == l.ninodes && 0 < l.datastart <= l.size
    && (forall i, k :: 0 <= i < |s.inodes| && 0 <= k < SLOTS ==> SlotOk(l, s, i, k))
    && (forall b :: 0 <= b < |s.blocks| ==> OwnerOk(l, s, b))
    && (forall b :: 0 <= b < |s.blocks| ==> (s.bitmap[b] <==> b < l.datastart || !s.owner[b].Nobody?))
  }

  // Every block below the size of every file is there.
  ghost predicate Mapped(s: State)
    requires Shaped(s)
  {
    forall i {:trigger s.inodes[i]} :: 0 <= i < |s.inodes| ==> MappedTo(s, i, s.inodes[i].size)
  }

  ghost predicate MappedTo(s: State, i: int, size: int)
    requires Shaped(s) && 0 <= i < |s.inodes|
  {
    0 <= size <= MAXFILE * BSIZE && forall n :: 0 <= n < NBlocks(size) ==> Addr(s, i, n) != 0
  }

  // ----- Contents

  function ByteAt(s: State, i: int, p: int): int
    requires Shaped(s) && 0 <= i < |s.inodes| && 0 <= p < MAXFILE * BSIZE
  {
    var a := Addr(s, i, p / BSIZE);
    if 0 <= a < |s.blocks| then s.blocks[a].bytes[p % BSIZE] else 0
  }

  /** The file as one byte sequence. */
  ghost function Content(s: State, i: int): (c: seq<int>)
    requires Shaped(s) && 0 <= i < |s.inodes| && 0 <= s.inodes[i].size <= MAXFILE * BSIZE
    ensures |c| == s.inodes[i].size
  {
    seq(s.inodes[i].size, p requires 0 <= p < s.inodes[i].size => ByteAt(s, i, p))
  }

  // ----- Attaching a fresh block to an empty slot

  // balloc's block b, stored in slot k of inode i.
  ghost function Attach(s: State, i: int, k: int, b: int): State
    requires Shaped(s) && 0 <= i < |s.inodes| && 0 <= k < SLOTS && 0 <= b < |s.blocks|
    requires k > NDIRECT ==> 0 < s.inodes[i].addrs[NDIRECT] < |s.blocks|
  {
    var ino := s.inodes[i];
    var blocks := s.blocks[b := Zero()];
    if k <= NDIRECT then
      State(s.bitmap[b := true], blocks, s.inodes[i := ino.(addrs := ino.addrs[k := b])], s.owner[b := Slot(i, k)])
    else
      var a := ino.addrs[NDIRECT];
      State(s.bitmap[b := true], blocks[a := SetWord(blocks[a], k - NDIRECT - 1, b)], s.inodes, s.owner[b := Slot(i, k)])
  }

  ghost predicate CanAttach(l: Layout, s: State, i: int, k: int, b: int) {
    && Sound(l, s) && 0 <= i < |s.inodes| && 0 <= k < SLOTS && 0 <= b < |s.blocks|
    && !s.bitmap[b] && Ref(s, i, k) == 0 && (k > NDIRECT ==> s.inodes[i].addrs[NDIRECT] != 0)
  }

  // The indirect block of a sound inode.
  lemma IndirectOwner(l: Layout, s: State, i: int)
    requires Sound(l, s) && 0 <= i < |s.inodes|
    ensures var a := s.inodes[i].addrs[NDIRECT];
      a != 0 ==> 0 < l.datastart <= a < |s.blocks| && s.owner[a] == Slot(i, NDIRECT) && s.bitmap[a]
  {
    assert SlotOk(l, s, i, NDIRECT);
  }

  lemma AttachRef(l: Layout, s: State, i: int, k: int, b: int, i': int, k': int)
    requires CanAttach(l, s, i, k, b) && 0 <= i' < |s.inodes| && 0 <= k' < SLOTS
    ensures k > NDIRECT ==> 0 < s.inodes[i].addrs[NDIRECT] < |s.blocks|
    ensures Shaped(Attach(s, i, k, b))
    ensures Ref(Attach(s, i, k, b), i', k') == if i' == i && k' == k then b else Ref(s, i', k')
  {
    hide GetWord;
    hide SetWord;
    hide Zero;
    IndirectOwner(l, s, i);
    IndirectOwner(l, s, i');
    var a := s.inodes[i].addrs[NDIRECT];
    if k > NDIRECT && k' > NDIRECT { GetSet(s.blocks[a], k - NDIRECT - 1, b, k' - NDIRECT - 1); }
    if k' > NDIRECT { ZeroWords(k' - NDIRECT - 1); }
  }

  // A block that attaching writes to: the fresh one, or the inode's indirect block.
  lemma AttachTouches(l: Layout, s: State, i: int, k: int, b: int, c: int)
    requires CanAttach(l, s, i, k, b) && 0 <= c < |s.blocks|
    ensures k > NDIRECT ==> 0 < s.inodes[i].addrs[NDIRECT] < |s.blocks|
    ensures Attach(s, i, k, b).blocks[c] != s.blocks[c] ==> s.owner[c].Nobody? || s.owner[c] == Slot(i, NDIRECT)
  {
    hide SetWord;
    IndirectOwner(l, s, i);
  }

  lemma AttachSound(l: Layout, s: State, i: int, k: int, b: int)
    requires CanAttach(l, s, i, k, b)
    ensures k > NDIRECT ==> 0 < s.inodes[i].addrs[NDIRECT] < |s.blocks|
    ensures Sound(l, Attach(s, i, k, b))
  {
    hide Ref;
    AttachRef(l, s, i, k, b, i, k);
    var s' := Attach(s, i, k, b);
    forall i', k' | 0 <= i' < |s.inodes| && 0 <= k' < SLOTS ensures SlotOk(l, s', i', k') {
      AttachRef(l, s, i, k, b, i', k');
      assert SlotOk(l, s, i', k');
    }
    forall c | 0 <= c < |s.blocks| ensures OwnerOk(l, s', c) {
      assert OwnerOk(l, s, c);
      if c != b && s.owner[c].Slot? { AttachRef(l, s, i, k, b, s.owner[c].inum, s.owner[c].k); }
    }
  }

  // Attaching a block leaves every byte that was there where it was.
  lemma AttachBytes(l: Layout, s: State, i: int, k: int, b: int, i': int, p: int)
    requires CanAttach(l, s, i, k, b) && 0 <= i' < |s.inodes| && 0 <= p < MAXFILE * BSIZE
    requires Addr(s, i', p / BSIZE) != 0
    ensures k > NDIRECT ==> 0 < s.inodes[i].addrs[NDIRECT] < |s.blocks|
    ensures Shaped(Attach(s, i, k, b)) && ByteAt(Attach(s, i, k, b), i', p) == ByteAt(s, i', p)
  {
    hide Ref;
    hide SetWord;
    var q := DataSlot(p / BSIZE);
    AttachRef(l, s, i, k, b, i', q);
    assert SlotOk(l, s, i', q);
    AttachTouches(l, s, i, k, b, Ref(s, i', q));
  }

  // ----- Writing into a data block

  ghost function PutBytes(s: State, a: int, o: int, data: seq<int>): State
    requires Shaped(s) && 0 <= a < |s.blocks| && 0 <= o && o + |data| <= BSIZE
  {
    s.(blocks := s.blocks[a := Block(s.blocks[a].bytes[..o] + data + s.blocks[a].bytes[o + |data|..])])
  }

  lemma PutRef(l: Layout, s: State, i: int, n: int, o: int, data: seq<int>, i': int, k': int)
    requires Sound(l, s) && 0 <= i < |s.inodes| && 0 <= n < MAXFILE && 0 <= o && o + |data| <= BSIZE
    requires Addr(s, i, n) != 0 && 0 <= i' < |s.inodes| && 0 <= k' < SLOTS
    ensures 0 <= Addr(s, i, n) < |s.blocks|
    ensures Shaped(PutBytes(s, Addr(s, i, n), o, data))
    ensures Ref(PutBytes(s, Addr(s, i, n), o, data), i', k') == Ref(s, i', k')
  {
    hide GetWord;
    assert SlotOk(l, s, i, DataSlot(n));
    IndirectOwner(l, s, i');
  }

  lemma PutSound(l: Layout, s: State, i: int, n: int, o: int, data: seq<int>)
    requires Sound(l, s) && 0 <= i < |s.inodes| && 0 <= n < MAXFILE && 0 <= o && o + |data| <= BSIZE
    requires Addr(s, i, n) != 0
    ensures 0 <= Addr(s, i, n) < |s.blocks|
    ensures Sound(l, PutBytes(s, Addr(s, i, n), o, data))
  {
    hide Ref;
    PutRef(l, s, i, n, o, data, i, 0);
    var s' := PutBytes(s, Addr(s, i, n), o, data);
    forall i', k' | 0 <= i' < |s.inodes| && 0 <= k' < SLOTS ensures SlotOk(l, s', i', k') {
      PutRef(l, s, i, n, o, data, i', k');
      assert SlotOk(l, s, i', k');
    }
    forall c | 0 <= c < |s.blocks| ensures OwnerOk(l, s', c) {
      assert OwnerOk(l, s, c);
      if s.owner[c].Slot? { PutRef(l, s, i, n, o, data, s.owner[c].inum, s.owner[c].k); }
    }
  }

  // The one effect on files: bytes o.. of block n of file i are the new ones.
  lemma PutByteAt(l: Layout, s: State, i: int, n: int, o: int, data: seq<int>, i': int, p: int)
    requires Sound(l, s) && 0 <= i < |s.inodes| && 0 <= n < MAXFILE && 0 <= o && o + |data| <= BSIZE
    requires Addr(s, i, n) != 0 && 0 <= i' < |s.inodes| && 0 <= p < MAXFILE * BSIZE
    ensures 0 <= Addr(s, i, n) < |s.blocks|
    ensures var s' := PutBytes(s, Addr(s, i, n), o, data);
      && Shaped(s')
      && ByteAt(s', i', p) ==
         if i' == i && n * BSIZE + o <= p < n * BSIZE + o + |data| then data[p - n * BSIZE - o] else ByteAt(s, i', p)
  {
    hide Ref;
    PutRef(l, s, i, n, o, data, i', DataSlot(p / BSIZE));
    assert SlotOk(l, s, i, DataSlot(n));
    assert SlotOk(l, s, i', DataSlot(p / BSIZE));
    assert p == p / BSIZE * BSIZE + p % BSIZE;
  }

  // ----- How files compare before and after

  // File i has got the bytes `data` at off; blocks that were there stay, and no other byte of
  // any block that was there changed.
  ghost predicate Written(s0: State, s1: State, i: int, off: int, data: seq<int>) {
    && Shaped(s0) && Shaped(s1) && |s1.inodes| == |s0.inodes| && |s1.blocks| == |s0.blocks|
    && 0 <= off && off + |data| <= MAXFILE * BSIZE
    && (forall j :: 0 <= j < |s0.inodes| ==> s1.inodes[j].size == s0.inodes[j].size)
    && (forall j, k :: 0 <= j < |s0.inodes| && 0 <= k < SLOTS && (Ref(s0, j, k) != 0 || j != i) ==> Ref(s1, j, k) == Ref(s0, j, k))
    && (forall j, p ::
          0 <= j < |s0.inodes| && 0 <= p < MAXFILE * BSIZE && Addr(s0, j, p / BSIZE) != 0 && !(j == i && off <= p < off + |data|)
          ==> ByteAt(s1, j, p) == ByteAt(s0, j, p))
    && (forall p :: off <= p < off + |data| && 0 <= i < |s0.inodes| ==>
          ByteAt(s1, i, p) == data[p - off] && Addr(s1, i, p / BSIZE) != 0)
  }

  // Only fresh blocks were attached.
  ghost predicate Grown(s0: State, s1: State, i: int) {
    Written(s0, s1, i, 0, [])
  }

  lemma GrownByAttach(l: Layout, s: State, i: int, k: int, b: int)
    requires CanAttach(l, s, i, k, b)
    ensures k > NDIRECT ==> 0 < s.inodes[i].addrs[NDIRECT] < |s.blocks|
    ensures Grown(s, Attach(s, i, k, b), i)
  {
    hide Ref;
    hide SetWord;
    hide ByteAt;
    AttachRef(l, s, i, k, b, i, k);
    var s' := Attach(s, i, k, b);
    forall j, k' | 0 <= j < |s.inodes| && 0 <= k' < SLOTS && (Ref(s, j, k') != 0 || j != i) ensures Ref(s', j, k') == Ref(s, j, k') {
      AttachRef(l, s, i, k, b, j, k');
    }
    forall j, p | 0 <= j < |s.inodes| && 0 <= p < MAXFILE * BSIZE && Addr(s, j, p / BSIZE) != 0
      ensures ByteAt(s', j, p) == ByteAt(s, j, p)
    {
      AttachBytes(l, s, i, k, b, j, p);
    }
  }

  lemma GrownRefl(s: State, i: int)
    requires Shaped(s)
    ensures Grown(s, s, i)
  {
  }

  // A block that was there stays, so the first, unaligned block of a write is never new.
  lemma FirstBlockStays(s0: State, s1: State, i: int, off: int, data: seq<int>)
    requires Written(s0, s1, i, off, data) && 0 <= i < |s0.inodes| && off % BSIZE != 0
    requires MappedTo(s0, i, s0.inodes[i].size) && off <= s0.inodes[i].size
    ensures Addr(s1, i, off / BSIZE) != 0
  {
    hide Ref;
    hide ByteAt;
    assert off / BSIZE < NBlocks(s0.inodes[i].size);
    assert Addr(s0, i, off / BSIZE) != 0;
  }

  lemma IndirectStays(s0: State, s1: State, i: int, off: int, data: seq<int>)
    requires Written(s0, s1, i, off, data) && 0 <= i < |s0.inodes|
    ensures s0.inodes[i].addrs[NDIRECT] != 0 ==> s1.inodes[i].addrs[NDIRECT] == s0.inodes[i].addrs[NDIRECT]
    ensures s1.inodes[i].size == s0.inodes[i].size
  {
    assert Ref(s0, i, NDIRECT) == s0.inodes[i].addrs[NDIRECT];
    assert Ref(s1, i, NDIRECT) == s1.inodes[i].addrs[NDIRECT];
  }

  lemma WrittenNothing(s: State, i: int, off: int)
    requires Shaped(s) && 0 <= off <= MAXFILE * BSIZE
    ensures Written(s, s, i, off, [])
  {
  }

  lemma WrittenThenGrown(s0: State, s1: State, s2: State, i: int, off: int, data: seq<int>)
    requires Written(s0, s1, i, off, data) && Grown(s1, s2, i) && 0 <= i < |s0.inodes|
    ensures Written(s0, s2, i, off, data)
  {
    hide Ref;
    hide ByteAt;
    forall j, p | 0 <= j < |s0.inodes| && 0 <= p < MAXFILE * BSIZE && Addr(s0, j, p / BSIZE) != 0 &&
                  !(j == i && off <= p < off + |data|)
      ensures ByteAt(s2, j, p) == ByteAt(s0, j, p)
    {
      assert Addr(s1, j, p / BSIZE) != 0;
    }
    forall p | off <= p < off + |data|
      ensures ByteAt(s2, i, p) == data[p - off] && Addr(s2, i, p / BSIZE) != 0
    {
      assert Addr(s1, i, p / BSIZE) != 0;
    }
  }

  // The next chunk of a write.
  lemma WrittenThenPut(l: Layout, s0: State, s1: State, i: int, off: int, data: seq<int>, chunk: seq<int>)
    requires Written(s0, s1, i, off, data) && Sound(l, s1) && 0 <= i < |s0.inodes|
    requires off + |data| + |chunk| <= MAXFILE * BSIZE && chunk != []
    requires (off + |data|) % BSIZE + |chunk| <= BSIZE && Addr(s1, i, (off + |data|) / BSIZE) != 0
    ensures var n, o := (off + |data|) / BSIZE, (off + |data|) % BSIZE;
      && 0 <= Addr(s1, i, n) < |s1.blocks|
      && Written(s0, PutBytes(s1, Addr(s1, i, n), o, chunk), i, off, data + chunk)
  {
    hide Ref;
    hide ByteAt;
    var n, o := (off + |data|) / BSIZE, (off + |data|) % BSIZE;
    PutRef(l, s1, i, n, o, chunk, i, 0);
    var s2 := PutBytes(s1, Addr(s1, i, n), o, chunk);
    forall j, k | 0 <= j < |s0.inodes| && 0 <= k < SLOTS ensures Ref(s2, j, k) == Ref(s1, j, k) {
      PutRef(l, s1, i, n, o, chunk, j, k);
    }
    forall j, p | 0 <= j < |s0.inodes| && 0 <= p < MAXFILE * BSIZE && Addr(s0, j, p / BSIZE) != 0 &&
                  !(j == i && off <= p < off + |data + chunk|)
      ensures ByteAt(s2, j, p) == ByteAt(s0, j, p)
    {
      PutByteAt(l, s1, i, n, o, chunk, j, p);
    }
    forall p | off <= p < off + |data + chunk|
      ensures ByteAt(s2, i, p) == (data + chunk)[p - off] && Addr(s2, i, p / BSIZE) != 0
    {
      PutByteAt(l, s1, i, n, o, chunk, i, p);
      if p >= off + |data| { SameBlock(off + |data|, |chunk|, p); }
    }
  }

  lemma SameBlock(start: int, m: int, p: int)
    requires 0 <= start <= p < start + m && start % BSIZE + m <= BSIZE
    ensures p / BSIZE == start / BSIZE
  {
  }

  // ----- A write as one overwrite of a byte sequence

  ghost function Overwrite(c: seq<int>, off: int, data: seq<int>): seq<int>
    requires 0 <= off <= |c|
  {
    c[..off] + data + (if off + |data| < |c| then c[off + |data|..] else [])
  }

  function NewSize(size: int, off: int, n: int): int {
    if off + n > size then off + n else size
  }

  // What a write of `data` leaves when it counts only n of its bytes.
  ghost function Landed(c: seq<int>, off: int, data: seq<int>, n: int): seq<int>
    requires 0 <= off <= |c| && 0 <= n <= |data|
  {
    Overwrite(c, off, data)[..NewSize(|c|, off, n)]
  }

  lemma LandedIs(c: seq<int>, off: int, data: seq<int>, n: int)
    requires 0 <= off <= |c| && 0 <= n <= |data|
    ensures Landed(c, off, data, n) == Overwrite(c, off, data[..n]) <==>
      forall p :: off + n <= p < off + |data| && p < |c| ==> c[p] == data[p - off]
  {
    var x, y := Landed(c, off, data, n), Overwrite(c, off, data[..n]);
    assert |x| == |y| == NewSize(|c|, off, n);
    forall p | 0 <= p < |x|
      ensures x[p] == (if off <= p < off + |data| then data[p - off] else c[p])
      ensures y[p] == (if off <= p < off + n then data[p - off] else c[p])
    {
    }
    if x == y {
      forall p | off + n <= p < off + |data| && p < |c| ensures c[p] == data[p - off] { assert x[p] == y[p]; }
    }
  }

  lemma LandedWhole(c: seq<int>, off: int, data: seq<int>)
    requires 0 <= off <= |c|
    ensures Landed(c, off, data, |data|) == Overwrite(c, off, data)
  {
  }

  lemma LandedAfter(c: seq<int>, off: int, a: seq<int>, b: seq<int>, n: int)
    requires 0 <= off <= |c| && 0 <= n <= |b|
    ensures off + |a| <= |Overwrite(c, off, a)|
    ensures Landed(Overwrite(c, off, a), off + |a|, b, n) == Landed(c, off, a + b, |a| + n)
  {
    OverwriteTwice(c, off, a, b);
    assert |Overwrite(c, off, a)| == NewSize(|c|, off, |a|);
  }

  ghost function Resize(s: State, i: int, size: int): State
    requires 0 <= i < |s.inodes|
  {
    s.(inodes := s.inodes[i := s.inodes[i].(size := size)])
  }

  lemma ResizeRefs(l: Layout, s: State, i: int, size: int)
    requires Sound(l, s) && 0 <= i < |s.inodes|
    ensures Sound(l, Resize(s, i, size))
    ensures forall j, k :: 0 <= j < |s.inodes| && 0 <= k < SLOTS ==> Ref(Resize(s, i, size), j, k) == Ref(s, j, k)
  {
    hide GetWord;
    var s' := Resize(s, i, size);
    forall j, k | 0 <= j < |s.inodes| && 0 <= k < SLOTS ensures Ref(s', j, k) == Ref(s, j, k) && SlotOk(l, s', j, k) {
      assert SlotOk(l, s, j, k);
    }
    forall c | 0 <= c < |s.blocks| ensures OwnerOk(l, s', c) {
      assert OwnerOk(l, s, c);
    }
  }

  // Every file but i has the contents it had.
  ghost predicate SameFiles(s0: State, s1: State, i: int) {
    && Shaped(s0) && Shaped(s1) && |s1.inodes| == |s0.inodes|
    && forall j {:trigger s0.inodes[j]} {:trigger s1.inodes[j]} :: 0 <= j < |s0.inodes| && j != i ==>
         && 0 <= s0.inodes[j].size == s1.inodes[j].size <= MAXFILE * BSIZE
         && Content(s1, j) == Content(s0, j)
  }

  lemma WriteIsOverwrite(l: Layout, s0: State, s1: State, i: int, off: int, data: seq<int>, m: int)
    requires Sound(l, s0) && Mapped(s0) && Sound(l, s1) && Written(s0, s1, i, off, data) && 0 <= i < |s0.inodes|
    requires off <= s0.inodes[i].size && 0 <= m <= |data|
    ensures var s2 := Resize(s1, i, NewSize(s0.inodes[i].size, off, m));
      && Sound(l, s2) && Mapped(s2)
      && Content(s2, i) == Landed(Content(s0, i), off, data, m)
      && SameFiles(s0, s2, i)
  {
    hide Ref;
    hide ByteAt;
    hide Sound;
    var size := NewSize(s0.inodes[i].size, off, m);
    var s2 := Resize(s1, i, size);
    ResizeRefs(l, s1, i, size);
    SoundIsShaped(l, s2);
    forall j, p | 0 <= j < |s0.inodes| && 0 <= p < MAXFILE * BSIZE ensures ByteAt(s2, j, p) == ByteAt(s1, j, p) {
      SameRefSameByte(s1, s2, j, p);
    }
    forall j | 0 <= j < |s0.inodes| ensures MappedTo(s2, j, s2.inodes[j].size) {
      assert MappedTo(s0, j, s0.inodes[j].size);
      if j == i {
        forall n | 0 <= n < NBlocks(size) ensures Addr(s2, i, n) != 0 {
          if n < NBlocks(s0.inodes[i].size) {
            assert Addr(s0, i, n) != 0;
          } else {
            BlockWritten(s0.inodes[i].size, off, m, n);
            assert ByteAt(s1, i, n * BSIZE) == data[n * BSIZE - off];
          }
        }
      } else {
        assert forall n :: 0 <= n < NBlocks(s0.inodes[j].size) ==> Addr(s2, j, n) == Addr(s0, j, n);
      }
    }
    assert MappedTo(s0, i, s0.inodes[i].size);
    forall j | 0 <= j < |s0.inodes| && j != i ensures Content(s2, j) == Content(s0, j) {
      assert MappedTo(s0, j, s0.inodes[j].size);
      forall p | 0 <= p < s0.inodes[j].size ensures ByteAt(s2, j, p) == ByteAt(s0, j, p) {
        ByteBelow(s0.inodes[j].size, p);
      }
    }
    forall p | 0 <= p < size ensures ByteAt(s2, i, p) == Landed(Content(s0, i), off, data, m)[p] {
      if p < s0.inodes[i].size { ByteBelow(s0.inodes[i].size, p); }
    }
  }

  lemma SoundIsShaped(l: Layout, s: State)
    requires Sound(l, s)
    ensures Shaped(s)
  {
  }

  lemma SameRefSameByte(s1: State, s2: State, j: int, p: int)
    requires Shaped(s1) && Shaped(s2) && |s2.inodes| == |s1.inodes| && s2.blocks == s1.blocks
    requires 0 <= j < |s1.inodes| && 0 <= p < MAXFILE * BSIZE
    requires forall k :: 0 <= k < SLOTS ==> Ref(s2, j, k) == Ref(s1, j, k)
    ensures ByteAt(s2, j, p) == ByteAt(s1, j, p)
  {
    hide Ref;
  }

  lemma ByteBelow(size: int, p: int)
    requires 0 <= p < size
    ensures 0 <= p / BSIZE < NBlocks(size)
  {
  }

  // A block past the old end but below the new one holds a written byte.
  lemma BlockWritten(size: int, off: int, m: int, n: int)
    requires 0 <= off <= size && 0 <= n && NBlocks(size) <= n < NBlocks(off + m)
    ensures off <= n * BSIZE < off + m && n * BSIZE / BSIZE == n
  {
  }

  // ----- Truncation

  ghost predicate OwnedBy(o: Owner, i: int) {
    o.Slot? && o.inum == i
  }

  ghost function Truncated(s: State, i: int): State
    requires Shaped(s) && 0 <= i < |s.inodes|
  {
    State(
      seq(|s.bitmap|, b requires 0 <= b < |s.bitmap| => s.bitmap[b] && !OwnedBy(s.owner[b], i)),
      s.blocks,
      s.inodes[i := Inode(0, seq(NDIRECT + 1, _ => 0))],
      seq(|s.owner|, b requires 0 <= b < |s.owner| => if OwnedBy(s.owner[b], i) then Nobody else s.owner[b]))
  }

  // itrunc frees exactly what the inode owned: soundness stays, and no other file changes.
  lemma TruncatedSound(l: Layout, s: State, i: int)
    requires Sound(l, s) && Mapped(s) && 0 <= i < |s.inodes|
    ensures Sound(l, Truncated(s, i)) && Mapped(Truncated(s, i)) && Content(Truncated(s, i), i) == []
    ensures SameFiles(s, Truncated(s, i), i)
  {
    hide GetWord;
    var s' := Truncated(s, i);
    forall j, k | 0 <= j < |s.inodes| && 0 <= k < SLOTS
      ensures Ref(s', j, k) == (if j == i then 0 else Ref(s, j, k)) && SlotOk(l, s', j, k)
    {
      assert SlotOk(l, s, j, k);
    }
    forall c | 0 <= c < |s.blocks|
      ensures OwnerOk(l, s', c) && (s'.bitmap[c] <==> c < l.datastart || !s'.owner[c].Nobody?)
    {
      assert OwnerOk(l, s, c);
    }
    TruncatedFiles(s, s', i);
  }

  lemma TruncatedFiles(s: State, s': State, i: int)
    requires Shaped(s) && Mapped(s) && Shaped(s') && 0 <= i < |s.inodes| && s'.blocks == s.blocks
    requires s'.inodes == s.inodes[i := Inode(0, seq(NDIRECT + 1, _ => 0))]
    requires forall j, k :: 0 <= j < |s.inodes| && 0 <= k < SLOTS ==> Ref(s', j, k) == if j == i then 0 else Ref(s, j, k)
    ensures Mapped(s') && Content(s', i) == []
    ensures SameFiles(s, s', i)
  {
    hide Ref;
    forall j | 0 <= j < |s.inodes| ensures MappedTo(s', j, s'.inodes[j].size) {
      assert MappedTo(s, j, s.inodes[j].size);
      if j != i { assert forall n :: 0 <= n < NBlocks(s.inodes[j].size) ==> Addr(s', j, n) == Addr(s, j, n); }
    }
    forall j | 0 <= j < |s.inodes| && j != i ensures Content(s', j) == Content(s, j) {
      assert MappedTo(s, j, s.inodes[j].size);
      forall p | 0 <= p < s.inodes[j].size ensures ByteAt(s', j, p) == ByteAt(s, j, p) {
        SameRefSameByte(s, s', j, p);
      }
    }
  }

  // The bits while itrunc is under way: those of slots below lo, and of entries of the indirect
  // block below hi, are cleared.
  ghost predicate Freed(s0: State, bitmap: seq<bool>, i: int, lo: int, hi: int)
    requires Shaped(s0)
  {
    && |bitmap| == |s0.bitmap|
    && forall b :: 0 <= b < |bitmap| ==>
         (bitmap[b] <==> s0.bitmap[b] && !(OwnedBy(s0.owner[b], i) && DoneSlot(s0.owner[b].k, lo, hi)))
  }

  predicate DoneSlot(k: int, lo: int, hi: int) {
    k < lo || NDIRECT < k < hi
  }

  // Freeing the block of the next slot: its bit is still set, so bfree does not panic.
  lemma FreedNext(l: Layout, s0: State, bitmap: seq<bool>, i: int, lo: int, hi: int, k: int, lo': int, hi': int)
    requires Sound(l, s0) && 0 <= i < |s0.inodes| && 0 <= k < SLOTS && Freed(s0, bitmap, i, lo, hi) && !DoneSlot(k, lo, hi)
    requires forall q :: 0 <= q < SLOTS ==> (DoneSlot(q, lo', hi') <==> DoneSlot(q, lo, hi) || q == k)
    ensures var b := Ref(s0, i, k);
      && (b == 0 ==> Freed(s0, bitmap, i, lo', hi'))
      && (b != 0 ==> 0 <= b < |bitmap| && bitmap[b] && Freed(s0, bitmap[b := false], i, lo', hi'))
  {
    hide Ref;
    hide DoneSlot;
    var b := Ref(s0, i, k);
    assert SlotOk(l, s0, i, k);
    var bitmap' := if b == 0 then bitmap else bitmap[b := false];
    forall c | 0 <= c < |bitmap|
      ensures bitmap'[c] <==> s0.bitmap[c] && !(OwnedBy(s0.owner[c], i) && DoneSlot(s0.owner[c].k, lo', hi'))
    {
      assert OwnerOk(l, s0, c);
    }
  }

  lemma FreedAll(l: Layout, s0: State, bitmap: seq<bool>, i: int)
    requires Sound(l, s0) && 0 <= i < |s0.inodes| && Freed(s0, bitmap, i, NDIRECT + 1, SLOTS)
    ensures bitmap == Truncated(s0, i).bitmap
  {
    hide Ref;
    forall b | 0 <= b < |bitmap| ensures bitmap[b] == Truncated(s0, i).bitmap[b] {
      assert OwnerOk(l, s0, b);
    }
  }

  lemma FreedNone(l: Layout, s0: State, i: int)
    requires Sound(l, s0)
    ensures Freed(s0, s0.bitmap, i, 0, 0)
  {
    hide Ref;
    forall b | 0 <= b < |s0.bitmap| ensures !(OwnedBy(s0.owner[b], i) && DoneSlot(s0.owner[b].k, 0, 0)) {
      assert OwnerOk(l, s0, b);
    }
  }

  lemma OverwriteTwice(c: seq<int>, off: int, a: seq<int>, b: seq<int>)
    requires 0 <= off <= |c|
    ensures off + |a| <= |Overwrite(c, off, a)|
    ensures Overwrite(Overwrite(c, off, a), off + |a|, b) == Overwrite(c, off, a + b)
  {
  }

  lemma SameFilesTrans(s0: State, s1: State, s2: State, i: int)
    requires SameFiles(s0, s1, i) && SameFiles(s1, s2, i)
    ensures SameFiles(s0, s2, i)
  {
    hide Content;
    forall j | 0 <= j < |s0.inodes| && j != i
      ensures 0 <= s0.inodes[j].size == s2.inodes[j].size <= MAXFILE * BSIZE && Content(s2, j) == Content(s0, j)
    {
      assert 0 <= s0.inodes[j].size == s1.inodes[j].size && Content(s1, j) == Content(s0, j);
    }
  }
}
