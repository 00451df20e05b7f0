/**
  Disk images: every file system state that fits the layout is what some disk holds, so the reading
  of blocks as bytes, bitmap bits and inodes loses nothing, and no disk holds two.
 */
module StorageImage {
  import opened Log
  import opened Storage
  import Fs

  // ----- Bytes

  function FromBytes(bs: seq<int>): Block
    requires |bs| == Fs.BSIZE
  {
    Block(seq(BLOCKWORDS, j requires 0 <= j < BLOCKWORDS =>
      bs[4 * j] + 0x100 * bs[4 * j + 1] + 0x1_0000 * bs[4 * j + 2] + 0x100_0000 * bs[4 * j + 3]))
  }

  predicate Bytes(bs: seq<int>) {
    |bs| == Fs.BSIZE && forall i :: 0 <= i < |bs| ==> 0 <= bs[i] < 0x100
  }

  lemma Digits(a: int, b: int, c: int, d: int)
    requires 0 <= a < 0x100 && 0 <= b < 0x100 && 0 <= c < 0x100 && 0 <= d < 0x100
    ensures var w := a + 0x100 * b + 0x1_0000 * c + 0x100_0000 * d;
      && 0 <= w < 0x1_0000_0000 && w % 0x100 == a && w / 0x100 % 0x100 == b && w / 0x1_0000 % 0x100 == c && w / 0x100_0000 == d
  {
    var w := a + 0x100 * b + 0x1_0000 * c + 0x100_0000 * d;
    assert w / 0x100 == b + 0x100 * c + 0x1_0000 * d;
    assert w / 0x1_0000 == c + 0x100 * d;
  }

  lemma ByteOfWord(bs: seq<int>, k: int)
    requires Bytes(bs) && 0 <= k < BLOCKWORDS
    ensures var b := FromBytes(bs);
      Byte(b, 4 * k) == bs[4 * k] && Byte(b, 4 * k + 1) == bs[4 * k + 1] && Byte(b, 4 * k + 2) == bs[4 * k + 2] && Byte(b, 4 * k + 3) == bs[4 * k + 3]
  {
    var b, a, c, d, e := FromBytes(bs), bs[4 * k], bs[4 * k + 1], bs[4 * k + 2], bs[4 * k + 3];
    Digits(a, c, d, e);
    assert b.words[k] == a + 0x100 * c + 0x1_0000 * d + 0x100_0000 * e;
    assert Word(b, k) == b.words[k];
    hide Word;
    BytesOfWord(b, k);
  }

  lemma FromBytesAt(bs: seq<int>, j: int)
    requires Bytes(bs) && 0 <= j < Fs.BSIZE
    ensures Byte(FromBytes(bs), j) == bs[j]
  {
    hide Byte;
    hide FromBytes;
    var k := j / 4;
    ByteOfWord(bs, k);
    assert j == 4 * k || j == 4 * k + 1 || j == 4 * k + 2 || j == 4 * k + 3;
  }

  /** Any bytes can be stored, and are read back. */
  lemma FromBytesIs(bs: seq<int>)
    requires Bytes(bs)
    ensures BytesOf(FromBytes(bs)) == Fs.Block(bs)
  {
    hide Byte;
    hide FromBytes;
    forall j | 0 <= j < Fs.BSIZE ensures Byte(FromBytes(bs), j) == bs[j] { FromBytesAt(bs, j); }
  }

  // ----- Bits

  function One(b: bool): int { if b then 1 else 0 }

  // The number with these bits, lowest first.
  function Number(bits: seq<bool>): int {
    if bits == [] then 0 else One(bits[0]) + 2 * Number(bits[1..])
  }

  function Octet(bits: seq<bool>, k: int): int
    requires |bits| == Fs.BPB && 0 <= k < Fs.BSIZE
  {
    Number(bits[8 * k..8 * k + 8])
  }

  function FromBits(bits: seq<bool>): (bs: seq<int>)
    requires |bits| == Fs.BPB
    ensures |bs| == Fs.BSIZE && forall k :: 0 <= k < Fs.BSIZE ==> bs[k] == Octet(bits, k)
  {
    seq(Fs.BSIZE, k requires 0 <= k < Fs.BSIZE => Octet(bits, k))
  }

  lemma {:induction false} NumberBits(bits: seq<bool>, i: nat)
    requires i < |bits|
    ensures Shifted(Number(bits), i) % 2 == 1 <==> bits[i]
  {
    assert Number(bits) / 2 == Number(bits[1..]);
    if i > 0 { NumberBits(bits[1..], i - 1); }
  }

  function Power(n: nat): nat { if n == 0 then 1 else 2 * Power(n - 1) }

  lemma {:induction false} NumberBound(bits: seq<bool>)
    ensures 0 <= Number(bits) < Power(|bits|)
  {
    if bits != [] { NumberBound(bits[1..]); }
  }

  lemma OctetAt(bits: seq<bool>, k: int, i: int)
    requires |bits| == Fs.BPB && 0 <= k < Fs.BSIZE && 0 <= i < 8
    ensures 0 <= Octet(bits, k) < 0x100 && (Shifted(Octet(bits, k), i) % 2 == 1 <==> bits[8 * k + i])
  {
    var octet := bits[8 * k..8 * k + 8];
    NumberBits(octet, i);
    NumberBound(octet);
    assert Power(8) == 2 * Power(7) && Power(7) == 2 * Power(6) && Power(6) == 2 * Power(5) && Power(5) == 2 * Power(4);
    assert Power(4) == 2 * Power(3) && Power(3) == 2 * Power(2) && Power(2) == 2 * Power(1) && Power(1) == 2 * Power(0);
  }

  lemma BitsAreBytes(bits: seq<bool>)
    requires |bits| == Fs.BPB
    ensures Bytes(FromBits(bits))
  {
    hide Octet;
    forall k | 0 <= k < Fs.BSIZE ensures 0 <= Octet(bits, k) < 0x100 { OctetAt(bits, k, 0); }
  }

  /** Any bits can be stored, and are read back. */
  lemma FromBitsIs(bits: seq<bool>, j: int)
    requires |bits| == Fs.BPB && 0 <= j < Fs.BPB
    ensures Bit(FromBytes(FromBits(bits)), j) == bits[j]
  {
    hide Byte;
    hide FromBytes;
    hide Octet;
    BitsAreBytes(bits);
    FromBytesAt(FromBits(bits), j / 8);
    OctetAt(bits, j / 8, j % 8);
  }

  // ----- Inodes

  predicate Word32(w: int) { 0 <= w < 0x1_0000_0000 }

  predicate GoodInode(ino: Fs.Inode) {
    Word32(ino.size) && |ino.addrs| == Fs.NDIRECT + 1 && forall q :: 0 <= q < |ino.addrs| ==> Word32(ino.addrs[q])
  }

  // Field f, in words, of the j-th inode.
  function Field(inodes: seq<Fs.Inode>, j: int, f: int): int {
    if 0 <= j < |inodes| && f == 2 then inodes[j].size
    else if 0 <= j < |inodes| && 3 <= f < 3 + |inodes[j].addrs| then inodes[j].addrs[f - 3]
    else 0
  }

  function FromInodes(inodes: seq<Fs.Inode>): (b: Block)
    ensures |b.words| == BLOCKWORDS && forall w :: 0 <= w < BLOCKWORDS ==> b.words[w] == Field(inodes, w / 16, w % 16)
  {
    Block(seq(BLOCKWORDS, w => Field(inodes, w / 16, w % 16)))
  }

  lemma FieldAt(inodes: seq<Fs.Inode>, j: int, f: int)
    requires |inodes| <= Fs.IPB && 0 <= j < |inodes| && GoodInode(inodes[j]) && 0 <= f < 16
    ensures Word(FromInodes(inodes), 16 * j + f) == Field(inodes, j, f)
  {
    var w := 16 * j + f;
    assert w / 16 == j && w % 16 == f;
    assert Word32(Field(inodes, j, f));
  }

  /** Any inodes can be stored, and are read back. */
  lemma FromInodesIs(inodes: seq<Fs.Inode>, j: int)
    requires |inodes| <= Fs.IPB && 0 <= j < |inodes| && GoodInode(inodes[j])
    ensures InodeOf(FromInodes(inodes), j) == inodes[j]
  {
    hide Word;
    hide FromInodes;
    FieldAt(inodes, j, 2);
    forall q | 0 <= q <= Fs.NDIRECT ensures Word(FromInodes(inodes), 16 * j + 3 + q) == inodes[j].addrs[q] {
      FieldAt(inodes, j, 3 + q);
      assert 16 * j + (3 + q) == 16 * j + 3 + q;
    }
  }

  // ----- The whole disk

  /** The inode blocks, the bitmap blocks and the data blocks follow one another. */
  predicate Laid(l: Fs.Layout) {
    && 0 <= l.inodestart && 0 <= l.ninodes && 0 <= l.size
    && l.inodestart + (l.ninodes + Fs.IPB - 1) / Fs.IPB <= l.bmapstart
    && l.bmapstart + (l.size + Fs.BPB - 1) / Fs.BPB <= l.datastart <= l.size
  }

  predicate Storable(l: Fs.Layout, s: Fs.State) {
    && |s.bitmap| == |s.blocks| == l.size && |s.inodes| == l.ninodes
    && (forall b :: 0 <= b < |s.blocks| ==> Bytes(s.blocks[b].bytes))
    && (forall i :: 0 <= i < |s.inodes| ==> GoodInode(s.inodes[i]))
  }

  // The bits and the inodes that block b of their region stores.
  function BitsOf(s: Fs.State, m: int): (r: seq<bool>)
    ensures |r| == Fs.BPB
    ensures forall j :: 0 <= j < Fs.BPB ==> r[j] == (0 <= m * Fs.BPB + j < |s.bitmap| && s.bitmap[m * Fs.BPB + j])
  {
    seq(Fs.BPB, j => 0 <= m * Fs.BPB + j < |s.bitmap| && s.bitmap[m * Fs.BPB + j])
  }

  function InodesOf(s: Fs.State, m: int): (r: seq<Fs.Inode>)
    requires 0 <= m
    ensures |r| <= Fs.IPB && (m * Fs.IPB < |s.inodes| ==> |r| == Min(Fs.IPB, |s.inodes| - m * Fs.IPB))
    ensures forall j :: 0 <= j < |r| ==> m * Fs.IPB + j < |s.inodes| && r[j] == s.inodes[m * Fs.IPB + j]
  {
    if m * Fs.IPB < |s.inodes| then s.inodes[m * Fs.IPB..m * Fs.IPB + Min(Fs.IPB, |s.inodes| - m * Fs.IPB)] else []
  }

  function Min(a: int, b: int): int { if a < b then a else b }

  function Image(l: Fs.Layout, s: Fs.State, b: int): Block
    requires Laid(l) && Storable(l, s) && 0 <= b < l.size
  {
    if l.datastart <= b then FromBytes(s.blocks[b].bytes)
    else if l.bmapstart <= b then FromBytes(FromBits(BitsOf(s, b - l.bmapstart)))
    else if l.inodestart <= b then FromInodes(InodesOf(s, b - l.inodestart))
    else Block(seq(BLOCKWORDS, _ => 0))
  }

  lemma BitmapStored(l: Fs.Layout, s: Fs.State, c: int)
    requires Laid(l) && Storable(l, s) && 0 <= c < l.size
    ensures var b := Fs.BBlock(l, c); l.bmapstart <= b < l.datastart && s.bitmap[c] == Bit(Image(l, s, b), c % Fs.BPB)
  {
    hide Bit;
    hide FromBytes;
    hide FromBits;
    var m := c / Fs.BPB;
    assert c == m * Fs.BPB + c % Fs.BPB;
    FromBitsIs(BitsOf(s, m), c % Fs.BPB);
  }

  lemma InodeStored(l: Fs.Layout, s: Fs.State, i: int)
    requires Laid(l) && Storable(l, s) && 0 <= i < l.ninodes
    ensures var b := Fs.IBlock(l, i); l.inodestart <= b < l.bmapstart && s.inodes[i] == InodeOf(Image(l, s, b), i % Fs.IPB)
  {
    hide InodeOf;
    hide FromInodes;
    var m := i / Fs.IPB;
    assert i == m * Fs.IPB + i % Fs.IPB;
    FromInodesIs(InodesOf(s, m), i % Fs.IPB);
  }

  /** Every state of the file system that fits the layout is what some disk holds. */
  lemma EveryStateHasADisk(l: Fs.Layout, s: Fs.State) returns (disk: Disk)
    requires Laid(l) && Storable(l, s)
    ensures |disk| == l.size && Reads(l, disk, s)
  {
    disk := seq(l.size, b requires 0 <= b < l.size => Image(l, s, b));
    forall c | 0 <= c < l.size ensures 0 <= Fs.BBlock(l, c) < |disk| { BitmapStored(l, s, c); }
    forall i | 0 <= i < l.ninodes ensures 0 <= Fs.IBlock(l, i) < |disk| { InodeStored(l, s, i); }
    forall b | 0 <= b < |disk| ensures Agrees(l, b, disk[b], s) { BlockAgrees(l, s, b); }
  }

  lemma BlockAgrees(l: Fs.Layout, s: Fs.State, b: int)
    requires Laid(l) && Storable(l, s) && 0 <= b < l.size
    ensures Agrees(l, b, Image(l, s, b), s)
  {
    hide Bit;
    hide InodeOf;
    hide BytesOf;
    hide Fs.BBlock;
    hide Fs.IBlock;
    if l.datastart <= b { FromBytesIs(s.blocks[b].bytes); }
    forall c | 0 <= c < |s.bitmap| && Fs.BBlock(l, c) == b ensures s.bitmap[c] == Bit(Image(l, s, b), c % Fs.BPB) {
      BitmapStored(l, s, c);
    }
    forall i | 0 <= i < |s.inodes| && Fs.IBlock(l, i) == b ensures s.inodes[i] == InodeOf(Image(l, s, b), i % Fs.IPB) {
      InodeStored(l, s, i);
    }
  }

  /** And no disk holds two that differ in a bit, an inode or a data block. */
  lemma OneStatePerDisk(l: Fs.Layout, disk: Disk, s: Fs.State, s': Fs.State)
    requires Reads(l, disk, s) && Reads(l, disk, s')
    ensures s.bitmap == s'.bitmap && s.inodes == s'.inodes
    ensures forall b :: 0 <= b < l.size && l.datastart <= b ==> s.blocks[b] == s'.blocks[b]
  {
    hide Bit;
    hide InodeOf;
    hide BytesOf;
    hide Fs.BBlock;
    hide Fs.IBlock;
    forall c | 0 <= c < l.size ensures s.bitmap[c] == s'.bitmap[c] {
      var b := Fs.BBlock(l, c);
      assert Agrees(l, b, disk[b], s) && Agrees(l, b, disk[b], s');
    }
    forall i | 0 <= i < l.ninodes ensures s.inodes[i] == s'.inodes[i] {
      var b := Fs.IBlock(l, i);
      assert Agrees(l, b, disk[b], s) && Agrees(l, b, disk[b], s');
    }
    forall b | 0 <= b < l.size && l.datastart <= b ensures s.blocks[b] == s'.blocks[b] {
      assert Agrees(l, b, disk[b], s) && Agrees(l, b, disk[b], s');
    }
  }
}
