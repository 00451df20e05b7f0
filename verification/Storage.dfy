/**
  The storage layers together: the log_writes of the file system inside the log's operations, and
  the file system on the disk that recovery leaves.
 */
module Storage {
  import opened Log
  import opened LogAtomicity
  import FsCode
  import Fs

  // ----- No chunk of filewrite panics in log_write

  // The blocks process p has passed to log_write since it last called begin_op.
  ghost function Since(steps: seq<Step>, p: nat): seq<int> {
    if steps == [] then []
    else
      var front, last := steps[..|steps| - 1], steps[|steps| - 1];
      match last
      case Begin(q) => if q == p then [] else Since(front, p)
      case End(q) => if q == p then [] else Since(front, p)
      case Write(q, b, _) => if q == p then Since(front, p) + [b] else Since(front, p)
      case Crash => []
      case _ => Since(front, p)
  }

  lemma {:induction false} WroteIs(start: nat, init: State, steps: seq<Step>, p: nat)
    requires Legal(start, init, steps) && p < |init.ops| && init.ops[p].NoOp?
    ensures var s := Exec(start, init, steps);
      |s.ops| == |init.ops| && (s.ops[p].InOp? ==> s.ops[p].wrote == FsCode.Elems(Since(steps, p)))
  {
    hide FsCode.Elems;
    if steps != [] {
      var front, last := steps[..|steps| - 1], steps[|steps| - 1];
      WroteIs(start, init, front, p);
      if last.Write? && last.p == p { FsCode.ElemsMore(Since(front, p), last.b); }
      if last.Begin? && last.p == p { NoElems(); }
    }
  }

  lemma NoElems()
    ensures FsCode.Elems([]) == {}
  {
  }

  // While an operation is in progress the log takes writes.
  lemma BusyIsReady(start: nat, s: State, p: nat)
    requires Good(start, s) && p < |s.ops| && s.ops[p].InOp?
    ensures s.phase.Ready?
  {
    ReserveBounds(s.ops);
  }

  /**
    Whatever the other processes do in between, and whatever the run before, an operation that
    works its way through a budgeted trail of log_writes never panics: its next log_write is
    always allowed.  Every chunk of filewrite leaves such a trail.
   */
  lemma ChunkNeverPanics(start: nat, init: State, steps: seq<Step>, p: nat, trail: seq<int>, data: Block)
    requires Good(start, init) && Legal(start, init, steps) && p < |init.ops| && init.ops[p].NoOp?
    requires var s := Exec(start, init, steps); p < |s.ops| && s.ops[p].InOp?
    requires FsCode.Budgeted(trail) && Since(steps, p) < trail
    ensures var s := Exec(start, init, steps);
      && !LogWritePanics(s)
      && (HomeBlock(start, s.disk, trail[|Since(steps, p)|]) ==> Enabled(start, s, Write(p, trail[|Since(steps, p)|], data)))
  {
    hide FsCode.Elems;
    hide Legal;
    hide Exec;
    var s, k := Exec(start, init, steps), |Since(steps, p)|;
    WroteIs(start, init, steps, p);
    ExecIsGood(start, init, steps);
    BusyIsReady(start, s, p);
    assert trail[..k] == Since(steps, p);
    assert |s.ops[p].wrote| < MAXOPBLOCKS;
    BudgetNeverPanics(start, s, p);
  }

  // ----- How blocks of the disk read as a file system

  // x shifted right by n bits.
  function Shifted(x: int, n: nat): int
    decreases n
  {
    if n == 0 then x else Shifted(x / 2, n - 1)
  }

  // The j-th 32-bit word of a block, unsigned.
  function Word(b: Block, j: int): int {
    if 0 <= j < |b.words| then b.words[j] % 0x1_0000_0000 else 0
  }

  // The j-th byte.
  function Byte(b: Block, j: int): int {
    match j % 4
    case 0 => Word(b, j / 4) % 0x100
    case 1 => Word(b, j / 4) / 0x100 % 0x100
    case 2 => Word(b, j / 4) / 0x1_0000 % 0x100
    case _ => Word(b, j / 4) / 0x100_0000
  }

  predicate Bit(b: Block, j: int) {
    Shifted(Byte(b, j / 8), j % 8) % 2 == 1
  }

  // The j-th struct dinode: eight bytes of other fields, the size and the addresses.
  function InodeOf(b: Block, j: int): Fs.Inode {
    Fs.Inode(Word(b, 16 * j + 2), seq(Fs.NDIRECT + 1, q => Word(b, 16 * j + 3 + q)))
  }

  function BytesOf(b: Block): Fs.Block {
    Fs.Block(seq(Fs.BSIZE, j => Byte(b, j)))
  }

  /** The indirect block read as bytes and as words is the same. */
  lemma WordsAgree(b: Block, j: int)
    requires 0 <= j < Fs.NINDIRECT
    ensures Fs.GetWord(BytesOf(b), j) == Word(b, j)
  {
    hide Byte;
    hide Word;
    BytesOfWord(b, j);
    Fs.WordDigits(Word(b, j));
  }

  lemma BytesOfWord(b: Block, j: int)
    requires 0 <= j
    ensures var w := Word(b, j);
      && 0 <= w < 0x1_0000_0000 && Byte(b, 4 * j) == w % 0x100 && Byte(b, 4 * j + 1) == w / 0x100 % 0x100
      && Byte(b, 4 * j + 2) == w / 0x1_0000 % 0x100 && Byte(b, 4 * j + 3) == w / 0x100_0000
  {
  }

  // What block b stores is as in state s.
  ghost predicate Agrees(l: Fs.Layout, b: int, data: Block, s: Fs.State) {
    && (l.datastart <= b && 0 <= b < |s.blocks| ==> s.blocks[b] == BytesOf(data))
    && (forall c :: 0 <= c < |s.bitmap| && Fs.BBlock(l, c) == b ==> s.bitmap[c] == Bit(data, c % Fs.BPB))
    && (forall i :: 0 <= i < |s.inodes| && Fs.IBlock(l, i) == b ==> s.inodes[i] == InodeOf(data, i % Fs.IPB))
  }

  /** The disk holds file system s. */
  ghost predicate Reads(l: Fs.Layout, disk: Disk, s: Fs.State) {
    && |s.bitmap| == |s.blocks| == l.size <= |disk| && |s.inodes| == l.ninodes
    && (forall c :: 0 <= c < l.size ==> 0 <= Fs.BBlock(l, c) < |disk|)
    && (forall i :: 0 <= i < l.ninodes ==> 0 <= Fs.IBlock(l, i) < |disk|)
    && (forall b :: 0 <= b < |disk| ==> Agrees(l, b, disk[b], s))
  }

  // A block outside the trail stores the same in both states.
  lemma UntouchedAgrees(l: Fs.Layout, s0: Fs.State, s1: Fs.State, trail: seq<int>, b: int, data: Block)
    requires Fs.Covers(l, s0, s1, trail) && b !in trail && Agrees(l, b, data, s0)
    ensures Agrees(l, b, data, s1)
  {
    hide BytesOf;
    hide Bit;
    hide InodeOf;
    hide Fs.BBlock;
    hide Fs.IBlock;
  }

  // ----- Operations of the file system in the log

  ghost predicate Whole(l: Fs.Layout, s: Fs.State) { Fs.Sound(l, s) && Fs.Mapped(s) }

  /** An operation: the file system before and after it, and its log_writes. */
  datatype FsOp = FsOp(before: Fs.State, after: Fs.State, trail: seq<int>)

  ghost predicate GoodOp(l: Fs.Layout, op: FsOp) {
    Whole(l, op.after) && Fs.Covers(l, op.before, op.after, op.trail)
  }

  datatype Activity = Idle | Busy(p: nat, op: FsOp, k: nat)   // k of its log_writes are done

  /** The file system after the last operation that ended, and as of the last commit. */
  datatype Track = Track(fs: Fs.State, saved: Fs.State, act: Activity)

  /**
    How a step of the log moves the file system on.  Operations run one at a time, each passes
    the blocks of its trail to log_write, and the last time it does so with a block, that block
    holds what the operation leaves there.
   */
  ghost predicate Follows(l: Fs.Layout, t: Track, step: Step, t': Track) {
    match step
    case Begin(p) =>
      && t.act.Idle? && t'.act.Busy? && t'.act.p == p && t'.act.k == 0 && t' == t.(act := t'.act)
      && GoodOp(l, t'.act.op) && t'.act.op.before == t.fs
    case Write(p, b, data) =>
      && t.act.Busy? && t.act.p == p && t.act.k < |t.act.op.trail| && b == t.act.op.trail[t.act.k]
      && (b !in t.act.op.trail[t.act.k + 1..] ==> Agrees(l, b, data, t.act.op.after))
      && t' == t.(act := t.act.(k := t.act.k + 1))
    case End(p) => t.act.Busy? && t.act.p == p && t.act.k == |t.act.op.trail| && t' == Track(t.act.op.after, t.saved, Idle)
    case Commit => t' == t.(saved := t.fs)
    case Crash => t' == Track(t.saved, t.saved, Idle)
    case _ => t' == t
  }

  // What callers see while an operation runs: blocks it will not log again are as it leaves them.
  ghost predicate Halfway(l: Fs.Layout, disk: Disk, op: FsOp, k: nat) {
    && k <= |op.trail| && forall b :: 0 <= b < |disk| && b !in op.trail[k..] ==> Agrees(l, b, disk[b], op.after)
  }

  ghost predicate Sized(l: Fs.Layout, disk: Disk) {
    && l.size <= |disk|
    && (forall c :: 0 <= c < l.size ==> 0 <= Fs.BBlock(l, c) < |disk|)
    && (forall i :: 0 <= i < l.ninodes ==> 0 <= Fs.IBlock(l, i) < |disk|)
  }

  ghost predicate Tracked(l: Fs.Layout, a: AtomicDisk, t: Track) {
    && Whole(l, t.fs) && Whole(l, t.saved) && |a.current| == |a.durable| && Sized(l, a.durable)
    && Reads(l, a.durable, t.saved)
    && match t.act
       case Idle => a.busy == 0 && Reads(l, a.current, t.fs)
       case Busy(p, op, k) => a.busy == 1 && GoodOp(l, op) && Halfway(l, a.current, op, k)
  }

  lemma BeginTracks(l: Fs.Layout, a: AtomicDisk, t: Track, step: Step, a': AtomicDisk, t': Track)
    requires Tracked(l, a, t) && step.Begin? && AtomicNext(a, step, a') && Follows(l, t, step, t')
    ensures Tracked(l, a', t')
  {
    hide Whole;
    hide Agrees;
    var op := t'.act.op;
    assert op.trail[0..] == op.trail;
    forall b | 0 <= b < |a.current| && b !in op.trail ensures Agrees(l, b, a.current[b], op.after) {
      UntouchedAgrees(l, op.before, op.after, op.trail, b, a.current[b]);
    }
  }

  lemma WriteTracks(l: Fs.Layout, a: AtomicDisk, t: Track, step: Step, a': AtomicDisk, t': Track)
    requires Tracked(l, a, t) && step.Write? && AtomicNext(a, step, a') && Follows(l, t, step, t')
    ensures Tracked(l, a', t')
  {
    hide Whole;
    hide Agrees;
    hide GoodOp;
    var op, k := t.act.op, t.act.k;
    forall b | 0 <= b < |a'.current| && b !in op.trail[k + 1..] ensures Agrees(l, b, a'.current[b], op.after) {
      if b != step.b {
        assert op.trail[k..] == [op.trail[k]] + op.trail[k + 1..];
        assert b !in op.trail[k..];
      }
    }
  }

  lemma EndTracks(l: Fs.Layout, a: AtomicDisk, t: Track, step: Step, a': AtomicDisk, t': Track)
    requires Tracked(l, a, t) && step.End? && AtomicNext(a, step, a') && Follows(l, t, step, t')
    ensures Tracked(l, a', t')
  {
    hide Agrees;
    hide Fs.Mapped;
    var op := t.act.op;
    assert op.trail[|op.trail|..] == [];
  }

  lemma StepTracks(l: Fs.Layout, a: AtomicDisk, t: Track, step: Step, a': AtomicDisk, t': Track)
    requires Tracked(l, a, t) && AtomicNext(a, step, a') && Follows(l, t, step, t')
    ensures Tracked(l, a', t')
  {
    match step {
      case Begin(_) => BeginTracks(l, a, t, step, a', t');
      case Write(_, _, _) => WriteTracks(l, a, t, step, a', t');
      case End(_) => EndTracks(l, a, t, step, a', t');
      case Commit => hide Whole; hide Reads;
      case Crash => hide Whole; hide Reads;
      case _ =>
    }
  }

  // A run of the log together with the file system it carries.
  ghost predicate Carries(start: nat, l: Fs.Layout, init: State, steps: seq<Step>, ts: seq<Track>)
    requires Legal(start, init, steps)
  {
    |ts| == |steps| + 1 && forall k :: 0 <= k < |steps| ==> Follows(l, ts[k], steps[k], ts[k + 1])
  }

  /**
    Crash safety of the file system.  Wherever the machine stops, inside an operation, a commit
    or a recovery, what recovery makes of the disk reads as a file system in which every block
    has exactly one owner and every file all its blocks: the one as of the last commit, which is
    the outcome of whole operations.
   */
  lemma CrashKeepsSound(start: nat, l: Fs.Layout, init: State, steps: seq<Step>, ts: seq<Track>)
    requires Good(start, init) && Legal(start, init, steps) && Carries(start, l, init, steps, ts)
    requires Tracked(l, Abstract(start, init), ts[0])
    ensures var s, t := Exec(start, init, steps), ts[|steps|];
      GoodDisk(start, s.disk) && Reads(l, Durable(start, s.disk), t.saved) && Fs.Sound(l, t.saved) && Fs.Mapped(t.saved)
  {
    hide Good;
    hide Legal;
    hide Exec;
    hide Carries;
    hide Reads;
    hide Durable;
    hide Fs.Sound;
    hide Fs.Mapped;
    RunTracks(start, l, init, steps, ts);
    GoodIsDisk(start, Exec(start, init, steps));
  }

  lemma {:induction false} RunTracks(start: nat, l: Fs.Layout, init: State, steps: seq<Step>, ts: seq<Track>)
    requires Good(start, init) && Legal(start, init, steps) && Carries(start, l, init, steps, ts)
    requires Tracked(l, Abstract(start, init), ts[0])
    ensures var s := Exec(start, init, steps); Good(start, s) && GoodDisk(start, s.disk) && Tracked(l, Abstract(start, s), ts[|steps|])
  {
    hide Good;
    hide GoodDisk;
    hide Enabled;
    hide Apply;
    hide Follows;
    hide Tracked;
    hide Abstract;
    hide AtomicNext;
    GoodIsDisk(start, init);
    if steps != [] {
      var n := |steps| - 1;
      RunTracks(start, l, init, steps[..n], ts[..n + 1]);
      var s := Exec(start, init, steps[..n]);
      StepRefines(start, s, steps[n]);
      GoodIsDisk(start, Apply(start, s, steps[n]));
      StepTracks(l, Abstract(start, s), ts[n], steps[n], Abstract(start, Apply(start, s, steps[n])), ts[n + 1]);
    }
  }

  lemma GoodIsDisk(start: nat, s: State)
    requires Good(start, s)
    ensures GoodDisk(start, s.disk)
  {
  }

  // The file system of the last commit, from its definition.
  lemma {:induction false} SavedAtCommit(l: Fs.Layout, start: nat, init: State, steps: seq<Step>, ts: seq<Track>, k: nat)
    requires Legal(start, init, steps) && Carries(start, l, init, steps, ts) && k < |steps| && steps[k].Commit?
    requires forall j :: k < j < |steps| ==> !steps[j].Commit?
    ensures ts[|steps|].saved == ts[k].fs
  {
    SavedSince(l, start, init, steps, ts, k + 1, |steps|);
    assert Follows(l, ts[k], steps[k], ts[k + 1]);
  }

  lemma {:induction false} SavedSince(l: Fs.Layout, start: nat, init: State, steps: seq<Step>, ts: seq<Track>, a: nat, b: nat)
    requires Legal(start, init, steps) && Carries(start, l, init, steps, ts) && a <= b <= |steps|
    requires forall j :: a <= j < b ==> !steps[j].Commit?
    ensures ts[b].saved == ts[a].saved
    decreases b
  {
    if a < b {
      SavedSince(l, start, init, steps, ts, a, b - 1);
      assert Follows(l, ts[b - 1], steps[b - 1], ts[b]);
    }
  }

  // ----- The code's operations are such operations

  /** A chunk of filewrite whose source can be read, as an operation for the log. */
  method ChunkOp(fs: FsCode.FileSystem, i: int, off: nat, chunk: seq<int>) returns (tot: int, ghost op: FsOp)
    requires fs.Valid() && 0 <= i < |fs.inodes| && off < FsCode.UINT && 0 < |chunk| <= (MAXOPBLOCKS - 1 - 1 - 2) / 2 * Fs.BSIZE
    modifies fs
    ensures fs.Valid() && op.before == old(fs.Now()) && op.after == fs.Now() && GoodOp(fs.l, op) && FsCode.Budgeted(op.trail)
  {
    ghost var w, spill;
    tot, w, spill := fs.WriteOneChunk(i, off, chunk, |chunk|);
    op := FsOp(old(fs.Now()), fs.Now(), fs.past[|old(fs.past)|]);
    assert op.trail + spill == op.trail;
  }

  /** itrunc as an operation for the log. */
  method TruncOp(fs: FsCode.FileSystem, i: int) returns (ok: bool, ghost op: FsOp)
    requires fs.Valid() && 0 <= i < |fs.inodes|
    modifies fs
    ensures ok && fs.Valid() && op.before == old(fs.Now()) && op.after == fs.Now() && GoodOp(fs.l, op)
  {
    ok := fs.Itrunc(i);
    op := FsOp(old(fs.Now()), fs.Now(), fs.trail);
  }
}
