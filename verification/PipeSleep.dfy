/**
  Who sleeps on a pipe: pipewrite, piperead and pipeclose of kernel/pipe.c over sleep and wakeup,
  with any number of processes.  A step is one turn of a loop under pi->lock.  Going to sleep
  while holding the lock and waking everybody on a channel are each one step, which the protocol
  of sleep and wakeup in SleepLock justifies; kkill may come at any time.
 */
module PipeSleep {
  const PIPESIZE := 512

  datatype Pc =
    | Outside
    | WriteCall(left: nat)                // in pipewrite, before acquire(&pi->lock)
    | WriteLoop(left: nat, wrote: bool)   // holds pi->lock; has written since it took it
    | WriteAsleep(left: nat)              // sleeps on &pi->nwrite
    | WriteWoken(left: nat)
    | ReadCall(left: nat)                 // in piperead, before acquire(&pi->lock)
    | ReadTest(left: nat)                 // holds pi->lock, about to test for an empty pipe
    | ReadAsleep(left: nat)               // sleeps on &pi->nread
    | ReadWoken(left: nat)
    | ReadCopy(left: nat)                 // holds pi->lock, copying

  datatype State = State(pc: seq<Pc>, killed: seq<bool>, lock: int, pending: nat, readopen: bool, writeopen: bool)

  datatype Step =
    | Write(p: nat, n: nat) | Read(p: nat, n: nat)
    | Run(p: nat)
    | CopyFails(p: nat)                   // copyin or copyout fails
    | Kill(p: nat)
    | Close(p: nat, writable: bool)

  predicate Holds(c: Pc) { c.WriteLoop? || c.ReadTest? || c.ReadCopy? }

  predicate Enabled(s: State, step: Step) {
    && |s.killed| == |s.pc| && step.p < |s.pc|
    && var c := s.pc[step.p];
    match step
    case Write(_, _) => c.Outside?
    case Read(_, _) => c.Outside?
    case Close(_, _) => c.Outside? && s.lock == -1
    case Kill(_) => true
    case CopyFails(p) =>
      || (c.WriteLoop? && c.left > 0 && s.readopen && !s.killed[p] && s.pending != PIPESIZE)
      || (c.ReadCopy? && c.left > 0 && s.pending > 0)
    case Run(_) =>
      match c
      case Outside => false
      case WriteAsleep(_) => false
      case ReadAsleep(_) => false
      case WriteCall(_) => s.lock == -1
      case WriteWoken(_) => s.lock == -1
      case ReadCall(_) => s.lock == -1
      case ReadWoken(_) => s.lock == -1
      case _ => true
  }

  // wakeup(&pi->nread) and wakeup(&pi->nwrite)
  function WakeReaders(pc: seq<Pc>): (r: seq<Pc>)
    ensures |r| == |pc| && forall q :: 0 <= q < |pc| ==> r[q] == if pc[q].ReadAsleep? then ReadWoken(pc[q].left) else pc[q]
  {
    seq(|pc|, q requires 0 <= q < |pc| => if pc[q].ReadAsleep? then ReadWoken(pc[q].left) else pc[q])
  }

  function WakeWriters(pc: seq<Pc>): (r: seq<Pc>)
    ensures |r| == |pc| && forall q :: 0 <= q < |pc| ==> r[q] == if pc[q].WriteAsleep? then WriteWoken(pc[q].left) else pc[q]
  {
    seq(|pc|, q requires 0 <= q < |pc| => if pc[q].WriteAsleep? then WriteWoken(pc[q].left) else pc[q])
  }

  // One turn of pipewrite's loop.
  function WriteTurn(s: State, p: nat): State
    requires p < |s.pc| == |s.killed| && s.pc[p].WriteLoop?
  {
    var WriteLoop(left, _) := s.pc[p];
    if left == 0 then s.(pc := WakeReaders(s.pc)[p := Outside], lock := -1)
    else if !s.readopen || s.killed[p] then s.(pc := s.pc[p := Outside], lock := -1)
    else if s.pending == PIPESIZE then s.(pc := WakeReaders(s.pc)[p := WriteAsleep(left)], lock := -1)
    else s.(pc := s.pc[p := WriteLoop(left - 1, true)], pending := s.pending + 1)
  }

  // One turn of piperead's two loops.
  function ReadTurn(s: State, p: nat): State
    requires p < |s.pc| == |s.killed|
  {
    match s.pc[p]
    case ReadTest(left) =>
      if s.pending == 0 && s.writeopen then
        if s.killed[p] then s.(pc := s.pc[p := Outside], lock := -1)
        else s.(pc := s.pc[p := ReadAsleep(left)], lock := -1)
      else s.(pc := s.pc[p := ReadCopy(left)])
    case ReadCopy(left) =>
      if left == 0 || s.pending == 0 then s.(pc := WakeWriters(s.pc)[p := Outside], lock := -1)
      else s.(pc := s.pc[p := ReadCopy(left - 1)], pending := s.pending - 1)
    case _ => s
  }

  function Apply(s: State, step: Step): State
    requires Enabled(s, step)
  {
    var p := step.p;
    match step
    case Write(_, n) => s.(pc := s.pc[p := WriteCall(n)])
    case Read(_, n) => s.(pc := s.pc[p := ReadCall(n)])
    case Close(_, writable) =>
      if writable then s.(writeopen := false, pc := WakeReaders(s.pc)) else s.(readopen := false, pc := WakeWriters(s.pc))
    case Kill(_) =>
      s.(killed := s.killed[p := true],
         pc := if s.pc[p].ReadAsleep? then s.pc[p := ReadWoken(s.pc[p].left)]
               else if s.pc[p].WriteAsleep? then s.pc[p := WriteWoken(s.pc[p].left)] else s.pc)
    case CopyFails(_) =>
      if s.pc[p].WriteLoop? then s.(pc := WakeReaders(s.pc)[p := Outside], lock := -1)
      else s.(pc := WakeWriters(s.pc)[p := Outside], lock := -1)
    case Run(_) =>
      match s.pc[p]
      case WriteCall(left) => s.(pc := s.pc[p := WriteLoop(left, false)], lock := p)
      case WriteWoken(left) => s.(pc := s.pc[p := WriteLoop(left, false)], lock := p)
      case ReadCall(left) => s.(pc := s.pc[p := ReadTest(left)], lock := p)
      case ReadWoken(left) => s.(pc := s.pc[p := ReadTest(left)], lock := p)
      case WriteLoop(_, _) => WriteTurn(s, p)
      case _ => ReadTurn(s, p)
  }

  // ----- The invariant

  ghost predicate Locked(s: State) {
    && |s.killed| == |s.pc| && -1 <= s.lock < |s.pc| && s.pending <= PIPESIZE
    && forall p :: 0 <= p < |s.pc| ==> (Holds(s.pc[p]) <==> s.lock == p)
  }

  // A writer holds the lock and has written since it took it; a reader holds it and may have read.
  predicate Writing(s: State) { 0 <= s.lock < |s.pc| && s.pc[s.lock].WriteLoop? && s.pc[s.lock].wrote }

  predicate Reading(s: State) { 0 <= s.lock < |s.pc| && s.pc[s.lock].ReadCopy? }

  // No reader sleeps on a pipe with pending bytes or a closed write end, but for a writer about to wake it.
  ghost predicate ReadersOk(s: State) {
    forall q :: 0 <= q < |s.pc| && s.pc[q].ReadAsleep? ==> s.writeopen && (s.pending == 0 || Writing(s))
  }

  // No writer sleeps on a pipe with room or a closed read end, but for a reader about to wake it.
  ghost predicate WritersOk(s: State) {
    forall q :: 0 <= q < |s.pc| && s.pc[q].WriteAsleep? ==> s.readopen && (s.pending == PIPESIZE || Reading(s))
  }

  ghost predicate Inv(s: State) { Locked(s) && ReadersOk(s) && WritersOk(s) }

  /** A writer that finds itself killed after it has written returns without waking the readers, and one sleeps. */
  ghost predicate Abandons(s: State, step: Step)
    requires Enabled(s, step)
  {
    && step.Run? && s.pc[step.p].WriteLoop? && s.pc[step.p].wrote && s.pc[step.p].left > 0
    && (!s.readopen || s.killed[step.p]) && s.pending > 0
    && exists q :: 0 <= q < |s.pc| && s.pc[q].ReadAsleep?
  }

  lemma StepLocks(s: State, step: Step)
    requires Locked(s) && Enabled(s, step)
    ensures Locked(Apply(s, step))
  {
    var s', p := Apply(s, step), step.p;
    forall q | 0 <= q < |s.pc| ensures Holds(s'.pc[q]) <==> s'.lock == q {
      assert Holds(s.pc[q]) <==> s.lock == q;
      assert Holds(s.pc[p]) <==> s.lock == p;
    }
  }

  lemma StepWriters(s: State, step: Step)
    requires Locked(s) && WritersOk(s) && Enabled(s, step)
    ensures WritersOk(Apply(s, step))
  {
    var s', p := Apply(s, step), step.p;
    forall q | 0 <= q < |s'.pc| && s'.pc[q].WriteAsleep? ensures s'.readopen && (s'.pending == PIPESIZE || Reading(s')) {
      assert q != p ==> s.pc[q].WriteAsleep?;
      assert Holds(s.pc[p]) <==> s.lock == p;
    }
  }

  lemma StepReaders(s: State, step: Step)
    requires Locked(s) && ReadersOk(s) && Enabled(s, step)
    ensures ReadersOk(Apply(s, step)) <==> !Abandons(s, step)
  {
    var s', p := Apply(s, step), step.p;
    assert Holds(s.pc[p]) <==> s.lock == p;
    if Abandons(s, step) {
      var q :| 0 <= q < |s.pc| && s.pc[q].ReadAsleep?;
      assert s'.pc[q].ReadAsleep? && s'.pending > 0 && s'.lock == -1;
    } else {
      forall q | 0 <= q < |s'.pc| && s'.pc[q].ReadAsleep? ensures s'.writeopen && (s'.pending == 0 || Writing(s')) {
        assert q != p ==> s.pc[q].ReadAsleep?;
      }
    }
  }

  /** Every step keeps the invariant if and only if it is not a killed writer walking away from a sleeping reader. */
  lemma StepExactly(s: State, step: Step)
    requires Inv(s) && Enabled(s, step)
    ensures Inv(Apply(s, step)) <==> !Abandons(s, step)
  {
    hide Locked;
    hide ReadersOk;
    hide WritersOk;
    hide Abandons;
    StepLocks(s, step);
    StepWriters(s, step);
    StepReaders(s, step);
  }

  // ----- Whole runs

  ghost predicate Legal(ss: seq<State>, steps: seq<Step>) {
    && |ss| == |steps| + 1
    && forall k :: 0 <= k < |steps| ==> Enabled(ss[k], steps[k]) && ss[k + 1] == Apply(ss[k], steps[k])
  }

  ghost predicate Init(s: State) {
    && |s.killed| == |s.pc| && s.lock == -1 && s.pending == 0 && s.readopen && s.writeopen
    && forall p :: 0 <= p < |s.pc| ==> s.pc[p].Outside?
  }

  ghost predicate NoneAbandons(ss: seq<State>, steps: seq<Step>)
    requires Legal(ss, steps)
  {
    forall k :: 0 <= k < |steps| ==> !Abandons(ss[k], steps[k])
  }

  lemma {:induction false} RunKeeps(ss: seq<State>, steps: seq<Step>, n: nat)
    requires Legal(ss, steps) && Inv(ss[0]) && n < |ss| && forall k :: 0 <= k < n ==> !Abandons(ss[k], steps[k])
    ensures Inv(ss[n])
  {
    hide Inv;
    hide Abandons;
    hide Enabled;
    hide Apply;
    if n > 0 {
      RunKeeps(ss, steps, n - 1);
      StepExactly(ss[n - 1], steps[n - 1]);
    }
  }

  /** The invariant holds throughout a run if and only if no killed writer walks away from a sleeping reader. */
  lemma RunExactly(ss: seq<State>, steps: seq<Step>)
    requires Legal(ss, steps) && Init(ss[0])
    ensures (forall k :: 0 <= k < |ss| ==> Inv(ss[k])) <==> NoneAbandons(ss, steps)
  {
    hide Inv;
    hide Abandons;
    hide Enabled;
    hide Apply;
    InitInv(ss[0]);
    if forall k :: 0 <= k < |ss| ==> Inv(ss[k]) {
      forall k | 0 <= k < |steps| ensures !Abandons(ss[k], steps[k]) {
        assert Inv(ss[k]) && Inv(ss[k + 1]);
        StepExactly(ss[k], steps[k]);
      }
    }
    if NoneAbandons(ss, steps) {
      forall k | 0 <= k < |ss| ensures Inv(ss[k]) { RunKeeps(ss, steps, k); }
    }
  }

  lemma InitInv(s: State)
    requires Init(s)
    ensures Inv(s)
  {
  }

  /**
    After any interleaving without that, when the lock is free: a sleeping reader has nothing to
    read and the write end is open; a sleeping writer has no room and the read end is open; and
    there are not sleepers on both sides.
   */
  lemma SleepersHaveReason(ss: seq<State>, steps: seq<Step>, p: nat, q: nat)
    requires Legal(ss, steps) && Init(ss[0]) && NoneAbandons(ss, steps)
    requires var s := ss[|steps|]; s.lock == -1 && p < |s.pc| && q < |s.pc|
    ensures var s := ss[|steps|];
      && (s.pc[p].ReadAsleep? ==> s.pending == 0 && s.writeopen)
      && (s.pc[q].WriteAsleep? ==> s.pending == PIPESIZE && s.readopen)
      && !(s.pc[p].ReadAsleep? && s.pc[q].WriteAsleep?)
  {
    InitInv(ss[0]);
    RunKeeps(ss, steps, |steps|);
  }

  /** While somebody is inside and awake, somebody can go on. */
  lemma NeverStuck(s: State, p: nat) returns (r: nat)
    requires Inv(s) && p < |s.pc| && !s.pc[p].Outside? && !s.pc[p].ReadAsleep? && !s.pc[p].WriteAsleep?
    ensures Enabled(s, Run(r))
  {
    r := if s.lock == -1 then p else s.lock;
    assert Holds(s.pc[r]) <==> s.lock == r;
  }

  lemma Extend(ss: seq<State>, steps: seq<Step>, step: Step) returns (ss': seq<State>, steps': seq<Step>)
    requires Legal(ss, steps) && Enabled(ss[|steps|], step)
    ensures Legal(ss', steps') && |steps'| == |steps| + 1 && ss'[0] == ss[0] && ss'[|steps'|] == Apply(ss[|steps|], step)
  {
    hide Enabled;
    hide Apply;
    ss', steps' := ss + [Apply(ss[|steps|], step)], steps + [step];
  }

  lemma ReaderSleeps() returns (ss: seq<State>, steps: seq<Step>)
    ensures Legal(ss, steps) && ss[0] == State([Outside, Outside], [false, false], -1, 0, true, true)
    ensures ss[|steps|] == State([ReadAsleep(1), Outside], [false, false], -1, 0, true, true)
  {
    hide Legal;
    ss, steps := Nothing(State([Outside, Outside], [false, false], -1, 0, true, true));
    ss, steps := Extend(ss, steps, Read(0, 1));
    ss, steps := Extend(ss, steps, Run(0));
    ss, steps := Extend(ss, steps, Run(0));
  }

  lemma Nothing(s: State) returns (ss: seq<State>, steps: seq<Step>)
    ensures Legal(ss, steps) && ss == [s] && steps == []
  {
    ss, steps := [s], [];
  }

  /** The run: process 0 sleeps on an empty pipe, process 1 writes one byte of two, is killed and returns. */
  lemma KilledWriterStrands() returns (ss: seq<State>, steps: seq<Step>)
    ensures Legal(ss, steps) && Init(ss[0]) && |ss[0].pc| == 2
    ensures ss[|steps|] == State([ReadAsleep(1), Outside], [false, true], -1, 1, true, true)
  {
    ss, steps := ReaderSleeps();
    ss, steps := Extend(ss, steps, Write(1, 2));
    ss, steps := Extend(ss, steps, Run(1));
    ss, steps := Extend(ss, steps, Run(1));
    ss, steps := Extend(ss, steps, Kill(1));
    ss, steps := Extend(ss, steps, Run(1));
  }
}
