/**
  What the calls on a pipe do, over whole runs: when a write or a read returns and when it sleeps,
  what wakes a sleeper, and that the bytes pending are those written and not yet read.
 */
module PipeRuns {
  import opened PipeSleep

  predicate InWrite(c: Pc) { c.WriteCall? || c.WriteLoop? || c.WriteAsleep? || c.WriteWoken? }

  predicate InRead(c: Pc) { c.ReadCall? || c.ReadTest? || c.ReadAsleep? || c.ReadWoken? || c.ReadCopy? }

  /**
    A write returns if and only if it is done, finds the read end closed or itself killed, or its
    copyin fails; it goes to sleep if and only if there is more to write and the pipe is full.
   */
  lemma WriteReturnsExactly(s: State, step: Step, p: nat)
    requires Enabled(s, step) && p < |s.pc| && InWrite(s.pc[p])
    ensures var s', c := Apply(s, step), s.pc[p];
      var turn := step == Run(p) && c.WriteLoop?;
      && |s'.pc| == |s.pc| && (InWrite(s'.pc[p]) || s'.pc[p].Outside?)
      && (s'.pc[p].Outside? <==> step == CopyFails(p) || (turn && (c.left == 0 || !s.readopen || s.killed[p])))
      && (s'.pc[p].WriteAsleep? && !c.WriteAsleep? <==>
            turn && c.left > 0 && s.readopen && !s.killed[p] && s.pending == PIPESIZE)
  {
  }

  /**
    A read returns if and only if it finds an empty pipe with an open write end and is killed, or it
    has copied all it wants or all there is, or its copyout fails; it goes to sleep if and only if
    the pipe is empty, the write end is open and it is not killed.
   */
  lemma ReadReturnsExactly(s: State, step: Step, p: nat)
    requires Enabled(s, step) && p < |s.pc| && InRead(s.pc[p])
    ensures var s', c := Apply(s, step), s.pc[p];
      var dry := step == Run(p) && c.ReadTest? && s.pending == 0 && s.writeopen;
      && |s'.pc| == |s.pc| && (InRead(s'.pc[p]) || s'.pc[p].Outside?)
      && (s'.pc[p].Outside? <==>
            || step == CopyFails(p)
            || (dry && s.killed[p])
            || (step == Run(p) && c.ReadCopy? && (c.left == 0 || s.pending == 0)))
      && (s'.pc[p].ReadAsleep? && !c.ReadAsleep? <==> dry && !s.killed[p])
  {
  }

  // p, a writer, wakes the readers: it is done, the pipe is full, or its copyin fails.
  predicate WakesReaders(s: State, step: Step)
    requires Enabled(s, step)
  {
    && s.pc[step.p].WriteLoop?
    && var left := s.pc[step.p].left;
       || step.CopyFails?
       || (step.Run? && (left == 0 || (s.readopen && !s.killed[step.p] && s.pending == PIPESIZE)))
  }

  // p, a reader, is at the end of its copy.
  predicate WakesWriters(s: State, step: Step)
    requires Enabled(s, step)
  {
    s.pc[step.p].ReadCopy? && (step.CopyFails? || (step.Run? && (s.pc[step.p].left == 0 || s.pending == 0)))
  }

  predicate WakesReader(s: State, step: Step, q: nat)
    requires Enabled(s, step)
  {
    step == Kill(q) || (step.Close? && step.writable) || WakesReaders(s, step)
  }

  predicate WakesWriter(s: State, step: Step, q: nat)
    requires Enabled(s, step)
  {
    step == Kill(q) || (step.Close? && !step.writable) || WakesWriters(s, step)
  }

  /** What wakes a process asleep on a pipe: kkill, the other side's wakeup, or the close of the other end; nothing else. */
  lemma WokenExactly(s: State, step: Step, q: nat)
    requires Enabled(s, step) && q < |s.pc|
    ensures var s', c := Apply(s, step), s.pc[q];
      && |s'.pc| == |s.pc|
      && (c.ReadAsleep? ==> s'.pc[q] == if WakesReader(s, step, q) then ReadWoken(c.left) else c)
      && (c.WriteAsleep? ==> s'.pc[q] == if WakesWriter(s, step, q) then WriteWoken(c.left) else c)
  {
  }

  // ----- The bytes

  // The step puts a byte into the pipe: a turn of a writer that goes on.
  predicate Puts(s: State, step: Step)
    requires Enabled(s, step)
  {
    var s' := Apply(s, step);
    step.Run? && s.pc[step.p].WriteLoop? && step.p < |s'.pc| && s'.pc[step.p].WriteLoop?
  }

  // The step takes one out.
  predicate Takes(s: State, step: Step)
    requires Enabled(s, step)
  {
    var s' := Apply(s, step);
    step.Run? && s.pc[step.p].ReadCopy? && step.p < |s'.pc| && s'.pc[step.p].ReadCopy?
  }

  function One(b: bool): nat { if b then 1 else 0 }

  lemma ByteStep(s: State, step: Step)
    requires Enabled(s, step)
    ensures Apply(s, step).pending == s.pending + One(Puts(s, step)) - One(Takes(s, step))
  {
  }

  // What a call still has to move goes down by one with each byte it moves, and by nothing else.
  lemma LeftStep(s: State, step: Step, p: nat)
    requires Enabled(s, step) && p < |s.pc|
    ensures var s', c := Apply(s, step), s.pc[p];
      && |s'.pc| == |s.pc|
      && (InWrite(c) && InWrite(s'.pc[p]) ==> s'.pc[p].left == c.left - One(step.p == p && Puts(s, step)))
      && (InRead(c) && InRead(s'.pc[p]) ==> s'.pc[p].left == c.left - One(step.p == p && Takes(s, step)))
  {
  }

  ghost function PutCount(ss: seq<State>, steps: seq<Step>, n: nat): nat
    requires Legal(ss, steps) && n <= |steps|
  {
    if n == 0 then 0 else PutCount(ss, steps, n - 1) + One(Puts(ss[n - 1], steps[n - 1]))
  }

  ghost function TakeCount(ss: seq<State>, steps: seq<Step>, n: nat): nat
    requires Legal(ss, steps) && n <= |steps|
  {
    if n == 0 then 0 else TakeCount(ss, steps, n - 1) + One(Takes(ss[n - 1], steps[n - 1]))
  }

  /** Conservation: at every moment of every run, the bytes pending are those written less those read. */
  lemma {:induction false} BytesConserved(ss: seq<State>, steps: seq<Step>, n: nat)
    requires Legal(ss, steps) && Init(ss[0]) && n <= |steps|
    ensures ss[n].pending == PutCount(ss, steps, n) - TakeCount(ss, steps, n)
  {
    hide Apply;
    hide Enabled;
    hide Puts;
    hide Takes;
    if n > 0 {
      BytesConserved(ss, steps, n - 1);
      ByteStep(ss[n - 1], steps[n - 1]);
    }
  }

  // The bytes that p itself has put or taken.
  ghost function OwnBytes(ss: seq<State>, steps: seq<Step>, p: nat, n: nat): nat
    requires Legal(ss, steps) && n <= |steps|
  {
    if n == 0 then 0
    else OwnBytes(ss, steps, p, n - 1) + One(steps[n - 1].p == p && (Puts(ss[n - 1], steps[n - 1]) || Takes(ss[n - 1], steps[n - 1])))
  }

  // p has been in the one call since the run began.
  ghost predicate InCall(ss: seq<State>, p: nat, n: nat, write: bool)
    requires n < |ss|
  {
    forall k :: 0 <= k <= n ==> p < |ss[k].pc| && if write then InWrite(ss[k].pc[p]) else InRead(ss[k].pc[p])
  }

  /** Within a call, the bytes it has moved and the bytes it has left make up what it was asked for. */
  lemma {:induction false} CallMoves(ss: seq<State>, steps: seq<Step>, p: nat, n: nat, write: bool)
    requires Legal(ss, steps) && n <= |steps| && InCall(ss, p, n, write)
    ensures OwnBytes(ss, steps, p, n) + ss[n].pc[p].left == ss[0].pc[p].left
  {
    hide Apply;
    hide Enabled;
    if n > 0 {
      CallMoves(ss, steps, p, n - 1, write);
      assert InCall(ss, p, n - 1, write);
      LeftStep(ss[n - 1], steps[n - 1], p);
    }
  }

  // ----- The pipe carries bytes, and the end of the stream

  // Nobody holds pi->lock, p is outside and q is another process.
  ghost predicate Ready(s: State, p: nat, q: nat) {
    Inv(s) && s.lock == -1 && p < |s.pc| && q < |s.pc| && p != q && s.pc[p].Outside?
  }

  lemma More(ss: seq<State>, steps: seq<Step>, step: Step) returns (ss': seq<State>, steps': seq<Step>)
    requires Legal(ss, steps) && Enabled(ss[|steps|], step)
    ensures Legal(ss', steps') && ss'[0] == ss[0] && ss'[|steps'|] == Apply(ss[|steps|], step) && steps' == steps + [step]
  {
    hide Enabled;
    hide Apply;
    ss', steps' := ss + [Apply(ss[|steps|], step)], steps + [step];
  }

  // p writes one byte and wakes the reader q.
  lemma WriteOne(s: State, p: nat, q: nat) returns (ss: seq<State>, steps: seq<Step>)
    requires Ready(s, p, q) && s.pc[q].ReadAsleep? && s.readopen && !s.killed[p]
    ensures Legal(ss, steps) && ss[0] == s && steps == [Write(p, 1), Run(p), Run(p), Run(p)]
    ensures var s' := ss[|steps|];
      && |s'.pc| == |s'.killed| == |s.pc| && s'.lock == -1 && s'.writeopen && s'.pending == 1
      && s'.pc[p].Outside? && s'.pc[q] == ReadWoken(s.pc[q].left)
  {
    hide Legal;
    ss, steps := Nothing(s);
    ss, steps := More(ss, steps, Write(p, 1));
    ss, steps := More(ss, steps, Run(p));
    ss, steps := More(ss, steps, Run(p));
    ss, steps := More(ss, steps, Run(p));
  }

  /** A reader asleep on the pipe gets the next byte that anybody writes, and returns with it. */
  lemma WriteFeedsReader(s: State, p: nat, q: nat) returns (ss: seq<State>, steps: seq<Step>)
    requires Ready(s, p, q) && s.pc[q].ReadAsleep? && s.pc[q].left > 0 && s.readopen && !s.killed[p]
    ensures Legal(ss, steps) && ss[0] == s && steps == [Write(p, 1), Run(p), Run(p), Run(p), Run(q), Run(q), Run(q), Run(q)]
    ensures var s' := ss[|steps|];
      |s'.pc| == |s.pc| && s'.lock == -1 && s'.pc[p].Outside? && s'.pc[q].Outside? && s.pending == s'.pending == 0
  {
    hide Legal;
    ss, steps := WriteOne(s, p, q);
    ss, steps := More(ss, steps, Run(q));
    ss, steps := More(ss, steps, Run(q));
    ss, steps := More(ss, steps, Run(q));
    ss, steps := More(ss, steps, Run(q));
  }

  // p reads one byte of a full pipe and wakes the writer q.
  lemma ReadOne(s: State, p: nat, q: nat) returns (ss: seq<State>, steps: seq<Step>)
    requires Ready(s, p, q) && s.pc[q].WriteAsleep?
    ensures Legal(ss, steps) && ss[0] == s && steps == [Read(p, 1), Run(p), Run(p), Run(p), Run(p)]
    ensures var s' := ss[|steps|];
      && |s'.pc| == |s.pc| && s'.killed == s.killed && |s.killed| == |s.pc| && s'.lock == -1 && s'.readopen && s'.pending == PIPESIZE - 1
      && s'.pc[p].Outside? && s'.pc[q] == WriteWoken(s.pc[q].left)
  {
    hide Legal;
    ss, steps := Nothing(s);
    ss, steps := More(ss, steps, Read(p, 1));
    ss, steps := More(ss, steps, Run(p));
    ss, steps := More(ss, steps, Run(p));
    ss, steps := More(ss, steps, Run(p));
    ss, steps := More(ss, steps, Run(p));
  }

  /** A writer asleep on a full pipe puts its next byte in as soon as anybody has read one. */
  lemma ReadFreesWriter(s: State, p: nat, q: nat) returns (ss: seq<State>, steps: seq<Step>)
    requires Ready(s, p, q) && s.pc[q].WriteAsleep? && s.pc[q].left > 0 && !s.killed[q]
    ensures Legal(ss, steps) && ss[0] == s && steps == [Read(p, 1), Run(p), Run(p), Run(p), Run(p), Run(q), Run(q)]
    ensures var s' := ss[|steps|];
      && |s'.pc| == |s.pc| && s'.pc[p].Outside? && s'.pc[q] == WriteLoop(s.pc[q].left - 1, true)
      && s.pending == s'.pending == PIPESIZE
  {
    hide Legal;
    ss, steps := ReadOne(s, p, q);
    ss, steps := More(ss, steps, Run(q));
    ss, steps := More(ss, steps, Run(q));
  }

  /** Closing the write end makes a reader that slept return, with nothing. */
  lemma CloseEndsReader(s: State, p: nat, q: nat) returns (ss: seq<State>, steps: seq<Step>)
    requires Ready(s, p, q) && s.pc[q].ReadAsleep?
    ensures Legal(ss, steps) && ss[0] == s && steps == [Close(p, true), Run(q), Run(q), Run(q)]
    ensures var s' := ss[|steps|]; |s'.pc| == |s.pc| && s'.lock == -1 && s'.pc[q].Outside? && s'.pending == s.pending
  {
    hide Legal;
    ss, steps := Nothing(s);
    ss, steps := More(ss, steps, Close(p, true));
    ss, steps := More(ss, steps, Run(q));
    ss, steps := More(ss, steps, Run(q));
    ss, steps := More(ss, steps, Run(q));
  }

  /** Closing the read end makes a writer that slept return. */
  lemma CloseEndsWriter(s: State, p: nat, q: nat) returns (ss: seq<State>, steps: seq<Step>)
    requires Ready(s, p, q) && s.pc[q].WriteAsleep?
    ensures Legal(ss, steps) && ss[0] == s && steps == [Close(p, false), Run(q), Run(q)]
    ensures var s' := ss[|steps|]; |s'.pc| == |s.pc| && s'.lock == -1 && s'.pc[q].Outside? && s'.pending == s.pending
  {
    hide Legal;
    ss, steps := Nothing(s);
    ss, steps := More(ss, steps, Close(p, false));
    ss, steps := More(ss, steps, Run(q));
    ss, steps := More(ss, steps, Run(q));
  }
}
