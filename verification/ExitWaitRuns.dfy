/**
  What fork, exit, wait, join and kill do, over whole runs: when a wait returns and when it sleeps,
  what a fork leaves behind, that an exit ends, and what wakes a sleeper.
 */
module ExitWaitRuns {
  import opened ExitWait

  // ----- wait and join

  predicate InWait(c: Pc) {
    c.Call? || c.Scan? || c.SleepEnter? || c.Window? || c.Asleep? || c.Woken?
  }

  ghost predicate HasKid(s: State, p: int, kind: Kind)
    requires Shape(s)
  {
    exists q :: 0 <= q < |s.pc| && IsKid(s, q, p, kind)
  }

  // havekids means what it says.
  ghost predicate GoodHave(s: State)
    requires Shape(s)
  {
    forall p :: 0 <= p < |s.pc| && s.pc[p].Scan? && s.pc[p].have ==> HasKid(s, p, s.pc[p].kind)
  }

  // A step of another process leaves the children of a process that holds wait_lock alone.
  lemma KidKept(s: State, step: Step, p: nat, q: nat)
    requires Inv(s) && Enabled(s, step) && p < |s.pc| && q < |s.pc| && s.pc[p].Scan? && step.p != p && IsKid(s, q, p, s.pc[p].kind)
    ensures Shape(Apply(s, step)) && |Apply(s, step).pc| == |s.pc| && IsKid(Apply(s, step), q, p, s.pc[p].kind)
  {
    hide Apply;
    hide Enabled;
    hide GoodLock;
    hide GoodScans;
    hide GoodSleepers;
    hide GoodFates;
    hide GoodMakers;
    hide Childless;
    StepMoves(s, step);
    assert SlotMoves(s, Apply(s, step), step.p, q);
  }

  lemma HaveRun(s: State, p: nat)
    requires Inv(s) && GoodHave(s) && Enabled(s, Run(p)) && s.pc[p].Scan?
    ensures var s' := Apply(s, Run(p));
      Shape(s') && |s'.pc| == |s.pc| && (s'.pc[p].Scan? && s'.pc[p].have ==> HasKid(s', p, s'.pc[p].kind))
  {
    hide GoodLock;
    hide GoodParents;
    hide GoodForks;
    hide GoodScans;
    hide GoodSleepers;
    hide GoodFates;
    hide GoodMakers;
    var s', k, kind := Apply(s, Run(p)), s.pc[p].k, s.pc[p].kind;
    if s'.pc[p].Scan? && s'.pc[p].have {
      if s.pc[p].have {
        var q :| 0 <= q < |s.pc| && IsKid(s, q, p, kind);
        assert IsKid(s', q, p, kind);
      } else {
        assert IsKid(s', k, p, kind);
      }
    }
  }

  lemma HaveKept(s: State, step: Step, p: nat)
    requires Inv(s) && GoodHave(s) && Enabled(s, step) && p < |s.pc|
    ensures var s' := Apply(s, step);
      Shape(s') && |s'.pc| == |s.pc| && (s'.pc[p].Scan? && s'.pc[p].have ==> HasKid(s', p, s'.pc[p].kind))
  {
    StepMoves(s, step);
    if step == Run(p) && s.pc[p].Scan? {
      HaveRun(s, p);
    } else if step.p != p {
      OtherHave(s, step, p);
    } else {
      OwnHave(s, step);
    }
  }

  // Any other step of p's own starts a scan afresh, if at all.
  lemma OwnScan(s: State, step: Step)
    requires Enabled(s, step) && !(step.Run? && s.pc[step.p].Scan?)
    ensures var s', p := Apply(s, step), step.p;
      && Shape(s') && |s'.pc| == |s.pc|
      && (s'.pc[p].Scan? && s'.pc[p].have ==> s'.pc[p] == s.pc[p] && s'.parent == s.parent && s'.isThread == s.isThread)
  {
  }

  lemma OwnHave(s: State, step: Step)
    requires Inv(s) && GoodHave(s) && Enabled(s, step) && !(step.Run? && s.pc[step.p].Scan?)
    ensures var s', p := Apply(s, step), step.p;
      Shape(s') && |s'.pc| == |s.pc| && (s'.pc[p].Scan? && s'.pc[p].have ==> HasKid(s', p, s'.pc[p].kind))
  {
    OwnScan(s, step);
    hide Apply;
    hide Inv;
    var s', p := Apply(s, step), step.p;
    if s'.pc[p].Scan? && s'.pc[p].have {
      var q :| 0 <= q < |s.pc| && IsKid(s, q, p, s.pc[p].kind);
      assert IsKid(s', q, p, s'.pc[p].kind);
    }
  }

  lemma OtherHave(s: State, step: Step, p: nat)
    requires Inv(s) && GoodHave(s) && Enabled(s, step) && p < |s.pc| && step.p != p
    ensures var s' := Apply(s, step);
      Shape(s') && |s'.pc| == |s.pc| && (s'.pc[p].Scan? && s'.pc[p].have ==> HasKid(s', p, s'.pc[p].kind))
  {
    hide Apply;
    hide Enabled;
    StepMoves(s, step);
    hide Inv;
    var s' := Apply(s, step);
    assert SlotMoves(s, s', step.p, p);
    if s'.pc[p].Scan? && s'.pc[p].have {
      var q :| 0 <= q < |s.pc| && IsKid(s, q, p, s.pc[p].kind);
      KidKept(s, step, p, q);
    }
  }

  lemma HavesKept(s: State, step: Step)
    requires Inv(s) && GoodHave(s) && Enabled(s, step)
    ensures Shape(Apply(s, step)) && GoodHave(Apply(s, step))
  {
    hide Inv;
    hide Apply;
    hide HasKid;
    HaveKept(s, step, step.p);
    forall p | 0 <= p < |s.pc|
      ensures var s' := Apply(s, step); s'.pc[p].Scan? && s'.pc[p].have ==> HasKid(s', p, s'.pc[p].kind)
    {
      HaveKept(s, step, p);
    }
  }

  lemma {:induction false} HavesRun(init: State, steps: seq<Step>)
    requires Init(init) && Legal(init, steps)
    ensures Inv(After(init, steps)) && GoodHave(After(init, steps))
  {
    InitInv(init);
    RunKeepsInv(init, steps);
    hide Inv;
    hide Apply;
    hide Enabled;
    if steps == [] {
    } else {
      HavesRun(init, steps[..|steps| - 1]);
      HavesKept(After(init, steps[..|steps| - 1]), steps[|steps| - 1]);
    }
  }

  // p has come to a zombie it can free.
  predicate AtZombie(s: State, p: nat)
    requires Shape(s) && p < |s.pc| && s.pc[p].Scan?
  {
    s.pc[p].k < |s.pc| && IsKid(s, s.pc[p].k, p, s.pc[p].kind) && s.pc[s.pc[p].k].Zombie?
  }

  // p has looked through the whole table in vain.
  predicate AtEnd(s: State, p: nat)
    requires p < |s.pc| && s.pc[p].Scan?
  {
    |s.pc| <= s.pc[p].k
  }

  // What freeproc leaves of a slot.
  predicate Blank(s: State, k: nat) {
    Shape(s) && k < |s.pc| && s.pc[k].Unused? && s.parent[k] == -1 && !s.isThread[k] && !s.killed[k] && s.pid[k] == 0
  }

  // The pass p is in ends the call.
  ghost predicate Returns(s: State, step: Step, p: nat)
    requires Shape(s) && p < |s.pc| && s.pc[p].Scan?
  {
    || (step == CopyFails(p) && AtZombie(s, p) && s.pc[p].kind.Wait?)
    || (step == Run(p) && (AtZombie(s, p) || (AtEnd(s, p) && (s.killed[p] || !HasKid(s, p, s.pc[p].kind)))))
  }

  lemma WaitScans(s: State, p: nat)
    requires Inv(s) && GoodHave(s) && Enabled(s, Run(p)) && s.pc[p].Scan?
    ensures var s' := Apply(s, Run(p));
      && |s'.pc| == |s.pc| && (InWait(s'.pc[p]) || s'.pc[p].Idle?) && (InWait(s'.pc[p]) ==> s'.pc[p].kind == s.pc[p].kind)
      && (s'.pc[p].Idle? <==> Returns(s, Run(p), p))
      && (s'.pc[p].SleepEnter? <==> AtEnd(s, p) && !s.killed[p] && HasKid(s, p, s.pc[p].kind))
      && (AtZombie(s, p) ==> s'.reaps == s.reaps + [Reap(s.pid[s.pc[p].k], s.pid[p])] && Blank(s', s.pc[p].k))
      && (!AtZombie(s, p) ==> s'.reaps == s.reaps)
      && (!AtZombie(s, p) && !AtEnd(s, p) ==> s'.pc[p].Scan? && s'.pc[p].k == s.pc[p].k + 1)
  {
    hide GoodLock;
    hide GoodParents;
    hide GoodForks;
    hide GoodScans;
    hide GoodSleepers;
    hide GoodFates;
    hide GoodMakers;
    if AtEnd(s, p) && !s.pc[p].have {
      forall q | 0 <= q < |s.pc| ensures !IsKid(s, q, p, s.pc[p].kind) { NoKidsMeansNone(s, p, q); }
    }
  }

  lemma WaitOwn(s: State, step: Step, p: nat)
    requires Inv(s) && Enabled(s, step) && step.p == p && InWait(s.pc[p]) && !(step.Run? && s.pc[p].Scan?)
    ensures var s' := Apply(s, step);
      && |s'.pc| == |s.pc|
      && if step.CopyFails? then s'.pc[p].Idle? && s'.reaps == s.reaps
         else InWait(s'.pc[p]) && s'.pc[p].kind == s.pc[p].kind && (s'.pc[p].SleepEnter? ==> s.pc[p].SleepEnter?)
  {
    hide Inv;
  }

  lemma WaitOther(s: State, step: Step, p: nat)
    requires Inv(s) && Enabled(s, step) && step.p != p && p < |s.pc| && InWait(s.pc[p])
    ensures var s' := Apply(s, step);
      |s'.pc| == |s.pc| && (s'.pc[p] == s.pc[p] || (s.pc[p].Asleep? && s'.pc[p] == Woken(s.pc[p].kind)))
  {
    hide Apply;
    hide Enabled;
    StepMoves(s, step);
    hide Inv;
    assert SlotMoves(s, Apply(s, step), step.p, p);
  }

  /**
    A wait, in any reachable state: it returns if and only if it frees a zombie child (for kjoin, a
    zombie thread), its copyout fails, or it is at the end of the table and is killed or has no
    child (no thread) at all.  In every other case at the end of the table it goes to sleep, and
    from nowhere else.
   */
  lemma WaitReturnsExactly(init: State, steps: seq<Step>, step: Step, p: nat)
    requires Init(init) && Legal(init, steps) && Enabled(After(init, steps), step)
    requires p < |After(init, steps).pc| && InWait(After(init, steps).pc[p])
    ensures var s := After(init, steps);
      var s' := Apply(s, step);
      && |s'.pc| == |s.pc| && (InWait(s'.pc[p]) || s'.pc[p].Idle?) && (InWait(s'.pc[p]) ==> s'.pc[p].kind == s.pc[p].kind)
      && (s'.pc[p].Idle? <==> s.pc[p].Scan? && Returns(s, step, p))
      && (s'.pc[p].SleepEnter? && !s.pc[p].SleepEnter? <==>
            s.pc[p].Scan? && step == Run(p) && AtEnd(s, p) && !s.killed[p] && HasKid(s, p, s.pc[p].kind))
  {
    hide Legal;
    hide After;
    hide Apply;
    HavesRun(init, steps);
    hide Inv;
    hide Init;
    hide HasKid;
    var s := After(init, steps);
    if step == Run(p) && s.pc[p].Scan? {
      WaitScans(s, p);
    } else if step.p == p {
      WaitOwn(s, step, p);
    } else {
      WaitOther(s, step, p);
    }
  }

  /** The pass that finds a zombie child frees that child and records it, and no other pass frees anything. */
  lemma WaitFreesExactly(init: State, steps: seq<Step>, p: nat)
    requires Init(init) && Legal(init, steps) && Enabled(After(init, steps), Run(p)) && After(init, steps).pc[p].Scan?
    ensures var s := After(init, steps);
      var s' := Apply(s, Run(p));
      && |s'.pc| == |s.pc|
      && (AtZombie(s, p) ==> s'.reaps == s.reaps + [Reap(s.pid[s.pc[p].k], s.pid[p])] && Blank(s', s.pc[p].k))
      && (!AtZombie(s, p) ==> s'.reaps == s.reaps)
      && (!AtZombie(s, p) && !AtEnd(s, p) ==> s'.pc[p].Scan? && s'.pc[p].k == s.pc[p].k + 1)
  {
    hide Legal;
    hide After;
    hide Apply;
    HavesRun(init, steps);
    WaitScans(After(init, steps), p);
  }

  // ----- What wakes a sleeper

  // The step is a wakeup, at slot p, on the channel of slot p.
  ghost predicate WakesUp(s: State, step: Step, p: nat)
    requires Enabled(s, step)
  {
    && step.Run? && step.p != p
    && var c := s.pc[step.p];
       (c.ExitWake? && c.j == p && s.parent[step.p] == p) || (c.ReparentWake? && c.j == p == s.init)
  }

  /** A process asleep in wait is woken by kkill, by a child that exits, and if it is init by an orphan; by nothing else. */
  lemma WokenExactly(s: State, step: Step, p: nat)
    requires Inv(s) && Enabled(s, step) && p < |s.pc| && s.pc[p].Asleep?
    ensures var s' := Apply(s, step);
      && |s'.pc| == |s.pc|
      && s'.pc[p] == if step == Kill(p) || WakesUp(s, step, p) then Woken(s.pc[p].kind) else s.pc[p]
  {
    hide GoodLock;
    hide GoodParents;
    hide GoodScans;
    hide GoodSleepers;
    hide GoodFates;
    hide GoodMakers;
    if step.Run? {
      if s.pc[step.p].Scan? { hide ExitStep; } else { hide ScanStep; }
    } else {
      hide ExitStep;
      hide ScanStep;
    }
  }

  // ----- kill

  // In wait, with the test of `killed` still ahead.
  predicate BeforeTest(c: Pc) { c.Call? || c.Woken? || c.Scan? }

  // The call that p is in has not returned before the end of the run.
  ghost predicate InCall(s: State, steps: seq<Step>, p: nat)
    requires Legal(s, steps)
  {
    steps == [] || (
      && InCall(s, steps[..|steps| - 1], p)
      && p < |After(s, steps[..|steps| - 1]).pc| && !After(s, steps[..|steps| - 1]).pc[p].Idle?)
  }

  lemma KilledGoesOn(s: State, step: Step, p: nat)
    requires Inv(s) && Enabled(s, step) && p < |s.pc| && s.killed[p] && BeforeTest(s.pc[p])
    ensures var s' := Apply(s, step);
      |s'.pc| == |s.pc| == |s'.killed| && s'.killed[p] && (BeforeTest(s'.pc[p]) || s'.pc[p].Idle?)
  {
    hide GoodLock;
    hide GoodParents;
    hide GoodForks;
    hide GoodScans;
    hide GoodSleepers;
    hide GoodFates;
    hide GoodMakers;
    KilledStep(s, step, p);
    if step.p != p { WaitOther(s, step, p); }
  }

  lemma {:induction false} KilledRun(s: State, steps: seq<Step>, p: nat)
    requires Inv(s) && p < |s.pc| && s.killed[p] && BeforeTest(s.pc[p]) && Legal(s, steps) && InCall(s, steps, p)
    ensures var s' := After(s, steps);
      p < |s'.pc| == |s'.killed| && s'.killed[p] && (BeforeTest(s'.pc[p]) || s'.pc[p].Idle?)
  {
    hide Enabled;
    hide Apply;
    hide BeforeTest;
    if steps != [] {
      var n := |steps| - 1;
      KilledRun(s, steps[..n], p);
      RunKeepsInv(s, steps[..n]);
      KilledGoesOn(After(s, steps[..n]), steps[n], p);
    }
  }

  /** A process that is killed while it sleeps in wait does not sleep again before the wait has returned. */
  lemma KilledSleeperReturns(s: State, s1: State, steps: seq<Step>, p: nat)
    requires Inv(s) && Enabled(s, Kill(p)) && s.pc[p].Asleep? && s1 == Apply(s, Kill(p)) && Legal(s1, steps) && InCall(s1, steps, p)
    ensures var s' := After(s1, steps);
      p < |s'.pc| && !Waiting(s'.pc[p]) && !s'.pc[p].SleepEnter? && (InWait(s'.pc[p]) || s'.pc[p].Idle?)
  {
    hide Legal;
    hide After;
    hide InCall;
    hide Inv;
    StepKeepsInv(s, Kill(p));
    KilledRun(s1, steps, p);
  }

  // ----- fork

  // p is in fork, with slot c, thread flag t and identifier id for the child.
  ghost predicate Forking(s: State, p: nat, c: nat, t: bool, id: nat) {
    && Shape(s) && p < |s.pc| && c < |s.pc| && (s.pc[p] == ForkAlloc(c) || s.pc[p] == ForkLinked(c))
    && s.pc[c].Used? && s.isThread[c] == t && s.pid[c] == id
  }

  // The child has started.
  ghost predicate Forked(s: State, p: nat, c: nat, t: bool, id: nat) {
    && Shape(s) && p < |s.pc| && c < |s.pc| && s.pc[p].Idle?
    && s.pc[c].Idle? && s.parent[c] == p && s.isThread[c] == t && s.pid[c] == id
  }

  lemma ForkOwn(s: State, step: Step, p: nat, c: nat, t: bool, id: nat)
    requires Inv(s) && Enabled(s, step) && Forking(s, p, c, t, id) && step.p == p
    ensures Forking(Apply(s, step), p, c, t, id) || Forked(Apply(s, step), p, c, t, id)
  {
    hide GoodLock;
    hide GoodScans;
    hide GoodSleepers;
    hide GoodFates;
    hide GoodMakers;
  }

  lemma ForkOther(s: State, step: Step, p: nat, c: nat, t: bool, id: nat)
    requires Inv(s) && Enabled(s, step) && Forking(s, p, c, t, id) && step.p != p
    ensures Forking(Apply(s, step), p, c, t, id)
  {
    StepMoves(s, step);
    var s', x := Apply(s, step), step.p;
    assert SlotMoves(s, s', x, p) && SlotMoves(s, s', x, c);
    OneForker(s, p, x, c);
    hide Apply;
    hide Inv;
  }

  // Two processes are never forking into one slot.
  lemma OneForker(s: State, p: nat, x: nat, c: nat)
    requires Inv(s) && p < |s.pc| && x < |s.pc| && p != x && c < |s.pc|
    requires s.pc[p] == ForkAlloc(c) || s.pc[p] == ForkLinked(c)
    ensures s.pc[x] != ForkAlloc(c) && s.pc[x] != ForkLinked(c)
  {
    hide GoodLock;
    hide GoodScans;
    hide GoodSleepers;
    if s.pc[p].ForkAlloc? && s.pc[x] == ForkAlloc(c) { SamePid(s, p, x); }
  }

  lemma {:induction false} ForkRun(s: State, steps: seq<Step>, p: nat, c: nat, t: bool, id: nat)
    requires Inv(s) && Forking(s, p, c, t, id) && Legal(s, steps) && InCall(s, steps, p)
    ensures Forking(After(s, steps), p, c, t, id) || Forked(After(s, steps), p, c, t, id)
  {
    hide Inv;
    hide Enabled;
    hide Apply;
    if steps != [] {
      var n := |steps| - 1;
      ForkRun(s, steps[..n], p, c, t, id);
      RunKeepsInv(s, steps[..n]);
      if steps[n].p == p {
        ForkOwn(After(s, steps[..n]), steps[n], p, c, t, id);
      } else {
        ForkOther(After(s, steps[..n]), steps[n], p, c, t, id);
      }
    }
  }

  /**
    fork and clone: however the others interleave, when the call returns the child runs, has not
    run before, has the caller as its parent and an identifier nobody had before; it is a thread
    exactly if clone made it.
   */
  lemma ForkMakesChild(s: State, s1: State, p: nat, c: nat, t: bool, steps: seq<Step>)
    requires Inv(s) && Enabled(s, Fork(p, c, t)) && s1 == Apply(s, Fork(p, c, t)) && Legal(s1, steps) && InCall(s1, steps, p)
    requires p < |After(s1, steps).pc| && After(s1, steps).pc[p].Idle?
    ensures Forked(After(s1, steps), p, c, t, |s.fate|)
  {
    hide Legal;
    hide After;
    hide InCall;
    hide Inv;
    StepKeepsInv(s, Fork(p, c, t));
    ForkRun(s1, steps, p, c, t, |s.fate|);
  }

  // ----- Every call ends

  function Left(k: nat, n: nat): nat { if k < n then n - k else 0 }

  // m turns of a loop that itself goes through n slots.
  function Turns(m: nat, n: nat): nat { if m == 0 then 0 else Turns(m - 1, n) + n + 2 }

  // The steps of its own that a process has before it at most, until it has returned, sleeps or is a zombie.
  function Rank(c: Pc, n: nat): nat {
    match c
    case ForkAlloc(_) => 2
    case ForkLinked(_) => 1
    case Call(_) => n + 4
    case Woken(_) => n + 4
    case Scan(_, k, _) => Left(k, n) + 3
    case SleepEnter(_) => 2
    case Window(_) => 1
    case ExitStart => Turns(n, n) + n + 5
    case Reparent(k) => Turns(Left(k, n), n) + n + 4
    case ReparentWake(k, j) => Turns(Left(k + 1, n), n) + n + 5 + Left(j, n)
    case ExitWake(j) => Left(j, n) + 3
    case ExitSet => 2
    case Exiting => 1
    case _ => 0
  }

  lemma ExitRank(s: State, p: nat)
    requires Enabled(s, Run(p)) && Leaving(s.pc[p]) && !s.pc[p].ExitStart?
    ensures |ExitStep(s, p).pc| == |s.pc| && Rank(ExitStep(s, p).pc[p], |s.pc|) < Rank(s.pc[p], |s.pc|)
  {
  }

  lemma RankDown(s: State, p: nat)
    requires Enabled(s, Run(p))
    ensures |Apply(s, Run(p)).pc| == |s.pc| && Rank(Apply(s, Run(p)).pc[p], |s.pc|) < Rank(s.pc[p], |s.pc|)
  {
    if Leaving(s.pc[p]) && !s.pc[p].ExitStart? {
      ExitRank(s, p);
    } else {
      hide ExitStep;
    }
  }

  lemma RankOther(s: State, step: Step, p: nat)
    requires Inv(s) && Enabled(s, step) && step != Run(p) && p < |s.pc| && Rank(s.pc[p], |s.pc|) > 0
    ensures |Apply(s, step).pc| == |s.pc| && Rank(Apply(s, step).pc[p], |s.pc|) <= Rank(s.pc[p], |s.pc|)
    ensures Apply(s, step).pc[p] == s.pc[p] || step == CopyFails(p)
  {
    hide Inv;
    hide Enabled;
    hide Apply;
    hide Rank;
    if step.p == p { RankStays(s, step); } else { RankElse(s, step, p); }
  }

  lemma RankElse(s: State, step: Step, p: nat)
    requires Inv(s) && Enabled(s, step) && step.p != p && p < |s.pc| && Rank(s.pc[p], |s.pc|) > 0
    ensures |Apply(s, step).pc| == |s.pc| && Apply(s, step).pc[p] == s.pc[p]
  {
    hide Inv;
    hide Enabled;
    hide Apply;
    hide Turns;
    StepMoves(s, step);
    assert SlotMoves(s, Apply(s, step), step.p, p);
  }

  lemma RankStays(s: State, step: Step)
    requires Enabled(s, step) && !step.Run? && Rank(s.pc[step.p], |s.pc|) > 0
    ensures |Apply(s, step).pc| == |s.pc| && Rank(Apply(s, step).pc[step.p], |s.pc|) <= Rank(s.pc[step.p], |s.pc|)
    ensures Apply(s, step).pc[step.p] == s.pc[step.p] || step == CopyFails(step.p)
  {
    hide ExitStep;
    hide ScanStep;
    hide Turns;
  }

  // p's own steps in a run.
  ghost function OwnSteps(steps: seq<Step>, p: nat): nat {
    if steps == [] then 0 else OwnSteps(steps[..|steps| - 1], p) + if steps[|steps| - 1] == Run(p) then 1 else 0
  }

  // p has been at work in its call all through the run, up to its last state.
  ghost predicate AtWork(s: State, steps: seq<Step>, p: nat)
    requires Legal(s, steps)
  {
    steps == [] || (
      && AtWork(s, steps[..|steps| - 1], p)
      && p < |After(s, steps[..|steps| - 1]).pc|
      && Rank(After(s, steps[..|steps| - 1]).pc[p], |After(s, steps[..|steps| - 1]).pc|) > 0)
  }

  /** Whatever the others do, a call that goes on has taken no more steps of its own than its rank says. */
  lemma {:induction false} CallEnds(s: State, steps: seq<Step>, p: nat)
    requires Inv(s) && p < |s.pc| && Legal(s, steps) && AtWork(s, steps, p)
    ensures |After(s, steps).pc| == |s.pc|
    ensures OwnSteps(steps, p) + Rank(After(s, steps).pc[p], |s.pc|) <= Rank(s.pc[p], |s.pc|)
  {
    hide Inv;
    hide Enabled;
    hide Apply;
    hide Rank;
    if steps != [] {
      var n := |steps| - 1;
      CallEnds(s, steps[..n], p);
      RunKeepsInv(s, steps[..n]);
      if steps[n] == Run(p) {
        RankDown(After(s, steps[..n]), p);
      } else {
        RankOther(After(s, steps[..n]), steps[n], p);
      }
    }
  }

  // At work in wait, or returned, or asleep in it.
  lemma {:induction false} WaitRuns(s: State, steps: seq<Step>, p: nat, kind: Kind)
    requires Inv(s) && p < |s.pc| && InWait(s.pc[p]) && s.pc[p].kind == kind && Legal(s, steps) && AtWork(s, steps, p)
    ensures var s' := After(s, steps);
      |s'.pc| == |s.pc| && (s'.pc[p].Idle? || (InWait(s'.pc[p]) && s'.pc[p].kind == kind))
  {
    hide Inv;
    hide Enabled;
    hide Apply;
    if steps != [] {
      var n := |steps| - 1;
      WaitRuns(s, steps[..n], p, kind);
      RunKeepsInv(s, steps[..n]);
      var t := After(s, steps[..n]);
      if steps[n].p != p {
        WaitOther(t, steps[n], p);
      } else if steps[n].Run? && t.pc[p].Scan? {
        ScanStays(t, p);
      } else {
        WaitOwn(t, steps[n], p);
      }
    }
  }

  lemma ScanStays(s: State, p: nat)
    requires Enabled(s, Run(p)) && s.pc[p].Scan?
    ensures var s' := Apply(s, Run(p));
      |s'.pc| == |s.pc| && (s'.pc[p].Idle? || (InWait(s'.pc[p]) && s'.pc[p].kind == s.pc[p].kind))
  {
  }

  /**
    wait and join: from the call on, the caller is in a wait of that kind or has returned, and within
    n + 4 steps of its own, for a table of n slots, it has returned or fallen asleep.
   */
  lemma WaitEnds(s: State, s1: State, p: nat, kind: Kind, steps: seq<Step>)
    requires Inv(s) && Enabled(s, Enter(p, kind)) && s1 == Apply(s, Enter(p, kind)) && Legal(s1, steps) && AtWork(s1, steps, p)
    ensures var s', n := After(s1, steps), |s1.pc|;
      && |s'.pc| == n && p < n && (s'.pc[p].Idle? || (InWait(s'.pc[p]) && s'.pc[p].kind == kind))
      && OwnSteps(steps, p) <= n + 4
      && (OwnSteps(steps, p) == n + 4 ==> s'.pc[p].Idle? || s'.pc[p].Asleep?)
  {
    hide Legal;
    hide After;
    hide AtWork;
    hide Turns;
    hide Inv;
    WaitStarts(s, p, kind);
    hide Enabled;
    hide Apply;
    StepKeepsInv(s, Enter(p, kind));
    WaitRuns(s1, steps, p, kind);
    CallEnds(s1, steps, p);
  }

  lemma WaitStarts(s: State, p: nat, kind: Kind)
    requires Enabled(s, Enter(p, kind))
    ensures |Apply(s, Enter(p, kind)).pc| == |s.pc| && p < |s.pc| && Apply(s, Enter(p, kind)).pc[p] == Call(kind)
  {
  }

  // ----- exit

  predicate InExit(c: Pc) { Leaving(c) || c.Exiting? }

  lemma ExitOwn(s: State, p: nat)
    requires Enabled(s, Run(p)) && InExit(s.pc[p])
    ensures |Apply(s, Run(p)).pc| == |s.pc| && (InExit(Apply(s, Run(p)).pc[p]) || Apply(s, Run(p)).pc[p].Zombie?)
  {
  }

  lemma {:induction false} ExitRuns(s: State, steps: seq<Step>, p: nat)
    requires Inv(s) && p < |s.pc| && InExit(s.pc[p]) && Legal(s, steps) && AtWork(s, steps, p)
    ensures |After(s, steps).pc| == |s.pc| && (InExit(After(s, steps).pc[p]) || After(s, steps).pc[p].Zombie?)
  {
    hide Inv;
    hide Enabled;
    hide Apply;
    if steps != [] {
      var n := |steps| - 1;
      ExitRuns(s, steps[..n], p);
      RunKeepsInv(s, steps[..n]);
      var t := After(s, steps[..n]);
      if steps[n] == Run(p) {
        ExitOwn(t, p);
      } else {
        RankOther(t, steps[n], p);
        NotCopying(t, steps[n], p);
      }
    }
  }

  lemma NotCopying(s: State, step: Step, p: nat)
    requires Enabled(s, step) && p < |s.pc| && !s.pc[p].Scan?
    ensures step != CopyFails(p)
  {
  }

  /**
    exit does not return: whatever the others do, from the call on the caller is in kexit until it
    is a zombie, and that takes it a bounded number of steps of its own.
   */
  lemma ExitEnds(s: State, s1: State, p: nat, steps: seq<Step>)
    requires Inv(s) && Enabled(s, Exit(p)) && s1 == Apply(s, Exit(p)) && Legal(s1, steps) && AtWork(s1, steps, p)
    ensures var s', n := After(s1, steps), |s1.pc|;
      && |s'.pc| == n && p < n && (InExit(s'.pc[p]) || s'.pc[p].Zombie?)
      && OwnSteps(steps, p) <= Turns(n, n) + n + 5
      && (OwnSteps(steps, p) == Turns(n, n) + n + 5 ==> s'.pc[p].Zombie?)
  {
    hide Legal;
    hide After;
    hide AtWork;
    hide Turns;
    hide Inv;
    ExitStarts(s, p);
    hide Enabled;
    hide Apply;
    StepKeepsInv(s, Exit(p));
    ExitRuns(s1, steps, p);
    CallEnds(s1, steps, p);
  }

  lemma ExitStarts(s: State, p: nat)
    requires Enabled(s, Exit(p))
    ensures |Apply(s, Exit(p)).pc| == |s.pc| && p < |s.pc| && Apply(s, Exit(p)).pc[p].ExitStart?
  {
  }

  // ----- Process identifiers

  ghost function Forks(steps: seq<Step>): nat {
    if steps == [] then 0
    else Forks(steps[..|steps| - 1]) + if steps[|steps| - 1].Fork? || steps[|steps| - 1].ForkFail? then 1 else 0
  }

  lemma PidStep(s: State, step: Step)
    requires Enabled(s, step)
    ensures |Apply(s, step).fate| == |s.fate| + if step.Fork? || step.ForkFail? then 1 else 0
  {
  }

  /** Every fork that finds a slot takes the next process identifier, also one that then fails. */
  lemma {:induction false} PidsExactly(s: State, steps: seq<Step>)
    requires Legal(s, steps)
    ensures |After(s, steps).fate| == |s.fate| + Forks(steps)
  {
    hide Enabled;
    hide Apply;
    if steps != [] {
      PidsExactly(s, steps[..|steps| - 1]);
      PidStep(After(s, steps[..|steps| - 1]), steps[|steps| - 1]);
    }
  }

  // ----- A run: fork, wait, exit

  lemma Extend(init: State, steps: seq<Step>, step: Step) returns (steps': seq<Step>)
    requires Legal(init, steps) && Enabled(After(init, steps), step)
    ensures Legal(init, steps') && steps' == steps + [step] && After(init, steps') == Apply(After(init, steps), step)
  {
    hide Enabled;
    hide Apply;
    steps' := steps + [step];
    assert steps'[..|steps|] == steps;
  }

  // A table of two slots, with init in the first, and the same when init has forked.
  function Boot(): State {
    State([Idle, Unused], [-1, -1], [false, false], [false, false], [1, 0], -1, 0, [Burnt, Live(0)], [0, 0], [])
  }

  function Two(pc0: Pc, pc1: Pc, lock: int, fate: Fate): State {
    State([pc0, pc1], [-1, 0], [false, false], [false, false], [1, 2], lock, 0, [Burnt, Live(0), fate], [0, 0, 1], [])
  }

  lemma ForkedRun() returns (steps: seq<Step>)
    ensures Legal(Boot(), steps) && After(Boot(), steps) == Two(Idle, Idle, -1, Live(1))
  {
    steps := [];
    assert Legal(Boot(), steps) && After(Boot(), steps) == Boot();
    hide Legal;
    hide After;
    steps := Extend(Boot(), steps, Fork(0, 1, false));
    steps := Extend(Boot(), steps, Run(0));
    steps := Extend(Boot(), steps, Run(0));
  }

  lemma SleepingRun() returns (steps: seq<Step>)
    ensures Legal(Boot(), steps) && After(Boot(), steps) == Two(Asleep(Wait), Idle, -1, Live(1))
  {
    hide Legal;
    hide After;
    steps := ForkedRun();
    steps := Extend(Boot(), steps, Enter(0, Wait));
    steps := Extend(Boot(), steps, Run(0));
    steps := Extend(Boot(), steps, Run(0));
    steps := Extend(Boot(), steps, Run(0));
    assert After(Boot(), steps) == Two(Scan(Wait, 2, true), Idle, 0, Live(1));
    steps := Extend(Boot(), steps, Run(0));
    steps := Extend(Boot(), steps, Run(0));
    steps := Extend(Boot(), steps, Run(0));
  }

  lemma ExitingRun() returns (steps: seq<Step>)
    ensures Legal(Boot(), steps) && After(Boot(), steps) == Two(Asleep(Wait), ExitWake(0), 1, Live(1))
  {
    hide Legal;
    hide After;
    steps := SleepingRun();
    steps := Extend(Boot(), steps, Exit(1));
    steps := Extend(Boot(), steps, Run(1));
    steps := Extend(Boot(), steps, Run(1));
    steps := Extend(Boot(), steps, Run(1));
    steps := Extend(Boot(), steps, Run(1));
  }

  lemma ZombieRun() returns (steps: seq<Step>)
    ensures Legal(Boot(), steps) && After(Boot(), steps) == Two(Woken(Wait), Zombie, -1, Dead(1))
  {
    hide Legal;
    hide After;
    steps := ExitingRun();
    steps := Extend(Boot(), steps, Run(1));
    steps := Extend(Boot(), steps, Run(1));
    assert After(Boot(), steps) == Two(Woken(Wait), ExitWake(2), 1, Live(1));
    steps := Extend(Boot(), steps, Run(1));
    steps := Extend(Boot(), steps, Run(1));
    steps := Extend(Boot(), steps, Run(1));
  }

  /** From boot: init forks a child and sleeps in wait, the child exits, and init wakes up, frees it and returns. */
  lemma ReapRun() returns (steps: seq<Step>)
    ensures Init(Boot()) && Legal(Boot(), steps)
    ensures After(Boot(), steps) ==
      State([Idle, Unused], [-1, -1], [false, false], [false, false], [1, 0], -1, 0, [Burnt, Live(0), Reaped(0)], [0, 0, 1], [Reap(2, 1)])
  {
    hide Legal;
    hide After;
    steps := ZombieRun();
    steps := Extend(Boot(), steps, Run(0));
    steps := Extend(Boot(), steps, Run(0));
    assert After(Boot(), steps) == Two(Scan(Wait, 1, false), Zombie, 0, Dead(1));
    steps := Extend(Boot(), steps, Run(0));
  }
}
