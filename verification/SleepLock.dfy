/**
  Sleeping locks: acquiresleep and releasesleep of kernel/sleeplock.c over sleep and wakeup of
  kernel/proc.c, and the user locks of kernel/syslock.c, which follow the same protocol and can
  also be created, destroyed, acquired twice by one process, released by the wrong one and left
  behind by a process that exits.  Any number of processes interleave; a step is what one process
  does while it holds the spinlocks it holds.  Spinlocks are atomic mutual exclusion.  A kernel
  lock is one that is never destroyed and that only its holder, which does not exit, releases.
 */
module SleepLock {
  /** Where a process is in the protocol of the one lock `lk`. */
  datatype Pc =
    | Outside          // running, outside the protocol, with or without the lock
    | AcqStart         // in acquire, before acquire(&lk->lk)
    | AcqFirst         // holds lk->lk, about to test lk->used and lk->locked
    | AcqTest          // holds lk->lk, back from sleep, about to test lk->locked
    | SleepEnter       // in sleep, holds lk->lk, wants its own p->lock
    | SleepBoth        // holds lk->lk and p->lock
    | SleepWindow      // has released lk->lk, holds p->lock, not SLEEPING yet
    | Asleep           // SLEEPING on lk
    | Woken            // RUNNABLE again
    | WokenLocked      // scheduled, holds p->lock
    | Reacquire        // about to re-acquire lk->lk
    | RelStart         // in release, before acquire(&lk->lk)
    | RelTest          // holds lk->lk, about to test for the owner
    | Waking(k: nat)       // in wakeup, holds lk->lk, at process k
    | WakingLocked(k: nat) // also holds process k's p->lock
    | RelEnd           // wakeup done, still holds lk->lk
    | Gone             // has exited

  datatype State = State(
    pc: seq<Pc>,
    spin: int,         // the process holding lk->lk, or -1
    plock: seq<int>,   // for each process, who holds its p->lock, or -1
    used: bool,        // lk->used; always true of a kernel lock
    owner: int,        // lk->pid while lk->locked, or -1
    has: seq<bool>     // history: the process runs, was given the lock and has not released it
  )

  datatype Step =
    | Enter(p: nat)    // call acquire, whether or not p has the lock
    | Leave(p: nat)    // call release, whether or not p has the lock
    | Run(p: nat)      // the next piece of code of p
    | Kill(p: nat)     // kkill makes a sleeping process runnable
    | Exit(p: nat)     // kexit, which does not look at the user locks
    | Create(p: nat)   // lock_create finds this slot unused
    | Destroy(p: nat)  // lock_destroy of this lock

  predicate Locked(s: State) { s.owner != -1 }

  predicate Enabled(s: State, step: Step) {
    && |s.plock| == |s.pc| == |s.has| && step.p < |s.pc|
    && var p := step.p;
    match step
    case Enter(_) => s.pc[p].Outside?
    case Leave(_) => s.pc[p].Outside?
    case Kill(_) => s.pc[p].Asleep? && s.plock[p] == -1
    case Exit(_) => s.pc[p].Outside?
    case Create(_) => s.pc[p].Outside? && s.spin == -1 && !s.used
    case Destroy(_) => s.pc[p].Outside? && s.spin == -1 && s.used
    case Run(_) =>
      match s.pc[p]
      case Outside => false
      case Asleep => false
      case Gone => false
      case AcqStart => s.spin == -1
      case Reacquire => s.spin == -1
      case RelStart => s.spin == -1
      case SleepEnter => s.plock[p] == -1
      case Woken => s.plock[p] == -1
      case Waking(k) => k < |s.pc| && k != p ==> s.plock[k] == -1
      case WakingLocked(k) => k < |s.pc|
      case _ => true
  }

  function Take(s: State, p: nat): State
    requires p < |s.pc| == |s.has|
  {
    s.(pc := s.pc[p := Outside], owner := p, spin := -1, has := s.has[p := true])
  }

  function Apply(s: State, step: Step): State
    requires Enabled(s, step)
  {
    var p := step.p;
    match step
    case Enter(_) => s.(pc := s.pc[p := AcqStart])
    case Leave(_) => s.(pc := s.pc[p := RelStart])
    case Kill(_) => s.(pc := s.pc[p := Woken])
    case Exit(_) => s.(pc := s.pc[p := Gone], has := s.has[p := false])
    case Create(_) => s.(used := true, owner := -1)
    case Destroy(_) => s.(used := false, owner := -1)
    case Run(_) =>
      match s.pc[p]
      case AcqStart => s.(pc := s.pc[p := AcqFirst], spin := p)
      case AcqFirst =>
        if !s.used then s.(pc := s.pc[p := Outside], spin := -1)
        else if Locked(s) then s.(pc := s.pc[p := SleepEnter])
        else Take(s, p)
      case AcqTest => if Locked(s) then s.(pc := s.pc[p := SleepEnter]) else Take(s, p)
      case SleepEnter => s.(pc := s.pc[p := SleepBoth], plock := s.plock[p := p])
      case SleepBoth => s.(pc := s.pc[p := SleepWindow], spin := -1)
      case SleepWindow => s.(pc := s.pc[p := Asleep], plock := s.plock[p := -1])
      case Woken => s.(pc := s.pc[p := WokenLocked], plock := s.plock[p := p])
      case WokenLocked => s.(pc := s.pc[p := Reacquire], plock := s.plock[p := -1])
      case Reacquire => s.(pc := s.pc[p := AcqTest], spin := p)
      case RelStart => s.(pc := s.pc[p := RelTest], spin := p)
      case RelTest =>
        if !s.used || s.owner != p then s.(pc := s.pc[p := Outside], spin := -1)
        else s.(pc := s.pc[p := Waking(0)], owner := -1, has := s.has[p := false])
      case Waking(k) =>
        if k >= |s.pc| then s.(pc := s.pc[p := RelEnd])
        else if k == p then s.(pc := s.pc[p := Waking(k + 1)])
        else s.(pc := s.pc[p := WakingLocked(k)], plock := s.plock[k := p])
      case WakingLocked(k) =>
        var pc := if s.pc[k].Asleep? then s.pc[k := Woken] else s.pc;
        s.(pc := pc[p := Waking(k + 1)], plock := s.plock[k := -1])
      case RelEnd => s.(pc := s.pc[p := Outside], spin := -1)
      case _ => s
  }

  // ----- The invariant

  predicate HoldsSpin(c: Pc) {
    || c.AcqFirst? || c.AcqTest? || c.SleepEnter? || c.SleepBoth?
    || c.RelTest? || c.Waking? || c.WakingLocked? || c.RelEnd?
  }

  predicate HoldsOwn(c: Pc) {
    c.SleepBoth? || c.SleepWindow? || c.WokenLocked?
  }

  // Asleep on the lock, or past the point of no return but not yet SLEEPING.
  predicate Waiting(c: Pc) {
    c.SleepWindow? || c.Asleep?
  }

  // In acquire, past the only test of lk->used.
  predicate Queued(c: Pc) {
    c.AcqTest? || c.SleepEnter? || c.SleepBoth? || Waiting(c) || c.Woken? || c.WokenLocked? || c.Reacquire?
  }

  // The spinlock holder is in wakeup and has process q still before it.
  ghost predicate WillWake(s: State, q: int) {
    && 0 <= s.spin < |s.pc|
    && match s.pc[s.spin]
       case Waking(k) => k <= q
       case WakingLocked(k) => k <= q
       case _ => false
  }

  ghost predicate Shape(s: State) {
    && |s.plock| == |s.pc| == |s.has|
    && -1 <= s.spin < |s.pc| && -1 <= s.owner < |s.pc|
    && forall p :: 0 <= p < |s.pc| ==> -1 <= s.plock[p] < |s.pc|
  }

  ghost predicate GoodSpin(s: State)
    requires Shape(s)
  {
    forall p :: 0 <= p < |s.pc| ==> (HoldsSpin(s.pc[p]) <==> s.spin == p)
  }

  // Process p, at c, holds the p->lock of process q.
  predicate HoldsLockOf(c: Pc, p: int, q: int) {
    if q == p then HoldsOwn(c) else c.WakingLocked? && c.k == q
  }

  ghost predicate GoodPlocks(s: State)
    requires Shape(s)
  {
    && (forall p, q :: 0 <= p < |s.pc| && 0 <= q < |s.pc| ==> (HoldsLockOf(s.pc[p], p, q) <==> s.plock[q] == p))
    && (forall p :: 0 <= p < |s.pc| && s.pc[p].WakingLocked? ==> s.pc[p].k < |s.pc| && s.pc[p].k != p)
  }

  ghost predicate GoodOwner(s: State)
    requires Shape(s)
  {
    && (forall p :: 0 <= p < |s.pc| ==> (s.has[p] <==> s.owner == p && !s.pc[p].Gone?))
    && (forall p :: 0 <= p < |s.pc| && (s.pc[p].SleepEnter? || s.pc[p].SleepBoth?) ==> Locked(s))
    && (forall p :: 0 <= p < |s.pc| && (s.pc[p].Waking? || s.pc[p].WakingLocked? || s.pc[p].RelEnd?) ==> !Locked(s))
  }

  // Nobody has an unused lock or is on the way to it.
  ghost predicate GoodUse(s: State)
    requires Shape(s)
  {
    !s.used ==> !Locked(s) && forall p :: 0 <= p < |s.pc| ==> !Queued(s.pc[p])
  }

  // Whoever waits will be woken: the lock is held, or its last owner is on the way.
  ghost predicate GoodWaiters(s: State)
    requires Shape(s)
  {
    forall q :: 0 <= q < |s.pc| && Waiting(s.pc[q]) ==> Locked(s) || WillWake(s, q)
  }

  ghost predicate Inv(s: State) {
    Shape(s) && GoodSpin(s) && GoodPlocks(s) && GoodOwner(s) && GoodUse(s) && GoodWaiters(s)
  }

  ghost predicate Init(s: State) {
    && |s.plock| == |s.pc| == |s.has| && s.spin == -1 && s.owner == -1
    && forall p :: 0 <= p < |s.pc| ==> s.pc[p].Outside? && s.plock[p] == -1 && !s.has[p]
  }

  lemma InitInv(s: State)
    requires Init(s)
    ensures Inv(s)
  {
  }

  // No running process has the lock, waits for it or is on the way back to it.
  ghost predicate Idle(s: State)
    requires |s.has| == |s.pc|
  {
    forall q :: 0 <= q < |s.pc| ==> !s.has[q] && !Queued(s.pc[q])
  }

  // A step that does not destroy the lock under somebody.
  ghost predicate Clean(s: State, step: Step)
    requires Enabled(s, step)
  {
    step.Destroy? ==> Idle(s)
  }

  // ----- Every clean step keeps it

  // Only p moves, except that a process asleep may become runnable.
  ghost predicate Moves(s: State, s': State, p: int) {
    && 0 <= p < |s.pc| == |s'.pc| && |s'.plock| == |s.plock| && |s'.has| == |s.has| == |s.pc|
    && (forall q :: 0 <= q < |s.pc| && q != p ==> s'.pc[q] == s.pc[q] || (s.pc[q].Asleep? && s'.pc[q].Woken?))
    && (forall q :: 0 <= q < |s.pc| && q != p ==> s'.has[q] == s.has[q])
  }

  lemma StepMoves(s: State, step: Step)
    requires Shape(s) && Enabled(s, step)
    ensures Moves(s, Apply(s, step), step.p)
  {
  }

  // p takes, releases or keeps the spinlock.
  ghost predicate SpinMove(s: State, s': State, p: int)
    requires Moves(s, s', p)
  {
    || (s'.spin == s.spin && (HoldsSpin(s'.pc[p]) <==> HoldsSpin(s.pc[p])))
    || (s.spin == -1 && s'.spin == p && HoldsSpin(s'.pc[p]))
    || (s.spin == p && s'.spin == -1 && !HoldsSpin(s'.pc[p]))
  }

  lemma SpinKept(s: State, s': State, p: int)
    requires Shape(s) && Shape(s') && GoodSpin(s) && Moves(s, s', p) && SpinMove(s, s', p)
    ensures GoodSpin(s')
  {
  }

  // p takes, releases or keeps each process lock.
  ghost predicate PlockMove(s: State, s': State, p: int)
    requires Moves(s, s', p) && |s.plock| == |s.pc|
  {
    && (s'.pc[p].WakingLocked? ==> s'.pc[p].k < |s.pc| && s'.pc[p].k != p)
    && forall q :: 0 <= q < |s.pc| ==> OnePlock(s, s', p, q)
  }

  ghost predicate OnePlock(s: State, s': State, p: int, q: int)
    requires Moves(s, s', p) && |s.plock| == |s.pc| && 0 <= q < |s.pc|
  {
    || (s'.plock[q] == s.plock[q] && (HoldsLockOf(s'.pc[p], p, q) <==> HoldsLockOf(s.pc[p], p, q)))
    || (s.plock[q] == -1 && s'.plock[q] == p && HoldsLockOf(s'.pc[p], p, q))
    || (s.plock[q] == p && s'.plock[q] == -1 && !HoldsLockOf(s'.pc[p], p, q))
  }

  lemma PlocksKept(s: State, s': State, p: int)
    requires Shape(s) && Shape(s') && GoodPlocks(s) && Moves(s, s', p) && PlockMove(s, s', p)
    ensures GoodPlocks(s')
  {
    forall r, q | 0 <= r < |s.pc| && 0 <= q < |s.pc| ensures HoldsLockOf(s'.pc[r], r, q) <==> s'.plock[q] == r {
      assert HoldsLockOf(s.pc[r], r, q) <==> s.plock[q] == r;
      assert OnePlock(s, s', p, q);
    }
  }

  ghost predicate OwnerMove(s: State, s': State, p: int)
    requires Moves(s, s', p)
  {
    var c' := s'.pc[p];
    || (s'.owner == s.owner && (s'.has[p] <==> s.has[p] && !c'.Gone?) && (s.pc[p].Gone? ==> c'.Gone?)
        && (c'.SleepEnter? || c'.SleepBoth? ==> Locked(s))
        && (c'.Waking? || c'.WakingLocked? || c'.RelEnd? ==> !Locked(s)))
    || (s.spin == p && s.owner == -1 && s'.owner == p && s'.has[p] && c'.Outside?)
    || (s.spin == p && s.owner == p && s'.owner == -1 && !s'.has[p] && c'.Waking?)
    || (Idle(s) && s'.owner == -1 && s'.pc == s.pc && s'.has == s.has)
  }

  lemma OwnerKept(s: State, s': State, p: int)
    requires Shape(s) && Shape(s') && GoodSpin(s) && GoodOwner(s) && Moves(s, s', p) && OwnerMove(s, s', p)
    ensures GoodOwner(s')
  {
    forall q | 0 <= q < |s.pc| ensures s'.has[q] <==> s'.owner == q && !s'.pc[q].Gone? {
      assert s.has[q] <==> s.owner == q && !s.pc[q].Gone?;
    }
    forall q | 0 <= q < |s.pc| && q != p ensures HoldsSpin(s.pc[q]) <==> s.spin == q {}
  }

  // p starts to queue, or gets the lock, only while the lock is in use.
  ghost predicate UseMove(s: State, s': State, p: int)
    requires Moves(s, s', p)
  {
    && (!s'.used && s.used ==> forall q :: 0 <= q < |s.pc| ==> !Queued(s.pc[q]))
    && (!s'.used ==> (s'.owner == -1 || (!s.used && s'.owner == s.owner)) && (Queued(s'.pc[p]) ==> Queued(s.pc[p])))
  }

  lemma UseKept(s: State, s': State, p: int)
    requires Shape(s) && Shape(s') && GoodUse(s) && Moves(s, s', p) && UseMove(s, s', p)
    ensures GoodUse(s')
  {
    if !s'.used {
      forall q | 0 <= q < |s.pc| ensures !Queued(s'.pc[q]) { assert !Queued(s.pc[q]); }
    }
  }

  // A waiter stays accounted for as long as the holder of the spinlock does not skip it.
  ghost predicate WaiterMove(s: State, s': State, p: int)
    requires Moves(s, s', p)
  {
    && (Waiting(s'.pc[p]) ==> Waiting(s.pc[p]) || Locked(s'))
    && (Locked(s) && !Locked(s') ==> (s'.spin == p && s'.pc[p] == Waking(0)) || forall q :: 0 <= q < |s.pc| ==> !Waiting(s'.pc[q]))
    && (s.spin != -1 && s.spin != p ==> s'.spin == s.spin)
    && (s.spin == p && s.pc[p].Waking? && !Locked(s') ==>
          forall q :: 0 <= q < |s.pc| && Waiting(s'.pc[q]) && s.pc[p].k <= q ==> WillWake(s', q))
    && (s.spin == p && s.pc[p].WakingLocked? && !Locked(s') ==>
          forall q :: 0 <= q < |s.pc| && Waiting(s'.pc[q]) && s.pc[p].k <= q ==> WillWake(s', q))
  }

  lemma WaitersKept(s: State, s': State, p: int)
    requires Shape(s) && Shape(s') && GoodSpin(s) && GoodWaiters(s) && Moves(s, s', p) && WaiterMove(s, s', p)
    ensures GoodWaiters(s')
  {
    forall q | 0 <= q < |s.pc| && Waiting(s'.pc[q]) ensures Locked(s') || WillWake(s', q) {
      if !Locked(s') && !Locked(s) { assert Waiting(s.pc[q]); assert WillWake(s, q); }
    }
  }

  lemma KeepsSpin(s: State, step: Step)
    requires Inv(s) && Enabled(s, step)
    ensures Moves(s, Apply(s, step), step.p) && SpinMove(s, Apply(s, step), step.p) && Shape(Apply(s, step))
  {
    hide GoodPlocks;
    hide GoodWaiters;
    hide GoodOwner;
    hide GoodUse;
    StepMoves(s, step);
  }

  lemma KeepsPlock(s: State, step: Step, q: nat)
    requires Inv(s) && Enabled(s, step) && q < |s.pc|
    ensures Moves(s, Apply(s, step), step.p) && OnePlock(s, Apply(s, step), step.p, q)
  {
    hide GoodSpin;
    hide GoodWaiters;
    hide GoodOwner;
    hide GoodUse;
    StepMoves(s, step);
    assert HoldsLockOf(s.pc[step.p], step.p, q) <==> s.plock[q] == step.p;
  }

  lemma KeepsPlocks(s: State, step: Step)
    requires Inv(s) && Enabled(s, step)
    ensures Moves(s, Apply(s, step), step.p) && PlockMove(s, Apply(s, step), step.p)
  {
    hide GoodSpin;
    hide GoodWaiters;
    hide GoodOwner;
    hide GoodUse;
    hide OnePlock;
    StepMoves(s, step);
    forall q | 0 <= q < |s.pc| ensures OnePlock(s, Apply(s, step), step.p, q) {
      KeepsPlock(s, step, q);
    }
  }

  lemma KeepsOwner(s: State, step: Step)
    requires Inv(s) && Enabled(s, step) && Clean(s, step)
    ensures Moves(s, Apply(s, step), step.p) && OwnerMove(s, Apply(s, step), step.p)
  {
    hide GoodPlocks;
    hide GoodWaiters;
    StepMoves(s, step);
  }

  lemma KeepsUse(s: State, step: Step)
    requires Inv(s) && Enabled(s, step) && Clean(s, step)
    ensures Moves(s, Apply(s, step), step.p) && UseMove(s, Apply(s, step), step.p)
  {
    hide GoodPlocks;
    hide GoodWaiters;
    StepMoves(s, step);
  }

  lemma KeepsWaiters(s: State, step: Step)
    requires Inv(s) && Enabled(s, step) && Clean(s, step)
    ensures Moves(s, Apply(s, step), step.p) && WaiterMove(s, Apply(s, step), step.p)
  {
    hide GoodWaiters;
    StepMoves(s, step);
    var p := step.p;
    if step.Run? && s.pc[p].WakingLocked? {
      var k := s.pc[p].k;
      assert HoldsLockOf(s.pc[p], p, k);
      assert HoldsLockOf(s.pc[k], k, k) <==> s.plock[k] == k;
    }
  }

  lemma StepKeepsInv(s: State, step: Step)
    requires Inv(s) && Enabled(s, step) && Clean(s, step)
    ensures Inv(Apply(s, step))
  {
    hide Enabled;
    hide Apply;
    hide Clean;
    hide Moves;
    hide SpinMove;
    hide PlockMove;
    hide OwnerMove;
    hide UseMove;
    hide WaiterMove;
    hide Shape;
    hide GoodSpin;
    hide GoodPlocks;
    hide GoodOwner;
    hide GoodUse;
    hide GoodWaiters;
    var s', p := Apply(s, step), step.p;
    KeepsSpin(s, step);
    KeepsPlocks(s, step);
    KeepsOwner(s, step);
    KeepsUse(s, step);
    KeepsWaiters(s, step);
    SpinKept(s, s', p);
    PlocksKept(s, s', p);
    OwnerKept(s, s', p);
    UseKept(s, s', p);
    WaitersKept(s, s', p);
  }

  // ----- Whole runs

  ghost predicate Legal(s: State, steps: seq<Step>)
    decreases |steps|, 0
  {
    steps == [] || (Legal(s, steps[..|steps| - 1]) && Enabled(After(s, steps[..|steps| - 1]), steps[|steps| - 1]))
  }

  ghost function After(s: State, steps: seq<Step>): State
    requires Legal(s, steps)
    decreases |steps|, 1
  {
    if steps == [] then s else Apply(After(s, steps[..|steps| - 1]), steps[|steps| - 1])
  }

  // Every destroy of the run finds the lock idle.
  ghost predicate CleanRun(s: State, steps: seq<Step>)
    requires Legal(s, steps)
  {
    steps == [] || (CleanRun(s, steps[..|steps| - 1]) && Clean(After(s, steps[..|steps| - 1]), steps[|steps| - 1]))
  }

  lemma {:induction false} RunKeepsInv(s: State, steps: seq<Step>)
    requires Inv(s) && Legal(s, steps) && CleanRun(s, steps)
    ensures Inv(After(s, steps))
  {
    hide Inv;
    hide Clean;
    if steps != [] {
      RunKeepsInv(s, steps[..|steps| - 1]);
      StepKeepsInv(After(s, steps[..|steps| - 1]), steps[|steps| - 1]);
    }
  }

  /** Mutual exclusion: after any interleaving, at most one process has the lock. */
  lemma MutualExclusion(init: State, steps: seq<Step>, p: nat, q: nat)
    requires Init(init) && Legal(init, steps) && CleanRun(init, steps)
    requires p < |After(init, steps).has| && q < |After(init, steps).has|
    requires After(init, steps).has[p] && After(init, steps).has[q]
    ensures p == q
  {
    hide Legal;
    hide After;
    hide CleanRun;
    InitInv(init);
    RunKeepsInv(init, steps);
  }

  /**
    No lost wakeup: after any interleaving, when the lock is free and its spinlock is free, no
    process is asleep on it, and none is in the window between releasing the spinlock and
    becoming SLEEPING.
   */
  lemma NoLostWakeup(init: State, steps: seq<Step>, q: nat)
    requires Init(init) && Legal(init, steps) && CleanRun(init, steps) && q < |After(init, steps).pc|
    requires !Locked(After(init, steps)) && After(init, steps).spin == -1
    ensures !Waiting(After(init, steps).pc[q])
  {
    hide Legal;
    hide After;
    hide CleanRun;
    hide Waiting;
    InitInv(init);
    RunKeepsInv(init, steps);
  }

  predicate Busy(c: Pc) {
    !c.Outside? && !c.Asleep? && !c.Gone?
  }

  /** No deadlock inside the protocol: while some process is in the middle of it, some process can go on. */
  lemma NeverStuck(s: State, p: nat) returns (r: nat)
    requires Inv(s) && p < |s.pc| && Busy(s.pc[p])
    ensures r < |s.pc| && Enabled(s, Run(r))
  {
    if s.spin != -1 {
      r := s.spin;
      assert HoldsSpin(s.pc[r]);
      if s.pc[r].Waking? && s.pc[r].k < |s.pc| && s.pc[r].k != r && s.plock[s.pc[r].k] != -1 {
        var k := s.pc[r].k;
        var h := s.plock[k];
        assert HoldsLockOf(s.pc[h], h, k);
        assert h != k ==> HoldsSpin(s.pc[h]);
        r := k;
      } else if s.pc[r].SleepEnter? && s.plock[r] != -1 {
        assert HoldsLockOf(s.pc[s.plock[r]], s.plock[r], r);
      }
    } else {
      r := p;
      assert !HoldsSpin(s.pc[p]);
      assert s.plock[p] != -1 ==> HoldsLockOf(s.pc[s.plock[p]], s.plock[p], p);
    }
  }

  // ----- Acquiring a lock one already has, and exiting with it

  predicate Acquiring(c: Pc) {
    c.AcqStart? || c.AcqFirst? || Queued(c)
  }

  // The owner is itself waiting for the lock.
  ghost predicate Deadlocked(s: State) {
    0 <= s.owner < |s.pc| && Acquiring(s.pc[s.owner])
  }

  // The owner has exited.
  ghost predicate Orphaned(s: State) {
    0 <= s.owner < |s.pc| && s.pc[s.owner].Gone?
  }

  // Some process called acquire while it had the lock.
  ghost predicate Relocked(s: State, steps: seq<Step>)
    requires Legal(s, steps)
  {
    && steps != []
    && (|| Relocked(s, steps[..|steps| - 1])
        || (steps[|steps| - 1].Enter? && After(s, steps[..|steps| - 1]).owner == steps[|steps| - 1].p))
  }

  // Some process exited while it had the lock, and the lock has not been destroyed since.
  ghost predicate Abandoned(s: State, steps: seq<Step>)
    requires Legal(s, steps)
  {
    && steps != [] && !steps[|steps| - 1].Destroy?
    && (|| Abandoned(s, steps[..|steps| - 1])
        || (steps[|steps| - 1].Exit? && After(s, steps[..|steps| - 1]).owner == steps[|steps| - 1].p))
  }

  // A deadlock comes from relocking and from nothing else, and no step ends it.
  lemma RelockStep(s: State, step: Step)
    requires Inv(s) && Enabled(s, step) && Clean(s, step)
    ensures Deadlocked(Apply(s, step)) <==> Deadlocked(s) || (step.Enter? && s.owner == step.p)
  {
    hide GoodPlocks;
    hide GoodWaiters;
  }

  // Only a destroy takes the lock away from a process that has exited.
  lemma ExitStep(s: State, step: Step)
    requires Inv(s) && Enabled(s, step)
    ensures Orphaned(Apply(s, step)) <==> !step.Destroy? && (Orphaned(s) || (step.Exit? && s.owner == step.p))
  {
    hide GoodPlocks;
    hide GoodWaiters;
  }

  lemma {:induction false} RelockRun(init: State, steps: seq<Step>)
    requires Inv(init) && !Locked(init) && Legal(init, steps) && CleanRun(init, steps)
    ensures Deadlocked(After(init, steps)) <==> Relocked(init, steps)
    ensures Orphaned(After(init, steps)) <==> Abandoned(init, steps)
  {
    hide Inv;
    hide Clean;
    hide Enabled;
    hide Apply;
    if steps != [] {
      RelockRun(init, steps[..|steps| - 1]);
      RunKeepsInv(init, steps[..|steps| - 1]);
      RelockStep(After(init, steps[..|steps| - 1]), steps[|steps| - 1]);
      ExitStep(After(init, steps[..|steps| - 1]), steps[|steps| - 1]);
    }
  }

  /**
    When everybody else has come to rest, a process asleep on the lock waits for an owner, and
    that owner is awake and free to release if and only if no process asked for the lock again
    while it had it, and none exited with it.
   */
  lemma SleepersHaveAnOwner(init: State, steps: seq<Step>, q: nat)
    requires Init(init) && Legal(init, steps) && CleanRun(init, steps)
    requires var s := After(init, steps);
      q < |s.pc| && s.pc[q].Asleep? && forall p :: 0 <= p < |s.pc| ==> !Busy(s.pc[p])
    ensures var s := After(init, steps);
      0 <= s.owner < |s.pc| && (s.pc[s.owner].Outside? <==> !Relocked(init, steps) && !Abandoned(init, steps))
  {
    hide Legal;
    hide After;
    hide CleanRun;
    hide Relocked;
    hide Abandoned;
    InitInv(init);
    RunKeepsInv(init, steps);
    RelockRun(init, steps);
    var s := After(init, steps);
    assert s.spin != -1 ==> HoldsSpin(s.pc[s.spin]) && !Busy(s.pc[s.spin]);
    assert Waiting(s.pc[q]);
  }

  lemma Extend(init: State, steps: seq<Step>, step: Step) returns (steps': seq<Step>)
    requires Legal(init, steps) && CleanRun(init, steps) && Enabled(After(init, steps), step) && !step.Destroy?
    ensures Legal(init, steps') && CleanRun(init, steps') && After(init, steps') == Apply(After(init, steps), step)
    ensures steps' == steps + [step]
  {
    steps' := steps + [step];
    assert steps'[..|steps|] == steps;
  }

  /** One process that acquires a user lock twice is asleep on a lock it owns, and nothing can move. */
  lemma RelockDeadlocks() returns (init: State, steps: seq<Step>)
    ensures Init(init) && Legal(init, steps) && CleanRun(init, steps)
    ensures var s := After(init, steps);
      && |s.pc| == 1 && s.pc[0].Asleep? && s.owner == 0 && s.spin == -1
      && !Enabled(s, Run(0)) && !Enabled(s, Leave(0)) && !Enabled(s, Destroy(0))
  {
    init := State([Outside], -1, [-1], true, -1, [false]);
    steps := [];
    steps := Extend(init, steps, Enter(0));
    steps := Extend(init, steps, Run(0));
    steps := Extend(init, steps, Run(0));
    steps := Extend(init, steps, Enter(0));
    steps := Extend(init, steps, Run(0));
    steps := Extend(init, steps, Run(0));
    steps := Extend(init, steps, Run(0));
    steps := Extend(init, steps, Run(0));
    steps := Extend(init, steps, Run(0));
  }

  /**
    Process 0 takes a user lock, process 1 sleeps on it, and process 0 exits: nobody asked twice,
    and process 1 sleeps for an owner that is gone.  Nothing but a kill can move it.
   */
  lemma ExitStrands() returns (init: State, steps: seq<Step>)
    ensures Init(init) && Legal(init, steps) && CleanRun(init, steps) && !Relocked(init, steps)
    ensures var s := After(init, steps);
      && s == State([Gone, Asleep], -1, [-1, -1], true, 0, [false, false])
      && forall step :: Enabled(s, step) <==> step == Kill(1)
  {
    init := State([Outside, Outside], -1, [-1, -1], true, -1, [false, false]);
    steps := OneSleeps(init);
    hide Legal;
    hide After;
    hide CleanRun;
    hide Relocked;
    hide Abandoned;
    hide Inv;
    steps := Extend(init, steps, Exit(0));
    InitInv(init);
    RelockRun(init, steps);
    OnlyKill(After(init, steps));
  }

  lemma OnlyKill(s: State)
    requires s == State([Gone, Asleep], -1, [-1, -1], true, 0, [false, false])
    ensures forall step :: Enabled(s, step) <==> step == Kill(1)
  {
  }

  lemma OneTakes(init: State) returns (steps: seq<Step>)
    requires init == State([Outside, Outside], -1, [-1, -1], true, -1, [false, false])
    ensures Legal(init, steps) && CleanRun(init, steps)
    ensures After(init, steps) == State([Outside, Outside], -1, [-1, -1], true, 0, [true, false])
  {
    steps := Nothing(init);
    steps := Extend(init, steps, Enter(0));
    steps := Extend(init, steps, Run(0));
    steps := Extend(init, steps, Run(0));
  }

  lemma OneSleeps(init: State) returns (steps: seq<Step>)
    requires init == State([Outside, Outside], -1, [-1, -1], true, -1, [false, false])
    ensures Legal(init, steps) && CleanRun(init, steps)
    ensures After(init, steps) == State([Outside, Asleep], -1, [-1, -1], true, 0, [true, false])
  {
    hide Legal;
    hide After;
    hide CleanRun;
    steps := OneTakes(init);
    steps := Extend(init, steps, Enter(1));
    steps := Extend(init, steps, Run(1));
    steps := Extend(init, steps, Run(1));
    steps := Extend(init, steps, Run(1));
    steps := Extend(init, steps, Run(1));
    steps := Extend(init, steps, Run(1));
  }

  // ----- lock_destroy

  // Mutual exclusion, and no sleeper on a free lock.
  ghost predicate Guarantees(s: State)
    requires |s.has| == |s.pc|
  {
    && (forall p, q :: 0 <= p < |s.pc| && 0 <= q < |s.pc| && s.has[p] && s.has[q] ==> p == q)
    && (!Locked(s) && s.spin == -1 ==> forall q :: 0 <= q < |s.pc| ==> !Waiting(s.pc[q]))
  }

  lemma InvGuarantees(s: State)
    requires Inv(s)
    ensures Guarantees(s)
  {
  }

  // Process r can get the lock without anybody's help.
  ghost predicate Ready(s: State, r: nat) {
    && |s.plock| == |s.pc| == |s.has| && r < |s.pc| && !Locked(s) && (s.used || Queued(s.pc[r]))
    && s.spin == (if HoldsSpin(s.pc[r]) then r else -1)
    && s.plock[r] == (if HoldsOwn(s.pc[r]) then r else -1)
    && var c := s.pc[r];
       c.Outside? || c.RelStart? || c.RelTest? || c.AcqStart? || c.AcqFirst? || c.AcqTest? || c.Woken? || c.WokenLocked? || c.Reacquire?
  }

  function Rank(c: Pc): nat {
    match c
    case RelStart => 6
    case RelTest => 5
    case Outside => 4
    case Woken => 4
    case WokenLocked => 3
    case AcqStart => 3
    case Reacquire => 2
    case _ => 1
  }

  predicate Unmoved(s: State, s': State, r: nat)
    requires r < |s.pc|
  {
    && |s'.pc| == |s.pc| && s'.used == s.used
    && s'.pc == s.pc[r := s'.pc[r]] && |s'.plock| == |s.plock| && forall q :: 0 <= q < |s.plock| && q != r ==> s'.plock[q] == s.plock[q]
  }

  lemma ReadyStep(s: State, r: nat) returns (step: Step)
    requires Ready(s, r)
    ensures Enabled(s, step) && !step.Destroy? && (Queued(s.pc[r]) ==> step == Run(r))
    ensures var s' := Apply(s, step);
      && (Queued(s.pc[r]) ==> Queued(s'.pc[r]) || s' == Take(s, r))
      && Unmoved(s, s', r)
      && ((Ready(s', r) && s'.has == s.has && Rank(s'.pc[r]) < Rank(s.pc[r])) || s' == Take(s, r))
  {
    step := if s.pc[r].Outside? then Enter(r) else Run(r);
  }

  lemma {:induction false} Gets(init: State, steps: seq<Step>, r: nat) returns (steps': seq<Step>)
    requires Legal(init, steps) && CleanRun(init, steps) && Ready(After(init, steps), r)
    ensures Legal(init, steps') && CleanRun(init, steps')
    ensures var s, s' := After(init, steps), After(init, steps');
      Unmoved(s, s', r) && s'.has == s.has[r := true] && s'.pc[r].Outside? && s'.owner == r && s'.spin == -1
    ensures |steps| <= |steps'| && steps'[..|steps|] == steps
    ensures Queued(After(init, steps).pc[r]) ==> forall i :: |steps| <= i < |steps'| ==> steps'[i] == Run(r)
    decreases Rank(After(init, steps).pc[r])
  {
    hide Legal;
    hide After;
    hide CleanRun;
    hide Enabled;
    hide Apply;
    var s := After(init, steps);
    var step := ReadyStep(s, r);
    steps' := Extend(init, steps, step);
    if After(init, steps') != Take(s, r) {
      steps' := Gets(init, steps', r);
    }
  }

  // Destroyed under its holder: the next process to ask gets the lock as well.
  lemma SecondHolder(s: State, d: nat, q: nat, r: nat) returns (steps: seq<Step>)
    requires Inv(s) && Enabled(s, Destroy(d)) && q < |s.pc| && r < |s.pc| && q != r && s.has[q] && !s.pc[r].Gone?
    requires forall x :: 0 <= x < |s.pc| ==> !Waiting(s.pc[x])
    ensures var s0 := Apply(s, Destroy(d));
      Legal(s0, steps) && CleanRun(s0, steps) && |After(s0, steps).has| == |s.pc| && After(s0, steps).has[q] && After(s0, steps).has[r]
  {
    var s0 := Apply(s, Destroy(d));
    steps := Extend(s0, [], Create(d));
    RestReady(s, r);
    steps := Gets(s0, steps, r);
  }

  // With the spinlock free and nobody waiting, every process that still runs is ready.
  lemma RestReady(s: State, r: nat)
    requires Inv(s) && s.spin == -1 && s.used && r < |s.pc| && !Waiting(s.pc[r]) && !s.pc[r].Gone?
    ensures Ready(s.(owner := -1), r) && (Queued(s.pc[r]) ==> Ready(s.(owner := -1, used := false), r))
  {
    assert !HoldsSpin(s.pc[r]);
    assert HoldsLockOf(s.pc[r], r, r) <==> s.plock[r] == r;
    var h := if s.plock[r] == -1 then r else s.plock[r];
    assert HoldsLockOf(s.pc[h], h, r) <==> s.plock[r] == h;
    assert !HoldsSpin(s.pc[h]);
  }

  // Destroyed under a process on its way back from sleep: it gets the old lock, another the new one.
  lemma LateHolder(s: State, d: nat, q: nat) returns (steps: seq<Step>)
    requires Inv(s) && Enabled(s, Destroy(d)) && q < |s.pc| && Queued(s.pc[q])
    requires forall x :: 0 <= x < |s.pc| ==> !Waiting(s.pc[x])
    ensures var s0 := Apply(s, Destroy(d));
      Legal(s0, steps) && CleanRun(s0, steps) && |After(s0, steps).has| == |s.pc| && After(s0, steps).has[q] && After(s0, steps).has[d]
  {
    var s0 := Apply(s, Destroy(d));
    RestReady(s, q);
    RestReady(s, d);
    steps := Gets(s0, [], q);
    steps := Extend(s0, steps, Create(d));
    steps := Gets(s0, steps, d);
  }

  lemma {:induction false} SameCount(s: State, steps: seq<Step>)
    requires Legal(s, steps)
    ensures |After(s, steps).pc| == |s.pc| && |After(s, steps).has| == |s.has|
  {
    if steps != [] {
      var n := |steps| - 1;
      SameCount(s, steps[..n]);
      ApplyCount(After(s, steps[..n]), steps[n]);
    }
  }

  lemma ApplyCount(s: State, step: Step)
    requires Enabled(s, step)
    ensures |Apply(s, step).pc| == |s.pc| && |Apply(s, step).has| == |s.has|
  {
  }

  /**
    lock_destroy keeps mutual exclusion and the wakeups in everything that follows if and only if
    no running process has the lock, sleeps on it or is on the way back from sleep.  A process
    that exited with the lock does not count.
   */
  lemma DestroyExactly(s: State, d: nat)
    requires Inv(s) && Enabled(s, Destroy(d)) && exists r :: 0 <= r < |s.pc| && r != d && !s.pc[r].Gone?
    ensures Idle(s) <==>
      forall steps :: Legal(Apply(s, Destroy(d)), steps) && CleanRun(Apply(s, Destroy(d)), steps) ==>
        |After(Apply(s, Destroy(d)), steps).has| == |After(Apply(s, Destroy(d)), steps).pc| && Guarantees(After(Apply(s, Destroy(d)), steps))
  {
    var s0 := Apply(s, Destroy(d));
    if Idle(s) {
      StepKeepsInv(s, Destroy(d));
      forall steps | Legal(s0, steps) && CleanRun(s0, steps)
        ensures |After(s0, steps).has| == |After(s0, steps).pc| && Guarantees(After(s0, steps))
      {
        RunKeepsInv(s0, steps);
        InvGuarantees(After(s0, steps));
      }
    } else {
      var steps := DestroyBreaks(s, d);
      assert Legal(s0, steps) && CleanRun(s0, steps);
    }
  }

  /** Otherwise some run after it has two holders, or a sleeper on a free lock. */
  lemma DestroyBreaks(s: State, d: nat) returns (steps: seq<Step>)
    requires Inv(s) && Enabled(s, Destroy(d)) && !Idle(s) && exists r :: 0 <= r < |s.pc| && r != d && !s.pc[r].Gone?
    ensures var s0 := Apply(s, Destroy(d));
      && Legal(s0, steps) && CleanRun(s0, steps)
      && var s' := After(s0, steps);
         |s'.has| == |s'.pc| && !Guarantees(s')
  {
    hide Legal;
    hide After;
    hide CleanRun;
    var s0 := Apply(s, Destroy(d));
    if x :| 0 <= x < |s.pc| && Waiting(s.pc[x]) {
      steps := Nothing(s0);
      assert Waiting(s0.pc[x]);
    } else if q :| 0 <= q < |s.pc| && s.has[q] {
      var r :| 0 <= r < |s.pc| && r != d && !s.pc[r].Gone?;
      steps := SecondHolder(s, d, q, if q == d then r else d);
      SameCount(s0, steps);
    } else {
      var q :| 0 <= q < |s.pc| && (s.has[q] || Queued(s.pc[q]));
      steps := LateHolder(s, d, q);
      SameCount(s0, steps);
      assert q != d;
    }
  }

  lemma Nothing(s: State) returns (steps: seq<Step>)
    ensures Legal(s, steps) && CleanRun(s, steps) && After(s, steps) == s && steps == []
  {
    steps := [];
  }

  /** Process 0 holds the lock, process 1 sleeps on it, process 0 destroys it. */
  lemma DestroyLosesWakeup() returns (init: State, steps: seq<Step>)
    ensures Init(init) && Legal(init, steps) && CleanRun(init, steps) && Enabled(After(init, steps), Destroy(0))
    ensures var s := Apply(After(init, steps), Destroy(0));
      s.spin == -1 && !Locked(s) && |s.pc| == 2 && s.pc[1].Asleep?
  {
    init := State([Outside, Outside], -1, [-1, -1], true, -1, [false, false]);
    steps := OneSleeps(init);
  }
}
