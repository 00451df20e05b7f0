/**
  What the calls on a sleeping lock do, over whole runs: an acquire returns with the lock, a
  release gives it up and leaves nobody asleep, and the lock passes from its owner to a sleeper.
 */
module SleepLockRuns {
  import opened SleepLock

  // ----- acquire

  /**
    The call returns when p finds the lock free, which gives it the lock, or finds it unused at
    the first test; while the lock is held p goes to sleep.
   */
  lemma AcquireStep(s: State, step: Step, p: nat)
    requires Inv(s) && Enabled(s, step) && p < |s.pc| && Acquiring(s.pc[p])
    ensures var s' := Apply(s, step);
      var tests := step == Run(p) && (s.pc[p].AcqFirst? || s.pc[p].AcqTest?);
      && (Acquiring(s'.pc[p]) || s'.pc[p].Outside?)
      && (s'.pc[p].Outside? <==> tests && !Locked(s))
      && (s'.pc[p].Outside? ==> s'.spin == -1 && s'.used == s.used && (s'.has[p] <==> s.used) && (s.used ==> s'.owner == p))
      && (s'.pc[p].SleepEnter? && !s.pc[p].SleepEnter? <==> tests && Locked(s))
  {
    if step == Run(p) {
      AcquireOwn(s, p);
    } else {
      AcquireOther(s, step, p);
    }
  }

  lemma AcquireOwn(s: State, p: nat)
    requires Inv(s) && Enabled(s, Run(p)) && p < |s.pc| && Acquiring(s.pc[p])
    ensures var s' := Apply(s, Run(p));
      var tests := s.pc[p].AcqFirst? || s.pc[p].AcqTest?;
      && (Acquiring(s'.pc[p]) || s'.pc[p].Outside?)
      && (s'.pc[p].Outside? <==> tests && !Locked(s))
      && (s'.pc[p].Outside? ==> s'.spin == -1 && s'.used == s.used && (s'.has[p] <==> s.used) && (s.used ==> s'.owner == p))
      && (s'.pc[p].SleepEnter? && !s.pc[p].SleepEnter? <==> tests && Locked(s))
  {
    hide GoodPlocks;
    hide GoodWaiters;
    hide GoodSpin;
  }

  lemma AcquireOther(s: State, step: Step, p: nat)
    requires Inv(s) && Enabled(s, step) && p < |s.pc| && Acquiring(s.pc[p]) && step != Run(p)
    ensures var s' := Apply(s, step);
      |s'.pc| == |s.pc| && (s'.pc[p] == s.pc[p] || (s.pc[p].Asleep? && s'.pc[p].Woken?))
  {
    hide GoodPlocks;
    hide GoodWaiters;
    hide GoodSpin;
    hide GoodOwner;
    hide GoodUse;
    StepMoves(s, step);
  }

  // The call that p is in has not returned before the end of the run.
  ghost predicate InCall(s: State, steps: seq<Step>, p: nat)
    requires Legal(s, steps)
  {
    steps == [] || (
      && InCall(s, steps[..|steps| - 1], p)
      && p < |After(s, steps[..|steps| - 1]).pc| && !After(s, steps[..|steps| - 1]).pc[p].Outside?)
  }

  lemma {:induction false} AcquireGoesOn(s: State, steps: seq<Step>, p: nat)
    requires Inv(s) && p < |s.pc| && s.pc[p].AcqStart? && Legal(s, steps) && CleanRun(s, steps) && InCall(s, steps, p)
    ensures var s' := After(s, steps);
      && Inv(s') && p < |s'.pc| && (Acquiring(s'.pc[p]) || s'.pc[p].Outside?)
      && (s'.pc[p].Outside? ==> s'.spin == -1 && (s'.has[p] <==> s'.used))
  {
    hide Inv;
    hide Clean;
    hide Enabled;
    hide Apply;
    hide Acquiring;
    if steps != [] {
      var n := |steps| - 1;
      AcquireGoesOn(s, steps[..n], p);
      RunKeepsInv(s, steps);
      AcquireStep(After(s, steps[..n]), steps[n], p);
      ApplyCount(After(s, steps[..n]), steps[n]);
    } else {
      StartsAcquiring(s.pc[p]);
    }
  }

  lemma StartsAcquiring(c: Pc)
    requires c.AcqStart?
    ensures Acquiring(c)
  {
  }

  /**
    acquire: however the others interleave, when the call returns the caller has the lock, and
    nobody else does; if the lock was not in use, it has not.
   */
  lemma AcquireAcquires(s: State, steps: seq<Step>, p: nat)
    requires Inv(s) && p < |s.pc| && s.pc[p].AcqStart? && Legal(s, steps) && CleanRun(s, steps) && InCall(s, steps, p)
    requires p < |After(s, steps).pc| && After(s, steps).pc[p].Outside?
    ensures var s' := After(s, steps);
      |s'.has| == |s'.pc| && forall q :: 0 <= q < |s'.pc| ==> (s'.has[q] <==> s'.used && q == p)
  {
    hide Legal;
    hide After;
    hide CleanRun;
    hide InCall;
    AcquireGoesOn(s, steps, p);
  }

  // ----- release

  // p gives the lock up, or has done so.
  ghost predicate Letting(s: State, p: nat) {
    && p < |s.pc| == |s.has|
    && if s.has[p] then s.pc[p].RelStart? || s.pc[p].RelTest? else !Acquiring(s.pc[p])
  }

  lemma LettingStep(s: State, step: Step, p: nat)
    requires Inv(s) && Enabled(s, step) && Clean(s, step) && Letting(s, p) && step != Enter(p)
    ensures Letting(Apply(s, step), p)
  {
    hide GoodPlocks;
    hide GoodWaiters;
    hide GoodSpin;
    if step.p == p {
      hide Clean;
      hide GoodUse;
    } else {
      StepMoves(s, step);
      hide Apply;
      hide Enabled;
      hide Inv;
    }
  }

  lemma {:induction false} LettingRun(s: State, steps: seq<Step>, p: nat)
    requires Inv(s) && Legal(s, steps) && CleanRun(s, steps) && Letting(s, p) && Enter(p) !in steps
    ensures Letting(After(s, steps), p)
  {
    hide Inv;
    hide Clean;
    hide Enabled;
    hide Apply;
    hide Letting;
    if steps != [] {
      var n := |steps| - 1;
      LettingRun(s, steps[..n], p);
      RunKeepsInv(s, steps[..n]);
      LettingStep(After(s, steps[..n]), steps[n], p);
    }
  }

  /**
    release: an owner that has called it and is outside the protocol again, without having called
    acquire, does not have the lock.
   */
  lemma ReleaseReleases(s: State, steps: seq<Step>, p: nat)
    requires Inv(s) && Legal(s, steps) && CleanRun(s, steps) && p < |s.pc| && s.has[p] && s.pc[p].RelStart? && Enter(p) !in steps
    requires p < |After(s, steps).pc| == |After(s, steps).has| && After(s, steps).pc[p].Outside?
    ensures !After(s, steps).has[p] && After(s, steps).owner != p
  {
    hide Legal;
    hide After;
    hide CleanRun;
    LettingRun(s, steps, p);
    RunKeepsInv(s, steps);
  }

  predicate Releasing(c: Pc) {
    c.Waking? || c.WakingLocked? || c.RelEnd?
  }

  // A release by the owner: where it is, and that it ends with a free lock nobody is asleep on.
  lemma ReleaseStep(s: State, step: Step, p: nat)
    requires Inv(s) && Enabled(s, step) && Clean(s, step) && p < |s.pc|
    requires (s.has[p] && (s.pc[p].RelStart? || s.pc[p].RelTest?)) || Releasing(s.pc[p])
    ensures var s' := Apply(s, step);
      || (s'.has[p] && (s'.pc[p].RelStart? || s'.pc[p].RelTest?))
      || Releasing(s'.pc[p])
      || (s'.pc[p].Outside? && !Locked(s') && s'.spin == -1 && forall q :: 0 <= q < |s'.pc| ==> !Waiting(s'.pc[q]))
  {
    hide GoodPlocks;
    assert HoldsSpin(s.pc[p]) <==> s.spin == p;
    StepMoves(s, step);
  }

  lemma {:induction false} ReleaseGoesOn(s: State, steps: seq<Step>, p: nat)
    requires Inv(s) && p < |s.pc| && s.has[p] && s.pc[p].RelStart? && Legal(s, steps) && CleanRun(s, steps) && InCall(s, steps, p)
    ensures var s' := After(s, steps);
      && Inv(s') && p < |s'.pc| == |s'.has|
      && (|| (s'.has[p] && (s'.pc[p].RelStart? || s'.pc[p].RelTest?))
          || Releasing(s'.pc[p])
          || (s'.pc[p].Outside? && !Locked(s') && s'.spin == -1 && forall q :: 0 <= q < |s'.pc| ==> !Waiting(s'.pc[q])))
  {
    hide Clean;
    hide Enabled;
    hide Apply;
    hide Waiting;
    hide Locked;
    hide GoodSpin;
    hide GoodPlocks;
    hide GoodOwner;
    hide GoodUse;
    hide GoodWaiters;
    if steps != [] {
      var n := |steps| - 1;
      ReleaseGoesOn(s, steps[..n], p);
      RunKeepsInv(s, steps);
      ReleaseStep(After(s, steps[..n]), steps[n], p);
      ApplyCount(After(s, steps[..n]), steps[n]);
    }
  }

  /**
    When the owner's release returns, the lock is free and every process that was asleep on it, or
    about to be, has been woken.
   */
  lemma ReleaseWakesAll(s: State, steps: seq<Step>, p: nat)
    requires Inv(s) && p < |s.pc| && s.has[p] && s.pc[p].RelStart? && Legal(s, steps) && CleanRun(s, steps) && InCall(s, steps, p)
    requires p < |After(s, steps).pc| && After(s, steps).pc[p].Outside?
    ensures var s' := After(s, steps);
      !Locked(s') && s'.spin == -1 && forall q :: 0 <= q < |s'.pc| ==> !Waiting(s'.pc[q])
  {
    hide Legal;
    hide After;
    hide CleanRun;
    hide InCall;
    hide Inv;
    hide Waiting;
    ReleaseGoesOn(s, steps, p);
  }

  /** A process asleep on the lock is woken by kkill and by the wakeup of a release, and by nothing else. */
  lemma WokenExactly(s: State, step: Step, q: nat)
    requires Inv(s) && Enabled(s, step) && q < |s.pc| && s.pc[q].Asleep?
    ensures |Apply(s, step).pc| == |s.pc|
    ensures Apply(s, step).pc[q] ==
      if step == Kill(q) || (step.Run? && s.pc[step.p] == WakingLocked(q)) then Woken else Asleep
  {
    hide GoodSpin;
    hide GoodOwner;
    hide GoodUse;
    hide GoodWaiters;
  }

  // ----- The lock passes on

  // The run goes on from steps to steps' with pieces of code only.
  ghost predicate OnlyRuns(steps: seq<Step>, steps': seq<Step>) {
    |steps| <= |steps'| && steps'[..|steps|] == steps && forall i :: |steps| <= i < |steps'| ==> steps'[i].Run?
  }

  lemma RunsOn(steps: seq<Step>, steps': seq<Step>, steps'': seq<Step>)
    requires OnlyRuns(steps, steps') && OnlyRuns(steps', steps'')
    ensures OnlyRuns(steps, steps'')
  {
    assert steps''[..|steps|] == steps;
    forall i | |steps| <= i < |steps''| ensures steps''[i].Run? {
      if i < |steps'| { assert steps''[i] == steps''[..|steps'|][i]; }
    }
  }

  // p has the lock and is outside the protocol, q is asleep on it.
  ghost predicate Waits(s: State, p: nat, q: nat) {
    Inv(s) && p < |s.pc| && q < |s.pc| && s.has[p] && s.pc[p].Outside? && s.pc[q].Asleep?
  }

  function SpinRank(c: Pc): nat {
    if c.SleepEnter? then 2 else if c.SleepBoth? || c.RelTest? then 1 else 3
  }

  // While the lock is held, whoever holds the spinlock goes on to let it go.
  lemma SpinStep(s: State, p: nat, q: nat)
    requires Waits(s, p, q) && s.spin != -1
    ensures Enabled(s, Run(s.spin))
    ensures var s' := Apply(s, Run(s.spin));
      && Waits(s', p, q)
      && (s'.spin == -1 || (s'.spin == s.spin && SpinRank(s'.pc[s.spin]) < SpinRank(s.pc[s.spin])))
  {
    var r := s.spin;
    assert HoldsSpin(s.pc[r]);
    assert r != p && r != q by { assert !HoldsSpin(s.pc[p]) && !HoldsSpin(s.pc[q]); }
    assert s.plock[r] == -1 || HoldsLockOf(s.pc[s.plock[r]], s.plock[r], r);
    StepKeepsInv(s, Run(r));
  }

  lemma {:induction false} FreeSpin(s: State, steps: seq<Step>, p: nat, q: nat) returns (steps': seq<Step>)
    requires Legal(s, steps) && CleanRun(s, steps) && Waits(After(s, steps), p, q)
    ensures Legal(s, steps') && CleanRun(s, steps') && OnlyRuns(steps, steps')
    ensures Waits(After(s, steps'), p, q) && After(s, steps').spin == -1
    decreases var t := After(s, steps); if 0 <= t.spin < |t.pc| then SpinRank(t.pc[t.spin]) else 0
  {
    hide Legal;
    hide After;
    hide CleanRun;
    hide Enabled;
    hide Apply;
    steps' := steps;
    var t := After(s, steps);
    if t.spin != -1 {
      SpinStep(t, p, q);
      var some := Extend(s, steps, Run(t.spin));
      steps' := FreeSpin(s, some, p, q);
      RunsOn(steps, some, steps');
    }
  }

  // p is in the wakeup of its release, at process k.
  ghost predicate Wakes(s: State, p: nat, q: nat, k: nat) {
    && Inv(s) && p < |s.pc| && q < |s.pc| && p != q && s.used && !s.has[p]
    && s.pc[p] == Waking(k) && k <= |s.pc| && if k <= q then s.pc[q].Asleep? else s.pc[q].Woken?
  }

  // A process whose p->lock the wakeup finds taken holds it itself, and lets go of it next.
  lemma OwnLock(s: State, p: nat, q: nat, k: nat)
    requires Wakes(s, p, q, k) && k < |s.pc| && k != p && s.plock[k] != -1
    ensures Enabled(s, Run(k)) && Wakes(Apply(s, Run(k)), p, q, k) && Apply(s, Run(k)).plock[k] == -1
  {
    var h := s.plock[k];
    assert HoldsLockOf(s.pc[h], h, k);
    assert HoldsSpin(s.pc[p]) && HoldsSpin(s.pc[h]) <==> s.spin == h;
    assert k != q by { assert HoldsLockOf(s.pc[q], q, q) <==> s.plock[q] == q; }
    StepKeepsInv(s, Run(k));
  }

  lemma WakeOne(s: State, p: nat, q: nat, k: nat)
    requires Wakes(s, p, q, k) && k < |s.pc| && (k == p || s.plock[k] == -1)
    ensures Enabled(s, Run(p))
    ensures var s1 := Apply(s, Run(p));
      if k == p then Wakes(s1, p, q, k + 1) else Enabled(s1, Run(p)) && Wakes(Apply(s1, Run(p)), p, q, k + 1)
  {
    var s1 := Apply(s, Run(p));
    StepKeepsInv(s, Run(p));
    if k != p {
      StepKeepsInv(s1, Run(p));
    }
  }

  lemma WakeLast(s: State, p: nat, q: nat)
    requires Wakes(s, p, q, |s.pc|)
    ensures Enabled(s, Run(p)) && Enabled(Apply(s, Run(p)), Run(p))
    ensures var s' := Apply(Apply(s, Run(p)), Run(p));
      Inv(s') && |s'.pc| == |s.pc| && s'.used && s'.spin == -1 && !Locked(s') && !s'.has[p] && s'.pc[q].Woken?
  {
    StepKeepsInv(s, Run(p));
    StepKeepsInv(Apply(s, Run(p)), Run(p));
  }

  // The wakeup gets past process k.
  lemma WakeNext(s: State, steps: seq<Step>, p: nat, q: nat, k: nat) returns (steps': seq<Step>)
    requires Legal(s, steps) && CleanRun(s, steps) && Wakes(After(s, steps), p, q, k) && k < |After(s, steps).pc|
    ensures Legal(s, steps') && CleanRun(s, steps') && OnlyRuns(steps, steps')
    ensures Wakes(After(s, steps'), p, q, k + 1) && |After(s, steps').pc| == |After(s, steps).pc|
  {
    hide Legal;
    hide After;
    hide CleanRun;
    hide Enabled;
    hide Apply;
    hide GoodSpin;
    hide GoodPlocks;
    hide GoodOwner;
    hide GoodUse;
    hide GoodWaiters;
    steps' := steps;
    var t := After(s, steps);
    if k != p && t.plock[k] != -1 {
      OwnLock(t, p, q, k);
      ApplyCount(t, Run(k));
      steps' := Extend(s, steps', Run(k));
      t := After(s, steps');
    }
    WakeOne(t, p, q, k);
    ApplyCount(t, Run(p));
    steps' := Extend(s, steps', Run(p));
    if k != p {
      ApplyCount(After(s, steps'), Run(p));
      steps' := Extend(s, steps', Run(p));
    }
  }

  lemma {:induction false} WakeAll(s: State, steps: seq<Step>, p: nat, q: nat, k: nat) returns (steps': seq<Step>)
    requires Legal(s, steps) && CleanRun(s, steps) && Wakes(After(s, steps), p, q, k)
    ensures Legal(s, steps') && CleanRun(s, steps') && OnlyRuns(steps, steps')
    ensures var s' := After(s, steps');
      && Inv(s') && p < |s'.pc| && q < |s'.pc| && s'.used && s'.spin == -1 && !Locked(s') && !s'.has[p] && s'.pc[q].Woken?
    decreases |After(s, steps).pc| - k
  {
    hide Legal;
    hide After;
    hide CleanRun;
    hide Enabled;
    hide Apply;
    hide GoodSpin;
    hide GoodPlocks;
    hide GoodOwner;
    hide GoodUse;
    hide GoodWaiters;
    if k == |After(s, steps).pc| {
      WakeLast(After(s, steps), p, q);
      steps' := Extend(s, steps, Run(p));
      steps' := Extend(s, steps', Run(p));
    } else {
      var some := WakeNext(s, steps, p, q, k);
      steps' := WakeAll(s, some, p, q, k + 1);
      RunsOn(steps, some, steps');
    }
  }

  // The owner enters its release.
  lemma LeaveStep(s: State, p: nat, q: nat)
    requires Waits(s, p, q) && s.spin == -1
    ensures Enabled(s, Leave(p)) && Enabled(Apply(s, Leave(p)), Run(p)) && Enabled(Apply(Apply(s, Leave(p)), Run(p)), Run(p))
    ensures Wakes(Apply(Apply(Apply(s, Leave(p)), Run(p)), Run(p)), p, q, 0)
  {
    StepKeepsInv(s, Leave(p));
    StepKeepsInv(Apply(s, Leave(p)), Run(p));
    StepKeepsInv(Apply(Apply(s, Leave(p)), Run(p)), Run(p));
  }

  /**
    Hand-over: whenever p has the lock and q is asleep on it, the others can go on so that p's
    release gives q the lock.  Nobody else makes a call, is killed or exits on the way.
   */
  lemma HandOver(s: State, p: nat, q: nat) returns (steps: seq<Step>, m: nat)
    requires Waits(s, p, q)
    ensures Legal(s, steps) && CleanRun(s, steps)
    ensures m < |steps| && forall i :: 0 <= i < |steps| ==> if i == m then steps[i] == Leave(p) else steps[i].Run?
    ensures var s' := After(s, steps);
      q < |s'.has| == |s.has| && s'.has[q] && !s'.has[p] && |s'.pc| == |s.pc| && s'.pc[q].Outside?
  {
    steps := Nothing(s);
    hide Legal;
    hide After;
    hide CleanRun;
    hide Enabled;
    hide Apply;
    steps := FreeSpin(s, steps, p, q);
    m := |steps|;
    LeaveStep(After(s, steps), p, q);
    steps := Extend(s, steps, Leave(p));
    steps := Extend(s, steps, Run(p));
    steps := Extend(s, steps, Run(p));
    steps := WakeAll(s, steps, p, q, 0);
    RestReady(After(s, steps), q);
    steps := Gets(s, steps, q);
    SameCount(s, steps);
  }
}
