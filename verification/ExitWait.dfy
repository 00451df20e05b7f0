/**
  Process creation, exit and wait: kfork, kclone, kexit, reparent, kwait, waitx and kjoin of
  kernel/proc.c.  Any number of processes interleave.  A step is one section of code under one
  lock, so the loops of reparent, wakeup and kwait advance one table slot at a time and other
  processes run in between.
 */
module ExitWait {
  datatype Kind = Wait | Join   // kwait and waitx, or kjoin

  /** What a process-table slot is doing. */
  datatype Pc =
    | Unused                        // state UNUSED
    | Used                          // state USED: allocated, not yet runnable
    | Idle                          // running, outside this protocol
    | ForkAlloc(c: nat)             // has allocated slot c
    | ForkLinked(c: nat)            // has set c's parent
    | Call(kind: Kind)              // in kwait or kjoin, before acquire(&wait_lock)
    | Scan(kind: Kind, k: nat, have: bool) // holds wait_lock, at slot k of the table
    | SleepEnter(kind: Kind)        // about to sleep, still holds wait_lock
    | Window(kind: Kind)            // has released wait_lock, holds p->lock, not SLEEPING yet
    | Asleep(kind: Kind)            // SLEEPING on its own channel
    | Woken(kind: Kind)             // RUNNABLE, before acquire(&wait_lock)
    | ExitStart                     // in kexit, before acquire(&wait_lock)
    | Reparent(k: nat)              // holds wait_lock, reparent at slot k
    | ReparentWake(k: nat, j: nat)  // has given slot k to init, wakeup(initproc) at slot j
    | ExitWake(j: nat)              // wakeup(p->parent) at slot j
    | ExitSet                       // about to become ZOMBIE
    | Exiting                       // ZOMBIE, still on its kernel stack with p->lock held
    | Zombie                        // ZOMBIE, switched out

  /** What became of a process identifier, a history variable. */
  datatype Fate = Burnt | Live(slot: nat) | Dead(slot: nat) | Reaped(event: nat)

  datatype Reap = Reap(pid: nat, reaper: nat)

  datatype State = State(
    pc: seq<Pc>,
    parent: seq<int>,      // -1 for none
    isThread: seq<bool>,
    killed: seq<bool>,
    pid: seq<nat>,
    lock: int,             // the slot holding wait_lock, or -1
    init: nat,
    fate: seq<Fate>,       // indexed by pid; its length is nextpid
    maker: seq<nat>,       // indexed by pid: the pid that forked it
    reaps: seq<Reap>       // every freeproc of an exited process, in order
  )

  datatype Step =
    | Fork(p: nat, c: nat, asThread: bool)
    | ForkFail(p: nat)       // allocproc or the memory copy failed
    | Enter(p: nat, kind: Kind)
    | Exit(p: nat)
    | Kill(p: nat)          // kkill; of an unused slot too, whose pid is 0
    | CopyFails(p: nat)      // copyout of the exit status failed
    | Run(p: nat)

  predicate IsZombie(c: Pc) { c.Exiting? || c.Zombie? }

  predicate Waiting(c: Pc) { c.Window? || c.Asleep? }

  predicate HoldsOwn(c: Pc) { c.Window? || c.Exiting? }

  predicate HoldsWait(c: Pc) {
    c.Scan? || c.SleepEnter? || c.Reparent? || c.ReparentWake? || c.ExitWake? || c.ExitSet?
  }

  predicate Leaving(c: Pc) {
    c.ExitStart? || c.Reparent? || c.ReparentWake? || c.ExitWake? || c.ExitSet?
  }

  predicate Running(c: Pc) { !c.Unused? && !c.Used? && !IsZombie(c) }

  predicate Shape(s: State) {
    && |s.parent| == |s.isThread| == |s.killed| == |s.pid| == |s.pc| && |s.maker| == |s.fate|
    && s.init < |s.pc| && -1 <= s.lock < |s.pc|
  }

  // q is a child that a waiting p looks for.
  predicate IsKid(s: State, q: int, p: int, kind: Kind)
    requires Shape(s) && 0 <= q < |s.pc|
  {
    s.parent[q] == p && (kind.Join? ==> s.isThread[q])
  }

  predicate Enabled(s: State, step: Step) {
    && Shape(s) && step.p < |s.pc|
    && var p := step.p;
    match step
    case Fork(_, c, _) => s.pc[p].Idle? && c < |s.pc| && s.pc[c].Unused?
    case ForkFail(_) => s.pc[p].Idle?
    case Enter(_, _) => s.pc[p].Idle?
    case Exit(_) => s.pc[p].Idle? && p != s.init
    case Kill(_) => !HoldsOwn(s.pc[p])
    case CopyFails(_) =>
      && s.pc[p].Scan? && s.pc[p].kind.Wait? && s.pc[p].k < |s.pc|
      && IsKid(s, s.pc[p].k, p, Wait) && s.pc[s.pc[p].k].Zombie?
    case Run(_) =>
      match s.pc[p]
      case Unused => false
      case Used => false
      case Idle => false
      case Asleep(_) => false
      case Zombie => false
      case ForkAlloc(c) => s.lock == -1 && c < |s.pc|
      case ForkLinked(c) => c < |s.pc|
      case Call(_) => s.lock == -1
      case Woken(_) => s.lock == -1
      case ExitStart => s.lock == -1
      case Scan(kind, k, _) => k < |s.pc| && IsKid(s, k, p, kind) ==> !HoldsOwn(s.pc[k])
      case ReparentWake(_, j) => j < |s.pc| && j != p ==> !HoldsOwn(s.pc[j])
      case ExitWake(j) => j < |s.pc| && j != p ==> !HoldsOwn(s.pc[j])
      case _ => true
  }

  function Settle(fate: seq<Fate>, id: nat, f: Fate): seq<Fate> {
    if id < |fate| then fate[id := f] else fate
  }

  // wakeup at slot j for the processes sleeping on slot chan.
  function WakeAt(s: State, p: nat, j: nat, chan: int): seq<Pc>
    requires j < |s.pc|
  {
    if j != p && s.pc[j].Asleep? && j == chan then s.pc[j := Woken(s.pc[j].kind)] else s.pc
  }

  // kwait or kjoin at slot k.
  function ScanStep(s: State, p: nat): State
    requires Enabled(s, Run(p)) && s.pc[p].Scan?
  {
    var Scan(kind, k, have) := s.pc[p];
    if k >= |s.pc| then
      if !have || s.killed[p] then s.(pc := s.pc[p := Idle], lock := -1)
      else s.(pc := s.pc[p := SleepEnter(kind)])
    else if IsKid(s, k, p, kind) then
      if s.pc[k].Zombie? then
        s.(pc := s.pc[k := Unused][p := Idle], lock := -1, parent := s.parent[k := -1],
           isThread := s.isThread[k := false], killed := s.killed[k := false], pid := s.pid[k := 0],
           fate := Settle(s.fate, s.pid[k], Reaped(|s.reaps|)), reaps := s.reaps + [Reap(s.pid[k], s.pid[p])])
      else s.(pc := s.pc[p := Scan(kind, k + 1, true)])
    else s.(pc := s.pc[p := Scan(kind, k + 1, have)])
  }

  // kexit after it has taken wait_lock.
  function ExitStep(s: State, p: nat): State
    requires Enabled(s, Run(p))
  {
    match s.pc[p]
    case Reparent(k) =>
      if k >= |s.pc| then s.(pc := s.pc[p := ExitWake(0)])
      else if s.parent[k] == p then s.(pc := s.pc[p := ReparentWake(k, 0)], parent := s.parent[k := s.init])
      else s.(pc := s.pc[p := Reparent(k + 1)])
    case ReparentWake(k, j) =>
      if j >= |s.pc| then s.(pc := s.pc[p := Reparent(k + 1)])
      else s.(pc := WakeAt(s, p, j, s.init)[p := ReparentWake(k, j + 1)])
    case ExitWake(j) =>
      if j >= |s.pc| then s.(pc := s.pc[p := ExitSet])
      else s.(pc := WakeAt(s, p, j, s.parent[p])[p := ExitWake(j + 1)])
    case ExitSet => s.(pc := s.pc[p := Exiting], lock := -1, fate := Settle(s.fate, s.pid[p], Dead(p)))
    case _ => s
  }

  function Apply(s: State, step: Step): State
    requires Enabled(s, step)
  {
    var p := step.p;
    match step
    case Fork(_, c, t) =>
      s.(pc := s.pc[c := Used][p := ForkAlloc(c)], isThread := s.isThread[c := t], pid := s.pid[c := |s.fate|],
         fate := s.fate + [Live(c)], maker := s.maker + [s.pid[p]])
    case ForkFail(_) => s.(fate := s.fate + [Burnt], maker := s.maker + [s.pid[p]])
    case Enter(_, kind) => s.(pc := s.pc[p := Call(kind)])
    case Exit(_) => s.(pc := s.pc[p := ExitStart])
    case Kill(_) =>
      s.(killed := s.killed[p := true], pc := if s.pc[p].Asleep? then s.pc[p := Woken(s.pc[p].kind)] else s.pc)
    case CopyFails(_) => s.(pc := s.pc[p := Idle], lock := -1)
    case Run(_) =>
      match s.pc[p]
      case ForkAlloc(c) => s.(pc := s.pc[p := ForkLinked(c)], parent := s.parent[c := p])
      case ForkLinked(c) => s.(pc := s.pc[c := Idle][p := Idle])
      case Call(kind) => s.(pc := s.pc[p := Scan(kind, 0, false)], lock := p)
      case Woken(kind) => s.(pc := s.pc[p := Scan(kind, 0, false)], lock := p)
      case Scan(_, _, _) => ScanStep(s, p)
      case SleepEnter(kind) => s.(pc := s.pc[p := Window(kind)], lock := -1)
      case Window(kind) => s.(pc := s.pc[p := Asleep(kind)])
      case ExitStart => s.(pc := s.pc[p := Reparent(0)], lock := p)
      case Exiting => s.(pc := s.pc[p := Zombie])
      case _ => ExitStep(s, p)
  }

  // ----- The invariant

  ghost predicate GoodLock(s: State)
    requires Shape(s)
  {
    forall p :: 0 <= p < |s.pc| ==> (HoldsWait(s.pc[p]) <==> s.lock == p)
  }

  // How many slots are known not to be children of a process at c.
  function Childless(c: Pc, n: nat): nat {
    match c
    case Reparent(k) => k
    case ReparentWake(k, _) => k + 1
    case ExitWake(_) => n
    case ExitSet => n
    case _ => if Running(c) then 0 else n
  }

  // No process has a parent that is not running, nor one that has already given it away.
  ghost predicate GoodParents(s: State)
    requires Shape(s)
  {
    && Running(s.pc[s.init]) && !Leaving(s.pc[s.init])
    && (forall q :: 0 <= q < |s.pc| ==> -1 <= s.parent[q] < |s.pc|)
    && (forall p, q :: 0 <= p < |s.pc| && 0 <= q < |s.pc| && s.parent[q] == p ==> Childless(s.pc[p], |s.pc|) <= q)
    && (forall q :: 0 <= q < |s.pc| && q != s.init && s.parent[q] == -1 ==> s.pc[q].Unused? || s.pc[q].Used?)
    && (forall q :: 0 <= q < |s.pc| && s.pc[q].Unused? ==> s.parent[q] == -1)
    && (forall p :: 0 <= p < |s.pc| && s.pc[p].ReparentWake? ==> s.pc[p].k < |s.pc|)
  }

  // A process in the middle of a fork is the only one to handle the new slot.
  ghost predicate GoodForks(s: State)
    requires Shape(s)
  {
    && (forall p :: 0 <= p < |s.pc| && s.pc[p].ForkAlloc? ==>
          s.pc[p].c < |s.pc| && s.pc[s.pc[p].c].Used? && s.parent[s.pc[p].c] == -1 && Made(s, s.pc[p].c, p))
    && (forall p :: 0 <= p < |s.pc| && s.pc[p].ForkLinked? ==>
          s.pc[p].c < |s.pc| && s.pc[s.pc[p].c].Used? && s.parent[s.pc[p].c] == p)
  }

  ghost predicate Made(s: State, c: int, p: int)
    requires Shape(s) && 0 <= c < |s.pc| && 0 <= p < |s.pc|
  {
    s.pid[c] < |s.fate| && s.maker[s.pid[c]] == s.pid[p]
  }

  // How far a process at c has looked through the table and found no zombie.
  function Seen(c: Pc, n: nat): nat {
    match c
    case Scan(_, k, _) => k
    case SleepEnter(_) => n
    case _ => 0
  }

  ghost predicate GoodScans(s: State)
    requires Shape(s)
  {
    forall p, q :: 0 <= p < |s.pc| && 0 <= q < |s.pc| && q < Seen(s.pc[p], |s.pc|) && IsKid(s, q, p, s.pc[p].kind) ==>
      !IsZombie(s.pc[q]) && (s.pc[p].Scan? ==> s.pc[p].have)
  }

  // The holder of wait_lock is waking init and has not reached it.
  predicate WakingInit(s: State) {
    0 <= s.lock < |s.pc| && s.pc[s.lock].ReparentWake? && s.pc[s.lock].j <= s.init
  }

  ghost predicate GoodSleepers(s: State)
    requires Shape(s)
  {
    && (forall p, q :: 0 <= p < |s.pc| && 0 <= q < |s.pc| && Waiting(s.pc[p]) && IsKid(s, q, p, s.pc[p].kind) && IsZombie(s.pc[q]) ==>
          p == s.init && WakingInit(s))
    && (forall h :: 0 <= h < |s.pc| && 0 <= s.parent[h] < |s.pc| && Waiting(s.pc[s.parent[h]]) ==>
          !s.pc[h].ExitSet? && (s.pc[h].ExitWake? ==> s.pc[h].j <= s.parent[h]))
  }

  // Every pid has exactly one fate, and the slots and the history agree on it.
  ghost predicate GoodFates(s: State)
    requires Shape(s)
  {
    && (forall q :: 0 <= q < |s.pc| && !s.pc[q].Unused? ==>
          s.pid[q] < |s.fate| && s.fate[s.pid[q]] == (if IsZombie(s.pc[q]) then Dead(q) else Live(q)))
    && (forall id :: 0 <= id < |s.fate| && (s.fate[id].Live? || s.fate[id].Dead?) ==>
          s.fate[id].slot < |s.pc| && !s.pc[s.fate[id].slot].Unused? && s.pid[s.fate[id].slot] == id)
    && (forall id :: 0 <= id < |s.fate| && s.fate[id].Reaped? ==>
          s.fate[id].event < |s.reaps| && s.reaps[s.fate[id].event].pid == id)
    && (forall i :: 0 <= i < |s.reaps| ==>
          s.reaps[i].pid < |s.fate| && s.fate[s.reaps[i].pid] == Reaped(i))
  }

  // A parent is the process that forked the child, or init; so is whoever freed it.
  ghost predicate GoodMakers(s: State)
    requires Shape(s)
  {
    && (forall q :: 0 <= q < |s.pc| && 0 <= s.parent[q] < |s.pc| ==> s.parent[q] == s.init || Made(s, q, s.parent[q]))
    && (forall i :: 0 <= i < |s.reaps| ==>
          s.reaps[i].pid < |s.maker| && (s.reaps[i].reaper == s.maker[s.reaps[i].pid] || s.reaps[i].reaper == s.pid[s.init]))
  }

  ghost predicate Inv(s: State) {
    && Shape(s) && GoodLock(s) && GoodParents(s) && GoodForks(s) && GoodScans(s)
    && GoodSleepers(s) && GoodFates(s) && GoodMakers(s)
  }

  // userinit: init runs, everything else is unused.
  ghost predicate Init(s: State) {
    && Shape(s) && s.lock == -1
    && s.pc[s.init].Idle? && (forall q :: 0 <= q < |s.pc| && q != s.init ==> s.pc[q].Unused?)
    && (forall q :: 0 <= q < |s.pc| ==> s.parent[q] == -1)
    && s.pid[s.init] == 1 && s.fate == [Burnt, Live(s.init)] && s.reaps == []
  }

  lemma InitTable(s: State)
    requires Init(s)
    ensures GoodLock(s) && GoodParents(s) && GoodForks(s) && GoodScans(s) && GoodSleepers(s)
  {
  }

  lemma InitInv(s: State)
    requires Init(s)
    ensures Inv(s)
  {
    hide GoodLock;
    hide GoodParents;
    hide GoodForks;
    hide GoodScans;
    hide GoodSleepers;
    InitTable(s);
  }

  // ----- What a step may change

  // p moves; any other slot is woken, taken by a fork, started or freed, or stays as it is.
  ghost predicate SlotMoves(s: State, s': State, p: int, q: int)
    requires Shape(s) && Shape(s') && |s'.pc| == |s.pc| && 0 <= p < |s.pc| && 0 <= q < |s.pc|
  {
    var c, c' := s.pc[q], s'.pc[q];
    && (q != p ==>
          || c' == c
          || (c.Asleep? && c' == Woken(c.kind))
          || (c.Unused? && c'.Used? && s'.pc[p] == ForkAlloc(q))
          || (c.Used? && c'.Idle? && s.pc[p] == ForkLinked(q))
          || (c.Zombie? && c'.Unused? && s.parent[q] == p && s'.parent[q] == -1))
    && (q == p ==> (c'.Unused? <==> c.Unused?) && (c'.Used? <==> c.Used?))
    && (!c.Unused? && !c'.Unused? ==> s'.isThread[q] == s.isThread[q] && s'.pid[q] == s.pid[q])
    && (s'.parent[q] != s.parent[q] ==>
          || (s'.parent[q] == -1 && c.Zombie? && c'.Unused? && q != p)
          || (s'.parent[q] == p && s.pc[p] == ForkAlloc(q) && s'.pc[p] == ForkLinked(q) && c' == c)
          || (s'.parent[q] == s.init && s.parent[q] == p && s.pc[p] == Reparent(q) && s'.pc[p] == ReparentWake(q, 0)))
  }

  ghost predicate Moves(s: State, s': State, p: int) {
    && Shape(s) && Shape(s') && |s'.pc| == |s.pc| && s'.init == s.init && 0 <= p < |s.pc|
    && forall q :: 0 <= q < |s.pc| ==> SlotMoves(s, s', p, q)
  }

  lemma ScanMoves(s: State, p: nat)
    requires Enabled(s, Run(p)) && s.pc[p].Scan?
    ensures Moves(s, ScanStep(s, p), p)
  {
  }

  lemma ExitMoves(s: State, p: nat)
    requires Enabled(s, Run(p))
    ensures Moves(s, ExitStep(s, p), p)
  {
  }

  lemma StepMoves(s: State, step: Step)
    requires Inv(s) && Enabled(s, step)
    ensures Moves(s, Apply(s, step), step.p)
  {
    hide GoodLock;
    hide GoodParents;
    hide GoodScans;
    hide GoodSleepers;
    hide GoodFates;
    hide GoodMakers;
    hide ScanStep;
    hide ExitStep;
    if step.Run? {
      if s.pc[step.p].Scan? { ScanMoves(s, step.p); } else { ExitMoves(s, step.p); }
    }
  }

  // ----- wait_lock

  ghost predicate LockMove(s: State, s': State, p: int)
    requires Moves(s, s', p)
  {
    || (s'.lock == s.lock && (HoldsWait(s'.pc[p]) <==> HoldsWait(s.pc[p])))
    || (s.lock == -1 && s'.lock == p && HoldsWait(s'.pc[p]))
    || (s.lock == p && s'.lock == -1 && !HoldsWait(s'.pc[p]))
  }

  lemma LockKept(s: State, s': State, p: int)
    requires Moves(s, s', p) && GoodLock(s) && LockMove(s, s', p)
    ensures GoodLock(s')
  {
    forall q | 0 <= q < |s.pc| ensures HoldsWait(s'.pc[q]) <==> s'.lock == q {
      assert SlotMoves(s, s', p, q);
    }
  }

  // ----- Parents

  ghost predicate ParentMove(s: State, s': State, p: int)
    requires Moves(s, s', p)
  {
    var n := |s.pc|;
    && (|| Childless(s'.pc[p], n) <= Childless(s.pc[p], n)
        || n <= Childless(s.pc[p], n)
        || (Childless(s'.pc[p], n) == Childless(s.pc[p], n) + 1 && s'.parent[Childless(s.pc[p], n)] != p))
    && (p == s.init ==> Running(s'.pc[p]) && !Leaving(s'.pc[p]))
    && (s'.pc[p].ReparentWake? ==> s'.pc[p].k < n)
  }

  lemma SlotParentKept(s: State, s': State, p: int, q: int)
    requires Moves(s, s', p) && GoodParents(s) && GoodForks(s) && ParentMove(s, s', p) && 0 <= q < |s.pc|
    ensures -1 <= s'.parent[q] < |s.pc|
    ensures q != s.init && s'.parent[q] == -1 ==> s'.pc[q].Unused? || s'.pc[q].Used?
    ensures s'.pc[q].Unused? ==> s'.parent[q] == -1
    ensures s'.pc[q].ReparentWake? ==> s'.pc[q].k < |s.pc|
    ensures q == s.init ==> Running(s'.pc[q]) && !Leaving(s'.pc[q])
  {
    assert SlotMoves(s, s', p, q);
  }

  lemma ChildlessKept(s: State, s': State, p: int, q: int)
    requires Moves(s, s', p) && GoodParents(s) && GoodForks(s) && ParentMove(s, s', p)
    requires 0 <= q < |s.pc| && 0 <= s'.parent[q] < |s.pc|
    ensures Childless(s'.pc[s'.parent[q]], |s.pc|) <= q
  {
    assert SlotMoves(s, s', p, q);
    assert SlotMoves(s, s', p, s'.parent[q]);
  }

  lemma ParentsKept(s: State, s': State, p: int)
    requires Moves(s, s', p) && GoodParents(s) && GoodForks(s) && ParentMove(s, s', p)
    ensures GoodParents(s')
  {
    hide SlotMoves;
    hide GoodForks;
    forall q | 0 <= q < |s.pc|
      ensures -1 <= s'.parent[q] < |s.pc|
      ensures q != s.init && s'.parent[q] == -1 ==> s'.pc[q].Unused? || s'.pc[q].Used?
      ensures s'.pc[q].Unused? ==> s'.parent[q] == -1
      ensures s'.pc[q].ReparentWake? ==> s'.pc[q].k < |s.pc|
      ensures q == s.init ==> Running(s'.pc[q]) && !Leaving(s'.pc[q])
    {
      SlotParentKept(s, s', p, q);
    }
    forall q | 0 <= q < |s.pc| && 0 <= s'.parent[q] < |s.pc|
      ensures Childless(s'.pc[s'.parent[q]], |s.pc|) <= q
    {
      ChildlessKept(s, s', p, q);
    }
  }

  // ----- Forks

  // The identifiers in the history only grow.
  ghost predicate Grows(s: State, s': State)
    requires Shape(s) && Shape(s')
  {
    s.maker <= s'.maker
  }

  ghost predicate ForkMove(s: State, s': State, p: int)
    requires Moves(s, s', p)
  {
    var c' := s'.pc[p];
    && Grows(s, s')
    && (c'.ForkAlloc? ==> c'.c < |s.pc| && s'.pc[c'.c].Used? && s'.parent[c'.c] == -1 && Made(s', c'.c, p))
    && (c'.ForkLinked? ==> c'.c < |s.pc| && s'.pc[c'.c].Used? && s'.parent[c'.c] == p)
    && Acts(s, s', p)
  }

  // A slot that is not in use does nothing.
  ghost predicate Acts(s: State, s': State, p: int)
    requires Moves(s, s', p)
  {
    s.pc[p].Unused? ==> s'.pc == s.pc && s'.parent == s.parent && s'.pid == s.pid
  }

  lemma SamePid(s: State, p: int, q: int)
    requires Shape(s) && GoodFates(s) && 0 <= p < |s.pc| && 0 <= q < |s.pc|
    requires !s.pc[p].Unused? && !s.pc[q].Unused? && s.pid[p] == s.pid[q]
    ensures p == q
  {
  }

  lemma ForkKept(s: State, s': State, p: int, r: int)
    requires Moves(s, s', p) && GoodForks(s) && GoodFates(s) && ForkMove(s, s', p)
    requires 0 <= r < |s.pc| && r != p && (s'.pc[r].ForkAlloc? || s'.pc[r].ForkLinked?)
    ensures s'.pc[r].c < |s.pc| && s'.pc[s'.pc[r].c].Used?
    ensures s'.pc[r].ForkAlloc? ==> s'.parent[s'.pc[r].c] == -1 && Made(s', s'.pc[r].c, r)
    ensures s'.pc[r].ForkLinked? ==> s'.parent[s'.pc[r].c] == r
  {
    hide GoodFates;
    assert SlotMoves(s, s', p, r);
    var c := s.pc[r].c;
    assert SlotMoves(s, s', p, c);
    if s.pc[r].ForkAlloc? && s.pc[p] == ForkAlloc(c) { SamePid(s, p, r); }
  }

  lemma ForksKept(s: State, s': State, p: int)
    requires Moves(s, s', p) && GoodForks(s) && GoodFates(s) && ForkMove(s, s', p)
    ensures GoodForks(s')
  {
    hide GoodFates;
    hide SlotMoves;
    forall r | 0 <= r < |s.pc| && r != p && (s'.pc[r].ForkAlloc? || s'.pc[r].ForkLinked?)
      ensures s'.pc[r].c < |s.pc| && s'.pc[s'.pc[r].c].Used?
      ensures s'.pc[r].ForkAlloc? ==> s'.parent[s'.pc[r].c] == -1 && Made(s', s'.pc[r].c, r)
      ensures s'.pc[r].ForkLinked? ==> s'.parent[s'.pc[r].c] == r
    {
      ForkKept(s, s', p, r);
    }
  }

  // ----- Scans

  // Becoming a zombie and giving children away need wait_lock.
  ghost predicate LockedMove(s: State, s': State, p: int)
    requires Moves(s, s', p)
  {
    && (IsZombie(s'.pc[p]) && !IsZombie(s.pc[p]) ==> s.pc[p].ExitSet?)
    && (Waiting(s'.pc[p]) && !Waiting(s.pc[p]) ==> s.pc[p].SleepEnter?)
  }

  ghost predicate ScanMove(s: State, s': State, p: int)
    requires Moves(s, s', p)
  {
    var c, c', n := s.pc[p], s'.pc[p], |s.pc|;
    Seen(c', n) > 0 ==>
      && s' == s.(pc := s'.pc, killed := s'.killed) && s'.pc == s.pc[p := c']
      && (c.Scan? || c.SleepEnter?) && c'.kind == c.kind
      && (|| c' == c
          || (c.Scan? && n <= c.k && c.have && c'.SleepEnter?)
          || (c.Scan? && c.k < n && c'.Scan? && c'.k == c.k + 1 && (c.have ==> c'.have)
              && (IsKid(s, c.k, p, c.kind) ==> !IsZombie(s.pc[c.k]) && c'.have)))
  }

  lemma ScanKept(s: State, s': State, p: int, r: int, q: int)
    requires Moves(s, s', p) && GoodScans(s) && GoodLock(s) && GoodParents(s) && ScanMove(s, s', p) && LockedMove(s, s', p)
    requires 0 <= r < |s.pc| && 0 <= q < |s.pc| && q < Seen(s'.pc[r], |s.pc|) && IsKid(s', q, r, s'.pc[r].kind)
    ensures !IsZombie(s'.pc[q]) && (s'.pc[r].Scan? ==> s'.pc[r].have)
  {
    hide Childless;
    assert SlotMoves(s, s', p, r);
    assert SlotMoves(s, s', p, q);
    if r != p {
      assert HoldsWait(s.pc[r]);
      assert HoldsWait(s.pc[p]) <==> s.lock == p;
      assert IsKid(s, q, r, s.pc[r].kind);
    } else if q < Seen(s.pc[r], |s.pc|) {
      assert IsKid(s, q, r, s.pc[r].kind);
    }
  }

  lemma ScansKept(s: State, s': State, p: int)
    requires Moves(s, s', p) && GoodScans(s) && GoodLock(s) && GoodParents(s) && ScanMove(s, s', p) && LockedMove(s, s', p)
    ensures GoodScans(s')
  {
    hide Moves;
    hide SlotMoves;
    hide GoodLock;
    hide GoodParents;
    hide ScanMove;
    hide LockedMove;
    SameTable(s, s', p);
    forall r, q | 0 <= r < |s'.pc| && 0 <= q < |s'.pc| && q < Seen(s'.pc[r], |s'.pc|) && IsKid(s', q, r, s'.pc[r].kind)
      ensures !IsZombie(s'.pc[q]) && (s'.pc[r].Scan? ==> s'.pc[r].have)
    {
      ScanKept(s, s', p, r, q);
    }
  }

  lemma SameTable(s: State, s': State, p: int)
    requires Moves(s, s', p)
    ensures Shape(s) && Shape(s') && |s'.pc| == |s.pc| && s'.init == s.init && 0 <= p < |s.pc|
  {
  }

  // ----- Sleepers

  ghost predicate SleepMove(s: State, s': State, p: int)
    requires Moves(s, s', p)
  {
    var c, c' := s.pc[p], s'.pc[p];
    && (c.ReparentWake? && c.j <= s.init ==>
          (c'.ReparentWake? && c'.j <= s.init && s'.lock == p) || !Waiting(s'.pc[s.init]))
    && (c'.ReparentWake? && !c.ReparentWake? ==> c'.j == 0 && s'.lock == p)
    && (Waiting(c') ==> (Waiting(c) || c.SleepEnter?) && c'.kind == c.kind)
    && (Waiting(c') && c.SleepEnter? ==> s' == s.(pc := s.pc[p := c'], lock := -1))
  }

  ghost predicate ExitMove(s: State, s': State, p: int)
    requires Moves(s, s', p)
  {
    var c, c' := s.pc[p], s'.pc[p];
    && (c'.ExitSet? ==> c'== c || (c.ExitWake? && |s.pc| <= c.j))
    && (c'.ExitWake? && c'.j != 0 && c' != c ==>
          c.ExitWake? && c'.j == c.j + 1 && (s.parent[p] == c.j < |s.pc| ==> !Waiting(s'.pc[c.j])))
  }

  lemma SleeperKept(s: State, s': State, p: int, r: int, q: int)
    requires Moves(s, s', p) && GoodScans(s) && GoodLock(s) && GoodParents(s) && GoodSleepers(s)
    requires LockMove(s, s', p) && LockedMove(s, s', p) && SleepMove(s, s', p)
    requires 0 <= r < |s.pc| && 0 <= q < |s.pc|
    requires Waiting(s'.pc[r]) && IsKid(s', q, r, s'.pc[r].kind) && IsZombie(s'.pc[q])
    ensures r == s'.init && WakingInit(s')
  {
    hide Childless;
    assert SlotMoves(s, s', p, r);
    assert SlotMoves(s, s', p, q);
    if IsKid(s, q, r, s.pc[r].kind) && IsZombie(s.pc[q]) && Waiting(s.pc[r]) {
      assert SlotMoves(s, s', p, s.lock);
    }
  }

  lemma ExiterKept(s: State, s': State, p: int, h: int)
    requires Moves(s, s', p) && GoodLock(s) && GoodParents(s) && GoodSleepers(s)
    requires LockedMove(s, s', p) && SleepMove(s, s', p) && ExitMove(s, s', p)
    requires 0 <= h < |s.pc| && 0 <= s'.parent[h] < |s.pc| && Waiting(s'.pc[s'.parent[h]])
    ensures !s'.pc[h].ExitSet? && (s'.pc[h].ExitWake? ==> s'.pc[h].j <= s'.parent[h])
  {
    hide Childless;
    assert SlotMoves(s, s', p, h);
    assert SlotMoves(s, s', p, s'.parent[h]);
    assert HoldsWait(s.pc[h]) <==> s.lock == h;
    assert HoldsWait(s.pc[p]) <==> s.lock == p;
  }

  lemma SleepersKept(s: State, s': State, p: int)
    requires Moves(s, s', p) && GoodScans(s) && GoodLock(s) && GoodParents(s) && GoodSleepers(s)
    requires LockMove(s, s', p) && LockedMove(s, s', p) && SleepMove(s, s', p) && ExitMove(s, s', p)
    ensures GoodSleepers(s')
  {
    hide Moves;
    hide GoodScans;
    hide GoodLock;
    hide GoodParents;
    hide LockMove;
    hide LockedMove;
    hide SleepMove;
    hide ExitMove;
    SameTable(s, s', p);
    forall r, q | 0 <= r < |s'.pc| && 0 <= q < |s'.pc| && Waiting(s'.pc[r]) && IsKid(s', q, r, s'.pc[r].kind) && IsZombie(s'.pc[q])
      ensures r == s'.init && WakingInit(s')
    {
      SleeperKept(s, s', p, r, q);
    }
    forall h | 0 <= h < |s'.pc| && 0 <= s'.parent[h] < |s'.pc| && Waiting(s'.pc[s'.parent[h]])
      ensures !s'.pc[h].ExitSet? && (s'.pc[h].ExitWake? ==> s'.pc[h].j <= s'.parent[h])
    {
      ExiterKept(s, s', p, h);
    }
  }

  // ----- Identifiers

  // The history stays as it is, gains an identifier, or settles one.
  ghost predicate SlotsSame(s: State, s': State)
    requires Shape(s) && Shape(s') && |s'.pc| == |s.pc|
  {
    && s'.pid == s.pid
    && forall q :: 0 <= q < |s.pc| ==>
         (s'.pc[q].Unused? <==> s.pc[q].Unused?) && (IsZombie(s'.pc[q]) <==> IsZombie(s.pc[q]))
  }

  ghost predicate OthersSame(s: State, s': State, c: int)
    requires Shape(s) && Shape(s') && |s'.pc| == |s.pc| && 0 <= c < |s.pc|
  {
    forall q :: 0 <= q < |s.pc| && q != c ==>
      s'.pid[q] == s.pid[q] && (s'.pc[q].Unused? <==> s.pc[q].Unused?) && (IsZombie(s'.pc[q]) <==> IsZombie(s.pc[q]))
  }

  lemma QuietFates(s: State, s': State)
    requires Shape(s) && Shape(s') && |s'.pc| == |s.pc| && GoodFates(s) && SlotsSame(s, s')
    requires (s'.fate == s.fate || s'.fate == s.fate + [Burnt]) && s'.reaps == s.reaps
    ensures GoodFates(s')
  {
    forall q | 0 <= q < |s.pc| && !s'.pc[q].Unused?
      ensures s'.pid[q] < |s'.fate| && s'.fate[s'.pid[q]] == (if IsZombie(s'.pc[q]) then Dead(q) else Live(q))
    {
    }
  }

  lemma BirthFates(s: State, s': State, c: nat)
    requires Shape(s) && Shape(s') && |s'.pc| == |s.pc| && GoodFates(s) && c < |s.pc| && OthersSame(s, s', c)
    requires s.pc[c].Unused? && s'.pc[c].Used? && s'.pid[c] == |s.fate|
    requires s'.fate == s.fate + [Live(c)] && s'.reaps == s.reaps
    ensures GoodFates(s')
  {
  }

  lemma DeathFates(s: State, s': State, p: nat)
    requires Shape(s) && Shape(s') && |s'.pc| == |s.pc| && GoodFates(s) && p < |s.pc| && OthersSame(s, s', p)
    requires Running(s.pc[p]) && IsZombie(s'.pc[p]) && s'.pid[p] == s.pid[p]
    requires s'.fate == Settle(s.fate, s.pid[p], Dead(p)) && s'.reaps == s.reaps
    ensures GoodFates(s')
  {
  }

  lemma ReapFates(s: State, s': State, k: nat, reaper: nat)
    requires Shape(s) && Shape(s') && |s'.pc| == |s.pc| && GoodFates(s) && k < |s.pc| && OthersSame(s, s', k)
    requires s.pc[k].Zombie? && s'.pc[k].Unused?
    requires s'.fate == Settle(s.fate, s.pid[k], Reaped(|s.reaps|)) && s'.reaps == s.reaps + [Reap(s.pid[k], reaper)]
    ensures GoodFates(s')
  {
  }

  // ----- Makers

  // Whatever p frees is a zombie child of its own.
  ghost predicate ReapMove(s: State, s': State, p: int)
    requires Moves(s, s', p)
  {
    || s'.reaps == s.reaps
    || (s.pc[p].Scan? && s.pc[p].k < |s.pc| && s.parent[s.pc[p].k] == p && s.pc[s.pc[p].k].Zombie?
        && s'.reaps == s.reaps + [Reap(s.pid[s.pc[p].k], s.pid[p])])
  }

  lemma ReapersKept(s: State, s': State, p: int, i: int)
    requires Moves(s, s', p) && GoodParents(s) && GoodFates(s) && GoodMakers(s) && Grows(s, s') && ReapMove(s, s', p)
    requires 0 <= i < |s'.reaps| && Acts(s, s', p)
    ensures s'.reaps[i].pid < |s'.maker|
    ensures s'.reaps[i].reaper == s'.maker[s'.reaps[i].pid] || s'.reaps[i].reaper == s'.pid[s'.init]
  {
    assert SlotMoves(s, s', p, s.init);
    if i < |s.reaps| {
      assert s'.maker[s.reaps[i].pid] == s.maker[s.reaps[i].pid];
    } else {
      var k := s.pc[p].k;
      assert s'.maker[s.pid[k]] == s.maker[s.pid[k]];
    }
  }

  lemma MakersKept(s: State, s': State, p: int)
    requires Moves(s, s', p) && GoodParents(s) && GoodForks(s) && GoodFates(s) && GoodMakers(s) && Grows(s, s')
    requires ReapMove(s, s', p) && Acts(s, s', p)
    ensures GoodMakers(s')
  {
    hide Moves;
    hide GoodParents;
    hide GoodForks;
    hide GoodFates;
    hide Grows;
    hide ReapMove;
    SameTable(s, s', p);
    forall q | 0 <= q < |s'.pc| && 0 <= s'.parent[q] < |s'.pc|
      ensures s'.parent[q] == s'.init || Made(s', q, s'.parent[q])
    {
      MakerKept(s, s', p, q);
    }
    forall i | 0 <= i < |s'.reaps|
      ensures s'.reaps[i].pid < |s'.maker|
      ensures s'.reaps[i].reaper == s'.maker[s'.reaps[i].pid] || s'.reaps[i].reaper == s'.pid[s'.init]
    {
      ReapersKept(s, s', p, i);
    }
  }

  lemma MakerKept(s: State, s': State, p: int, q: int)
    requires Moves(s, s', p) && GoodParents(s) && GoodForks(s) && GoodMakers(s) && Grows(s, s')
    requires Acts(s, s', p)
    requires 0 <= q < |s.pc| && 0 <= s'.parent[q] < |s.pc|
    ensures s'.parent[q] == s'.init || Made(s', q, s'.parent[q])
  {
    assert SlotMoves(s, s', p, q);
    assert SlotMoves(s, s', p, s'.parent[q]);
  }

  // ----- Every step keeps the invariant

  predicate InLoop(c: Pc) { c.Scan? || (Leaving(c) && !c.ExitStart?) }

  lemma StepLock(s: State, step: Step, s': State)
    requires Inv(s) && Enabled(s, step) && s' == Apply(s, step) && Moves(s, s', step.p)
    ensures LockMove(s, s', step.p) && LockedMove(s, s', step.p)
  {
    hide Moves;
    hide GoodParents;
    hide GoodForks;
    hide GoodScans;
    hide GoodSleepers;
    hide GoodFates;
    hide GoodMakers;
    SameTable(s, s', step.p);
  }

  lemma ParentFacts(s: State, p: nat)
    requires Shape(s) && GoodParents(s) && p < |s.pc|
    ensures Running(s.pc[s.init]) && !Leaving(s.pc[s.init])
    ensures s.pc[p].ReparentWake? ==> s.pc[p].k < |s.pc|
    ensures s.pc[p].Unused? ==> s.parent[p] == -1
  {
  }

  lemma ForkFacts(s: State, p: nat)
    requires Shape(s) && GoodForks(s) && p < |s.pc|
    ensures s.pc[p].ForkAlloc? || s.pc[p].ForkLinked? ==> s.pc[p].c < |s.pc| && s.pc[s.pc[p].c].Used?
    ensures s.pc[p].ForkAlloc? ==> s.parent[s.pc[p].c] == -1 && Made(s, s.pc[p].c, p)
    ensures s.pc[p].ForkLinked? ==> s.parent[s.pc[p].c] == p
  {
  }

  lemma LoopParents(s: State, p: nat, s': State)
    requires Enabled(s, Run(p)) && Moves(s, s', p)
    requires InLoop(s.pc[p]) && s' == (if s.pc[p].Scan? then ScanStep(s, p) else ExitStep(s, p))
    requires Leaving(s.pc[p]) ==> p != s.init
    requires s.pc[p].ReparentWake? ==> s.pc[p].k < |s.pc|
    ensures ParentMove(s, s', p)
  {
    hide Moves;
    SameTable(s, s', p);
  }

  lemma StepParents(s: State, step: Step, s': State)
    requires Inv(s) && Enabled(s, step) && s' == Apply(s, step) && Moves(s, s', step.p)
    ensures ParentMove(s, s', step.p)
  {
    hide Moves;
    hide GoodLock;
    hide GoodParents;
    hide GoodForks;
    hide GoodScans;
    hide GoodSleepers;
    hide GoodFates;
    hide GoodMakers;
    hide ScanStep;
    hide ExitStep;
    SameTable(s, s', step.p);
    ParentFacts(s, step.p);
    if step.Run? && InLoop(s.pc[step.p]) { LoopParents(s, step.p, s'); }
  }

  lemma LoopForks(s: State, p: nat, s': State)
    requires Enabled(s, Run(p)) && Moves(s, s', p)
    requires InLoop(s.pc[p]) && s' == (if s.pc[p].Scan? then ScanStep(s, p) else ExitStep(s, p))
    ensures ForkMove(s, s', p)
  {
    hide Moves;
    SameTable(s, s', p);
  }

  lemma StepForks(s: State, step: Step, s': State)
    requires Inv(s) && Enabled(s, step) && s' == Apply(s, step) && Moves(s, s', step.p)
    ensures ForkMove(s, s', step.p)
  {
    hide Moves;
    hide GoodLock;
    hide GoodParents;
    hide GoodForks;
    hide GoodScans;
    hide GoodSleepers;
    hide GoodFates;
    hide GoodMakers;
    hide ScanStep;
    hide ExitStep;
    SameTable(s, s', step.p);
    ForkFacts(s, step.p);
    if step.Fork? { ParentFacts(s, step.c); }
    if step.Run? && InLoop(s.pc[step.p]) { LoopForks(s, step.p, s'); }
  }

  lemma ScanScans(s: State, p: nat, s': State)
    requires Enabled(s, Run(p)) && s.pc[p].Scan? && s' == ScanStep(s, p) && Moves(s, s', p)
    ensures ScanMove(s, s', p)
  {
    hide Moves;
    SameTable(s, s', p);
  }

  lemma StepScans(s: State, step: Step, s': State)
    requires Inv(s) && Enabled(s, step) && s' == Apply(s, step) && Moves(s, s', step.p)
    ensures ScanMove(s, s', step.p)
  {
    hide Moves;
    hide GoodLock;
    hide GoodParents;
    hide GoodForks;
    hide GoodScans;
    hide GoodSleepers;
    hide GoodFates;
    hide GoodMakers;
    hide ScanStep;
    SameTable(s, s', step.p);
    if step.Run? && s.pc[step.p].Scan? { ScanScans(s, step.p, s'); }
  }

  lemma LoopSleepers(s: State, p: nat, s': State)
    requires Enabled(s, Run(p)) && Moves(s, s', p) && GoodLock(s)
    requires InLoop(s.pc[p]) && s' == (if s.pc[p].Scan? then ScanStep(s, p) else ExitStep(s, p))
    ensures SleepMove(s, s', p) && ExitMove(s, s', p)
  {
    hide Moves;
    SameTable(s, s', p);
  }

  lemma StepSleepers(s: State, step: Step, s': State)
    requires Inv(s) && Enabled(s, step) && s' == Apply(s, step) && Moves(s, s', step.p)
    ensures SleepMove(s, s', step.p) && ExitMove(s, s', step.p)
  {
    hide Moves;
    hide GoodParents;
    hide GoodForks;
    hide GoodScans;
    hide GoodSleepers;
    hide GoodFates;
    hide GoodMakers;
    hide ScanStep;
    hide ExitStep;
    SameTable(s, s', step.p);
    if step.Run? && InLoop(s.pc[step.p]) { LoopSleepers(s, step.p, s'); }
  }

  lemma StepReaps(s: State, step: Step, s': State)
    requires Inv(s) && Enabled(s, step) && s' == Apply(s, step) && Moves(s, s', step.p)
    ensures ReapMove(s, s', step.p)
  {
    hide Moves;
    hide GoodLock;
    hide GoodParents;
    hide GoodForks;
    hide GoodScans;
    hide GoodSleepers;
    hide GoodFates;
    hide GoodMakers;
    SameTable(s, s', step.p);
  }

  predicate Reaps(s: State, step: Step)
    requires Enabled(s, step)
  {
    && step.Run? && s.pc[step.p].Scan? && s.pc[step.p].k < |s.pc|
    && IsKid(s, s.pc[step.p].k, step.p, s.pc[step.p].kind) && s.pc[s.pc[step.p].k].Zombie?
  }

  lemma QuietLoop(s: State, p: nat, s': State)
    requires Enabled(s, Run(p)) && !Reaps(s, Run(p)) && !s.pc[p].ExitSet?
    requires InLoop(s.pc[p]) && s' == (if s.pc[p].Scan? then ScanStep(s, p) else ExitStep(s, p))
    ensures Shape(s') && |s'.pc| == |s.pc| && SlotsSame(s, s') && s'.fate == s.fate && s'.reaps == s.reaps
  {
  }

  lemma QuietStep(s: State, step: Step, s': State)
    requires Shape(s) && GoodForks(s) && Enabled(s, step) && s' == Apply(s, step)
    requires !step.Fork? && !Reaps(s, step) && !(step.Run? && s.pc[step.p].ExitSet?)
    ensures Shape(s') && |s'.pc| == |s.pc| && SlotsSame(s, s')
    ensures (s'.fate == s.fate || s'.fate == s.fate + [Burnt]) && s'.reaps == s.reaps
  {
    hide GoodForks;
    hide ScanStep;
    hide ExitStep;
    ForkFacts(s, step.p);
    if step.Run? && InLoop(s.pc[step.p]) { QuietLoop(s, step.p, s'); }
  }

  lemma StepFates(s: State, step: Step, s': State)
    requires Inv(s) && Enabled(s, step) && s' == Apply(s, step)
    ensures Shape(s') && GoodFates(s')
  {
    hide GoodLock;
    hide GoodParents;
    hide GoodForks;
    hide GoodScans;
    hide GoodSleepers;
    hide GoodFates;
    hide GoodMakers;
    hide SlotsSame;
    var p := step.p;
    if step.Fork? {
      BirthFates(s, s', step.c);
    } else if step.Run? && s.pc[p].ExitSet? {
      DeathFates(s, s', p);
    } else if Reaps(s, step) {
      ReapFates(s, s', s.pc[p].k, s.pid[p]);
    } else {
      QuietStep(s, step, s');
      QuietFates(s, s');
    }
  }

  lemma StepKeepsInv(s: State, step: Step)
    requires Inv(s) && Enabled(s, step)
    ensures Inv(Apply(s, step))
  {
    hide Enabled;
    hide Apply;
    hide Moves;
    hide GoodLock;
    hide GoodParents;
    hide GoodScans;
    hide GoodSleepers;
    hide GoodFates;
    hide GoodMakers;
    hide LockMove;
    hide LockedMove;
    hide ParentMove;
    hide ScanMove;
    hide SleepMove;
    hide ExitMove;
    hide ReapMove;
    hide GoodForks;
    var s' := Apply(s, step);
    StepMoves(s, step);
    StepLock(s, step, s');
    StepParents(s, step, s');
    StepForks(s, step, s');
    StepScans(s, step, s');
    StepSleepers(s, step, s');
    StepReaps(s, step, s');
    StepFates(s, step, s');
    LockKept(s, s', step.p);
    ParentsKept(s, s', step.p);
    ForksKept(s, s', step.p);
    ScansKept(s, s', step.p);
    SleepersKept(s, s', step.p);
    MakersKept(s, s', step.p);
  }

  // ----- Whole runs

  ghost predicate Legal(s: State, steps: seq<Step>)
    decreases |steps|, 0
  {
    steps == [] || (Legal(s, steps[..|steps| - 1]) && Enabled(After(s, steps[..|steps| - 1]), steps[|steps| - 1]))
  }

  ghost function After(s: State, steps: seq<Step>): State
    requires Legal(s, steps)
    decreases |steps|, 1
  {
    if steps == [] then s else Apply(After(s, steps[..|steps| - 1]), steps[|steps| - 1])
  }

  lemma {:induction false} RunKeepsInv(s: State, steps: seq<Step>)
    requires Inv(s) && Legal(s, steps)
    ensures Inv(After(s, steps))
  {
    hide Inv;
    if steps != [] {
      RunKeepsInv(s, steps[..|steps| - 1]);
      StepKeepsInv(After(s, steps[..|steps| - 1]), steps[|steps| - 1]);
    }
  }

  /**
    After any interleaving, every process other than init that runs or is a zombie has a parent,
    and every parent is running: never UNUSED, USED or ZOMBIE.
   */
  lemma ParentsRun(init: State, steps: seq<Step>, q: nat)
    requires Init(init) && Legal(init, steps) && q < |After(init, steps).pc|
    ensures var s := After(init, steps);
      && Shape(s)
      && (s.parent[q] != -1 ==> 0 <= s.parent[q] < |s.pc| && Running(s.pc[s.parent[q]]))
      && (q != s.init && (Running(s.pc[q]) || IsZombie(s.pc[q])) ==> s.parent[q] != -1)
  {
    hide Legal;
    hide After;
    InitInv(init);
    RunKeepsInv(init, steps);
    var s := After(init, steps);
    if s.parent[q] != -1 {
      assert Childless(s.pc[s.parent[q]], |s.pc|) <= q;
    }
  }

  /**
    No lost wakeup: after any interleaving, when wait_lock is free, no process asleep in kwait or
    waitx (or about to be) has a ZOMBIE child, and none asleep in kjoin has a ZOMBIE thread.
   */
  lemma NoZombieBehindSleeper(init: State, steps: seq<Step>, p: nat, q: nat)
    requires Init(init) && Legal(init, steps) && p < |After(init, steps).pc| && q < |After(init, steps).pc|
    requires After(init, steps).lock == -1 && Waiting(After(init, steps).pc[p])
    ensures var s := After(init, steps);
      Shape(s) && (IsKid(s, q, p, s.pc[p].kind) ==> !IsZombie(s.pc[q]))
  {
    hide Legal;
    hide After;
    InitInv(init);
    RunKeepsInv(init, steps);
  }

  /**
    Each exited process is freed at most once, and only by the process that forked it or by init.
    The test is on process identifiers, so a reused table slot cannot stand in for the parent.
   */
  lemma FreedOnceByParentOrInit(init: State, steps: seq<Step>, i: nat, j: nat)
    requires Init(init) && Legal(init, steps)
    requires i < |After(init, steps).reaps| && j < |After(init, steps).reaps|
    ensures var s := After(init, steps);
      && Shape(s) && s.reaps[i].pid < |s.maker|
      && (s.reaps[i].reaper == s.maker[s.reaps[i].pid] || s.reaps[i].reaper == s.pid[s.init])
      && (s.reaps[i].pid == s.reaps[j].pid ==> i == j)
  {
    hide Legal;
    hide After;
    InitInv(init);
    RunKeepsInv(init, steps);
    var s := After(init, steps);
    assert s.fate[s.reaps[i].pid] == Reaped(i) && s.fate[s.reaps[j].pid] == Reaped(j);
  }

  lemma FateMoves(s: State, step: Step, id: nat)
    requires Inv(s) && Enabled(s, step) && id < |s.fate|
    ensures var s' := Apply(s, step);
      && id < |s'.fate| && |s.reaps| <= |s'.reaps|
      && (s.fate[id].Reaped? ==> s'.fate[id] == s.fate[id])
      && (s.fate[id].Dead? ==> s'.fate[id] == s.fate[id] || s'.fate[id] == Reaped(|s.reaps|))
  {
    hide GoodLock;
    hide GoodParents;
    hide GoodForks;
    hide GoodScans;
    hide GoodSleepers;
    hide GoodMakers;
    hide GoodFates;
    if step.Run? && s.pc[step.p].ExitSet? { PidIs(s, step.p); }
    if Reaps(s, step) { PidIs(s, s.pc[step.p].k); }
  }

  lemma PidIs(s: State, q: nat)
    requires Shape(s) && GoodFates(s) && q < |s.pc| && !s.pc[q].Unused?
    ensures s.pid[q] < |s.fate| && s.fate[s.pid[q]] == (if IsZombie(s.pc[q]) then Dead(q) else Live(q))
  {
  }

  /**
    Nothing is forgotten: a process that has exited stays a ZOMBIE in its slot, under its own
    identifier, until the one event that frees it.
   */
  lemma {:induction false} ZombieUntilFreed(s: State, steps: seq<Step>, q: nat)
    requires Inv(s) && Legal(s, steps) && q < |s.pc| && IsZombie(s.pc[q])
    ensures var s', id := After(s, steps), s.pid[q];
      && id < |s'.fate| && |s.reaps| <= |s'.reaps|
      && (|| (q < |s'.pc| && IsZombie(s'.pc[q]) && Shape(s') && s'.pid[q] == id && s'.fate[id] == Dead(q))
          || (s'.fate[id].Reaped? && |s.reaps| <= s'.fate[id].event < |s'.reaps| && s'.reaps[s'.fate[id].event].pid == id))
  {
    hide Inv;
    hide Enabled;
    hide Apply;
    StartsDead(s, q);
    if steps != [] {
      var before := After(s, steps[..|steps| - 1]);
      ZombieUntilFreed(s, steps[..|steps| - 1], q);
      RunKeepsInv(s, steps[..|steps| - 1]);
      FateMoves(before, steps[|steps| - 1], s.pid[q]);
      StepKeepsInv(before, steps[|steps| - 1]);
      FateMeans(After(s, steps), s.pid[q]);
    }
  }

  lemma StartsDead(s: State, q: nat)
    requires Inv(s) && q < |s.pc| && IsZombie(s.pc[q])
    ensures Shape(s) && s.pid[q] < |s.fate| && s.fate[s.pid[q]] == Dead(q)
  {
  }

  lemma FateMeans(s: State, id: nat)
    requires Inv(s) && id < |s.fate|
    ensures Shape(s)
    ensures s.fate[id].Dead? ==> s.fate[id].slot < |s.pc| && IsZombie(s.pc[s.fate[id].slot]) && s.pid[s.fate[id].slot] == id
    ensures s.fate[id].Reaped? ==> s.fate[id].event < |s.reaps| && s.reaps[s.fate[id].event].pid == id
  {
    if s.fate[id].Dead? { PidIs(s, s.fate[id].slot); }
  }

  // kwait and kjoin report that there is nothing to wait for only when there is not.
  lemma NoKidsMeansNone(s: State, p: nat, q: nat)
    requires Inv(s) && p < |s.pc| && q < |s.pc| && s.pc[p].Scan? && |s.pc| <= s.pc[p].k && !s.pc[p].have
    ensures !IsKid(s, q, p, s.pc[p].kind)
  {
    assert q < Seen(s.pc[p], |s.pc|);
  }

  predicate Busy(c: Pc) {
    Running(c) && !c.Idle? && !c.Asleep?
  }

  /** No deadlock: while a process is inside the protocol and not asleep, some process can go on. */
  lemma NeverStuck(s: State, p: nat) returns (r: nat)
    requires Inv(s) && p < |s.pc| && Busy(s.pc[p])
    ensures Enabled(s, Run(r))
  {
    hide GoodParents;
    hide GoodScans;
    hide GoodSleepers;
    hide GoodMakers;
    hide GoodFates;
    r := if s.lock == -1 then p else s.lock;
    assert HoldsWait(s.pc[r]) <==> s.lock == r;
    match s.pc[r] {
      case Scan(_, k, _) => if k < |s.pc| && HoldsOwn(s.pc[k]) { r := k; }
      case ReparentWake(_, j) => if j < |s.pc| && HoldsOwn(s.pc[j]) { r := j; }
      case ExitWake(j) => if j < |s.pc| && HoldsOwn(s.pc[j]) { r := j; }
      case _ =>
    }
  }

  // ----- kkill and unused slots

  // The step frees slot c.
  ghost predicate Frees(s: State, step: Step, c: nat)
    requires Enabled(s, step)
  {
    step.Run? && s.pc[step.p].Scan? && s.pc[step.p].k == c < |s.pc| && IsKid(s, c, step.p, s.pc[step.p].kind) && s.pc[c].Zombie?
  }

  // kkill has hit slot c since it was last freed.
  ghost predicate Marked(s: State, steps: seq<Step>, c: nat)
    requires Legal(s, steps)
  {
    && steps != []
    && var front, last := steps[..|steps| - 1], steps[|steps| - 1];
    last == Kill(c) || (Marked(s, front, c) && !Frees(After(s, front), last, c))
  }

  lemma KilledStep(s: State, step: Step, c: nat)
    requires Enabled(s, step) && c < |s.pc|
    ensures var s' := Apply(s, step);
      |s'.pc| == |s.pc| == |s'.killed| && (s'.killed[c] <==> step == Kill(c) || (s.killed[c] && !Frees(s, step, c)))
  {
  }

  /**
    A slot's killed flag is set if and only if kkill has hit the slot since it was last freed,
    whether it was in use then or not; so a process starts out killed if and only if kkill(0) hit
    the slot while it was unused.
   */
  lemma {:induction false} KilledExactly(init: State, steps: seq<Step>, c: nat)
    requires Shape(init) && Legal(init, steps) && c < |init.pc| && !init.killed[c]
    ensures var s := After(init, steps); |s.pc| == |init.pc| == |s.killed| && (s.killed[c] <==> Marked(init, steps, c))
  {
    hide Enabled;
    hide Apply;
    if steps != [] {
      KilledExactly(init, steps[..|steps| - 1], c);
      KilledStep(After(init, steps[..|steps| - 1]), steps[|steps| - 1], c);
    }
  }

  /** After kkill(0) the next process in that slot is killed before it has run. */
  lemma BornKilled(s: State, p: nat, c: nat)
    requires Shape(s) && p < |s.pc| && c < |s.pc| && s.pc[p].Idle? && s.pc[c].Unused?
    ensures Legal(s, [Kill(c), Fork(p, c, false)])
    ensures var s' := After(s, [Kill(c), Fork(p, c, false)]); Shape(s') && c < |s'.pc| && s'.pc[c].Used? && s'.killed[c]
  {
    var steps := [Kill(c), Fork(p, c, false)];
    assert steps[..1] == [Kill(c)] && steps[..1][..0] == [];
    assert Legal(s, []) && Legal(s, [Kill(c)]);
    assert After(s, [Kill(c)]) == Apply(s, Kill(c));
  }
}
