/**
  The functions of kernel/log.c over the log's own fields.  Every method records the state after
  each durable write; `Valid()` says that the record is a run of the transition system, so the
  whole-run theorems hold of whatever the code does.
 */
module LogCode {
  import opened Log
  import opened LogAtomicity

  class LogLayer {
    const start: nat
    const block: array<int>      // log.lh.block
    var n: int                   // log.lh.n
    var outstanding: int
    var committing: bool
    var disk: Disk
    var cache: map<int, Block>   // modified buffers, pinned by log_write

    ghost var ops: seq<Op>
    ghost var phase: Phase
    ghost const init: State
    ghost var steps: seq<Step>

    ghost predicate Shape()
      reads this, block
    {
      block.Length == LOGBLOCKS && 0 <= n <= LOGBLOCKS
    }

    ghost function Now(): State
      requires Shape()
      reads this, block
    {
      State(disk, cache, block[..n], outstanding, ops, phase)
    }

    // The object is where its recorded steps lead from a good state.
    ghost predicate Valid()
      reads this, block
    {
      && Shape()
      && Good(start, init)
      && Legal(start, init, steps) && Exec(start, init, steps) == Now()
      && (committing <==> phase.Logging? || phase.Installing? || phase.Cleared?)
    }

    // A machine restarted on any disk whose header is sound.
    constructor (s: nat, d: Disk, nproc: nat)
      requires GoodDisk(s, d)
      ensures Valid() && phase == Booting && disk == d && start == s && fresh(block)
      ensures |ops| == nproc && steps == []
    {
      start := s;
      block := new int[LOGBLOCKS];
      n, outstanding, committing := 0, 0, false;
      disk, cache := d, map[];
      ops := seq(nproc, _ => NoOp);
      phase := Booting;
      steps := [];
      init := State(d, map[], [], 0, seq(nproc, _ => NoOp), Booting);
      new;
      IdleOps(nproc);
      assert block[..n] == [];
    }

    lemma StateIsGood()
      requires Valid()
      ensures Good(start, Now())
    {
      ExecIsGood(start, init, steps);
    }

    lemma DiskShape()
      requires Valid()
      ensures Geometry(start, disk)
    {
      StateIsGood();
    }

    ghost method Record(step: Step)
      requires Shape() && Good(start, init) && Legal(start, init, steps)
      requires Enabled(start, Exec(start, init, steps), step)
      requires Now() == Apply(start, Exec(start, init, steps), step)
      requires committing <==> phase.Logging? || phase.Installing? || phase.Cleared?
      modifies this`steps
      ensures Valid() && steps == old(steps) + [step]
    {
      hide Good;
      hide Legal;
      hide Exec;
      ExecSnoc(start, init, steps, step);
      steps := steps + [step];
    }

    /** One pass of begin_op's loop: either the operation is admitted or the caller sleeps. */
    method BeginOp(ghost p: nat) returns (admitted: bool)
      requires Valid() && !phase.Booting? && !phase.Replaying? && p < |ops| && ops[p].NoOp?
      modifies this
      ensures Valid()
      ensures admitted <==> old(phase.Ready? && Admits(Now()))
      ensures admitted ==> steps == old(steps) + [Begin(p)]
      ensures !admitted ==> Now() == old(Now()) && steps == old(steps)
    {
      hide Good;
      hide Legal;
      hide Exec;
      DiskShape();
      if committing {
        admitted := false;
      } else if n + (outstanding + 1) * MAXOPBLOCKS > LOGBLOCKS {
        admitted := false;
      } else {
        outstanding := outstanding + 1;
        ops := ops[p := InOp({})];
        admitted := true;
        Record(Begin(p));
      }
    }

    /** log_write after the caller has put `data` into the buffer of block b; `false` is a panic. */
    method LogWrite(ghost p: nat, b: int, data: Block) returns (ok: bool)
      requires Valid() && phase.Ready? && p < |ops| && WithinBudget(ops[p], b) && HomeBlock(start, disk, b)
      modifies this, block
      ensures Valid()
      ensures ok <==> !old(LogWritePanics(Now()))
      ensures ok ==> steps == old(steps) + [Write(p, b, data)]
      ensures !ok ==> Now() == old(Now()) && steps == old(steps)
    {
      hide Good;
      hide Legal;
      hide Exec;
      DiskShape();
      if n >= LOGBLOCKS {
        return false;
      }
      if outstanding < 1 {
        return false;
      }
      ghost var s := Now();
      var i := 0;
      while i < n && block[i] != b
        invariant 0 <= i <= n
        invariant forall j :: 0 <= j < i ==> block[j] != b
      {
        i := i + 1;
      }
      block[i] := b;
      if i == n {
        n := n + 1;
      }
      assert block[..n] == Append(s.lh, b);
      cache := cache[b := data];
      ops := ops[p := InOp(ops[p].wrote + {b})];
      Record(Write(p, b, data));
      return true;
    }

    // One iteration of write_log.
    method CopyToLog(tail: nat)
      requires Valid() && phase == Logging(tail) && tail < n
      modifies this`disk, this`phase, this`steps
      ensures Valid() && phase == Logging(tail + 1)
      ensures steps == old(steps) + [LogBlock]
    {
      hide Legal;
      hide Exec;
      DiskShape();
      assert HomeBlock(start, disk, block[tail]) && block[tail] in cache by {
        StateIsGood();
        assert Now().lh[tail] == block[tail];
      }
      hide Good;
      var from := cache[block[tail]]; // pinned, so bread finds the modified buffer
      disk := disk[start + tail + 1 := from];
      phase := Logging(tail + 1);
      Record(LogBlock);
    }

    /** Copy modified blocks from the cache to the log. */
    method WriteLog()
      requires Valid() && phase == Logging(0)
      modifies this`disk, this`phase, this`steps
      ensures Valid() && phase == Logging(n)
      ensures steps == old(steps) + Repeat(LogBlock, n)
    {
      hide Good;
      hide Legal;
      hide Exec;
      var tail := 0;
      while tail < n
        invariant 0 <= tail <= n && Valid() && phase == Logging(tail)
        invariant steps == old(steps) + Repeat(LogBlock, tail)
      {
        CopyToLog(tail);
        tail := tail + 1;
      }
    }

    /** Write the in-memory header over the header block; the caller says which durable step this is. */
    method WriteHead(ghost step: Step)
      requires Shape() && Good(start, init) && Legal(start, init, steps)
      requires step.Commit? || step.Clear? || step.ClearRecovered?
      requires Enabled(start, Exec(start, init, steps), step)
      requires var s := Exec(start, init, steps); Now() == s.(lh := if step.Commit? then s.lh else [])
      requires committing <==> !step.ClearRecovered?
      modifies this`disk, this`phase, this`steps
      ensures Valid() && steps == old(steps) + [step]
    {
      disk := disk[start := EncodeHeader(disk[start], block[..n])];
      phase := if step.Commit? then Installing(0) else if step.Clear? then Cleared else Ready;
      Record(step);
    }

    // One iteration of install_trans.
    method CopyHome(tail: nat, recovering: bool)
      requires Valid() && phase == (if recovering then Replaying(tail) else Installing(tail)) && tail < n
      modifies this`disk, this`cache, this`phase, this`steps
      ensures Valid() && phase == if recovering then Replaying(tail + 1) else Installing(tail + 1)
      ensures steps == old(steps) + [InstallStep(recovering)]
    {
      hide Legal;
      hide Exec;
      DiskShape();
      assert HomeBlock(start, disk, block[tail]) by {
        StateIsGood();
        assert Now().lh[tail] == block[tail];
      }
      hide Good;
      disk := disk[block[tail] := disk[start + tail + 1]];
      if recovering {
        phase := Replaying(tail + 1);
        Record(ReplayOne);
      } else {
        cache := cache - {block[tail]};
        phase := Installing(tail + 1);
        Record(Install);
      }
    }

    /** Copy committed blocks from the log to their home locations. */
    method InstallTrans(recovering: bool)
      requires Valid() && phase == if recovering then Replaying(0) else Installing(0)
      modifies this`disk, this`cache, this`phase, this`steps
      ensures Valid() && phase == if recovering then Replaying(n) else Installing(n)
      ensures steps == old(steps) + Repeat(InstallStep(recovering), n)
    {
      hide Good;
      hide Legal;
      hide Exec;
      var tail := 0;
      while tail < n
        invariant 0 <= tail <= n && Valid()
        invariant phase == if recovering then Replaying(tail) else Installing(tail)
        invariant steps == old(steps) + Repeat(InstallStep(recovering), tail)
      {
        CopyHome(tail, recovering);
        tail := tail + 1;
      }
    }

    /** Read the header block into log.lh. */
    method ReadHead()
      requires Valid() && phase == Booting
      modifies this`n, this`phase, this`steps, block
      ensures Valid() && phase == Replaying(0) && steps == old(steps) + [Step.ReadHead]
      ensures CountOk(disk[start]) && block[..n] == DecodeHeader(disk[start])
    {
      StateIsGood();
      var lh := disk[start];
      n := lh.words[0];
      var i := 0;
      while i < n
        invariant 0 <= i <= n <= LOGBLOCKS
        modifies block
        invariant block[..i] == lh.words[1..1 + i]
      {
        block[i] := lh.words[1 + i];
        i := i + 1;
      }
      phase := Replaying(0);
      assert block[..n] == DecodeHeader(disk[start]);
      Record(Step.ReadHead);
    }

    // The commit point.
    method WriteCommitHead()
      requires Valid() && phase == Logging(n) && n > 0
      modifies this`disk, this`phase, this`steps
      ensures Valid() && phase == Installing(0) && steps == old(steps) + [Step.Commit]
    {
      StateIsGood();
      WriteHead(Step.Commit);
    }

    // Erase the transaction from the log.
    method EraseHead(ghost recovering: bool)
      requires Valid() && phase == if recovering then Replaying(n) else Installing(n)
      modifies this`n, this`disk, this`phase, this`steps
      ensures Valid() && n == 0 && phase == if recovering then Ready else Cleared
      ensures steps == old(steps) + [if recovering then ClearRecovered else Clear]
    {
      StateIsGood();
      n := 0;
      assert block[..n] == [];
      WriteHead(if recovering then ClearRecovered else Clear);
    }

    /** Boot: replay the header found on disk, then erase it. */
    method RecoverFromLog()
      requires Valid() && phase == Booting
      modifies this, block
      ensures Valid() && phase == Ready && n == 0
      ensures CountOk(old(disk)[start]) && steps == old(steps) + RecoverySteps(|DecodeHeader(old(disk)[start])|)
      ensures Good(start, old(Now())) && Home(start, disk) == Durable(start, old(disk))
    {
      hide Legal;
      hide Exec;
      StateIsGood();
      assert CountOk(disk[start]);
      hide Good;
      ghost var before := steps;
      ReadHead();
      InstallTrans(true);
      EraseHead(true);
      assert steps == before + RecoverySteps(|DecodeHeader(old(disk)[start])|);
      RebootsAgree(start, init, before, RecoverySteps(|DecodeHeader(old(disk)[start])|));
    }

    method Commit()
      requires Valid() && phase == Logging(0)
      modifies this, block
      ensures Valid() && steps == old(steps) + CommitSteps(old(n)) && n == 0
      ensures phase == if old(n) == 0 then Logging(0) else Cleared
    {
      hide Good;
      hide Legal;
      hide Exec;
      if n > 0 {
        WriteLog();
        WriteCommitHead();
        InstallTrans(false);
        EraseHead(false);
        Regroup(old(steps), Repeat(LogBlock, old(n)), [Step.Commit], Repeat(Install, old(n)), [Clear]);
      }
    }

    // log.committing = 0, after the last durable write of a commit.
    method FinishCommit()
      requires Valid() && (phase == Cleared || (phase == Logging(0) && n == 0))
      modifies this`committing, this`phase, this`steps
      ensures Valid() && phase == Ready && steps == old(steps) + [Finish]
    {
      hide Good;
      hide Legal;
      hide Exec;
      DiskShape();
      committing := false;
      phase := Ready;
      Record(Finish);
    }

    // The part of end_op under log.lock.
    method LeaveOp(ghost p: nat) returns (doCommit: bool)
      requires Valid() && phase.Ready? && p < |ops| && ops[p].InOp?
      modifies this`outstanding, this`committing, this`ops, this`phase, this`steps
      ensures Valid() && steps == old(steps) + [End(p)]
      ensures doCommit <==> old(outstanding) == 1
      ensures phase == if doCommit then Logging(0) else Ready
    {
      StateIsGood();
      doCommit := false;
      outstanding := outstanding - 1;
      ops := ops[p := NoOp];
      if outstanding == 0 {
        doCommit := true;
        committing := true;
        phase := Logging(0);
      }
      Record(End(p));
    }

    lemma EndOpMeaning(before: seq<Step>, more: seq<Step>)
      requires Valid() && Legal(start, init, before) && steps == before + more
      requires Exec(start, init, before).phase.Ready? && (forall j :: 0 <= j < |more| ==> Committing(more[j]))
      ensures Good(start, Exec(start, init, before)) && Good(start, Now())
      ensures Current(start, Now()) == Current(start, Exec(start, init, before))
      ensures phase.Ready? && n == 0 ==> Durable(start, disk) == Current(start, Now())
    {
      CommitIsAllOrNothing(start, init, before, more);
      if phase.Ready? && n == 0 {
        DurableWhenEmpty(start, disk);
        NothingCached(start, Now());
      }
    }

    /** end_op: the last outstanding operation commits everything that was logged. */
    method EndOp(ghost p: nat)
      requires Valid() && phase.Ready? && p < |ops| && ops[p].InOp?
      modifies this, block
      ensures Valid() && phase.Ready? && steps == old(steps) + EndOpSteps(p, old(outstanding) == 1, old(n))
      ensures Good(start, Now()) && Current(start, Now()) == old(Current(start, Now()))
      ensures old(outstanding) == 1 ==> Durable(start, disk) == old(Current(start, Now()))
      ensures old(outstanding) > 1 ==> disk == old(disk)
    {
      hide Good;
      hide Legal;
      hide Exec;
      ghost var before := steps;
      var doCommit := LeaveOp(p);
      if doCommit {
        Commit();
        FinishCommit();
      }
      EndOpMeaning(before, EndOpSteps(p, doCommit, old(n)));
    }
  }

  lemma Regroup(a: seq<Step>, b: seq<Step>, c: seq<Step>, d: seq<Step>, e: seq<Step>)
    ensures a + b + c + d + e == a + (b + c + d + e)
  {
  }

  // The durable writes of one commit of k blocks, in order.
  ghost function CommitSteps(k: nat): seq<Step> {
    if k == 0 then [] else Repeat(LogBlock, k) + [Step.Commit] + Repeat(Install, k) + [Clear]
  }

  ghost function EndOpSteps(p: nat, last: bool, k: nat): seq<Step> {
    [End(p)] + if last then CommitSteps(k) + [Finish] else []
  }

  ghost function RecoverySteps(k: nat): seq<Step> {
    [Step.ReadHead] + Repeat(ReplayOne, k) + [ClearRecovered]
  }

  function InstallStep(recovering: bool): Step {
    if recovering then ReplayOne else Install
  }

  ghost function Repeat(step: Step, k: nat): seq<Step> {
    seq(k, _ => step)
  }
}
