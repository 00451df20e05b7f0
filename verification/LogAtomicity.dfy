/**
  Crash atomicity of the log: every step of every run, including crashes during commit and
  during recovery itself, is a step of the atomic disk.
 */
module LogAtomicity {
  import opened Log

  // ----- What replay does, block by block

  lemma {:induction false} ReplayAt(start: nat, disk: Disk, lh: seq<int>, k: nat)
    requires Geometry(start, disk) && GoodHeader(start, disk, lh) && k <= |lh|
    ensures forall i :: 0 <= i < k ==> Replay(start, disk, lh, k)[lh[i]] == disk[start + 1 + i]
    ensures forall b :: 0 <= b < |disk| && b !in lh[..k] ==> Replay(start, disk, lh, k)[b] == disk[b]
  {
    if k > 0 {
      ReplayAt(start, disk, lh, k - 1);
      assert InLog(start, start + k);
      assert start + k !in lh[..k - 1];
      assert lh[..k] == lh[..k - 1] + [lh[k - 1]];
    }
  }

  // The recovered value of every block: the logged copy if the header names it, the block itself otherwise.
  lemma DurableAt(start: nat, disk: Disk, lh: seq<int>)
    requires GoodDisk(start, disk) && HeaderOnDisk(start, disk, lh)
    ensures |Durable(start, disk)| == |disk|
    ensures forall b :: 0 <= b < |disk| && InLog(start, b) ==> Durable(start, disk)[b] == Block([])
    ensures forall i :: 0 <= i < |lh| ==> Durable(start, disk)[lh[i]] == disk[start + 1 + i]
    ensures forall b :: HomeBlock(start, disk, b) && b !in lh ==> Durable(start, disk)[b] == disk[b]
  {
    ReplayAt(start, disk, lh, |lh|);
    assert lh[..|lh|] == lh;
  }

  // With an empty header the disk means itself; with everything cached, it means what callers see.
  lemma DurableWhenEmpty(start: nat, disk: Disk)
    requires GoodDisk(start, disk) && HeaderOnDisk(start, disk, [])
    ensures Durable(start, disk) == Home(start, disk)
  {
    DurableAt(start, disk, []);
    assert Durable(start, disk) == Home(start, disk);
  }

  // Copying a logged block home never changes what the disk means.
  lemma InstallKeepsDurable(start: nat, disk: Disk, lh: seq<int>, t: nat, disk': Disk)
    requires GoodDisk(start, disk) && HeaderOnDisk(start, disk, lh) && t < |lh|
    requires disk' == disk[lh[t] := disk[start + 1 + t]]
    ensures GoodDisk(start, disk') && HeaderOnDisk(start, disk', lh)
    ensures Durable(start, disk') == Durable(start, disk)
  {
    assert HomeBlock(start, disk, lh[t]);
    assert disk'[start] == disk[start];
    forall i | 0 <= i < |lh| ensures HomeBlock(start, disk', lh[i]) {
      assert HomeBlock(start, disk, lh[i]);
    }
    DurableAt(start, disk, lh);
    DurableAt(start, disk', lh);
    assert Durable(start, disk') == Durable(start, disk);
  }

  // When every logged block is home, erasing the header does not change what the disk means.
  lemma ClearKeepsDurable(start: nat, disk: Disk, lh: seq<int>, disk': Disk)
    requires GoodDisk(start, disk) && HeaderOnDisk(start, disk, lh)
    requires forall i :: 0 <= i < |lh| ==> disk[lh[i]] == disk[start + 1 + i]
    requires disk' == disk[start := EncodeHeader(disk[start], [])]
    ensures GoodDisk(start, disk') && HeaderOnDisk(start, disk', [])
    ensures Durable(start, disk') == Durable(start, disk)
  {
    assert DecodeHeader(disk'[start]) == [];
    DurableAt(start, disk, lh);
    DurableAt(start, disk', []);
    assert Durable(start, disk') == Durable(start, disk);
  }

  // ----- One group of lemmas per step

  lemma BeginKeepsOps(start: nat, s: State, p: nat)
    requires GoodOps(s) && Enabled(start, s, Begin(p))
    ensures GoodOps(Apply(start, s, Begin(p)))
  {
    ReserveUpdate(s.ops, p, InOp({}));
    ReserveBounds(s.ops);
  }

  lemma WriteKeepsOps(start: nat, s: State, p: nat, b: int, data: Block)
    requires GoodOps(s) && Enabled(start, s, Write(p, b, data))
    ensures GoodOps(Apply(start, s, Write(p, b, data)))
    ensures |Append(s.lh, b)| <= LOGBLOCKS
  {
    var op := InOp(s.ops[p].wrote + {b});
    ReserveUpdate(s.ops, p, op);
    if b in s.ops[p].wrote {
      assert s.ops[p].wrote + {b} == s.ops[p].wrote;
    } else {
      assert |s.ops[p].wrote + {b}| == |s.ops[p].wrote| + 1;
    }
    var s' := Apply(start, s, Write(p, b, data));
    forall q | 0 <= q < |s'.ops| && s'.ops[q].InOp?
      ensures |s'.ops[q].wrote| <= MAXOPBLOCKS && forall c :: c in s'.ops[q].wrote ==> c in s'.lh
    {
      if q != p { assert s'.ops[q] == s.ops[q]; }
    }
    ReserveBounds(s'.ops);
  }

  lemma EndKeepsOps(start: nat, s: State, p: nat)
    requires GoodOps(s) && Enabled(start, s, End(p))
    ensures GoodOps(Apply(start, s, End(p))) && s.outstanding > 0
  {
    ReserveUpdate(s.ops, p, NoOp);
    ReserveBounds(s.ops);
  }

  lemma QuietKeepsOps(s: State, s': State)
    requires GoodOps(s) && s.outstanding == 0
    requires s'.ops == s.ops && s'.outstanding == 0 && |s'.lh| <= LOGBLOCKS
    ensures GoodOps(s')
  {
    NoneRunning(s.ops);
  }

  lemma WriteKeepsCache(start: nat, s: State, p: nat, b: int, data: Block)
    requires GoodHeader(start, s.disk, s.lh) && CacheIs(s, 0) && Enabled(start, s, Write(p, b, data))
    requires |Append(s.lh, b)| <= LOGBLOCKS
    ensures var s' := Apply(start, s, Write(p, b, data));
            GoodHeader(start, s'.disk, s'.lh) && CacheIs(s', 0)
  {
    var s' := Apply(start, s, Write(p, b, data));
    forall c | c in s'.cache ensures c in s'.lh {
      assert c in s.cache || c == b;
    }
  }

  lemma WriteChangesOneBlock(start: nat, s: State, b: int, data: Block, s': State)
    requires HomeBlock(start, s.disk, b)
    requires s'.disk == s.disk && s'.cache == s.cache[b := data]
    ensures Current(start, s') == Current(start, s)[b := data]
  {
    assert Current(start, s') == Current(start, s)[b := data];
  }

  // Writing into the log area is invisible, before a header names it.
  lemma LogAreaInvisible(start: nat, s: State, b: int, data: Block, s': State)
    requires GoodDisk(start, s.disk) && HeaderOnDisk(start, s.disk, [])
    requires start < b <= start + LOGBLOCKS
    requires s'.disk == s.disk[b := data] && s'.cache == s.cache
    requires GoodHeader(start, s.disk, s.lh)
    ensures GoodDisk(start, s'.disk) && HeaderOnDisk(start, s'.disk, []) && GoodHeader(start, s'.disk, s.lh)
    ensures Durable(start, s'.disk) == Durable(start, s.disk)
    ensures Current(start, s') == Current(start, s)
  {
    HeaderKept(start, s.disk, s'.disk, s.lh);
    DurableAt(start, s.disk, []);
    DurableAt(start, s'.disk, []);
    assert Durable(start, s'.disk) == Durable(start, s.disk);
    assert Current(start, s') == Current(start, s);
  }

  lemma HeaderKept(start: nat, disk: Disk, disk': Disk, lh: seq<int>)
    requires |disk'| == |disk| && GoodHeader(start, disk, lh)
    ensures GoodHeader(start, disk', lh)
  {
    forall i | 0 <= i < |lh| ensures HomeBlock(start, disk', lh[i]) {
      assert HomeBlock(start, disk, lh[i]);
    }
  }

  lemma LogBlockKeepsPhase(start: nat, s: State)
    requires Geometry(start, s.disk) && GoodHeader(start, s.disk, s.lh) && GoodPhase(start, s)
    requires Enabled(start, s, LogBlock)
    ensures var s' := Apply(start, s, LogBlock);
            GoodHeader(start, s'.disk, s'.lh) && GoodPhase(start, s')
  {
    var s' := Apply(start, s, LogBlock);
    HeaderKept(start, s.disk, s'.disk, s.lh);
    assert s'.disk[start] == s.disk[start];
  }

  lemma CommitHeader(start: nat, disk: Disk, lh: seq<int>)
    requires Geometry(start, disk) && GoodHeader(start, disk, lh)
    ensures var disk' := disk[start := EncodeHeader(disk[start], lh)];
            GoodDisk(start, disk') && HeaderOnDisk(start, disk', lh) && GoodHeader(start, disk', lh)
  {
    var disk' := disk[start := EncodeHeader(disk[start], lh)];
    HeaderKept(start, disk, disk', lh);
    assert DecodeHeader(disk'[start]) == lh;
  }

  // The commit point: the header turns what callers see into what survives.
  lemma CommitMakesDurable(start: nat, s: State, disk': Disk)
    requires Geometry(start, s.disk) && |s.lh| <= LOGBLOCKS && CacheIs(s, 0)
    requires forall i :: 0 <= i < |s.lh| ==> s.disk[start + 1 + i] == s.cache[s.lh[i]]
    requires GoodDisk(start, disk') && HeaderOnDisk(start, disk', s.lh)
    requires disk' == s.disk[start := disk'[start]]
    ensures Durable(start, disk') == Current(start, s)
  {
    hide Durable;
    DurableAt(start, disk', s.lh);
    forall b | HomeBlock(start, s.disk, b) ensures Durable(start, disk')[b] == View(s, b) {
      if b in s.lh {
        var i :| 0 <= i < |s.lh| && s.lh[i] == b;
        assert Durable(start, disk')[s.lh[i]] == disk'[start + 1 + i] == s.disk[start + 1 + i];
      } else {
        assert b !in s.cache;
      }
    }
    assert Durable(start, disk') == Current(start, s);
  }

  lemma HeaderIsInvisible(start: nat, s: State, s': State)
    requires Geometry(start, s.disk) && s'.cache == s.cache && |s'.disk| == |s.disk|
    requires s'.disk == s.disk[start := s'.disk[start]]
    ensures Current(start, s') == Current(start, s)
  {
    assert Current(start, s') == Current(start, s);
  }

  lemma InstallKeepsPhase(start: nat, s: State)
    requires Geometry(start, s.disk) && GoodHeader(start, s.disk, s.lh) && GoodPhase(start, s)
    requires Enabled(start, s, Install)
    ensures var s' := Apply(start, s, Install);
            GoodHeader(start, s'.disk, s'.lh) && GoodPhase(start, s')
  {
    var s' := Apply(start, s, Install);
    var t := s.phase.tail;
    HeaderKept(start, s.disk, s'.disk, s.lh);
    LogAreaKept(start, s.disk, s.lh, t);
    InstalledSoFar(start, s.disk, s.lh, t);
    OneUnpinned(s, s', t);
  }

  lemma OneUnpinned(s: State, s': State, t: nat)
    requires t < |s.lh| && CacheIs(s, t) && s'.lh == s.lh && s'.cache == s.cache - {s.lh[t]}
    requires forall i, j :: 0 <= i < j < |s.lh| ==> s.lh[i] != s.lh[j]
    ensures CacheIs(s', t + 1)
  {
  }

  lemma InstalledSoFar(start: nat, disk: Disk, lh: seq<int>, t: nat)
    requires Geometry(start, disk) && GoodHeader(start, disk, lh) && t < |lh|
    requires forall i :: 0 <= i < t ==> disk[lh[i]] == disk[start + 1 + i]
    ensures var disk' := disk[lh[t] := disk[start + 1 + t]];
            forall i :: 0 <= i <= t ==> disk'[lh[i]] == disk'[start + 1 + i]
  {
    LogAreaKept(start, disk, lh, t);
  }

  // Copying a block home leaves the log area as it was.
  lemma LogAreaKept(start: nat, disk: Disk, lh: seq<int>, t: nat)
    requires Geometry(start, disk) && GoodHeader(start, disk, lh) && t < |lh|
    ensures var disk' := disk[lh[t] := disk[start + 1 + t]];
            forall b :: start <= b <= start + LOGBLOCKS ==> disk'[b] == disk[b]
  {
    assert HomeBlock(start, disk, lh[t]);
  }

  // Writing a cached value home and dropping it from the cache is invisible.
  lemma InstallIsInvisible(start: nat, s: State, s': State, b: int)
    requires b in s.cache && 0 <= b < |s.disk|
    requires s'.disk == s.disk[b := s.cache[b]] && s'.cache == s.cache - {b}
    ensures Current(start, s') == Current(start, s)
  {
    assert Current(start, s') == Current(start, s);
  }

  lemma ReplayOneKeepsPhase(start: nat, s: State)
    requires Geometry(start, s.disk) && GoodHeader(start, s.disk, s.lh) && GoodPhase(start, s)
    requires Enabled(start, s, ReplayOne)
    ensures var s' := Apply(start, s, ReplayOne);
            GoodHeader(start, s'.disk, s'.lh) && GoodPhase(start, s')
  {
    var s' := Apply(start, s, ReplayOne);
    HeaderKept(start, s.disk, s'.disk, s.lh);
    LogAreaKept(start, s.disk, s.lh, s.phase.tail);
    InstalledSoFar(start, s.disk, s.lh, s.phase.tail);
  }

  lemma NothingCached(start: nat, s: State)
    requires NothingPinned(s)
    ensures Current(start, s) == Home(start, s.disk)
  {
    assert Current(start, s) == Home(start, s.disk);
  }

  lemma WriteRefines(start: nat, s: State, p: nat, b: int, data: Block)
    requires Good(start, s) && Enabled(start, s, Write(p, b, data))
    ensures Good(start, Apply(start, s, Write(p, b, data)))
    ensures AtomicNext(Abstract(start, s), Write(p, b, data), Abstract(start, Apply(start, s, Write(p, b, data))))
  {
    WriteKeepsOps(start, s, p, b, data);
    WriteKeepsCache(start, s, p, b, data);
    WriteChangesOneBlock(start, s, b, data, Apply(start, s, Write(p, b, data)));
  }

  lemma LogBlockRefines(start: nat, s: State)
    requires Good(start, s) && Enabled(start, s, LogBlock)
    ensures Good(start, Apply(start, s, LogBlock))
    ensures Abstract(start, Apply(start, s, LogBlock)) == Abstract(start, s)
  {
    var s' := Apply(start, s, LogBlock);
    LogBlockKeepsPhase(start, s);
    LogAreaInvisible(start, s, start + 1 + s.phase.tail, View(s, s.lh[s.phase.tail]), s');
    QuietKeepsOps(s, s');
  }

  lemma CommitRefines(start: nat, s: State)
    requires Good(start, s) && Enabled(start, s, Commit)
    ensures Good(start, Apply(start, s, Commit))
    ensures AtomicNext(Abstract(start, s), Commit, Abstract(start, Apply(start, s, Commit)))
  {
    var s' := Apply(start, s, Commit);
    CommitHeader(start, s.disk, s.lh);
    CommitMakesDurable(start, s, s'.disk);
    HeaderIsInvisible(start, s, s');
    QuietKeepsOps(s, s');
  }

  lemma InstallKeepsCurrent(start: nat, s: State)
    requires Geometry(start, s.disk) && GoodHeader(start, s.disk, s.lh) && GoodPhase(start, s)
    requires Enabled(start, s, Install)
    ensures Current(start, Apply(start, s, Install)) == Current(start, s)
  {
    var t := s.phase.tail;
    assert s.lh[t] in s.cache && s.cache[s.lh[t]] == s.disk[start + 1 + t];
    InstallIsInvisible(start, s, Apply(start, s, Install), s.lh[t]);
  }

  lemma InstallRefines(start: nat, s: State)
    requires Good(start, s) && Enabled(start, s, Install)
    ensures Good(start, Apply(start, s, Install))
    ensures Abstract(start, Apply(start, s, Install)) == Abstract(start, s)
  {
    var s' := Apply(start, s, Install);
    assert Durable(start, s'.disk) == Durable(start, s.disk) && GoodDisk(start, s'.disk) by {
      InstallKeepsDurable(start, s.disk, s.lh, s.phase.tail, s'.disk);
    }
    assert Good(start, s') by {
      InstallKeepsPhase(start, s);
      QuietKeepsOps(s, s');
    }
    InstallKeepsCurrent(start, s);
  }

  lemma ClearRefines(start: nat, s: State)
    requires Good(start, s) && Enabled(start, s, Clear)
    ensures Good(start, Apply(start, s, Clear))
    ensures Abstract(start, Apply(start, s, Clear)) == Abstract(start, s)
  {
    var s' := Apply(start, s, Clear);
    assert NothingPinned(s);
    ClearKeepsDurable(start, s.disk, s.lh, s'.disk);
    HeaderIsInvisible(start, s, s');
    QuietKeepsOps(s, s');
  }

  lemma CrashRefines(start: nat, s: State)
    requires Good(start, s)
    ensures Enabled(start, s, Crash) && Good(start, Apply(start, s, Crash))
    ensures AtomicNext(Abstract(start, s), Crash, Abstract(start, Apply(start, s, Crash)))
  {
    IdleOps(|s.ops|);
  }

  lemma RecoveryRefines(start: nat, s: State, step: Step)
    requires Good(start, s) && Enabled(start, s, step)
    requires step.ReadHead? || step.ReplayOne? || step.ClearRecovered?
    ensures Good(start, Apply(start, s, step))
    ensures Abstract(start, Apply(start, s, step)) == Abstract(start, s)
  {
    var s' := Apply(start, s, step);
    QuietKeepsOps(s, s');
    match step
    case ReadHead =>
    case ReplayOne =>
      InstallKeepsDurable(start, s.disk, s.lh, s.phase.tail, s'.disk);
      ReplayOneKeepsPhase(start, s);
    case ClearRecovered =>
      ClearKeepsDurable(start, s.disk, s.lh, s'.disk);
      DurableWhenEmpty(start, s'.disk);
      NothingCached(start, s');
  }

  lemma BeginRefines(start: nat, s: State, p: nat)
    requires Good(start, s) && Enabled(start, s, Begin(p))
    ensures Good(start, Apply(start, s, Begin(p)))
    ensures AtomicNext(Abstract(start, s), Begin(p), Abstract(start, Apply(start, s, Begin(p))))
  {
    BeginKeepsOps(start, s, p);
  }

  lemma EndRefines(start: nat, s: State, p: nat)
    requires Good(start, s) && Enabled(start, s, End(p))
    ensures Good(start, Apply(start, s, End(p)))
    ensures AtomicNext(Abstract(start, s), End(p), Abstract(start, Apply(start, s, End(p))))
  {
    EndKeepsOps(start, s, p);
  }

  lemma FinishRefines(start: nat, s: State)
    requires Good(start, s) && Enabled(start, s, Finish)
    ensures Good(start, Apply(start, s, Finish))
    ensures AtomicNext(Abstract(start, s), Finish, Abstract(start, Apply(start, s, Finish)))
  {
    QuietKeepsOps(s, Apply(start, s, Finish));
  }

  // Every enabled step keeps the invariant and is a step of the atomic disk.
  lemma StepRefines(start: nat, s: State, step: Step)
    requires Good(start, s) && Enabled(start, s, step)
    ensures Good(start, Apply(start, s, step))
    ensures AtomicNext(Abstract(start, s), step, Abstract(start, Apply(start, s, step)))
  {
    hide Good;
    hide Enabled;
    hide Apply;
    hide Abstract;
    match step
    case Begin(p) => BeginRefines(start, s, p);
    case Write(p, b, data) => WriteRefines(start, s, p, b, data);
    case End(p) => EndRefines(start, s, p);
    case LogBlock => LogBlockRefines(start, s);
    case Commit => CommitRefines(start, s);
    case Install => InstallRefines(start, s);
    case Clear => ClearRefines(start, s);
    case Finish => FinishRefines(start, s);
    case Crash => CrashRefines(start, s);
    case ReadHead => RecoveryRefines(start, s, step);
    case ReplayOne => RecoveryRefines(start, s, step);
    case ClearRecovered => RecoveryRefines(start, s, step);
  }

  // ----- Whole runs

  // A run is a sequence of steps, each enabled where the ones before it lead.
  ghost predicate Legal(start: nat, init: State, steps: seq<Step>)
    decreases |steps|, 0
  {
    steps == [] ||
    (var k := |steps| - 1;
     Legal(start, init, steps[..k]) && Enabled(start, Exec(start, init, steps[..k]), steps[k]))
  }

  ghost function Exec(start: nat, init: State, steps: seq<Step>): State
    requires Legal(start, init, steps)
    decreases |steps|, 1
  {
    if steps == [] then init
    else
      var k := |steps| - 1;
      Apply(start, Exec(start, init, steps[..k]), steps[k])
  }

  lemma ExecSnoc(start: nat, init: State, steps: seq<Step>, step: Step)
    requires Legal(start, init, steps) && Enabled(start, Exec(start, init, steps), step)
    ensures Legal(start, init, steps + [step])
    ensures Exec(start, init, steps + [step]) == Apply(start, Exec(start, init, steps), step)
  {
    assert (steps + [step])[..|steps|] == steps;
  }

  // The invariant holds after every run.
  lemma {:induction false} ExecIsGood(start: nat, init: State, steps: seq<Step>)
    requires Good(start, init) && Legal(start, init, steps)
    ensures Good(start, Exec(start, init, steps))
  {
    if steps != [] {
      var k := |steps| - 1;
      ExecIsGood(start, init, steps[..k]);
      StepRefines(start, Exec(start, init, steps[..k]), steps[k]);
    }
  }

  // What callers saw when the last commit header of the run reached the disk.
  ghost function LastCommitted(start: nat, init: State, steps: seq<Step>): Disk
    requires Good(start, init) && Legal(start, init, steps)
  {
    if steps == [] then Durable(start, init.disk)
    else
      var k := |steps| - 1;
      if steps[k].Commit? then Current(start, Exec(start, init, steps[..k]))
      else LastCommitted(start, init, steps[..k])
  }

  // Only the commit write changes what survives.
  lemma StepDurable(start: nat, s: State, step: Step)
    requires Good(start, s) && Enabled(start, s, step)
    ensures Good(start, Apply(start, s, step))
    ensures Durable(start, Apply(start, s, step).disk) == if step.Commit? then Current(start, s) else Durable(start, s.disk)
  {
    hide Apply;
    StepRefines(start, s, step);
  }

  /**
    Crash atomicity.  Wherever a run stops, what recovery makes of the disk is exactly what
    callers saw at the last quiescent point whose header reached the disk, never a mix.
   */
  lemma {:induction false} RunIsAtomic(start: nat, init: State, steps: seq<Step>)
    requires Good(start, init) && Legal(start, init, steps)
    ensures Good(start, Exec(start, init, steps))
    ensures Durable(start, Exec(start, init, steps).disk) == LastCommitted(start, init, steps)
  {
    hide Good;
    hide Enabled;
    hide Apply;
    ExecIsGood(start, init, steps);
    if steps != [] {
      var k := |steps| - 1;
      RunIsAtomic(start, init, steps[..k]);
      StepDurable(start, Exec(start, init, steps[..k]), steps[k]);
    }
  }

  // A commit header is only ever written while no operation is outstanding.
  lemma CommitIsQuiescent(start: nat, init: State, steps: seq<Step>)
    requires Good(start, init) && Legal(start, init, steps) && steps != [] && steps[|steps| - 1].Commit?
    ensures Exec(start, init, steps[..|steps| - 1]).outstanding == 0
  {
    ExecIsGood(start, init, steps[..|steps| - 1]);
  }

  // The steps of end_op.
  ghost predicate Committing(step: Step) {
    step.End? || step.LogBlock? || step.Commit? || step.Install? || step.Clear? || step.Finish?
  }

  lemma CommittingStep(start: nat, s: State, step: Step)
    requires Good(start, s) && Enabled(start, s, step) && Committing(step)
    ensures var s' := Apply(start, s, step);
      && Good(start, s') && !s'.phase.Booting? && !s'.phase.Replaying?
      && Current(start, s') == Current(start, s)
      && Durable(start, s'.disk) == if step.Commit? then Current(start, s) else Durable(start, s.disk)
  {
    StepRefines(start, s, step);
  }

  /**
    All or nothing: cut end_op anywhere; the disk then means what callers saw when it started
    if the header was among the writes that got through, and is unchanged otherwise.
   */
  lemma {:induction false} CommitIsAllOrNothing(start: nat, init: State, steps: seq<Step>, more: seq<Step>)
    requires Good(start, init) && Legal(start, init, steps) && Legal(start, init, steps + more)
    requires !Exec(start, init, steps).phase.Booting? && !Exec(start, init, steps).phase.Replaying?
    requires forall j :: 0 <= j < |more| ==> Committing(more[j])
    ensures Good(start, Exec(start, init, steps)) && Good(start, Exec(start, init, steps + more))
    ensures var s, s' := Exec(start, init, steps), Exec(start, init, steps + more);
      && !s'.phase.Booting? && !s'.phase.Replaying?
      && Current(start, s') == Current(start, s)
      && Durable(start, s'.disk) == if Commit in more then Current(start, s) else Durable(start, s.disk)
  {
    hide Good;
    hide Enabled;
    hide Durable;
    hide Current;
    ExecIsGood(start, init, steps);
    if more == [] {
      assert steps + more == steps;
    } else {
      var k := |more| - 1;
      assert (steps + more)[..|steps| + k] == steps + more[..k];
      assert more == more[..k] + [more[k]];
      assert Committing(more[k]);
      CommitIsAllOrNothing(start, init, steps, more[..k]);
      CommittingStep(start, Exec(start, init, steps + more[..k]), more[k]);
    }
  }

  // Steps other than a commit header leave the recovered contents alone.
  lemma {:induction false} NoCommitNoChange(start: nat, init: State, steps: seq<Step>, more: seq<Step>)
    requires Good(start, init) && Legal(start, init, steps) && Legal(start, init, steps + more)
    requires Commit !in more
    ensures Good(start, Exec(start, init, steps)) && Good(start, Exec(start, init, steps + more))
    ensures Durable(start, Exec(start, init, steps + more).disk) == Durable(start, Exec(start, init, steps).disk)
  {
    hide Good;
    hide Enabled;
    hide Durable;
    ExecIsGood(start, init, steps);
    if more == [] {
      assert steps + more == steps;
    } else {
      var k := |more| - 1;
      assert (steps + more)[..|steps| + k] == steps + more[..k];
      assert more[k] in more;
      NoCommitNoChange(start, init, steps, more[..k]);
      StepRefines(start, Exec(start, init, steps + more[..k]), more[k]);
    }
  }

  // Once recovery completes, the home blocks hold exactly what the disk meant before it started,
  // however often recovery itself was cut short by crashes on the way.
  lemma RebootsAgree(start: nat, init: State, steps: seq<Step>, more: seq<Step>)
    requires Good(start, init) && Legal(start, init, steps) && Legal(start, init, steps + more)
    requires forall j :: 0 <= j < |more| ==>
      more[j].Crash? || more[j].ReadHead? || more[j].ReplayOne? || more[j].ClearRecovered?
    requires Exec(start, init, steps + more).phase.Ready?
    ensures Good(start, Exec(start, init, steps))
    ensures Home(start, Exec(start, init, steps + more).disk) == Durable(start, Exec(start, init, steps).disk)
  {
    NoCommitNoChange(start, init, steps, more);
    DurableWhenEmpty(start, Exec(start, init, steps + more).disk);
  }

  // ----- Log space

  // An operation that still has an unused block never meets "too big a transaction",
  // whatever the other operations have written.
  lemma BudgetNeverPanics(start: nat, s: State, p: nat)
    requires Good(start, s) && s.phase.Ready? && p < |s.ops| && s.ops[p].InOp?
    requires |s.ops[p].wrote| < MAXOPBLOCKS
    ensures !LogWritePanics(s)
  {
    ReserveBounds(s.ops);
  }

  // log_write tests for a full log before it looks for the block, so a rewrite of a block
  // that is already logged can panic; it does so exactly when the log is full, which takes
  // every outstanding operation to have used its whole budget.
  lemma FullLogExactly(start: nat, s: State, p: nat)
    requires Good(start, s) && s.phase.Ready? && p < |s.ops| && s.ops[p].InOp?
    ensures LogWritePanics(s) <==> |s.lh| == LOGBLOCKS
    ensures LogWritePanics(s) ==>
      forall q :: 0 <= q < |s.ops| && s.ops[q].InOp? ==> |s.ops[q].wrote| == MAXOPBLOCKS
  {
    ReserveBounds(s.ops);
  }

  // The state s' is s after operation p has logged k blocks from `base` on.
  ghost predicate LoggedFrom(s: State, s': State, p: nat, base: int, k: nat) {
    && p < |s.ops| == |s'.ops| && s'.phase.Ready? && s'.disk == s.disk && s'.outstanding == s.outstanding
    && |s'.lh| == |s.lh| + k && (forall b :: b in s'.lh ==> b < base + k)
    && s'.ops[p].InOp? && |s'.ops[p].wrote| == k && (forall b :: b in s'.ops[p].wrote ==> b < base + k)
    && (k > 0 ==> base in s'.ops[p].wrote)
    && forall q :: 0 <= q < |s.ops| && q != p ==> s'.ops[q] == s.ops[q]
  }

  lemma LogOneFresh(start: nat, s: State, s': State, p: nat, base: int, k: nat)
    requires LoggedFrom(s, s', p, base, k) && Good(start, s')
    requires k < MAXOPBLOCKS && start + LOGBLOCKS < base && base + k < |s.disk|
    ensures Enabled(start, s', Write(p, base + k, Block([])))
    ensures LoggedFrom(s, Apply(start, s', Write(p, base + k, Block([]))), p, base, k + 1)
  {
    BudgetNeverPanics(start, s', p);
    assert base + k !in s'.lh && base + k !in s'.ops[p].wrote;
  }

  // An operation logs k fresh consecutive blocks.
  lemma {:induction false} LogFresh(start: nat, init: State, steps: seq<Step>, p: nat, base: int, k: nat)
    returns (steps': seq<Step>)
    requires Good(start, init) && Legal(start, init, steps) && k <= MAXOPBLOCKS
    requires LoggedFrom(Exec(start, init, steps), Exec(start, init, steps), p, base, 0)
    requires start + LOGBLOCKS < base && base + k <= |Exec(start, init, steps).disk|
    ensures Legal(start, init, steps')
    ensures LoggedFrom(Exec(start, init, steps), Exec(start, init, steps'), p, base, k)
  {
    hide LoggedFrom;
    hide Good;
    hide Enabled;
    if k == 0 { return steps; }
    var before := LogFresh(start, init, steps, p, base, k - 1);
    var step := Write(p, base + k - 1, Block([]));
    ExecIsGood(start, init, before);
    LogOneFresh(start, Exec(start, init, steps), Exec(start, init, before), p, base, k - 1);
    ExecSnoc(start, init, before, step);
    steps' := before + [step];
  }

  lemma BeginIdle(start: nat, init: State, steps: seq<Step>, p: nat) returns (steps': seq<Step>)
    requires Legal(start, init, steps)
    requires Enabled(start, Exec(start, init, steps), Begin(p))
    ensures Legal(start, init, steps')
    ensures Exec(start, init, steps') == Apply(start, Exec(start, init, steps), Begin(p))
  {
    ExecSnoc(start, init, steps, Begin(p));
    steps' := steps + [Begin(p)];
  }

  lemma OwnBlocksLogged(start: nat, s: State, p: nat, b: int)
    requires Good(start, s) && p < |s.ops| && s.ops[p].InOp? && b in s.ops[p].wrote
    ensures b in s.lh
  {
    var op := s.ops[p];
    assert forall c :: c in op.wrote ==> c in s.lh;
  }

  lemma BeginThree(start: nat, init: State) returns (steps: seq<Step>)
    requires Good(start, init) && init.phase.Ready? && init.lh == [] && init.outstanding == 0 && |init.ops| >= 3
    ensures Legal(start, init, steps)
    ensures var s := Exec(start, init, steps);
      s == init.(outstanding := 3, ops := init.ops[0 := InOp({})][1 := InOp({})][2 := InOp({})])
  {
    NoneRunning(init.ops);
    steps := BeginIdle(start, init, [], 0);
    steps := BeginIdle(start, init, steps, 1);
    steps := BeginIdle(start, init, steps, 2);
  }

  /**
    "Ten distinct blocks per operation" is not enough for log_write: from every idle log there is
    a run in which three admitted operations log ten blocks each, and the next rewrite of a
    block the first one has already logged panics.
   */
  lemma RewriteCanPanic(start: nat, init: State) returns (steps: seq<Step>, b: int)
    requires Good(start, init) && init.phase.Ready? && init.lh == [] && init.outstanding == 0
    requires |init.ops| >= 3 && start + LOGBLOCKS + 1 + LOGBLOCKS <= |init.disk|
    ensures Legal(start, init, steps)
    ensures var s := Exec(start, init, steps);
      s.phase.Ready? && |s.ops| == |init.ops| && b in s.lh && s.ops[0].InOp? && b in s.ops[0].wrote
      && WithinBudget(s.ops[0], b) && LogWritePanics(s)
  {
    hide Legal;
    hide Exec;
    hide Good;
    var base := start + LOGBLOCKS + 1;
    steps := BeginThree(start, init);
    steps := LogFresh(start, init, steps, 0, base, MAXOPBLOCKS);
    steps := LogFresh(start, init, steps, 1, base + MAXOPBLOCKS, MAXOPBLOCKS);
    steps := LogFresh(start, init, steps, 2, base + 2 * MAXOPBLOCKS, MAXOPBLOCKS);
    b := base;
    ExecIsGood(start, init, steps);
    OwnBlocksLogged(start, Exec(start, init, steps), 0, b);
  }
}
