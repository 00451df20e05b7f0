/**
  What virtio_disk_rw promises its caller, over whole runs of the driver and the device: when it
  returns, its own request has been carried out.
 */
module VirtqueueRuns {
  import opened Virtqueue

  // A request in flight keeps its identity until it is finished.
  lemma RequestKept<B>(s: State<B>, step: Step, h: nat)
    requires Good(s) && Enabled(s, step) && Active(s, h) && step != DoFinish(h)
    ensures var s' := Apply(s, step); Shape(s') && Active(s', h) && s'.req[h] == s.req[h].(phase := s'.req[h].phase)
  {
    hide Owners;
    hide Formats;
    hide Rings;
    StepKeepsGood(s, step);
    match step {
      case DoPost(r, k) => FreeIs(s, k); ActiveIs(s, h);
      case DoTake => TakeFinds(s);
      case DoComplete(k, status) =>
      case DoSee => SeeFinds(s);
      case DoFinish(k) =>
    }
  }

  // Its buffer is changed by its own completion only, and its status byte too.
  lemma BufferKept<B>(s: State<B>, step: Step, h: nat)
    requires Good(s) && Enabled(s, step) && Active(s, h) && !(step.DoComplete? && step.h == h)
    ensures var s' := Apply(s, step);
      && Shape(s') && s.req[h].buf < |s.data| == |s'.data|
      && s'.data[s.req[h].buf] == s.data[s.req[h].buf] && s'.info[h].status == s.info[h].status
  {
    hide Owners;
    hide Rings;
    StepKeepsGood(s, step);
    FormatIs(s, h);
    match step {
      case DoPost(r, k) => FreeIs(s, k); ActiveIs(s, h);
      case DoTake =>
      case DoComplete(k, status) => CompleteDoes(s, k, status);
      case DoSee =>
      case DoFinish(k) =>
    }
  }

  // No step from p on up to n completes or finishes h.
  ghost predicate Uncompleted(steps: seq<Step>, p: nat, n: nat, h: nat) {
    forall j :: p < j < n && j < |steps| ==> !(steps[j].DoComplete? && steps[j].h == h)
  }

  ghost predicate Unfinished(steps: seq<Step>, p: nat, n: nat, h: nat) {
    forall j :: p < j < n && j < |steps| ==> steps[j] != DoFinish(h)
  }

  // Step c is the one completion of the request posted at p, with this status.
  ghost predicate CompletedAt(steps: seq<Step>, p: nat, n: nat, h: nat, c: nat, status: nat) {
    && p < c < n <= |steps| && steps[c] == DoComplete(h, status)
    && Uncompleted(steps, p, c, h) && Uncompleted(steps, c, n, h)
  }

  // By that step the block went into the buffer, where it still is at n, or the buffer as it was
  // posted went into the block.
  ghost predicate Moved<B>(states: seq<State<B>>, r: Req, p: nat, n: nat, c: nat)
    requires p < c < n < |states|
  {
    && r.buf < |states[n].data| && r.buf < |states[p].data| && r.block < |states[c].image| && r.block < |states[c + 1].image|
    && (!r.write ==> states[n].data[r.buf] == states[c].image[r.block])
    && (r.write ==> states[c + 1].image[r.block] == states[p].data[r.buf])
  }

  // Where a request posted at p stands at n; c is its completion, if it has had it.
  ghost predicate Tracked<B>(states: seq<State<B>>, steps: seq<Step>, p: nat, n: nat, r: Req, h: nat, c: nat)
    requires p < n < |states| == |steps| + 1
  {
    && Shape(states[n]) && Active(states[n], h)
    && var now := states[n].req[h];
    && now == r.(phase := now.phase)
    && match now.phase
       case Idle => false
       case Posted(_) => Waiting(states, steps, p, n, r, h)
       case Working => Waiting(states, steps, p, n, r, h)
       case Done(_) =>
         CompletedAt(steps, p, n, h, c, states[n].info[h].status) && (states[n].info[h].status == 0 ==> Moved(states, r, p, n, c))
       case Seen => CompletedAt(steps, p, n, h, c, 0) && Moved(states, r, p, n, c)
  }

  ghost predicate Waiting<B>(states: seq<State<B>>, steps: seq<Step>, p: nat, n: nat, r: Req, h: nat)
    requires p < n < |states|
  {
    && Uncompleted(steps, p, n, h)
    && r.buf < |states[n].data| && r.buf < |states[p].data| && states[n].data[r.buf] == states[p].data[r.buf]
  }

  lemma TrackCompletion<B>(states: seq<State<B>>, steps: seq<Step>, p: nat, n: nat, r: Req, h: nat, c: nat)
    requires |states| == |steps| + 1 && p < n < |steps| && Good(states[n]) && Enabled(states[n], steps[n])
    requires steps[n].DoComplete? && steps[n].h == h && states[n + 1] == Apply(states[n], steps[n])
    requires Tracked(states, steps, p, n, r, h, c)
    ensures Tracked(states, steps, p, n + 1, r, h, n)
  {
    hide Owners;
    hide Formats;
    hide Rings;
    StepKeepsGood(states[n], steps[n]);
    CompleteDoes(states[n], h, steps[n].status);
  }

  lemma TrackOther<B>(states: seq<State<B>>, steps: seq<Step>, p: nat, n: nat, r: Req, h: nat, c: nat)
    requires |states| == |steps| + 1 && p < n < |steps| && Good(states[n]) && Enabled(states[n], steps[n])
    requires !(steps[n].DoComplete? && steps[n].h == h) && steps[n] != DoFinish(h) && states[n + 1] == Apply(states[n], steps[n])
    requires Tracked(states, steps, p, n, r, h, c)
    ensures Tracked(states, steps, p, n + 1, r, h, c)
  {
    hide Good;
    hide Apply;
    GoodShape(states[n]);
    RequestKept(states[n], steps[n], h);
    BufferKept(states[n], steps[n], h);
    PhaseMoves(states[n], steps[n], h);
  }

  lemma GoodShape<B>(s: State<B>)
    requires Good(s)
    ensures Shape(s)
  {
  }

  lemma {:induction false} Track<B>(states: seq<State<B>>, steps: seq<Step>, p: nat, n: nat, r: Req, h: nat) returns (c: nat)
    requires Run(states, steps) && Good(states[0]) && p < n <= |steps| && steps[p] == DoPost(r, h) && Unfinished(steps, p, n, h)
    ensures Tracked(states, steps, p, n, r, h, c)
    decreases n
  {
    hide Good;
    hide Apply;
    hide Enabled;
    hide Tracked;
    RunKeepsGood(states, steps, n - 1);
    if n == p + 1 {
      c := 0;
      JustPosted(states, steps, p, r, h);
    } else {
      c := Track(states, steps, p, n - 1, r, h);
      if steps[n - 1].DoComplete? && steps[n - 1].h == h {
        TrackCompletion(states, steps, p, n - 1, r, h, c);
        c := n - 1;
      } else {
        TrackOther(states, steps, p, n - 1, r, h, c);
      }
    }
  }

  lemma JustPosted<B>(states: seq<State<B>>, steps: seq<Step>, p: nat, r: Req, h: nat)
    requires |states| == |steps| + 1 && p < |steps| && Good(states[p]) && Enabled(states[p], steps[p])
    requires steps[p] == DoPost(r, h) && states[p + 1] == Apply(states[p], steps[p])
    ensures Tracked(states, steps, p, p + 1, r, h, 0)
  {
    hide Owners;
    hide Formats;
    hide Rings;
  }

  /**
    Over every run: between the posting of a request and the return of its virtio_disk_rw the
    device has completed that request exactly once, with status 0; a read returns with what the
    block held when it was completed, and a write has stored the buffer as it was posted.
   */
  lemma ReturnsServed<B>(states: seq<State<B>>, steps: seq<Step>, p: nat, q: nat, r: Req, h: nat) returns (c: nat)
    requires Run(states, steps) && Good(states[0]) && p < q < |steps|
    requires steps[p] == DoPost(r, h) && steps[q] == DoFinish(h) && Unfinished(steps, p, q, h)
    ensures CompletedAt(steps, p, q, h, c, 0) && Moved(states, r, p, q, c)
  {
    hide Good;
    hide Apply;
    c := Track(states, steps, p, q, r, h);
    RunKeepsGood(states, steps, q);
    FinishIsSeen(states[q], h);
  }
}
