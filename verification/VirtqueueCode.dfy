/**
  The disk driver of kernel/virtio_disk.c as code.  Each method is one section under
  vdisk_lock, or one step of the device; they may be called in any order that the callers'
  own locks allow, and each keeps the invariant of Virtqueue.
 */
module VirtqueueCode {
  import opened Virtqueue

  class VirtioDisk<B> {
    var free: seq<bool>
    var desc: seq<Desc>
    var ops: seq<Op>
    var info: seq<Info>
    var availRing: seq<nat>
    var availIdx: nat
    var usedRing: seq<nat>
    var usedIdx: nat
    var seenIdx: nat
    var busy: seq<bool>
    var data: seq<B>
    var image: seq<B>
    var devIdx: nat            // how far the device has looked in the avail ring
    ghost var now: State<B>    // all of the above, with the history of the requests

    ghost predicate Tied()
      reads this
    {
      && now.free == free && now.desc == desc && now.ops == ops && now.info == info
      && now.availRing == availRing && now.availIdx == availIdx && now.usedRing == usedRing && now.usedIdx == usedIdx
      && now.seenIdx == seenIdx && now.busy == busy && now.data == data && now.image == image
    }

    ghost predicate Valid()
      reads this
    {
      Tied() && Good(now) && |now.pending| <= now.posted && devIdx == (now.posted - |now.pending|) % WRAP
    }

    constructor (blocks: seq<B>, buffers: seq<B>)
      requires |blocks| <= BLOCKS
      ensures Valid() && image == blocks && data == buffers && now.pending == now.completed == []
      ensures forall h :: 0 <= h < NUM ==> !Active(now, h)
    {
      free := seq(NUM, _ => true);
      desc := seq(NUM, _ => EMPTY);
      ops := seq(NUM, _ => Op(false, 0));
      info := seq(NUM, _ => Info(-1, 0));
      availRing, availIdx := seq(NUM, _ => 0), 0;
      usedRing, usedIdx := seq(NUM, _ => 0), 0;
      seenIdx, devIdx := 0, 0;
      busy := seq(|buffers|, _ => false);
      data, image := buffers, blocks;
      now := State(seq(NUM, _ => true), seq(NUM, _ => EMPTY), seq(NUM, _ => Op(false, 0)), seq(NUM, _ => Info(-1, 0)),
                   seq(NUM, _ => 0), 0, seq(NUM, _ => 0), 0, 0, seq(|buffers|, _ => false), buffers, blocks,
                   seq(NUM, _ => -1), seq(NUM, _ => Req(0, 0, 0, false, 0, Idle)), [], [], 0, 0);
    }

    // ----- Descriptors

    method AllocDesc() returns (i: int)
      requires |free| == NUM
      modifies this`free
      ensures i == -1 ==> free == old(free) && forall j :: 0 <= j < NUM ==> !free[j]
      ensures i != -1 ==> 0 <= i < NUM && old(free)[i] && free == old(free)[i := false] && forall j :: 0 <= j < i ==> !free[j]
    {
      i := 0;
      while i < NUM
        invariant 0 <= i <= NUM && free == old(free)
        invariant forall j :: 0 <= j < i ==> !free[j]
      {
        if free[i] {
          free := free[i := false];
          return;
        }
        i := i + 1;
      }
      i := -1;
    }

    // The two requires are the source's two panics.
    method FreeDesc(i: nat)
      requires |free| == |desc| == NUM && i < NUM && !free[i]
      modifies this`free, this`desc
      ensures free == old(free)[i := true] && desc == old(desc)[i := EMPTY]
    {
      desc := desc[i := EMPTY];
      free := free[i := true];
    }

    static ghost predicate FewFree(free: seq<bool>)
      requires |free| == NUM
    {
      forall a, b, c :: 0 <= a < b < c < NUM ==> !free[a] || !free[b] || !free[c]
    }

    static ghost predicate Increasing(idx: seq<nat>) {
      && (forall i, j :: 0 <= i < j < |idx| ==> idx[i] < idx[j])
      && (forall i :: 0 <= i < |idx| ==> idx[i] < NUM)
    }

    static predicate In(idx: seq<nat>, d: nat) {
      exists i :: 0 <= i < |idx| && idx[i] == d
    }

    // `free` is `was` with the descriptors in idx taken.
    static ghost predicate Taken(was: seq<bool>, free: seq<bool>, idx: seq<nat>) {
      && |was| == |free| == NUM
      && forall d :: 0 <= d < NUM ==> (free[d] <==> was[d] && !In(idx, d))
    }

    method GiveBack(idx: seq<nat>, ghost was: seq<bool>)
      requires |free| == |desc| == NUM && Taken(was, free, idx) && Increasing(idx)
      requires forall i :: 0 <= i < |idx| ==> was[idx[i]] && desc[idx[i]] == EMPTY
      modifies this`free, this`desc
      ensures free == was && desc == old(desc)
    {
      var j := 0;
      while j < |idx|
        invariant 0 <= j <= |idx| && desc == old(desc) && Taken(was, free, idx[j..])
      {
        assert In(idx[j..], idx[j]) by { assert idx[j..][0] == idx[j]; }
        ghost var before := free;
        FreeDesc(idx[j]);
        forall d | 0 <= d < NUM ensures In(idx[j..], d) <==> d == idx[j] || In(idx[j + 1..], d) {
          InRest(idx, j, d);
        }
        NotLater(idx, j);
        j := j + 1;
      }
    }

    static lemma InRest(idx: seq<nat>, j: nat, d: nat)
      requires j < |idx|
      ensures In(idx[j..], d) <==> d == idx[j] || In(idx[j + 1..], d)
    {
      assert idx[j..] == [idx[j]] + idx[j + 1..];
      if i :| 0 <= i < |idx[j..]| && idx[j..][i] == d && i > 0 { assert idx[j + 1..][i - 1] == d; }
    }

    static lemma NotLater(idx: seq<nat>, j: nat)
      requires j < |idx| && Increasing(idx)
      ensures !In(idx[j + 1..], idx[j])
    {
    }

    static lemma InMore(idx: seq<nat>, x: nat, d: nat)
      ensures In(idx + [x], d) <==> d == x || In(idx, d)
    {
      assert (idx + [x])[|idx|] == x;
      if i :| 0 <= i < |idx| && idx[i] == d { assert (idx + [x])[i] == d; }
    }

    /** Three distinct free descriptors, or none and nothing changed. */
    method Alloc3Desc() returns (ok: bool, idx: seq<nat>)
      requires |free| == |desc| == NUM && forall d :: 0 <= d < NUM && free[d] ==> desc[d] == EMPTY
      modifies this`free, this`desc
      ensures desc == old(desc)
      ensures !ok ==> free == old(free) && FewFree(free)
      ensures ok ==> |idx| == 3 && idx[0] < idx[1] < idx[2] < NUM && old(free)[idx[0]] && old(free)[idx[1]] && old(free)[idx[2]]
      ensures ok ==> free == old(free)[idx[0] := false][idx[1] := false][idx[2] := false]
    {
      idx := [];
      var i := 0;
      while i < 3
        invariant 0 <= i <= 3 && |idx| == i && desc == old(desc) && Increasing(idx) && Taken(old(free), free, idx)
        invariant forall j :: 0 <= j < i ==> old(free)[idx[j]]
        invariant i > 0 ==> forall d :: 0 <= d <= idx[i - 1] ==> !free[d]
      {
        ghost var before := free;
        var d := AllocDesc();
        if d < 0 {
          Exhausted(old(free), free, idx);
          GiveBack(idx, old(free));
          return false, idx;
        }
        forall e | 0 <= e < NUM ensures In(idx + [d], e) <==> e == d || In(idx, e) { InMore(idx, d, e); }
        idx := idx + [d];
        i := i + 1;
      }
      ok := true;
      TakenThree(old(free), free, idx);
    }

    static lemma Exhausted(was: seq<bool>, free: seq<bool>, idx: seq<nat>)
      requires Taken(was, free, idx) && |idx| < 3 && forall d :: 0 <= d < NUM ==> !free[d]
      ensures FewFree(was)
    {
      forall a, b, c | 0 <= a < b < c < NUM ensures !was[a] || !was[b] || !was[c] {
        assert was[a] ==> In(idx, a);
        assert was[b] ==> In(idx, b);
        assert was[c] ==> In(idx, c);
      }
    }

    static lemma TakenThree(was: seq<bool>, free: seq<bool>, idx: seq<nat>)
      requires Taken(was, free, idx) && |idx| == 3 && Increasing(idx)
      ensures free == was[idx[0] := false][idx[1] := false][idx[2] := false]
    {
      assert In(idx, idx[0]) && In(idx, idx[1]) && In(idx, idx[2]);
    }

    // free_chain: follow the chain from its head, freeing as it goes.
    method FreeChain(h: nat)
      requires Tied() && Shape(now) && h < NUM && OwnsChain(now, h) && Formatted(now, h)
      requires !free[h] && !free[now.req[h].mid] && !free[now.req[h].tail]
      modifies this`free, this`desc
      ensures var r := now.req[h];
        && free == old(free)[h := true][r.mid := true][r.tail := true]
        && desc == old(desc)[h := EMPTY][r.mid := EMPTY][r.tail := EMPTY]
    {
      var i := h;
      ghost var mid, tail := now.req[h].mid, now.req[h].tail;
      ghost var left := 2;
      var more := true;
      while more
        invariant |free| == |desc| == NUM && -1 <= left <= 2 && (more <==> left >= 0)
        invariant left == 2 ==> i == h && free == old(free) && desc == old(desc)
        invariant left == 1 ==> i == mid && free == old(free)[h := true] && desc == old(desc)[h := EMPTY]
        invariant left == 0 ==> i == tail && free == old(free)[h := true][mid := true] && desc == old(desc)[h := EMPTY][mid := EMPTY]
        invariant left == -1 ==> free == old(free)[h := true][mid := true][tail := true]
        invariant left == -1 ==> desc == old(desc)[h := EMPTY][mid := EMPTY][tail := EMPTY]
        decreases left
      {
        var flag, next := desc[i].more, desc[i].next;
        FreeDesc(i);
        more := flag;
        i := if flag then next else i;
        left := left - 1;
      }
    }

    // ----- The driver

    /**
      virtio_disk_rw up to its wait: post the request, or report that it must sleep because
      fewer than three descriptors are free.  The caller holds the buffer's lock.
     */
    method Start(b: nat, write: bool, blockno: nat) returns (ok: bool, h: nat)
      requires Valid() && b < |busy| && blockno < |image| && Unused(now, b)
      modifies this
      ensures Valid() && devIdx == old(devIdx)
      ensures !ok ==> now == old(now) && FewFree(free)
      ensures ok ==> h < NUM && now.req[h].buf == b && now.req[h].write == write && now.req[h].block == blockno
      ensures ok ==> CanPost(old(now), now.req[h], h)
      ensures ok ==> now == Post(old(now), now.req[h], h)
    {
      hide Owners;
      hide Formats;
      hide Rings;
      hide FewFree;
      hide Unused;
      FreeEmpty(now);
      var idx;
      ok, idx := Alloc3Desc();
      if !ok { return false, 0; }
      h := idx[0];
      ghost var r := Req(idx[1], idx[2], b, write, blockno, Posted(now.posted));
      PostKeeps(now, r, h);
      Prepare(idx[0], idx[1], idx[2], b, write, blockno);
      now := Post(now, r, h);
    }

    // Fill in the three descriptors of a request, then tell the device.
    method Prepare(i0: nat, i1: nat, i2: nat, b: nat, write: bool, blockno: nat)
      requires |desc| == |ops| == |info| == |availRing| == NUM && i0 < NUM && i1 < NUM && i2 < NUM && b < |busy| && blockno < BLOCKS
      modifies this`desc, this`ops, this`info, this`busy, this`availRing, this`availIdx
      ensures ops == old(ops)[i0 := Op(write, 2 * blockno)] && info == old(info)[i0 := Info(b, 0xff)] && busy == old(busy)[b := true]
      ensures desc == old(desc)[i0 := Desc(OpAddr(i0), false, true, i1)][i1 := Desc(DataAddr(b), !write, true, i2)]
                               [i2 := Desc(StatusAddr(i0), true, false, 0)]
      ensures availRing == old(availRing)[old(availIdx) % NUM := i0] && availIdx == (old(availIdx) + 1) % WRAP
    {
      var sector := blockno * 2 % 0x1_0000_0000;
      ops := ops[i0 := Op(write, sector)];
      desc := desc[i0 := Desc(OpAddr(i0), false, true, i1)];
      desc := desc[i1 := Desc(DataAddr(b), !write, true, i2)];
      info := info[i0 := info[i0].(status := 0xff)];
      desc := desc[i2 := Desc(StatusAddr(i0), true, false, 0)];
      busy := busy[b := true];
      info := info[i0 := info[i0].(b := b)];
      availRing := availRing[availIdx % NUM := i0];
      availIdx := (availIdx + 1) % WRAP;
    }

    // One turn of virtio_disk_intr: wake the owner of one completed request, or panic if it failed.
    method IntrTurn() returns (found: bool, failed: bool)
      requires Valid()
      modifies this`busy, this`seenIdx, this`now
      ensures Valid()
      ensures found <==> old(now.completed) != []
      ensures found ==> CanSee(old(now)) && old(now.req)[old(now.completed)[0]].phase.Done?
      ensures failed <==> found && info[old(now.completed)[0]].status != 0
      ensures now == if found && !failed then See(old(now)) else old(now)
    {
      hide Owners;
      hide Formats;
      hide Rings;
      SeenAll(now);
      if seenIdx == usedIdx { return false, false; }
      SeeKeeps(now);
      var id := usedRing[seenIdx % NUM];
      if info[id].status != 0 { return true, true; }
      busy := busy[info[id].b := false];
      seenIdx := (seenIdx + 1) % WRAP;
      now := See(now);
      return true, false;
    }

    // virtio_disk_intr, while the device adds nothing: every completed request is seen.
    method Intr() returns (failed: bool)
      requires Valid()
      modifies this`busy, this`seenIdx, this`now
      ensures Valid()
      ensures !failed ==> now.completed == []
      ensures failed ==> exists i :: 0 <= i < |old(now.completed)| && old(now.completed)[i] < |info| && info[old(now.completed)[i]].status != 0
    {
      hide Good;
      failed := false;
      var found := true;
      while found && !failed
        invariant Valid() && |now.completed| <= |old(now.completed)|
        invariant now.completed == old(now.completed)[|old(now.completed)| - |now.completed|..]
        invariant !found ==> now.completed == []
        invariant failed ==> now.completed != [] && now.completed[0] < |info| && info[now.completed[0]].status != 0
        decreases |now.completed|, found, !failed
      {
        found, failed := IntrTurn();
      }
      if failed {
        ghost var i := |old(now.completed)| - |now.completed|;
        assert old(now.completed)[i] == now.completed[0];
      }
    }

    /**
      The rest of virtio_disk_rw, once its wait finds b->disk clear: by then the device has
      completed this very request, and its three descriptors are freed without a panic.
     */
    method End(h: nat)
      requires Valid() && Active(now, h) && now.req[h].buf < |busy| && !busy[now.req[h].buf]
      modifies this`free, this`desc, this`info, this`now
      ensures old(now).req[h].phase.Seen? && OwnsChain(old(now), h)
      ensures Valid() && now == Finish(old(now), h)
    {
      hide Rings;
      hide Owners;
      hide Formats;
      FormatIs(now, h);
      FinishKeeps(now, h);
      FreeIs(now, h);
      FreeIs(now, now.req[h].mid);
      FreeIs(now, now.req[h].tail);
      FreeChain(h);
      info := info[h := info[h].(b := -1)];
      now := Finish(now, h);
    }

    // ----- The device

    /** The device takes the next entry of the avail ring: the oldest posted request, intact. */
    method DeviceTake() returns (h: nat)
      requires Valid() && devIdx != availIdx
      modifies this`devIdx, this`now
      ensures old(now.pending) != [] && h == old(now.pending)[0] && Active(old(now), h) && old(now).req[h].phase.Posted?
      ensures Valid() && now == Take(old(now))
    {
      hide Owners;
      hide Formats;
      assert now.pending != [];
      TakeKeeps(now);
      WrapSlot(now.posted - |now.pending|);
      TakeFinds(now);
      h := availRing[devIdx % NUM];
      devIdx := (devIdx + 1) % WRAP;
      now := Take(now);
    }

    method Transfer(op: Op, b: nat, i: nat, status: nat)
      requires b < |data| && op.sector / 2 < |image| && i < |info|
      modifies this`data, this`image, this`info
      ensures data == if op.out || status != 0 then old(data) else old(data)[b := old(image)[op.sector / 2]]
      ensures image == if op.out && status == 0 then old(image)[op.sector / 2 := old(data)[b]] else old(image)
      ensures info == old(info)[i := old(info)[i].(status := status)]
    {
      if op.out && status == 0 {
        image := image[op.sector / 2 := data[b]];
      } else if status == 0 {
        data := data[b := image[op.sector / 2]];
      }
      info := info[i := info[i].(status := status)];
    }

    /** The device completes a request it has taken, by what it finds in the chain. */
    method DeviceComplete(h: nat, status: nat)
      requires Valid() && Active(now, h) && now.req[h].phase.Working?
      modifies this`data, this`image, this`info, this`usedRing, this`usedIdx, this`now
      ensures Valid() && Executable(old(now), h) && now == Complete(old(now), h, status)
    {
      hide Owners;
      hide Formats;
      hide Rings;
      CompleteKeeps(now, h, status);
      Transfer(ops[desc[h].addr.i], desc[desc[h].next].addr.b, desc[desc[desc[h].next].next].addr.i, status);
      usedRing := usedRing[usedIdx % NUM := h];
      usedIdx := (usedIdx + 1) % WRAP;
      now := Complete(now, h, status);
    }
  }
}
