/**
  The virtqueue of kernel/virtio_disk.c (VIRTIO 1.1, sections 2.6 and 5.2): the state that the
  driver and a conforming device share, and the invariant that every step of either keeps.
 */
module Virtqueue {
  import Counters

  const NUM := 8
  const WRAP := 0x1_0000            // ring indices are 16 bits wide
  const BLOCKS := 0x8000_0000       // sector numbers are computed in 32 bits

  datatype Addr = Null | OpAddr(i: nat) | DataAddr(b: nat) | StatusAddr(i: nat)

  /** A descriptor; `write` and `more` are its flags VRING_DESC_F_WRITE and VRING_DESC_F_NEXT. */
  datatype Desc = Desc(addr: Addr, write: bool, more: bool, next: nat)

  const EMPTY := Desc(Null, false, false, 0)

  datatype Op = Op(out: bool, sector: nat)

  datatype Info = Info(b: int, status: nat)  // b is -1 for none

  /** Where a request is. */
  datatype Phase = Idle | Posted(k: nat) | Working | Done(k: nat) | Seen  // k counts from the first request on

  /** A request, by its head descriptor: history for the proof. */
  datatype Req = Req(mid: nat, tail: nat, buf: nat, write: bool, block: nat, phase: Phase)

  datatype State<B> = State(
    free: seq<bool>, desc: seq<Desc>, ops: seq<Op>, info: seq<Info>,
    availRing: seq<nat>, availIdx: nat, usedRing: seq<nat>, usedIdx: nat,
    seenIdx: nat,               // the driver's disk.used_idx
    busy: seq<bool>,            // b->disk of each buffer
    data: seq<B>,               // b->data of each buffer
    image: seq<B>,              // the blocks on the device
    owner: seq<int>,            // the head of the chain a descriptor is in, or -1
    req: seq<Req>,              // indexed by head
    pending: seq<nat>,          // heads the device has not taken, oldest first
    completed: seq<nat>,        // heads in the used ring that the driver has not seen
    posted: nat, done: nat      // how many requests were ever posted and completed
  )

  predicate Shape<B>(s: State<B>) {
    && |s.free| == |s.desc| == |s.ops| == |s.info| == |s.availRing| == |s.usedRing| == |s.owner| == |s.req| == NUM
    && |s.busy| == |s.data| && |s.image| <= BLOCKS
  }

  predicate Active<B>(s: State<B>, h: int)
    requires Shape(s)
  {
    0 <= h < NUM && !s.req[h].phase.Idle?
  }

  predicate InChain(r: Req, h: int, d: int) {
    d == h || d == r.mid || d == r.tail
  }

  predicate OwnsChain<B>(s: State<B>, h: nat)
    requires Shape(s) && h < NUM
  {
    var r := s.req[h];
    && r.mid < NUM && r.tail < NUM && h != r.mid && h != r.tail && r.mid != r.tail
    && s.owner[h] == h && s.owner[r.mid] == h && s.owner[r.tail] == h
  }

  // Chains are disjoint lists of three, and they are exactly the descriptors that are not free.
  ghost predicate Owners<B>(s: State<B>)
    requires Shape(s)
  {
    && (forall d :: 0 <= d < NUM ==> (s.free[d] <==> s.owner[d] == -1))
    && (forall h :: Active(s, h) ==> OwnsChain(s, h))
    && (forall d :: 0 <= d < NUM && s.owner[d] != -1 ==> Active(s, s.owner[d]) && InChain(s.req[s.owner[d]], s.owner[d], d))
  }

  lemma FreeIs<B>(s: State<B>, d: nat)
    requires Shape(s) && Owners(s) && d < NUM
    ensures s.free[d] <==> s.owner[d] == -1
  {
  }

  lemma ActiveIs<B>(s: State<B>, h: nat)
    requires Shape(s) && Owners(s) && Active(s, h)
    ensures OwnsChain(s, h)
  {
  }

  lemma OwnedIs<B>(s: State<B>, d: nat)
    requires Shape(s) && Owners(s) && d < NUM && s.owner[d] != -1
    ensures Active(s, s.owner[d]) && InChain(s.req[s.owner[d]], s.owner[d], d)
  {
  }

  lemma OwnersIf<B>(s: State<B>)
    requires Shape(s) && forall d :: 0 <= d < NUM ==> (s.free[d] <==> s.owner[d] == -1)
    requires forall h :: Active(s, h) ==> OwnsChain(s, h)
    requires forall d :: 0 <= d < NUM && s.owner[d] != -1 ==> Active(s, s.owner[d]) && InChain(s.req[s.owner[d]], s.owner[d], d)
    ensures Owners(s)
  {
  }

  // What virtio_disk_rw puts into a chain.
  ghost predicate Formatted<B>(s: State<B>, h: nat)
    requires Shape(s) && h < NUM && s.req[h].mid < NUM && s.req[h].tail < NUM
  {
    var r := s.req[h];
    && s.desc[h] == Desc(OpAddr(h), false, true, r.mid)
    && s.desc[r.mid] == Desc(DataAddr(r.buf), !r.write, true, r.tail)
    && s.desc[r.tail] == Desc(StatusAddr(h), true, false, 0)
    && s.ops[h] == Op(r.write, 2 * r.block) && s.info[h].b == r.buf
    && r.buf < |s.busy| && r.block < |s.image|
    && (s.busy[r.buf] <==> !r.phase.Seen?)
  }

  ghost predicate Formats<B>(s: State<B>)
    requires Shape(s) && Owners(s)
  {
    && (forall h :: Active(s, h) ==> Formatted(s, h))
    && (forall d :: 0 <= d < NUM && s.free[d] ==> s.desc[d] == EMPTY)
    && (forall h, k :: Active(s, h) && Active(s, k) && s.req[h].buf == s.req[k].buf ==> h == k)
  }

  // A ring holds the queue q, whose newest element went in as number n - 1.
  ghost predicate Holds(ring: seq<nat>, n: nat, q: seq<nat>)
    requires |ring| == NUM
  {
    |q| <= n && forall i :: 0 <= i < |q| ==> ring[(n - |q| + i) % NUM] == q[i]
  }

  ghost predicate Rings<B>(s: State<B>)
    requires Shape(s)
  {
    && s.availIdx == s.posted % WRAP && s.usedIdx == s.done % WRAP
    && Holds(s.availRing, s.posted, s.pending) && Holds(s.usedRing, s.done, s.completed)
    && s.seenIdx == (s.done - |s.completed|) % WRAP
    && (forall i :: 0 <= i < |s.pending| ==>
          Active(s, s.pending[i]) && s.req[s.pending[i]].phase == Posted(s.posted - |s.pending| + i))
    && (forall i :: 0 <= i < |s.completed| ==>
          Active(s, s.completed[i]) && s.req[s.completed[i]].phase == Done(s.done - |s.completed| + i))
    && (forall h :: 0 <= h < NUM ==> Listed(s, h))
  }

  // A posted or completed request is in its ring, at its own number.
  ghost predicate Listed<B>(s: State<B>, h: nat)
    requires Shape(s) && h < NUM && |s.pending| <= s.posted && |s.completed| <= s.done
  {
    match s.req[h].phase
    case Posted(k) => s.posted - |s.pending| <= k < s.posted && s.pending[k - (s.posted - |s.pending|)] == h
    case Done(k) => s.done - |s.completed| <= k < s.done && s.completed[k - (s.done - |s.completed|)] == h
    case _ => true
  }

  ghost predicate Good<B>(s: State<B>) {
    Shape(s) && Owners(s) && Formats(s) && Rings(s)
  }

  // ----- At most two requests are in flight

  ghost predicate Below(q: seq<nat>, n: nat) {
    forall i :: 0 <= i < |q| ==> q[i] < n
  }

  // The descriptors of a list of chains.
  ghost function Flat(req: seq<Req>, hs: seq<nat>): (ds: seq<nat>)
    requires Below(hs, |req|)
    ensures |ds| == 3 * |hs|
  {
    if hs == [] then []
    else
      var h := hs[|hs| - 1];
      Flat(req, hs[..|hs| - 1]) + [h, req[h].mid, req[h].tail]
  }

  ghost predicate AllActive<B>(s: State<B>, hs: seq<nat>)
    requires Shape(s)
  {
    forall i :: 0 <= i < |hs| ==> Active(s, hs[i])
  }

  lemma {:induction false} FlatOwners<B>(s: State<B>, hs: seq<nat>)
    requires Shape(s) && Owners(s) && AllActive(s, hs)
    ensures Below(hs, NUM) && Below(Flat(s.req, hs), NUM)
    ensures forall i :: 0 <= i < |Flat(s.req, hs)| ==> s.owner[Flat(s.req, hs)[i]] == hs[i / 3]
  {
    if hs != [] {
      FlatOwners(s, hs[..|hs| - 1]);
      assert Active(s, hs[|hs| - 1]);
    }
  }

  lemma {:induction false} FlatDistinct<B>(s: State<B>, hs: seq<nat>)
    requires Shape(s) && Owners(s) && Counters.Distinct(hs) && AllActive(s, hs)
    ensures Below(hs, NUM) && Below(Flat(s.req, hs), NUM) && Counters.Distinct(Flat(s.req, hs))
  {
    FlatOwners(s, hs);
    if hs != [] {
      var front, h := hs[..|hs| - 1], hs[|hs| - 1];
      FlatOwners(s, front);
      FlatDistinct(s, front);
      assert Active(s, h);
      var ds := Flat(s.req, hs);
      forall i, j | 0 <= i < j < |ds| ensures ds[i] != ds[j] {
        if j < |ds| - 3 {
          assert ds[i] == Flat(s.req, front)[i] && ds[j] == Flat(s.req, front)[j];
        } else if i < |ds| - 3 {
          assert s.owner[ds[i]] == hs[i / 3] && s.owner[ds[j]] == hs[j / 3];
        }
      }
    }
  }

  // Distinct numbers below n are at most n many.
  lemma {:induction false} Pigeonhole(q: seq<nat>, n: nat)
    requires Counters.Distinct(q) && Below(q, n)
    ensures |q| <= n
    decreases n
  {
    if q != [] {
      assert q[0] < n;
      if i :| 0 <= i < |q| && q[i] == n - 1 {
        var rest := q[..i] + q[i + 1..];
        assert forall j :: 0 <= j < |rest| ==> rest[j] == (if j < i then q[j] else q[j + 1]);
        Pigeonhole(rest, n - 1);
      } else {
        Pigeonhole(q, n - 1);
      }
    }
  }

  /** However requests and completions interleave, at most two requests are in flight. */
  lemma AtMostTwo<B>(s: State<B>, hs: seq<nat>)
    requires Good(s) && Counters.Distinct(hs) && AllActive(s, hs)
    ensures |hs| <= 2
  {
    hide Formats;
    hide Rings;
    hide Owners;
    hide Counters.Distinct;
    FlatDistinct(s, hs);
    Pigeonhole(Flat(s.req, hs), NUM);
  }

  lemma RingsShort<B>(s: State<B>)
    requires Good(s)
    ensures |s.pending| <= 2 && |s.completed| <= 2
  {
    hide Formats;
    hide Owners;
    AtMostTwo(s, s.pending);
    AtMostTwo(s, s.completed);
  }

  // ----- The rings

  // Adding to a ring that is not full overwrites none of its queue.
  lemma HoldsPush(ring: seq<nat>, n: nat, q: seq<nat>, x: nat)
    requires |ring| == NUM && Holds(ring, n, q) && |q| < NUM
    ensures Holds(ring[n % NUM := x], n + 1, q + [x])
  {
    var ring' := ring[n % NUM := x];
    forall i | 0 <= i < |q| + 1 ensures ring'[(n + 1 - (|q| + 1) + i) % NUM] == (q + [x])[i] {
      if i < |q| { Counters.Apart(n - |q| + i, n, NUM); }
    }
  }

  lemma HoldsPop(ring: seq<nat>, n: nat, q: seq<nat>)
    requires |ring| == NUM && Holds(ring, n, q) && q != []
    ensures Holds(ring, n, q[1..]) && ring[(n - |q|) % NUM] == q[0]
  {
    assert (n - |q| + 0) % NUM == (n - |q|) % NUM;
    forall i | 0 <= i < |q[1..]| ensures ring[(n - |q[1..]| + i) % NUM] == q[1..][i] {
      assert n - |q[1..]| + i == n - |q| + (i + 1);
    }
  }

  // A 16-bit index leads to the same ring slot as the unbounded count.
  lemma WrapSlot(n: nat)
    ensures (n % WRAP) % NUM == n % NUM && (n % WRAP + 1) % WRAP == (n + 1) % WRAP
  {
    Counters.SameSlot(n, NUM, WRAP / NUM);
    Counters.Step(n, WRAP);
  }

  // The driver's 16-bit test for new completions is exact.
  lemma SeenAll<B>(s: State<B>)
    requires Good(s)
    ensures s.seenIdx == s.usedIdx <==> s.completed == []
  {
    RingsShort(s);
    if s.completed != [] { Counters.Apart(s.done - |s.completed|, s.done, WRAP); }
  }

  // ----- The steps

  // Post a request on three free descriptors.
  function Post<B>(s: State<B>, r: Req, h: nat): State<B>
    requires Shape(s) && h < NUM && r.mid < NUM && r.tail < NUM && r.buf < |s.busy|
  {
    s.(free := s.free[h := false][r.mid := false][r.tail := false],
       owner := s.owner[h := h][r.mid := h][r.tail := h],
       desc := s.desc[h := Desc(OpAddr(h), false, true, r.mid)][r.mid := Desc(DataAddr(r.buf), !r.write, true, r.tail)]
                     [r.tail := Desc(StatusAddr(h), true, false, 0)],
       ops := s.ops[h := Op(r.write, 2 * r.block)], info := s.info[h := Info(r.buf, 0xff)], busy := s.busy[r.buf := true],
       req := s.req[h := r], pending := s.pending + [h], posted := s.posted + 1,
       availRing := s.availRing[s.availIdx % NUM := h], availIdx := (s.availIdx + 1) % WRAP)
  }

  ghost predicate CanPost<B>(s: State<B>, r: Req, h: nat)
    requires Shape(s)
  {
    && h < NUM && r.mid < NUM && r.tail < NUM && h != r.mid && h != r.tail && r.mid != r.tail
    && s.free[h] && s.free[r.mid] && s.free[r.tail]
    && r.buf < |s.busy| && r.block < |s.image| && r.phase == Posted(s.posted)
  }

  // A descriptor of an active chain is none of the three new ones.
  lemma Untouched<B>(s: State<B>, r: Req, h: nat, k: nat)
    requires Shape(s) && Owners(s) && CanPost(s, r, h) && Active(s, k)
    ensures !InChain(r, h, k) && !InChain(r, h, s.req[k].mid) && !InChain(r, h, s.req[k].tail)
  {
  }

  lemma PostOwners<B>(s: State<B>, r: Req, h: nat)
    requires Shape(s) && Owners(s) && CanPost(s, r, h)
    ensures Owners(Post(s, r, h))
  {
    hide Owners;
    var s' := Post(s, r, h);
    forall d | 0 <= d < NUM ensures s'.free[d] <==> s'.owner[d] == -1 {
      FreeIs(s, d);
    }
    forall k | Active(s', k) ensures OwnsChain(s', k) {
      if k != h { ActiveIs(s, k); Untouched(s, r, h, k); }
    }
    forall d | 0 <= d < NUM && s'.owner[d] != -1 ensures Active(s', s'.owner[d]) && InChain(s'.req[s'.owner[d]], s'.owner[d], d) {
      if !InChain(r, h, d) { OwnedIs(s, d); Untouched(s, r, h, s.owner[d]); }
    }
    OwnersIf(s');
  }

  lemma FormatIs<B>(s: State<B>, h: nat)
    requires Shape(s) && Owners(s) && Formats(s) && Active(s, h)
    ensures OwnsChain(s, h) && Formatted(s, h)
  {
  }

  lemma FreeEmpty<B>(s: State<B>)
    requires Shape(s) && Owners(s) && Formats(s)
    ensures forall d :: 0 <= d < NUM && s.free[d] ==> s.desc[d] == EMPTY
  {
  }

  // No request in flight uses buffer b.
  ghost predicate Unused<B>(s: State<B>, b: nat)
    requires Shape(s)
  {
    forall h :: Active(s, h) ==> s.req[h].buf != b
  }

  lemma PostFormats<B>(s: State<B>, r: Req, h: nat)
    requires Shape(s) && Owners(s) && Formats(s) && CanPost(s, r, h) && Unused(s, r.buf)
    ensures Owners(Post(s, r, h)) && Formats(Post(s, r, h))
  {
    hide Owners;
    var s' := Post(s, r, h);
    PostOwners(s, r, h);
    forall k | Active(s', k) ensures OwnsChain(s', k) && Formatted(s', k) {
      ActiveIs(s', k);
      if k != h { FormatIs(s, k); Untouched(s, r, h, k); }
    }
    forall d | 0 <= d < NUM && s'.free[d] ensures s'.desc[d] == EMPTY {
      assert s.free[d];
    }
    forall k, l | Active(s', k) && Active(s', l) && s'.req[k].buf == s'.req[l].buf ensures k == l {
      assert k != h ==> Active(s, k);
      assert l != h ==> Active(s, l);
    }
  }

  lemma ListedIs<B>(s: State<B>, h: nat)
    requires Shape(s) && Rings(s) && h < NUM
    ensures |s.pending| <= s.posted && |s.completed| <= s.done && Listed(s, h)
  {
  }

  lemma PostRings<B>(s: State<B>, r: Req, h: nat)
    requires Shape(s) && Rings(s) && CanPost(s, r, h) && !Active(s, h) && |s.pending| < NUM
    ensures Rings(Post(s, r, h))
  {
    var s' := Post(s, r, h);
    WrapSlot(s.posted);
    HoldsPush(s.availRing, s.posted, s.pending, h);
    forall k | 0 <= k < NUM ensures Listed(s', k) {
      ListedIs(s, k);
    }
  }

  /** Posting a request keeps the invariant. */
  lemma PostKeeps<B>(s: State<B>, r: Req, h: nat)
    requires Good(s) && CanPost(s, r, h) && Unused(s, r.buf)
    ensures Good(Post(s, r, h))
  {
    hide Owners;
    hide Formats;
    hide Rings;
    RingsShort(s);
    PostFormats(s, r, h);
    if Active(s, h) { ActiveIs(s, h); FreeIs(s, h); }
    PostRings(s, r, h);
  }

  // ----- A request moves on without changing its chain

  ghost predicate Advances<B>(s: State<B>, s': State<B>, h: nat)
    requires Shape(s) && h < NUM
  {
    && Shape(s') && s'.free == s.free && s'.desc == s.desc && s'.ops == s.ops && s'.owner == s.owner
    && |s'.busy| == |s.busy| && |s'.image| == |s.image|
    && !s'.req[h].phase.Idle? && s'.req == s.req[h := s.req[h].(phase := s'.req[h].phase)]
    && (forall k :: 0 <= k < NUM ==> s'.info[k].b == s.info[k].b)
    && (forall b :: 0 <= b < |s.busy| && b != s.req[h].buf ==> s'.busy[b] == s.busy[b])
    && (s.req[h].buf < |s.busy| ==> (s'.busy[s.req[h].buf] <==> !s'.req[h].phase.Seen?))
  }

  lemma AdvanceOwners<B>(s: State<B>, s': State<B>, h: nat)
    requires Shape(s) && Owners(s) && Active(s, h) && Advances(s, s', h)
    ensures Owners(s')
  {
    forall k | Active(s', k) ensures OwnsChain(s', k) {
      assert Active(s, k);
    }
    forall d | 0 <= d < NUM && s'.owner[d] != -1 ensures Active(s', s'.owner[d]) && InChain(s'.req[s'.owner[d]], s'.owner[d], d) {
      OwnedIs(s, d);
    }
  }

  lemma AdvanceFormats<B>(s: State<B>, s': State<B>, h: nat)
    requires Shape(s) && Owners(s) && Formats(s) && Active(s, h) && Advances(s, s', h)
    ensures Owners(s') && Formats(s')
  {
    hide Owners;
    AdvanceOwners(s, s', h);
    forall k | Active(s', k) ensures OwnsChain(s', k) && Formatted(s', k) {
      ActiveIs(s', k);
      FormatIs(s, k);
      FormatIs(s, h);
    }
  }

  // The device takes the oldest request it has not seen.
  function Take<B>(s: State<B>): State<B>
    requires Shape(s) && s.pending != [] && s.pending[0] < NUM
  {
    var h := s.pending[0];
    s.(req := s.req[h := s.req[h].(phase := Working)], pending := s.pending[1..])
  }

  lemma TakeRings<B>(s: State<B>, s': State<B>, h: nat)
    requires Shape(s) && Rings(s) && s.pending != [] && Shape(s') && h < NUM && h == s.pending[0]
    requires s'.req == s.req[h := s.req[h].(phase := Working)]
    requires s'.pending == s.pending[1..] && s'.posted == s.posted && s'.availRing == s.availRing && s'.availIdx == s.availIdx
    requires s'.completed == s.completed && s'.done == s.done && s'.seenIdx == s.seenIdx
    requires s'.usedRing == s.usedRing && s'.usedIdx == s.usedIdx
    ensures Rings(s')
  {
    HoldsPop(s.availRing, s.posted, s.pending);
    forall i | 0 <= i < |s'.pending| ensures Active(s', s'.pending[i]) && s'.req[s'.pending[i]].phase == Posted(s'.posted - |s'.pending| + i) {
      assert s'.pending[i] == s.pending[i + 1];
    }
    forall k | 0 <= k < NUM ensures Listed(s', k) {
      ListedIs(s, k);
    }
  }

  // The device finds the head of the oldest posted chain.
  lemma TakeFinds<B>(s: State<B>)
    requires Shape(s) && Rings(s) && s.pending != []
    ensures Active(s, s.pending[0]) && s.req[s.pending[0]].phase.Posted? && s.availRing[(s.posted - |s.pending|) % NUM] == s.pending[0]
  {
    HoldsPop(s.availRing, s.posted, s.pending);
    assert Active(s, s.pending[0]);
  }

  lemma TakeKeeps<B>(s: State<B>)
    requires Good(s) && s.pending != []
    ensures Active(s, s.pending[0]) && Good(Take(s))
  {
    hide Owners;
    hide Formats;
    hide Rings;
    TakeFinds(s);
    FormatIs(s, s.pending[0]);
    TakeRings(s, Take(s), s.pending[0]);
    AdvanceFormats(s, Take(s), s.pending[0]);
  }

  // The device carries out the chain at h as it finds it in memory, or fails, and reports `status`.
  function Complete<B>(s: State<B>, h: nat, status: nat): State<B>
    requires Shape(s) && h < NUM && Executable(s, h)
  {
    var d1 := s.desc[s.desc[h].next];
    var d2 := s.desc[d1.next];
    var op := s.ops[s.desc[h].addr.i];
    var b, block := d1.addr.b, op.sector / 2;
    s.(data := if op.out || status != 0 then s.data else s.data[b := s.image[block]],
       image := if op.out && status == 0 then s.image[block := s.data[b]] else s.image,
       info := s.info[d2.addr.i := s.info[d2.addr.i].(status := status)],
       usedRing := s.usedRing[s.usedIdx % NUM := h], usedIdx := (s.usedIdx + 1) % WRAP,
       req := s.req[h := s.req[h].(phase := Done(s.done))], completed := s.completed + [h], done := s.done + 1)
  }

  // The chain at h leads to an operation, a data buffer and a status byte that exist.
  predicate Executable<B>(s: State<B>, h: nat)
    requires Shape(s) && h < NUM
  {
    var d0 := s.desc[h];
    && d0.addr.OpAddr? && d0.addr.i < NUM && d0.more && d0.next < NUM
    && var d1 := s.desc[d0.next];
    && d1.addr.DataAddr? && d1.addr.b < |s.data| && d1.more && d1.next < NUM && d1.write == !s.ops[d0.addr.i].out
    && var d2 := s.desc[d1.next];
    && d2.addr.StatusAddr? && d2.addr.i < NUM && d2.write && !d2.more
    && s.ops[d0.addr.i].sector / 2 < |s.image|
  }

  /** What the device finds at the head of a chain is the request that was posted. */
  lemma CompleteDoes<B>(s: State<B>, h: nat, status: nat)
    requires Good(s) && Active(s, h)
    ensures Executable(s, h)
    ensures var s', r := Complete(s, h, status), s.req[h];
      && r.buf < |s.data| && r.block < |s.image|
      && s'.data == (if r.write || status != 0 then s.data else s.data[r.buf := s.image[r.block]])
      && s'.image == (if r.write && status == 0 then s.image[r.block := s.data[r.buf]] else s.image)
      && s'.info == s.info[h := s.info[h].(status := status)]
  {
    hide Rings;
    hide Owners;
    hide Formats;
    FormatIs(s, h);
  }

  lemma CompleteRings<B>(s: State<B>, h: nat, s': State<B>)
    requires Shape(s) && Rings(s) && Active(s, h) && s.req[h].phase.Working? && |s.completed| < NUM && Shape(s')
    requires s'.req == s.req[h := s.req[h].(phase := Done(s.done))]
    requires s'.pending == s.pending && s'.posted == s.posted && s'.availRing == s.availRing && s'.availIdx == s.availIdx
    requires s'.completed == s.completed + [h] && s'.done == s.done + 1 && s'.seenIdx == s.seenIdx
    requires s'.usedRing == s.usedRing[s.usedIdx % NUM := h] && s'.usedIdx == (s.usedIdx + 1) % WRAP
    ensures Rings(s')
  {
    WrapSlot(s.done);
    HoldsPush(s.usedRing, s.done, s.completed, h);
    forall k | 0 <= k < NUM ensures Listed(s', k) {
      ListedIs(s, k);
    }
  }

  lemma CompleteKeeps<B>(s: State<B>, h: nat, status: nat)
    requires Good(s) && Active(s, h) && s.req[h].phase.Working?
    ensures Executable(s, h) && Good(Complete(s, h, status))
  {
    hide Owners;
    hide Formats;
    hide Rings;
    CompleteDoes(s, h, status);
    RingsShort(s);
    FormatIs(s, h);
    CompleteRings(s, h, Complete(s, h, status));
    AdvanceFormats(s, Complete(s, h, status), h);
  }

  predicate CanSee<B>(s: State<B>) {
    && Shape(s) && s.completed != [] && s.completed[0] < NUM
    && s.usedRing[s.seenIdx % NUM] == s.completed[0] && 0 <= s.info[s.completed[0]].b < |s.busy|
  }

  // One turn of virtio_disk_intr's loop, when the device reported success.
  function See<B>(s: State<B>): State<B>
    requires CanSee(s)
  {
    var id := s.usedRing[s.seenIdx % NUM];
    s.(busy := s.busy[s.info[id].b := false], seenIdx := (s.seenIdx + 1) % WRAP,
       req := s.req[id := s.req[id].(phase := Seen)], completed := s.completed[1..])
  }

  lemma SeeRings<B>(s: State<B>, s': State<B>, h: nat)
    requires Shape(s) && Rings(s) && s.completed != [] && Shape(s') && h < NUM && h == s.completed[0]
    requires s'.req == s.req[h := s.req[h].(phase := Seen)]
    requires s'.pending == s.pending && s'.posted == s.posted && s'.availRing == s.availRing && s'.availIdx == s.availIdx
    requires s'.completed == s.completed[1..] && s'.done == s.done && s'.seenIdx == (s.seenIdx + 1) % WRAP
    requires s'.usedRing == s.usedRing && s'.usedIdx == s.usedIdx
    ensures Rings(s')
  {
    WrapSlot(s.done - |s.completed|);
    HoldsPop(s.usedRing, s.done, s.completed);
    forall i | 0 <= i < |s'.completed| ensures Active(s', s'.completed[i]) && s'.req[s'.completed[i]].phase == Done(s'.done - |s'.completed| + i) {
      assert s'.completed[i] == s.completed[i + 1];
    }
    forall k | 0 <= k < NUM ensures Listed(s', k) {
      ListedIs(s, k);
    }
  }

  // The interrupt handler finds the head of the oldest completed chain.
  lemma SeeFinds<B>(s: State<B>)
    requires Shape(s) && Rings(s) && s.completed != []
    ensures s.usedRing[s.seenIdx % NUM] == s.completed[0] && Active(s, s.completed[0]) && s.req[s.completed[0]].phase.Done?
  {
    WrapSlot(s.done - |s.completed|);
    HoldsPop(s.usedRing, s.done, s.completed);
    assert Active(s, s.completed[0]);
  }

  lemma SeeKeeps<B>(s: State<B>)
    requires Good(s) && s.completed != []
    ensures CanSee(s) && s.req[s.completed[0]].phase.Done? && s.info[s.completed[0]].b == s.req[s.completed[0]].buf && Good(See(s))
  {
    hide Owners;
    hide Formats;
    hide Rings;
    SeeFinds(s);
    var id := s.completed[0];
    FormatIs(s, id);
    SeeRings(s, See(s), id);
    AdvanceFormats(s, See(s), id);
  }

  // The end of virtio_disk_rw: the chain goes back to the free descriptors.
  function Finish<B>(s: State<B>, h: nat): State<B>
    requires Shape(s) && h < NUM && s.req[h].mid < NUM && s.req[h].tail < NUM
  {
    var r := s.req[h];
    s.(free := s.free[h := true][r.mid := true][r.tail := true], owner := s.owner[h := -1][r.mid := -1][r.tail := -1],
       desc := s.desc[h := EMPTY][r.mid := EMPTY][r.tail := EMPTY], info := s.info[h := s.info[h].(b := -1)],
       req := s.req[h := r.(phase := Idle)])
  }

  // Chains do not share descriptors.
  lemma Apart<B>(s: State<B>, h: nat, k: nat)
    requires Shape(s) && Owners(s) && Active(s, h) && Active(s, k) && h != k
    ensures OwnsChain(s, h) && !InChain(s.req[h], h, k) && !InChain(s.req[h], h, s.req[k].mid) && !InChain(s.req[h], h, s.req[k].tail)
  {
  }

  lemma FinishOwners<B>(s: State<B>, h: nat)
    requires Shape(s) && Owners(s) && Active(s, h) && OwnsChain(s, h)
    ensures Owners(Finish(s, h))
  {
    hide Owners;
    var s' := Finish(s, h);
    forall d | 0 <= d < NUM ensures s'.free[d] <==> s'.owner[d] == -1 {
      FreeIs(s, d);
    }
    forall k | Active(s', k) ensures OwnsChain(s', k) {
      ActiveIs(s, k);
      Apart(s, h, k);
    }
    forall d | 0 <= d < NUM && s'.owner[d] != -1 ensures Active(s', s'.owner[d]) && InChain(s'.req[s'.owner[d]], s'.owner[d], d) {
      OwnedIs(s, d);
    }
    OwnersIf(s');
  }

  lemma FinishFormats<B>(s: State<B>, h: nat)
    requires Shape(s) && Owners(s) && Formats(s) && Active(s, h) && OwnsChain(s, h)
    ensures Owners(Finish(s, h)) && Formats(Finish(s, h))
  {
    hide Owners;
    var s' := Finish(s, h);
    FinishOwners(s, h);
    forall k | Active(s', k) ensures OwnsChain(s', k) && Formatted(s', k) {
      ActiveIs(s', k);
      FormatIs(s, k);
      Apart(s, h, k);
    }
    forall k, l | Active(s', k) && Active(s', l) && s'.req[k].buf == s'.req[l].buf ensures k == l {
      assert Active(s, k) && Active(s, l);
    }
  }

  lemma FinishRings<B>(s: State<B>, h: nat, s': State<B>)
    requires Shape(s) && Rings(s) && Active(s, h) && s.req[h].phase.Seen? && Shape(s')
    requires s'.req == s.req[h := s.req[h].(phase := Idle)]
    requires s'.pending == s.pending && s'.posted == s.posted && s'.availRing == s.availRing && s'.availIdx == s.availIdx
    requires s'.completed == s.completed && s'.done == s.done && s'.seenIdx == s.seenIdx
    requires s'.usedRing == s.usedRing && s'.usedIdx == s.usedIdx
    ensures Rings(s')
  {
    forall k | 0 <= k < NUM ensures Listed(s', k) {
      ListedIs(s, k);
    }
  }

  lemma FinishKeeps<B>(s: State<B>, h: nat)
    requires Good(s) && Active(s, h) && s.req[h].phase.Seen?
    ensures OwnsChain(s, h) && Good(Finish(s, h))
  {
    hide Owners;
    hide Formats;
    hide Rings;
    ActiveIs(s, h);
    FinishFormats(s, h);
    FinishRings(s, h, Finish(s, h));
  }

  // ----- Whole runs

  datatype Step =
    | DoPost(r: Req, h: nat)
    | DoTake
    | DoComplete(h: nat, status: nat)
    | DoSee
    | DoFinish(h: nat)

  // The driver's steps are those its code can take; the device takes and completes what it was given.
  ghost predicate Enabled<B>(s: State<B>, step: Step) {
    && Shape(s)
    && match step
       case DoPost(r, h) => CanPost(s, r, h) && Unused(s, r.buf)
       case DoTake => s.pending != [] && s.pending[0] < NUM
       case DoComplete(h, _) => Active(s, h) && s.req[h].phase.Working? && Executable(s, h)
       case DoSee => s.seenIdx != s.usedIdx && CanSee(s) && s.info[s.completed[0]].status == 0
       case DoFinish(h) => Active(s, h) && s.req[h].buf < |s.busy| && !s.busy[s.req[h].buf] && s.req[h].mid < NUM && s.req[h].tail < NUM
  }

  ghost function Apply<B>(s: State<B>, step: Step): State<B>
    requires Enabled(s, step)
  {
    match step
    case DoPost(r, h) => Post(s, r, h)
    case DoTake => Take(s)
    case DoComplete(h, status) => Complete(s, h, status)
    case DoSee => See(s)
    case DoFinish(h) => Finish(s, h)
  }

  lemma FinishIsSeen<B>(s: State<B>, h: nat)
    requires Good(s) && Active(s, h) && s.req[h].buf < |s.busy| && !s.busy[s.req[h].buf]
    ensures s.req[h].phase.Seen?
  {
    hide Rings;
    FormatIs(s, h);
  }

  lemma StepKeepsGood<B>(s: State<B>, step: Step)
    requires Good(s) && Enabled(s, step)
    ensures Good(Apply(s, step))
  {
    hide Owners;
    hide Formats;
    hide Rings;
    hide Shape;
    match step {
      case DoPost(r, h) => PostKeeps(s, r, h);
      case DoTake => TakeKeeps(s);
      case DoComplete(h, status) => CompleteKeeps(s, h, status);
      case DoSee => SeeKeeps(s);
      case DoFinish(h) => FinishIsSeen(s, h); FinishKeeps(s, h);
    }
  }

  /**
    A request only ever moves from posted to taken to completed to seen to finished, each by its
    own step; so virtio_disk_rw returns only after the device has completed its own request.
   */
  lemma PhaseMoves<B>(s: State<B>, step: Step, h: nat)
    requires Good(s) && Enabled(s, step) && h < NUM
    ensures var c, s' := s.req[h].phase, Apply(s, step);
      && Shape(s')
      && var c' := s'.req[h].phase;
      || c' == c
      || (c.Idle? && c'.Posted? && step.DoPost? && step.h == h)
      || (c.Posted? && c'.Working? && step.DoTake? && s.pending[0] == h)
      || (c.Working? && c'.Done? && step.DoComplete? && step.h == h)
      || (c.Done? && c'.Seen? && step.DoSee? && s.completed[0] == h)
      || (c.Seen? && c'.Idle? && step.DoFinish? && step.h == h)
  {
    hide Owners;
    hide Formats;
    hide Rings;
    StepKeepsGood(s, step);
    match step {
      case DoPost(r, k) => if Active(s, k) { ActiveIs(s, k); FreeIs(s, k); }
      case DoTake => TakeFinds(s);
      case DoComplete(k, status) =>
      case DoSee => SeeFinds(s);
      case DoFinish(k) => FinishIsSeen(s, k);
    }
  }

  // A run: each step is enabled where it happens.
  ghost predicate Run<B>(states: seq<State<B>>, steps: seq<Step>) {
    && |states| == |steps| + 1
    && forall i :: 0 <= i < |steps| ==> Enabled(states[i], steps[i]) && states[i + 1] == Apply(states[i], steps[i])
  }

  /** Over every run: chains stay disjoint, both rings stay intact and at most two requests are in flight. */
  lemma {:induction false} RunKeepsGood<B>(states: seq<State<B>>, steps: seq<Step>, n: nat)
    requires Run(states, steps) && Good(states[0]) && n <= |steps|
    ensures Good(states[n]) && |states[n].pending| <= 2 && |states[n].completed| <= 2
  {
    hide Good;
    hide Enabled;
    hide Apply;
    if n > 0 {
      RunKeepsGood(states, steps, n - 1);
      StepKeepsGood(states[n - 1], steps[n - 1]);
    }
    RingsShort(states[n]);
  }
}
