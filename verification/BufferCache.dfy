/**
  The block cache of kernel/bio.c: a doubly linked list of buffers in order of last use, with
  buffers named by their index and NBUF standing for the list head.
 */
module BufferCache {
  import Counters

  const NBUF := 30
  const HEAD := NBUF

  // ----- The list

  // The list as a cycle through the head.
  function Cycle(order: seq<nat>): seq<nat> {
    [HEAD] + order + [HEAD]
  }

  // The links follow the order, both ways round.
  ghost predicate Linked(next: seq<nat>, prev: seq<nat>, order: seq<nat>) {
    && |next| == |prev| == NBUF + 1
    && (forall i :: 0 <= i < |order| ==> order[i] < NBUF)
    && forall i :: 0 <= i <= |order| ==>
         next[Cycle(order)[i]] == Cycle(order)[i + 1] && prev[Cycle(order)[i + 1]] == Cycle(order)[i]
  }

  // Every buffer is in the list, at the place pos gives.
  ghost predicate Placed(order: seq<nat>, pos: seq<nat>) {
    && |order| == |pos| == NBUF
    && (forall i :: 0 <= i < NBUF ==> order[i] < NBUF && pos[order[i]] == i)
    && (forall b :: 0 <= b < NBUF ==> pos[b] < NBUF && order[pos[b]] == b)
  }

  lemma PlacedDistinct(order: seq<nat>, pos: seq<nat>)
    requires Placed(order, pos)
    ensures Counters.Distinct(order)
  {
  }

  function Without(order: seq<nat>, i: nat): seq<nat>
    requires i < |order|
  {
    order[..i] + order[i + 1..]
  }

  // Taking b out of the list.
  lemma UnlinkKeeps(next: seq<nat>, prev: seq<nat>, order: seq<nat>, i: nat)
    requires Linked(next, prev, order) && Counters.Distinct(order) && i < |order|
    ensures |next| == |prev| == NBUF + 1 && order[i] < NBUF
    ensures var b := order[i];
      && next[b] <= NBUF && prev[b] <= NBUF
      && Linked(next[prev[b] := next[b]], prev[next[b] := prev[b]], Without(order, i))
  {
    var b := order[i];
    var c, c' := Cycle(order), Cycle(Without(order, i));
    assert c[i + 1] == b;
    assert next[b] == c[i + 2] && prev[b] == c[i];
    var next', prev' := next[c[i] := c[i + 2]], prev[c[i + 2] := c[i]];
    forall j | 0 <= j <= |Without(order, i)| ensures next'[c'[j]] == c'[j + 1] && prev'[c'[j + 1]] == c'[j] {
      var k := if j <= i then j else j + 1;
      assert c'[j] == c[k];
      assert c'[j + 1] == c[if j + 1 <= i then j + 1 else j + 2];
      assert next[c[k]] == c[k + 1] && prev[c[k + 1]] == c[k];
    }
  }

  // Putting b in at the front.
  lemma LinkKeeps(next: seq<nat>, prev: seq<nat>, order: seq<nat>, b: nat)
    requires Linked(next, prev, order) && Counters.Distinct(order) && b < NBUF && forall i :: 0 <= i < |order| ==> order[i] != b
    ensures |next| == |prev| == NBUF + 1
    ensures var first := next[HEAD];
      && first <= NBUF
      && Linked(next[b := first][HEAD := b], prev[b := HEAD][first := b], [b] + order)
  {
    var c, c' := Cycle(order), Cycle([b] + order);
    assert c[0] == HEAD;
    var first := next[HEAD];
    assert first == c[1];
    var next', prev' := next[b := first][HEAD := b], prev[b := HEAD][first := b];
    forall j | 0 <= j <= |order| + 1 ensures next'[c'[j]] == c'[j + 1] && prev'[c'[j + 1]] == c'[j] {
      if j >= 1 {
        assert c'[j] == (if j == 1 then b else c[j - 1]) && c'[j + 1] == c[j];
        assert next[c[j - 1]] == c[j] && prev[c[j]] == c[j - 1];
      }
    }
  }

  function ToFront(order: seq<nat>, i: nat): seq<nat>
    requires i < |order|
  {
    [order[i]] + Without(order, i)
  }

  function NewPlaces(pos: seq<nat>, i: nat): seq<nat> {
    seq(|pos|, b requires 0 <= b < |pos| => if pos[b] == i then 0 else if pos[b] < i then pos[b] + 1 else pos[b])
  }

  lemma FrontPlaced(order: seq<nat>, pos: seq<nat>, i: nat)
    requires Placed(order, pos) && i < NBUF
    ensures Placed(ToFront(order, i), NewPlaces(pos, i))
  {
    var order', pos' := ToFront(order, i), NewPlaces(pos, i);
    forall j | 0 <= j < NBUF ensures order'[j] < NBUF && pos'[order'[j]] == j {
      assert order'[j] == order[if j == 0 then i else if j <= i then j - 1 else j];
    }
    forall b | 0 <= b < NBUF ensures pos'[b] < NBUF && order'[pos'[b]] == b {
      assert order'[pos'[b]] == order[if pos'[b] == 0 then i else if pos'[b] <= i then pos'[b] - 1 else pos'[b]];
    }
  }

  // The list runs from the buffer released last to the one released longest ago.
  ghost predicate Ordered(order: seq<nat>, released: seq<int>, clock: int) {
    && |order| == |released| == NBUF
    && (forall i :: 0 <= i < NBUF ==> order[i] < NBUF)
    && (forall b :: 0 <= b < NBUF ==> released[b] < clock)
    && (forall i, j :: 0 <= i < j < NBUF ==> released[order[i]] > released[order[j]])
  }

  lemma FrontOrdered(order: seq<nat>, released: seq<int>, clock: int, i: nat)
    requires Ordered(order, released, clock) && Counters.Distinct(order) && i < NBUF
    ensures |released| == NBUF && order[i] < NBUF && Ordered(ToFront(order, i), released[order[i] := clock], clock + 1)
  {
    var order', released' := ToFront(order, i), released[order[i] := clock];
    forall j, k | 0 <= j < k < NBUF ensures released'[order'[j]] > released'[order'[k]] {
      assert order'[j] == order[if j == 0 then i else if j <= i then j - 1 else j];
      assert order'[k] == order[if k <= i then k - 1 else k];
    }
  }

  /** Moving a released buffer to the front keeps the list a cycle over all buffers. */
  lemma FrontLinked(next: seq<nat>, prev: seq<nat>, order: seq<nat>, i: nat)
    requires Linked(next, prev, order) && Counters.Distinct(order) && i < |order|
    ensures |next| == |prev| == NBUF + 1 && order[i] < NBUF
    ensures var b := order[i];
      && next[b] <= NBUF && prev[b] <= NBUF
      && var next1, prev1 := next[prev[b] := next[b]], prev[next[b] := prev[b]];
      && next1[HEAD] <= NBUF
      && Linked(next1[b := next1[HEAD]][HEAD := b], prev1[b := HEAD][next1[HEAD] := b], ToFront(order, i))
  {
    hide Linked;
    var b := order[i];
    UnlinkKeeps(next, prev, order, i);
    var rest := Without(order, i);
    assert forall j :: 0 <= j < |rest| ==> rest[j] == order[if j < i then j else j + 1];
    LinkKeeps(next[prev[b] := next[b]], prev[next[b] := prev[b]], rest, b);
  }

  lemma NextIs(next: seq<nat>, prev: seq<nat>, order: seq<nat>, i: nat)
    requires Linked(next, prev, order) && i <= |order|
    ensures |next| == |prev| == NBUF + 1
    ensures next[if i == 0 then HEAD else order[i - 1]] == if i == |order| then HEAD else order[i]
    ensures prev[if i == |order| then HEAD else order[i]] == if i == 0 then HEAD else order[i - 1]
  {
    assert Cycle(order)[i] == if i == 0 then HEAD else order[i - 1];
    assert Cycle(order)[i + 1] == if i == |order| then HEAD else order[i];
  }

  // ----- Contents

  // At most one buffer holds a given block of a nonzero device.
  ghost predicate Unique(dev: seq<nat>, blockno: seq<nat>) {
    && |dev| == |blockno| == NBUF
    && forall b, c :: 0 <= b < NBUF && 0 <= c < NBUF && dev[b] == dev[c] != 0 && blockno[b] == blockno[c] ==> b == c
  }

  lemma UniqueShape(dev: seq<nat>, blockno: seq<nat>)
    requires Unique(dev, blockno)
    ensures |dev| == |blockno| == NBUF
  {
  }

  lemma TakeOver(dev: seq<nat>, blockno: seq<nat>, b: nat, d: nat, n: nat)
    requires Unique(dev, blockno) && b < NBUF && forall c :: 0 <= c < NBUF ==> dev[c] != d || blockno[c] != n
    ensures Unique(dev[b := d], blockno[b := n])
  {
  }

  // A reference is a user or a pin; a buffer that is locked has a user besides those on their
  // way out, who have released the lock and not yet the reference.
  ghost predicate Counted(refcnt: seq<nat>, users: seq<nat>, leaving: seq<nat>, pins: seq<nat>, locked: seq<bool>) {
    && |refcnt| == |users| == |leaving| == |pins| == |locked| == NBUF
    && (forall b :: 0 <= b < NBUF ==> refcnt[b] == users[b] + pins[b] && leaving[b] <= users[b])
    && (forall b :: 0 <= b < NBUF && locked[b] ==> leaving[b] < users[b])
  }

  predicate OnDisk<B>(disk: seq<seq<B>>, dev: nat, blockno: nat) {
    dev < |disk| && blockno < |disk[dev]|
  }

  // An unlocked valid buffer equals the disk, unless the log has pinned it.
  ghost predicate Agrees<B>(disk: seq<seq<B>>, dev: seq<nat>, blockno: seq<nat>, valid: seq<bool>, data: seq<B>, pins: seq<nat>, locked: seq<bool>) {
    && |dev| == |blockno| == |valid| == |data| == |pins| == |locked| == NBUF
    && (forall b :: 0 <= b < NBUF && (valid[b] || locked[b]) ==> OnDisk(disk, dev[b], blockno[b]))
    && (forall b :: 0 <= b < NBUF && valid[b] && !locked[b] && pins[b] == 0 ==> data[b] == disk[dev[b]][blockno[b]])
    && (forall b :: 0 <= b < NBUF && pins[b] > 0 ==> valid[b])
  }

  class Cache<B(==)> {
    var next: seq<nat>
    var prev: seq<nat>
    var dev: seq<nat>
    var blockno: seq<nat>
    var valid: seq<bool>
    var refcnt: seq<nat>
    var data: seq<B>
    var locked: seq<bool>          // the buffers' sleep locks
    var disk: seq<seq<B>>
    ghost var order: seq<nat>      // the list, from the most recently released on
    ghost var pos: seq<nat>
    ghost var released: seq<int>   // when each buffer was last released by its last user
    ghost var clock: int
    ghost var users: seq<nat>      // processes between bget and the end of brelse
    ghost var leaving: seq<nat>    // those of them that brelse has unlocked for
    ghost var pins: seq<nat>       // blocks of the log

    ghost predicate ValidList()
      reads this
    {
      Linked(next, prev, order) && Placed(order, pos) && Ordered(order, released, clock)
    }

    ghost predicate Valid()
      reads this
    {
      && ValidList() && Unique(dev, blockno) && Counted(refcnt, users, leaving, pins, locked)
      && Agrees(disk, dev, blockno, valid, data, pins, locked)
    }

    // binit: every buffer, put at the front in turn.
    constructor (blocks: seq<seq<B>>, blank: B)
      ensures Valid() && disk == blocks
      ensures forall b :: 0 <= b < NBUF ==> dev[b] == 0 && refcnt[b] == 0 && !valid[b] && !locked[b]
    {
      dev, blockno := seq(NBUF, _ => 0), seq(NBUF, _ => 0);
      valid, locked := seq(NBUF, _ => false), seq(NBUF, _ => false);
      refcnt, users, leaving, pins := seq(NBUF, _ => 0), seq(NBUF, _ => 0), seq(NBUF, _ => 0), seq(NBUF, _ => 0);
      data, disk := seq(NBUF, _ => blank), blocks;
      pos := seq(NBUF, i => NBUF - 1 - i);
      released, clock := seq(NBUF, i => i), NBUF;
      var nx: seq<nat> := seq(NBUF + 1, _ => HEAD);
      var pv: seq<nat> := seq(NBUF + 1, _ => HEAD);
      ghost var list: seq<nat> := [];
      var b := 0;
      while b < NBUF
        invariant 0 <= b <= NBUF && |list| == b && Linked(nx, pv, list)
        invariant forall i :: 0 <= i < b ==> list[i] == b - 1 - i
      {
        LinkKeeps(nx, pv, list, b);
        var first := nx[HEAD];
        nx := nx[b := first];
        pv := pv[b := HEAD];
        pv := pv[first := b];
        nx := nx[HEAD := b];
        list := [b] + list;
        b := b + 1;
      }
      next, prev, order := nx, pv, list;
    }

    // ----- bget

    // The scan forward for a cached block: NBUF if there is none.
    method FindCached(d: nat, n: nat) returns (b: nat)
      requires Valid()
      ensures b <= NBUF
      ensures b < NBUF ==> dev[b] == d && blockno[b] == n
      ensures b == NBUF ==> forall c :: 0 <= c < NBUF ==> dev[c] != d || blockno[c] != n
    {
      hide Linked;
      hide Ordered;
      hide Agrees;
      hide Counted;
      ghost var i := 0;
      NextIs(next, prev, order, 0);
      b := next[HEAD];
      while b != HEAD
        invariant 0 <= i <= NBUF && b == (if i == NBUF then HEAD else order[i])
        invariant forall j :: 0 <= j < i ==> dev[order[j]] != d || blockno[order[j]] != n
        decreases NBUF - i
      {
        if dev[b] == d && blockno[b] == n { return; }
        i := i + 1;
        NextIs(next, prev, order, i);
        b := next[b];
      }
      forall c | 0 <= c < NBUF ensures dev[c] != d || blockno[c] != n {
        assert c == order[pos[c]];
      }
    }

    /** The scan backward for an unused buffer: the one released longest ago, or NBUF. */
    method FindUnused() returns (b: nat)
      requires Valid()
      ensures b <= NBUF
      ensures b < NBUF ==> refcnt[b] == 0 && forall c :: 0 <= c < NBUF && refcnt[c] == 0 ==> released[b] <= released[c]
      ensures b == NBUF ==> forall c :: 0 <= c < NBUF ==> refcnt[c] > 0
    {
      hide Linked;
      hide Agrees;
      hide Unique;
      ghost var i := NBUF;
      NextIs(next, prev, order, i);
      b := prev[HEAD];
      while b != HEAD
        invariant 0 <= i <= NBUF && b == (if i == 0 then HEAD else order[i - 1])
        invariant forall j :: i <= j < NBUF ==> refcnt[order[j]] > 0
        decreases i
      {
        if refcnt[b] == 0 {
          forall c | 0 <= c < NBUF && refcnt[c] == 0 ensures released[b] <= released[c] {
            assert c == order[pos[c]];
          }
          return;
        }
        i := i - 1;
        NextIs(next, prev, order, i);
        b := prev[b];
      }
      forall c | 0 <= c < NBUF ensures refcnt[c] > 0 {
        assert c == order[pos[c]];
      }
    }

    /**
      bget up to acquiresleep: the buffer that caches the block, or else the unused one released
      longest ago, taken over for it.  It panics exactly when there is neither.
     */
    method Bget(d: nat, n: nat) returns (ok: bool, b: nat)
      requires Valid() && d != 0
      modifies this`dev, this`blockno, this`valid, this`refcnt, this`users
      ensures Valid()
      ensures ok ==> b < NBUF && dev[b] == d && blockno[b] == n && users == old(users)[b := old(users)[b] + 1]
      ensures ok <==> (exists c :: 0 <= c < NBUF && ((old(dev)[c] == d && old(blockno)[c] == n) || old(refcnt)[c] == 0))
      ensures ok && old(dev)[b] == d && old(blockno)[b] == n ==> dev == old(dev) && blockno == old(blockno) && valid == old(valid)
      ensures ok && !(old(dev)[b] == d && old(blockno)[b] == n) ==>
        && old(refcnt)[b] == 0 && pins[b] == 0 && !locked[b] && !valid[b]
        && (forall c :: 0 <= c < NBUF && old(refcnt)[c] == 0 ==> released[b] <= released[c])
        && dev == old(dev)[b := d] && blockno == old(blockno)[b := n] && valid == old(valid)[b := false]
      ensures !ok ==> dev == old(dev) && blockno == old(blockno) && valid == old(valid) && refcnt == old(refcnt) && users == old(users)
    {
      hide Linked;
      hide Ordered;
      hide Placed;
      hide Unique;
      UniqueShape(dev, blockno);
      b := FindCached(d, n);
      if b < NBUF {
        AddUser(b);
        return true, b;
      }
      b := FindUnused();
      if b == NBUF { return false, b; }
      Recycle(b, d, n);
      ok := true;
    }

    method AddUser(b: nat)
      requires Valid() && b < NBUF
      modifies this`refcnt, this`users
      ensures Valid() && users == old(users)[b := old(users)[b] + 1]
    {
      hide Linked;
      hide Ordered;
      hide Placed;
      hide Unique;
      hide Agrees;
      refcnt := refcnt[b := refcnt[b] + 1];
      users := users[b := users[b] + 1];
    }

    method Recycle(b: nat, d: nat, n: nat)
      requires Valid() && b < NBUF && refcnt[b] == 0 && forall c :: 0 <= c < NBUF ==> dev[c] != d || blockno[c] != n
      modifies this`dev, this`blockno, this`valid, this`refcnt, this`users
      ensures Valid() && dev == old(dev)[b := d] && blockno == old(blockno)[b := n] && valid == old(valid)[b := false]
      ensures users == old(users)[b := old(users)[b] + 1] && pins[b] == 0 && !locked[b]
    {
      hide Linked;
      hide Ordered;
      hide Placed;
      hide Unique;
      UniqueShape(dev, blockno);
      TakeOver(dev, blockno, b, d, n);
      dev, blockno := dev[b := d], blockno[b := n];
      valid := valid[b := false];
      refcnt := refcnt[b := 1];
      users := users[b := users[b] + 1];
    }

    // ----- What the holder of a buffer does

    // acquiresleep succeeds, for a user that is not on its way out.
    method Lock(b: nat)
      requires Valid() && b < NBUF && |leaving| == |users| == NBUF && leaving[b] < users[b] && !locked[b] && OnDisk(disk, dev[b], blockno[b])
      modifies this`locked
      ensures Valid() && locked == old(locked)[b := true]
    {
      hide Linked;
      hide Placed;
      hide Ordered;
      hide Unique;
      locked := locked[b := true];
    }

    // The rest of bread, once the buffer is locked: it ends up with valid contents.
    method Fill(b: nat)
      requires Valid() && b < NBUF && locked[b]
      modifies this`valid, this`data
      ensures Valid() && valid == old(valid)[b := true]
      ensures data == if old(valid)[b] then old(data) else old(data)[b := disk[dev[b]][blockno[b]]]
      ensures old(valid)[b] ==> unchanged(this)
    {
      hide Linked;
      hide Placed;
      hide Ordered;
      hide Unique;
      hide Counted;
      if !valid[b] {
        data := data[b := disk[dev[b]][blockno[b]]];
        valid := valid[b := true];
      }
    }

    // The client writes into b->data.
    method Modify(b: nat, contents: B)
      requires Valid() && b < NBUF && locked[b]
      modifies this`data
      ensures Valid() && data == old(data)[b := contents]
    {
      hide Linked;
      hide Placed;
      hide Ordered;
      hide Unique;
      hide Counted;
      data := data[b := contents];
    }

    /** bwrite: exactly the buffer's own block on disk changes, and no other buffer goes stale. */
    method Bwrite(b: nat)
      requires Valid() && b < NBUF && locked[b] && dev[b] != 0
      modifies this`disk
      ensures Valid() && disk == old(disk)[dev[b] := old(disk)[dev[b]][blockno[b] := data[b]]]
    {
      hide Linked;
      hide Placed;
      hide Ordered;
      hide Counted;
      ghost var was := disk;
      disk := disk[dev[b] := disk[dev[b]][blockno[b] := data[b]]];
      OthersFresh(was, b);
    }

    lemma OthersFresh(was: seq<seq<B>>, b: nat)
      requires Unique(dev, blockno) && Agrees(was, dev, blockno, valid, data, pins, locked)
      requires b < NBUF && locked[b] && dev[b] != 0 && OnDisk(was, dev[b], blockno[b])
      requires disk == was[dev[b] := was[dev[b]][blockno[b] := data[b]]]
      ensures Agrees(disk, dev, blockno, valid, data, pins, locked)
    {
      forall c | 0 <= c < NBUF && (valid[c] || locked[c]) ensures OnDisk(disk, dev[c], blockno[c]) {
        assert OnDisk(was, dev[c], blockno[c]);
      }
      forall c | 0 <= c < NBUF && valid[c] && !locked[c] && pins[c] == 0 ensures data[c] == disk[dev[c]][blockno[c]] {
        assert OnDisk(was, dev[c], blockno[c]);
        assert c != b && (dev[c] != dev[b] || blockno[c] != blockno[b]);
      }
    }

    // log_write's bpin
    method Bpin(b: nat)
      requires Valid() && b < NBUF && locked[b] && valid[b]
      modifies this`refcnt, this`pins
      ensures Valid() && pins == old(pins)[b := old(pins)[b] + 1]
    {
      hide Linked;
      hide Placed;
      hide Ordered;
      hide Unique;
      refcnt := refcnt[b := refcnt[b] + 1];
      pins := pins[b := pins[b] + 1];
    }

    // install_trans's bunpin, by a process that still holds the buffer.
    method Bunpin(b: nat)
      requires Valid() && b < NBUF && locked[b] && pins[b] > 0
      modifies this`refcnt, this`pins
      ensures Valid() && pins == old(pins)[b := old(pins)[b] - 1]
    {
      hide Linked;
      hide Placed;
      hide Ordered;
      hide Unique;
      refcnt := refcnt[b := refcnt[b] - 1];
      pins := pins[b := pins[b] - 1];
    }

    // The list half of brelse.
    method MoveToFront(b: nat)
      requires ValidList() && b < NBUF
      modifies this`next, this`prev, this`order, this`pos, this`released, this`clock
      ensures ValidList() && order == ToFront(old(order), old(pos)[b]) && clock == old(clock) + 1
      ensures released == old(released)[b := old(clock)]
    {
      hide Linked;
      hide Ordered;
      ghost var i := pos[b];
      assert order[i] == b;
      PlacedDistinct(order, pos);
      FrontLinked(next, prev, order, i);
      FrontOrdered(order, released, clock, i);
      FrontPlaced(order, pos, i);
      var before, after := prev[b], next[b];
      prev := prev[after := before];
      next := next[before := after];
      var first := next[HEAD];
      next := next[b := first];
      prev := prev[b := HEAD];
      prev := prev[first := b];
      next := next[HEAD := b];
      order, pos := ToFront(order, i), NewPlaces(pos, i);
      released, clock := released[b := clock], clock + 1;
    }

    /** brelse's releasesleep, by a client that has left the buffer as the disk has it or in the log. */
    method Unlock(b: nat)
      requires Valid() && b < NBUF && locked[b] && valid[b]
      requires data[b] == disk[dev[b]][blockno[b]] || pins[b] > 0
      modifies this`locked, this`leaving
      ensures Valid() && locked == old(locked)[b := false] && leaving == old(leaving)[b := old(leaving)[b] + 1]
    {
      hide Linked;
      hide Placed;
      hide Ordered;
      hide Unique;
      locked := locked[b := false];
      leaving := leaving[b := leaving[b] + 1];
    }

    /**
      The rest of brelse, whatever others have done to the buffer since: the last reference's
      release moves it to the front; nothing else about the list changes.
     */
    method Brelse(b: nat)
      requires Valid() && b < |leaving| == NBUF && leaving[b] > 0
      modifies this`refcnt, this`users, this`leaving, this`next, this`prev, this`order, this`pos, this`released, this`clock
      ensures Valid() && users == old(users)[b := old(users)[b] - 1] && leaving == old(leaving)[b := old(leaving)[b] - 1]
      ensures refcnt[b] == 0 ==> !locked[b]
      ensures order == if refcnt[b] == 0 then ToFront(old(order), old(pos)[b]) else old(order)
      ensures released == if refcnt[b] == 0 then old(released)[b := old(clock)] else old(released)
    {
      hide Linked;
      hide Placed;
      hide Ordered;
      hide Unique;
      hide Agrees;
      hide Counted;
      DropUser(b);
      if refcnt[b] == 0 {
        MoveToFront(b);
      }
    }

    method DropUser(b: nat)
      requires Valid() && b < |leaving| == NBUF && leaving[b] > 0
      modifies this`refcnt, this`users, this`leaving
      ensures Valid() && users == old(users)[b := old(users)[b] - 1] && leaving == old(leaving)[b := old(leaving)[b] - 1]
      ensures |refcnt| == |locked| == NBUF && (refcnt[b] == 0 ==> !locked[b])
    {
      hide Linked;
      hide Placed;
      hide Ordered;
      hide Unique;
      hide Agrees;
      refcnt := refcnt[b := refcnt[b] - 1];
      users := users[b := users[b] - 1];
      leaving := leaving[b := leaving[b] - 1];
    }
  }
}
