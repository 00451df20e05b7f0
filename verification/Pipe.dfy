/**
  Pipes: pipewrite, piperead and pipeclose of kernel/pipe.c.  A method is one stretch of code
  under pi->lock, up to the point where the caller sleeps; a sleeping writer or reader goes on
  by calling again for the rest, so that any number of them may interleave.
 */
module Pipe {
  import Counters

  const PIPESIZE := 512
  const WRAP := 0x1_0000_0000       // counters are 32 bits wide
  const TURNS := WRAP / PIPESIZE

  function Min(a: int, b: int): int { if a < b then a else b }

  // ----- A pipe without its ring

  /** Everything ever written, how much of it was read, and which ends are open. */
  datatype Queue = Queue(written: seq<char>, got: nat, readopen: bool, writeopen: bool)

  predicate Good(q: Queue) {
    q.got <= |q.written| <= q.got + PIPESIZE
  }

  function Pending(q: Queue): seq<char>
    requires Good(q)
  {
    q.written[q.got..]
  }

  /** What pipewrite returns, and how many bytes it has put into the pipe. */
  datatype Wrote = Wrote(ret: int, blocked: bool, added: nat)

  // pipewrite of src, of which user memory can supply `limit`; the writer finds itself killed
  // when it has written `alive` bytes.
  function WriteOf(q: Queue, src: seq<char>, limit: nat, alive: nat): Wrote
    requires Good(q)
  {
    if src == [] then Wrote(0, false, 0)
    else if !q.readopen then Wrote(-1, false, 0)
    else
      var room := PIPESIZE - |Pending(q)|;
      var n := Min(Min(|src|, limit), Min(room, alive));
      if n == |src| then Wrote(n, false, n)
      else if n == alive then Wrote(-1, false, n)
      else Wrote(n, n == room, n)
  }

  function AfterWrite(q: Queue, src: seq<char>, limit: nat, alive: nat): Queue
    requires Good(q)
  {
    q.(written := q.written + src[..WriteOf(q, src, limit, alive).added])
  }

  datatype Got = Got(r: int, out: seq<char>, blocked: bool)

  // piperead of up to n bytes, of which user memory can take `limit`.
  function ReadOf(q: Queue, n: int, limit: nat, killed: bool): Got
    requires Good(q)
  {
    if Pending(q) == [] && q.writeopen then Got(-1, [], !killed)
    else
      var k := Min(Min(if n < 0 then 0 else n, limit), |Pending(q)|);
      Got(if k == 0 && n > 0 && Pending(q) != [] then -1 else k, Pending(q)[..k], false)
  }

  function AfterRead(q: Queue, n: int, limit: nat, killed: bool): Queue
    requires Good(q)
  {
    q.(got := q.got + |ReadOf(q, n, limit, killed).out|)
  }

  function AfterClose(q: Queue, writable: bool): Queue {
    if writable then q.(writeopen := false) else q.(readopen := false)
  }

  // Everything a series of reads delivers, given room for each, and the pipe after it.
  function Drain(q: Queue, sizes: seq<nat>): (out: seq<char>)
    requires Good(q)
    decreases |sizes|
  {
    if sizes == [] then []
    else ReadOf(q, sizes[0], sizes[0], false).out + Drain(AfterRead(q, sizes[0], sizes[0], false), sizes[1..])
  }

  function Drained(q: Queue, sizes: seq<nat>): (q': Queue)
    requires Good(q)
    ensures Good(q')
    decreases |sizes|
  {
    if sizes == [] then q else Drained(AfterRead(q, sizes[0], sizes[0], false), sizes[1..])
  }

  // None of them blocks.
  predicate NoneBlocks(q: Queue, sizes: seq<nat>)
    requires Good(q)
    decreases |sizes|
  {
    sizes == [] || (!ReadOf(q, sizes[0], sizes[0], false).blocked && NoneBlocks(AfterRead(q, sizes[0], sizes[0], false), sizes[1..]))
  }

  function Sum(sizes: seq<nat>): nat {
    if sizes == [] then 0 else sizes[0] + Sum(sizes[1..])
  }

  /**
    Closing the write end ends the stream: whatever the sizes of the reads that follow, they
    deliver exactly what is pending, in order, none of them blocks, and when all is delivered
    every further read reports 0 bytes.
   */
  lemma {:induction false} CloseEndsStream(q: Queue, sizes: seq<nat>)
    requires Good(q) && !q.writeopen
    ensures Drain(q, sizes) == Pending(q)[..Min(Sum(sizes), |Pending(q)|)] && NoneBlocks(q, sizes)
    ensures Pending(Drained(q, sizes)) == Pending(q)[Min(Sum(sizes), |Pending(q)|)..]
    ensures Sum(sizes) >= |Pending(q)| ==>
      forall n, limit, killed :: ReadOf(Drained(q, sizes), n, limit, killed) == Got(0, [], false)
    decreases |sizes|
  {
    hide ReadOf;
    hide AfterRead;
    if sizes == [] {
      if Pending(q) == [] { ClosedEmpty(q); }
    } else {
      var q' := AfterRead(q, sizes[0], sizes[0], false);
      var k := Min(sizes[0], |Pending(q)|);
      ClosedTurn(q, sizes[0]);
      CloseEndsStream(q', sizes[1..]);
      var j := Min(Sum(sizes[1..]), |Pending(q')|);
      Joins(Pending(q), k, j);
      assert Min(Sum(sizes), |Pending(q)|) == k + j;
    }
  }

  lemma ClosedTurn(q: Queue, n: nat)
    requires Good(q) && !q.writeopen
    ensures var k, q' := Min(n, |Pending(q)|), AfterRead(q, n, n, false);
      && !ReadOf(q, n, n, false).blocked && ReadOf(q, n, n, false).out == Pending(q)[..k]
      && Good(q') && !q'.writeopen && Pending(q') == Pending(q)[k..]
  {
  }

  lemma ClosedEmpty(q: Queue)
    requires Good(q) && !q.writeopen && Pending(q) == []
    ensures forall n, limit, killed :: ReadOf(q, n, limit, killed) == Got(0, [], false)
  {
  }

  lemma Joins(s: seq<char>, k: nat, j: nat)
    requires k + j <= |s|
    ensures s[..k] + s[k..][..j] == s[..k + j] && s[k..][j..] == s[k + j..]
  {
  }

  // What anybody may do to a pipe.
  datatype Call =
    | WriteCall(src: seq<char>, limit: nat, alive: nat)
    | ReadCall(n: int, limit: nat, killed: bool)
    | CloseCall(writable: bool)

  function AfterCall(q: Queue, call: Call): (q': Queue)
    requires Good(q)
    ensures Good(q')
  {
    match call
    case WriteCall(src, limit, alive) => AfterWrite(q, src, limit, alive)
    case ReadCall(n, limit, killed) => AfterRead(q, n, limit, killed)
    case CloseCall(writable) => AfterClose(q, writable)
  }

  function AfterCalls(q: Queue, calls: seq<Call>): (q': Queue)
    requires Good(q)
    ensures Good(q')
  {
    if calls == [] then q else AfterCall(AfterCalls(q, calls[..|calls| - 1]), calls[|calls| - 1])
  }

  /**
    Closing the read end refuses every later write for good: whatever anybody does afterwards,
    nothing more gets into the pipe, and every write of something fails at once.
   */
  lemma {:induction false} CloseRefusesWrites(q: Queue, calls: seq<Call>, src: seq<char>, limit: nat, alive: nat)
    requires Good(q) && src != []
    ensures var q' := AfterCalls(AfterClose(q, false), calls);
      !q'.readopen && q'.written == q.written && WriteOf(q', src, limit, alive) == Wrote(-1, false, 0)
  {
    if calls != [] {
      CloseRefusesWrites(q, calls[..|calls| - 1], src, limit, alive);
    }
  }

  /** Over any series of calls, what has been read is a prefix of what has been written, and at most PIPESIZE bytes behind it. */
  lemma {:induction false} StreamIsKept(q: Queue, calls: seq<Call>)
    requires Good(q)
    ensures var q' := AfterCalls(q, calls); q.written <= q'.written && q.got <= q'.got <= |q'.written| <= q'.got + PIPESIZE
  {
    if calls != [] {
      StreamIsKept(q, calls[..|calls| - 1]);
    }
  }

  // What one call puts into the pipe, and what it hands out.
  function Added(q: Queue, call: Call): seq<char>
    requires Good(q)
  {
    if call.WriteCall? then call.src[..WriteOf(q, call.src, call.limit, call.alive).added] else []
  }

  function HandedOut(q: Queue, call: Call): seq<char>
    requires Good(q)
  {
    if call.ReadCall? then ReadOf(q, call.n, call.limit, call.killed).out else []
  }

  // The same of a series of calls, put together.
  ghost function Accepted(q: Queue, calls: seq<Call>): seq<char>
    requires Good(q)
  {
    if calls == [] then []
    else Accepted(q, calls[..|calls| - 1]) + Added(AfterCalls(q, calls[..|calls| - 1]), calls[|calls| - 1])
  }

  ghost function Delivered(q: Queue, calls: seq<Call>): seq<char>
    requires Good(q)
  {
    if calls == [] then []
    else Delivered(q, calls[..|calls| - 1]) + HandedOut(AfterCalls(q, calls[..|calls| - 1]), calls[|calls| - 1])
  }

  lemma DropAppend<T>(w: seq<T>, x: seq<T>, g: nat)
    requires g <= |w|
    ensures (w + x)[g..] == w[g..] + x
  {
  }

  lemma WriteAdds(q: Queue, src: seq<char>, limit: nat, alive: nat)
    requires Good(q)
    ensures WriteOf(q, src, limit, alive).added <= |src|
    ensures Pending(AfterWrite(q, src, limit, alive)) == Pending(q) + src[..WriteOf(q, src, limit, alive).added]
  {
    DropAppend(q.written, src[..WriteOf(q, src, limit, alive).added], q.got);
  }

  lemma ReadTakes(q: Queue, n: int, limit: nat, killed: bool)
    requires Good(q)
    ensures Pending(q) == ReadOf(q, n, limit, killed).out + Pending(AfterRead(q, n, limit, killed))
  {
    var p, k := Pending(q), |ReadOf(q, n, limit, killed).out|;
    assert ReadOf(q, n, limit, killed).out == p[..k];
    assert Pending(AfterRead(q, n, limit, killed)) == p[k..];
  }

  lemma OneCall(q: Queue, call: Call)
    requires Good(q)
    ensures var q' := AfterCall(q, call); Pending(q) + Added(q, call) == HandedOut(q, call) + Pending(q')
  {
    hide WriteOf;
    hide ReadOf;
    hide AfterWrite;
    hide AfterRead;
    match call
    case WriteCall(src, limit, alive) =>
      WriteAdds(q, src, limit, alive);
      Empty(Pending(AfterCall(q, call)));
    case ReadCall(n, limit, killed) =>
      ReadTakes(q, n, limit, killed);
      Empty(Pending(q));
    case CloseCall(_) =>
      Empty(Pending(q));
  }

  lemma Empty<T>(s: seq<T>)
    ensures s + [] == s && [] + s == s
  {
  }

  /**
    First in, first out: over any series of calls, what was pending and what the writes put in is,
    byte for byte, what the reads hand out and what is then pending.
   */
  lemma {:induction false} StreamIsExact(q: Queue, calls: seq<Call>)
    requires Good(q)
    ensures Pending(q) + Accepted(q, calls) == Delivered(q, calls) + Pending(AfterCalls(q, calls))
  {
    hide WriteOf;
    hide ReadOf;
    hide Added;
    hide HandedOut;
    hide Pending;
    if calls == [] {
      assert Pending(q) + Accepted(q, calls) == Pending(q);
      assert Delivered(q, calls) + Pending(q) == Pending(q);
    } else {
      var front, last := calls[..|calls| - 1], calls[|calls| - 1];
      var q1, q2 := AfterCalls(q, front), AfterCalls(q, calls);
      StreamIsExact(q, front);
      OneCall(q1, last);
      Regroup(Pending(q), Accepted(q, front), Added(q1, last), Delivered(q, front), Pending(q1), HandedOut(q1, last), Pending(q2));
    }
  }

  lemma Regroup<T>(p: seq<T>, a: seq<T>, x: seq<T>, d: seq<T>, p1: seq<T>, y: seq<T>, p2: seq<T>)
    requires p + a == d + p1 && p1 + x == y + p2
    ensures p + (a + x) == (d + y) + p2
  {
    assert p + (a + x) == (p + a) + x;
    assert (d + p1) + x == d + (p1 + x);
    assert d + (y + p2) == (d + y) + p2;
  }

  // ----- The ring

  // The 32-bit tests for a full and an empty pipe are exact.
  lemma WrapTests(r: nat, w: nat)
    requires r <= w <= r + PIPESIZE
    ensures w % WRAP == (r % WRAP + PIPESIZE) % WRAP <==> w == r + PIPESIZE
    ensures w % WRAP == r % WRAP <==> w == r
  {
    Counters.Shift(r % WRAP + PIPESIZE, WRAP, r / WRAP);
    assert r + PIPESIZE == r % WRAP + PIPESIZE + WRAP * (r / WRAP);
    if w < r + PIPESIZE { Counters.Apart(w, r + PIPESIZE, WRAP); }
    if r < w { Counters.Apart(r, w, WRAP); }
  }

  class PipeBuffer {
    const data: array<char>
    var nread: nat
    var nwrite: nat
    var readopen: bool
    var writeopen: bool
    ghost var written: seq<char>   // every byte ever written
    ghost var got: seq<char>       // every byte ever read

    ghost function Now(): Queue
      reads this
    {
      Queue(written, |got|, readopen, writeopen)
    }

    /** What was read is a prefix of what was written, and the ring holds the rest. */
    ghost predicate Valid()
      reads this, data
    {
      && data.Length == PIPESIZE && Good(Now())
      && nread == |got| % WRAP && nwrite == |written| % WRAP
      && got == written[..|got|]
      && forall k :: |got| <= k < |written| ==> data[k % PIPESIZE] == written[k]
    }

    constructor ()
      ensures Valid() && Now() == Queue([], 0, true, true) && fresh(data)
    {
      data := new char[PIPESIZE];
      nread, nwrite, readopen, writeopen := 0, 0, true, true;
      written, got := [], [];
    }

    // Store one byte.
    method Put(ch: char)
      requires Valid() && |written| < |got| + PIPESIZE
      modifies this`nwrite, this`written, data
      ensures Valid() && written == old(written) + [ch]
    {
      ghost var w := |written|;
      Counters.SameSlot(w, PIPESIZE, TURNS);
      Counters.Step(w, WRAP);
      data[nwrite % PIPESIZE] := ch;
      nwrite := (nwrite + 1) % WRAP;
      written := written + [ch];
      forall k | |got| <= k < |written| ensures data[k % PIPESIZE] == written[k] {
        if k < w { Counters.Apart(k, w, PIPESIZE); }
      }
    }

    // Take the oldest byte.
    method Get() returns (ch: char)
      requires Valid() && |got| < |written|
      modifies this`nread, this`got
      ensures Valid() && got == old(got) + [ch] && ch == written[|old(got)|]
    {
      Counters.SameSlot(|got|, PIPESIZE, TURNS);
      Counters.Step(|got|, WRAP);
      ch := data[nread % PIPESIZE];
      nread := (nread + 1) % WRAP;
      got := got + [ch];
      assert written[..|got|] == written[..|old(got)|] + [written[|old(got)|]];
    }

    /** pipewrite, up to the point where the writer is done, fails or sleeps. */
    method Write(src: seq<char>, limit: nat, alive: nat) returns (ret: int, blocked: bool)
      requires Valid()
      modifies this`nwrite, this`written, data
      ensures Valid() && Now() == AfterWrite(old(Now()), src, limit, alive)
      ensures Wrote(ret, blocked, |written| - |old(written)|) == WriteOf(old(Now()), src, limit, alive)
    {
      var n := 0;
      assert src[..0] == [];
      while n < |src|
        invariant Valid() && 0 <= n <= |src| && n <= limit && n <= alive && written == old(written) + src[..n]
        invariant n > 0 ==> readopen
      {
        if !readopen || n >= alive {
          return -1, false;
        }
        WrapTests(|got|, |written|);
        if nwrite == (nread + PIPESIZE) % WRAP {
          return n, true;
        }
        if n >= limit { break; }
        Put(src[n]);
        assert src[..n + 1] == src[..n] + [src[n]];
        n := n + 1;
      }
      return n, false;
    }

    /** piperead, once; a blocked reader calls again. */
    method Read(n: int, limit: nat, killed: bool) returns (r: int, out: seq<char>, blocked: bool)
      requires Valid()
      modifies this`nread, this`got
      ensures Valid() && got == old(got) + out && Now() == AfterRead(old(Now()), n, limit, killed)
      ensures Got(r, out, blocked) == ReadOf(old(Now()), n, limit, killed)
    {
      out, blocked := [], false;
      WrapTests(|got|, |written|);
      if nread == nwrite && writeopen {
        return -1, [], !killed;
      }
      ghost var pending := Pending(Now());
      var i := 0;
      r := 0;
      while i < n
        invariant Valid() && got == old(got) + out && |out| == i && (i <= n || i == 0) && i <= limit && r == i && i <= |pending| && out == pending[..i]
        decreases n - i
      {
        WrapTests(|got|, |written|);
        if nread == nwrite { break; }
        if i >= limit {
          r := if i == 0 then -1 else i;
          break;
        }
        var ch := Get();
        out := out + [ch];
        i := i + 1;
        r := i;
      }
    }

    // pipeclose; the last one frees the pipe.
    method Close(writable: bool) returns (freed: bool)
      requires Valid()
      modifies this`readopen, this`writeopen
      ensures Valid() && Now() == AfterClose(old(Now()), writable)
      ensures freed <==> !readopen && !writeopen
    {
      if writable { writeopen := false; } else { readopen := false; }
      freed := !readopen && !writeopen;
    }
  }
}
