/**
  Console input: consoleintr and consoleread of kernel/console.c.  A method is one stretch of
  code under cons.lock; a reader that sleeps goes on by calling again.
 */
module Console {
  import Counters

  const SIZE := 128                 // INPUT_BUF_SIZE
  const WRAP := 0x1_0000_0000       // the indices are 32 bits wide
  const TURNS := WRAP / SIZE
  const CTRL_D := 4 as char
  const CTRL_H := 8 as char
  const CTRL_P := 16 as char
  const CTRL_U := 21 as char
  const DELETE := 127 as char

  // 32-bit differences of nearby counts are exact.
  lemma Near(a: nat, b: nat)
    requires a <= b <= a + SIZE
    ensures (b % WRAP + WRAP - a % WRAP) % WRAP == b - a
    ensures a % WRAP == b % WRAP <==> a == b
  {
    Counters.Distance(a, b, WRAP);
    if a < b { Counters.Apart(a, b, WRAP); }
  }

  // What a key does to the line being edited: the edited line and whether it is now committed.
  function Edited(edit: seq<char>, room: nat, c: char): (r: (seq<char>, bool)) {
    if c == CTRL_P then (edit, false)
    else if c == CTRL_U then ([], false)
    else if c == CTRL_H || c == DELETE then (if edit == [] then [] else edit[..|edit| - 1], false)
    else if c == '\0' || room == 0 then (edit, false)
    else
      var d := if c == '\r' then '\n' else c;
      (edit + [d], d == '\n' || d == CTRL_D || room == 1)
  }

  // ----- What a read does

  /** Why consoleread stopped. */
  datatype Stop = Filled | Line | Eof | Fault | Blocked | Killed

  // How many characters a read of n delivers, when `ready` are committed and user memory takes `limit`.
  function Delivered(ready: seq<char>, n: nat, limit: nat): (k: nat)
    ensures k <= n && k <= limit && k <= |ready|
  {
    if n == 0 || ready == [] || ready[0] == CTRL_D || limit == 0 then 0
    else if ready[0] == '\n' then 1
    else 1 + Delivered(ready[1..], n - 1, limit - 1)
  }

  function Stopped(ready: seq<char>, n: nat, limit: nat, killed: bool): Stop {
    if n == 0 then Filled
    else if ready == [] then if killed then Killed else Blocked
    else if ready[0] == CTRL_D then Eof
    else if limit == 0 then Fault
    else if ready[0] == '\n' then Line
    else Stopped(ready[1..], n - 1, limit - 1, killed)
  }

  // How many characters it takes out, for a reader that already has `sofar`.
  function Consumed(ready: seq<char>, n: nat, sofar: nat, limit: nat, killed: bool): nat {
    var k, stop := Delivered(ready, n, limit), Stopped(ready, n, limit, killed);
    k + if stop.Fault? || (stop.Eof? && sofar + k == 0) then 1 else 0
  }

  // One turn of the loop, after k characters.
  lemma ReadTurn(ready: seq<char>, k: nat, n: nat, limit: nat, killed: bool)
    requires k <= |ready| && k <= n && k <= limit
    ensures var d, stop := Delivered(ready[k..], n - k, limit - k), Stopped(ready[k..], n - k, limit - k, killed);
      if k == n then d == 0 && stop.Filled?
      else if k == |ready| then d == 0 && stop == if killed then Killed else Blocked
      else if ready[k] == CTRL_D then d == 0 && stop.Eof?
      else if k == limit then d == 0 && stop.Fault?
      else if ready[k] == '\n' then d == 1 && stop.Line?
      else d == 1 + Delivered(ready[k + 1..], n - k - 1, limit - k - 1) && stop == Stopped(ready[k + 1..], n - k - 1, limit - k - 1, killed)
  {
    if k < |ready| { assert ready[k..][0] == ready[k] && ready[k..][1..] == ready[k + 1..]; }
  }

  // Neither the end of a line nor an end-of-file mark.
  predicate Plain(c: char) { c != '\n' && c != CTRL_D }

  /** What is delivered is at most a line, without end-of-file marks, and the reason to stop is the right one. */
  lemma {:induction false} ReadsALine(ready: seq<char>, n: nat, limit: nat, killed: bool)
    ensures var k, stop := Delivered(ready, n, limit), Stopped(ready, n, limit, killed);
      && (forall i :: 0 <= i < k ==> ready[i] != CTRL_D && (ready[i] == '\n' ==> stop.Line? && i == k - 1))
      && (stop.Line? ==> k > 0 && ready[k - 1] == '\n')
      && (stop.Filled? ==> k == n)
      && (stop.Eof? ==> k < n && k < |ready| && ready[k] == CTRL_D)
      && (stop.Blocked? || stop.Killed? ==> k == |ready| < n && (stop.Killed? <==> killed))
      && (stop.Fault? ==> k == limit < n && k < |ready|)
  {
    if n > 0 && ready != [] && Plain(ready[0]) && limit > 0 {
      ReadsALine(ready[1..], n - 1, limit - 1, killed);
      var k := Delivered(ready[1..], n - 1, limit - 1);
      forall i | 0 <= i < k + 1 ensures ready[i] != CTRL_D && (ready[i] == '\n' ==> Stopped(ready, n, limit, killed).Line? && i == k) {
        if i > 0 { assert ready[i] == ready[1..][i - 1]; }
      }
    }
  }

  // The read gets to a character that user memory cannot take.
  predicate Faults(ready: seq<char>, n: nat, limit: nat) {
    limit < n && limit < |ready| && ready[limit] != CTRL_D && forall i :: 0 <= i < limit ==> Plain(ready[i])
  }

  lemma {:induction false} FaultExactly(ready: seq<char>, n: nat, limit: nat, killed: bool)
    ensures Stopped(ready, n, limit, killed).Fault? <==> Faults(ready, n, limit)
  {
    if n > 0 && ready != [] && limit > 0 {
      assert Plain(ready[0]) ==> (Faults(ready, n, limit) <==> Faults(ready[1..], n - 1, limit - 1)) by {
        if Faults(ready[1..], n - 1, limit - 1) {
          forall i | 0 < i < limit ensures Plain(ready[i]) { assert ready[i] == ready[1..][i - 1]; }
        }
      }
      if Plain(ready[0]) { FaultExactly(ready[1..], n - 1, limit - 1, killed); }
    }
  }

  /** A character other than an end-of-file mark is taken out and not delivered exactly when the read faults. */
  lemma LosesExactly(ready: seq<char>, n: nat, sofar: nat, limit: nat, killed: bool)
    ensures var k := Delivered(ready, n, limit);
      (k < Consumed(ready, n, sofar, limit, killed) && k < |ready| && ready[k] != CTRL_D) <==> Faults(ready, n, limit)
  {
    FaultExactly(ready, n, limit, killed);
    ReadsALine(ready, n, limit, killed);
  }

  /** Reading two characters into room for one delivers the first and drops the second. */
  lemma LosesOne()
    ensures Delivered("ab\n", 2, 1) == 1 && Consumed("ab\n", 2, 0, 1, false) == 2 && Stopped("ab\n", 2, 1, false) == Fault
  {
    assert "ab\n"[1..] == "b\n" && "ab\n"[0] == 'a' && "b\n"[0] == 'b';
  }

  class ConsoleBuffer {
    const buf: array<char>
    var r: nat
    var w: nat
    var e: nat
    ghost var consumed: nat        // how many committed characters were taken out
    ghost var stream: seq<char>    // every character ever committed
    ghost var edit: seq<char>      // the line being edited

    // read <= write <= edit <= read + SIZE
    ghost predicate Indexed()
      reads this
    {
      && consumed <= |stream| && |stream| + |edit| <= consumed + SIZE
      && r == consumed % WRAP && w == |stream| % WRAP && e == (|stream| + |edit|) % WRAP
    }

    ghost predicate Stored()
      reads this, buf
      requires buf.Length == SIZE
    {
      forall k :: consumed <= k < |stream| + |edit| ==> buf[k % SIZE] == (stream + edit)[k]
    }

    ghost predicate Valid()
      reads this, buf
    {
      && buf.Length == SIZE && Indexed() && Stored()
      && (forall i :: 0 <= i < |edit| ==> edit[i] != '\n' && edit[i] != CTRL_D)
      && (|stream| + |edit| == consumed + SIZE ==> edit == [])
    }

    ghost function Room(): nat
      reads this, buf
      requires Valid()
    {
      consumed + SIZE - |stream| - |edit|
    }

    constructor ()
      ensures Valid() && fresh(buf) && consumed == 0 && stream == edit == []
    {
      buf := new char[SIZE];
      r, w, e := 0, 0, 0;
      consumed, stream, edit := 0, [], [];
    }

    // Take back the last character of the line being edited.
    method Backspace()
      requires Valid() && edit != []
      modifies this`e, this`edit
      ensures Valid() && edit == old(edit)[..|old(edit)| - 1]
    {
      Counters.Step(|stream| + |edit|, WRAP);
      e := (e + WRAP - 1) % WRAP;
      edit := edit[..|edit| - 1];
      assert forall k :: consumed <= k < |stream| + |edit| ==> (stream + edit)[k] == old(stream + edit)[k];
    }

    // Add a character to the line being edited, and commit the line if `commit`.
    method Append(d: char, commit: bool)
      requires Valid() && Room() > 0
      requires commit <==> d == '\n' || d == CTRL_D || Room() == 1
      modifies this`w, this`e, this`stream, this`edit, buf
      ensures Valid()
      ensures commit ==> stream == old(stream + edit) + [d] && edit == []
      ensures !commit ==> stream == old(stream) && edit == old(edit) + [d]
    {
      ghost var all := stream + edit;
      Store(d);
      if commit {
        w := e;
        stream, edit := all + [d], [];
        assert stream + edit == all + [d];
      } else {
        edit := edit + [d];
        assert stream + edit == all + [d];
      }
    }

    method Store(d: char)
      requires Valid() && Room() > 0
      modifies this`e, buf
      ensures e == (|stream| + |edit| + 1) % WRAP
      ensures forall k :: consumed <= k < |stream| + |edit| + 1 ==> buf[k % SIZE] == (stream + edit + [d])[k]
    {
      ghost var n := |stream| + |edit|;
      Counters.SameSlot(n, SIZE, TURNS);
      Counters.Step(n, WRAP);
      buf[e % SIZE] := d;
      e := (e + 1) % WRAP;
      forall k | consumed <= k < n + 1 ensures buf[k % SIZE] == (stream + edit + [d])[k] {
        if k < n { Counters.Apart(k, n, SIZE); }
      }
    }

    /**
      consoleintr for character c.  Editing keys change only the uncommitted line; a line is
      committed as a whole, and a full buffer is always committed.
     */
    method Intr(c: char)
      requires Valid()
      modifies this`w, this`e, this`stream, this`edit, buf
      ensures Valid()
      ensures var (line, commit) := Edited(old(edit), old(Room()), c);
        if commit then stream == old(stream) + line && edit == [] else stream == old(stream) && edit == line
    {
      Distances();
      if c == CTRL_P {
      } else if c == CTRL_U {
        KillLine();
      } else if c == CTRL_H || c == DELETE {
        if e != w {
          Backspace();
        }
      } else if c != '\0' && (e + WRAP - r) % WRAP < SIZE {
        var d := if c == '\r' then '\n' else c;
        Append(d, d == '\n' || d == CTRL_D || ((e + 1) % WRAP + WRAP - r) % WRAP == SIZE);
        assert old(stream + edit) + [d] == old(stream) + (old(edit) + [d]);
      }
    }

    lemma Distances()
      requires Valid()
      ensures e == w <==> edit == []
      ensures (e + WRAP - r) % WRAP == SIZE - Room()
      ensures Room() > 0 ==> ((e + 1) % WRAP + WRAP - r) % WRAP == SIZE - Room() + 1
    {
      hide Stored;
      Near(|stream|, |stream| + |edit|);
      Near(consumed, |stream| + |edit|);
      if Room() > 0 {
        Counters.Step(|stream| + |edit|, WRAP);
        Near(consumed, |stream| + |edit| + 1);
      }
    }

    // The loop also stops at a newline, but the uncommitted line never holds one: it is emptied.
    method KillLine()
      requires Valid()
      modifies this`e, this`edit
      ensures Valid() && edit == []
    {
      Distances();
      LastEdited();
      while e != w && buf[((e + WRAP - 1) % WRAP) % SIZE] != '\n'
        invariant Valid()
        invariant e == w <==> edit == []
        invariant edit != [] ==> buf[((e + WRAP - 1) % WRAP) % SIZE] != '\n'
        decreases |edit|
      {
        Backspace();
        Distances();
        LastEdited();
      }
    }

    lemma LastEdited()
      requires Valid()
      ensures edit != [] ==> buf[((e + WRAP - 1) % WRAP) % SIZE] == edit[|edit| - 1] != '\n'
    {
      if edit != [] {
        var k := |stream| + |edit| - 1;
        Counters.Step(k + 1, WRAP);
        Counters.SameSlot(k, SIZE, TURNS);
        assert (stream + edit)[k] == edit[|edit| - 1];
      }
    }

    // Take the next committed character.
    method Take() returns (c: char)
      requires Valid() && consumed < |stream|
      modifies this`r, this`consumed
      ensures Valid() && c == stream[old(consumed)] && consumed == old(consumed) + 1
    {
      Counters.SameSlot(consumed, SIZE, TURNS);
      Counters.Step(consumed, WRAP);
      assert (stream + edit)[consumed] == stream[consumed];
      c := buf[r % SIZE];
      r := (r + 1) % WRAP;
      consumed := consumed + 1;
    }

    // Put it back.
    method Untake()
      requires Valid() && 0 < consumed && |stream| + |edit| < consumed + SIZE
      requires buf[(consumed - 1) % SIZE] == (stream + edit)[consumed - 1]
      requires |stream| + |edit| == consumed - 1 + SIZE ==> edit == []
      modifies this`r, this`consumed
      ensures Valid() && consumed == old(consumed) - 1
    {
      Counters.Step(consumed, WRAP);
      r := (r + WRAP - 1) % WRAP;
      consumed := consumed - 1;
    }

    // The next committed character; an end-of-file mark may stay.
    method Next(stays: bool) returns (c: char)
      requires Valid() && consumed < |stream|
      modifies this`r, this`consumed
      ensures Valid() && c == stream[old(consumed)]
      ensures consumed == old(consumed) + if c == CTRL_D && stays then 0 else 1
    {
      c := Take();
      if c == CTRL_D && stays {
        Untake();
      }
    }

    // The test for an empty buffer.
    lemma CaughtUp()
      requires Valid()
      ensures consumed <= |stream| && (r == w <==> consumed == |stream|)
    {
      Near(consumed, |stream|);
    }

    /**
      consoleread of `size` more characters by a reader that already has `sofar`; user memory can
      take `limit` of them.
     */
    method Read(size: int, sofar: nat, limit: nat, killed: bool) returns (out: seq<char>, stop: Stop)
      requires Valid()
      modifies this`r, this`consumed
      ensures Valid()
      ensures var ready, n := stream[old(consumed)..], if size < 0 then 0 else size;
        && out == ready[..Delivered(ready, n, limit)] && stop == Stopped(ready, n, limit, killed)
        && consumed == old(consumed) + Consumed(ready, n, sofar, limit, killed)
    {
      hide Delivered;
      hide Stopped;
      hide Valid;
      CaughtUp();
      out, stop := [], Filled;
      ghost var ready, n := stream[consumed..], if size < 0 then 0 else size;
      assert ready[0..] == ready;
      while |out| < size
        invariant Valid() && |out| <= n && |out| <= limit && stop.Filled? && |out| <= |ready|
        invariant consumed == old(consumed) + |out| && out == ready[..|out|]
        invariant Delivered(ready, n, limit) == |out| + Delivered(ready[|out|..], n - |out|, limit - |out|)
        invariant Stopped(ready, n, limit, killed) == Stopped(ready[|out|..], n - |out|, limit - |out|, killed)
        decreases size - |out|
      {
        CaughtUp();
        ReadTurn(ready, |out|, n, limit, killed);
        if r == w {
          return out, if killed then Killed else Blocked;
        }
        assert ready[|out|] == stream[consumed];
        var c := Next(sofar + |out| > 0);
        if c == CTRL_D {
          return out, Eof;
        }
        if |out| >= limit {
          return out, Fault;
        }
        out := out + [c];
        if c == '\n' {
          return out, Line;
        }
      }
      ReadTurn(ready, |out|, n, limit, killed);
    }
  }
}
