/**
  user/grep.c: the matcher for ^ . * $ patterns, against the language the pattern denotes, and
  the chunked line loop, against the lines of the whole input.  C strings are sequences of the
  characters before the terminating NUL.
 */
module Grep {
  // ----- What a pattern denotes

  /** One character, or any number of characters; '.' stands for every character. */
  datatype Atom = One(c: char) | Many(c: char)

  predicate Fits(c: char, x: char) {
    c == '.' || c == x
  }

  // The atoms of a pattern; a final '$' that is not starred is not one of them.
  function Atoms(re: string): seq<Atom> {
    if re == "" || re == "$" then []
    else if |re| >= 2 && re[1] == '*' then [Many(re[0])] + Atoms(re[2..])
    else [One(re[0])] + Atoms(re[1..])
  }

  // The pattern ends in a '$' that asks for the end of the text.
  predicate Dollar(re: string) {
    if re == "" then false
    else if re == "$" then true
    else if |re| >= 2 && re[1] == '*' then Dollar(re[2..])
    else Dollar(re[1..])
  }

  ghost predicate PartOf(a: Atom, part: string) {
    match a
    case One(c) => |part| == 1 && Fits(c, part[0])
    case Many(c) => forall i :: 0 <= i < |part| ==> Fits(c, part[i])
  }

  function Join(parts: seq<string>): string {
    if parts == [] then "" else parts[0] + Join(parts[1..])
  }

  ghost predicate Splits(atoms: seq<Atom>, s: string, parts: seq<string>) {
    |parts| == |atoms| && Join(parts) == s && forall i :: 0 <= i < |atoms| ==> PartOf(atoms[i], parts[i])
  }

  // A string is in the language when it falls into one part per atom.
  ghost predicate Denotes(atoms: seq<Atom>, s: string) {
    exists parts :: Splits(atoms, s, parts)
  }

  // Some text[i..j] is in the language of the pattern, at the ends the anchors ask for.
  ghost predicate Occurs(re: string, text: string, i: int, j: int) {
    && 0 <= i <= j <= |text|
    && (Dollar(re) ==> j == |text|)
    && Denotes(Atoms(re), text[i..j])
  }

  ghost predicate Matches(re: string, text: string) {
    if re != "" && re[0] == '^' then exists j :: Occurs(re[1..], text, 0, j)
    else exists i, j :: Occurs(re, text, i, j)
  }

  // ----- The recursion of matchhere and matchstar

  predicate Here(re: string, text: string)
    decreases |re|, |text|, 0
  {
    if re == "" then true
    else if |re| >= 2 && re[1] == '*' then Star(re[0], re[2..], text)
    else if re == "$" then text == ""
    else text != "" && Fits(re[0], text[0]) && Here(re[1..], text[1..])
  }

  predicate Star(c: char, re: string, text: string)
    decreases |re|, |text|, 1
  {
    Here(re, text) || (text != "" && Fits(c, text[0]) && Star(c, re, text[1..]))
  }

  // ----- Soundness and completeness

  lemma DenotesNone(s: string)
    ensures Denotes([], s) <==> s == ""
  {
    if s == "" { assert Splits([], s, []); }
  }

  // The language of a pattern, atom by atom.
  lemma DenotesCons(a: Atom, rest: seq<Atom>, s: string)
    ensures Denotes([a] + rest, s) <==> exists k :: 0 <= k <= |s| && PartOf(a, s[..k]) && Denotes(rest, s[k..])
  {
    if Denotes([a] + rest, s) {
      var parts :| Splits([a] + rest, s, parts);
      var k := |parts[0]|;
      assert s[..k] == parts[0] && s[k..] == Join(parts[1..]);
      assert PartOf(([a] + rest)[0], parts[0]);
      assert Splits(rest, s[k..], parts[1..]) by {
        forall i | 0 <= i < |rest| ensures PartOf(rest[i], parts[1..][i]) {
          assert PartOf(([a] + rest)[i + 1], parts[i + 1]);
        }
      }
    }
    if k :| 0 <= k <= |s| && PartOf(a, s[..k]) && Denotes(rest, s[k..]) {
      var tail :| Splits(rest, s[k..], tail);
      var parts := [s[..k]] + tail;
      assert parts[1..] == tail && s == s[..k] + s[k..];
      assert Splits([a] + rest, s, parts);
    }
  }

  // A prefix of the text is in the language.
  ghost predicate Begins(re: string, text: string) {
    exists j :: Occurs(re, text, 0, j)
  }

  lemma {:induction false} HereIsBegins(re: string, text: string)
    ensures Here(re, text) <==> Begins(re, text)
    decreases |re|, |text|, 1
  {
    if re == "" {
      DenotesNone(text[0..0]);
      assert Occurs(re, text, 0, 0);
    } else if |re| >= 2 && re[1] == '*' {
      StarIsBegins(re, text);
    } else if re == "$" {
      DenotesNone(text[0..|text|]);
      assert text == "" ==> Occurs(re, text, 0, |text|);
    } else {
      OneIsBegins(re, text);
    }
  }

  lemma {:induction false} OneIsBegins(re: string, text: string)
    requires re != "" && re != "$" && !(|re| >= 2 && re[1] == '*')
    ensures Here(re, text) <==> Begins(re, text)
    decreases |re|, |text|, 0
  {
    if text != "" { HereIsBegins(re[1..], text[1..]); }
    if Here(re, text) {
      var j :| Occurs(re[1..], text[1..], 0, j);
      assert text[0..j + 1][..1] == text[..1] && text[0..j + 1][1..] == text[1..][0..j];
      DenotesCons(One(re[0]), Atoms(re[1..]), text[0..j + 1]);
      assert PartOf(One(re[0]), text[0..j + 1][..1]);
      assert Occurs(re, text, 0, j + 1);
    }
    if j :| Occurs(re, text, 0, j) {
      var s := text[0..j];
      DenotesCons(One(re[0]), Atoms(re[1..]), s);
      var k :| 0 <= k <= |s| && PartOf(One(re[0]), s[..k]) && Denotes(Atoms(re[1..]), s[k..]);
      assert s[1..] == text[1..][0..j - 1];
      assert Occurs(re[1..], text[1..], 0, j - 1);
    }
  }

  // After k fitting characters the rest of the pattern matches.
  ghost predicate RunOf(c: char, re: string, text: string, k: int) {
    0 <= k <= |text| && PartOf(Many(c), text[..k]) && Here(re, text[k..])
  }

  lemma RunShift(c: char, re: string, text: string, k: int)
    requires text != "" && 0 <= k < |text|
    ensures RunOf(c, re, text, k + 1) <==> Fits(c, text[0]) && RunOf(c, re, text[1..], k)
  {
    hide Here;
    assert text[1..][k..] == text[k + 1..] && text[..k + 1] == [text[0]] + text[1..][..k];
    if RunOf(c, re, text, k + 1) {
      assert Fits(c, text[..k + 1][0]);
      forall i | 0 <= i < k ensures Fits(c, text[1..][..k][i]) { assert Fits(c, text[..k + 1][i + 1]); }
    }
  }

  // matchstar tries the rest of the pattern after every run of fitting characters.
  lemma {:induction false} StarRuns(c: char, re: string, text: string)
    ensures Star(c, re, text) <==> exists k :: RunOf(c, re, text, k)
    decreases |text|
  {
    hide PartOf;
    assert text[0..] == text;
    assert RunOf(c, re, text, 0) <==> Here(re, text) by { EmptyRun(c, text); }
    if text != "" {
      StarRuns(c, re, text[1..]);
      if k :| RunOf(c, re, text, k) {
        if k > 0 { RunShift(c, re, text, k - 1); }
      }
      if Star(c, re, text) && !Here(re, text) {
        var k :| RunOf(c, re, text[1..], k);
        RunShift(c, re, text, k);
      }
    }
  }

  lemma EmptyRun(c: char, text: string)
    ensures PartOf(Many(c), text[..0])
  {
  }

  lemma {:induction false} StarIsBegins(re: string, text: string)
    requires |re| >= 2 && re[1] == '*'
    ensures Here(re, text) <==> Begins(re, text)
    decreases |re|, |text|, 0
  {
    var c, rest := re[0], re[2..];
    StarRuns(c, rest, text);
    if Star(c, rest, text) {
      var k :| RunOf(c, rest, text, k);
      HereIsBegins(rest, text[k..]);
      var j :| Occurs(rest, text[k..], 0, j);
      var s := text[0..k + j];
      assert s[..k] == text[..k] && s[k..] == text[k..][0..j];
      DenotesCons(Many(c), Atoms(rest), s);
      assert Occurs(re, text, 0, k + j);
    }
    if j :| Occurs(re, text, 0, j) {
      var s := text[0..j];
      DenotesCons(Many(c), Atoms(rest), s);
      var k :| 0 <= k <= |s| && PartOf(Many(c), s[..k]) && Denotes(Atoms(rest), s[k..]);
      assert s[..k] == text[..k] && s[k..] == text[k..][0..j - k];
      assert Occurs(rest, text[k..], 0, j - k);
      HereIsBegins(rest, text[k..]);
      assert RunOf(c, rest, text, k);
    }
  }

  // ----- The code

  method MatchHere(re: string, text: string) returns (b: bool)
    ensures b == Here(re, text)
    decreases |re|, |text|, 0
  {
    if re == "" {
      return true;
    }
    if |re| >= 2 && re[1] == '*' {
      b := MatchStar(re[0], re[2..], text);
      return;
    }
    if re == "$" {
      return text == "";
    }
    if text != "" && (re[0] == '.' || re[0] == text[0]) {
      b := MatchHere(re[1..], text[1..]);
      return;
    }
    return false;
  }

  method MatchStar(c: char, re: string, text: string) returns (b: bool)
    ensures b == Star(c, re, text)
    decreases |re|, |text|, 1
  {
    var t := 0;
    assert text[0..] == text;
    while true
      invariant 0 <= t <= |text| && Star(c, re, text) == Star(c, re, text[t..])
      decreases |text| - t
    {
      b := MatchHere(re, text[t..]);
      if b {
        return;
      }
      if t == |text| || !(text[t] == c || c == '.') {
        return;
      }
      assert text[t..][1..] == text[t + 1..];
      t := t + 1;
    }
  }

  lemma OccursLater(re: string, text: string, i: int)
    requires 0 <= i <= |text|
    ensures Begins(re, text[i..]) <==> exists j :: Occurs(re, text, i, j)
  {
    if j :| Occurs(re, text[i..], 0, j) {
      assert text[i..][0..j] == text[i..i + j];
      assert Occurs(re, text, i, i + j);
    }
    if j :| Occurs(re, text, i, j) {
      assert text[i..][0..j - i] == text[i..j];
      assert Occurs(re, text[i..], 0, j - i);
    }
  }

  /** match: sound and complete for the language of the pattern. */
  method Match(re: string, text: string) returns (b: bool)
    ensures b <==> Matches(re, text)
  {
    hide Occurs;
    if re != "" && re[0] == '^' {
      b := MatchHere(re[1..], text);
      HereIsBegins(re[1..], text);
      return;
    }
    var t := 0;
    while true
      invariant 0 <= t <= |text|
      invariant forall i, j :: 0 <= i < t ==> !Occurs(re, text, i, j)
      decreases |text| - t
    {
      b := MatchHere(re, text[t..]);
      HereIsBegins(re, text[t..]);
      OccursLater(re, text, t);
      if b {
        return;
      }
      if t == |text| {
        NoLateOccurrence(re, text);
        return;
      }
      t := t + 1;
    }
  }

  lemma NoLateOccurrence(re: string, text: string)
    ensures forall i, j :: Occurs(re, text, i, j) ==> 0 <= i <= |text|
  {
  }

  // ----- The line loop

  const BUFSIZE: int := 1024

  // The index of the first newline of s at or after p, or |s|.
  function Newline(s: string, p: nat): (q: nat)
    requires p <= |s|
    ensures p <= q <= |s|
    ensures forall i :: p <= i < q ==> s[i] != '\n'
    ensures q < |s| ==> s[q] == '\n'
    decreases |s| - p
  {
    if p == |s| || s[p] == '\n' then p else Newline(s, p + 1)
  }

  // What grep is for: every complete line that matches, in order.
  ghost function Output(re: string, s: string): string
    decreases |s|
  {
    var q := Newline(s, 0);
    if q == |s| then ""
    else (if Matches(re, s[..q]) then s[..q + 1] else "") + Output(re, s[q + 1..])
  }

  // The complete lines before the first that does not fit the buffer with its newline.
  ghost function Readable(s: string): string
    decreases |s|
  {
    var q := Newline(s, 0);
    if q == |s| || q + 1 > BUFSIZE - 1 then "" else s[..q + 1] + Readable(s[q + 1..])
  }

  lemma NewlineUnique(s: string, p: nat, q: nat)
    requires p <= q <= |s| && (forall i :: p <= i < q ==> s[i] != '\n') && (q < |s| ==> s[q] == '\n')
    ensures Newline(s, p) == q
  {
    var n := Newline(s, p);
  }

  // One line at the front.
  lemma FirstLine(re: string, line: string, rest: string)
    requires line != "" && line[|line| - 1] == '\n' && forall i :: 0 <= i < |line| - 1 ==> line[i] != '\n'
    ensures Output(re, line + rest) == (if Matches(re, line[..|line| - 1]) then line else "") + Output(re, rest)
    ensures Readable(line + rest) == if |line| > BUFSIZE - 1 then "" else line + Readable(rest)
  {
    var s, q := line + rest, |line| - 1;
    NewlineUnique(s, 0, q);
    assert s[..q] == line[..q] && s[..q + 1] == line && s[q + 1..] == rest;
  }

  // Nothing is dropped exactly when every complete line fits.
  ghost predicate LinesFit(s: string)
    decreases |s|
  {
    var q := Newline(s, 0);
    q == |s| || (q + 1 <= BUFSIZE - 1 && LinesFit(s[q + 1..]))
  }

  lemma {:induction false} ReadableWhenLinesFit(re: string, s: string)
    requires LinesFit(s)
    ensures Output(re, Readable(s)) == Output(re, s)
    decreases |s|
  {
    hide Newline;
    hide Matches;
    hide Output;
    hide Readable;
    var q := Newline(s, 0);
    if q == |s| {
      NoLine(re, s);
      NoLine(re, "");
    } else {
      var line, rest := s[..q + 1], s[q + 1..];
      assert s == line + rest;
      ReadableWhenLinesFit(re, rest);
      FirstLine(re, line, rest);
      FirstLine(re, line, Readable(rest));
    }
  }

  lemma NoLine(re: string, s: string)
    requires Newline(s, 0) == |s|
    ensures Output(re, s) == "" && Readable(s) == ""
  {
  }

  // strchr(buf + p, '\n') in a buffer whose string ends at m; -1 if there is none.
  method StrChr(buf: array<char>, p: nat, ghost m: nat) returns (q: int)
    requires p <= m < buf.Length && buf[m] == '\0' && forall i :: p <= i < m ==> buf[i] != '\0'
    ensures q == -1 || p <= q < m
    ensures q == -1 ==> forall i :: p <= i < m ==> buf[i] != '\n'
    ensures q != -1 ==> buf[q] == '\n' && forall i :: p <= i < q ==> buf[i] != '\n'
  {
    q := p;
    while buf[q] != '\0'
      invariant p <= q <= m && forall i :: p <= i < q ==> buf[i] != '\n'
      decreases m - q
    {
      if buf[q] == '\n' {
        return;
      }
      q := q + 1;
    }
    return -1;
  }

  // What remains to be printed once everything before `base` is done.
  ghost predicate Printed(re: string, input: string, base: int, out: string) {
    0 <= base <= |input| && Output(re, Readable(input)) == out + Output(re, Readable(input[base..]))
  }

  lemma PrintLine(re: string, input: string, base: int, out: string, line: string)
    requires Printed(re, input, base, out) && base + |line| <= |input| && input[base..base + |line|] == line
    requires line != "" && |line| <= BUFSIZE - 1 && line[|line| - 1] == '\n' && forall i :: 0 <= i < |line| - 1 ==> line[i] != '\n'
    ensures Printed(re, input, base + |line|, if Matches(re, line[..|line| - 1]) then out + line else out)
  {
    hide Matches;
    hide Output;
    hide Readable;
    var rest := input[base + |line|..];
    assert input[base..] == line + rest;
    FirstLine(re, line, rest);
    FirstLine(re, line, Readable(rest));
  }

  // Nothing more is printed when no newline is left within reach.
  lemma PrintNothing(re: string, s: string, m: nat)
    requires m <= |s| && (forall i :: 0 <= i < m ==> s[i] != '\n') && (m == |s| || m == BUFSIZE - 1)
    ensures Output(re, Readable(s)) == ""
  {
    hide Matches;
    var q := Newline(s, 0);
    assert Newline("", 0) == 0;
  }

  lemma PrintedAll(re: string, input: string, base: nat, out: string, m: nat)
    requires Printed(re, input, base, out) && base + m <= |input| && (base + m == |input| || m == BUFSIZE - 1)
    requires forall i :: base <= i < base + m ==> input[i] != '\n'
    ensures out == Output(re, Readable(input))
  {
    hide Output;
    hide Readable;
    PrintNothing(re, input[base..], m);
  }

  lemma StartPrinting(re: string, input: string)
    ensures Printed(re, input, 0, "")
  {
    assert input[0..] == input;
  }

  // How many characters a read returns: the file chooses, within what is asked for and left.
  function ReadCount(want: nat, cap: int, left: int): int {
    if cap <= 0 || left <= 0 then 0
    else
      var most := if cap < left then cap else left;
      if want < 1 then 1 else if want > most then most else want
  }

  // The C string at place p of the buffer.
  function StringAt(b: string, p: nat): string
    requires p <= |b|
    decreases |b| - p
  {
    if p == |b| || b[p] == '\0' then "" else [b[p]] + StringAt(b, p + 1)
  }

  lemma {:induction false} StringIs(b: string, p: nat, q: nat)
    requires p <= q < |b| && b[q] == '\0' && forall i :: p <= i < q ==> b[i] != '\0'
    ensures StringAt(b, p) == b[p..q]
    decreases q - p
  {
    if p < q { StringIs(b, p + 1, q); }
  }

  // The inner loop of grep: print the matching complete lines of the buffer.
  method Scan(re: string, buf: array<char>, m: nat, ghost input: string, ghost pos: nat, out0: string)
    returns (p: nat, out: string)
    requires buf.Length == BUFSIZE && m < BUFSIZE && buf[m] == '\0' && m <= pos <= |input|
    requires buf[..m] == input[pos - m..pos] && (forall i :: 0 <= i < |input| ==> input[i] != '\0')
    requires Printed(re, input, pos - m, out0)
    modifies buf
    ensures p <= m && Printed(re, input, pos - m + p, out)
    ensures buf[p..m] == input[pos - m + p..pos] && forall i :: pos - m + p <= i < pos ==> input[i] != '\n'
  {
    hide Matches;
    hide Printed;
    hide StringAt;
    p, out := 0, out0;
    while true
      invariant p <= m && Printed(re, input, pos - m + p, out)
      invariant buf[m] == '\0' && buf[p..m] == input[pos - m + p..pos]
      decreases m - p
    {
      forall i | p <= i < m ensures buf[i] == input[pos - m + i] {
        assert buf[p..m][i - p] == input[pos - m + p..pos][i - p];
      }
      var q := StrChr(buf, p, m);
      if q == -1 {
        forall i | pos - m + p <= i < pos ensures input[i] != '\n' {
          assert buf[i - (pos - m)] == input[i];
        }
        return;
      }
      ghost var line := buf[p..q + 1];
      PrintLine(re, input, pos - m + p, out, line);
      buf[q] := '\0';
      assert line[..|line| - 1] == buf[p..q];
      assert StringAt(buf[..], p) == line[..|line| - 1] by {
        StringIs(buf[..], p, q);
      }
      var b := Match(re, StringAt(buf[..], p));
      if b {
        buf[q] := '\n';
        assert buf[p..q + 1] == line;
        out := out + buf[p..q + 1];
      }
      p := q + 1;
      assert forall i :: p <= i < m ==> buf[i] == input[pos - m + i];
    }
  }

  lemma Adjacent(s: string, a: nat, b: nat, c: nat)
    requires a <= b <= c <= |s|
    ensures s[a..b] + s[b..c] == s[a..c]
  {
  }

  // The effect of read on the buffer, and the NUL grep puts behind it.
  method Fill(buf: array<char>, m: nat, chunk: string)
    requires m + |chunk| < buf.Length
    modifies buf
    ensures buf[..m + |chunk|] == old(buf[..m]) + chunk && buf[m + |chunk|] == '\0'
  {
    forall i | 0 <= i < |chunk| { buf[m + i] := chunk[i]; }
    buf[m + |chunk|] := '\0';
  }

  // memmove(buf, buf + p, m - p).
  method Shift(buf: array<char>, p: nat, m: nat)
    requires p <= m <= buf.Length
    modifies buf
    ensures buf[..m - p] == old(buf[p..m])
  {
    forall i | 0 <= i < m - p { buf[i] := buf[p + i]; }
  }

  // One pass of the outer loop: n more characters, then the complete lines printed and dropped.
  method Round(re: string, buf: array<char>, m: nat, input: string, pos: nat, n: nat, out0: string)
    returns (m': nat, out: string)
    requires buf.Length == BUFSIZE && m + n < BUFSIZE && m <= pos && pos + n <= |input|
    requires buf[..m] == input[pos - m..pos] && forall i :: 0 <= i < |input| ==> input[i] != '\0'
    requires Printed(re, input, pos - m, out0)
    modifies buf
    ensures m' <= m + n && buf[..m'] == input[pos + n - m'..pos + n] && Printed(re, input, pos + n - m', out)
    ensures forall i :: pos + n - m' <= i < pos + n ==> input[i] != '\n'
  {
    hide Printed;
    Fill(buf, m, input[pos..pos + n]);
    Adjacent(input, pos - m, pos, pos + n);
    var p;
    p, out := Scan(re, buf, m + n, input, pos + n, out0);
    Shift(buf, p, m + n);
    m' := m + n - p;
  }

  /**
    grep: whatever sizes the reads return, the output is the matching lines of the input up to
    the first line that does not fit the buffer.
   */
  method GrepLoop(re: string, input: string, counts: seq<nat>) returns (out: string)
    requires forall i :: 0 <= i < |input| ==> input[i] != '\0'
    ensures out == Output(re, Readable(input))
  {
    hide Printed;
    StartPrinting(re, input);
    var buf := new char[BUFSIZE];
    var m, pos, r := 0, 0, 0;
    out := "";
    assert input[0..] == input;
    while true
      invariant 0 <= m < BUFSIZE && m <= pos <= |input|
      invariant buf[..m] == input[pos - m..pos] && forall i :: pos - m <= i < pos ==> input[i] != '\n'
      invariant Printed(re, input, pos - m, out)
      decreases |input| - pos
    {
      var n := ReadCount(if r < |counts| then counts[r] else 0, BUFSIZE - m - 1, |input| - pos);
      r := r + 1;
      if n == 0 {
        PrintedAll(re, input, pos - m, out, m);
        return;
      }
      m, out := Round(re, buf, m, input, pos, n, out);
      pos := pos + n;
    }
  }
}
