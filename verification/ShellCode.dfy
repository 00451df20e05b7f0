/**
  The parser of user/sh.c as code: a cursor advanced through the line, commands that hold
  places in the line, and nulterminate, which cuts the line into strings in place.
 */
module ShellCode {
  import opened Shell
  import G = ShellGrammar

  /** A counted string in the line, from q up to but not including eq. */
  datatype Span = Span(q: nat, eq: nat)

  datatype Kind = End | AWord | ASym(c: char) | AnAppend

  datatype Outcome = Fail | Parse(cmd: Cmd<Span>, pos: nat)

  // A span covers exactly one word of the line.
  predicate GoodSpan(line: string, sp: Span) {
    && sp.q < sp.eq <= |line| && (sp.eq < |line| ==> !WordChar(line[sp.eq]))
    && forall i :: sp.q <= i < sp.eq ==> WordChar(line[i])
  }

  predicate GoodSpans(line: string, sps: seq<Span>) {
    forall i :: 0 <= i < |sps| ==> GoodSpan(line, sps[i])
  }

  predicate GoodCmd(line: string, c: Cmd<Span>) {
    match c
    case Exec(args) => GoodSpans(line, args)
    case Redir(d, file, _) => GoodCmd(line, d) && GoodSpan(line, file)
    case Pipe(l, r) => GoodCmd(line, l) && GoodCmd(line, r)
    case List(l, r) => GoodCmd(line, l) && GoodCmd(line, r)
    case Back(d) => GoodCmd(line, d)
  }

  function Text(line: string, sp: Span): string
    requires GoodSpan(line, sp)
  {
    line[sp.q..sp.eq]
  }

  function Texts(line: string, sps: seq<Span>): (r: seq<string>)
    requires GoodSpans(line, sps)
    ensures |r| == |sps| && forall i :: 0 <= i < |r| ==> r[i] == Text(line, sps[i])
  {
    if sps == [] then [] else [Text(line, sps[0])] + Texts(line, sps[1..])
  }

  // A parsed command with the text of its words.
  function Strip(line: string, c: Cmd<Span>): Cmd<string>
    requires GoodCmd(line, c)
  {
    match c
    case Exec(args) => Exec(Texts(line, args))
    case Redir(d, file, mode) => Redir(Strip(line, d), Text(line, file), mode)
    case Pipe(l, r) => Pipe(Strip(line, l), Strip(line, r))
    case List(l, r) => List(Strip(line, l), Strip(line, r))
    case Back(d) => Back(Strip(line, d))
  }

  predicate NoNul(line: string) {
    forall i :: 0 <= i < |line| ==> line[i] != '\0'
  }

  function From(line: string, pos: nat): seq<Token>
    requires pos <= |line|
  {
    Tokens(line[pos..])
  }

  // ----- Tokens

  // The first character of a token, which is what peek looks at.
  function FirstChar(t: Token): char {
    match t
    case Word(w) => if w == "" then ' ' else w[0]
    case Sym(c) => c
    case AppendTo => '>'
  }

  predicate SeesOne(ts: seq<Token>, toks: string) {
    ts != [] && !ts[0].Word? && FirstChar(ts[0]) in toks
  }

  lemma HeadToken(line: string, pos: nat)
    requires NoNul(line) && pos <= |line| && (pos < |line| ==> !White(line[pos]))
    ensures From(line, pos) == [] <==> pos == |line|
    ensures pos < |line| ==> FirstChar(From(line, pos)[0]) == line[pos]
    ensures pos < |line| ==> (From(line, pos)[0].Word? <==> WordChar(line[pos]))
  {
    if pos < |line| { assert line[pos..][0] == line[pos]; }
  }

  lemma WhiteToken(line: string, pos: nat)
    requires pos < |line| && White(line[pos])
    ensures From(line, pos) == From(line, pos + 1)
  {
    assert line[pos..][1..] == line[pos + 1..];
  }

  lemma SymbolToken(line: string, pos: nat)
    requires pos < |line| && Symbol(line[pos])
    ensures line[pos] == '>' && pos + 1 < |line| && line[pos + 1] == '>' ==> From(line, pos) == [AppendTo] + From(line, pos + 2)
    ensures !(line[pos] == '>' && pos + 1 < |line| && line[pos + 1] == '>') ==> From(line, pos) == [Sym(line[pos])] + From(line, pos + 1)
  {
    var s := line[pos..];
    assert s[0] == line[pos] && s[1..] == line[pos + 1..];
    if pos + 1 < |line| { assert s[1] == line[pos + 1] && s[2..] == line[pos + 2..]; }
  }

  lemma WordSpan(line: string, sp: Span)
    requires GoodSpan(line, sp)
    ensures From(line, sp.q) == [Word(Text(line, sp))] + From(line, sp.eq)
  {
    var w, s := line[sp.q..sp.eq], line[sp.eq..];
    assert line[sp.q..] == w + s;
    WordToken(w, s);
  }

  method SkipSpace(line: string, start: nat) returns (pos: nat)
    requires start <= |line|
    ensures start <= pos <= |line| && (pos < |line| ==> !White(line[pos])) && From(line, pos) == From(line, start)
  {
    hide From;
    pos := start;
    while pos < |line| && White(line[pos])
      invariant start <= pos <= |line| && From(line, pos) == From(line, start)
    {
      WhiteToken(line, pos);
      pos := pos + 1;
    }
  }

  // peek: is the next token one that starts with a character of toks?
  method Peek(line: string, start: nat, toks: string) returns (b: bool, pos: nat)
    requires NoNul(line) && start <= |line| && forall i :: 0 <= i < |toks| ==> Symbol(toks[i])
    ensures start <= pos <= |line| && From(line, pos) == From(line, start)
    ensures b <==> SeesOne(From(line, start), toks)
  {
    hide From;
    pos := SkipSpace(line, start);
    HeadToken(line, pos);
    b := pos < |line| && line[pos] in toks;
  }

  method GetToken(line: string, start: nat) returns (k: Kind, sp: Span, pos: nat)
    requires NoNul(line) && start <= |line|
    ensures pos <= |line|
    ensures k.End? ==> From(line, start) == From(line, pos) == [] && start <= pos
    ensures !k.End? ==> start < pos && From(line, start) != [] && From(line, start)[1..] == From(line, pos)
    ensures k.AWord? ==> GoodSpan(line, sp) && From(line, start)[0] == Word(Text(line, sp))
    ensures k.ASym? ==> From(line, start)[0] == Sym(k.c)
    ensures k.AnAppend? ==> From(line, start)[0] == AppendTo
  {
    hide From;
    var q := SkipSpace(line, start);
    HeadToken(line, q);
    if q == |line| { return End, Span(q, q), q; }
    var eq := q;
    if Symbol(line[q]) {
      SymbolToken(line, q);
      eq := eq + 1;
      k := ASym(line[q]);
      if line[q] == '>' && eq < |line| && line[eq] == '>' {
        k := AnAppend;
        eq := eq + 1;
      }
    } else {
      k := AWord;
      while eq < |line| && !White(line[eq]) && !Symbol(line[eq])
        invariant q <= eq <= |line| && forall i :: q <= i < eq ==> WordChar(line[i])
      {
        eq := eq + 1;
      }
      WordSpan(line, Span(q, eq));
    }
    sp := Span(q, eq);
    pos := SkipSpace(line, eq);
  }

  // ----- parseredirs

  function Cat(done: seq<Redirect>, r: Redirs): Redirs {
    match r
    case BadRedir => BadRedir
    case Redirs(list, rest) => Redirs(done + list, rest)
  }

  lemma RedirStep(done: seq<Redirect>, ts: seq<Token>)
    requires StartsRedir(ts)
    ensures |ts| < 2 || !ts[1].Word? ==> Cat(done, TakeRedirs(ts)) == BadRedir
    ensures |ts| >= 2 && ts[1].Word? ==>
      Cat(done, TakeRedirs(ts)) == Cat(done + [Redirect(ts[1].text, ModeOf(ts[0]))], TakeRedirs(ts[2..]))
  {
    if |ts| >= 2 && ts[1].Word? {
      match TakeRedirs(ts[2..]) {
        case BadRedir =>
        case Redirs(list, rest) =>
          var r := Redirect(ts[1].text, ModeOf(ts[0]));
          assert done + ([r] + list) == (done + [r]) + list;
      }
    }
  }

  // Spans and modes that stand for a list of redirections.
  predicate Same(line: string, files: seq<Span>, modes: seq<Mode>, list: seq<Redirect>)
  {
    && |files| == |modes| == |list| && GoodSpans(line, files)
    && forall i :: 0 <= i < |list| ==> list[i] == Redirect(Text(line, files[i]), modes[i])
  }

  method ParseRedirs(line: string, start: nat) returns (ok: bool, files: seq<Span>, modes: seq<Mode>, pos: nat)
    requires NoNul(line) && start <= |line|
    ensures start <= pos <= |line|
    ensures ok <==> TakeRedirs(From(line, start)).Redirs?
    ensures ok ==> Same(line, files, modes, TakeRedirs(From(line, start)).list) && From(line, pos) == TakeRedirs(From(line, start)).rest
  {
    hide From;
    hide TakeRedirs;
    files, modes, pos := [], [], start;
    ghost var done: seq<Redirect> := [];
    CatNone(TakeRedirs(From(line, start)));
    var more;
    more, pos := Peek(line, pos, "<>");
    RedirSeen(From(line, pos));
    while more
      invariant start <= pos <= |line| && Same(line, files, modes, done)
      invariant Cat(done, TakeRedirs(From(line, pos))) == TakeRedirs(From(line, start))
      invariant more <==> StartsRedir(From(line, pos))
      decreases |line| - pos
    {
      ghost var ts := From(line, pos);
      RedirStep(done, ts);
      var k, _, p := GetToken(line, pos);
      var k', sp, p' := GetToken(line, p);
      if !k'.AWord? { return false, files, modes, p'; }
      assert ts[2..] == ts[1..][1..];
      done := done + [Redirect(ts[1].text, ModeOf(ts[0]))];
      files := files + [sp];
      modes := modes + [if k == ASym('<') then Read else if k.AnAppend? then Append else Write];
      more, pos := Peek(line, p', "<>");
      RedirSeen(From(line, pos));
    }
    NoRedir(From(line, pos));
    ok := true;
  }

  lemma CatNone(r: Redirs)
    ensures Cat([], r) == r
  {
    if r.Redirs? { assert [] + r.list == r.list; }
  }

  lemma RedirSeen(ts: seq<Token>)
    ensures StartsRedir(ts) <==> SeesOne(ts, "<>")
  {
  }

  lemma NoRedir(ts: seq<Token>)
    requires !StartsRedir(ts)
    ensures forall done :: Cat(done, TakeRedirs(ts)) == Redirs(done, ts)
  {
    forall done ensures Cat(done, TakeRedirs(ts)) == Redirs(done, ts) { assert done + [] == done; }
  }

  // ----- parseline and its parts

  // The code's outcome is the grammar's.
  predicate Agrees(line: string, start: nat, out: Outcome, r: Parsed) {
    match out
    case Fail => r.Panic?
    case Parse(c, pos) =>
      start <= pos <= |line| && GoodCmd(line, c) && r == Ok(Strip(line, c), From(line, pos))
  }

  lemma {:induction false} WrapStrip(line: string, c: Cmd<Span>, files: seq<Span>, modes: seq<Mode>, list: seq<Redirect>)
    requires GoodCmd(line, c) && Same(line, files, modes, list)
    ensures GoodCmd(line, Wrap(c, files, modes))
    ensures Strip(line, Wrap(c, files, modes)) == Wrap(Strip(line, c), Files(list), Modes(list))
    decreases |files|
  {
    if files != [] {
      WrapStrip(line, Redir(c, files[0], modes[0]), files[1..], modes[1..], list[1..]);
      assert Files(list)[1..] == Files(list[1..]) && Modes(list)[1..] == Modes(list[1..]);
    }
  }

  lemma SymSeen(ts: seq<Token>, c: char)
    requires c != '>'
    ensures Starts(ts, c) <==> SeesOne(ts, [c])
  {
  }

  lemma EndSeen(ts: seq<Token>)
    ensures SeesOne(ts, "|)&;") <==> Starts(ts, '|') || Starts(ts, ')') || Starts(ts, '&') || Starts(ts, ';')
  {
  }

  // The end of parseexec's loop.
  lemma ArgsEnd(line: string, args: seq<Span>, files: seq<Span>, modes: seq<Mode>, list: seq<Redirect>, pos: nat)
    requires GoodSpans(line, args) && Same(line, files, modes, list) && pos <= |line|
    requires From(line, pos) == [] || SeesOne(From(line, pos), "|)&;")
    ensures Agrees(line, pos, Parse(Wrap(Exec(args), files, modes), pos), TakeArgs(Texts(line, args), list, From(line, pos)))
  {
    hide From;
    EndSeen(From(line, pos));
    WrapStrip(line, Exec(args), files, modes, list);
  }

  // One turn of it.
  lemma ArgsTurn(args: seq<string>, redirs: seq<Redirect>, ts: seq<Token>)
    requires ts != [] && !SeesOne(ts, "|)&;")
    ensures !ts[0].Word? || |args| + 1 >= MAXARGS || TakeRedirs(ts[1..]).BadRedir? ==> TakeArgs(args, redirs, ts).Panic?
    ensures ts[0].Word? && |args| + 1 < MAXARGS && TakeRedirs(ts[1..]).Redirs? ==>
      TakeArgs(args, redirs, ts) == TakeArgs(args + [ts[0].text], redirs + TakeRedirs(ts[1..]).list, TakeRedirs(ts[1..]).rest)
  {
    EndSeen(ts);
  }

  lemma SameCat(line: string, f: seq<Span>, m: seq<Mode>, l: seq<Redirect>, f': seq<Span>, m': seq<Mode>, l': seq<Redirect>)
    requires Same(line, f, m, l) && Same(line, f', m', l')
    ensures Same(line, f + f', m + m', l + l')
  {
  }

  lemma TextsMore(line: string, args: seq<Span>, sp: Span)
    requires GoodSpans(line, args) && GoodSpan(line, sp)
    ensures GoodSpans(line, args + [sp]) && Texts(line, args + [sp]) == Texts(line, args) + [Text(line, sp)]
  {
  }

  method ParseArgs(line: string, start: nat) returns (out: Outcome)
    requires NoNul(line) && start <= |line| && !Starts(From(line, start), '(')
    ensures Agrees(line, start, out, ParseExec(From(line, start)))
  {
    hide From;
    hide TakeArgs;
    hide TakeRedirs;
    var ok, files, modes, pos := ParseRedirs(line, start);
    if !ok { return Fail; }
    var args: seq<Span> := [];
    ghost var list := TakeRedirs(From(line, start)).list;
    ghost var all := TakeArgs([], list, From(line, pos));
    var done;
    done, pos := Peek(line, pos, "|)&;");
    while !done
      invariant start <= pos <= |line| && GoodSpans(line, args) && Same(line, files, modes, list)
      invariant TakeArgs(Texts(line, args), list, From(line, pos)) == all
      invariant done <==> SeesOne(From(line, pos), "|)&;")
      decreases |line| - pos
    {
      ghost var ts := From(line, pos);
      if ts != [] { ArgsTurn(Texts(line, args), list, ts); }
      var k, sp, p := GetToken(line, pos);
      if k.End? {
        pos := p;
        break;
      }
      if !k.AWord? { return Fail; }
      TextsMore(line, args, sp);
      args := args + [sp];
      if |args| >= MAXARGS { return Fail; }
      var ok', files', modes', p' := ParseRedirs(line, p);
      if !ok' { return Fail; }
      SameCat(line, files, modes, list, files', modes', TakeRedirs(ts[1..]).list);
      files, modes, list := files + files', modes + modes', list + TakeRedirs(ts[1..]).list;
      done, pos := Peek(line, p', "|)&;");
    }
    ArgsEnd(line, args, files, modes, list, pos);
    out := Parse(Wrap(Exec(args), files, modes), pos);
  }

  method ParseTheExec(line: string, start: nat) returns (out: Outcome)
    requires NoNul(line) && start <= |line|
    ensures Agrees(line, start, out, ParseExec(From(line, start)))
    decreases |line| - start, 1
  {
    hide From;
    hide TakeRedirs;
    hide TakeArgs;
    hide ParseBlock;
    SymSeen(From(line, start), '(');
    var block, pos := Peek(line, start, "(");
    if block {
      out := ParseTheBlock(line, pos);
    } else {
      out := ParseArgs(line, pos);
    }
  }

  method ParseTheBlock(line: string, start: nat) returns (out: Outcome)
    requires NoNul(line) && start <= |line| && Starts(From(line, start), '(')
    ensures Agrees(line, start, out, ParseBlock(From(line, start)))
    decreases |line| - start, 0
  {
    hide From;
    hide TakeRedirs;
    hide ParseLine;
    var _, _, pos := GetToken(line, start);
    var inner := ParseTheLine(line, pos);
    if inner.Fail? { return Fail; }
    SymSeen(From(line, inner.pos), ')');
    var close, p := Peek(line, inner.pos, ")");
    if !close { return Fail; }
    var _, _, q := GetToken(line, p);
    var ok, files, modes, end := ParseRedirs(line, q);
    if !ok { return Fail; }
    WrapStrip(line, inner.cmd, files, modes, TakeRedirs(From(line, q)).list);
    out := Parse(Wrap(inner.cmd, files, modes), end);
  }

  method ParseThePipe(line: string, start: nat) returns (out: Outcome)
    requires NoNul(line) && start <= |line|
    ensures Agrees(line, start, out, ParsePipe(From(line, start)))
    decreases |line| - start, 2
  {
    hide From;
    hide ParseExec;
    out := ParseTheExec(line, start);
    if out.Fail? { return; }
    SymSeen(From(line, out.pos), '|');
    var more, pos := Peek(line, out.pos, "|");
    if more {
      var _, _, p := GetToken(line, pos);
      var right := ParseThePipe(line, p);
      out := if right.Fail? then Fail else Parse(Pipe(out.cmd, right.cmd), right.pos);
    } else {
      out := out.(pos := pos);
    }
  }

  lemma BackStep(c: Cmd<string>, ts: seq<Token>)
    requires Starts(ts, '&')
    ensures InBack(c, Backs(ts)) == InBack(Back(c), Backs(ts[1..])) && ts[Backs(ts)..] == ts[1..][Backs(ts[1..])..]
  {
  }

  method ParseTheLine(line: string, start: nat) returns (out: Outcome)
    requires NoNul(line) && start <= |line|
    ensures Agrees(line, start, out, ParseLine(From(line, start)))
    decreases |line| - start, 3
  {
    hide From;
    hide ParsePipe;
    hide Backs;
    hide InBack;
    out := ParseThePipe(line, start);
    if out.Fail? { return; }
    var cmd := out.cmd;
    ghost var first, ts := Strip(line, cmd), From(line, out.pos);
    SymSeen(ts, '&');
    var more, pos := Peek(line, out.pos, "&");
    while more
      invariant start <= pos <= |line| && GoodCmd(line, cmd) && (more <==> Starts(From(line, pos), '&'))
      invariant InBack(Strip(line, cmd), Backs(From(line, pos))) == InBack(first, Backs(ts))
      invariant From(line, pos)[Backs(From(line, pos))..] == ts[Backs(ts)..]
      decreases |line| - pos
    {
      BackStep(Strip(line, cmd), From(line, pos));
      var _, _, p := GetToken(line, pos);
      cmd := Back(cmd);
      SymSeen(From(line, p), '&');
      more, pos := Peek(line, p, "&");
    }
    NoBack(Strip(line, cmd), From(line, pos));
    SymSeen(From(line, pos), ';');
    more, pos := Peek(line, pos, ";");
    if more {
      assert ts[Backs(ts)..][1..] == ts[Backs(ts) + 1..];
      var _, _, p := GetToken(line, pos);
      var right := ParseTheLine(line, p);
      out := if right.Fail? then Fail else Parse(List(cmd, right.cmd), right.pos);
    } else {
      out := Parse(cmd, pos);
    }
  }

  lemma NoBack(c: Cmd<string>, ts: seq<Token>)
    requires !Starts(ts, '&')
    ensures InBack(c, Backs(ts)) == c && ts[Backs(ts)..] == ts
  {
  }

  /**
    parsecmd up to nulterminate: the line is accepted if and only if it is one of the grammar's, and
    the command is that line's meaning.
   */
  method ParseTheCmd(line: string) returns (out: Outcome)
    requires NoNul(line)
    ensures out.Fail? <==> ParseCmd(Tokens(line)).Panic?
    ensures out.Parse? ==> GoodCmd(line, out.cmd) && ParseCmd(Tokens(line)) == Ok(Strip(line, out.cmd), [])
    ensures out.Parse? <==> exists l :: G.FitsLine(l) && G.SpellLine(l, []) == Tokens(line)
    ensures out.Parse? ==>
      forall l :: G.FitsLine(l) && G.SpellLine(l, []) == Tokens(line) ==> G.MeanLine(l) == Strip(line, out.cmd)
  {
    hide ParseLine;
    assert line[0..] == line;
    out := ParseTheLine(line, 0);
    if out.Parse? {
      var pos := SkipSpace(line, out.pos);
      HeadToken(line, pos);
      if pos != |line| { out := Fail; }
    }
    if out.Parse? {
      ghost var l := G.LineFound(Tokens(line));
      assert G.FitsLine(l) && G.SpellLine(l, []) == Tokens(line);
    }
    forall l | G.FitsLine(l) && G.SpellLine(l, []) == Tokens(line)
      ensures ParseCmd(Tokens(line)) == Ok(G.MeanLine(l), [])
    {
      G.GrammarParses(l);
    }
  }

  // ----- nulterminate

  // The buffer is the line and its NUL, but for NULs written over characters that are in no word.
  ghost predicate Cut(line: string, b: string) {
    && |b| == |line| + 1 && b[|line|] == '\0'
    && forall i :: 0 <= i < |line| ==> b[i] == line[i] || (b[i] == '\0' && !WordChar(line[i]))
  }

  // Every word of the command is followed by a NUL.
  ghost predicate Ended(b: string, sp: Span) { sp.eq < |b| && b[sp.eq] == '\0' }

  ghost predicate AllEnded(b: string, sps: seq<Span>) {
    forall i :: 0 <= i < |sps| ==> Ended(b, sps[i])
  }

  ghost predicate CmdEnded(b: string, c: Cmd<Span>) {
    match c
    case Exec(args) => AllEnded(b, args)
    case Redir(d, file, _) => CmdEnded(b, d) && Ended(b, file)
    case Pipe(l, r) => CmdEnded(b, l) && CmdEnded(b, r)
    case List(l, r) => CmdEnded(b, l) && CmdEnded(b, r)
    case Back(d) => CmdEnded(b, d)
  }

  // b' only has more NULs than b.
  ghost predicate MoreNuls(b: string, b': string) {
    |b'| == |b| && forall i :: 0 <= i < |b| && b[i] == '\0' ==> b'[i] == '\0'
  }

  lemma {:induction false} EndedMono(b: string, b': string, c: Cmd<Span>)
    requires MoreNuls(b, b') && CmdEnded(b, c)
    ensures CmdEnded(b', c)
    decreases c
  {
    match c {
      case Exec(args) =>
        forall i | 0 <= i < |args| ensures Ended(b', args[i]) { assert Ended(b, args[i]); }
      case Redir(d, file, _) => EndedMono(b, b', d);
      case Pipe(l, r) => EndedMono(b, b', l); EndedMono(b, b', r);
      case List(l, r) => EndedMono(b, b', l); EndedMono(b, b', r);
      case Back(d) => EndedMono(b, b', d);
    }
  }

  // What C reads at q.
  function CString(b: string, q: nat): string
    requires q <= |b|
    decreases |b| - q
  {
    if q == |b| || b[q] == '\0' then "" else [b[q]] + CString(b, q + 1)
  }

  /** After nulterminate, each word reads as exactly the token it was parsed from. */
  lemma {:induction false} ReadsAs(line: string, b: string, sp: Span, i: nat)
    requires Cut(line, b) && GoodSpan(line, sp) && Ended(b, sp) && sp.q <= i <= sp.eq
    ensures i <= |b| && CString(b, i) == line[i..sp.eq]
    decreases sp.eq - i
  {
    if i < sp.eq {
      ReadsAs(line, b, sp, i + 1);
      assert WordChar(line[i]) && b[i] == line[i];
      assert line[i..sp.eq] == [line[i]] + line[i + 1..sp.eq];
    } else {
      assert line[i..sp.eq] == "";
    }
  }

  method EndWord(buf: array<char>, sp: Span, ghost line: string)
    requires Cut(line, buf[..]) && GoodSpan(line, sp)
    modifies buf
    ensures Cut(line, buf[..]) && Ended(buf[..], sp) && MoreNuls(old(buf[..]), buf[..])
  {
    buf[sp.eq] := '\0';
  }

  method EndArgs(buf: array<char>, args: seq<Span>, ghost line: string)
    requires Cut(line, buf[..]) && GoodSpans(line, args)
    modifies buf
    ensures Cut(line, buf[..]) && AllEnded(buf[..], args) && MoreNuls(old(buf[..]), buf[..])
  {
    var i := 0;
    while i < |args|
      invariant 0 <= i <= |args| && Cut(line, buf[..]) && AllEnded(buf[..], args[..i]) && MoreNuls(old(buf[..]), buf[..])
    {
      ghost var before := buf[..];
      EndWord(buf, args[i], line);
      assert forall j :: 0 <= j < i ==> Ended(before, args[..i][j]);
      assert args[..i + 1] == args[..i] + [args[i]];
      i := i + 1;
    }
    assert args[..i] == args;
  }

  /** nulterminate: ends every word of the command, and writes inside none. */
  method NulTerminate(buf: array<char>, c: Cmd<Span>, ghost line: string)
    requires Cut(line, buf[..]) && GoodCmd(line, c)
    modifies buf
    ensures Cut(line, buf[..]) && CmdEnded(buf[..], c) && MoreNuls(old(buf[..]), buf[..])
    decreases c
  {
    hide Cut;
    match c {
      case Exec(args) =>
        EndArgs(buf, args, line);
      case Redir(d, file, _) =>
        NulTerminate(buf, d, line);
        ghost var before := buf[..];
        EndWord(buf, file, line);
        EndedMono(before, buf[..], d);
      case Pipe(l, r) =>
        NulTerminate(buf, l, line);
        ghost var before := buf[..];
        NulTerminate(buf, r, line);
        EndedMono(before, buf[..], l);
      case List(l, r) =>
        NulTerminate(buf, l, line);
        ghost var before := buf[..];
        NulTerminate(buf, r, line);
        EndedMono(before, buf[..], l);
      case Back(d) =>
        NulTerminate(buf, d, line);
    }
  }
}
