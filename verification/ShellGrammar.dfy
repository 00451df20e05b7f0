/**
  The lines people type to user/sh.c, as a grammar of their own: simple commands with redirections
  before, between and after the words, blocks, pipelines, `&` and `;`.  The parser accepts exactly
  these lines and gives each its meaning.
 */
module ShellGrammar {
  import opened Shell

  // A word of a simple command, with the redirections that follow it.
  datatype Argument = Argument(text: string, redirs: seq<Redirect>)

  datatype Stage =
    | Simple(first: seq<Redirect>, args: seq<Argument>)
    | Block(line: Line, redirs: seq<Redirect>)

  datatype Pipeline = Last(stage: Stage) | Into(stage: Stage, next: Pipeline)

  datatype Line = Only(pipeline: Pipeline, backs: nat) | Then(pipeline: Pipeline, backs: nat, next: Line)

  // ----- The tokens of a line

  function SpellRedirs(list: seq<Redirect>, rest: seq<Token>): seq<Token> {
    if list == [] then rest
    else [SignToken(list[0].mode)] + ([Word(list[0].file)] + SpellRedirs(list[1..], rest))
  }

  function SpellArgs(args: seq<Argument>, rest: seq<Token>): seq<Token> {
    if args == [] then rest else [Word(args[0].text)] + SpellRedirs(args[0].redirs, SpellArgs(args[1..], rest))
  }

  function SpellBacks(n: nat, rest: seq<Token>): seq<Token> {
    if n == 0 then rest else [Sym('&')] + SpellBacks(n - 1, rest)
  }

  function SpellStage(s: Stage, rest: seq<Token>): seq<Token>
    decreases s
  {
    match s
    case Simple(first, args) => SpellRedirs(first, SpellArgs(args, rest))
    case Block(line, redirs) => [Sym('(')] + SpellLine(line, [Sym(')')] + SpellRedirs(redirs, rest))
  }

  function SpellPipeline(p: Pipeline, rest: seq<Token>): seq<Token>
    decreases p
  {
    match p
    case Last(s) => SpellStage(s, rest)
    case Into(s, next) => SpellStage(s, [Sym('|')] + SpellPipeline(next, rest))
  }

  function SpellLine(l: Line, rest: seq<Token>): seq<Token>
    decreases l
  {
    match l
    case Only(p, n) => SpellPipeline(p, SpellBacks(n, rest))
    case Then(p, n, next) => SpellPipeline(p, SpellBacks(n, [Sym(';')] + SpellLine(next, rest)))
  }

  // ----- What a line means

  // The redirections around a command: the first of the line is the innermost.
  function Redirected(c: Cmd<string>, list: seq<Redirect>): Cmd<string> {
    if list == [] then c
    else
      var last := list[|list| - 1];
      Redir(Redirected(c, list[..|list| - 1]), last.file, last.mode)
  }

  function Texts(args: seq<Argument>): (r: seq<string>)
    ensures |r| == |args|
  {
    if args == [] then [] else [args[0].text] + Texts(args[1..])
  }

  function RedirsOf(args: seq<Argument>): seq<Redirect> {
    if args == [] then [] else args[0].redirs + RedirsOf(args[1..])
  }

  function Backed(c: Cmd<string>, n: nat): Cmd<string> {
    if n == 0 then c else Back(Backed(c, n - 1))
  }

  function MeanStage(s: Stage): Cmd<string>
    decreases s
  {
    match s
    case Simple(first, args) => Redirected(Exec(Texts(args)), first + RedirsOf(args))
    case Block(line, redirs) => Redirected(MeanLine(line), redirs)
  }

  function MeanPipeline(p: Pipeline): Cmd<string>
    decreases p
  {
    match p
    case Last(s) => MeanStage(s)
    case Into(s, next) => Pipe(MeanStage(s), MeanPipeline(next))
  }

  function MeanLine(l: Line): Cmd<string>
    decreases l
  {
    match l
    case Only(p, n) => Backed(MeanPipeline(p), n)
    case Then(p, n, next) => List(Backed(MeanPipeline(p), n), MeanLine(next))
  }

  // At most nine words to every simple command.
  predicate FitsStage(s: Stage)
    decreases s
  {
    match s
    case Simple(_, args) => |args| < MAXARGS
    case Block(line, _) => FitsLine(line)
  }

  predicate FitsPipeline(p: Pipeline)
    decreases p
  {
    match p
    case Last(s) => FitsStage(s)
    case Into(s, next) => FitsStage(s) && FitsPipeline(next)
  }

  predicate FitsLine(l: Line)
    decreases l
  {
    match l
    case Only(p, _) => FitsPipeline(p)
    case Then(p, _, next) => FitsPipeline(p) && FitsLine(next)
  }

  // ----- Redirections keep their order

  lemma {:induction false} RedirectedFront(c: Cmd<string>, list: seq<Redirect>)
    requires list != []
    ensures Redirected(Redir(c, list[0].file, list[0].mode), list[1..]) == Redirected(c, list)
  {
    if |list| > 1 {
      var front := list[..|list| - 1];
      RedirectedFront(c, front);
      assert list[1..][..|list| - 2] == front[1..];
    } else {
      assert list[..0] == [];
    }
  }

  /** One Redir node for each redirection, the i-th of the line the i-th from the inside, each with its own file and mode. */
  lemma {:induction false} WrapIs(c: Cmd<string>, list: seq<Redirect>)
    ensures Wrap(c, Files(list), Modes(list)) == Redirected(c, list)
    decreases |list|
  {
    if list != [] {
      var inner := Redir(c, list[0].file, list[0].mode);
      WrapIs(inner, list[1..]);
      assert Files(list)[1..] == Files(list[1..]) && Modes(list)[1..] == Modes(list[1..]);
      RedirectedFront(c, list);
    }
  }

  lemma {:induction false} BackedFront(c: Cmd<string>, n: nat)
    ensures InBack(c, n) == Backed(c, n)
    ensures Backed(Back(c), n) == Back(Backed(c, n))
    decreases n
  {
    if n > 0 {
      BackedFront(Back(c), n - 1);
      BackedFront(c, n - 1);
    }
  }

  // ----- The parser on the lines of the grammar

  // What may follow a stage, a pipeline and a line.
  predicate EndsLine(ts: seq<Token>) { ts == [] || ts[0] == Sym(')') }

  predicate EndsPipeline(ts: seq<Token>) { EndsLine(ts) || ts[0] == Sym('&') || ts[0] == Sym(';') }

  predicate EndsStage(ts: seq<Token>) { EndsPipeline(ts) || ts[0] == Sym('|') }

  lemma {:induction false} RedirsSpell(list: seq<Redirect>, rest: seq<Token>)
    requires !StartsRedir(rest)
    ensures TakeRedirs(SpellRedirs(list, rest)) == Redirs(list, rest)
  {
    if list != [] {
      RedirsSpell(list[1..], rest);
      RedirTaken(list[0], SpellRedirs(list[1..], rest));
      assert [list[0]] + list[1..] == list;
    }
  }

  lemma RedirTaken(r: Redirect, ts: seq<Token>)
    ensures var all := [SignToken(r.mode)] + ([Word(r.file)] + ts);
      var more := TakeRedirs(ts);
      TakeRedirs(all) == if more.Redirs? then Redirs([r] + more.list, more.rest) else BadRedir
  {
    var all := [SignToken(r.mode)] + ([Word(r.file)] + ts);
    assert all[2..] == ts && all[1] == Word(r.file) && ModeOf(all[0]) == r.mode;
  }

  lemma ArgsStart(args: seq<Argument>, rest: seq<Token>)
    requires EndsStage(rest)
    ensures !StartsRedir(SpellArgs(args, rest)) && !Starts(SpellArgs(args, rest), '(')
  {
  }

  // One word with its redirections.
  lemma ArgTaken(args: seq<string>, redirs: seq<Redirect>, a: Argument, ts: seq<Token>)
    requires !StartsRedir(ts)
    ensures TakeArgs(args, redirs, [Word(a.text)] + SpellRedirs(a.redirs, ts)) ==
      if |args| + 1 >= MAXARGS then Panic else TakeArgs(args + [a.text], redirs + a.redirs, ts)
  {
    var all := [Word(a.text)] + SpellRedirs(a.redirs, ts);
    assert all[1..] == SpellRedirs(a.redirs, ts);
    RedirsSpell(a.redirs, ts);
  }

  lemma ArgsOver(args: seq<string>, redirs: seq<Redirect>, ts: seq<Token>)
    requires EndsStage(ts)
    ensures TakeArgs(args, redirs, ts) == Ok(Redirected(Exec(args), redirs), ts)
  {
    WrapIs(Exec(args), redirs);
  }

  lemma ConsArgs(done: seq<string>, redirs: seq<Redirect>, a: Argument, more: seq<Argument>)
    ensures done + [a.text] + Texts(more) == done + Texts([a] + more)
    ensures redirs + a.redirs + RedirsOf(more) == redirs + RedirsOf([a] + more)
  {
    assert ([a] + more)[1..] == more;
  }

  lemma NoArgs(done: seq<string>, redirs: seq<Redirect>)
    ensures done + Texts([]) == done && redirs + RedirsOf([]) == redirs
  {
  }

  lemma {:induction false} ArgsSpelled(done: seq<string>, redirs: seq<Redirect>, args: seq<Argument>, rest: seq<Token>)
    requires EndsStage(rest) && |done| < MAXARGS
    ensures TakeArgs(done, redirs, SpellArgs(args, rest)) ==
      if |done| + |args| < MAXARGS then Ok(Redirected(Exec(done + Texts(args)), redirs + RedirsOf(args)), rest) else Panic
    decreases |args|
  {
    hide TakeArgs;
    hide Redirected;
    hide Texts;
    hide RedirsOf;
    hide SpellRedirs;
    if args == [] {
      NoArgs(done, redirs);
      ArgsOver(done, redirs, rest);
    } else {
      var a, more := args[0], args[1..];
      ArgsStart(more, rest);
      ArgTaken(done, redirs, a, SpellArgs(more, rest));
      if |done| + 1 < MAXARGS {
        ArgsSpelled(done + [a.text], redirs + a.redirs, more, rest);
        ConsArgs(done, redirs, a, more);
        assert [a] + more == args;
      }
    }
  }

  lemma SimpleSpelled(first: seq<Redirect>, args: seq<Argument>, rest: seq<Token>)
    requires EndsStage(rest)
    ensures ParseExec(SpellRedirs(first, SpellArgs(args, rest))) ==
      if |args| < MAXARGS then Ok(Redirected(Exec(Texts(args)), first + RedirsOf(args)), rest) else Panic
  {
    hide TakeArgs;
    hide TakeRedirs;
    hide Redirected;
    var ts := SpellArgs(args, rest);
    ArgsStart(args, rest);
    RedirsSpell(first, ts);
    ArgsSpelled([], first, args, rest);
    assert [] + Texts(args) == Texts(args);
    assert !Starts(SpellRedirs(first, ts), '(');
  }

  lemma {:induction false} StageSpelled(s: Stage, rest: seq<Token>)
    requires EndsStage(rest)
    ensures ParseExec(SpellStage(s, rest)) == if FitsStage(s) then Ok(MeanStage(s), rest) else Panic
    decreases s
  {
    match s {
      case Simple(first, args) => SimpleSpelled(first, args, rest);
      case Block(line, redirs) =>
        var after := SpellRedirs(redirs, rest);
        LineSpelled(line, [Sym(')')] + after);
        BlockSpelled(SpellLine(line, [Sym(')')] + after), redirs, rest);
    }
  }

  // A line in parentheses, with redirections after it.
  lemma BlockSpelled(inner: seq<Token>, redirs: seq<Redirect>, rest: seq<Token>)
    requires EndsStage(rest)
    requires var r := ParseLine(inner); r.Ok? ==> r.rest == [Sym(')')] + SpellRedirs(redirs, rest)
    ensures ParseExec([Sym('(')] + inner) == if ParseLine(inner).Ok? then Ok(Redirected(ParseLine(inner).cmd, redirs), rest) else Panic
  {
    hide ParseLine;
    var ts, after := [Sym('(')] + inner, SpellRedirs(redirs, rest);
    assert ts[1..] == inner && ([Sym(')')] + after)[1..] == after;
    RedirsSpell(redirs, rest);
    if ParseLine(inner).Ok? { WrapIs(ParseLine(inner).cmd, redirs); }
  }

  lemma {:induction false} PipelineSpelled(p: Pipeline, rest: seq<Token>)
    requires EndsPipeline(rest)
    ensures ParsePipe(SpellPipeline(p, rest)) == if FitsPipeline(p) then Ok(MeanPipeline(p), rest) else Panic
    decreases p
  {
    hide ParseExec;
    match p {
      case Last(s) => StageSpelled(s, rest);
      case Into(s, next) =>
        var after := SpellPipeline(next, rest);
        StageSpelled(s, [Sym('|')] + after);
        PipelineSpelled(next, rest);
        assert ([Sym('|')] + after)[1..] == after;
    }
  }

  lemma {:induction false} BacksSpelled(n: nat, rest: seq<Token>)
    requires !Starts(rest, '&')
    ensures Backs(SpellBacks(n, rest)) == n && n <= |SpellBacks(n, rest)| && SpellBacks(n, rest)[n..] == rest
    ensures n > 0 ==> Starts(SpellBacks(n, rest), '&')
  {
    if n > 0 {
      BacksSpelled(n - 1, rest);
      assert ([Sym('&')] + SpellBacks(n - 1, rest))[1..] == SpellBacks(n - 1, rest);
      assert SpellBacks(n, rest)[n..] == SpellBacks(n - 1, rest)[n - 1..];
    }
  }

  /** At the level of tokens, in front of a closing parenthesis or the end: a line parses to its meaning. */
  lemma {:induction false} LineSpelled(l: Line, rest: seq<Token>)
    requires EndsLine(rest)
    ensures ParseLine(SpellLine(l, rest)) == if FitsLine(l) then Ok(MeanLine(l), rest) else Panic
    decreases l
  {
    hide ParsePipe;
    match l {
      case Only(p, n) =>
        BacksSpelled(n, rest);
        PipelineSpelled(p, SpellBacks(n, rest));
        BackedFront(MeanPipeline(p), n);
      case Then(p, n, next) =>
        var after := [Sym(';')] + SpellLine(next, rest);
        BacksSpelled(n, after);
        PipelineSpelled(p, SpellBacks(n, after));
        BackedFront(MeanPipeline(p), n);
        LineSpelled(next, rest);
        assert after[1..] == SpellLine(next, rest);
        assert SpellBacks(n, after)[n + 1..] == SpellBacks(n, after)[n..][1..];
    }
  }

  /**
    Every line of the grammar parses to its meaning; exactly those that give a simple command more
    than nine words are refused.
   */
  lemma GrammarParses(l: Line)
    ensures ParseCmd(SpellLine(l, [])) == if FitsLine(l) then Ok(MeanLine(l), []) else Panic
  {
    LineSpelled(l, []);
  }

  // ----- Only the lines of the grammar

  lemma {:induction false} RedirsFound(ts: seq<Token>)
    requires TakeRedirs(ts).Redirs?
    ensures var r := TakeRedirs(ts); SpellRedirs(r.list, r.rest) == ts && !StartsRedir(r.rest)
  {
    if StartsRedir(ts) {
      RedirsFound(ts[2..]);
      var r, more := TakeRedirs(ts), TakeRedirs(ts[2..]);
      assert r.list[1..] == more.list && r.list[0] == Redirect(ts[1].text, ModeOf(ts[0]));
      assert ts == [ts[0]] + ([ts[1]] + ts[2..]);
    }
  }

  lemma {:induction false} ArgsFound(done: seq<string>, redirs: seq<Redirect>, ts: seq<Token>) returns (args: seq<Argument>)
    requires TakeArgs(done, redirs, ts).Ok? && |done| < MAXARGS
    ensures var r := TakeArgs(done, redirs, ts);
      && SpellArgs(args, r.rest) == ts && EndsStage(r.rest) && |done| + |args| < MAXARGS
      && r.cmd == Redirected(Exec(done + Texts(args)), redirs + RedirsOf(args))
    decreases |ts|
  {
    hide Redirected;
    hide Texts;
    hide RedirsOf;
    hide SpellRedirs;
    hide TakeRedirs;
    if EndsStage(ts) {
      args := [];
      ArgsOver(done, redirs, ts);
      NoArgs(done, redirs);
    } else {
      var r := TakeRedirs(ts[1..]);
      RedirsFound(ts[1..]);
      var more := ArgsFound(done + [ts[0].text], redirs + r.list, r.rest);
      args := [Argument(ts[0].text, r.list)] + more;
      assert args[1..] == more && ts == [ts[0]] + ts[1..];
      ConsArgs(done, redirs, Argument(ts[0].text, r.list), more);
    }
  }

  lemma {:induction false} StageFound(ts: seq<Token>) returns (s: Stage)
    requires ParseExec(ts).Ok?
    ensures var r := ParseExec(ts); SpellStage(s, r.rest) == ts && MeanStage(s) == r.cmd && FitsStage(s) && !StartsRedir(r.rest)
    decreases |ts|, 1
  {
    hide TakeArgs;
    hide TakeRedirs;
    hide SpellRedirs;
    hide SpellArgs;
    hide ParseLine;
    if Starts(ts, '(') {
      var inner := ParseLine(ts[1..]);
      var line := LineFound(ts[1..]);
      var r := TakeRedirs(inner.rest[1..]);
      RedirsFound(inner.rest[1..]);
      s := Block(line, r.list);
      WrapIs(inner.cmd, r.list);
      assert inner.rest == [Sym(')')] + inner.rest[1..];
      assert ts == [Sym('(')] + ts[1..];
    } else {
      var r := TakeRedirs(ts);
      RedirsFound(ts);
      var args := ArgsFound([], r.list, r.rest);
      s := Simple(r.list, args);
      assert [] + Texts(args) == Texts(args);
    }
  }

  lemma {:induction false} PipelineFound(ts: seq<Token>) returns (p: Pipeline)
    requires ParsePipe(ts).Ok?
    ensures var r := ParsePipe(ts); SpellPipeline(p, r.rest) == ts && MeanPipeline(p) == r.cmd && FitsPipeline(p)
    decreases |ts|, 2
  {
    hide ParseExec;
    var s := StageFound(ts);
    var r := ParseExec(ts);
    if Starts(r.rest, '|') {
      var next := PipelineFound(r.rest[1..]);
      p := Into(s, next);
      assert r.rest == [Sym('|')] + r.rest[1..];
    } else {
      p := Last(s);
    }
  }

  lemma {:induction false} BacksFound(ts: seq<Token>)
    ensures SpellBacks(Backs(ts), ts[Backs(ts)..]) == ts
  {
    if Starts(ts, '&') {
      BacksFound(ts[1..]);
      assert ts[1..][Backs(ts[1..])..] == ts[Backs(ts)..];
      assert ts == [Sym('&')] + ts[1..];
    } else {
      assert ts[0..] == ts;
    }
  }

  lemma {:induction false} LineFound(ts: seq<Token>) returns (l: Line)
    requires ParseLine(ts).Ok?
    ensures var r := ParseLine(ts); SpellLine(l, r.rest) == ts && MeanLine(l) == r.cmd && FitsLine(l)
    decreases |ts|, 3
  {
    hide ParsePipe;
    var p := PipelineFound(ts);
    var r := ParsePipe(ts);
    var n := Backs(r.rest);
    BacksFound(r.rest);
    BackedFront(r.cmd, n);
    if Starts(r.rest[n..], ';') {
      var next := LineFound(r.rest[n + 1..]);
      l := Then(p, n, next);
      assert r.rest[n..] == [Sym(';')] + r.rest[n + 1..];
    } else {
      l := Only(p, n);
    }
  }

  /**
    parsecmd accepts a line if and only if its tokens are those of a line of the grammar with no
    more than nine words to a command, and what it returns is that line's meaning.
   */
  lemma ParsesExactly(text: string, c: Cmd<string>)
    ensures ParseCmd(Tokens(text)) == Ok(c, []) <==> exists l :: FitsLine(l) && SpellLine(l, []) == Tokens(text) && MeanLine(l) == c
  {
    hide ParseLine;
    hide Tokens;
    var ts := Tokens(text);
    if ParseCmd(ts) == Ok(c, []) {
      var l := LineFound(ts);
      assert FitsLine(l) && SpellLine(l, []) == ts && MeanLine(l) == c;
    }
    forall l | FitsLine(l) && SpellLine(l, []) == ts && MeanLine(l) == c ensures ParseCmd(ts) == Ok(c, []) {
      GrammarParses(l);
    }
  }

  // ----- Tokens of typed text

  // Text may be cut here: not inside a word, and not between the two characters of `>>`.
  predicate Border(a: string, b: string) {
    a == "" || b == "" || (
      && !(WordChar(a[|a| - 1]) && WordChar(b[0]))
      && !(a[|a| - 1] == '>' && b[0] == '>'))
  }

  lemma SymCut(c: char, s: string)
    requires Symbol(c) && (c == '>' && s != "" ==> s[0] != '>')
    ensures Tokens([c] + s) == [Sym(c)] + Tokens(s)
  {
    assert ([c] + s)[1..] == s;
  }

  lemma WhiteCut(c: char, s: string)
    requires White(c)
    ensures Tokens([c] + s) == Tokens(s)
  {
    assert ([c] + s)[1..] == s;
  }

  // The first token of a text, or its first white character, in front of anything that does not continue it.
  lemma FirstCut(a: string, b: string) returns (n: nat, ts: seq<Token>)
    requires a != "" && '\0' !in a && Border(a, b)
    ensures 0 < n <= |a| && Border(a[n..], b)
    ensures Tokens(a) == ts + Tokens(a[n..]) && Tokens(a + b) == ts + Tokens(a[n..] + b)
  {
    hide Tokens;
    if WordChar(a[0]) {
      n := WordLen(a);
      ts := [Word(a[..n])];
      WordToken(a[..n], a[n..]);
      WordToken(a[..n], a[n..] + b);
    } else if a[0] == '>' && |a| > 1 && a[1] == '>' {
      n, ts := 2, [AppendTo];
      AppendToken(a[2..]);
      AppendToken(a[2..] + b);
    } else if White(a[0]) {
      n, ts := 1, [];
      WhiteCut(a[0], a[1..]);
      WhiteCut(a[0], a[1..] + b);
    } else {
      n, ts := 1, [Sym(a[0])];
      SymCut(a[0], a[1..]);
      SymCut(a[0], a[1..] + b);
    }
    assert a == a[..n] + a[n..] && a + b == a[..n] + (a[n..] + b);
    assert a[..1] == [a[0]] && (|a| > 1 ==> a[..2] == [a[0], a[1]]);
  }

  /** The tokens of a text are those of its parts, wherever it is cut; white space counts for nothing. */
  lemma {:induction false} TokensSplit(a: string, b: string)
    requires '\0' !in a && Border(a, b)
    ensures Tokens(a + b) == Tokens(a) + Tokens(b)
    decreases |a|
  {
    if a == "" {
      assert a + b == b;
    } else {
      hide Tokens;
      var n, ts := FirstCut(a, b);
      TokensSplit(a[n..], b);
      assert ts + (Tokens(a[n..]) + Tokens(b)) == ts + Tokens(a[n..]) + Tokens(b);
    }
  }

  predicate ProperToken(t: Token) {
    match t
    case Word(w) => IsWord(w)
    case Sym(c) => Symbol(c)
    case AppendTo => true
  }

  function ShowToken(t: Token): string {
    match t
    case Word(w) => w
    case Sym(c) => [c]
    case AppendTo => ">>"
  }

  // The tokens as typed, with a space after each.
  function Show(ts: seq<Token>): string {
    if ts == [] then "" else ShowToken(ts[0]) + (" " + Show(ts[1..]))
  }

  lemma OneToken(t: Token)
    requires ProperToken(t)
    ensures Tokens(ShowToken(t)) == [t] && '\0' !in ShowToken(t)
  {
    match t {
      case Word(w) =>
        WordToken(w, "");
        assert w + "" == w;
      case Sym(c) =>
        assert [c][1..] == "";
      case AppendTo =>
        assert ">>"[2..] == "";
    }
  }

  lemma {:induction false} ShowTokens(ts: seq<Token>)
    requires forall i :: 0 <= i < |ts| ==> ProperToken(ts[i])
    ensures Tokens(Show(ts)) == ts
  {
    hide Tokens;
    hide ShowToken;
    if ts == [] {
      NoTokens();
    } else {
      OneToken(ts[0]);
      TokensSplit(ShowToken(ts[0]), " " + Show(ts[1..]));
      SpaceToken(Show(ts[1..]));
      ShowTokens(ts[1..]);
    }
  }

  lemma NoTokens()
    ensures Tokens("") == []
  {
  }

  /** A line over proper words, typed without any parentheses that are not its own, parses to its meaning. */
  lemma TypedParses(l: Line)
    requires forall i :: 0 <= i < |SpellLine(l, [])| ==> ProperToken(SpellLine(l, [])[i])
    ensures ParseCmd(Tokens(Show(SpellLine(l, [])))) == if FitsLine(l) then Ok(MeanLine(l), []) else Panic
  {
    ShowTokens(SpellLine(l, []));
    GrammarParses(l);
  }
}
