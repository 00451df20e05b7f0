/**
  The command language of user/sh.c: the tokens of a line, the grammar that parsecmd accepts,
  and the rendering of a command with all its parentheses.  ShellCode holds the parser's code.
 */
module Shell {
  const MAXARGS := 10

  datatype Mode = Read | Write | Append

  /** A command over words of type W: their text here, their place in the line in the code. */
  datatype Cmd<W> =
    | Exec(args: seq<W>)
    | Redir(cmd: Cmd<W>, file: W, mode: Mode)
    | Pipe(left: Cmd<W>, right: Cmd<W>)
    | List(left: Cmd<W>, right: Cmd<W>)
    | Back(cmd: Cmd<W>)

  datatype Token = Word(text: string) | Sym(c: char) | AppendTo

  predicate White(c: char) {
    c == ' ' || c == '\t' || c == '\r' || c == '\n' || c == 11 as char
  }

  predicate Symbol(c: char) {
    c == '<' || c == '|' || c == '>' || c == '&' || c == ';' || c == '(' || c == ')'
  }

  predicate WordChar(c: char) {
    !White(c) && !Symbol(c) && c != '\0'
  }

  // ----- Tokens

  function WordLen(s: string): (n: nat)
    ensures n <= |s| && (n < |s| ==> !WordChar(s[n])) && forall i :: 0 <= i < n ==> WordChar(s[i])
    ensures s != "" && WordChar(s[0]) ==> n > 0
  {
    if s == "" || !WordChar(s[0]) then 0 else 1 + WordLen(s[1..])
  }

  // The tokens of a line, which holds no NUL.
  function Tokens(s: string): seq<Token>
    decreases |s|
  {
    if s == "" then []
    else if White(s[0]) then Tokens(s[1..])
    else if WordChar(s[0]) then [Word(s[..WordLen(s)])] + Tokens(s[WordLen(s)..])
    else if s[0] == '>' && |s| > 1 && s[1] == '>' then [AppendTo] + Tokens(s[2..])
    else if Symbol(s[0]) then [Sym(s[0])] + Tokens(s[1..])
    else []
  }

  // ----- The grammar

  datatype Parsed = Panic | Ok(cmd: Cmd<string>, rest: seq<Token>)

  datatype Redirect = Redirect(file: string, mode: Mode)

  datatype Redirs = BadRedir | Redirs(list: seq<Redirect>, rest: seq<Token>)

  predicate Starts(ts: seq<Token>, c: char) {
    ts != [] && ts[0] == Sym(c)
  }

  predicate StartsRedir(ts: seq<Token>) {
    ts != [] && (ts[0] == Sym('<') || ts[0] == Sym('>') || ts[0] == AppendTo)
  }

  function ModeOf(t: Token): Mode {
    if t == Sym('<') then Read else if t == AppendTo then Append else Write
  }

  // parseredirs, as the list of redirections it adds
  function TakeRedirs(ts: seq<Token>): (r: Redirs)
    ensures r.Redirs? ==> |r.rest| <= |ts|
  {
    if !StartsRedir(ts) then Redirs([], ts)
    else if |ts| < 2 || !ts[1].Word? then BadRedir
    else
      match TakeRedirs(ts[2..])
      case BadRedir => BadRedir
      case Redirs(list, rest) => Redirs([Redirect(ts[1].text, ModeOf(ts[0]))] + list, rest)
  }

  function Wrap<W>(c: Cmd<W>, files: seq<W>, modes: seq<Mode>): Cmd<W>
    requires |files| == |modes|
    decreases |files|
  {
    if files == [] then c
    else Wrap(Redir(c, files[0], modes[0]), files[1..], modes[1..])
  }

  function Files(list: seq<Redirect>): (r: seq<string>)
    ensures |r| == |list|
  {
    if list == [] then [] else [list[0].file] + Files(list[1..])
  }

  function Modes(list: seq<Redirect>): (r: seq<Mode>)
    ensures |r| == |list|
  {
    if list == [] then [] else [list[0].mode] + Modes(list[1..])
  }

  // The loop of parseexec, after some arguments and redirections.
  function TakeArgs(args: seq<string>, redirs: seq<Redirect>, ts: seq<Token>): (r: Parsed)
    ensures r.Ok? ==> |r.rest| <= |ts|
    decreases |ts|
  {
    if ts == [] || Starts(ts, '|') || Starts(ts, ')') || Starts(ts, '&') || Starts(ts, ';') then
      Ok(Wrap(Exec(args), Files(redirs), Modes(redirs)), ts)
    else if !ts[0].Word? || |args| + 1 >= MAXARGS then Panic
    else
      match TakeRedirs(ts[1..])
      case BadRedir => Panic
      case Redirs(list, rest) => TakeArgs(args + [ts[0].text], redirs + list, rest)
  }

  function ParseExec(ts: seq<Token>): (r: Parsed)
    ensures r.Ok? ==> |r.rest| <= |ts|
    decreases |ts|, 1
  {
    if Starts(ts, '(') then ParseBlock(ts)
    else
      match TakeRedirs(ts)
      case BadRedir => Panic
      case Redirs(list, rest) => TakeArgs([], list, rest)
  }

  function ParseBlock(ts: seq<Token>): (r: Parsed)
    requires Starts(ts, '(')
    ensures r.Ok? ==> |r.rest| <= |ts|
    decreases |ts|, 0
  {
    match ParseLine(ts[1..])
    case Panic => Panic
    case Ok(cmd, rest) =>
      if !Starts(rest, ')') then Panic
      else
        match TakeRedirs(rest[1..])
        case BadRedir => Panic
        case Redirs(list, rest') => Ok(Wrap(cmd, Files(list), Modes(list)), rest')
  }

  function ParsePipe(ts: seq<Token>): (r: Parsed)
    ensures r.Ok? ==> |r.rest| <= |ts|
    decreases |ts|, 2
  {
    match ParseExec(ts)
    case Panic => Panic
    case Ok(cmd, rest) =>
      if !Starts(rest, '|') then Ok(cmd, rest)
      else
        match ParsePipe(rest[1..])
        case Panic => Panic
        case Ok(right, rest') => Ok(Pipe(cmd, right), rest')
  }

  // parseline's loop over '&'
  function Backs(ts: seq<Token>): (n: nat)
    ensures n <= |ts|
  {
    if Starts(ts, '&') then 1 + Backs(ts[1..]) else 0
  }

  function InBack<W>(c: Cmd<W>, n: nat): Cmd<W>
    decreases n
  {
    if n == 0 then c else InBack(Back(c), n - 1)
  }

  function ParseLine(ts: seq<Token>): (r: Parsed)
    ensures r.Ok? ==> |r.rest| <= |ts|
    decreases |ts|, 3
  {
    match ParsePipe(ts)
    case Panic => Panic
    case Ok(first, rest) =>
      var n := Backs(rest);
      var cmd := InBack(first, n);
      if !Starts(rest[n..], ';') then Ok(cmd, rest[n..])
      else
        match ParseLine(rest[n + 1..])
        case Panic => Panic
        case Ok(right, rest') => Ok(List(cmd, right), rest')
  }

  function ParseCmd(ts: seq<Token>): (r: Parsed) {
    match ParseLine(ts)
    case Panic => Panic
    case Ok(cmd, rest) => if rest == [] then Ok(cmd, []) else Panic
  }

  // ----- The fully parenthesised rendering

  predicate IsWord(w: string) {
    w != "" && forall i :: 0 <= i < |w| ==> WordChar(w[i])
  }

  predicate AllWords(args: seq<string>) {
    forall i :: 0 <= i < |args| ==> IsWord(args[i])
  }

  predicate Proper(t: Cmd<string>) {
    match t
    case Exec(args) => AllWords(args)
    case Redir(c, file, _) => Proper(c) && IsWord(file)
    case Pipe(l, r) => Proper(l) && Proper(r)
    case List(l, r) => Proper(l) && Proper(r)
    case Back(c) => Proper(c)
  }

  // At most nine arguments to every command.
  predicate Fits(t: Cmd<string>) {
    match t
    case Exec(args) => |args| < MAXARGS
    case Redir(c, _, _) => Fits(c)
    case Pipe(l, r) => Fits(l) && Fits(r)
    case List(l, r) => Fits(l) && Fits(r)
    case Back(c) => Fits(c)
  }

  function Spaced(args: seq<string>, rest: string): string {
    if args == [] then rest else args[0] + (" " + Spaced(args[1..], rest))
  }

  function Sign(mode: Mode): string {
    match mode
    case Read => "<"
    case Write => ">"
    case Append => ">>"
  }

  // The text of t in front of `rest`.
  function Render(t: Cmd<string>, rest: string): string {
    match t
    case Exec(args) => Spaced(args, rest)
    case Redir(c, file, mode) => "(" + Render(c, ")" + (Sign(mode) + (file + rest)))
    case Pipe(l, r) => "(" + Render(l, ")" + ("|" + ("(" + Render(r, ")" + rest))))
    case List(l, r) => "(" + Render(l, ")" + (";" + ("(" + Render(r, ")" + rest))))
    case Back(c) => "(" + Render(c, ")" + ("&" + rest))
  }

  // The same in tokens.
  function Words(args: seq<string>, rest: seq<Token>): seq<Token> {
    if args == [] then rest else [Word(args[0])] + Words(args[1..], rest)
  }

  function SignToken(mode: Mode): Token {
    match mode
    case Read => Sym('<')
    case Write => Sym('>')
    case Append => AppendTo
  }

  function Spell(t: Cmd<string>, rest: seq<Token>): seq<Token> {
    match t
    case Exec(args) => Words(args, rest)
    case Redir(c, file, mode) => [Sym('(')] + Spell(c, [Sym(')')] + ([SignToken(mode)] + ([Word(file)] + rest)))
    case Pipe(l, r) => [Sym('(')] + Spell(l, [Sym(')')] + ([Sym('|')] + ([Sym('(')] + Spell(r, [Sym(')')] + rest))))
    case List(l, r) => [Sym('(')] + Spell(l, [Sym(')')] + ([Sym(';')] + ([Sym('(')] + Spell(r, [Sym(')')] + rest))))
    case Back(c) => [Sym('(')] + Spell(c, [Sym(')')] + ([Sym('&')] + rest))
  }

  // ----- Tokens of the rendering

  lemma SymToken(c: char, s: string)
    requires Symbol(c) && (c == '>' ==> s != "" && s[0] != '>')
    ensures Tokens([c] + s) == [Sym(c)] + Tokens(s)
  {
    assert ([c] + s)[1..] == s;
  }

  lemma AppendToken(s: string)
    ensures Tokens(">>" + s) == [AppendTo] + Tokens(s)
  {
    assert (">>" + s)[2..] == s;
  }

  lemma SpaceToken(s: string)
    ensures Tokens(" " + s) == Tokens(s)
  {
    assert (" " + s)[1..] == s;
  }

  lemma {:induction false} WordLenIs(w: string, s: string)
    requires (forall i :: 0 <= i < |w| ==> WordChar(w[i])) && (s == "" || !WordChar(s[0]))
    ensures WordLen(w + s) == |w|
  {
    if w != "" {
      assert (w + s)[1..] == w[1..] + s;
      WordLenIs(w[1..], s);
    } else {
      assert w + s == s;
    }
  }

  lemma WordToken(w: string, s: string)
    requires IsWord(w) && (s == "" || !WordChar(s[0]))
    ensures Tokens(w + s) == [Word(w)] + Tokens(s)
  {
    WordLenIs(w, s);
    assert (w + s)[..|w|] == w && (w + s)[|w|..] == s && (w + s)[0] == w[0];
  }

  lemma {:induction false} SpacedTokens(args: seq<string>, rest: string)
    requires AllWords(args)
    ensures Tokens(Spaced(args, rest)) == Words(args, Tokens(rest))
  {
    hide Tokens;
    if args != [] {
      WordToken(args[0], " " + Spaced(args[1..], rest));
      SpaceToken(Spaced(args[1..], rest));
      SpacedTokens(args[1..], rest);
    }
  }

  lemma SignTokens(mode: Mode, s: string)
    requires s != "" && WordChar(s[0])
    ensures Tokens(Sign(mode) + s) == [SignToken(mode)] + Tokens(s)
  {
    hide Tokens;
    match mode {
      case Read => SymToken('<', s);
      case Write => SymToken('>', s);
      case Append => AppendToken(s);
    }
  }

  /** The tokens of a rendered command are its spelling. */
  lemma {:induction false} RenderTokens(t: Cmd<string>, rest: string)
    requires Proper(t) && (rest == "" || !WordChar(rest[0]))
    ensures Tokens(Render(t, rest)) == Spell(t, Tokens(rest))
    decreases t
  {
    hide Tokens;
    hide WordChar;
    match t {
      case Exec(args) => SpacedTokens(args, rest);
      case Redir(c, file, mode) =>
        var s := Sign(mode) + (file + rest);
        WordToken(file, rest);
        SignTokens(mode, file + rest);
        Close(s);
        RenderTokens(c, ")" + s);
        SymToken('(', Render(c, ")" + s));
      case Pipe(l, r) =>
        Close(rest);
        RenderTokens(r, ")" + rest);
        Middle('|', Render(r, ")" + rest));
        RenderTokens(l, ")" + ("|" + ("(" + Render(r, ")" + rest))));
        SymToken('(', Render(l, ")" + ("|" + ("(" + Render(r, ")" + rest)))));
      case List(l, r) =>
        Close(rest);
        RenderTokens(r, ")" + rest);
        Middle(';', Render(r, ")" + rest));
        RenderTokens(l, ")" + (";" + ("(" + Render(r, ")" + rest))));
        SymToken('(', Render(l, ")" + (";" + ("(" + Render(r, ")" + rest)))));
      case Back(c) =>
        SymToken('&', rest);
        Close("&" + rest);
        RenderTokens(c, ")" + ("&" + rest));
        SymToken('(', Render(c, ")" + ("&" + rest)));
    }
  }

  lemma Close(s: string)
    ensures Tokens(")" + s) == [Sym(')')] + Tokens(s) && !WordChar((")" + s)[0])
  {
    SymToken(')', s);
  }

  lemma Middle(c: char, s: string)
    requires c == '|' || c == ';'
    ensures Tokens(")" + ([c] + ("(" + s))) == [Sym(')')] + ([Sym(c)] + ([Sym('(')] + Tokens(s)))
    ensures !WordChar((")" + ([c] + ("(" + s)))[0])
  {
    hide Tokens;
    SymToken('(', s);
    SymToken(c, "(" + s);
    Close([c] + ("(" + s));
  }

  // ----- The round trip

  predicate Closes(ts: seq<Token>) { ts == [] || ts[0] == Sym(')') }

  // What parsing in front of `rest` must give for tree t.
  predicate Gives(r: Parsed, t: Cmd<string>, rest: seq<Token>) {
    if Fits(t) then r == Ok(t, rest) else r.Panic?
  }

  lemma ArgsStep(done: seq<string>, w: string, ts: seq<Token>)
    requires !StartsRedir(ts)
    ensures TakeArgs(done, [], [Word(w)] + ts) == if |done| + 1 >= MAXARGS then Panic else TakeArgs(done + [w], [], ts)
  {
    var all := [Word(w)] + ts;
    assert all[1..] == ts;
    var none: seq<Redirect> := [];
    assert none + none == none;
  }

  lemma ArgsEnd(done: seq<string>, rest: seq<Token>)
    requires Closes(rest)
    ensures TakeArgs(done, [], rest) == Ok(Exec(done), rest)
  {
  }

  lemma WordsStart(args: seq<string>, rest: seq<Token>)
    requires Closes(rest)
    ensures !StartsRedir(Words(args, rest)) && !Starts(Words(args, rest), '(')
  {
  }

  lemma {:induction false} ArgsSpell(done: seq<string>, args: seq<string>, rest: seq<Token>)
    requires Closes(rest) && |done| < MAXARGS
    ensures TakeArgs(done, [], Words(args, rest)) == if |done| + |args| < MAXARGS then Ok(Exec(done + args), rest) else Panic
    decreases |args|
  {
    hide TakeArgs;
    if args == [] {
      assert done + args == done;
      ArgsEnd(done, rest);
    } else {
      WordsStart(args[1..], rest);
      ArgsStep(done, args[0], Words(args[1..], rest));
      if |done| + 1 < MAXARGS {
        ArgsSpell(done + [args[0]], args[1..], rest);
        assert done + [args[0]] + args[1..] == done + args;
      }
    }
  }

  // A block in front of something that is not a redirection.
  lemma BlockSpell(t: Cmd<string>, rest: seq<Token>)
    requires !StartsRedir(rest) && Gives(ParseLine(Spell(t, [Sym(')')] + rest)), t, [Sym(')')] + rest)
    ensures Gives(ParseExec([Sym('(')] + Spell(t, [Sym(')')] + rest)), t, rest)
  {
    var ts := [Sym('(')] + Spell(t, [Sym(')')] + rest);
    assert ts[1..] == Spell(t, [Sym(')')] + rest);
    assert ([Sym(')')] + rest)[1..] == rest;
  }

  // A block in front of one redirection.
  lemma RedirSpell(t: Cmd<string>, file: string, mode: Mode, rest: seq<Token>)
    requires Closes(rest)
    requires var tail := [Sym(')')] + ([SignToken(mode)] + ([Word(file)] + rest)); Gives(ParseLine(Spell(t, tail)), t, tail)
    ensures Gives(ParseExec(Spell(Redir(t, file, mode), rest)), Redir(t, file, mode), rest)
  {
    var after := [SignToken(mode)] + ([Word(file)] + rest);
    var ts := [Sym('(')] + Spell(t, [Sym(')')] + after);
    assert ts[1..] == Spell(t, [Sym(')')] + after);
    assert ([Sym(')')] + after)[1..] == after;
    assert after[2..] == rest;
    OneRedir(file, mode, rest);
    WrapOne(t, file, mode);
  }

  lemma OneRedir(file: string, mode: Mode, rest: seq<Token>)
    requires Closes(rest)
    ensures TakeRedirs([SignToken(mode)] + ([Word(file)] + rest)) == Redirs([Redirect(file, mode)], rest)
  {
    var after := [SignToken(mode)] + ([Word(file)] + rest);
    assert after[2..] == rest && after[1] == Word(file);
    var list := [Redirect(file, mode)];
    assert list + [] == list;
  }

  lemma WrapOne(t: Cmd<string>, file: string, mode: Mode)
    ensures Wrap(t, Files([Redirect(file, mode)]), Modes([Redirect(file, mode)])) == Redir(t, file, mode)
  {
    var list := [Redirect(file, mode)];
    assert list[1..] == [];
    assert Files(list) == [file] && Modes(list) == [mode];
    assert [file][1..] == [] && [mode][1..] == [];
  }

  /** At the level of tokens, parsing undoes spelling. */
  lemma {:induction false} LineSpell(t: Cmd<string>, rest: seq<Token>)
    requires Closes(rest)
    ensures Gives(ParseLine(Spell(t, rest)), t, rest)
    decreases t
  {
    match t {
      case Exec(args) => ExecSpell(args, rest);
      case Redir(c, file, mode) =>
        LineSpell(c, [Sym(')')] + ([SignToken(mode)] + ([Word(file)] + rest)));
        RedirSpell(c, file, mode, rest);
        LineOfExec(Spell(t, rest), t, rest);
      case Pipe(l, r) =>
        var right := [Sym('(')] + Spell(r, [Sym(')')] + rest);
        LineSpell(l, [Sym(')')] + ([Sym('|')] + right));
        BlockSpell(l, [Sym('|')] + right);
        LineSpell(r, [Sym(')')] + rest);
        BlockSpell(r, rest);
        assert ([Sym('|')] + right)[1..] == right;
        LineOfPipe(Spell(t, rest), t, rest);
      case List(l, r) =>
        var right := [Sym('(')] + Spell(r, [Sym(')')] + rest);
        LineSpell(l, [Sym(')')] + ([Sym(';')] + right));
        BlockSpell(l, [Sym(';')] + right);
        LineSpell(r, [Sym(')')] + rest);
        BlockSpell(r, rest);
        LineOfExec(right, r, rest);
        assert ([Sym(';')] + right)[0..] == [Sym(';')] + right && ([Sym(';')] + right)[1..] == right;
      case Back(c) =>
        LineSpell(c, [Sym(')')] + ([Sym('&')] + rest));
        BlockSpell(c, [Sym('&')] + rest);
        assert ([Sym('&')] + rest)[1..] == rest && Backs(rest) == 0;
        assert InBack(Back(c), 0) == Back(c);
    }
  }

  lemma ExecSpell(args: seq<string>, rest: seq<Token>)
    requires Closes(rest)
    ensures Gives(ParseLine(Words(args, rest)), Exec(args), rest)
  {
    hide TakeArgs;
    ArgsSpell([], args, rest);
    assert [] + args == args;
    WordsStart(args, rest);
    LineOfExec(Words(args, rest), Exec(args), rest);
  }

  // Nothing in `rest` continues a command.
  lemma LineOfPipe(ts: seq<Token>, t: Cmd<string>, rest: seq<Token>)
    requires Closes(rest) && Gives(ParsePipe(ts), t, rest)
    ensures Gives(ParseLine(ts), t, rest)
  {
    assert Backs(rest) == 0 && rest[0..] == rest;
  }

  lemma LineOfExec(ts: seq<Token>, t: Cmd<string>, rest: seq<Token>)
    requires Closes(rest) && Gives(ParseExec(ts), t, rest)
    ensures Gives(ParseLine(ts), t, rest)
  {
    LineOfPipe(ts, t, rest);
  }

  /**
    Every command tree over proper words, rendered with all its parentheses, parses back to
    itself; exactly the trees that give a command more than nine arguments are refused.
   */
  lemma RoundTrip(t: Cmd<string>)
    requires Proper(t)
    ensures ParseCmd(Tokens(Render(t, ""))) == if Fits(t) then Ok(t, []) else Panic
  {
    RenderTokens(t, "");
    LineSpell(t, []);
  }
}
