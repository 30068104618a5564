/**
 The grammar of the shell (user/sh.c) over tokens, and a printer for command trees.
 A token is a word or a symbol; '+' stands for ">>", as gettoken returns it.
 */
module ShellGrammar {

  datatype Tok = Word(w: string) | Sym(c: char)

  datatype Mode = In | Out | Append

  datatype Cmd =
    | Exec(args: seq<string>)
    | Redir(cmd: Cmd, file: string, mode: Mode)
    | Pipe(left: Cmd, right: Cmd)
    | List(left: Cmd, right: Cmd)
    | Back(cmd: Cmd)

  /** A command and the tokens behind it, or one of the panics. */
  datatype Res = Ok(cmd: Cmd, rest: seq<Tok>) | Bad

  const MAXARGS: nat := 10

  predicate IsRedir(t: Tok) {
    t == Sym('<') || t == Sym('>') || t == Sym('+')
  }

  function ModeOf(t: Tok): Mode
    requires IsRedir(t)
  {
    if t == Sym('<') then In else if t == Sym('>') then Out else Append
  }

  function SymOf(m: Mode): Tok {
    match m case In => Sym('<') case Out => Sym('>') case Append => Sym('+')
  }

  /** The tokens that end the arguments of a command. */
  predicate Stops(t: Tok) {
    t == Sym('|') || t == Sym(')') || t == Sym('&') || t == Sym(';')
  }

  predicate At(ts: seq<Tok>, c: char) {
    ts != [] && ts[0] == Sym(c)
  }

  /** One more argument for the exec node under the redirections of a command. */
  function AddArg(c: Cmd, w: string): Cmd {
    match c
    case Exec(args) => Exec(args + [w])
    case Redir(d, f, m) => Redir(AddArg(d, w), f, m)
    case _ => c
  }

  // ------------------------------------------------- the grammar

  function Redirs(c: Cmd, ts: seq<Tok>): (r: Res)
    ensures r.Ok? ==> |r.rest| <= |ts|
    decreases |ts|
  {
    if ts == [] || !IsRedir(ts[0]) then Ok(c, ts)
    else if |ts| < 2 || !ts[1].Word? then Bad
    else Redirs(Redir(c, ts[1].w, ModeOf(ts[0])), ts[2..])
  }

  /** The loop over arguments; n of them have been seen. */
  function Args(c: Cmd, n: nat, ts: seq<Tok>): (r: Res)
    ensures r.Ok? ==> |r.rest| <= |ts|
    decreases |ts|
  {
    if ts == [] || Stops(ts[0]) then Ok(c, ts)
    else if !ts[0].Word? || n + 1 >= MAXARGS then Bad
    else
      match Redirs(AddArg(c, ts[0].w), ts[1..])
      case Ok(d, rest) => Args(d, n + 1, rest)
      case Bad => Bad
  }

  function ExecOf(ts: seq<Tok>): (r: Res)
    ensures r.Ok? ==> |r.rest| <= |ts|
    decreases |ts|, 1
  {
    if At(ts, '(') then Block(ts)
    else
      match Redirs(Exec([]), ts)
      case Ok(c, rest) => Args(c, 0, rest)
      case Bad => Bad
  }

  function Block(ts: seq<Tok>): (r: Res)
    requires At(ts, '(')
    ensures r.Ok? ==> |r.rest| <= |ts|
    decreases |ts|, 0
  {
    match Line(ts[1..])
    case Ok(c, rest) => if At(rest, ')') then Redirs(c, rest[1..]) else Bad
    case Bad => Bad
  }

  function PipeOf(ts: seq<Tok>): (r: Res)
    ensures r.Ok? ==> |r.rest| <= |ts|
    decreases |ts|, 2
  {
    match ExecOf(ts)
    case Bad => Bad
    case Ok(c, rest) =>
      if !At(rest, '|') then Ok(c, rest)
      else
        match PipeOf(rest[1..])
        case Ok(d, rest') => Ok(Pipe(c, d), rest')
        case Bad => Bad
  }

  function Backs(c: Cmd, ts: seq<Tok>): (r: Res)
    ensures r.Ok? && |r.rest| <= |ts| && !At(r.rest, '&')
    decreases |ts|
  {
    if At(ts, '&') then Backs(Back(c), ts[1..]) else Ok(c, ts)
  }

  function Head(ts: seq<Tok>): (r: Res)
    ensures r.Ok? ==> |r.rest| <= |ts|
    decreases |ts|, 3
  {
    match PipeOf(ts)
    case Ok(c, rest) => Backs(c, rest)
    case Bad => Bad
  }

  function Line(ts: seq<Tok>): (r: Res)
    ensures r.Ok? ==> |r.rest| <= |ts|
    decreases |ts|, 4
  {
    match Head(ts)
    case Bad => Bad
    case Ok(c, rest) =>
      if !At(rest, ';') then Ok(c, rest)
      else
        match Line(rest[1..])
        case Ok(d, rest') => Ok(List(c, d), rest')
        case Bad => Bad
  }

  datatype Parsed = Tree(cmd: Cmd) | Panic

  function Command(ts: seq<Tok>): Parsed {
    match Line(ts)
    case Ok(c, rest) => if rest == [] then Tree(c) else Panic
    case Bad => Panic
  }

  // ------------------------------------------------- printing

  function Words(args: seq<string>): (ts: seq<Tok>)
    ensures |ts| == |args|
  {
    seq(|args|, i requires 0 <= i < |args| => Word(args[i]))
  }

  function LineToks(t: Cmd): seq<Tok>
    decreases t, if t.List? then 0 else 4
  {
    match t
    case List(l, r) => HeadToks(l) + [Sym(';')] + LineToks(r)
    case _ => HeadToks(t)
  }

  function HeadToks(t: Cmd): seq<Tok>
    decreases t, if t.Back? then 0 else if t.List? then 7 else 3
  {
    match t
    case Back(c) => HeadToks(c) + [Sym('&')]
    case _ => PipeToks(t)
  }

  function PipeToks(t: Cmd): seq<Tok>
    decreases t, if t.Pipe? then 0 else if t.List? || t.Back? then 6 else 2
  {
    match t
    case Pipe(l, r) => ExecToks(l) + [Sym('|')] + PipeToks(r)
    case _ => ExecToks(t)
  }

  /** Words and redirections, or the command in parentheses. */
  function ExecToks(t: Cmd): seq<Tok>
    decreases t, if t.Exec? || t.Redir? then 0 else 5
  {
    match t
    case Exec(args) => Words(args)
    case Redir(c, f, m) => ExecToks(c) + [SymOf(m), Word(f)]
    case _ => [Sym('(')] + LineToks(t) + [Sym(')')]
  }

  /** No command in the tree has more than nine arguments. */
  predicate FewArgs(t: Cmd) {
    match t
    case Exec(args) => |args| < MAXARGS
    case Redir(c, _, _) => FewArgs(c)
    case Pipe(l, r) => FewArgs(l) && FewArgs(r)
    case List(l, r) => FewArgs(l) && FewArgs(r)
    case Back(c) => FewArgs(c)
  }

  // ------------------------------------------------- round trip

  predicate Simple(t: Cmd) {
    match t case Exec(_) => true case Redir(c, _, _) => Simple(c) case _ => false
  }

  function NArgs(t: Cmd): nat
    requires Simple(t)
  {
    match t case Exec(args) => |args| case Redir(c, _, _) => NArgs(c)
  }

  /** What is still to come once the tokens of t have been read. */
  function AfterExec(t: Cmd, ts: seq<Tok>): Res {
    match Redirs(t, ts)
    case Ok(c, rest) => if Simple(t) then Args(c, NArgs(t), rest) else Ok(c, rest)
    case Bad => Bad
  }

  /** The words of a command, read after the first n of them. */
  lemma {:induction false} ArgsTrip(args: seq<string>, n: nat, rest: seq<Tok>)
    requires n <= |args| < MAXARGS
    ensures n < |args| ==> Args(Exec(args[..n]), n, Words(args)[n..] + rest) == AfterExec(Exec(args), rest)
    decreases |args| - n
  {
    if n < |args| {
      var ts := Words(args)[n..] + rest;
      assert ts[0] == Word(args[n]) && ts[1..] == Words(args)[n + 1..] + rest;
      assert args[..n] + [args[n]] == args[..n + 1];
      if n + 1 < |args| {
        ArgsTrip(args, n + 1, rest);
        assert ts[1] == Word(args[n + 1]);
      } else {
        assert args[..n + 1] == args && ts[1..] == rest;
      }
    }
  }

  lemma WordsTrip(args: seq<string>, rest: seq<Tok>)
    requires |args| < MAXARGS && !At(rest, '(')
    ensures ExecOf(Words(args) + rest) == AfterExec(Exec(args), rest)
  {
    if args == [] {
      assert Words(args) + rest == rest;
    } else {
      var ts := Words(args) + rest;
      assert ts[0] == Word(args[0]);
      assert Words(args)[0..] + rest == ts && args[..0] == [];
      ArgsTrip(args, 0, rest);
    }
  }

  lemma RedirTrip(c: Cmd, f: string, m: Mode, rest: seq<Tok>)
    ensures AfterExec(c, [SymOf(m), Word(f)] + rest) == AfterExec(Redir(c, f, m), rest)
  {
    var more := [SymOf(m), Word(f)] + rest;
    assert more[2..] == rest && more[1] == Word(f);
  }

  lemma BlockTrip(t: Cmd, rest: seq<Tok>)
    requires !Simple(t) && Line(LineToks(t) + ([Sym(')')] + rest)) == Ok(t, [Sym(')')] + rest)
    ensures ExecOf([Sym('(')] + LineToks(t) + [Sym(')')] + rest) == AfterExec(t, rest)
  {
    var more := [Sym(')')] + rest;
    var ts := [Sym('(')] + LineToks(t) + [Sym(')')] + rest;
    assert ts[1..] == LineToks(t) + more && more[1..] == rest;
  }

  lemma {:induction false} ExecTrip(t: Cmd, rest: seq<Tok>)
    requires FewArgs(t) && !At(rest, '(')
    ensures ExecOf(ExecToks(t) + rest) == AfterExec(t, rest)
    decreases t, if t.Exec? || t.Redir? then 0 else 5
  {
    match t
    case Exec(args) =>
      WordsTrip(args, rest);
    case Redir(c, f, m) =>
      var more := [SymOf(m), Word(f)] + rest;
      ExecTrip(c, more);
      assert ExecToks(t) + rest == ExecToks(c) + more;
      RedirTrip(c, f, m, rest);
    case _ =>
      LineTrip(t, [Sym(')')] + rest);
      BlockTrip(t, rest);
  }

  /** The tokens that may follow a command. */
  predicate Closes(rest: seq<Tok>) {
    rest == [] || rest[0] == Sym(')') || rest[0] == Sym(';') || rest[0] == Sym('&')
  }

  lemma {:induction false} PipeTrip(t: Cmd, rest: seq<Tok>)
    requires FewArgs(t) && Closes(rest)
    ensures PipeOf(PipeToks(t) + rest) == Ok(t, rest)
    decreases t, if t.Pipe? then 0 else if t.List? || t.Back? then 6 else 2
  {
    match t
    case Pipe(l, r) =>
      var more := [Sym('|')] + (PipeToks(r) + rest);
      assert PipeToks(t) + rest == ExecToks(l) + more;
      ExecTrip(l, more);
      assert more[1..] == PipeToks(r) + rest;
      PipeTrip(r, rest);
    case _ =>
      ExecTrip(t, rest);
  }

  lemma {:induction false} HeadTrip(t: Cmd, rest: seq<Tok>)
    requires FewArgs(t) && Closes(rest)
    ensures Head(HeadToks(t) + rest) == Backs(t, rest)
    decreases t, if t.Back? then 0 else if t.List? then 7 else 3
  {
    match t
    case Back(c) =>
      var more := [Sym('&')] + rest;
      assert HeadToks(t) + rest == HeadToks(c) + more;
      HeadTrip(c, more);
      assert more[1..] == rest;
    case _ =>
      PipeTrip(t, rest);
  }

  lemma {:induction false} LineTrip(t: Cmd, rest: seq<Tok>)
    requires FewArgs(t) && (rest == [] || rest[0] == Sym(')'))
    ensures Line(LineToks(t) + rest) == Ok(t, rest)
    decreases t, if t.List? then 0 else 4
  {
    match t
    case List(l, r) =>
      var more := [Sym(';')] + (LineToks(r) + rest);
      assert LineToks(t) + rest == HeadToks(l) + more;
      HeadTrip(l, more);
      assert more[1..] == LineToks(r) + rest;
      LineTrip(r, rest);
    case _ =>
      HeadTrip(t, rest);
  }

  /** Parsing what was printed gives the tree back. */
  lemma RoundTrip(t: Cmd)
    requires FewArgs(t)
    ensures Command(LineToks(t)) == Tree(t)
  {
    LineTrip(t, []);
    assert LineToks(t) + [] == LineToks(t);
  }

  // ------------------------------------------------- every tree the parser builds

  lemma {:induction false} RedirsFew(c: Cmd, ts: seq<Tok>)
    requires FewArgs(c) && Redirs(c, ts).Ok?
    ensures FewArgs(Redirs(c, ts).cmd)
    ensures Simple(c) ==> Simple(Redirs(c, ts).cmd) && NArgs(Redirs(c, ts).cmd) == NArgs(c)
    decreases |ts|
  {
    if ts != [] && IsRedir(ts[0]) {
      RedirsFew(Redir(c, ts[1].w, ModeOf(ts[0])), ts[2..]);
    }
  }

  lemma {:induction false} AddArgFew(c: Cmd, w: string)
    requires Simple(c) && NArgs(c) + 1 < MAXARGS
    ensures Simple(AddArg(c, w)) && NArgs(AddArg(c, w)) == NArgs(c) + 1 && FewArgs(AddArg(c, w))
  {
    if c.Redir? { AddArgFew(c.cmd, w); }
  }

  lemma {:induction false} ArgsFew(c: Cmd, ts: seq<Tok>)
    requires Simple(c) && FewArgs(c) && Args(c, NArgs(c), ts).Ok?
    ensures FewArgs(Args(c, NArgs(c), ts).cmd)
    decreases |ts|
  {
    if ts != [] && !Stops(ts[0]) {
      AddArgFew(c, ts[0].w);
      var d := Redirs(AddArg(c, ts[0].w), ts[1..]);
      RedirsFew(AddArg(c, ts[0].w), ts[1..]);
      ArgsFew(d.cmd, d.rest);
    }
  }

  lemma {:induction false} ExecFew(ts: seq<Tok>)
    requires ExecOf(ts).Ok?
    ensures FewArgs(ExecOf(ts).cmd)
    decreases |ts|, 1
  {
    if At(ts, '(') {
      LineFew(ts[1..]);
      var b := Line(ts[1..]);
      RedirsFew(b.cmd, b.rest[1..]);
    } else {
      RedirsFew(Exec([]), ts);
      var b := Redirs(Exec([]), ts);
      ArgsFew(b.cmd, b.rest);
    }
  }

  lemma {:induction false} PipeFew(ts: seq<Tok>)
    requires PipeOf(ts).Ok?
    ensures FewArgs(PipeOf(ts).cmd)
    decreases |ts|, 2
  {
    ExecFew(ts);
    if At(ExecOf(ts).rest, '|') { PipeFew(ExecOf(ts).rest[1..]); }
  }

  lemma {:induction false} BacksFew(c: Cmd, ts: seq<Tok>)
    requires FewArgs(c)
    ensures FewArgs(Backs(c, ts).cmd)
    decreases |ts|
  {
    if At(ts, '&') { BacksFew(Back(c), ts[1..]); }
  }

  lemma {:induction false} LineFew(ts: seq<Tok>)
    requires Line(ts).Ok?
    ensures FewArgs(Line(ts).cmd)
    decreases |ts|, 4
  {
    PipeFew(ts);
    BacksFew(PipeOf(ts).cmd, PipeOf(ts).rest);
    if At(Head(ts).rest, ';') { LineFew(Head(ts).rest[1..]); }
  }

  /** A tree is the parse of some tokens exactly when no command in it has ten arguments. */
  lemma Parsable(t: Cmd)
    ensures FewArgs(t) <==> exists ts: seq<Tok> :: Command(ts) == Tree(t)
  {
    if FewArgs(t) { RoundTrip(t); }
    forall ts: seq<Tok> | Command(ts) == Tree(t) ensures FewArgs(t) { LineFew(ts); }
  }
}

/**
 The lexer and the recursive-descent parser of user/sh.c over characters.  A cursor i
 into the command line s stands for the pointer *ps; the end of s is the NUL.
 */
module ShellParser {
  import opened ShellGrammar

  predicate Space(c: char) {
    c == ' ' || c == '\t' || c == '\r' || c == '\n' || c == 11 as char
  }

  predicate Symbol(c: char) {
    c == '<' || c == '|' || c == '>' || c == '&' || c == ';' || c == '(' || c == ')'
  }

  /** The length of the word that s starts with. */
  function WordLen(s: string): (n: nat)
    ensures n <= |s|
  {
    if s == [] || Space(s[0]) || Symbol(s[0]) then 0 else 1 + WordLen(s[1..])
  }

  /** The tokens of a string. */
  function Lex(s: string): seq<Tok>
    decreases |s|
  {
    if s == [] then []
    else if Space(s[0]) then Lex(s[1..])
    else if s[0] == '>' && |s| > 1 && s[1] == '>' then [Sym('+')] + Lex(s[2..])
    else if Symbol(s[0]) then [Sym(s[0])] + Lex(s[1..])
    else [Word(s[..WordLen(s)])] + Lex(s[WordLen(s)..])
  }

  /** A token starts with one of the characters. */
  predicate StartsWith(t: Tok, toks: string) {
    t.Sym? && (if t.c == '+' then '>' else t.c) in toks
  }

  /** What gettoken returns: nothing at the end, else the token. */
  datatype Got = End | Token(t: Tok)

  method SkipSpace(s: string, i: nat) returns (j: nat)
    requires i <= |s|
    ensures i <= j <= |s| && Lex(s[j..]) == Lex(s[i..])
    ensures j < |s| ==> !Space(s[j])
  {
    j := i;
    while j < |s| && Space(s[j])
      invariant i <= j <= |s| && Lex(s[j..]) == Lex(s[i..])
    {
      assert s[j..][1..] == s[j + 1..];
      j := j + 1;
    }
  }

  /** The end of the word at k. */
  method SkipWord(s: string, k: nat) returns (j: nat)
    requires k <= |s|
    ensures k <= j <= |s| && j == k + WordLen(s[k..])
  {
    j := k;
    while j < |s| && !Space(s[j]) && !Symbol(s[j])
      invariant k <= j <= |s| && k + WordLen(s[k..]) == j + WordLen(s[j..])
    {
      assert s[j..][1..] == s[j + 1..];
      j := j + 1;
    }
  }

  /** gettoken: the first token from i, and the cursor behind it. */
  method GetToken(s: string, i: nat) returns (g: Got, j: nat)
    requires i <= |s|
    ensures i <= j <= |s|
    ensures g.End? <==> Lex(s[i..]) == []
    ensures g.Token? ==> i < j && Lex(s[i..]) == [g.t] + Lex(s[j..])
  {
    var k := SkipSpace(s, i);
    if k == |s| {
      return End, k;
    }
    j := k;
    if s[k] == '>' {
      j := k + 1;
      g := Token(Sym('>'));
      if j < |s| && s[j] == '>' {
        g := Token(Sym('+'));
        j := j + 1;
      }
    } else if Symbol(s[k]) {
      g := Token(Sym(s[k]));
      j := k + 1;
    } else {
      j := SkipWord(s, k);
      g := Token(Word(s[k..j]));
      assert s[k..][..j - k] == s[k..j];
    }
    assert s[k..][j - k..] == s[j..];
    assert j == k + 1 ==> s[k..][1..] == s[j..];
    assert j == k + 2 ==> s[k..][2..] == s[j..];
    j := SkipSpace(s, j);
  }

  /** peek: whether the next token starts with one of the characters. */
  method Peek(s: string, i: nat, toks: string) returns (b: bool, j: nat)
    requires i <= |s| && forall k :: 0 <= k < |toks| ==> Symbol(toks[k])
    ensures i <= j <= |s| && Lex(s[j..]) == Lex(s[i..])
    ensures b <==> Lex(s[i..]) != [] && StartsWith(Lex(s[i..])[0], toks)
    ensures j == |s| <==> Lex(s[i..]) == []
  {
    j := SkipSpace(s, i);
    b := j < |s| && s[j] in toks;
  }

  // ------------------------------------------------- the parser

  /** The outcome of a parsing method that leaves the cursor at j. */
  ghost predicate Agrees(res: Res, p: Parsed, s: string, j: nat)
    requires j <= |s|
  {
    match res
    case Ok(c, rest) => p == Tree(c) && Lex(s[j..]) == rest
    case Bad => p == Panic
  }

  method ParseRedirs(c: Cmd, s: string, i: nat) returns (p: Parsed, j: nat)
    requires i <= |s|
    ensures i <= j <= |s| && Agrees(Redirs(c, Lex(s[i..])), p, s, j)
  {
    var cmd := c;
    j := i;
    while true
      invariant i <= j <= |s|
      invariant Redirs(cmd, Lex(s[j..])) == Redirs(c, Lex(s[i..]))
      decreases |s| - j
    {
      ghost var ts := Lex(s[j..]);
      var b, k := Peek(s, j, "<>");
      if !b { return Tree(cmd), k; }
      var tok, file;
      tok, k := GetToken(s, k);
      assert Lex(s[k..]) == ts[1..];
      file, j := GetToken(s, k);
      if !file.Token? || !file.t.Word? { return Panic, j; }
      assert Lex(s[j..]) == ts[2..];
      cmd := Redir(cmd, file.t.w, ModeOf(tok.t));
    }
  }

  method ParseExec(s: string, i: nat) returns (p: Parsed, j: nat)
    requires i <= |s|
    ensures i <= j <= |s| && Agrees(ExecOf(Lex(s[i..])), p, s, j)
    decreases |s| - i, 1
  {
    var b, k := Peek(s, i, "(");
    if b {
      p, j := ParseBlock(s, k);
      return;
    }
    p, j := ParseRedirs(Exec([]), s, k);
    if p.Panic? { return; }
    p, j := ParseArgs(p.cmd, s, j);
  }

  /** One turn of the loop of parseexec: done at the end of the arguments or on a panic,
      else the command with one more argument. */
  method ParseArg(cmd: Cmd, argc: nat, s: string, i: nat) returns (done: bool, p: Parsed, j: nat)
    requires i <= |s|
    ensures i <= j <= |s|
    ensures done ==> Agrees(Args(cmd, argc, Lex(s[i..])), p, s, j)
    ensures !done ==> i < j && p.Tree? && argc + 1 < MAXARGS
    ensures !done ==> Args(cmd, argc, Lex(s[i..])) == Args(p.cmd, argc + 1, Lex(s[j..]))
  {
    ghost var ts := Lex(s[i..]);
    var b, k := Peek(s, i, "|)&;");
    if b { return true, Tree(cmd), k; }
    var tok;
    tok, k := GetToken(s, k);
    if tok.End? { return true, Tree(cmd), k; }
    if !tok.t.Word? { return true, Panic, k; }
    assert Lex(s[k..]) == ts[1..];
    if argc + 1 >= MAXARGS { return true, Panic, k; }
    p, j := ParseRedirs(AddArg(cmd, tok.t.w), s, k);
    done := p.Panic?;
  }

  /** The loop of parseexec over arguments. */
  method ParseArgs(c: Cmd, s: string, i: nat) returns (p: Parsed, j: nat)
    requires i <= |s|
    ensures i <= j <= |s| && Agrees(Args(c, 0, Lex(s[i..])), p, s, j)
  {
    var cmd, argc, done := c, 0, false;
    j := i;
    while true
      invariant i <= j <= |s|
      invariant Args(cmd, argc, Lex(s[j..])) == Args(c, 0, Lex(s[i..]))
      decreases |s| - j
    {
      done, p, j := ParseArg(cmd, argc, s, j);
      if done { return; }
      cmd, argc := p.cmd, argc + 1;
    }
  }

  method ParseBlock(s: string, i: nat) returns (p: Parsed, j: nat)
    requires i <= |s| && At(Lex(s[i..]), '(')
    ensures i <= j <= |s| && Agrees(Block(Lex(s[i..])), p, s, j)
    decreases |s| - i, 0
  {
    ghost var ts := Lex(s[i..]);
    var tok, k := GetToken(s, i);
    assert Lex(s[k..]) == ts[1..];
    p, j := ParseLine(s, k);
    if p.Panic? { return; }
    ghost var rest := Lex(s[j..]);
    var b;
    b, j := Peek(s, j, ")");
    if !b { return Panic, j; }
    tok, j := GetToken(s, j);
    assert Lex(s[j..]) == rest[1..];
    p, j := ParseRedirs(p.cmd, s, j);
  }

  method ParsePipe(s: string, i: nat) returns (p: Parsed, j: nat)
    requires i <= |s|
    ensures i <= j <= |s| && Agrees(PipeOf(Lex(s[i..])), p, s, j)
    decreases |s| - i, 2
  {
    p, j := ParseExec(s, i);
    if p.Panic? { return; }
    ghost var rest := Lex(s[j..]);
    var b;
    b, j := Peek(s, j, "|");
    if b {
      var tok;
      tok, j := GetToken(s, j);
      assert Lex(s[j..]) == rest[1..];
      var right;
      right, j := ParsePipe(s, j);
      p := if right.Panic? then Panic else Tree(Pipe(p.cmd, right.cmd));
    }
  }

  /** The loop of parseline over '&'. */
  method ParseBacks(c: Cmd, s: string, i: nat) returns (cmd: Cmd, j: nat)
    requires i <= |s|
    ensures i <= j <= |s| && Backs(c, Lex(s[i..])) == Ok(cmd, Lex(s[j..]))
  {
    cmd, j := c, i;
    while true
      invariant i <= j <= |s| && Backs(cmd, Lex(s[j..])) == Backs(c, Lex(s[i..]))
      decreases |s| - j
    {
      ghost var ts := Lex(s[j..]);
      var b, k := Peek(s, j, "&");
      if !b { return cmd, k; }
      var tok;
      tok, j := GetToken(s, k);
      assert Lex(s[j..]) == ts[1..];
      cmd := Back(cmd);
    }
  }

  method ParseLine(s: string, i: nat) returns (p: Parsed, j: nat)
    requires i <= |s|
    ensures i <= j <= |s| && Agrees(Line(Lex(s[i..])), p, s, j)
    decreases |s| - i, 4
  {
    p, j := ParsePipe(s, i);
    if p.Panic? { return; }
    var cmd;
    cmd, j := ParseBacks(p.cmd, s, j);
    ghost var rest := Lex(s[j..]);
    var b;
    b, j := Peek(s, j, ";");
    if !b { return Tree(cmd), j; }
    var tok, right;
    tok, j := GetToken(s, j);
    assert Lex(s[j..]) == rest[1..];
    right, j := ParseLine(s, j);
    p := if right.Panic? then Panic else Tree(List(cmd, right.cmd));
  }

  /** parsecmd: for every string the tree of its tokens, or a panic. */
  method ParseCmd(s: string) returns (p: Parsed)
    ensures p == Command(Lex(s))
  {
    assert s[0..] == s;
    var j, b;
    p, j := ParseLine(s, 0);
    if p.Panic? { return; }
    b, j := Peek(s, j, "");
    if j != |s| { return Panic; }
  }

  // ------------------------------------------------- printing as text

  /** A word the lexer can give back: not empty, no white space, no symbol. */
  predicate CleanWord(w: string) {
    w != [] && forall k :: 0 <= k < |w| ==> !Space(w[k]) && !Symbol(w[k])
  }

  predicate CleanTok(t: Tok) {
    match t
    case Word(w) => CleanWord(w)
    case Sym(c) => Symbol(c) || c == '+'
  }

  function ShowTok(t: Tok): string {
    match t
    case Word(w) => w
    case Sym(c) => if c == '+' then ">>" else [c]
  }

  /** The tokens with a space behind each. */
  function Render(ts: seq<Tok>): string {
    if ts == [] then "" else ShowTok(ts[0]) + " " + Render(ts[1..])
  }

  predicate CleanToks(ts: seq<Tok>) {
    forall k :: 0 <= k < |ts| ==> CleanTok(ts[k])
  }

  lemma {:induction false} WordLenClean(w: string, rest: string)
    requires forall k :: 0 <= k < |w| ==> !Space(w[k]) && !Symbol(w[k])
    ensures WordLen(w + " " + rest) == |w|
  {
    var s := w + " " + rest;
    if w != [] {
      WordLenClean(w[1..], rest);
      assert s[1..] == w[1..] + " " + rest;
    }
  }

  /** Reading one shown token. */
  lemma LexShown(t: Tok, rest: string)
    requires CleanTok(t)
    ensures Lex(ShowTok(t) + " " + rest) == [t] + Lex(rest)
  {
    var s := ShowTok(t) + " " + rest;
    var after := " " + rest;
    assert after[1..] == rest;
    match t
    case Word(w) =>
      WordLenClean(w, rest);
      assert s == w + after;
      assert s[..|w|] == w;
      assert s[|w|..] == after;
    case Sym(c) =>
      if c == '+' {
        assert s[2..] == after;
      } else {
        assert s[1..] == after;
      }
  }

  lemma {:induction false} LexRender(ts: seq<Tok>)
    requires CleanToks(ts)
    ensures Lex(Render(ts)) == ts
  {
    if ts != [] {
      LexRender(ts[1..]);
      LexShown(ts[0], Render(ts[1..]));
    }
  }

  predicate CleanCmd(t: Cmd) {
    match t
    case Exec(args) => forall k :: 0 <= k < |args| ==> CleanWord(args[k])
    case Redir(c, f, _) => CleanCmd(c) && CleanWord(f)
    case Pipe(l, r) => CleanCmd(l) && CleanCmd(r)
    case List(l, r) => CleanCmd(l) && CleanCmd(r)
    case Back(c) => CleanCmd(c)
  }

  lemma CleanConcat(a: seq<Tok>, b: seq<Tok>)
    requires CleanToks(a) && CleanToks(b)
    ensures CleanToks(a + b)
  {
  }

  lemma CleanParens(ts: seq<Tok>)
    requires CleanToks(ts)
    ensures CleanToks([Sym('(')] + ts + [Sym(')')])
  {
    CleanConcat([Sym('(')], ts);
    CleanConcat([Sym('(')] + ts, [Sym(')')]);
  }

  lemma {:induction false} CleanPrinted(t: Cmd)
    requires CleanCmd(t)
    ensures CleanToks(ExecToks(t)) && CleanToks(PipeToks(t)) && CleanToks(HeadToks(t)) && CleanToks(LineToks(t))
  {
    match t
    case Exec(args) =>
    case Redir(c, f, m) =>
      CleanPrinted(c);
      CleanConcat(ExecToks(c), [SymOf(m), Word(f)]);
    case Pipe(l, r) =>
      CleanPrinted(l);
      CleanPrinted(r);
      CleanConcat(ExecToks(l), [Sym('|')]);
      CleanConcat(ExecToks(l) + [Sym('|')], PipeToks(r));
      assert LineToks(t) == HeadToks(t) && HeadToks(t) == PipeToks(t);
      CleanParens(LineToks(t));
    case List(l, r) =>
      CleanPrinted(l);
      CleanPrinted(r);
      CleanConcat(HeadToks(l), [Sym(';')]);
      CleanConcat(HeadToks(l) + [Sym(';')], LineToks(r));
      CleanParens(LineToks(t));
      assert HeadToks(t) == PipeToks(t) && PipeToks(t) == ExecToks(t);
    case Back(c) =>
      CleanPrinted(c);
      CleanConcat(HeadToks(c), [Sym('&')]);
      assert LineToks(t) == HeadToks(t);
      CleanParens(LineToks(t));
  }

  /** Every tree of clean words with at most nine arguments a command is what the shell
      parses its printed text to. */
  lemma TextTrip(t: Cmd)
    requires FewArgs(t) && CleanCmd(t)
    ensures Command(Lex(Render(LineToks(t)))) == Tree(t)
  {
    CleanPrinted(t);
    LexRender(LineToks(t));
    RoundTrip(t);
  }
}
