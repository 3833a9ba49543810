/** The shell's command language: what the parser computes, as functions on the text still to be
    read, and the round trip from a command tree through its printed form. */
module ShellGrammar {
  datatype Mode = Read | Truncate | Append

  datatype Redirect<W> = Redirect(file: W, mode: Mode)

  datatype Cmd<W> =
    | Exec(argv: seq<W>)
    | Redir(cmd: Cmd<W>, to: Redirect<W>)
    | Pipe(left: Cmd<W>, right: Cmd<W>)
    | List(left: Cmd<W>, right: Cmd<W>)
    | Back(cmd: Cmd<W>)

  const MAXARGS := 10

  // ---------------------------------------------------------------- tokens

  predicate IsSpace(c: char) {
    c == ' ' || c == '\t' || c == '\r' || c == '\n' || c == '\U{b}'
  }

  predicate IsSymbol(c: char) {
    c == '<' || c == '|' || c == '>' || c == '&' || c == ';' || c == '(' || c == ')'
  }

  predicate IsWordChar(c: char) {
    !IsSpace(c) && !IsSymbol(c)
  }

  function Skip(t: string): (r: string)
    ensures |r| <= |t| && (r != [] ==> !IsSpace(r[0]))
  {
    if t != [] && IsSpace(t[0]) then Skip(t[1..]) else t
  }

  /** Length of the run of word characters t starts with. */
  function WordLength(t: string): (n: nat)
    ensures n <= |t| && (n < |t| ==> !IsWordChar(t[n]))
    ensures forall i :: 0 <= i < n ==> IsWordChar(t[i])
  {
    if t != [] && IsWordChar(t[0]) then 1 + WordLength(t[1..]) else 0
  }

  datatype Token = End | Symbol(c: char) | Double | Word(w: string)

  /** The next token, and the text after it and the white space that follows it. */
  function Next(t: string): (r: (Token, string))
    ensures |r.1| <= |t| && (r.0 != End ==> |r.1| < |t|)
    ensures r.0 == End <==> Skip(t) == []
  {
    var u := Skip(t);
    if u == [] then (End, u)
    else if u[0] == '>' && |u| > 1 && u[1] == '>' then (Double, Skip(u[2..]))
    else if IsSymbol(u[0]) then (Symbol(u[0]), Skip(u[1..]))
    else (Word(u[..WordLength(u)]), Skip(u[WordLength(u)..]))
  }

  predicate Peeks(t: string, toks: set<char>) {
    Skip(t) != [] && Skip(t)[0] in toks
  }

  // ---------------------------------------------------------------- parsing

  datatype Parsed<T> = Panic | Ok(value: T, rest: string)

  /** c inside the redirections rs, the first one innermost. */
  function Wrap<W>(c: Cmd<W>, rs: seq<Redirect<W>>): (r: Cmd<W>) {
    if rs == [] then c else Redir(Wrap(c, rs[..|rs| - 1]), rs[|rs| - 1])
  }

  function ModeOf(tok: Token): Mode {
    if tok == Symbol('<') then Read else if tok == Double then Append else Truncate
  }

  function Redirs(rs: seq<Redirect<string>>, t: string): (r: Parsed<seq<Redirect<string>>>)
    ensures r.Ok? ==> |r.rest| <= |t|
    decreases |t|
  {
    if Peeks(t, {'<', '>'}) then
      var (tok, u) := Next(t);
      var (file, v) := Next(u);
      if file.Word? then Redirs(rs + [Redirect(file.w, ModeOf(tok))], v) else Panic
    else Ok(rs, Skip(t))
  }

  /** The rest of a simple command: arguments and redirections in any order. */
  function Args(argv: seq<string>, rs: seq<Redirect<string>>, t: string): (r: Parsed<Cmd<string>>)
    ensures r.Ok? ==> |r.rest| <= |t|
    decreases |t|
  {
    if Peeks(t, {'|', ')', '&', ';'}) then Ok(Wrap(Exec(argv), rs), Skip(t))
    else
      var (tok, u) := Next(t);
      if tok == End then Ok(Wrap(Exec(argv), rs), u)
      else if !tok.Word? || |argv| + 1 >= MAXARGS then Panic
      else
        match Redirs(rs, u)
        case Panic => Panic
        case Ok(rs', v) => Args(argv + [tok.w], rs', v)
  }

  function ParseExec(t: string): (r: Parsed<Cmd<string>>)
    ensures r.Ok? ==> |r.rest| <= |t|
    decreases |t|, 0
  {
    if Peeks(t, {'('}) then
      var (_, u) := Next(t);
      match ParseLine(u)
      case Panic => Panic
      case Ok(c, v) =>
        if !Peeks(v, {')'}) then Panic
        else
          match Redirs([], Next(v).1)
          case Panic => Panic
          case Ok(rs, w) => Ok(Wrap(c, rs), w)
    else
      match Redirs([], t)
      case Panic => Panic
      case Ok(rs, u) => Args([], rs, u)
  }

  function ParsePipe(t: string): (r: Parsed<Cmd<string>>)
    ensures r.Ok? ==> |r.rest| <= |t|
    decreases |t|, 1
  {
    match ParseExec(t)
    case Panic => Panic
    case Ok(c, u) =>
      if Peeks(u, {'|'}) then
        match ParsePipe(Next(u).1)
        case Panic => Panic
        case Ok(d, v) => Ok(Pipe(c, d), v)
      else Ok(c, Skip(u))
  }

  function Backs(c: Cmd<string>, t: string): (r: (Cmd<string>, string))
    ensures |r.1| <= |t|
    decreases |t|
  {
    if Peeks(t, {'&'}) then Backs(Back(c), Next(t).1) else (c, Skip(t))
  }

  function ParseLine(t: string): (r: Parsed<Cmd<string>>)
    ensures r.Ok? ==> |r.rest| <= |t|
    decreases |t|, 2
  {
    match ParsePipe(t)
    case Panic => Panic
    case Ok(c, u) =>
      var (d, v) := Backs(c, u);
      if Peeks(v, {';'}) then
        match ParseLine(Next(v).1)
        case Panic => Panic
        case Ok(e, w) => Ok(List(d, e), w)
      else Ok(d, v)
  }

  /** parsecmd: the whole text is one command line. */
  function Parse(t: string): (r: Parsed<Cmd<string>>) {
    match ParseLine(t)
    case Panic => Panic
    case Ok(c, u) => if Skip(u) == [] then Ok(c, []) else Panic
  }

  // ---------------------------------------------------------------- printing

  predicate IsWord(w: string) {
    w != [] && forall i :: 0 <= i < |w| ==> IsWordChar(w[i])
  }

  /** Trees the parser's limits admit. */
  predicate Printable(c: Cmd<string>) {
    match c
    case Exec(argv) => |argv| < MAXARGS && forall i :: 0 <= i < |argv| ==> IsWord(argv[i])
    case Redir(d, to) => Printable(d) && IsWord(to.file)
    case Pipe(l, r) => Printable(l) && Printable(r)
    case List(l, r) => Printable(l) && Printable(r)
    case Back(d) => Printable(d)
  }

  function Spaced(argv: seq<string>): string {
    if argv == [] then [] else argv[0] + (if |argv| > 1 then " " + Spaced(argv[1..]) else [])
  }

  function Operator(mode: Mode): string {
    match mode
    case Read => "<"
    case Truncate => ">"
    case Append => ">>"
  }

  /** Every subcommand in parentheses. */
  function Print(c: Cmd<string>): string {
    match c
    case Exec(argv) => Spaced(argv)
    case Redir(d, to) => "(" + Print(d) + ")" + Operator(to.mode) + to.file
    case Pipe(l, r) => "(" + Print(l) + ")|(" + Print(r) + ")"
    case List(l, r) => "(" + Print(l) + ");(" + Print(r) + ")"
    case Back(d) => "(" + Print(d) + ")&"
  }

  // ---------------------------------------------------------------- round trip

  /** Text at which white space skipping stops. */
  predicate Tight(t: string) {
    t == [] || !IsSpace(t[0])
  }

  /** Text at which a command line ends. */
  predicate Closed(t: string) {
    t == [] || t[0] == ')'
  }

  /** Text after a command that is not a redirection of it. */
  predicate Plain(t: string) {
    Tight(t) && (t == [] || (t[0] != '<' && t[0] != '>'))
  }

  lemma SkipTight(t: string)
    requires Tight(t)
    ensures Skip(t) == t
  {
  }

  lemma SkipBlank(t: string)
    requires Tight(t)
    ensures Skip([' '] + t) == t
  {
    assert ([' '] + t)[1..] == t;
    SkipTight(t);
  }

  lemma {:induction false} WordRun(w: string, t: string)
    requires (forall i :: 0 <= i < |w| ==> IsWordChar(w[i])) && (t == [] || !IsWordChar(t[0]))
    ensures WordLength(w + t) == |w|
  {
    if w == [] {
      assert w + t == t;
    } else {
      assert (w + t)[1..] == w[1..] + t;
      WordRun(w[1..], t);
    }
  }

  lemma NextWord(w: string, t: string)
    requires IsWord(w) && (t == [] || !IsWordChar(t[0]))
    ensures Next(w + t) == (Word(w), Skip(t))
  {
    hide Skip, WordLength;
    SkipTight(w + t);
    WordRun(w, t);
    assert (w + t)[..|w|] == w && (w + t)[|w|..] == t;
  }

  lemma NextSymbol(c: char, t: string)
    requires IsSymbol(c) && Tight(t) && !(c == '>' && t != [] && t[0] == '>')
    ensures Next([c] + t) == (Symbol(c), t)
  {
    hide Skip;
    SkipTight([c] + t);
    SkipTight(t);
    assert ([c] + t)[1..] == t;
  }

  lemma NextDouble(t: string)
    requires Tight(t)
    ensures Next(">>" + t) == (Double, t)
  {
    hide Skip;
    SkipTight(">>" + t);
    SkipTight(t);
    assert (">>" + t)[2..] == t;
  }

  lemma Seen(t: string, toks: set<char>)
    requires Peeks(t, toks)
    ensures |Next(t).1| < |t|
  {
  }

  lemma NoRedirs(rs: seq<Redirect<string>>, t: string)
    requires Plain(t)
    ensures Redirs(rs, t) == Ok(rs, t)
  {
    hide Skip;
    SkipTight(t);
  }

  lemma ArgsStep(done: seq<string>, rs: seq<Redirect<string>>, t: string, w: string, u: string,
                 rs': seq<Redirect<string>>, v: string)
    requires !Peeks(t, {'|', ')', '&', ';'}) && Next(t) == (Word(w), u) && |done| + 1 < MAXARGS
      && Redirs(rs, u) == Ok(rs', v)
    ensures Args(done, rs, t) == Args(done + [w], rs', v)
  {
    hide Skip, Next, Redirs, Peeks;
  }

  /** The three ways the argument loop ends. */
  lemma ArgsEnds(done: seq<string>, rs: seq<Redirect<string>>, t: string)
    ensures Peeks(t, {'|', ')', '&', ';'}) ==> Args(done, rs, t) == Ok(Wrap(Exec(done), rs), Skip(t))
    ensures !Peeks(t, {'|', ')', '&', ';'}) && Next(t).0 == End ==>
      Args(done, rs, t) == Ok(Wrap(Exec(done), rs), Next(t).1)
    ensures !Peeks(t, {'|', ')', '&', ';'}) && Next(t).0 != End ==>
      (!Next(t).0.Word? || |done| + 1 >= MAXARGS || Redirs(rs, Next(t).1) == Panic ==> Args(done, rs, t) == Panic)
  {
    hide Skip, Next, Redirs, Peeks, Wrap;
  }

  lemma ArgsStop(done: seq<string>, t: string)
    requires Closed(t)
    ensures Args(done, [], t) == Ok(Exec(done), t)
  {
    hide Next;
    SkipTight(t);
    EndOfText();
  }

  lemma {:induction false} ArgsRoundTrip(done: seq<string>, argv: seq<string>, t: string)
    requires |done| + |argv| < MAXARGS && Closed(t) && forall i :: 0 <= i < |argv| ==> IsWord(argv[i])
    ensures Args(done, [], Spaced(argv) + t) == Ok(Exec(done + argv), t)
    decreases |argv|
  {
    hide Skip, Next, Redirs, Args;
    if argv == [] {
      assert Spaced(argv) + t == t && done + argv == done;
      ArgsStop(done, t);
    } else {
      var more := if |argv| > 1 then " " + Spaced(argv[1..]) else [];
      var u, v := more + t, Spaced(argv[1..]) + t;
      assert Spaced(argv) + t == argv[0] + u;
      SkipTight(argv[0] + u);
      AfterWord(argv, t);
      NextWord(argv[0], u);
      NoRedirs([], v);
      ArgsStep(done, [], argv[0] + u, argv[0], v, [], v);
      ArgsRoundTrip(done + [argv[0]], argv[1..], t);
      assert done + [argv[0]] + argv[1..] == done + argv;
    }
  }

  lemma EndOfText()
    ensures Next([]) == (End, [])
  {
  }

  /** After the first argument come a blank and the other arguments, or what follows the command. */
  lemma AfterWord(argv: seq<string>, t: string)
    requires |argv| > 0 && Closed(t) && forall i :: 0 <= i < |argv| ==> IsWord(argv[i])
    ensures var more := if |argv| > 1 then " " + Spaced(argv[1..]) else [];
      && Skip(more + t) == Spaced(argv[1..]) + t && Plain(Spaced(argv[1..]) + t)
      && (more + t == [] || !IsWordChar((more + t)[0]))
  {
    hide Skip;
    var v := Spaced(argv[1..]) + t;
    if |argv| > 1 {
      assert v[0] == argv[1][0];
      assert " " + Spaced(argv[1..]) + t == [' '] + v;
      SkipBlank(v);
    } else {
      assert v == t;
      SkipTight(t);
    }
  }

  /** A parenthesised command with nothing to do with redirection after it. */
  lemma BlockRoundTrip(d: Cmd<string>, t: string)
    requires Plain(t) && Tight(Print(d) + ")") && ParseLine(Print(d) + ")" + t) == Ok(d, ")" + t)
    ensures ParseExec("(" + Print(d) + ")" + t) == Ok(d, t)
  {
    hide Skip, Next, Redirs, ParseLine, Print;
    var u := Print(d) + ")" + t;
    assert "(" + Print(d) + ")" + t == "(" + u;
    assert Tight(u);
    SkipTight("(" + u);
    NextSymbol('(', u);
    SkipTight(")" + t);
    NextSymbol(')', t);
    NoRedirs([], t);
  }

  lemma RedirRoundTrip(d: Cmd<string>, to: Redirect<string>, t: string)
    requires IsWord(to.file) && Closed(t) && Tight(Print(d) + ")")
    requires var r := Operator(to.mode) + (to.file + t); ParseLine(Print(d) + ")" + r) == Ok(d, ")" + r)
    ensures ParseExec("(" + Print(d) + ")" + (Operator(to.mode) + (to.file + t))) == Ok(Redir(d, to), t)
  {
    hide Skip, Next, Redirs, ParseLine, Print;
    var r := Operator(to.mode) + (to.file + t);
    var u := Print(d) + ")" + r;
    assert "(" + Print(d) + ")" + r == "(" + u;
    assert Tight(u) && Tight(r);
    SkipTight("(" + u);
    NextSymbol('(', u);
    SkipTight(")" + r);
    NextSymbol(')', r);
    OneRedir(to, t);
    assert Wrap(d, [to]) == Redir(d, to);
  }

  lemma RedirStep(rs: seq<Redirect<string>>, t: string, tok: Token, u: string, w: string, v: string)
    requires Peeks(t, {'<', '>'}) && Next(t) == (tok, u) && Next(u) == (Word(w), v)
    ensures Redirs(rs, t) == Redirs(rs + [Redirect(w, ModeOf(tok))], v)
  {
    hide Next, Peeks, ModeOf;
  }

  lemma RedirFails(rs: seq<Redirect<string>>, t: string)
    requires Peeks(t, {'<', '>'}) && !Next(Next(t).1).0.Word?
    ensures Redirs(rs, t) == Panic
  {
    hide Next, Peeks;
  }

  lemma RedirStops(rs: seq<Redirect<string>>, t: string)
    requires !Peeks(t, {'<', '>'})
    ensures Redirs(rs, t) == Ok(rs, Skip(t))
  {
    hide Next, Peeks;
  }

  lemma OperatorNext(mode: Mode, f: string)
    requires f != [] && IsWordChar(f[0])
    ensures Peeks(Operator(mode) + f, {'<', '>'})
    ensures Next(Operator(mode) + f).1 == f && ModeOf(Next(Operator(mode) + f).0) == mode
  {
    hide Skip, Next;
    SkipTight(Operator(mode) + f);
    match mode
    case Read => NextSymbol('<', f);
    case Truncate => NextSymbol('>', f);
    case Append => NextDouble(f);
  }

  lemma OneRedir(to: Redirect<string>, t: string)
    requires IsWord(to.file) && Closed(t)
    ensures Redirs([], Operator(to.mode) + (to.file + t)) == Ok([to], t)
  {
    hide Skip, Next, Redirs, Operator, ModeOf, Peeks;
    var f := to.file + t;
    assert f[0] == to.file[0];
    OperatorNext(to.mode, f);
    NextWord(to.file, t);
    SkipTight(t);
    var r := Operator(to.mode) + f;
    RedirStep([], r, Next(r).0, f, to.file, t);
    assert [] + [to] == [to];
    NoRedirs([to], t);
  }

  /** Printed text begins with a word, a parenthesis, or is empty. */
  lemma PrintTight(c: Cmd<string>, t: string)
    requires Printable(c) && Closed(t)
    ensures Tight(Print(c) + t)
  {
    if c.Exec? && c.argv != [] {
      assert (Print(c) + t)[0] == c.argv[0][0];
    } else if !c.Exec? {
      assert (Print(c) + t)[0] == '(';
    } else {
      assert Print(c) + t == t;
    }
  }

  lemma PipeStep(s: string, c: Cmd<string>, u: string, v: string, d: Cmd<string>, w: string)
    requires ParseExec(s) == Ok(c, u) && Peeks(u, {'|'}) && Next(u).1 == v && ParsePipe(v) == Ok(d, w)
    ensures ParsePipe(s) == Ok(Pipe(c, d), w)
  {
    hide Skip, Next, ParseExec, Peeks;
  }

  lemma NoPipe(s: string, c: Cmd<string>, u: string)
    requires ParseExec(s) == Ok(c, u) && Tight(u) && (u == [] || u[0] != '|')
    ensures ParsePipe(s) == Ok(c, u)
  {
    hide Skip, Next, ParseExec;
    SkipTight(u);
  }

  lemma ListStep(s: string, c: Cmd<string>, u: string, v: string, d: Cmd<string>, w: string)
    requires ParsePipe(s) == Ok(c, u) && Backs(c, u) == (c, u) && Peeks(u, {';'}) && Next(u).1 == v
      && ParseLine(v) == Ok(d, w)
    ensures ParseLine(s) == Ok(List(c, d), w)
  {
    hide Skip, Next, ParsePipe, Peeks, Backs;
  }

  lemma NoList(s: string, c: Cmd<string>, u: string, d: Cmd<string>, t: string)
    requires ParsePipe(s) == Ok(c, u) && Backs(c, u) == (d, t) && Tight(t) && (t == [] || t[0] != ';')
    ensures ParseLine(s) == Ok(d, t)
  {
    hide Skip, Next, ParsePipe, Backs;
    SkipTight(t);
  }

  lemma NoBacks(c: Cmd<string>, u: string)
    requires Tight(u) && (u == [] || u[0] != '&')
    ensures Backs(c, u) == (c, u)
  {
    hide Skip, Next;
    SkipTight(u);
  }

  /** A command that ends a line: no pipe, background mark or semicolon follows. */
  lemma LastOnLine(c: Cmd<string>, s: string, t: string)
    requires Closed(t) && ParseExec(s) == Ok(c, t)
    ensures ParsePipe(s) == Ok(c, t) && ParseLine(s) == Ok(c, t)
  {
    hide Skip, Next, ParseExec, ParsePipe, ParseLine, Backs;
    NoPipe(s, c, t);
    NoBacks(c, t);
    NoList(s, c, t, c, t);
  }

  lemma {:induction false} LineRoundTrip(c: Cmd<string>, t: string)
    requires Printable(c) && Closed(t)
    ensures ParseLine(Print(c) + t) == Ok(c, t)
    decreases c
  {
    hide Skip, Next, Redirs, ParseExec, ParsePipe, ParseLine, Args;
    match c
    case Exec(argv) => ExecRoundTrip(argv, t);
    case Redir(d, to) =>
      var r := Operator(to.mode) + (to.file + t);
      LineRoundTrip(d, ")" + r);
      assert Print(d) + (")" + r) == Print(d) + ")" + r;
      PrintTight(d, ")");
      RedirRoundTrip(d, to, t);
      assert Print(c) + t == "(" + Print(d) + ")" + r;
      LastOnLine(c, Print(c) + t, t);
    case Pipe(l, r) =>
      LineRoundTrip(l, ")" + ("|" + ("(" + Print(r) + ")" + t)));
      LineRoundTrip(r, ")" + t);
      PipeRoundTrip(l, r, t);
    case List(l, r) =>
      LineRoundTrip(l, ")" + (";" + ("(" + Print(r) + ")" + t)));
      LineRoundTrip(r, ")" + t);
      ListRoundTrip(l, r, t);
    case Back(d) =>
      LineRoundTrip(d, ")" + ("&" + t));
      BackRoundTrip(d, t);
  }

  lemma ExecRoundTrip(argv: seq<string>, t: string)
    requires Printable(Exec(argv)) && Closed(t)
    ensures ParseLine(Spaced(argv) + t) == Ok(Exec(argv), t)
  {
    hide Skip, Next, Redirs, Args;
    var s := Spaced(argv) + t;
    PrintTight(Exec(argv), t);
    assert argv != [] ==> s[0] == argv[0][0];
    assert argv == [] ==> s == t;
    SkipTight(s);
    NoRedirs([], s);
    ArgsRoundTrip([], argv, t);
    assert [] + argv == argv;
    LastOnLine(Exec(argv), s, t);
  }

  lemma PipeRoundTrip(l: Cmd<string>, r: Cmd<string>, t: string)
    requires Printable(l) && Printable(r) && Closed(t)
    requires var u := "|" + ("(" + Print(r) + ")" + t); ParseLine(Print(l) + (")" + u)) == Ok(l, ")" + u)
    requires ParseLine(Print(r) + (")" + t)) == Ok(r, ")" + t)
    ensures ParseLine(Print(Pipe(l, r)) + t) == Ok(Pipe(l, r), t)
  {
    hide Skip, Next, Redirs, ParseExec, ParsePipe, ParseLine, Backs, Args, Print;
    var v := "(" + Print(r) + ")" + t;
    var u := "|" + v;
    PrintTight(l, ")");
    PrintTight(r, ")");
    assert Print(l) + (")" + u) == Print(l) + ")" + u;
    assert Print(r) + (")" + t) == Print(r) + ")" + t;
    BlockRoundTrip(l, u);
    BlockRoundTrip(r, t);
    LastOnLine(r, v, t);
    SkipTight(u);
    NextSymbol('|', v);
    PipeText(l, r, t);
    var s := "(" + Print(l) + ")" + u;
    PipeStep(s, l, u, v, r, t);
    NoBacks(Pipe(l, r), t);
    NoList(s, Pipe(l, r), t, Pipe(l, r), t);
  }

  lemma PipeText(l: Cmd<string>, r: Cmd<string>, t: string)
    ensures Print(Pipe(l, r)) + t == "(" + Print(l) + ")" + ("|" + ("(" + Print(r) + ")" + t))
    ensures Print(List(l, r)) + t == "(" + Print(l) + ")" + (";" + ("(" + Print(r) + ")" + t))
    ensures Print(Back(l)) + t == "(" + Print(l) + ")" + ("&" + t)
  {
    TwoText(Print(l), '|', Print(r), t);
    TwoText(Print(l), ';', Print(r), t);
    OneText(Print(l), t);
    assert ")|(" == [')', '|', '('] && ");(" == [')', ';', '('];
    assert Print(Pipe(l, r)) == "(" + Print(l) + ")|(" + Print(r) + ")";
    assert Print(List(l, r)) == "(" + Print(l) + ");(" + Print(r) + ")";
    assert Print(Back(l)) == "(" + Print(l) + ")&";
    hide Print;
  }

  lemma TwoText(a: string, c: char, b: string, t: string)
    ensures "(" + a + [')', c, '('] + b + ")" + t == "(" + a + ")" + ([c] + ("(" + b + ")" + t))
  {
  }

  lemma OneText(a: string, t: string)
    ensures "(" + a + ")&" + t == "(" + a + ")" + ("&" + t)
  {
  }

  lemma ListRoundTrip(l: Cmd<string>, r: Cmd<string>, t: string)
    requires Printable(l) && Printable(r) && Closed(t)
    requires var u := ";" + ("(" + Print(r) + ")" + t); ParseLine(Print(l) + (")" + u)) == Ok(l, ")" + u)
    requires ParseLine(Print(r) + (")" + t)) == Ok(r, ")" + t)
    ensures ParseLine(Print(List(l, r)) + t) == Ok(List(l, r), t)
  {
    hide Skip, Next, Redirs, ParseExec, ParsePipe, ParseLine, Backs, Args, Print;
    var v := "(" + Print(r) + ")" + t;
    var u := ";" + v;
    PrintTight(l, ")");
    PrintTight(r, ")");
    assert Print(l) + (")" + u) == Print(l) + ")" + u;
    assert Print(r) + (")" + t) == Print(r) + ")" + t;
    BlockRoundTrip(l, u);
    BlockRoundTrip(r, t);
    LastOnLine(r, v, t);
    SkipTight(u);
    NextSymbol(';', v);
    PipeText(l, r, t);
    var s := "(" + Print(l) + ")" + u;
    NoPipe(s, l, u);
    NoBacks(l, u);
    ListStep(s, l, u, v, r, t);
  }

  lemma BackRoundTrip(d: Cmd<string>, t: string)
    requires Printable(d) && Closed(t) && ParseLine(Print(d) + (")" + ("&" + t))) == Ok(d, ")" + ("&" + t))
    ensures ParseLine(Print(Back(d)) + t) == Ok(Back(d), t)
  {
    hide Skip, Next, Redirs, ParseExec, ParsePipe, ParseLine, Backs, Args, Print;
    var u := "&" + t;
    PrintTight(d, ")");
    assert Print(d) + (")" + u) == Print(d) + ")" + u;
    BlockRoundTrip(d, u);
    SkipTight(u);
    NextSymbol('&', t);
    PipeText(d, d, t);
    var s := "(" + Print(d) + ")" + u;
    NoPipe(s, d, u);
    BackStep(d, u, t);
    NoBacks(Back(d), t);
    NoList(s, d, u, Back(d), t);
  }

  lemma BacksStop(c: Cmd<string>, u: string)
    requires !Peeks(u, {'&'})
    ensures Backs(c, u) == (c, Skip(u))
  {
    hide Skip, Next, Peeks;
  }

  lemma BackStep(c: Cmd<string>, u: string, t: string)
    requires Peeks(u, {'&'}) && Next(u).1 == t
    ensures Backs(c, u) == Backs(Back(c), t)
  {
    hide Skip, Next, Peeks;
  }

  /** Parsing the fully parenthesised form of any tree within the parser's limits gives it back. */
  lemma ParsePrint(c: Cmd<string>)
    requires Printable(c)
    ensures Parse(Print(c)) == Ok(c, [])
  {
    hide ParseLine, Print;
    LineRoundTrip(c, []);
    assert Print(c) + [] == Print(c);
  }
}
