/** The shell's command language written down as a grammar over tokens, with a meaning for every
    derivation, and the proof that the parser accepts exactly that language with that meaning. */
module ShellSyntax {
  import opened Options
  import opened ShellGrammar

  // ---------------------------------------------------------------- the grammar

  /** line: a pipeline, any number of ampersands, and possibly a semicolon and another line. */
  datatype Line = Line(pipe: Pipeline, amps: nat, more: Option<Line>)

  datatype Pipeline = Last(cmd: Command) | Piped(cmd: Command, rest: Pipeline)

  /** A parenthesised line with redirections behind it, or words and redirections in any order. */
  datatype Command = Block(line: Line, redirs: seq<Redirect<string>>) | Simple(items: seq<Item>)

  datatype Item = Arg(w: string) | To(r: Redirect<string>)

  /** At most nine words to a command. */
  predicate FineLine(l: Line) {
    FinePipe(l.pipe) && (l.more.Some? ==> FineLine(l.more.value))
  }

  predicate FinePipe(p: Pipeline) {
    FineCommand(p.cmd) && (p.Piped? ==> FinePipe(p.rest))
  }

  predicate FineCommand(c: Command) {
    match c
    case Block(l, _) => FineLine(l)
    case Simple(items) => |Words(items)| <= 9
  }

  function Words(items: seq<Item>): (ws: seq<string>) {
    if items == [] then [] else (if items[0].Arg? then [items[0].w] else []) + Words(items[1..])
  }

  function Files(items: seq<Item>): (rs: seq<Redirect<string>>) {
    if items == [] then [] else (if items[0].To? then [items[0].r] else []) + Files(items[1..])
  }

  // ---------------------------------------------------------------- what a derivation spells

  function OperatorToken(mode: Mode): Token {
    match mode
    case Read => Symbol('<')
    case Truncate => Symbol('>')
    case Append => Double
  }

  function ToTokens(r: Redirect<string>): (ts: seq<Token>) {
    [OperatorToken(r.mode), Word(r.file)]
  }

  function RedirTokens(rs: seq<Redirect<string>>): (ts: seq<Token>) {
    if rs == [] then [] else ToTokens(rs[0]) + RedirTokens(rs[1..])
  }

  function ItemTokens(items: seq<Item>): (ts: seq<Token>) {
    if items == [] then []
    else (if items[0].Arg? then [Word(items[0].w)] else ToTokens(items[0].r)) + ItemTokens(items[1..])
  }

  function LineTokens(l: Line): (ts: seq<Token>) {
    PipeTokens(l.pipe) + Amps(l.amps) + if l.more.Some? then [Symbol(';')] + LineTokens(l.more.value) else []
  }

  function Amps(n: nat): (ts: seq<Token>) {
    if n == 0 then [] else [Symbol('&')] + Amps(n - 1)
  }

  function PipeTokens(p: Pipeline): (ts: seq<Token>) {
    match p
    case Last(c) => CommandTokens(c)
    case Piped(c, rest) => CommandTokens(c) + [Symbol('|')] + PipeTokens(rest)
  }

  function CommandTokens(c: Command): (ts: seq<Token>) {
    match c
    case Block(l, rs) => [Symbol('(')] + LineTokens(l) + [Symbol(')')] + RedirTokens(rs)
    case Simple(items) => ItemTokens(items)
  }

  // ---------------------------------------------------------------- what a derivation means

  /** Redirections apply in the order written: each goes around all before it. */
  function Nest(c: Cmd<string>, rs: seq<Redirect<string>>): (r: Cmd<string>)
    decreases |rs|
  {
    if rs == [] then c else Nest(Redir(c, rs[0]), rs[1..])
  }

  function Backed(c: Cmd<string>, n: nat): (r: Cmd<string>) {
    if n == 0 then c else Back(Backed(c, n - 1))
  }

  function LineMeaning(l: Line): (c: Cmd<string>) {
    var c := Backed(PipeMeaning(l.pipe), l.amps);
    if l.more.Some? then List(c, LineMeaning(l.more.value)) else c
  }

  function PipeMeaning(p: Pipeline): (c: Cmd<string>) {
    match p
    case Last(c) => CommandMeaning(c)
    case Piped(c, rest) => Pipe(CommandMeaning(c), PipeMeaning(rest))
  }

  function CommandMeaning(c: Command): (r: Cmd<string>) {
    match c
    case Block(l, rs) => Nest(LineMeaning(l), rs)
    case Simple(items) => Nest(Exec(Words(items)), Files(items))
  }

  lemma {:induction false} NestSnoc(c: Cmd<string>, rs: seq<Redirect<string>>, r: Redirect<string>)
    ensures Nest(c, rs + [r]) == Redir(Nest(c, rs), r)
    decreases |rs|
  {
    if rs == [] {
      assert rs + [r] == [r];
      assert Nest(Redir(c, r), []) == Redir(c, r);
    } else {
      assert (rs + [r])[1..] == rs[1..] + [r];
      NestSnoc(Redir(c, rs[0]), rs[1..], r);
    }
  }

  lemma {:induction false} WrapNests(c: Cmd<string>, rs: seq<Redirect<string>>)
    ensures Wrap(c, rs) == Nest(c, rs)
    decreases |rs|
  {
    if rs != [] {
      var n := |rs| - 1;
      WrapNests(c, rs[..n]);
      NestSnoc(c, rs[..n], rs[n]);
      assert rs[..n] + [rs[n]] == rs;
    }
  }

  // ---------------------------------------------------------------- the tokens of a text

  function Tokens(t: string): (ts: seq<Token>)
    decreases |t|
  {
    var (tok, u) := Next(t);
    if tok == End then [] else [tok] + Tokens(u)
  }

  /** The tokens start with a symbol that begins with one of these characters. */
  predicate Starts(ts: seq<Token>, cs: set<char>) {
    ts != [] && match ts[0] case Symbol(c) => c in cs case Double => '>' in cs case _ => false
  }

  lemma SkipTwice(t: string)
    ensures Skip(Skip(t)) == Skip(t)
  {
    SkipTight(Skip(t));
  }

  lemma TokensSkip(t: string)
    ensures Next(Skip(t)) == Next(t) && Tokens(Skip(t)) == Tokens(t)
  {
    SkipTwice(t);
  }

  lemma TokensNext(t: string)
    ensures Tokens(t) == [] <==> Next(t).0 == End
    ensures Next(t).0 != End ==> Tokens(t) == [Next(t).0] + Tokens(Next(t).1)
    ensures Tokens(t) == [] ==> Skip(t) == []
  {
  }

  lemma TokensPeek(t: string, cs: set<char>)
    requires cs <= {'<', '>', '|', ')', '(', '&', ';'}
    ensures Peeks(t, cs) <==> Starts(Tokens(t), cs)
  {
    hide Skip;
    TokensNext(t);
  }

  // ---------------------------------------------------------------- every derivation is parsed

  lemma {:induction false} RedirsParsed(rs: seq<Redirect<string>>, more: seq<Redirect<string>>, t: string,
                                        rest: seq<Token>)
    requires Tokens(t) == RedirTokens(more) + rest && !Starts(rest, {'<', '>'})
    ensures Redirs(rs, t).Ok? && Redirs(rs, t).value == rs + more && Tokens(Redirs(rs, t).rest) == rest
    decreases |more|
  {
    hide Skip, Next, Redirs, Peeks;
    TokensPeek(t, {'<', '>'});
    if more == [] {
      RedirStops(rs, t);
      TokensSkip(t);
      assert rs + more == rs;
    } else {
      TokensNext(t);
      var (tok, u) := Next(t);
      assert Tokens(u) == [Word(more[0].file)] + (RedirTokens(more[1..]) + rest) by {
        assert Tokens(t)[1..] == Tokens(u);
      }
      TokensNext(u);
      var v := Next(u).1;
      assert Tokens(v) == RedirTokens(more[1..]) + rest by {
        assert Tokens(u)[1..] == Tokens(v);
      }
      RedirStep(rs, t, tok, u, more[0].file, v);
      assert Redirect(more[0].file, ModeOf(tok)) == more[0];
      RedirsParsed(rs + [more[0]], more[1..], v, rest);
      assert rs + [more[0]] + more[1..] == rs + more;
    }
  }

  lemma Uncons(t: string, x: Token, ts: seq<Token>)
    requires Tokens(t) == [x] + ts
    ensures Next(t).0 == x && Tokens(Next(t).1) == ts && x != End
  {
    hide Next;
    TokensNext(t);
    assert Tokens(t)[1..] == ts;
  }

  lemma Assoc<T>(a: seq<T>, b: seq<T>, c: seq<T>)
    ensures (a + b) + c == a + (b + c)
  {
  }

  /** The redirections items begins with, and what comes after them. */
  function Lead(items: seq<Item>): (rs: seq<Redirect<string>>) {
    if items != [] && items[0].To? then [items[0].r] + Lead(items[1..]) else []
  }

  function Behind(items: seq<Item>): (more: seq<Item>)
    ensures |more| <= |items| && (more == [] || more[0].Arg?)
  {
    if items != [] && items[0].To? then Behind(items[1..]) else items
  }

  lemma {:induction false} LeadSplit(items: seq<Item>)
    ensures ItemTokens(items) == RedirTokens(Lead(items)) + ItemTokens(Behind(items))
    ensures Files(items) == Lead(items) + Files(Behind(items)) && Words(items) == Words(Behind(items))
  {
    if items != [] && items[0].To? {
      LeadSplit(items[1..]);
      var r, lead, behind := items[0].r, Lead(items[1..]), Behind(items[1..]);
      assert ([r] + lead)[1..] == lead;
      assert RedirTokens([r] + lead) == ToTokens(r) + RedirTokens(lead);
      hide RedirTokens, ToTokens, Behind;
      Assoc(ToTokens(r), RedirTokens(lead), ItemTokens(behind));
      Assoc([r], lead, Files(behind));
    }
  }

  /** Nothing that could continue a simple command. */
  predicate Stops(rest: seq<Token>) {
    rest == [] || Starts(rest, {'|', ')', '&', ';'})
  }

  lemma StopsTokens(rest: seq<Token>, items: seq<Item>)
    requires Stops(rest) && (items == [] || items[0].Arg?)
    ensures !Starts(ItemTokens(items) + rest, {'<', '>'})
  {
  }

  lemma {:induction false} ArgsParsed(argv: seq<string>, rs: seq<Redirect<string>>, items: seq<Item>, t: string,
                                      rest: seq<Token>)
    requires Tokens(t) == ItemTokens(items) + rest && Stops(rest) && (items == [] || items[0].Arg?)
    requires |argv| + |Words(items)| < MAXARGS
    ensures var r := Args(argv, rs, t);
      r.Ok? && r.value == Wrap(Exec(argv + Words(items)), rs + Files(items)) && Tokens(r.rest) == rest
    decreases |items|
  {
    hide Skip, Next, Redirs, Peeks, Args, Wrap, Stops, ItemTokens, Tokens, Lead, Behind;
    if items == [] {
      assert argv + Words(items) == argv && rs + Files(items) == rs;
      NoItems(rest);
      ArgsDone(argv, rs, t);
    } else {
      var w, more := items[0].w, items[1..];
      assert Words(items) == [w] + Words(more) && Files(items) == Files(more);
      LeadSplit(more);
      var v := OneMore(argv, rs, items, t, rest);
      hide Files, Words;
      ArgsParsed(argv + [w], rs + Lead(more), Behind(more), v, rest);
      Assoc(argv, [w], Words(Behind(more)));
      Assoc(rs, Lead(more), Files(Behind(more)));
    }
  }

  lemma NoItems(rest: seq<Token>)
    ensures ItemTokens([]) + rest == rest
  {
  }

  lemma FirstWord(items: seq<Item>, rest: seq<Token>)
    requires items != [] && items[0].Arg?
    ensures ItemTokens(items) + rest
         == [Word(items[0].w)] + (RedirTokens(Lead(items[1..])) + (ItemTokens(Behind(items[1..])) + rest))
  {
    LeadSplit(items[1..]);
    assert ItemTokens(items) == [Word(items[0].w)] + ItemTokens(items[1..]);
    hide ItemTokens, RedirTokens, Lead, Behind;
    Assoc([Word(items[0].w)], ItemTokens(items[1..]), rest);
    Assoc(RedirTokens(Lead(items[1..])), ItemTokens(Behind(items[1..])), rest);
  }

  /** One round of the argument loop: a word and the redirections behind it. */
  lemma OneMore(argv: seq<string>, rs: seq<Redirect<string>>, items: seq<Item>, t: string, rest: seq<Token>)
    returns (v: string)
    requires Tokens(t) == ItemTokens(items) + rest && Stops(rest) && items != [] && items[0].Arg?
    requires |argv| + 1 < MAXARGS
    ensures Tokens(v) == ItemTokens(Behind(items[1..])) + rest
    ensures Args(argv, rs, t) == Args(argv + [items[0].w], rs + Lead(items[1..]), v)
  {
    hide Skip, Next, Redirs, Peeks, Args, ItemTokens, RedirTokens, Stops, Tokens, Lead, Behind;
    var w, more := items[0].w, items[1..];
    var ts := RedirTokens(Lead(more)) + (ItemTokens(Behind(more)) + rest);
    FirstWord(items, rest);
    StopsTokens(rest, Behind(more));
    TokensPeek(t, {'|', ')', '&', ';'});
    Uncons(t, Word(w), ts);
    var u := Next(t).1;
    RedirsParsed(rs, Lead(more), u, ItemTokens(Behind(more)) + rest);
    v := Redirs(rs, u).rest;
    ArgsStep(argv, rs, t, w, u, rs + Lead(more), v);
  }

  lemma ArgsDone(argv: seq<string>, rs: seq<Redirect<string>>, t: string)
    requires Stops(Tokens(t))
    ensures var r := Args(argv, rs, t);
      r.Ok? && r.value == Wrap(Exec(argv), rs) && Tokens(r.rest) == Tokens(t)
  {
    hide Skip, Next, Redirs, Peeks, Args, Wrap;
    TokensPeek(t, {'|', ')', '&', ';'});
    ArgsEnds(argv, rs, t);
    TokensSkip(t);
    TokensNext(t);
    if Tokens(t) == [] {
      TokensEnd(t);
    }
  }

  lemma TokensEnd(t: string)
    requires Tokens(t) == []
    ensures Tokens(Next(t).1) == [] && Tokens(Skip(t)) == []
  {
  }

  // The parser's cases, as equations on the functions.

  lemma ExecBlock(t: string, u: string, c: Cmd<string>, v: string, w: string, rs: seq<Redirect<string>>, x: string)
    requires Peeks(t, {'('}) && Next(t).1 == u && |u| < |t| && ParseLine(u) == Ok(c, v) && Peeks(v, {')'})
    requires Next(v).1 == w && Redirs([], w) == Ok(rs, x)
    ensures ParseExec(t) == Ok(Wrap(c, rs), x)
  {
    hide Skip, Next, Redirs, Peeks, Wrap, ParseLine;
  }

  lemma ExecWords(t: string, rs: seq<Redirect<string>>, u: string)
    requires !Peeks(t, {'('}) && Redirs([], t) == Ok(rs, u)
    ensures ParseExec(t) == Args([], rs, u)
  {
    hide Skip, Next, Redirs, Peeks, Wrap, ParseLine, Args;
  }

  lemma PipeEnds(t: string, c: Cmd<string>, u: string)
    requires ParseExec(t) == Ok(c, u) && !Peeks(u, {'|'})
    ensures ParsePipe(t) == Ok(c, Skip(u))
  {
    hide Skip, Next, Peeks, ParseExec;
  }

  lemma LineCase(t: string, c: Cmd<string>, u: string, d: Cmd<string>, v: string)
    requires ParsePipe(t) == Ok(c, u) && Backs(c, u) == (d, v)
    ensures !Peeks(v, {';'}) ==> ParseLine(t) == Ok(d, v)
    ensures Peeks(v, {';'}) ==> |Next(v).1| < |t|
    ensures Peeks(v, {';'}) && ParseLine(Next(v).1).Ok? ==>
      ParseLine(t) == Ok(List(d, ParseLine(Next(v).1).value), ParseLine(Next(v).1).rest)
  {
    hide Skip, Peeks, ParsePipe, Backs;
    if Peeks(v, {';'}) {
      Seen(v, {';'});
    }
  }

  lemma {:induction false} BacksParsed(c: Cmd<string>, n: nat, t: string, rest: seq<Token>)
    requires Tokens(t) == Amps(n) + rest && !Starts(rest, {'&'})
    ensures Backs(c, t).0 == Around(c, n) && Tokens(Backs(c, t).1) == rest
    decreases n
  {
    hide Skip, Next, Peeks;
    TokensPeek(t, {'&'});
    if n == 0 {
      BacksStop(c, t);
      TokensSkip(t);
    } else {
      assert Tokens(t) == [Symbol('&')] + (Amps(n - 1) + rest);
      Uncons(t, Symbol('&'), Amps(n - 1) + rest);
      BackStep(c, t, Next(t).1);
      BacksParsed(Back(c), n - 1, Next(t).1, rest);
    }
  }

  function Around(c: Cmd<string>, n: nat): (r: Cmd<string>)
    decreases n
  {
    if n == 0 then c else Around(Back(c), n - 1)
  }

  lemma {:induction false} AroundBacked(c: Cmd<string>, n: nat)
    ensures Around(c, n) == Backed(c, n) && Around(Back(c), n) == Back(Around(c, n))
    decreases n
  {
    if n > 0 {
      AroundBacked(Back(c), n - 1);
      AroundBacked(c, n - 1);
    }
  }

  lemma {:induction false} CommandParsed(c: Command, t: string, rest: seq<Token>)
    requires FineCommand(c) && Tokens(t) == CommandTokens(c) + rest && Stops(rest)
    ensures ParseExec(t).Ok? && ParseExec(t).value == CommandMeaning(c) && Tokens(ParseExec(t).rest) == rest
    decreases c
  {
    hide Skip, Next, Redirs, Peeks, Wrap, ParseLine, ParseExec, Args, LineTokens, RedirTokens, Nest;
    TokensPeek(t, {'('});
    match c
    case Block(l, rs) =>
      var after := [Symbol(')')] + (RedirTokens(rs) + rest);
      assert Tokens(t) == [Symbol('(')] + (LineTokens(l) + after);
      Uncons(t, Symbol('('), LineTokens(l) + after);
      var u := Next(t).1;
      Seen(t, {'('});
      LineParsed(l, u, after);
      var v := ParseLine(u).rest;
      TokensPeek(v, {')'});
      Uncons(v, Symbol(')'), RedirTokens(rs) + rest);
      RedirsParsed([], rs, Next(v).1, rest);
      assert [] + rs == rs;
      ExecBlock(t, u, LineMeaning(l), v, Next(v).1, rs, Redirs([], Next(v).1).rest);
      WrapNests(LineMeaning(l), rs);
    case Simple(items) =>
      LeadSplit(items);
      var behind := Behind(items);
      assert Tokens(t) == RedirTokens(Lead(items)) + (ItemTokens(behind) + rest);
      NoParen(items, rest);
      StopsTokens(rest, behind);
      RedirsParsed([], Lead(items), t, ItemTokens(behind) + rest);
      assert [] + Lead(items) == Lead(items);
      var u := Redirs([], t).rest;
      ExecWords(t, Lead(items), u);
      ArgsParsed([], Lead(items), behind, u, rest);
      assert [] + Words(behind) == Words(items);
      WrapNests(Exec(Words(items)), Files(items));
  }

  lemma NoParen(items: seq<Item>, rest: seq<Token>)
    requires Stops(rest)
    ensures !Starts(ItemTokens(items) + rest, {'('})
  {
  }

  lemma {:induction false} PipeParsed(p: Pipeline, t: string, rest: seq<Token>)
    requires FinePipe(p) && Tokens(t) == PipeTokens(p) + rest && (rest == [] || Starts(rest, {')', '&', ';'}))
    ensures ParsePipe(t).Ok? && ParsePipe(t).value == PipeMeaning(p) && Tokens(ParsePipe(t).rest) == rest
    decreases p
  {
    hide Skip, Next, Peeks, ParseExec, ParsePipe, CommandTokens, CommandMeaning;
    match p
    case Last(c) =>
      CommandParsed(c, t, rest);
      var u := ParseExec(t).rest;
      TokensPeek(u, {'|'});
      PipeEnds(t, CommandMeaning(c), u);
      TokensSkip(u);
    case Piped(c, more) =>
      var after := [Symbol('|')] + (PipeTokens(more) + rest);
      assert Tokens(t) == CommandTokens(c) + after;
      CommandParsed(c, t, after);
      var u := ParseExec(t).rest;
      TokensPeek(u, {'|'});
      Uncons(u, Symbol('|'), PipeTokens(more) + rest);
      PipeParsed(more, Next(u).1, rest);
      PipeStep(t, CommandMeaning(c), u, Next(u).1, PipeMeaning(more), ParsePipe(Next(u).1).rest);
  }

  lemma {:induction false} LineParsed(l: Line, t: string, rest: seq<Token>)
    requires FineLine(l) && Tokens(t) == LineTokens(l) + rest && (rest == [] || Starts(rest, {')'}))
    ensures ParseLine(t).Ok? && ParseLine(t).value == LineMeaning(l) && Tokens(ParseLine(t).rest) == rest
    decreases l
  {
    hide Skip, Next, Peeks, ParsePipe, ParseLine, Backs, PipeTokens, PipeMeaning;
    var tail := (if l.more.Some? then [Symbol(';')] + LineTokens(l.more.value) else []) + rest;
    assert Tokens(t) == PipeTokens(l.pipe) + (Amps(l.amps) + tail);
    AmpsStart(l.amps, tail);
    PipeParsed(l.pipe, t, Amps(l.amps) + tail);
    var c, u := PipeMeaning(l.pipe), ParsePipe(t).rest;
    BacksParsed(c, l.amps, u, tail);
    AroundBacked(c, l.amps);
    var v := Backs(c, u).1;
    LineCase(t, c, u, Around(c, l.amps), v);
    TokensPeek(v, {';'});
    if l.more.Some? {
      Uncons(v, Symbol(';'), LineTokens(l.more.value) + rest);
      LineParsed(l.more.value, Next(v).1, rest);
    }
  }

  lemma AmpsStart(n: nat, tail: seq<Token>)
    requires tail == [] || Starts(tail, {')', ';'})
    ensures Amps(n) + tail == [] || Starts(Amps(n) + tail, {')', '&', ';'})
  {
  }

  // ---------------------------------------------------------------- whatever is parsed is a derivation

  lemma {:induction false} RedirsDerived(rs: seq<Redirect<string>>, t: string) returns (more: seq<Redirect<string>>)
    requires Redirs(rs, t).Ok?
    ensures Redirs(rs, t).value == rs + more
    ensures Tokens(t) == RedirTokens(more) + Tokens(Redirs(rs, t).rest)
    decreases |t|
  {
    hide Skip, Next, Redirs, Peeks, Tokens;
    TokensPeek(t, {'<', '>'});
    if Peeks(t, {'<', '>'}) {
      Seen(t, {'<', '>'});
      TokensNext(t);
      var (tok, u) := Next(t);
      TokensNext(u);
      if !Next(u).0.Word? {
        RedirFails(rs, t);
        assert false;
      }
      var (file, v) := Next(u);
      RedirStep(rs, t, tok, u, file.w, v);
      NextShorter(u);
      var r := Redirect(file.w, ModeOf(tok));
      var rest := RedirsDerived(rs + [r], v);
      more := [r] + rest;
      Assoc(rs, [r], rest);
      assert more[1..] == rest;
      assert ToTokens(r) == [tok] + [file];
      var ts := Tokens(Redirs(rs, t).rest);
      Assoc([tok], [file], RedirTokens(rest) + ts);
      Assoc(ToTokens(r), RedirTokens(rest), ts);
    } else {
      RedirStops(rs, t);
      TokensSkip(t);
      more := [];
      assert rs + more == rs;
    }
  }

  lemma NextShorter(t: string)
    ensures |Next(t).1| <= |t|
  {
  }

  function Tos(rs: seq<Redirect<string>>): (items: seq<Item>)
    ensures |items| == |rs| && forall i :: 0 <= i < |rs| ==> items[i] == To(rs[i])
  {
    seq(|rs|, i requires 0 <= i < |rs| => To(rs[i]))
  }

  lemma {:induction false} TosFirst(rs: seq<Redirect<string>>, items: seq<Item>)
    ensures ItemTokens(Tos(rs) + items) == RedirTokens(rs) + ItemTokens(items)
    ensures Words(Tos(rs) + items) == Words(items) && Files(Tos(rs) + items) == rs + Files(items)
    decreases |rs|
  {
    if rs == [] {
      assert Tos(rs) + items == items;
    } else {
      var all := Tos(rs) + items;
      assert all[1..] == Tos(rs[1..]) + items && all[0] == To(rs[0]);
      TosFirst(rs[1..], items);
      Assoc(ToTokens(rs[0]), RedirTokens(rs[1..]), ItemTokens(items));
      Assoc([rs[0]], rs[1..], Files(items));
      assert [rs[0]] + rs[1..] == rs;
    }
  }

  lemma {:induction false} ArgsDerived(argv: seq<string>, rs: seq<Redirect<string>>, t: string)
    returns (items: seq<Item>)
    requires Args(argv, rs, t).Ok? && |argv| < MAXARGS
    ensures var r := Args(argv, rs, t);
      && r.value == Wrap(Exec(argv + Words(items)), rs + Files(items))
      && Tokens(t) == ItemTokens(items) + Tokens(r.rest)
      && |argv| + |Words(items)| < MAXARGS
    decreases |t|
  {
    hide Skip, Next, Redirs, Peeks, Args, Wrap, Tokens;
    ArgsEnds(argv, rs, t);
    TokensNext(t);
    TokensSkip(t);
    if Peeks(t, {'|', ')', '&', ';'}) || Next(t).0 == End {
      items := [];
      assert argv + Words(items) == argv && rs + Files(items) == rs;
      NoItems(Tokens(t));
      if !Peeks(t, {'|', ')', '&', ';'}) {
        TokensEnd(t);
      }
    } else {
      var w, u := Next(t).0.w, Next(t).1;
      var more := RedirsDerived(rs, u);
      var v := Redirs(rs, u).rest;
      ArgsStep(argv, rs, t, w, u, rs + more, v);
      WordShorter(rs, t);
      var rest := ArgsDerived(argv + [w], rs + more, v);
      items := [Arg(w)] + (Tos(more) + rest);
      TosFirst(more, rest);
      assert items[0] == Arg(w) && items[1..] == Tos(more) + rest;
      assert Words(items) == [w] + Words(rest) && Files(items) == [] + Files(items[1..]) == more + Files(rest);
      assert ItemTokens(items) == [Word(w)] + (RedirTokens(more) + ItemTokens(rest));
      Assoc(argv, [w], Words(rest));
      Assoc(rs, more, Files(rest));
      var ts := Tokens(Args(argv, rs, t).rest);
      hide RedirTokens;
      Assoc(RedirTokens(more), ItemTokens(rest), ts);
      Assoc([Word(w)], RedirTokens(more) + ItemTokens(rest), ts);
    }
  }

  lemma WordShorter(rs: seq<Redirect<string>>, t: string)
    requires Next(t).0 != End && Redirs(rs, Next(t).1).Ok?
    ensures |Redirs(rs, Next(t).1).rest| < |t|
  {
    hide Skip;
    var r := Redirs(rs, Next(t).1);
    assert |r.rest| <= |Next(t).1|;
  }

  /** What ParseExec has gone through when it succeeds on a parenthesis. */
  lemma BlockCases(t: string)
    requires ParseExec(t).Ok? && Peeks(t, {'('})
    ensures |Next(t).1| < |t| && ParseLine(Next(t).1).Ok?
    ensures var p := ParseLine(Next(t).1);
      && Peeks(p.rest, {')'}) && Redirs([], Next(p.rest).1).Ok?
      && ParseExec(t) == Ok(Wrap(p.value, Redirs([], Next(p.rest).1).value), Redirs([], Next(p.rest).1).rest)
  {
    hide Skip, Redirs, Peeks, Wrap, ParseLine;
    Seen(t, {'('});
  }

  lemma WordsCases(t: string)
    requires ParseExec(t).Ok? && !Peeks(t, {'('})
    ensures Redirs([], t).Ok? && ParseExec(t) == Args([], Redirs([], t).value, Redirs([], t).rest)
  {
    hide Skip, Next, Redirs, Peeks, Wrap, ParseLine, Args;
  }

  lemma PipeCases(t: string)
    requires ParsePipe(t).Ok?
    ensures ParseExec(t).Ok?
    ensures var p := ParseExec(t);
      if Peeks(p.rest, {'|'}) then
        && |Next(p.rest).1| < |t| && ParsePipe(Next(p.rest).1).Ok?
        && ParsePipe(t) == Ok(Pipe(p.value, ParsePipe(Next(p.rest).1).value), ParsePipe(Next(p.rest).1).rest)
      else ParsePipe(t) == Ok(p.value, Skip(p.rest))
  {
    hide Skip, Next, Peeks, ParseExec;
    if Peeks(ParseExec(t).rest, {'|'}) {
      Seen(ParseExec(t).rest, {'|'});
    }
  }

  lemma LineCases(t: string)
    requires ParseLine(t).Ok?
    ensures ParsePipe(t).Ok?
    ensures var p := ParsePipe(t);
      var (d, v) := Backs(p.value, p.rest);
      if Peeks(v, {';'}) then
        && |Next(v).1| < |t| && ParseLine(Next(v).1).Ok?
        && ParseLine(t) == Ok(List(d, ParseLine(Next(v).1).value), ParseLine(Next(v).1).rest)
      else ParseLine(t) == Ok(d, v)
  {
    hide Skip, Next, Peeks, ParsePipe, Backs;
    var p := ParsePipe(t);
    var v := Backs(p.value, p.rest).1;
    if Peeks(v, {';'}) {
      Seen(v, {';'});
    }
  }

  lemma {:induction false} BacksDerived(c: Cmd<string>, t: string) returns (n: nat)
    ensures Backs(c, t).0 == Around(c, n) && Tokens(t) == Amps(n) + Tokens(Backs(c, t).1)
    decreases |t|
  {
    hide Skip, Next, Peeks, Tokens;
    TokensPeek(t, {'&'});
    if Peeks(t, {'&'}) {
      Seen(t, {'&'});
      TokensNext(t);
      BackStep(c, t, Next(t).1);
      var m := BacksDerived(Back(c), Next(t).1);
      n := m + 1;
      Assoc([Symbol('&')], Amps(m), Tokens(Backs(c, t).1));
    } else {
      BacksStop(c, t);
      TokensSkip(t);
      n := 0;
    }
  }

  lemma {:induction false} CommandDerived(t: string) returns (c: Command)
    requires ParseExec(t).Ok?
    ensures FineCommand(c) && ParseExec(t).value == CommandMeaning(c)
    ensures Tokens(t) == CommandTokens(c) + Tokens(ParseExec(t).rest)
    decreases |t|, 0
  {
    hide Skip, Next, Redirs, Peeks, Wrap, ParseLine, ParseExec, Args, Tokens, Nest;
    var rest := Tokens(ParseExec(t).rest);
    if Peeks(t, {'('}) {
      BlockCases(t);
      TokensPeek(t, {'('});
      TokensNext(t);
      var p := ParseLine(Next(t).1);
      var l := LineDerived(Next(t).1);
      TokensPeek(p.rest, {')'});
      TokensNext(p.rest);
      var rs := RedirsDerived([], Next(p.rest).1);
      assert [] + rs == rs;
      WrapNests(p.value, rs);
      c := Block(l, rs);
      hide LineTokens, RedirTokens;
      Assoc([Symbol('(')] + LineTokens(l) + [Symbol(')')], RedirTokens(rs), rest);
      Assoc([Symbol('(')] + LineTokens(l), [Symbol(')')], RedirTokens(rs) + rest);
      Assoc([Symbol('(')], LineTokens(l), [Symbol(')')] + (RedirTokens(rs) + rest));
    } else {
      WordsCases(t);
      var rs := RedirsDerived([], t);
      assert [] + rs == rs;
      var items := ArgsDerived([], rs, Redirs([], t).rest);
      TosFirst(rs, items);
      assert [] + Words(items) == Words(items);
      WrapNests(Exec(Words(items)), rs + Files(items));
      c := Simple(Tos(rs) + items);
      Assoc(RedirTokens(rs), ItemTokens(items), rest);
    }
  }

  lemma {:induction false} PipeDerived(t: string) returns (p: Pipeline)
    requires ParsePipe(t).Ok?
    ensures FinePipe(p) && ParsePipe(t).value == PipeMeaning(p)
    ensures Tokens(t) == PipeTokens(p) + Tokens(ParsePipe(t).rest)
    decreases |t|, 1
  {
    hide Skip, Next, Peeks, ParseExec, ParsePipe, Tokens, CommandTokens, CommandMeaning, FineCommand;
    PipeCases(t);
    var c := CommandDerived(t);
    var u := ParseExec(t).rest;
    TokensPeek(u, {'|'});
    TokensSkip(u);
    if Peeks(u, {'|'}) {
      TokensNext(u);
      var q := PipeDerived(Next(u).1);
      p := Piped(c, q);
      var rest := Tokens(ParsePipe(t).rest);
      hide PipeTokens;
      PipedTokens(c, q, rest);
    } else {
      p := Last(c);
    }
  }

  lemma PipedTokens(c: Command, q: Pipeline, rest: seq<Token>)
    ensures PipeTokens(Piped(c, q)) + rest == CommandTokens(c) + ([Symbol('|')] + (PipeTokens(q) + rest))
  {
    hide CommandTokens;
    assert PipeTokens(Piped(c, q)) == CommandTokens(c) + [Symbol('|')] + PipeTokens(q);
    hide PipeTokens;
    Assoc(CommandTokens(c) + [Symbol('|')], PipeTokens(q), rest);
    Assoc(CommandTokens(c), [Symbol('|')], PipeTokens(q) + rest);
  }

  lemma {:induction false} LineDerived(t: string) returns (l: Line)
    requires ParseLine(t).Ok?
    ensures FineLine(l) && ParseLine(t).value == LineMeaning(l)
    ensures Tokens(t) == LineTokens(l) + Tokens(ParseLine(t).rest)
    decreases |t|, 2
  {
    hide Skip, Next, Peeks, ParsePipe, ParseLine, Backs, Tokens, PipeTokens, PipeMeaning, FinePipe, Amps;
    LineCases(t);
    var p := PipeDerived(t);
    var c, u := ParsePipe(t).value, ParsePipe(t).rest;
    var n := BacksDerived(c, u);
    AroundBacked(c, n);
    var v := Backs(c, u).1;
    TokensPeek(v, {';'});
    var rest := Tokens(ParseLine(t).rest);
    if Peeks(v, {';'}) {
      TokensNext(v);
      var m := LineDerived(Next(v).1);
      l := Line(p, n, Some(m));
      Assoc([Symbol(';')], LineTokens(m), rest);
      Assoc(PipeTokens(p) + Amps(n), [Symbol(';')] + LineTokens(m), rest);
    } else {
      l := Line(p, n, None);
      Assoc(PipeTokens(p) + Amps(n), [], rest);
    }
    Assoc(PipeTokens(p), Amps(n), Tokens(v));
  }

  // ---------------------------------------------------------------- the parser and the grammar

  /** l derives the text t. */
  predicate Derives(l: Line, t: string) {
    FineLine(l) && LineTokens(l) == Tokens(t)
  }

  /** Whatever derivation a text has, its meaning is what the parser returns. */
  lemma DerivedIsParsed(l: Line, t: string)
    requires Derives(l, t)
    ensures Parse(t) == Ok(LineMeaning(l), [])
  {
    hide Skip, Next, ParseLine, LineTokens, Tokens, FineLine, LineMeaning;
    assert LineTokens(l) + [] == LineTokens(l);
    LineParsed(l, t, []);
    TokensNext(ParseLine(t).rest);
  }

  /** The parser accepts exactly the texts that have a derivation, and panics on the others. */
  lemma ParsedExactly(t: string)
    ensures Parse(t).Ok? <==> exists l :: Derives(l, t)
  {
    hide ParseLine, LineTokens, Tokens, FineLine, LineMeaning;
    if Parse(t).Ok? {
      var l := LineDerived(t);
      TokensDone(ParseLine(t).rest);
      assert LineTokens(l) + [] == LineTokens(l);
      assert Derives(l, t);
    }
    if exists l :: Derives(l, t) {
      var l :| Derives(l, t);
      DerivedIsParsed(l, t);
    }
  }

  lemma TokensDone(t: string)
    requires Skip(t) == []
    ensures Tokens(t) == []
  {
  }

  /** Only the tokens matter. */
  lemma SameTokens(t: string, u: string)
    requires Tokens(t) == Tokens(u)
    ensures Parse(t) == Parse(u)
  {
    hide Parse, LineTokens, Tokens, FineLine, LineMeaning;
    ParsedExactly(t);
    ParsedExactly(u);
    if exists l :: Derives(l, t) {
      var l :| Derives(l, t);
      assert Derives(l, u);
      DerivedIsParsed(l, t);
      DerivedIsParsed(l, u);
    } else {
      forall l ensures !Derives(l, u) {
        assert !Derives(l, t);
      }
    }
  }
}
