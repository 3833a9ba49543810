/** How a text falls into tokens, with the white space and the symbols of the shell written out, and
    what that means for the command a text stands for. */
module ShellTokens {
  import opened Options
  import opened ShellGrammar
  import opened ShellSyntax

  const Blanks: set<char> := {' ', '\t', '\r', '\n', '\U{b}'}
  const Symbols: set<char> := {'<', '|', '>', '&', ';', '(', ')'}

  predicate Gap(g: string) {
    forall i :: 0 <= i < |g| ==> g[i] in Blanks
  }

  predicate Lexeme(tok: Token) {
    match tok
    case End => false
    case Symbol(c) => c in Symbols
    case Double => true
    case Word(w) => w != [] && forall i :: 0 <= i < |w| ==> w[i] !in Blanks && w[i] !in Symbols
  }

  function TokenText(tok: Token): (s: string) {
    match tok
    case End => []
    case Symbol(c) => [c]
    case Double => ">>"
    case Word(w) => w
  }

  /** The tokens ts written one after the other, with the gaps before, between and behind them. */
  function Spell(gaps: seq<string>, ts: seq<Token>): (t: string)
    requires |gaps| == |ts| + 1
  {
    if ts == [] then gaps[0] else gaps[0] + (TokenText(ts[0]) + Spell(gaps[1..], ts[1..]))
  }

  /** Written without a gap, x and y would not be read as x and y. */
  predicate Merge(x: Token, y: Token) {
    (x.Word? && y.Word?) || (x == Symbol('>') && (y == Symbol('>') || y == Double))
  }

  predicate Apart(gaps: seq<string>, ts: seq<Token>)
    requires |gaps| == |ts| + 1
  {
    && (forall i :: 0 <= i < |gaps| ==> Gap(gaps[i]))
    && (forall i :: 0 <= i < |ts| ==> Lexeme(ts[i]))
    && (forall i :: 0 < i < |ts| && gaps[i] == [] ==> !Merge(ts[i - 1], ts[i]))
  }

  // ---------------------------------------------------------------- one token

  lemma {:induction false} SkipGap(g: string, t: string)
    requires Gap(g)
    ensures Skip(g + t) == Skip(t)
  {
    if g == [] {
      assert g + t == t;
    } else {
      assert (g + t)[1..] == g[1..] + t && (g + t)[0] == g[0];
      SkipGap(g[1..], t);
    }
  }

  /** The gap a text begins with. */
  lemma {:induction false} SkipSplits(t: string) returns (g: string)
    ensures Gap(g) && t == g + Skip(t)
  {
    if t != [] && IsSpace(t[0]) {
      g := SkipSplits(t[1..]);
      assert t == [t[0]] + t[1..];
      g := [t[0]] + g;
    } else {
      g := [];
    }
  }

  lemma {:induction false} SkipMore(a: string, z: string)
    ensures Skip(a + z) == if Skip(a) == [] then Skip(z) else Skip(a) + z
  {
    var g := SkipSplits(a);
    Assoc(g, Skip(a), z);
    SkipGap(g, Skip(a) + z);
    if Skip(a) == [] {
      assert Skip(a) + z == z;
    } else {
      SkipTight(Skip(a) + z);
    }
  }

  lemma {:induction false} WordMore(u: string, z: string)
    requires z == [] || !IsWordChar(z[0])
    ensures WordLength(u + z) == WordLength(u)
  {
    if u == [] {
      assert u + z == z;
    } else {
      assert (u + z)[1..] == u[1..] + z && (u + z)[0] == u[0];
      WordMore(u[1..], z);
    }
  }

  /** The text right behind the next token. */
  function After(t: string): (r: string)
    ensures |r| <= |t| && (Skip(t) != [] ==> |r| < |t|)
  {
    var u := Skip(t);
    if u == [] then []
    else if u[0] == '>' && |u| > 1 && u[1] == '>' then u[2..]
    else if IsSymbol(u[0]) then u[1..]
    else
      assert WordLength(u) > 0;
      u[WordLength(u)..]
  }

  lemma TokensAfter(t: string)
    ensures Skip(t) == [] ==> Tokens(t) == []
    ensures Skip(t) != [] ==> Tokens(t) == [Next(t).0] + Tokens(After(t)) && Lexeme(Next(t).0)
    ensures Skip(t) != [] ==> Skip(t) == TokenText(Next(t).0) + After(t)
  {
    TokensNext(t);
    if Skip(t) != [] {
      NextAfter(t);
    }
    hide Tokens, Next, After, Lexeme;
    TokensSkip(After(t));
  }

  lemma NextAfter(t: string)
    requires Skip(t) != []
    ensures Next(t).0 != End && Next(t).1 == Skip(After(t)) && Lexeme(Next(t).0)
    ensures Skip(t) == TokenText(Next(t).0) + After(t)
  {
    var u := Skip(t);
    if !IsSymbol(u[0]) {
      assert u == u[..WordLength(u)] + u[WordLength(u)..];
    }
  }

  /** What follows decides where a token ends. */
  lemma TokenAt(x: Token, r: string)
    requires Lexeme(x) && (x.Word? && r != [] ==> !IsWordChar(r[0])) && (x == Symbol('>') && r != [] ==> r[0] != '>')
    ensures Skip(TokenText(x) + r) == TokenText(x) + r && Next(TokenText(x) + r).0 == x && After(TokenText(x) + r) == r
  {
    var t := TokenText(x) + r;
    SkipTight(t);
    match x
    case Symbol(c) => assert t[1..] == r;
    case Double => assert t[2..] == r;
    case Word(w) =>
      assert t[0] == w[0];
      WordRun(w, r);
      assert t[..|w|] == w && t[|w|..] == r;
  }

  // ---------------------------------------------------------------- all tokens

  lemma FirstChar(gaps: seq<string>, ts: seq<Token>, x: Token)
    requires |gaps| == |ts| + 1 && Apart(gaps, ts) && Lexeme(x) && (ts != [] && gaps[0] == [] ==> !Merge(x, ts[0]))
    ensures var r := Spell(gaps, ts);
      (x.Word? && r != [] ==> !IsWordChar(r[0])) && (x == Symbol('>') && r != [] ==> r[0] != '>')
  {
    var r := Spell(gaps, ts);
    if gaps[0] != [] {
      assert r[0] == gaps[0][0];
    } else if ts != [] {
      assert r[0] == TokenText(ts[0])[0];
    }
  }

  /** Tokens with gaps between them are read as just these tokens. */
  lemma {:induction false} Lexed(gaps: seq<string>, ts: seq<Token>)
    requires |gaps| == |ts| + 1 && Apart(gaps, ts)
    ensures Tokens(Spell(gaps, ts)) == ts
    decreases |ts|
  {
    hide Tokens, Next;
    var t := Spell(gaps, ts);
    if ts == [] {
      assert gaps[0] + [] == gaps[0];
      SkipGap(gaps[0], []);
      TokensAfter(t);
    } else {
      var r := Spell(gaps[1..], ts[1..]);
      Lexed(gaps[1..], ts[1..]);
      FirstChar(gaps[1..], ts[1..], ts[0]);
      TokenAt(ts[0], r);
      var u := TokenText(ts[0]) + r;
      SkipGap(gaps[0], u);
      TokensSkip(t);
      TokensSkip(u);
      TokensAfter(u);
      assert [ts[0]] + ts[1..] == ts;
    }
  }

  /** And every text is tokens with gaps between them. */
  lemma {:induction false} Spelled(t: string) returns (gaps: seq<string>)
    ensures |gaps| == |Tokens(t)| + 1 && Apart(gaps, Tokens(t)) && Spell(gaps, Tokens(t)) == t
    decreases |t|
  {
    hide Tokens, Next;
    var g := SkipSplits(t);
    TokensAfter(t);
    if Skip(t) == [] {
      gaps := [g];
    } else {
      var rest := Spelled(After(t));
      gaps := [g] + rest;
      var x, ts := Next(t).0, Tokens(After(t));
      assert gaps[1..] == rest && ([x] + ts)[1..] == ts;
      if ts != [] && rest[0] == [] {
        Unmerged(t, ts[0], Spell(rest[1..], ts[1..]));
      }
      assert Apart(gaps, [x] + ts);
    }
  }

  lemma Unmerged(t: string, y: Token, r: string)
    requires Skip(t) != [] && Lexeme(y) && After(t) == TokenText(y) + r
    ensures !Merge(Next(t).0, y)
  {
    var u := Skip(t);
    assert After(t)[0] == TokenText(y)[0];
    if Next(t).0.Word? {
      assert u[WordLength(u)] == After(t)[0];
    }
  }

  /** Any white space separates: the tokens are those before it and those behind it. */
  lemma {:induction false} GapSplits(a: string, g: string, b: string)
    requires g != [] && Gap(g)
    ensures Tokens(a + (g + b)) == Tokens(a) + Tokens(b)
    decreases |a|
  {
    hide Tokens, Next, After;
    var z := g + b;
    SkipMore(a, z);
    TokensAfter(a);
    TokensSkip(a + z);
    if Skip(a) == [] {
      SkipGap(g, b);
      TokensSkip(z);
      TokensSkip(b);
    } else {
      var x, r := Next(a).0, After(a);
      Assoc(TokenText(x), r, z);
      EndsThere(a, z);
      TokenAt(x, r + z);
      TokensAfter(Skip(a) + z);
      GapSplits(r, g, b);
      Assoc([x], Tokens(r), Tokens(b));
    }
  }

  lemma EndsThere(a: string, z: string)
    requires Skip(a) != [] && z != [] && z[0] in Blanks
    ensures var x, r := Next(a).0, After(a) + z;
      (x.Word? ==> !IsWordChar(r[0])) && (x == Symbol('>') ==> r[0] != '>')
  {
    var u := Skip(a);
    if After(a) != [] && Next(a).0.Word? {
      assert u[WordLength(u)] == After(a)[0];
    }
  }

  // ---------------------------------------------------------------- command lines

  /** Every way of typing a line of the grammar gives its meaning. */
  lemma TypedLine(l: Line, gaps: seq<string>)
    requires FineLine(l) && |gaps| == |LineTokens(l)| + 1 && Apart(gaps, LineTokens(l))
    ensures Parse(Spell(gaps, LineTokens(l))) == Ok(LineMeaning(l), [])
  {
    hide Parse, Tokens, Spell, FineLine, LineTokens, LineMeaning;
    Lexed(gaps, LineTokens(l));
    DerivedIsParsed(l, Spell(gaps, LineTokens(l)));
  }

  /** White space at the end, such as the newline that gets leaves there, changes nothing. */
  lemma TrailingIgnored(t: string, g: string)
    requires Gap(g)
    ensures Parse(t + g) == Parse(t)
  {
    hide Parse, Tokens;
    if g == [] {
      assert t + g == t;
    } else {
      GapSplits(t, g, []);
      assert g + [] == g;
      TokensDone([]);
      assert Tokens(t) + [] == Tokens(t);
      SameTokens(t + g, t);
    }
  }

  /** One blank is as good as any white space. */
  lemma AnyBlank(a: string, g: string, h: string, b: string)
    requires g != [] && Gap(g) && h != [] && Gap(h)
    ensures Parse(a + (g + b)) == Parse(a + (h + b))
  {
    hide Parse, Tokens;
    GapSplits(a, g, b);
    GapSplits(a, h, b);
    SameTokens(a + (g + b), a + (h + b));
  }
}
