/** The shell's parser as it runs: a cursor moving through the line, trees whose words are places in
    it, and at the end NULs written behind every word. */
module ShellParser {
  import opened ShellGrammar
  import opened Options

  /** A word in the line: from q up to but not including eq. */
  datatype Span = Span(q: nat, eq: nat)

  /** The word is not empty, made of word characters, and ends where those end. */
  ghost predicate SpanOk(s: string, w: Span) {
    && w.q < w.eq <= |s|
    && (forall k :: w.q <= k < w.eq ==> IsWordChar(s[k]))
    && (w.eq < |s| ==> !IsWordChar(s[w.eq]))
  }

  ghost predicate SpansOk(s: string, ws: seq<Span>) {
    forall i :: 0 <= i < |ws| ==> SpanOk(s, ws[i])
  }

  ghost predicate RedirsOk(s: string, rs: seq<Redirect<Span>>) {
    forall i :: 0 <= i < |rs| ==> SpanOk(s, rs[i].file)
  }

  ghost predicate TreeOk(s: string, c: Cmd<Span>) {
    match c
    case Exec(argv) => SpansOk(s, argv)
    case Redir(d, to) => TreeOk(s, d) && SpanOk(s, to.file)
    case Pipe(l, r) => TreeOk(s, l) && TreeOk(s, r)
    case List(l, r) => TreeOk(s, l) && TreeOk(s, r)
    case Back(d) => TreeOk(s, d)
  }

  ghost function Words(s: string, ws: seq<Span>): (r: seq<string>)
    requires SpansOk(s, ws)
    ensures |r| == |ws| && forall i :: 0 <= i < |ws| ==> r[i] == s[ws[i].q..ws[i].eq]
  {
    seq(|ws|, i requires 0 <= i < |ws| => s[ws[i].q..ws[i].eq])
  }

  ghost function Files(s: string, rs: seq<Redirect<Span>>): (r: seq<Redirect<string>>)
    requires RedirsOk(s, rs)
    ensures |r| == |rs|
    ensures forall i :: 0 <= i < |rs| ==> r[i] == Redirect(s[rs[i].file.q..rs[i].file.eq], rs[i].mode)
  {
    seq(|rs|, i requires 0 <= i < |rs| => Redirect(s[rs[i].file.q..rs[i].file.eq], rs[i].mode))
  }

  /** The tree with the text of its words. */
  ghost function Text(s: string, c: Cmd<Span>): Cmd<string>
    requires TreeOk(s, c)
  {
    match c
    case Exec(argv) => Exec(Words(s, argv))
    case Redir(d, to) => Redir(Text(s, d), Redirect(s[to.file.q..to.file.eq], to.mode))
    case Pipe(l, r) => Pipe(Text(s, l), Text(s, r))
    case List(l, r) => List(Text(s, l), Text(s, r))
    case Back(d) => Back(Text(s, d))
  }

  lemma {:induction false} TextWrap(s: string, c: Cmd<Span>, rs: seq<Redirect<Span>>)
    requires TreeOk(s, c) && RedirsOk(s, rs)
    ensures TreeOk(s, Wrap(c, rs)) && Text(s, Wrap(c, rs)) == Wrap(Text(s, c), Files(s, rs))
    decreases |rs|
  {
    if rs != [] {
      var front := rs[..|rs| - 1];
      TextWrap(s, c, front);
      assert Files(s, rs)[..|rs| - 1] == Files(s, front);
    }
  }

  lemma WordsMore(s: string, ws: seq<Span>, w: Span)
    requires SpansOk(s, ws) && SpanOk(s, w)
    ensures SpansOk(s, ws + [w]) && Words(s, ws + [w]) == Words(s, ws) + [s[w.q..w.eq]]
  {
  }

  lemma FilesMore(s: string, rs: seq<Redirect<Span>>, r: Redirect<Span>)
    requires RedirsOk(s, rs) && SpanOk(s, r.file)
    ensures RedirsOk(s, rs + [r]) && Files(s, rs + [r]) == Files(s, rs) + [Redirect(s[r.file.q..r.file.eq], r.mode)]
  {
  }

  /** The text from the cursor on. */
  ghost function From(s: string, i: nat): (t: string)
    requires i <= |s|
    ensures |t| == |s| - i
  {
    s[i..]
  }

  // ---------------------------------------------------------------- tokens

  method SkipSpace(s: string, i: nat) returns (j: nat)
    requires i <= |s|
    ensures i <= j <= |s| && From(s, j) == Skip(From(s, i))
  {
    j := i;
    while j < |s| && IsSpace(s[j])
      invariant i <= j <= |s| && Skip(From(s, j)) == Skip(From(s, i))
    {
      assert s[j..][1..] == s[j + 1..];
      j := j + 1;
    }
  }

  method Peek(s: string, i: nat, toks: set<char>) returns (found: bool, j: nat)
    requires i <= |s|
    ensures i <= j <= |s| && From(s, j) == Skip(From(s, i)) && found == Peeks(From(s, i), toks)
  {
    j := SkipSpace(s, i);
    found := j < |s| && s[j] in toks;
  }

  /** gettoken: what kind of token comes next, where it is, and where the text after it begins. */
  method GetToken(s: string, i: nat) returns (tok: Token, w: Span, j: nat)
    requires i <= |s|
    ensures i <= j <= |s| && Next(From(s, i)) == (tok, From(s, j))
    ensures tok.Word? ==> SpanOk(s, w) && tok.w == s[w.q..w.eq]
  {
    hide Skip, WordLength;
    var p := SkipSpace(s, i);
    var q := p;
    if p == |s| {
      tok := End;
    } else if s[p] == '>' {
      p := p + 1;
      if p < |s| && s[p] == '>' {
        tok := Double;
        p := p + 1;
      } else {
        tok := Symbol('>');
      }
    } else if IsSymbol(s[p]) {
      tok := Symbol(s[p]);
      p := p + 1;
    } else {
      p := WordEnd(s, p);
      tok := Word(s[q..p]);
    }
    w := Span(q, p);
    TokenShape(s, i, q, p, tok);
    j := SkipSpace(s, p);
  }

  method WordEnd(s: string, q: nat) returns (p: nat)
    requires q < |s| && IsWordChar(s[q])
    ensures q < p <= |s| && p - q == WordLength(From(s, q)) && SpanOk(s, Span(q, p))
  {
    p := q;
    while p < |s| && !IsSpace(s[p]) && !IsSymbol(s[p])
      invariant q <= p <= |s| && p - q + WordLength(From(s, p)) == WordLength(From(s, q))
      invariant forall k :: q <= k < p ==> IsWordChar(s[k])
    {
      assert s[p..][1..] == s[p + 1..];
      p := p + 1;
    }
  }

  lemma TokenShape(s: string, i: nat, q: nat, p: nat, tok: Token)
    requires i <= q <= p <= |s| && From(s, q) == Skip(From(s, i))
    requires if q == |s| then tok == End && p == q
             else if s[q] == '>' && q + 1 < |s| && s[q + 1] == '>' then tok == Double && p == q + 2
             else if IsSymbol(s[q]) then tok == Symbol(s[q]) && p == q + 1
             else tok == Word(s[q..p]) && p - q == WordLength(From(s, q))
    ensures Next(From(s, i)) == (tok, Skip(From(s, p)))
  {
    hide Skip, WordLength;
    var u := From(s, q);
    assert q < |s| ==> u[0] == s[q];
    assert q + 1 < |s| ==> u[1] == s[q + 1];
    assert u[p - q..] == From(s, p);
    assert u[..p - q] == s[q..p];
    if q == |s| {
      SkipTight(u);
    }
  }

  // ---------------------------------------------------------------- parsing

  /** What a parsing method has to deliver: the specification's panic, or its tree and rest. */
  ghost predicate Delivers(s: string, want: Parsed<Cmd<string>>, ok: bool, c: Cmd<Span>, j: nat) {
    match want
    case Panic => !ok
    case Ok(v, rest) => ok && j <= |s| && TreeOk(s, c) && Text(s, c) == v && From(s, j) == rest
  }

  method ParseRedirs(s: string, i: nat, rs0: seq<Redirect<Span>>) returns (ok: bool, rs: seq<Redirect<Span>>, j: nat)
    requires i <= |s| && RedirsOk(s, rs0)
    ensures !ok ==> Redirs(Files(s, rs0), From(s, i)) == Panic
    ensures ok ==> RedirsOk(s, rs) && i <= j <= |s| && Redirs(Files(s, rs0), From(s, i)) == Ok(Files(s, rs), From(s, j))
  {
    hide From, Skip, Next, Peeks, Files, Redirs, RedirsOk;
    rs, j := rs0, i;
    var more, p := Peek(s, j, {'<', '>'});
    while more
      invariant i <= j <= p <= |s| && RedirsOk(s, rs) && more == Peeks(From(s, j), {'<', '>'})
        && From(s, p) == Skip(From(s, j))
      invariant Redirs(Files(s, rs), From(s, j)) == Redirs(Files(s, rs0), From(s, i))
      decreases |s| - j
    {
      SkipTwice(s, j, p);
      var tok, _, k := GetToken(s, p);
      var file, w, n := GetToken(s, k);
      if !file.Word? {
        RedirFails(Files(s, rs), From(s, j));
        return false, rs, j;
      }
      var mode := ModeOf(tok);
      FilesMore(s, rs, Redirect(w, mode));
      RedirStep(Files(s, rs), From(s, j), tok, From(s, k), file.w, From(s, n));
      rs, j := rs + [Redirect(w, mode)], n;
      more, p := Peek(s, j, {'<', '>'});
    }
    RedirStops(Files(s, rs), From(s, j));
    ok, j := true, p;
  }

  /** Skipping white space again changes nothing for the token that follows. */
  lemma SkipTwice(s: string, j: nat, p: nat)
    requires j <= p <= |s| && From(s, p) == Skip(From(s, j))
    ensures Next(From(s, p)) == Next(From(s, j)) && Skip(From(s, p)) == From(s, p)
  {
    hide Skip, WordLength, From;
    SkipTight(From(s, p));
  }

  /** The argument loop of parseexec. */
  method ParseArgs(s: string, i: nat, rs0: seq<Redirect<Span>>) returns (ok: bool, c: Cmd<Span>, j: nat)
    requires i <= |s| && RedirsOk(s, rs0)
    ensures Delivers(s, Args([], Files(s, rs0), From(s, i)), ok, c, j)
  {
    hide From, Skip, Next, Peeks, Files, Redirs, Args, RedirsOk, Words, SpansOk;
    var argv: seq<Span>, rs := [], rs0;
    j := i;
    NoWords(s);
    c := Exec([]);
    while true
      invariant i <= j <= |s| && RedirsOk(s, rs) && SpansOk(s, argv) && |argv| < MAXARGS
      invariant Args(Words(s, argv), Files(s, rs), From(s, j)) == Args([], Files(s, rs0), From(s, i))
      decreases |s| - j
    {
      ArgsEnds(Words(s, argv), Files(s, rs), From(s, j));
      var stop, p := Peek(s, j, {'|', ')', '&', ';'});
      if stop {
        Finished(s, argv, rs);
        return true, Wrap(Exec(argv), rs), p;
      }
      SkipTwice(s, j, p);
      var tok, w, k := GetToken(s, p);
      if tok == End {
        Finished(s, argv, rs);
        return true, Wrap(Exec(argv), rs), k;
      }
      if !tok.Word? {
        return false, c, j;
      }
      WordsMore(s, argv, w);
      argv := argv + [w];
      if |argv| >= MAXARGS {
        return false, c, j;
      }
      var fine, rs', n := ParseRedirs(s, k, rs);
      if !fine {
        return false, c, j;
      }
      ArgsStep(Words(s, argv[..|argv| - 1]), Files(s, rs), From(s, j), tok.w, From(s, k), Files(s, rs'), From(s, n));
      rs, j := rs', n;
    }
  }

  lemma NoWords(s: string)
    ensures SpansOk(s, []) && Words(s, []) == [] && RedirsOk(s, []) && Files(s, []) == []
  {
  }

  lemma Finished(s: string, argv: seq<Span>, rs: seq<Redirect<Span>>)
    requires SpansOk(s, argv) && RedirsOk(s, rs)
    ensures TreeOk(s, Wrap(Exec(argv), rs)) && Text(s, Wrap(Exec(argv), rs)) == Wrap(Exec(Words(s, argv)), Files(s, rs))
  {
    TextWrap(s, Exec(argv), rs);
  }

  /** parseexec and parseblock. */
  method ParseExecAt(s: string, i: nat) returns (ok: bool, c: Cmd<Span>, j: nat)
    requires i <= |s|
    ensures Delivers(s, ParseExec(From(s, i)), ok, c, j)
    decreases |s| - i, 0
  {
    hide From, Skip, Next, Peeks, Files, Redirs, Args, RedirsOk, Words, SpansOk, ParseLine, Text, TreeOk, Wrap;
    NoWords(s);
    c := Exec([]);
    var block, p := Peek(s, i, {'('});
    SkipTwice(s, i, p);
    if !block {
      SkipFirst(s, i, p);
      var fine, rs, k := ParseRedirs(s, p, []);
      if !fine {
        return false, c, i;
      }
      ok, c, j := ParseArgs(s, k, rs);
      return;
    }
    Seen(From(s, i), {'('});
    var tok, _, k := GetToken(s, p);
    ok, c, j := ParseLineAt(s, k);
    if !ok {
      return;
    }
    var closes, n := Peek(s, j, {')'});
    if !closes {
      return false, c, j;
    }
    SkipTwice(s, j, n);
    var tok', _, m := GetToken(s, n);
    var fine, rs, e := ParseRedirs(s, m, []);
    if !fine {
      return false, c, j;
    }
    TextWrap(s, c, rs);
    return true, Wrap(c, rs), e;
  }

  lemma SkipFirst(s: string, i: nat, p: nat)
    requires i <= p <= |s| && From(s, p) == Skip(From(s, i))
    ensures Redirs([], From(s, p)) == Redirs([], From(s, i))
  {
    hide From, Skip, Next;
    SkipTwice(s, i, p);
    RedirsSkip(From(s, i), From(s, p));
  }

  lemma RedirsSkip(t: string, u: string)
    requires u == Skip(t) && Skip(u) == u && Next(u) == Next(t)
    ensures Redirs([], u) == Redirs([], t)
  {
    hide From, Skip, Next;
  }

  method ParsePipeAt(s: string, i: nat) returns (ok: bool, c: Cmd<Span>, j: nat)
    requires i <= |s|
    ensures Delivers(s, ParsePipe(From(s, i)), ok, c, j)
    decreases |s| - i, 1
  {
    hide From, Skip, Next, Peeks, ParseExec, Text, TreeOk;
    ok, c, j := ParseExecAt(s, i);
    if !ok {
      return;
    }
    var pipe, p := Peek(s, j, {'|'});
    if !pipe {
      return true, c, p;
    }
    SkipTwice(s, j, p);
    Seen(From(s, j), {'|'});
    var tok, _, k := GetToken(s, p);
    var d;
    ok, d, j := ParsePipeAt(s, k);
    if ok {
      TextPair(s, c, d);
      c := Pipe(c, d);
    }
  }

  lemma TextPair(s: string, c: Cmd<Span>, d: Cmd<Span>)
    requires TreeOk(s, c) && TreeOk(s, d)
    ensures TreeOk(s, Pipe(c, d)) && Text(s, Pipe(c, d)) == Pipe(Text(s, c), Text(s, d))
    ensures TreeOk(s, List(c, d)) && Text(s, List(c, d)) == List(Text(s, c), Text(s, d))
    ensures TreeOk(s, Back(c)) && Text(s, Back(c)) == Back(Text(s, c))
  {
  }

  method ParseLineAt(s: string, i: nat) returns (ok: bool, c: Cmd<Span>, j: nat)
    requires i <= |s|
    ensures Delivers(s, ParseLine(From(s, i)), ok, c, j)
    decreases |s| - i, 2
  {
    hide From, Skip, Next, Peeks, ParsePipe, Text, TreeOk, Backs;
    ok, c, j := ParsePipeAt(s, i);
    if !ok {
      return;
    }
    c, j := ParseBacks(s, j, c);
    var list, p := Peek(s, j, {';'});
    if !list {
      return true, c, j;
    }
    SkipTwice(s, j, p);
    Seen(From(s, j), {';'});
    var tok, _, k := GetToken(s, p);
    var d;
    ok, d, j := ParseLineAt(s, k);
    if ok {
      TextPair(s, c, d);
      c := List(c, d);
    }
  }

  method ParseBacks(s: string, i: nat, c0: Cmd<Span>) returns (c: Cmd<Span>, j: nat)
    requires i <= |s| && TreeOk(s, c0)
    ensures TreeOk(s, c) && i <= j <= |s| && Backs(Text(s, c0), From(s, i)) == (Text(s, c), From(s, j))
  {
    hide From, Skip, Next, Peeks, Text, TreeOk, Backs;
    c, j := c0, i;
    var more, p := Peek(s, j, {'&'});
    while more
      invariant i <= j <= p <= |s| && TreeOk(s, c) && more == Peeks(From(s, j), {'&'}) && From(s, p) == Skip(From(s, j))
      invariant Backs(Text(s, c), From(s, j)) == Backs(Text(s, c0), From(s, i))
      decreases |s| - j
    {
      SkipTwice(s, j, p);
      Seen(From(s, j), {'&'});
      var tok, _, k := GetToken(s, p);
      BackStep(Text(s, c), From(s, j), From(s, k));
      TextPair(s, c, c);
      c, j := Back(c), k;
      more, p := Peek(s, j, {'&'});
    }
    BacksStop(Text(s, c), From(s, j));
    j := p;
  }

  // ---------------------------------------------------------------- NUL termination

  /** Position k is right behind a word of c. */
  ghost predicate IsEnd(c: Cmd<Span>, k: nat) {
    match c
    case Exec(argv) => exists i :: 0 <= i < |argv| && argv[i].eq == k
    case Redir(d, to) => IsEnd(d, k) || to.file.eq == k
    case Pipe(l, r) => IsEnd(l, k) || IsEnd(r, k)
    case List(l, r) => IsEnd(l, k) || IsEnd(r, k)
    case Back(d) => IsEnd(d, k)
  }

  /** nulterminate: a NUL behind every word, nothing else changed. */
  method Nulterminate(a: array<char>, ghost s: string, c: Cmd<Span>)
    requires TreeOk(s, c) && |s| < a.Length
    modifies a
    ensures forall k :: 0 <= k < a.Length ==> a[k] == if IsEnd(c, k) then '\0' else old(a[k])
    decreases c
  {
    match c
    case Exec(argv) =>
      var i := 0;
      while i < |argv|
        invariant 0 <= i <= |argv|
        invariant forall k :: 0 <= k < a.Length ==>
          a[k] == if (exists j :: 0 <= j < i && argv[j].eq == k) then '\0' else old(a[k])
      {
        assert SpanOk(s, argv[i]);
        a[argv[i].eq] := '\0';
        i := i + 1;
      }
    case Redir(d, to) =>
      Nulterminate(a, s, d);
      a[to.file.eq] := '\0';
    case Pipe(l, r) =>
      Nulterminate(a, s, l);
      Nulterminate(a, s, r);
    case List(l, r) =>
      Nulterminate(a, s, l);
      Nulterminate(a, s, r);
    case Back(d) =>
      Nulterminate(a, s, d);
  }

  /** The C string starting at q. */
  ghost function CString(b: string, q: nat): string
    requires q <= |b|
    decreases |b| - q
  {
    if q < |b| && b[q] != '\0' then [b[q]] + CString(b, q + 1) else []
  }

  /** The tree as runcmd reads it: every word is the C string at its start. */
  ghost function CText(b: string, c: Cmd<Span>): Cmd<string> {
    match c
    case Exec(argv) => Exec(seq(|argv|, i requires 0 <= i < |argv| =>
      if argv[i].q <= |b| then CString(b, argv[i].q) else []))
    case Redir(d, to) => Redir(CText(b, d), Redirect(if to.file.q <= |b| then CString(b, to.file.q) else [], to.mode))
    case Pipe(l, r) => Pipe(CText(b, l), CText(b, r))
    case List(l, r) => List(CText(b, l), CText(b, r))
    case Back(d) => Back(CText(b, d))
  }

  lemma {:induction false} CStringIs(b: string, q: nat, w: string)
    requires q + |w| < |b| && b[q + |w|] == '\0' && forall k :: 0 <= k < |w| ==> b[q + k] == w[k] != '\0'
    ensures CString(b, q) == w
    decreases |w|
  {
    if w != [] {
      CStringIs(b, q + 1, w[1..]);
      assert w == [w[0]] + w[1..];
    }
  }

  /** Ends of words are not inside words. */
  lemma {:induction false} EndOutside(s: string, c: Cmd<Span>, k: nat)
    requires TreeOk(s, c) && IsEnd(c, k) && k < |s|
    ensures !IsWordChar(s[k])
    decreases c
  {
    match c
    case Exec(argv) =>
      var i :| 0 <= i < |argv| && argv[i].eq == k;
      assert SpanOk(s, argv[i]);
    case Redir(d, to) =>
      if IsEnd(d, k) {
        EndOutside(s, d, k);
      }
    case Pipe(l, r) =>
      if IsEnd(l, k) {
        EndOutside(s, l, k);
      } else {
        EndOutside(s, r, k);
      }
    case List(l, r) =>
      if IsEnd(l, k) {
        EndOutside(s, l, k);
      } else {
        EndOutside(s, r, k);
      }
    case Back(d) => EndOutside(s, d, k);
  }

  /** b is the line s with NULs at the ends of words of whole. */
  ghost predicate Terminated(s: string, whole: Cmd<Span>, b: string) {
    && |b| == |s| + 1 && TreeOk(s, whole)
    && (forall k :: 0 <= k < |s| ==> s[k] != '\0')
    && forall k :: 0 <= k < |b| ==> b[k] == if IsEnd(whole, k) || k == |s| then '\0' else s[k]
  }

  lemma WordReads(s: string, whole: Cmd<Span>, b: string, w: Span)
    requires Terminated(s, whole, b) && SpanOk(s, w) && IsEnd(whole, w.eq)
    ensures CString(b, w.q) == s[w.q..w.eq]
  {
    var t := s[w.q..w.eq];
    forall k | 0 <= k < |t| ensures b[w.q + k] == t[k] != '\0' {
      assert IsWordChar(s[w.q + k]);
      if IsEnd(whole, w.q + k) {
        EndOutside(s, whole, w.q + k);
      }
    }
    CStringIs(b, w.q, t);
  }

  /** After nulterminate every argument and file name reads as exactly its token. */
  lemma {:induction false} TreeReads(s: string, whole: Cmd<Span>, b: string, c: Cmd<Span>)
    requires Terminated(s, whole, b) && TreeOk(s, c) && forall k: nat :: IsEnd(c, k) ==> IsEnd(whole, k)
    ensures CText(b, c) == Text(s, c)
    decreases c
  {
    match c
    case Exec(argv) =>
      forall i | 0 <= i < |argv| ensures CString(b, argv[i].q) == s[argv[i].q..argv[i].eq] {
        assert SpanOk(s, argv[i]) && IsEnd(c, argv[i].eq);
        WordReads(s, whole, b, argv[i]);
      }
    case Redir(d, to) =>
      TreeReads(s, whole, b, d);
      assert IsEnd(c, to.file.eq);
      WordReads(s, whole, b, to.file);
    case Pipe(l, r) =>
      TreeReads(s, whole, b, l);
      TreeReads(s, whole, b, r);
    case List(l, r) =>
      TreeReads(s, whole, b, l);
      TreeReads(s, whole, b, r);
    case Back(d) => TreeReads(s, whole, b, d);
  }

  /** parsecmd on a NUL-terminated line: the tree of the grammar, with words that read as their
      tokens, or its panic with the line untouched. */
  method ParseCmd(a: array<char>) returns (r: Option<Cmd<Span>>)
    requires a.Length > 0 && a[a.Length - 1] == '\0' && forall k :: 0 <= k < a.Length - 1 ==> a[k] != '\0'
    modifies a
    ensures r.None? <==> Parse(old(a[..a.Length - 1])).Panic?
    ensures r.None? ==> a[..] == old(a[..])
    ensures r.Some? ==> CText(a[..], r.value) == Parse(old(a[..a.Length - 1])).value
  {
    hide Skip, Next, ParseLine, Text, TreeOk, CText;
    var s := a[..a.Length - 1];
    assert From(s, 0) == s;
    var ok, c, j := ParseLineAt(s, 0);
    if !ok {
      return None;
    }
    var _, p := Peek(s, j, {});
    if p != |s| {
      return None;
    }
    Nulterminate(a, s, c);
    TreeReads(s, c, a[..], c);
    r := Some(c);
  }
}
