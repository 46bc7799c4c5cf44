/** The shell's parser on characters: the scanner, the recursive descent with its
    moving cursor, and nulterminate. A C string is the characters before its NUL. */
module Shell {
  import opened ShellGrammar

  const NUL := '\0'

  /** Where a word begins and ends (argv and eargv, file and efile). */
  datatype Span = Span(a: nat, b: nat)

  // ----- the scanner's view of a string -----

  predicate IsSpace(c: char) {
    c == ' ' || c == '\t' || c == '\r' || c == '\n' || c as int == 11
  }

  predicate IsSymbol(c: char) {
    c == '<' || c == '|' || c == '>' || c == '&' || c == ';' || c == '(' || c == ')'
  }

  predicate IsLetter(c: char) {
    !IsSpace(c) && !IsSymbol(c)
  }

  /** The first position from p on that is no white space. */
  function Skip(s: string, p: nat): (q: nat)
    requires p <= |s|
    ensures p <= q <= |s| && (forall i | p <= i < q :: IsSpace(s[i])) && (q < |s| ==> !IsSpace(s[q]))
    decreases |s| - p
  {
    if p < |s| && IsSpace(s[p]) then Skip(s, p + 1) else p
  }

  function WordEnd(s: string, p: nat): (q: nat)
    requires p <= |s|
    ensures p <= q <= |s| && (forall i | p <= i < q :: IsLetter(s[i])) && (q < |s| ==> !IsLetter(s[q]))
    decreases |s| - p
  {
    if p < |s| && IsLetter(s[p]) then WordEnd(s, p + 1) else p
  }

  /** Where the token at p ends. */
  function TokEnd(s: string, p: nat): (q: nat)
    requires p < |s| && !IsSpace(s[p])
    ensures p < q <= |s|
  {
    if IsLetter(s[p]) then WordEnd(s, p)
    else if s[p] == '>' && p + 1 < |s| && s[p + 1] == '>' then p + 2
    else p + 1
  }

  function TokAt(s: string, p: nat): Tok<Span>
    requires p < |s| && !IsSpace(s[p])
  {
    if IsLetter(s[p]) then Word(Span(p, WordEnd(s, p)))
    else Sym(if TokEnd(s, p) == p + 2 then '+' else s[p])
  }

  /** The tokens from p on. */
  function Lex(s: string, p: nat): seq<Tok<Span>>
    requires p <= |s|
    decreases |s| - p
  {
    var q := Skip(s, p);
    if q == |s| then [] else [TokAt(s, q)] + Lex(s, TokEnd(s, q))
  }

  lemma {:induction false} SkipIdle(s: string, p: nat, q: nat)
    requires p <= q <= |s| && forall i | p <= i < q :: IsSpace(s[i])
    ensures Skip(s, p) == Skip(s, q) && Lex(s, p) == Lex(s, q)
    decreases q - p
  {
    if p < q {
      SkipIdle(s, p + 1, q);
    }
  }

  // ----- the scanner -----

  /** The token kinds gettoken returns: 0 at the end, 'a' for a word, '+' for >>,
      the symbol itself otherwise. */
  datatype Kind = End | Letters | Symbol(c: char)

  ghost predicate KindIs(ts: seq<Tok<Span>>, k: Kind, q: nat, eq: nat) {
    match k
    case End => ts == []
    case Letters => ts != [] && ts[0] == Word(Span(q, eq))
    case Symbol(c) => ts != [] && ts[0] == Sym(c)
  }

  method GetToken(s: string, p: nat) returns (k: Kind, q: nat, eq: nat, p': nat)
    requires p <= |s| && NUL !in s
    ensures p <= p' <= |s| && KindIs(Lex(s, p), k, q, eq)
    ensures Lex(s, p') == if k == End then [] else Lex(s, p)[1..]
  {
    var i := p;
    while i < |s| && IsSpace(s[i])
      invariant p <= i <= |s| && forall j | p <= j < i :: IsSpace(s[j])
    {
      i := i + 1;
    }
    SkipIdle(s, p, i);
    q := i;
    k := End;
    if i < |s| {
      if IsSymbol(s[i]) {
        k := Symbol(s[i]);
        i := i + 1;
        if s[q] == '>' && i < |s| && s[i] == '>' {
          k := Symbol('+');
          i := i + 1;
        }
      } else {
        k := Letters;
        while i < |s| && !IsSpace(s[i]) && !IsSymbol(s[i])
          invariant q <= i <= |s| && WordEnd(s, q) == WordEnd(s, i)
        {
          i := i + 1;
        }
      }
      assert i == TokEnd(s, q);
    }
    eq := i;
    while i < |s| && IsSpace(s[i])
      invariant eq <= i <= |s| && forall j | eq <= j < i :: IsSpace(s[j])
    {
      i := i + 1;
    }
    SkipIdle(s, eq, i);
    p' := i;
  }

  /** The character a token begins with, if it is a symbol. */
  predicate Begins(ts: seq<Tok<Span>>, toks: string) {
    ts != [] && ts[0].Sym? && (if ts[0].c == '+' then '>' else ts[0].c) in toks
  }

  method Peek(s: string, p: nat, toks: string) returns (b: bool, p': nat)
    requires p <= |s| && forall i | 0 <= i < |toks| :: IsSymbol(toks[i])
    ensures p <= p' <= |s| && Lex(s, p') == Lex(s, p) && (b <==> Begins(Lex(s, p), toks))
    ensures Lex(s, p) == [] ==> p' == |s|
  {
    p' := p;
    while p' < |s| && IsSpace(s[p'])
      invariant p <= p' <= |s| && forall j | p <= j < p' :: IsSpace(s[j])
    {
      p' := p' + 1;
    }
    SkipIdle(s, p, p');
    b := p' < |s| && s[p'] in toks;
  }

  // ----- the parser -----

  type Result = Parsed<Cmd<Span>, nat>

  /** The parser on characters did what the grammar says for the tokens ahead. */
  ghost predicate Agrees(s: string, g: Parsed<Cmd<Span>, seq<Tok<Span>>>, r: Result) {
    match g
    case Err(e) => r == Err(e)
    case Ok(c, rest) => r.Ok? && r.value == c && r.rest <= |s| && Lex(s, r.rest) == rest
  }

  method ParseRedirs(s: string, cmd: Cmd<Span>, p: nat) returns (r: Result)
    requires p <= |s| && NUL !in s
    ensures Agrees(s, Redirs(cmd, Lex(s, p)), r)
  {
    hide Lex, Skip;
    var c, i := cmd, p;
    while true
      invariant 0 <= i <= |s| && Redirs(cmd, Lex(s, p)) == Redirs(c, Lex(s, i))
      decreases |Lex(s, i)|
    {
      var b;
      b, i := Peek(s, i, "<>");
      if !b {
        return Ok(c, i);
      }
      var tok, k, q, eq;
      tok, q, eq, i := GetToken(s, i);
      k, q, eq, i := GetToken(s, i);
      if k != Letters {
        return Err(MissingFile);
      }
      c := Redir(c, Span(q, eq), if tok == Symbol('<') then In else if tok == Symbol('>') then Out else Append);
    }
  }

  method ParseExec(s: string, p: nat) returns (r: Result)
    requires p <= |s| && NUL !in s
    ensures Agrees(s, Simple(Lex(s, p)), r)
    decreases |Lex(s, p)|, 0
  {
    hide Lex, Skip, Redirs, Line, Block;
    var b, i := Peek(s, p, "(");
    if b {
      r := ParseBlock(s, i);
      return;
    }
    var args := [];
    r := ParseRedirs(s, Exec([]), i);
    if r.Err? {
      return;
    }
    var inner;
    inner, i := r.value, r.rest;
    b, i := Peek(s, i, "|)&;");
    while !b
      invariant 0 <= i <= |s| && Simple(Lex(s, p)) == ShellGrammar.Words(inner, args, Lex(s, i))
      invariant b <==> AtStop(Lex(s, i))
      decreases |Lex(s, i)|, !b
    {
      var tok, q, eq;
      tok, q, eq, i := GetToken(s, i);
      if tok == End {
        break;
      }
      if tok != Letters {
        return Err(Syntax);
      }
      if |args| + 1 >= MAXARGS {
        return Err(TooManyArgs);
      }
      r := ParseRedirs(s, inner, i);
      if r.Err? {
        return;
      }
      args := args + [Span(q, eq)];
      inner, i := r.value, r.rest;
      b, i := Peek(s, i, "|)&;");
    }
    r := Ok(Around(inner, args), i);
  }

  method ParseBlock(s: string, p: nat) returns (r: Result)
    requires p <= |s| && NUL !in s && At(Lex(s, p), '(')
    ensures Agrees(s, Block(Lex(s, p)), r)
    decreases |Lex(s, p)| - 1, 9
  {
    var b, i := Peek(s, p, "(");
    var tok, q, eq;
    tok, q, eq, i := GetToken(s, i);
    r := ParseLine(s, i);
    if r.Err? {
      return;
    }
    b, i := Peek(s, r.rest, ")");
    if !b {
      return Err(MissingParen);
    }
    tok, q, eq, i := GetToken(s, i);
    r := ParseRedirs(s, r.value, i);
  }

  method ParsePipe(s: string, p: nat) returns (r: Result)
    requires p <= |s| && NUL !in s
    ensures Agrees(s, Pipeline(Lex(s, p)), r)
    decreases |Lex(s, p)|, 1
  {
    r := ParseExec(s, p);
    if r.Err? {
      return;
    }
    var b, i := Peek(s, r.rest, "|");
    if b {
      var tok, q, eq;
      tok, q, eq, i := GetToken(s, i);
      var right := ParsePipe(s, i);
      r := if right.Err? then right else Ok(Pipe(r.value, right.value), right.rest);
    } else {
      r := Ok(r.value, i);
    }
  }

  method ParseLine(s: string, p: nat) returns (r: Result)
    requires p <= |s| && NUL !in s
    ensures Agrees(s, Line(Lex(s, p)), r)
    decreases |Lex(s, p)|, 2
  {
    hide Lex, Skip, Pipeline;
    r := ParsePipe(s, p);
    if r.Err? {
      return;
    }
    var cmd := r.value;
    var b, i := Peek(s, r.rest, "&");
    ghost var g := Pipeline(Lex(s, p));
    while b
      invariant 0 <= i <= |s| && Ampersands(g.value, g.rest) == Ampersands(cmd, Lex(s, i))
      invariant b <==> At(Lex(s, i), '&')
      decreases |Lex(s, i)|, b
    {
      var tok, q, eq;
      tok, q, eq, i := GetToken(s, i);
      cmd := Back(cmd);
      b, i := Peek(s, i, "&");
    }
    b, i := Peek(s, i, ";");
    if b {
      var tok, q, eq;
      tok, q, eq, i := GetToken(s, i);
      var right := ParseLine(s, i);
      r := if right.Err? then right else Ok(List(cmd, right.value), right.rest);
    } else {
      r := Ok(cmd, i);
    }
  }

  // ----- words in the buffer -----

  /** A word is not empty, made of letters, and as long as it can be. */
  predicate GoodSpan(s: string, w: Span) {
    w.a < w.b <= |s| && (forall i | w.a <= i < w.b :: IsLetter(s[i])) && (w.b < |s| ==> !IsLetter(s[w.b]))
  }

  function SpanText(s: string, w: Span): string {
    if w.a <= w.b <= |s| then s[w.a..w.b] else []
  }

  lemma {:induction false} TokensGood(s: string, p: nat, i: nat)
    requires p <= |s| && i < |Lex(s, p)| && Lex(s, p)[i].Word?
    ensures GoodSpan(s, Lex(s, p)[i].w)
    decreases i
  {
    if i > 0 {
      TokensGood(s, TokEnd(s, Skip(s, p)), i - 1);
    }
  }

  /** Every word of a parsed command is a maximal word of the text. */
  lemma WordsGood(s: string, w: Span)
    requires Line(Lex(s, 0)).Ok? && HasWord(Line(Lex(s, 0)).value, w)
    ensures GoodSpan(s, w)
  {
    var ts := Lex(s, 0);
    LineFrom(ts, ts);
    var i :| 0 <= i < |ts| && ts[i] == Word(w);
    TokensGood(s, 0, i);
  }

  /** Where some word ends. */
  ghost predicate IsEnd(t: Cmd<Span>, i: nat) {
    exists w :: HasWord(t, w) && w.b == i
  }

  /** No word's end lies in a word, so ending one never changes another. */
  lemma EndsOutside(s: string, t: Cmd<Span>, w: Span, i: nat)
    requires (forall v | HasWord(t, v) :: GoodSpan(s, v)) && HasWord(t, w) && IsEnd(t, i)
    ensures !(w.a <= i < w.b)
  {
  }

  ghost predicate InBuffer(t: Cmd<Span>, n: nat) {
    forall w | HasWord(t, w) :: w.b < n
  }

  /** The buffer with a NUL at the end of each word of t. */
  ghost predicate Cut(t: Cmd<Span>, b: seq<char>, c: seq<char>) {
    |c| == |b| && forall i: nat | i < |b| :: c[i] == if IsEnd(t, i) then NUL else b[i]
  }

  lemma CutBoth(t: Cmd<Span>, l: Cmd<Span>, r: Cmd<Span>, b: seq<char>, c: seq<char>, d: seq<char>)
    requires Cut(l, b, c) && Cut(r, c, d) && forall w :: HasWord(t, w) <==> HasWord(l, w) || HasWord(r, w)
    ensures Cut(t, b, d)
  {
    forall i: nat | i < |b|
      ensures IsEnd(t, i) <==> IsEnd(l, i) || IsEnd(r, i)
    {
      if w :| HasWord(l, w) && w.b == i {
        assert HasWord(t, w);
      }
      if w :| HasWord(r, w) && w.b == i {
        assert HasWord(t, w);
      }
    }
  }

  lemma CutFile(t: Cmd<Span>, c: Cmd<Span>, f: Span, b: seq<char>, d: seq<char>)
    requires Cut(c, b, d) && f.b < |b| && forall w :: HasWord(t, w) <==> HasWord(c, w) || w == f
    ensures Cut(t, b, d[f.b := NUL])
  {
    forall i: nat | i < |b|
      ensures IsEnd(t, i) <==> IsEnd(c, i) || i == f.b
    {
      if w :| HasWord(c, w) && w.b == i {
        assert HasWord(t, w);
      }
      assert HasWord(t, f);
    }
  }

  /** nulterminate: a NUL is written at the end of each word of the tree, and
      nothing else. */
  method NulTerminate(t: Cmd<Span>, buf: array<char>)
    requires InBuffer(t, buf.Length)
    modifies buf
    ensures Cut(t, old(buf[..]), buf[..])
    decreases t
  {
    hide Cut, IsEnd;
    match t
    case Exec(args) =>
      var i := 0;
      NothingCut(args, buf[..]);
      while i < |args|
        invariant 0 <= i <= |args| && Cut(Exec(args[..i]), old(buf[..]), buf[..])
      {
        assert HasWord(t, args[i]);
        CutFile(Exec(args[..i + 1]), Exec(args[..i]), args[i], old(buf[..]), buf[..]);
        buf[args[i].b] := NUL;
        i := i + 1;
      }
      assert args[..i] == args;
    case Redir(c, f, _) =>
      assert InBuffer(c, buf.Length) && HasWord(t, f) by {
        assert forall w | HasWord(c, w) :: HasWord(t, w);
      }
      NulTerminate(c, buf);
      CutFile(t, c, f, old(buf[..]), buf[..]);
      buf[f.b] := NUL;
    case Pipe(l, r) =>
      assert InBuffer(l, buf.Length) && InBuffer(r, buf.Length) by {
        assert forall w | HasWord(l, w) || HasWord(r, w) :: HasWord(t, w);
      }
      NulTerminate(l, buf);
      ghost var b1 := buf[..];
      NulTerminate(r, buf);
      CutBoth(t, l, r, old(buf[..]), b1, buf[..]);
    case List(l, r) =>
      assert InBuffer(l, buf.Length) && InBuffer(r, buf.Length) by {
        assert forall w | HasWord(l, w) || HasWord(r, w) :: HasWord(t, w);
      }
      NulTerminate(l, buf);
      ghost var b1 := buf[..];
      NulTerminate(r, buf);
      CutBoth(t, l, r, old(buf[..]), b1, buf[..]);
    case Back(c) =>
      assert InBuffer(c, buf.Length) by {
        assert forall w | HasWord(c, w) :: HasWord(t, w);
      }
      NulTerminate(c, buf);
      SameWords(t, c, old(buf[..]), buf[..]);
  }

  lemma NothingCut(args: seq<Span>, b: seq<char>)
    ensures Cut(Exec(args[..0]), b, b)
  {
  }

  lemma SameWords(t: Cmd<Span>, c: Cmd<Span>, b: seq<char>, d: seq<char>)
    requires Cut(c, b, d) && forall w :: HasWord(t, w) <==> HasWord(c, w)
    ensures Cut(t, b, d)
  {
    forall i: nat | i < |b|
      ensures IsEnd(t, i) <==> IsEnd(c, i)
    {
      if w :| HasWord(t, w) && w.b == i {
        assert HasWord(c, w);
      }
      if w :| HasWord(c, w) && w.b == i {
        assert HasWord(t, w);
      }
    }
  }

  // ----- parsecmd -----

  /** The C string that begins at a. */
  predicate StringAt(b: seq<char>, a: nat, text: string) {
    a + |text| < |b| && b[a..a + |text|] == text && NUL !in text && b[a + |text|] == NUL
  }

  lemma NulEnds(b: seq<char>, s: string, n: nat)
    requires StringAt(b, 0, s) && n <= |s|
    ensures b[n] == NUL <==> n == |s|
  {
    if n < |s| {
      assert b[n] == b[0..0 + |s|][n];
    }
  }

  method Strlen(buf: array<char>, ghost s: string) returns (n: nat)
    requires StringAt(buf[..], 0, s)
    ensures n == |s|
  {
    n := 0;
    NulEnds(buf[..], s, n);
    while buf[n] != NUL
      invariant 0 <= n <= |s| && (buf[n] == NUL <==> n == |s|)
      decreases |s| - n
    {
      n := n + 1;
      NulEnds(buf[..], s, n);
    }
  }

  /** parsecmd on the C string in buf: it fails exactly where the grammar does,
      with the buffer as it was, and else returns the grammar's tree, each word
      of which is now a C string of its own with the text it had. */
  method ParseCmd(buf: array<char>, ghost s: string) returns (r: Parsed<Cmd<Span>, ()>)
    requires StringAt(buf[..], 0, s)
    modifies buf
    ensures r == Command(Lex(s, 0))
    ensures r.Err? ==> buf[..] == old(buf[..])
    ensures r.Ok? ==> forall w | HasWord(r.value, w) :: GoodSpan(s, w) && StringAt(buf[..], w.a, SpanText(s, w))
    ensures r.Ok? ==> forall i: nat | i < buf.Length && !IsEnd(r.value, i) :: buf[i] == old(buf[i])
  {
    var n := Strlen(buf, s);
    var text := buf[..n];
    assert text == buf[0..0 + |s|] == s;
    var l := ParseLine(text, 0);
    if l.Err? {
      return Err(l.why);
    }
    var b, i := Peek(text, l.rest, "");
    if i != n {
      AtRest(text, l.rest, i);
      return Err(Leftovers);
    }
    AtRest(text, l.rest, i);
    forall w | HasWord(l.value, w)
      ensures GoodSpan(s, w)
    {
      WordsGood(s, w);
    }
    NulTerminate(l.value, buf);
    WordsAreStrings(s, l.value, old(buf[..]), buf[..]);
    r := Ok(l.value, ());
  }

  lemma AtRest(s: string, p: nat, i: nat)
    requires p <= i <= |s| && Lex(s, i) == Lex(s, p) && (Lex(s, p) == [] ==> i == |s|)
    ensures Lex(s, p) == [] <==> i == |s|
  {
  }

  lemma WordsAreStrings(s: string, t: Cmd<Span>, b: seq<char>, c: seq<char>)
    requires StringAt(b, 0, s) && Cut(t, b, c) && forall w | HasWord(t, w) :: GoodSpan(s, w)
    ensures forall w | HasWord(t, w) :: StringAt(c, w.a, SpanText(s, w))
    ensures forall i: nat | i < |b| && !IsEnd(t, i) :: c[i] == b[i]
  {
    forall w | HasWord(t, w)
      ensures StringAt(c, w.a, SpanText(s, w))
    {
      forall i: nat | w.a <= i < w.b
        ensures c[i] == s[i]
      {
        if IsEnd(t, i) {
          EndsOutside(s, t, w, i);
        }
        assert b[0..0 + |s|][i] == s[i];
      }
      assert IsEnd(t, w.b);
      assert c[w.a..w.b] == s[w.a..w.b];
    }
  }

  // ----- printing -----

  predicate GoodWord(w: string) {
    w != [] && NUL !in w && forall i | 0 <= i < |w| :: IsLetter(w[i])
  }

  predicate GoodTok(t: Tok<string>) {
    if t.Word? then GoodWord(t.w) else IsSymbol(t.c) || t.c == '+'
  }

  predicate AllGood(ts: seq<Tok<string>>) {
    forall i | 0 <= i < |ts| :: GoodTok(ts[i])
  }

  function TokText(t: Tok<string>): string {
    if t.Word? then t.w else if t.c == '+' then ">>" else [t.c]
  }

  function PrintToks(ts: seq<Tok<string>>): string {
    if ts == [] then [] else TokText(ts[0]) + " " + PrintToks(ts[1..])
  }

  /** A tree's fully parenthesised text. */
  function Print(t: Cmd<string>): string {
    PrintToks(Toks(t))
  }

  function TokOf(s: string, t: Tok<Span>): Tok<string> {
    match t
    case Word(w) => Word(SpanText(s, w))
    case Sym(c) => Sym(c)
  }

  function Texts(s: string, ts: seq<Tok<Span>>): seq<Tok<string>> {
    seq(|ts|, i requires 0 <= i < |ts| => TokOf(s, ts[i]))
  }

  /** One printed token is scanned as itself. */
  lemma ScanOne(s: string, p: nat, t: Tok<string>)
    requires GoodTok(t) && p + |TokText(t)| < |s| && s[p..p + |TokText(t)|] == TokText(t) && s[p + |TokText(t)|] == ' '
    ensures Skip(s, p) == p && TokEnd(s, p) == p + |TokText(t)| && TokOf(s, TokAt(s, p)) == t
  {
    var x := TokText(t);
    assert forall i | 0 <= i < |x| :: x[i] == s[p + i];
    if t.Word? {
      var e := WordEnd(s, p);
      assert e >= p + |x| by {
        assert forall i | p <= i < p + |x| :: s[i] == x[i - p];
      }
      assert e <= p + |x|;
    }
  }

  lemma SplitPrinted(s: string, p: nat, x: string, more: string)
    requires p <= |s| && s[p..] == x + (" " + more)
    ensures p + |x| < |s| && s[p..p + |x|] == x && s[p + |x|] == ' ' && s[p + |x| + 1..] == more
  {
    assert s[p..p + |x|] == s[p..][..|x|];
    assert s[p + |x|] == s[p..][|x|];
    assert s[p + |x| + 1..] == s[p..][|x| + 1..];
  }

  lemma ScanStep(s: string, p: nat, e: nat)
    requires p < |s| && Skip(s, p) == p && TokEnd(s, p) == e
    ensures Texts(s, Lex(s, p)) == [TokOf(s, TokAt(s, p))] + Texts(s, Lex(s, e))
  {
    assert Lex(s, p) == [TokAt(s, p)] + Lex(s, e);
  }

  lemma {:induction false} ScanPrinted(s: string, p: nat, ts: seq<Tok<string>>)
    requires p <= |s| && s[p..] == PrintToks(ts) && AllGood(ts)
    ensures Texts(s, Lex(s, p)) == ts
    decreases |ts|
  {
    if ts == [] {
      assert p == |s|;
    } else {
      var x := TokText(ts[0]);
      var e := p + |x|;
      assert PrintToks(ts) == x + (" " + PrintToks(ts[1..]));
      SplitPrinted(s, p, x, PrintToks(ts[1..]));
      hide PrintToks, TokText, TokAt, TokEnd, WordEnd, GoodTok, Lex, Skip, Texts;
      ScanOne(s, p, ts[0]);
      ScanStep(s, p, e);
      SkipIdle(s, e, e + 1);
      ScanPrinted(s, e + 1, ts[1..]);
    }
  }

  /** The tree with each word's text. */
  function TextOf(s: string, t: Cmd<Span>): Cmd<string> {
    match t
    case Exec(args) => Exec(seq(|args|, i requires 0 <= i < |args| => SpanText(s, args[i])))
    case Redir(c, f, m) => Redir(TextOf(s, c), SpanText(s, f), m)
    case Pipe(l, r) => Pipe(TextOf(s, l), TextOf(s, r))
    case List(l, r) => List(TextOf(s, l), TextOf(s, r))
    case Back(c) => Back(TextOf(s, c))
  }

  /** A tree whose canonical form these tokens are. */
  lemma {:induction false} Placed(s: string, t: Cmd<string>, ts: seq<Tok<Span>>) returns (u: Cmd<Span>)
    requires Texts(s, ts) == Toks(t)
    ensures Toks(u) == ts && TextOf(s, u) == t
    decreases t, 0
  {
    match t
    case Exec(args) =>
      forall i | 0 <= i < |args|
        ensures TokOf(s, ts[i]) == Word(args[i])
      {
        assert Texts(s, ts)[i] == Toks(t)[i];
      }
      u := Exec(seq(|args|, i requires 0 <= i < |args| => ts[i].w));
      assert Toks(u) == ts;
      assert TextOf(s, u) == t;
    case Redir(c, f, m) =>
      var v, rest := PlacedParen(s, c, ts, [ModeTok(m), Word(f)]);
      assert TokOf(s, rest[0]) == Texts(s, rest)[0] && TokOf(s, rest[1]) == Texts(s, rest)[1];
      u := Redir(v, rest[1].w, m);
      assert rest == [ModeTok(m), Word(rest[1].w)];
    case Pipe(l, r) =>
      var v, rest := PlacedParen(s, l, ts, [Sym('|')] + Paren(r));
      var w := PlacedAfter(s, '|', r, rest);
      u := Pipe(v, w);
    case List(l, r) =>
      var v, rest := PlacedParen(s, l, ts, [Sym(';')] + Paren(r));
      var w := PlacedAfter(s, ';', r, rest);
      u := List(v, w);
    case Back(c) =>
      var v, rest := PlacedParen(s, c, ts, [Sym('&')]);
      assert TokOf(s, rest[0]) == Texts(s, rest)[0];
      u := Back(v);
      assert rest == [Sym('&')];
  }

  lemma {:induction false} PlacedParen(s: string, t: Cmd<string>, ts: seq<Tok<Span>>, more: seq<Tok<string>>)
    returns (u: Cmd<Span>, rest: seq<Tok<Span>>)
    requires Texts(s, ts) == Paren(t) + more
    ensures ts == Paren(u) + rest && TextOf(s, u) == t && Texts(s, rest) == more
    decreases t, 1
  {
    var n := |Toks(t)|;
    var all := Texts(s, ts);
    var mid := ts[1..n + 1];
    rest := ts[n + 2..];
    assert Texts(s, mid) == all[1..n + 1] == Toks(t);
    assert Texts(s, rest) == all[n + 2..] == more;
    assert TokOf(s, ts[0]) == all[0] == Sym('(') && TokOf(s, ts[n + 1]) == all[n + 1] == Sym(')');
    u := Placed(s, t, mid);
    assert ts == [ts[0]] + (mid + [ts[n + 1]]) + rest;
  }

  lemma {:induction false} PlacedAfter(s: string, c: char, t: Cmd<string>, ts: seq<Tok<Span>>) returns (u: Cmd<Span>)
    requires Texts(s, ts) == [Sym(c)] + Paren(t)
    ensures ts == [Sym(c)] + Paren(u) && TextOf(s, u) == t
    decreases t, 2
  {
    var all := Texts(s, ts);
    assert TokOf(s, ts[0]) == all[0] == Sym(c);
    assert Texts(s, ts[1..]) == all[1..] == Paren(t) + [];
    var rest;
    u, rest := PlacedParen(s, t, ts[1..], []);
    assert ts == [ts[0]] + ts[1..];
  }

  predicate GoodWords(t: Cmd<string>) {
    match t
    case Exec(args) => forall i | 0 <= i < |args| :: GoodWord(args[i])
    case Redir(c, f, _) => GoodWords(c) && GoodWord(f)
    case Pipe(l, r) => GoodWords(l) && GoodWords(r)
    case List(l, r) => GoodWords(l) && GoodWords(r)
    case Back(c) => GoodWords(c)
  }

  lemma {:induction false} ToksGood(t: Cmd<string>)
    requires GoodWords(t)
    ensures AllGood(Toks(t)) && AllGood(Paren(t))
  {
    match t
    case Exec(args) =>
    case Redir(c, f, m) => ToksGood(c);
    case Pipe(l, r) => ToksGood(l); ToksGood(r);
    case List(l, r) => ToksGood(l); ToksGood(r);
    case Back(c) => ToksGood(c);
  }

  lemma {:induction false} PrintedNoNul(ts: seq<Tok<string>>)
    requires AllGood(ts)
    ensures NUL !in PrintToks(ts)
  {
    if ts != [] {
      PrintedNoNul(ts[1..]);
      assert GoodTok(ts[0]);
    }
  }

  /** The parser inverts printing: for every tree with at most MAXARGS - 1
      arguments to a command, and words free of white space and symbols, parsing
      its fully parenthesised text gives the tree. */
  lemma ParseInvertsPrint(t: Cmd<string>)
    requires Parsable(t) && GoodWords(t)
    ensures NUL !in Print(t)
    ensures var r := Command(Lex(Print(t), 0)); r.Ok? && TextOf(Print(t), r.value) == t
  {
    var s := Print(t);
    ToksGood(t);
    PrintedNoNul(Toks(t));
    assert s[0..] == s;
    ScanPrinted(s, 0, Toks(t));
    var u := Placed(s, t, Lex(s, 0));
    SameShape(s, u);
    ReadBack(u, []);
    assert Toks(u) + [] == Toks(u);
  }

  lemma {:induction false} SameShape(s: string, u: Cmd<Span>)
    requires Parsable(TextOf(s, u))
    ensures Parsable(u)
  {
    match u
    case Exec(args) =>
    case Redir(c, _, _) => SameShape(s, c);
    case Pipe(l, r) => SameShape(s, l); SameShape(s, r);
    case List(l, r) => SameShape(s, l); SameShape(s, r);
    case Back(c) => SameShape(s, c);
  }
}
