/** What the characters of a command line mean: how tokens are spelled, and that
    parsecmd accepts exactly the spellings of the lines of ShellSyntax, with the
    trees they stand for. */
module ShellText {
  import opened ShellGrammar
  import opened ShellSyntax
  import opened Shell

  const WHITE := " \t\r\n" + [11 as char] // the last is \v
  const SYMBOLS := "<|>&;()"

  predicate White(c: char) {
    c in WHITE
  }

  predicate Symbolic(c: char) {
    c in SYMBOLS
  }

  predicate Blank(s: string) {
    forall i | 0 <= i < |s| :: White(s[i])
  }

  predicate Plainly(c: char) {
    !White(c) && !Symbolic(c)
  }

  /** How a token is spelled, if it is one. */
  predicate SpelledAs(t: Tok<string>, x: string) {
    match t
    case Word(w) => x == w && w != [] && forall i | 0 <= i < |w| :: Plainly(w[i])
    case Sym(c) => if c == '+' then x == ">>" else x == [c] && Symbolic(c)
  }

  /** After white space, s[n..m] is the token t, which does not go on at m. */
  predicate Cuts(s: string, n: int, m: int, t: Tok<string>) {
    && 0 <= n <= m <= |s| && Blank(s[..n]) && SpelledAs(t, s[n..m])
    && (m < |s| && t.Word? ==> !Plainly(s[m]))
    && (m < |s| && t == Sym('>') ==> s[m] != '>')
  }

  /** s spells the tokens ts: each begins after any white space and is as long as
      it can be. */
  ghost predicate Spells(s: string, ts: seq<Tok<string>>)
    decreases |ts|
  {
    if ts == [] then Blank(s) else exists n, m :: Cuts(s, n, m, ts[0]) && Spells(s[m..], ts[1..])
  }

  /** The scanner's classes of characters are those of the two strings. */
  lemma Classes()
    ensures forall c :: (IsSpace(c) <==> White(c)) && (IsSymbol(c) <==> Symbolic(c)) && (IsLetter(c) <==> Plainly(c))
    ensures Symbolic('>') && !Symbolic('+') && forall c :: Symbolic(c) ==> !White(c)
  {
  }

  lemma SliceOf(s: string, p: nat, n: nat, m: nat)
    requires n <= m && p + m <= |s|
    ensures s[p..][n..m] == s[p + n..p + m]
  {
  }

  lemma BlankFrom(s: string, p: nat, q: nat)
    requires p <= q <= |s| && forall i | p <= i < q :: IsSpace(s[i])
    ensures Blank(s[p..][..q - p])
  {
    Classes();
    hide White, IsSpace;
    var r := s[p..][..q - p];
    assert forall i | 0 <= i < |r| :: r[i] == s[p + i];
  }

  /** The scanner's next token is the one spelled next. */
  lemma TokenIsSpelled(s: string, p: nat)
    requires p <= |s|
    ensures var q := Skip(s, p);
      if q == |s| then Blank(s[p..]) else Cuts(s[p..], q - p, TokEnd(s, q) - p, TokOf(s, TokAt(s, q)))
  {
    hide IsSpace, Plainly, Blank, SpelledAs, TokEnd, TokAt, TokOf, Cuts;
    SpelledFrom(s, p, Skip(s, p));
  }

  lemma SpelledFrom(s: string, p: nat, q: nat)
    requires p <= q <= |s| && (forall i | p <= i < q :: IsSpace(s[i])) && (q < |s| ==> !IsSpace(s[q]))
    ensures if q == |s| then Blank(s[p..]) else Cuts(s[p..], q - p, TokEnd(s, q) - p, TokOf(s, TokAt(s, q)))
  {
    hide IsSpace, Plainly, Blank, SpelledAs, TokEnd, TokAt, TokOf, Cuts;
    BlankFrom(s, p, q);
    if q < |s| {
      SpelledToken(s, q);
      TokenEnds(s, q);
      CutAt(s, p, q, TokEnd(s, q), TokOf(s, TokAt(s, q)));
    } else {
      assert s[p..][..q - p] == s[p..];
    }
  }

  lemma CutAt(s: string, p: nat, q: nat, e: nat, t: Tok<string>)
    requires p <= q <= e <= |s| && Blank(s[p..][..q - p]) && SpelledAs(t, s[q..e])
    requires e < |s| ==> (t.Word? ==> !Plainly(s[e])) && (t == Sym('>') ==> s[e] != '>')
    ensures Cuts(s[p..], q - p, e - p, t)
  {
    hide Blank, SpelledAs, Plainly;
    SliceOf(s, p, q - p, e - p);
    assert e < |s| ==> s[p..][e - p] == s[e];
  }

  lemma SpelledToken(s: string, q: nat)
    requires q < |s| && !IsSpace(s[q])
    ensures SpelledAs(TokOf(s, TokAt(s, q)), s[q..TokEnd(s, q)])
  {
    Classes();
    hide White, Symbolic, IsSymbol, Plainly;
    var e := TokEnd(s, q);
    assert forall i | 0 <= i < e - q :: s[q..e][i] == s[q + i];
  }

  lemma TokenEnds(s: string, q: nat)
    requires q < |s| && !IsSpace(s[q])
    ensures var e, t := TokEnd(s, q), TokOf(s, TokAt(s, q));
      e < |s| ==> (t.Word? ==> !Plainly(s[e])) && (t == Sym('>') ==> s[e] != '>')
  {
    Classes();
    hide White, Symbolic, IsSymbol, Plainly;
  }

  /** Only one token can be spelled next. */
  lemma CutIsToken(s: string, p: nat, n: int, m: int, t: Tok<string>)
    requires p <= |s| && Cuts(s[p..], n, m, t)
    ensures Skip(s, p) == p + n < |s| && TokEnd(s, p + n) == p + m && TokOf(s, TokAt(s, p + n)) == t
  {
    hide White, Symbolic, IsSpace, IsSymbol, IsLetter, Plainly, TokEnd, TokAt, TokOf, Blank, SpelledAs;
    SliceOf(s, p, n, m);
    var q := p + n;
    assert m < |s[p..]| ==> s[p..][m] == s[p + m];
    SpacesUpTo(s, p, n);
    SkipIdle(s, p, q);
    OneToken(s, q, p + m, t);
  }

  lemma SpacesUpTo(s: string, p: nat, n: nat)
    requires p + n <= |s| && Blank(s[p..][..n])
    ensures forall i | p <= i < p + n :: IsSpace(s[i])
  {
    Classes();
    hide White, IsSpace;
    var r := s[p..][..n];
    forall i | p <= i < p + n
      ensures IsSpace(s[i])
    {
      assert r[i - p] == s[i];
    }
  }

  lemma OneToken(s: string, q: nat, e: nat, t: Tok<string>)
    requires q <= e <= |s| && SpelledAs(t, s[q..e])
    requires e < |s| ==> (t.Word? ==> !Plainly(s[e])) && (t == Sym('>') ==> s[e] != '>')
    ensures q < |s| && Skip(s, q) == q && TokEnd(s, q) == e && TokOf(s, TokAt(s, q)) == t
  {
    Classes();
    hide White, Symbolic, IsSymbol, Plainly;
    var x := s[q..e];
    assert x != [] && x[0] == s[q];
    assert !IsSpace(s[q]);
    if t.Word? {
      assert forall i | q <= i < e :: s[i] == x[i - q];
      assert WordEnd(s, q) == e;
    } else if t.c == '+' {
      assert s[q] == x[0] == '>' && s[q + 1] == x[1] == '>';
    }
  }

  /** The scanner finds exactly the tokens a string spells. */
  lemma {:induction false} LexIsSpelling(s: string, p: nat, ts: seq<Tok<string>>)
    requires p <= |s|
    ensures Spells(s[p..], ts) <==> Texts(s, Lex(s, p)) == ts
    decreases |ts|
  {
    hide IsSpace, White, TokEnd, TokAt, TokOf, SpelledAs, Blank, Plainly, Lex, Texts;
    var q := Skip(s, p);
    TokenIsSpelled(s, p);
    if ts == [] {
      if q < |s| {
        LexStep(s, p);
        NotBlank(s, p);
      } else {
        LexEnd(s, p);
      }
    } else {
      if q == |s| {
        LexEnd(s, p);
      } else {
        LexStep(s, p);
        var e := TokEnd(s, q);
        LexIsSpelling(s, e, ts[1..]);
        assert s[p..][e - p..] == s[e..];
        if Texts(s, Lex(s, p)) == ts {
          assert ts[0] == TokOf(s, TokAt(s, q)) && ts[1..] == Texts(s, Lex(s, e));
          assert Cuts(s[p..], q - p, e - p, ts[0]);
        }
      }
      if Spells(s[p..], ts) {
        var n, m :| Cuts(s[p..], n, m, ts[0]) && Spells(s[p..][m..], ts[1..]);
        CutIsToken(s, p, n, m, ts[0]);
      }
    }
  }

  lemma LexEnd(s: string, p: nat)
    requires p <= |s| && Skip(s, p) == |s|
    ensures Texts(s, Lex(s, p)) == []
  {
  }

  lemma NotBlank(s: string, p: nat)
    requires p <= |s| && Skip(s, p) < |s|
    ensures !Blank(s[p..])
  {
    var q := Skip(s, p);
    Classes();
    assert s[p..][q - p] == s[q];
  }

  lemma LexStep(s: string, p: nat)
    requires p <= |s| && Skip(s, p) < |s|
    ensures var q := Skip(s, p);
      Texts(s, Lex(s, p)) == [TokOf(s, TokAt(s, q))] + Texts(s, Lex(s, TokEnd(s, q)))
  {
    var q := Skip(s, p);
    assert Lex(s, p) == [TokAt(s, q)] + Lex(s, TokEnd(s, q));
  }

  // ----- the same command over positions and over texts -----

  type SpanResult = Parsed<Cmd<Span>, seq<Tok<Span>>>
  type TextResult = Parsed<Cmd<string>, seq<Tok<string>>>

  function ResultText(s: string, r: SpanResult): TextResult {
    match r
    case Err(e) => Err(e)
    case Ok(c, rest) => Ok(TextOf(s, c), Texts(s, rest))
  }

  /** Tokens and their texts have the same symbols in the same places. */
  lemma TextsAt(s: string, ts: seq<Tok<Span>>)
    ensures var xs := Texts(s, ts);
      && |xs| == |ts|
      && (forall c :: At(xs, c) <==> At(ts, c))
      && (forall i | 0 <= i < |ts| :: xs[i].Word? == ts[i].Word? && (ts[i].Word? ==> xs[i].w == SpanText(s, ts[i].w)) && (ts[i].Sym? ==> xs[i] == Sym(ts[i].c)))
      && (forall n | 0 <= n <= |ts| :: xs[n..] == Texts(s, ts[n..]))
  {
    var xs := Texts(s, ts);
    forall n | 0 <= n <= |ts|
      ensures xs[n..] == Texts(s, ts[n..])
    {
    }
  }

  lemma {:induction false} RedirsText(s: string, c: Cmd<Span>, ts: seq<Tok<Span>>)
    ensures Redirs(TextOf(s, c), Texts(s, ts)) == ResultText(s, Redirs(c, ts))
    decreases |ts|
  {
    TextsAt(s, ts);
    if AtRedir(ts) && |ts| >= 2 && ts[1].Word? {
      RedirsText(s, Redir(c, ts[1].w, ModeOf(ts[0].c)), ts[2..]);
    }
  }

  function ArgTexts(s: string, args: seq<Span>): seq<string> {
    seq(|args|, i requires 0 <= i < |args| => SpanText(s, args[i]))
  }

  lemma {:induction false} AroundText(s: string, inner: Cmd<Span>, args: seq<Span>)
    ensures Around(TextOf(s, inner), ArgTexts(s, args)) == TextOf(s, Around(inner, args))
  {
    match inner
    case Redir(c, _, _) => AroundText(s, c, args);
    case _ =>
  }

  lemma {:induction false} WordsText(s: string, inner: Cmd<Span>, args: seq<Span>, ts: seq<Tok<Span>>)
    ensures ShellGrammar.Words(TextOf(s, inner), ArgTexts(s, args), Texts(s, ts)) ==
            ResultText(s, ShellGrammar.Words(inner, args, ts))
    decreases |ts|
  {
    hide Redirs, TextOf;
    TextsAt(s, ts);
    if AtStop(ts) || ts == [] {
      AroundText(s, inner, args);
    } else if ts[0].Word? && |args| + 1 < MAXARGS {
      RedirsText(s, inner, ts[1..]);
      var r := Redirs(inner, ts[1..]);
      if r.Ok? {
        assert ArgTexts(s, args + [ts[0].w]) == ArgTexts(s, args) + [SpanText(s, ts[0].w)];
        WordsText(s, r.value, args + [ts[0].w], r.rest);
      }
    }
  }

  lemma {:induction false} SimpleText(s: string, ts: seq<Tok<Span>>)
    ensures Simple(Texts(s, ts)) == ResultText(s, Simple(ts))
    decreases |ts|, 0
  {
    hide Redirs, ShellGrammar.Words, Line;
    TextsAt(s, ts);
    if At(ts, '(') {
      LineText(s, ts[1..]);
      var r := Line(ts[1..]);
      if r.Ok? {
        TextsAt(s, r.rest);
        if At(r.rest, ')') {
          RedirsText(s, r.value, r.rest[1..]);
        }
      }
    } else {
      RedirsText(s, Exec([]), ts);
      assert TextOf(s, Exec([])) == Exec([]) && ArgTexts(s, []) == [];
      var r := Redirs(Exec([]), ts);
      if r.Ok? {
        WordsText(s, r.value, [], r.rest);
      }
    }
  }

  lemma {:induction false} PipelineText(s: string, ts: seq<Tok<Span>>)
    ensures Pipeline(Texts(s, ts)) == ResultText(s, Pipeline(ts))
    decreases |ts|, 1
  {
    hide Simple;
    SimpleText(s, ts);
    var r := Simple(ts);
    if r.Ok? {
      TextsAt(s, r.rest);
      if At(r.rest, '|') {
        PipelineText(s, r.rest[1..]);
      }
    }
  }

  lemma {:induction false} AmpersandsText(s: string, c: Cmd<Span>, ts: seq<Tok<Span>>)
    ensures var r := Ampersands(c, ts); Ampersands(TextOf(s, c), Texts(s, ts)) == (TextOf(s, r.0), Texts(s, r.1))
    decreases |ts|
  {
    TextsAt(s, ts);
    if At(ts, '&') {
      AmpersandsText(s, Back(c), ts[1..]);
    }
  }

  lemma {:induction false} LineText(s: string, ts: seq<Tok<Span>>)
    ensures Line(Texts(s, ts)) == ResultText(s, Line(ts))
    decreases |ts|, 2
  {
    hide Pipeline;
    PipelineText(s, ts);
    var r := Pipeline(ts);
    if r.Ok? {
      AmpersandsText(s, r.value, r.rest);
      var (c, rest) := Ampersands(r.value, r.rest);
      TextsAt(s, rest);
      if At(rest, ';') {
        LineText(s, rest[1..]);
      }
    }
  }

  // ----- what a command line means -----

  /** The meaning of a command line: parsecmd, whose result is Command(Lex(s, 0)),
      accepts s as the tree c exactly when s spells some line of the language
      that stands for c. */
  lemma ParseIsMeaning(s: string, c: Cmd<string>)
    ensures var r := Command(Lex(s, 0));
      (r.Ok? && TextOf(s, r.value) == c) <==>
      exists ts: seq<Tok<string>>, h: Phrase<string> :: Spells(s, ts) && Means(h, ts, c)
  {
    hide Line, Lex, Texts, TextOf, Spells, Means;
    var ts := Texts(s, Lex(s, 0));
    assert s[0..] == s;
    LexIsSpelling(s, 0, ts);
    LineText(s, Lex(s, 0));
    NothingLeft(s, Line(Lex(s, 0)));
    CommandIsLine(ts, c);
    if us: seq<Tok<string>>, h: Phrase<string> :| Spells(s, us) && Means(h, us, c) {
      LexIsSpelling(s, 0, us);
      assert Means(h, ts, c);
    }
  }

  lemma NothingLeft(s: string, r: SpanResult)
    ensures r.Ok? ==> (Texts(s, r.rest) == [] <==> r.rest == [])
  {
  }
}
