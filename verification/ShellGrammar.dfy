/** The shell's command language: trees, tokens, the grammar the parser follows,
    and the canonical form of a tree. */
module ShellGrammar {
  const MAXARGS := 10

  datatype Mode = In | Out | Append

  /** A command tree over words of type W. */
  datatype Cmd<W> =
    | Exec(args: seq<W>)
    | Redir(cmd: Cmd<W>, file: W, mode: Mode)
    | Pipe(left: Cmd<W>, right: Cmd<W>)
    | List(left: Cmd<W>, right: Cmd<W>)
    | Back(cmd: Cmd<W>)

  /** A word or a symbol; '+' is >>. */
  datatype Tok<W> = Word(w: W) | Sym(c: char)

  /** The parser's calls of panic. */
  datatype Panic = MissingFile | MissingParen | Syntax | TooManyArgs | Leftovers

  datatype Parsed<T, R> = Ok(value: T, rest: R) | Err(why: Panic)

  // ----- the grammar -----

  predicate At<W>(ts: seq<Tok<W>>, c: char) {
    ts != [] && ts[0].Sym? && ts[0].c == c
  }

  predicate AtRedir<W>(ts: seq<Tok<W>>) {
    At(ts, '<') || At(ts, '>') || At(ts, '+')
  }

  /** What ends the words of a simple command. */
  predicate AtStop<W>(ts: seq<Tok<W>>) {
    At(ts, '|') || At(ts, ')') || At(ts, '&') || At(ts, ';')
  }

  function ModeOf(c: char): Mode {
    if c == '<' then In else if c == '>' then Out else Append
  }

  function Redirs<W>(cmd: Cmd<W>, ts: seq<Tok<W>>): (r: Parsed<Cmd<W>, seq<Tok<W>>>)
    ensures r.Ok? ==> |r.rest| <= |ts| && !AtRedir(r.rest)
    decreases |ts|
  {
    if !AtRedir(ts) then Ok(cmd, ts)
    else if |ts| < 2 || !ts[1].Word? then Err(MissingFile)
    else Redirs(Redir(cmd, ts[1].w, ModeOf(ts[0].c)), ts[2..])
  }

  /** The redirections met between the words of a simple command go around it. */
  function Around<W>(inner: Cmd<W>, args: seq<W>): Cmd<W> {
    match inner
    case Redir(c, f, m) => Redir(Around(c, args), f, m)
    case _ => Exec(args)
  }

  /** The words after those in args; inner holds the redirections so far. */
  function Words<W>(inner: Cmd<W>, args: seq<W>, ts: seq<Tok<W>>): (r: Parsed<Cmd<W>, seq<Tok<W>>>)
    ensures r.Ok? ==> |r.rest| <= |ts|
    decreases |ts|
  {
    if AtStop(ts) || ts == [] then Ok(Around(inner, args), ts)
    else if !ts[0].Word? then Err(Syntax)
    else if |args| + 1 >= MAXARGS then Err(TooManyArgs)
    else
      var r := Redirs(inner, ts[1..]);
      if r.Err? then r else Words(r.value, args + [ts[0].w], r.rest)
  }

  function Simple<W>(ts: seq<Tok<W>>): (r: Parsed<Cmd<W>, seq<Tok<W>>>)
    ensures r.Ok? ==> |r.rest| <= |ts|
    decreases |ts|, 0
  {
    if At(ts, '(') then Block(ts)
    else
      var r := Redirs(Exec([]), ts);
      if r.Err? then r else Words(r.value, [], r.rest)
  }

  function Block<W>(ts: seq<Tok<W>>): (r: Parsed<Cmd<W>, seq<Tok<W>>>)
    requires At(ts, '(')
    ensures r.Ok? ==> |r.rest| <= |ts|
    decreases |ts| - 1, 9
  {
    var r := Line(ts[1..]);
    if r.Err? then r
    else if !At(r.rest, ')') then Err(MissingParen)
    else Redirs(r.value, r.rest[1..])
  }

  function Pipeline<W>(ts: seq<Tok<W>>): (r: Parsed<Cmd<W>, seq<Tok<W>>>)
    ensures r.Ok? ==> |r.rest| <= |ts|
    decreases |ts|, 1
  {
    var r := Simple(ts);
    if r.Ok? && At(r.rest, '|') then
      var q := Pipeline(r.rest[1..]);
      if q.Err? then q else Ok(Pipe(r.value, q.value), q.rest)
    else r
  }

  function Ampersands<W>(cmd: Cmd<W>, ts: seq<Tok<W>>): (r: (Cmd<W>, seq<Tok<W>>))
    ensures |r.1| <= |ts| && !At(r.1, '&')
    decreases |ts|
  {
    if At(ts, '&') then Ampersands(Back(cmd), ts[1..]) else (cmd, ts)
  }

  function Line<W>(ts: seq<Tok<W>>): (r: Parsed<Cmd<W>, seq<Tok<W>>>)
    ensures r.Ok? ==> |r.rest| <= |ts|
    decreases |ts|, 2
  {
    var r := Pipeline(ts);
    if r.Err? then r
    else
      var (cmd, rest) := Ampersands(r.value, r.rest);
      if At(rest, ';') then
        var q := Line(rest[1..]);
        if q.Err? then q else Ok(List(cmd, q.value), q.rest)
      else Ok(cmd, rest)
  }

  /** A whole command. */
  function Command<W>(ts: seq<Tok<W>>): Parsed<Cmd<W>, ()> {
    match Line(ts)
    case Err(e) => Err(e)
    case Ok(c, rest) => if rest == [] then Ok(c, ()) else Err(Leftovers)
  }

  // ----- the canonical form -----

  /** At most MAXARGS - 1 arguments to each command. */
  predicate Parsable<W>(t: Cmd<W>) {
    match t
    case Exec(args) => |args| < MAXARGS
    case Redir(c, _, _) => Parsable(c)
    case Pipe(l, r) => Parsable(l) && Parsable(r)
    case List(l, r) => Parsable(l) && Parsable(r)
    case Back(c) => Parsable(c)
  }

  function WordToks<W>(args: seq<W>): (ts: seq<Tok<W>>)
    ensures |ts| == |args| && forall i | 0 <= i < |args| :: ts[i] == Word(args[i])
  {
    seq(|args|, i requires 0 <= i < |args| => Word(args[i]))
  }

  function ModeTok<W>(m: Mode): Tok<W> {
    Sym(match m case In => '<' case Out => '>' case Append => '+')
  }

  /** The tokens of a tree with every subtree in parentheses. */
  function Toks<W>(t: Cmd<W>): seq<Tok<W>>
    decreases t, 0
  {
    match t
    case Exec(args) => WordToks(args)
    case Redir(c, f, m) => Paren(c) + [ModeTok(m), Word(f)]
    case Pipe(l, r) => Paren(l) + ([Sym('|')] + Paren(r))
    case List(l, r) => Paren(l) + ([Sym(';')] + Paren(r))
    case Back(c) => Paren(c) + [Sym('&')]
  }

  function Paren<W>(t: Cmd<W>): seq<Tok<W>>
    decreases t, 1
  {
    [Sym('(')] + (Toks(t) + [Sym(')')])
  }

  /** Nothing follows, or a closing parenthesis. */
  predicate Ends<W>(rest: seq<Tok<W>>) {
    rest == [] || At(rest, ')')
  }

  /** The words of a simple command are read one after the other. */
  lemma {:induction false} ReadWords<W>(done: seq<W>, args: seq<W>, rest: seq<Tok<W>>)
    requires |done| + |args| < MAXARGS && Ends(rest)
    ensures Words(Exec([]), done, WordToks(args) + rest) == Ok(Exec(done + args), rest)
    decreases |args|
  {
    var ts := WordToks(args) + rest;
    if args == [] {
      assert ts == rest && done + args == done;
    } else {
      assert ts[0] == Word(args[0]);
      assert ts[1..] == WordToks(args[1..]) + rest;
      assert !AtRedir(ts[1..]) by {
        if |args| > 1 {
          assert ts[1] == Word(args[1]);
        }
      }
      assert done + args == (done + [args[0]]) + args[1..];
      ReadWords(done + [args[0]], args[1..], rest);
    }
  }

  lemma ReadExec<W>(args: seq<W>, rest: seq<Tok<W>>)
    requires |args| < MAXARGS && Ends(rest)
    ensures Line(WordToks(args) + rest) == Ok(Exec(args), rest)
  {
    var ts := WordToks(args) + rest;
    ReadWords([], args, rest);
    assert [] + args == args;
    if args != [] {
      assert ts[0] == Word(args[0]);
    } else {
      assert ts == rest;
    }
    assert Simple(ts) == Ok(Exec(args), rest);
  }

  lemma ReadRedir<W>(c: Cmd<W>, f: W, m: Mode, rest: seq<Tok<W>>)
    requires Ends(rest) && Simple(Paren(c) + ([ModeTok(m), Word(f)] + rest)) == Redirs(c, [ModeTok(m), Word(f)] + rest)
    ensures Line(Toks(Redir(c, f, m)) + rest) == Ok(Redir(c, f, m), rest)
  {
    var after := [ModeTok(m), Word(f)] + rest;
    assert Toks(Redir(c, f, m)) + rest == Paren(c) + after;
    assert after[2..] == rest && after[1] == Word(f);
    assert Redirs(c, after) == Redirs(Redir(c, f, m), rest) == Ok(Redir(c, f, m), rest);
  }

  lemma ReadPipe<W>(l: Cmd<W>, r: Cmd<W>, rest: seq<Tok<W>>)
    requires Ends(rest) && Simple(Paren(r) + rest) == Redirs(r, rest)
    requires Simple(Paren(l) + ([Sym('|')] + (Paren(r) + rest))) == Redirs(l, [Sym('|')] + (Paren(r) + rest))
    ensures Line(Toks(Pipe(l, r)) + rest) == Ok(Pipe(l, r), rest)
  {
    var after := Paren(r) + rest;
    assert Toks(Pipe(l, r)) + rest == Paren(l) + ([Sym('|')] + after);
    assert ([Sym('|')] + after)[1..] == after;
    assert Pipeline(after) == Ok(r, rest);
  }

  lemma ReadList<W>(l: Cmd<W>, r: Cmd<W>, rest: seq<Tok<W>>)
    requires Ends(rest) && Simple(Paren(r) + rest) == Redirs(r, rest)
    requires Simple(Paren(l) + ([Sym(';')] + (Paren(r) + rest))) == Redirs(l, [Sym(';')] + (Paren(r) + rest))
    ensures Line(Toks(List(l, r)) + rest) == Ok(List(l, r), rest)
  {
    var after := Paren(r) + rest;
    assert Toks(List(l, r)) + rest == Paren(l) + ([Sym(';')] + after);
    assert ([Sym(';')] + after)[1..] == after;
    assert Pipeline(after) == Ok(r, rest) && Line(after) == Ok(r, rest);
  }

  lemma ReadBackground<W>(c: Cmd<W>, rest: seq<Tok<W>>)
    requires Ends(rest) && Simple(Paren(c) + ([Sym('&')] + rest)) == Redirs(c, [Sym('&')] + rest)
    ensures Line(Toks(Back(c)) + rest) == Ok(Back(c), rest)
  {
    var after := [Sym('&')] + rest;
    assert Toks(Back(c)) + rest == Paren(c) + after;
    assert after[1..] == rest;
    assert Ampersands(c, after) == Ampersands(Back(c), rest) == (Back(c), rest);
  }

  /** A parenthesised tree is read back as one block. */
  lemma {:induction false} ReadParen<W>(t: Cmd<W>, rest: seq<Tok<W>>)
    requires Parsable(t)
    ensures Simple(Paren(t) + rest) == Redirs(t, rest)
    decreases t, 1
  {
    var ts := Paren(t) + rest;
    assert At(ts, '(') && ts[1..] == Toks(t) + ([Sym(')')] + rest);
    ReadBack(t, [Sym(')')] + rest);
    assert ([Sym(')')] + rest)[1..] == rest;
  }

  /** The grammar inverts the canonical form: every tree is read back from it. */
  lemma {:induction false} ReadBack<W>(t: Cmd<W>, rest: seq<Tok<W>>)
    requires Parsable(t) && Ends(rest)
    ensures Line(Toks(t) + rest) == Ok(t, rest)
    decreases t, 0
  {
    hide Line, Simple, Redirs, Toks, Paren, Ends;
    match t
    case Exec(args) =>
      ReadExec(args, rest);
      ToksOfExec(args);
    case Redir(c, f, m) =>
      ReadParen(c, [ModeTok(m), Word(f)] + rest);
      ReadRedir(c, f, m, rest);
    case Pipe(l, r) =>
      ReadParen(l, [Sym('|')] + (Paren(r) + rest));
      ReadParen(r, rest);
      ReadPipe(l, r, rest);
    case List(l, r) =>
      ReadParen(l, [Sym(';')] + (Paren(r) + rest));
      ReadParen(r, rest);
      ReadList(l, r, rest);
    case Back(c) =>
      ReadParen(c, [Sym('&')] + rest);
      ReadBackground(c, rest);
  }

  lemma ToksOfExec<W>(args: seq<W>)
    ensures Toks(Exec(args)) == WordToks(args)
  {
  }

  // ----- where a parsed tree's words come from -----

  ghost predicate HasWord<W>(t: Cmd<W>, w: W) {
    match t
    case Exec(args) => w in args
    case Redir(c, f, _) => w == f || HasWord(c, w)
    case Pipe(l, r) => HasWord(l, w) || HasWord(r, w)
    case List(l, r) => HasWord(l, w) || HasWord(r, w)
    case Back(c) => HasWord(c, w)
  }

  /** All words of the tree are among the tokens. */
  ghost predicate From<W(!new)>(t: Cmd<W>, ts: seq<Tok<W>>) {
    forall w | HasWord(t, w) :: Word(w) in ts
  }

  ghost predicate Sub<W>(rest: seq<Tok<W>>, ts: seq<Tok<W>>) {
    forall i | 0 <= i < |rest| :: rest[i] in ts
  }

  lemma {:induction false} RedirsFrom<W(!new)>(cmd: Cmd<W>, ts: seq<Tok<W>>, all: seq<Tok<W>>)
    requires From(cmd, all) && Sub(ts, all) && Redirs(cmd, ts).Ok?
    ensures From(Redirs(cmd, ts).value, all) && Sub(Redirs(cmd, ts).rest, all)
    decreases |ts|
  {
    if AtRedir(ts) {
      var next := Redir(cmd, ts[1].w, ModeOf(ts[0].c));
      assert From(next, all) by {
        assert ts[1] in all;
      }
      RedirsFrom(next, ts[2..], all);
    }
  }

  lemma {:induction false} AroundFrom<W(!new)>(inner: Cmd<W>, args: seq<W>, all: seq<Tok<W>>)
    requires From(inner, all) && forall i | 0 <= i < |args| :: Word(args[i]) in all
    ensures From(Around(inner, args), all)
  {
    match inner
    case Redir(c, f, m) =>
      assert From(c, all) by {
        assert forall w | HasWord(c, w) :: HasWord(inner, w);
      }
      AroundFrom(c, args, all);
      assert HasWord(inner, f);
    case _ =>
  }

  lemma {:induction false} WordsFrom<W(!new)>(inner: Cmd<W>, args: seq<W>, ts: seq<Tok<W>>, all: seq<Tok<W>>)
    requires From(inner, all) && Sub(ts, all) && (forall i | 0 <= i < |args| :: Word(args[i]) in all) && Words(inner, args, ts).Ok?
    ensures From(Words(inner, args, ts).value, all) && Sub(Words(inner, args, ts).rest, all)
    decreases |ts|
  {
    if AtStop(ts) || ts == [] {
      AroundFrom(inner, args, all);
    } else {
      assert ts[0] in all;
      RedirsFrom(inner, ts[1..], all);
      var r := Redirs(inner, ts[1..]);
      WordsFrom(r.value, args + [ts[0].w], r.rest, all);
    }
  }

  lemma {:induction false} AmpersandsFrom<W(!new)>(cmd: Cmd<W>, ts: seq<Tok<W>>, all: seq<Tok<W>>)
    requires From(cmd, all) && Sub(ts, all)
    ensures From(Ampersands(cmd, ts).0, all) && Sub(Ampersands(cmd, ts).1, all)
    decreases |ts|
  {
    if At(ts, '&') {
      assert From(Back(cmd), all) by {
        assert forall w | HasWord(Back(cmd), w) :: HasWord(cmd, w);
      }
      AmpersandsFrom(Back(cmd), ts[1..], all);
    }
  }

  lemma {:induction false} SimpleFrom<W(!new)>(ts: seq<Tok<W>>, all: seq<Tok<W>>)
    requires Sub(ts, all) && Simple(ts).Ok?
    ensures From(Simple(ts).value, all) && Sub(Simple(ts).rest, all)
    decreases |ts|, 0
  {
    if At(ts, '(') {
      LineFrom(ts[1..], all);
      var r := Line(ts[1..]);
      RedirsFrom(r.value, r.rest[1..], all);
    } else {
      RedirsFrom(Exec([]), ts, all);
      var r := Redirs(Exec([]), ts);
      WordsFrom(r.value, [], r.rest, all);
    }
  }

  lemma {:induction false} PipelineFrom<W(!new)>(ts: seq<Tok<W>>, all: seq<Tok<W>>)
    requires Sub(ts, all) && Pipeline(ts).Ok?
    ensures From(Pipeline(ts).value, all) && Sub(Pipeline(ts).rest, all)
    decreases |ts|, 1
  {
    SimpleFrom(ts, all);
    var r := Simple(ts);
    if At(r.rest, '|') {
      PipelineFrom(r.rest[1..], all);
      var q := Pipeline(r.rest[1..]);
      assert forall w | HasWord(Pipe(r.value, q.value), w) :: HasWord(r.value, w) || HasWord(q.value, w);
    }
  }

  /** Every word of a parsed tree is one of the tokens it was parsed from. */
  lemma {:induction false} LineFrom<W(!new)>(ts: seq<Tok<W>>, all: seq<Tok<W>>)
    requires Sub(ts, all) && Line(ts).Ok?
    ensures From(Line(ts).value, all) && Sub(Line(ts).rest, all)
    decreases |ts|, 2
  {
    PipelineFrom(ts, all);
    var r := Pipeline(ts);
    AmpersandsFrom(r.value, r.rest, all);
    var (cmd, rest) := Ampersands(r.value, r.rest);
    if At(rest, ';') {
      LineFrom(rest[1..], all);
      var q := Line(rest[1..]);
      assert forall w | HasWord(List(cmd, q.value), w) :: HasWord(cmd, w) || HasWord(q.value, w);
    }
  }
}
