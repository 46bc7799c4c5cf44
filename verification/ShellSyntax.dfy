/** What command lines mean, told without the parser: the phrases of the shell's
    language, the tokens each is written with, and the tree it stands for. The
    parser's grammar reads exactly these. */
module ShellSyntax {
  import opened ShellGrammar

  /** A part of a simple command: a word of its own, or a redirection. */
  datatype Part<W> = Arg(w: W) | To(m: Mode, f: W)

  /** A simple command; a line in parentheses with redirections; a pipeline; and
      a line, of one pipeline with its ampersands or with a line after it. */
  datatype Phrase<W> =
    | Plain(ps: seq<Part<W>>)
    | Group(body: Phrase<W>, ps: seq<Part<W>>)
    | Piped(left: Phrase<W>, right: Phrase<W>)
    | Single(pipe: Phrase<W>, amps: nat)
    | Then(pipe: Phrase<W>, amps: nat, rest: Phrase<W>)

  // ----- which phrases there are -----

  /** The words of its own, in order. */
  function Args<W>(ps: seq<Part<W>>): seq<W> {
    if ps == [] then [] else (if ps[0].Arg? then [ps[0].w] else []) + Args(ps[1..])
  }

  predicate NoArgs<W>(ps: seq<Part<W>>) {
    forall i | 0 <= i < |ps| :: ps[i].To?
  }

  predicate IsCommand<W>(h: Phrase<W>)
    decreases h, 0
  {
    match h
    case Plain(ps) => |Args(ps)| < 10
    case Group(b, ps) => IsLine(b) && NoArgs(ps)
    case _ => false
  }

  predicate IsPipeline<W>(h: Phrase<W>)
    decreases h, 1
  {
    if h.Piped? then IsCommand(h.left) && IsPipeline(h.right) else IsCommand(h)
  }

  predicate IsLine<W>(h: Phrase<W>)
    decreases h, 2
  {
    match h
    case Single(p, _) => IsPipeline(p)
    case Then(p, _, r) => IsPipeline(p) && IsLine(r)
    case _ => false
  }

  // ----- how they are written -----

  /** '+' is the token >>. */
  function PartText<W>(p: Part<W>): seq<Tok<W>> {
    match p
    case Arg(w) => [Word(w)]
    case To(In, f) => [Sym('<'), Word(f)]
    case To(Out, f) => [Sym('>'), Word(f)]
    case To(Append, f) => [Sym('+'), Word(f)]
  }

  function PartsText<W>(ps: seq<Part<W>>): seq<Tok<W>> {
    if ps == [] then [] else PartText(ps[0]) + PartsText(ps[1..])
  }

  function Amps<W>(n: nat): seq<Tok<W>> {
    if n == 0 then [] else [Sym('&')] + Amps(n - 1)
  }

  function Text<W>(h: Phrase<W>): seq<Tok<W>> {
    match h
    case Plain(ps) => PartsText(ps)
    case Group(b, ps) => [Sym('(')] + (Text(b) + ([Sym(')')] + PartsText(ps)))
    case Piped(l, r) => Text(l) + ([Sym('|')] + Text(r))
    case Single(p, n) => Text(p) + Amps(n)
    case Then(p, n, r) => Text(p) + (Amps(n) + ([Sym(';')] + Text(r)))
  }

  // ----- what they stand for -----

  /** c inside the redirections, the first innermost, the last outermost. */
  function Wrap<W>(c: Cmd<W>, ps: seq<Part<W>>): Cmd<W> {
    if ps == [] then c
    else
      var inner := Wrap(c, ps[..|ps| - 1]);
      var last := ps[|ps| - 1];
      if last.To? then Redir(inner, last.f, last.m) else inner
  }

  function InBackground<W>(c: Cmd<W>, n: nat): Cmd<W> {
    if n == 0 then c else Back(InBackground(c, n - 1))
  }

  function Tree<W>(h: Phrase<W>): Cmd<W> {
    match h
    case Plain(ps) => Wrap(Exec(Args(ps)), ps)
    case Group(b, ps) => Wrap(Tree(b), ps)
    case Piped(l, r) => Pipe(Tree(l), Tree(r))
    case Single(p, n) => InBackground(Tree(p), n)
    case Then(p, n, r) => List(InBackground(Tree(p), n), Tree(r))
  }

  // ----- sequences of parts -----

  lemma {:induction false} PartsTextJoin<W>(ps: seq<Part<W>>, qs: seq<Part<W>>)
    ensures PartsText(ps + qs) == PartsText(ps) + PartsText(qs)
  {
    if ps == [] {
      assert ps + qs == qs;
    } else {
      hide PartText;
      assert (ps + qs)[1..] == ps[1..] + qs && (ps + qs)[0] == ps[0];
      PartsTextJoin(ps[1..], qs);
      ThreeJoin(PartText(ps[0]), PartsText(ps[1..]), PartsText(qs));
    }
  }

  lemma ThreeJoin<T>(a: seq<T>, b: seq<T>, c: seq<T>)
    ensures a + (b + c) == a + b + c
  {
  }

  lemma {:induction false} ArgsJoin<W>(ps: seq<Part<W>>, qs: seq<Part<W>>)
    ensures Args(ps + qs) == Args(ps) + Args(qs)
  {
    if ps == [] {
      assert ps + qs == qs;
    } else {
      assert (ps + qs)[1..] == ps[1..] + qs && (ps + qs)[0] == ps[0];
      ArgsJoin(ps[1..], qs);
    }
  }

  lemma PartsJoin<W>(ps: seq<Part<W>>, qs: seq<Part<W>>)
    ensures PartsText(ps + qs) == PartsText(ps) + PartsText(qs) && Args(ps + qs) == Args(ps) + Args(qs)
  {
    PartsTextJoin(ps, qs);
    ArgsJoin(ps, qs);
  }

  lemma {:induction false} WrapJoin<W>(c: Cmd<W>, ps: seq<Part<W>>, qs: seq<Part<W>>)
    ensures Wrap(c, ps + qs) == Wrap(Wrap(c, ps), qs)
    decreases |qs|
  {
    if qs == [] {
      assert ps + qs == ps;
    } else {
      assert (ps + qs)[..|ps + qs| - 1] == ps + qs[..|qs| - 1];
      WrapJoin(c, ps, qs[..|qs| - 1]);
    }
  }

  lemma {:induction false} NoArgsNoWords<W>(ps: seq<Part<W>>)
    requires NoArgs(ps)
    ensures Args(ps) == []
  {
    if ps != [] {
      NoArgsNoWords(ps[1..]);
    }
  }

  /** The words put into the innermost command. */
  lemma {:induction false} AroundWrap<W>(ps: seq<Part<W>>, args: seq<W>)
    ensures Around(Wrap(Exec([]), ps), args) == Wrap(Exec(args), ps)
    decreases |ps|
  {
    if ps != [] {
      AroundWrap(ps[..|ps| - 1], args);
    }
  }

  // ----- the grammar reads every phrase -----

  /** The redirections at the beginning. */
  function Leading<W>(ps: seq<Part<W>>): (n: nat)
    ensures n <= |ps| && NoArgs(ps[..n]) && (n < |ps| ==> ps[n].Arg?)
  {
    if ps == [] || ps[0].Arg? then 0
    else
      assert ps[..Leading(ps[1..]) + 1] == [ps[0]] + ps[1..][..Leading(ps[1..])];
      Leading(ps[1..]) + 1
  }

  predicate Stops<W>(rest: seq<Tok<W>>) {
    rest == [] || AtStop(rest)
  }

  lemma RedirStep<W>(c: Cmd<W>, p: Part<W>, more: seq<Tok<W>>)
    requires p.To?
    ensures Redirs(c, PartText(p) + more) == Redirs(Redir(c, p.f, p.m), more)
  {
    var ts := PartText(p) + more;
    assert ts[2..] == more && ts[1] == Word(p.f);
  }

  lemma {:induction false} RedirsRead<W>(c: Cmd<W>, ps: seq<Part<W>>, rest: seq<Tok<W>>)
    requires Stops(rest)
    ensures var n := Leading(ps); Redirs(c, PartsText(ps) + rest) == Ok(Wrap(c, ps[..n]), PartsText(ps[n..]) + rest)
    decreases |ps|
  {
    var n := Leading(ps);
    if ps == [] {
      assert PartsText(ps) + rest == rest && ps[n..] == [];
    } else if ps[0].Arg? {
      assert (PartsText(ps) + rest)[0] == Word(ps[0].w) && ps[0..] == ps;
    } else {
      hide Redirs, PartText, Wrap, Stops;
      var more := PartsText(ps[1..]) + rest;
      assert PartsText(ps) + rest == PartText(ps[0]) + more;
      RedirStep(c, ps[0], more);
      RedirsRead(Redir(c, ps[0].f, ps[0].m), ps[1..], rest);
      assert ps[1..][n - 1..] == ps[n..];
      WrapFirst(c, ps, n);
    }
  }

  lemma WrapFirst<W>(c: Cmd<W>, ps: seq<Part<W>>, n: nat)
    requires 0 < n <= |ps| && ps[0].To?
    ensures Wrap(c, ps[..n]) == Wrap(Redir(c, ps[0].f, ps[0].m), ps[1..][..n - 1])
  {
    assert ps[..n] == [ps[0]] + ps[1..][..n - 1];
    WrapJoin(c, [ps[0]], ps[1..][..n - 1]);
    assert [ps[0]][..0] == [];
  }

  lemma WordStep<W>(inner: Cmd<W>, args: seq<W>, w: W, more: seq<Tok<W>>, next: Cmd<W>, rest: seq<Tok<W>>)
    requires Redirs(inner, more) == Ok(next, rest) && |args| + 1 < MAXARGS
    ensures ShellGrammar.Words(inner, args, [Word(w)] + more) == ShellGrammar.Words(next, args + [w], rest)
  {
    var ts := [Word(w)] + more;
    assert ts[1..] == more && ts[0] == Word(w);
  }

  /** From a word on, with the parts done before it. */
  lemma {:induction false} WordsRead<W>(done: seq<Part<W>>, ps: seq<Part<W>>, rest: seq<Tok<W>>)
    requires Stops(rest) && |Args(done + ps)| < MAXARGS && Leading(ps) == 0
    ensures ShellGrammar.Words(Wrap(Exec([]), done), Args(done), PartsText(ps) + rest) ==
            Ok(Wrap(Exec(Args(done + ps)), done + ps), rest)
    decreases |ps|
  {
    LeadingAt(ps);
    hide Redirs, Wrap, ShellGrammar.Words, Args, Stops, PartText, PartsText, Leading;
    var inner := Wrap(Exec([]), done);
    if ps == [] {
      WordsEnd(done, rest);
      NoPartsLeft(ps, rest);
      assert ps[|ps|..] == ps && done + ps == done;
    } else {
      var more := PartsText(ps[1..]) + rest;
      WordFirst(ps, rest);
      var n := Leading(ps[1..]);
      LeadingAt(ps[1..]);
      var next, tail := done + [ps[0]] + ps[1..][..n], ps[1..][n..];
      RedirsRead(inner, ps[1..], rest);
      PartsOfNext(done, ps, n);
      WordStep(inner, Args(done), ps[0].w, more, Wrap(inner, ps[1..][..n]), PartsText(tail) + rest);
      assert done + ps == next + tail;
      LeadingDone(ps[1..]);
      WordsRead(next, tail, rest);
    }
  }

  lemma LeadingAt<W>(ps: seq<Part<W>>)
    ensures var n := Leading(ps); n <= |ps| && NoArgs(ps[..n]) && (n < |ps| ==> ps[n].Arg?)
  {
  }

  lemma LeadingDone<W>(ps: seq<Part<W>>)
    ensures Leading(ps[Leading(ps)..]) == 0
  {
  }

  lemma WordFirst<W>(ps: seq<Part<W>>, rest: seq<Tok<W>>)
    requires ps != [] && ps[0].Arg?
    ensures PartsText(ps) + rest == [Word(ps[0].w)] + (PartsText(ps[1..]) + rest)
  {
  }

  lemma WordsEnd<W>(done: seq<Part<W>>, rest: seq<Tok<W>>)
    requires Stops(rest)
    ensures ShellGrammar.Words(Wrap(Exec([]), done), Args(done), rest) == Ok(Wrap(Exec(Args(done)), done), rest)
  {
    AroundWrap(done, Args(done));
  }

  lemma PartsOfNext<W>(done: seq<Part<W>>, ps: seq<Part<W>>, n: nat)
    requires ps != [] && ps[0].Arg? && n <= |ps[1..]| && NoArgs(ps[1..][..n])
    ensures var next := done + [ps[0]] + ps[1..][..n];
      && Wrap(Exec([]), next) == Wrap(Wrap(Exec([]), done), ps[1..][..n])
      && Args(next) == Args(done) + [ps[0].w]
      && |Args(done)| + 1 <= |Args(done + ps)|
  {
    var mid := ps[1..][..n];
    WrapJoin(Exec([]), done + [ps[0]], mid);
    WrapJoin(Exec([]), done, [ps[0]]);
    assert [ps[0]][..0] == [];
    assert Wrap(Wrap(Exec([]), done), [ps[0]]) == Wrap(Exec([]), done);
    PartsJoin(done + [ps[0]], mid);
    PartsJoin(done, [ps[0]]);
    NoArgsNoWords(mid);
    assert Args([ps[0]]) == [ps[0].w];
    PartsJoin(done, ps);
  }

  /** One to nine words, or none, with any redirections before, between and after
      them: the words, in order, inside the redirections, the last outermost. */
  lemma PlainRead<W>(ps: seq<Part<W>>, rest: seq<Tok<W>>)
    requires Stops(rest) && |Args(ps)| < MAXARGS
    ensures Simple(PartsText(ps) + rest) == Ok(Wrap(Exec(Args(ps)), ps), rest)
  {
    hide Redirs, Wrap, ShellGrammar.Words, Args, PartsText;
    var ts := PartsText(ps) + rest;
    NoParen(ps, rest);
    var n := Leading(ps);
    RedirsRead(Exec([]), ps, rest);
    NoArgsNoWords(ps[..n]);
    assert ps[..n] + ps[n..] == ps;
    LeadingDone(ps);
    WordsRead(ps[..n], ps[n..], rest);
  }

  lemma NoParen<W>(ps: seq<Part<W>>, rest: seq<Tok<W>>)
    requires Stops(rest)
    ensures !At(PartsText(ps) + rest, '(')
  {
    if ps != [] {
      assert (PartsText(ps) + rest)[0] == PartText(ps[0])[0];
    } else {
      assert PartsText(ps) + rest == rest;
    }
  }

  lemma {:induction false} AmpsRead<W>(c: Cmd<W>, k: nat, n: nat, rest: seq<Tok<W>>)
    requires !At(rest, '&')
    ensures Ampersands(InBackground(c, k), Amps(n) + rest) == (InBackground(c, k + n), rest)
    decreases n
  {
    var ts := Amps(n) + rest;
    if n == 0 {
      assert ts == rest;
    } else {
      assert ts[0] == Sym('&') && ts[1..] == Amps(n - 1) + rest;
      AmpsRead(c, k + 1, n - 1, rest);
    }
  }

  lemma GroupRead<W>(b: Phrase<W>, ps: seq<Part<W>>, rest: seq<Tok<W>>)
    requires Stops(rest) && NoArgs(ps)
    requires Line(Text(b) + ([Sym(')')] + (PartsText(ps) + rest))) == Ok(Tree(b), [Sym(')')] + (PartsText(ps) + rest))
    ensures Simple(Text(Group(b, ps)) + rest) == Ok(Tree(Group(b, ps)), rest)
  {
    hide Redirs, Line, Wrap, PartsText;
    var after := PartsText(ps) + rest;
    var close := [Sym(')')] + after;
    GroupSpelled(b, ps, rest);
    hide Text;
    assert close[1..] == after && At(close, ')');
    BlockOf(Text(Group(b, ps)) + rest, Text(b) + close, Tree(b), close);
    RedirsRead(Tree(b), ps, rest);
    assert Leading(ps) == |ps| && ps[..|ps|] == ps && ps[|ps|..] == [];
    NoPartsLeft(ps, rest);
  }

  lemma NoPartsLeft<W>(ps: seq<Part<W>>, rest: seq<Tok<W>>)
    ensures PartsText(ps[|ps|..]) + rest == rest
  {
  }

  lemma GroupSpelled<W>(b: Phrase<W>, ps: seq<Part<W>>, rest: seq<Tok<W>>)
    ensures Text(Group(b, ps)) + rest == [Sym('(')] + (Text(b) + ([Sym(')')] + (PartsText(ps) + rest)))
  {
    hide PartsText;
  }

  lemma BlockOf<W>(ts: seq<Tok<W>>, inner: seq<Tok<W>>, c: Cmd<W>, close: seq<Tok<W>>)
    requires ts == [Sym('(')] + inner && Line(inner) == Ok(c, close) && At(close, ')')
    ensures Simple(ts) == Redirs(c, close[1..])
  {
    hide Redirs, Line;
    assert ts[1..] == inner;
  }

  lemma {:induction false} CommandRead<W>(h: Phrase<W>, rest: seq<Tok<W>>)
    requires IsCommand(h) && Stops(rest)
    ensures Simple(Text(h) + rest) == Ok(Tree(h), rest)
    decreases h, 0
  {
    hide Simple, Line;
    match h
    case Plain(ps) => PlainRead(ps, rest);
    case Group(b, ps) =>
      LineRead(b, [Sym(')')] + (PartsText(ps) + rest));
      GroupRead(b, ps, rest);
  }

  lemma {:induction false} PipelineRead<W>(h: Phrase<W>, rest: seq<Tok<W>>)
    requires IsPipeline(h) && Stops(rest) && !At(rest, '|')
    ensures Pipeline(Text(h) + rest) == Ok(Tree(h), rest)
    decreases h, 1
  {
    if h.Piped? {
      var after := Text(h.right) + rest;
      assert Text(h) + rest == Text(h.left) + ([Sym('|')] + after);
      assert ([Sym('|')] + after)[1..] == after;
      CommandRead(h.left, [Sym('|')] + after);
      PipelineRead(h.right, rest);
    } else {
      CommandRead(h, rest);
    }
  }

  lemma LastRead<W>(ts: seq<Tok<W>>, c: Cmd<W>, n: nat, rest: seq<Tok<W>>)
    requires Pipeline(ts) == Ok(c, Amps(n) + rest) && Ends(rest)
    ensures Line(ts) == Ok(InBackground(c, n), rest)
  {
    hide Pipeline;
    AmpsRead(c, 0, n, rest);
  }

  lemma ThenRead<W>(ts: seq<Tok<W>>, c: Cmd<W>, n: nat, d: Cmd<W>, after: seq<Tok<W>>, rest: seq<Tok<W>>)
    requires Pipeline(ts) == Ok(c, Amps(n) + ([Sym(';')] + after)) && |after| < |ts| && Line(after) == Ok(d, rest)
    ensures Line(ts) == Ok(List(InBackground(c, n), d), rest)
  {
    hide Pipeline;
    var semi := [Sym(';')] + after;
    AmpsRead(c, 0, n, semi);
    assert semi[1..] == after;
  }

  /** Every line is read as the tree it stands for. */
  lemma {:induction false} LineRead<W>(h: Phrase<W>, rest: seq<Tok<W>>)
    requires IsLine(h) && Ends(rest)
    ensures Line(Text(h) + rest) == Ok(Tree(h), rest)
    decreases h, 2
  {
    hide Line, Pipeline;
    match h
    case Single(p, n) =>
      assert Text(h) + rest == Text(p) + (Amps(n) + rest);
      PipelineThenAmps(p, n, rest);
      LastRead(Text(h) + rest, Tree(p), n, rest);
    case Then(p, n, r) =>
      var after := Text(r) + rest;
      assert Text(h) + rest == Text(p) + (Amps(n) + ([Sym(';')] + after));
      PipelineThenAmps(p, n, [Sym(';')] + after);
      LineRead(r, rest);
      ThenRead(Text(h) + rest, Tree(p), n, Tree(r), after, rest);
  }

  lemma {:induction false} PipelineThenAmps<W>(p: Phrase<W>, n: nat, rest: seq<Tok<W>>)
    requires IsPipeline(p) && (Ends(rest) || At(rest, ';'))
    ensures Pipeline(Text(p) + (Amps(n) + rest)) == Ok(Tree(p), Amps(n) + rest)
    decreases p, 2
  {
    if n > 0 {
      assert At(Amps(n) + rest, '&');
    } else {
      assert Amps(n) + rest == rest;
    }
    PipelineRead(p, Amps(n) + rest);
  }

  // ----- the grammar reads nothing else -----

  function PartOf<W>(c: char, f: W): (p: Part<W>)
    ensures c == '<' || c == '>' || c == '+' ==> PartText(p) == [Sym(c), Word(f)]
  {
    To(if c == '<' then In else if c == '>' then Out else Append, f)
  }

  lemma OneMorePart<W>(c: Cmd<W>, p: Part<W>, qs: seq<Part<W>>, ts: seq<Tok<W>>)
    requires p.To? && |ts| >= 2 && ts[..2] == PartText(p) && NoArgs(qs)
    ensures NoArgs([p] + qs) && Wrap(c, [p] + qs) == Wrap(Redir(c, p.f, p.m), qs)
    ensures forall rest | ts[2..] == PartsText(qs) + rest :: ts == PartsText([p] + qs) + rest
  {
    var ps := [p] + qs;
    assert ps[1..] == qs && ts == ts[..2] + ts[2..];
    assert [p][..0] == [];
    WrapJoin(c, [p], qs);
    assert Wrap(c, [p]) == Redir(c, p.f, p.m);
    forall rest | ts[2..] == PartsText(qs) + rest
      ensures ts == PartsText(ps) + rest
    {
      assert PartsText(ps) == PartText(p) + PartsText(qs);
    }
  }

  lemma {:induction false} RedirsSound<W>(c: Cmd<W>, ts: seq<Tok<W>>) returns (ps: seq<Part<W>>)
    requires Redirs(c, ts).Ok?
    ensures NoArgs(ps) && ts == PartsText(ps) + Redirs(c, ts).rest && Redirs(c, ts).value == Wrap(c, ps)
    decreases |ts|
  {
    ps := [];
    if AtRedir(ts) {
      var p := PartOf(ts[0].c, ts[1].w);
      var qs := RedirsSound(Redir(c, p.f, p.m), ts[2..]);
      ps := [p] + qs;
      OneMorePart(c, p, qs, ts);
    }
  }

  lemma WordsSpelled<W>(ts: seq<Tok<W>>, mid: seq<Part<W>>, tail: seq<Part<W>>, rest: seq<Tok<W>>)
    requires ts != [] && ts[0].Word? && ts[1..] == PartsText(mid) + (PartsText(tail) + rest)
    ensures ts == PartsText([Arg(ts[0].w)] + mid + tail) + rest
  {
    var head: seq<Part<W>> := [Arg(ts[0].w)] + mid;
    PartsTextJoin(head, tail);
    assert head[1..] == mid && PartsText(head) == [ts[0]] + PartsText(mid);
    FourJoin(ts[0], PartsText(mid), PartsText(tail), rest);
    assert ts == [ts[0]] + ts[1..];
  }

  lemma FourJoin<T>(x: T, a: seq<T>, b: seq<T>, c: seq<T>)
    ensures [x] + (a + (b + c)) == [x] + a + b + c
  {
  }

  lemma {:induction false} WordsSound<W>(done: seq<Part<W>>, ts: seq<Tok<W>>) returns (ps: seq<Part<W>>)
    requires ShellGrammar.Words(Wrap(Exec([]), done), Args(done), ts).Ok? && |Args(done)| < MAXARGS
    ensures var r := ShellGrammar.Words(Wrap(Exec([]), done), Args(done), ts);
      && ts == PartsText(ps) + r.rest && r.value == Wrap(Exec(Args(done + ps)), done + ps) && |Args(done + ps)| < MAXARGS
    decreases |ts|
  {
    hide Redirs, Args, Wrap;
    if AtStop(ts) || ts == [] {
      ps := [];
      AroundWrap(done, Args(done));
      assert done + [] == done;
    } else {
      var inner := Wrap(Exec([]), done);
      var r := Redirs(inner, ts[1..]);
      var mid := RedirsSound(inner, ts[1..]);
      var head: seq<Part<W>> := [Arg(ts[0].w)] + mid;
      assert head[1..][..|mid|] == mid && head[0] == Arg(ts[0].w);
      PartsOfNext(done, head, |mid|);
      var next := done + [head[0]] + mid;
      var tail := WordsSound(next, r.rest);
      ps := head + tail;
      assert next + tail == done + ps;
      WordsSpelled(ts, mid, tail, ShellGrammar.Words(Wrap(Exec([]), next), Args(next), r.rest).rest);
    }
  }

  lemma GroupText<W>(b: Phrase<W>, ps: seq<Part<W>>, ts: seq<Tok<W>>, mid: seq<Tok<W>>, rest: seq<Tok<W>>)
    requires At(ts, '(') && ts[1..] == Text(b) + mid && At(mid, ')') && mid[1..] == PartsText(ps) + rest
    ensures ts == Text(Group(b, ps)) + rest
  {
    assert ts == [Sym('(')] + ts[1..] && mid == [Sym(')')] + mid[1..];
  }

  lemma PlainText<W>(ps: seq<Part<W>>)
    ensures Text(Plain(ps)) == PartsText(ps) && Tree(Plain(ps)) == Wrap(Exec(Args(ps)), ps)
  {
  }

  lemma ThenText<W>(p: Phrase<W>, n: nat, q: Phrase<W>, ts: seq<Tok<W>>, mid: seq<Tok<W>>, semi: seq<Tok<W>>, rest: seq<Tok<W>>)
    requires ts == Text(p) + mid && mid == Amps(n) + semi && At(semi, ';') && semi[1..] == Text(q) + rest
    ensures ts == Text(Then(p, n, q)) + rest
  {
    assert semi == [Sym(';')] + semi[1..];
  }

  lemma ThenTree<W>(p: Phrase<W>, n: nat, q: Phrase<W>)
    ensures Tree(Then(p, n, q)) == List(InBackground(Tree(p), n), Tree(q))
  {
  }

  lemma SingleText<W>(p: Phrase<W>, n: nat, ts: seq<Tok<W>>, mid: seq<Tok<W>>, rest: seq<Tok<W>>)
    requires ts == Text(p) + mid && mid == Amps(n) + rest
    ensures ts == Text(Single(p, n)) + rest && Tree(Single(p, n)) == InBackground(Tree(p), n)
  {
  }

  lemma {:induction false} CommandSound<W>(ts: seq<Tok<W>>) returns (h: Phrase<W>)
    requires Simple(ts).Ok?
    ensures IsCommand(h) && ts == Text(h) + Simple(ts).rest && Simple(ts).value == Tree(h)
    decreases |ts|, 0
  {
    hide Redirs, Line, ShellGrammar.Words, Wrap, Text, Args;
    if At(ts, '(') {
      var r := Line(ts[1..]);
      var b := LineSound(ts[1..]);
      var ps := RedirsSound(r.value, r.rest[1..]);
      h := Group(b, ps);
      GroupText(b, ps, ts, r.rest, Redirs(r.value, r.rest[1..]).rest);
    } else {
      var r := Redirs(Exec([]), ts);
      var first := RedirsSound(Exec([]), ts);
      NoArgsNoWords(first);
      var more := WordsSound(first, r.rest);
      h := Plain(first + more);
      PartsJoin(first, more);
      PlainText(first + more);
    }
  }

  lemma {:induction false} PipelineSound<W>(ts: seq<Tok<W>>) returns (h: Phrase<W>)
    requires Pipeline(ts).Ok?
    ensures IsPipeline(h) && ts == Text(h) + Pipeline(ts).rest && Pipeline(ts).value == Tree(h)
    decreases |ts|, 1
  {
    hide Simple;
    var r := Simple(ts);
    h := CommandSound(ts);
    if At(r.rest, '|') {
      var q := PipelineSound(r.rest[1..]);
      var l := h;
      h := Piped(l, q);
      assert r.rest == [Sym('|')] + r.rest[1..];
      assert ts == Text(h) + Pipeline(ts).rest;
    }
  }

  lemma {:induction false} AmpsSound<W>(c: Cmd<W>, k: nat, ts: seq<Tok<W>>) returns (n: nat)
    ensures var r := Ampersands(InBackground(c, k), ts); ts == Amps(n) + r.1 && r.0 == InBackground(c, k + n)
    decreases |ts|
  {
    n := 0;
    if At(ts, '&') {
      n := AmpsSound(c, k + 1, ts[1..]);
      n := n + 1;
      assert ts == [Sym('&')] + ts[1..];
    }
  }

  lemma {:induction false} LineSound<W>(ts: seq<Tok<W>>) returns (h: Phrase<W>)
    requires Line(ts).Ok?
    ensures IsLine(h) && ts == Text(h) + Line(ts).rest && Line(ts).value == Tree(h)
    decreases |ts|, 2
  {
    hide Pipeline, Text, Tree, IsPipeline;
    var r := Pipeline(ts);
    var p := PipelineSound(ts);
    var n := AmpsSound(r.value, 0, r.rest);
    var (c, rest) := Ampersands(r.value, r.rest);
    if At(rest, ';') {
      var q := LineSound(rest[1..]);
      h := Then(p, n, q);
      ThenText(p, n, q, ts, r.rest, rest, Line(rest[1..]).rest);
      ThenTree(p, n, q);
    } else {
      h := Single(p, n);
      SingleText(p, n, ts, r.rest, rest);
    }
  }

  /** The line h is written with these tokens and stands for c. */
  predicate Means<W(==)>(h: Phrase<W>, ts: seq<Tok<W>>, c: Cmd<W>) {
    IsLine(h) && Text(h) == ts && Tree(h) == c
  }

  /** A command line is accepted with tree c exactly when some line of the
      language is written with these tokens and stands for c. */
  lemma CommandIsLine<W>(ts: seq<Tok<W>>, c: Cmd<W>)
    ensures Command(ts) == Ok(c, ()) <==> exists h: Phrase<W> :: Means(h, ts, c)
  {
    hide Line;
    if Command(ts) == Ok(c, ()) {
      var h := LineSound(ts);
      assert Text(h) + [] == Text(h);
      assert Means(h, ts, c);
    }
    if h: Phrase<W> :| Means(h, ts, c) {
      LineRead(h, []);
      assert Text(h) + [] == ts;
    }
  }

  /** No two lines written alike stand for different trees. */
  lemma LineIsUnambiguous<W>(g: Phrase<W>, h: Phrase<W>)
    requires IsLine(g) && IsLine(h) && Text(g) == Text(h)
    ensures Tree(g) == Tree(h)
  {
    hide Line;
    LineRead(g, []);
    LineRead(h, []);
  }

  lemma {:induction false} WrapParsable<W>(c: Cmd<W>, ps: seq<Part<W>>)
    requires Parsable(c)
    ensures Parsable(Wrap(c, ps))
    decreases |ps|
  {
    if ps != [] {
      WrapParsable(c, ps[..|ps| - 1]);
    }
  }

  lemma {:induction false} BackgroundParsable<W>(c: Cmd<W>, n: nat)
    requires Parsable(c)
    ensures Parsable(InBackground(c, n))
  {
    if n > 0 {
      BackgroundParsable(c, n - 1);
    }
  }

  lemma {:induction false} TreeParsable<W>(h: Phrase<W>)
    requires IsCommand(h) || IsPipeline(h) || IsLine(h)
    ensures Parsable(Tree(h))
  {
    match h
    case Plain(ps) => WrapParsable(Exec(Args(ps)), ps);
    case Group(b, ps) =>
      TreeParsable(b);
      WrapParsable(Tree(b), ps);
    case Piped(l, r) =>
      TreeParsable(l);
      TreeParsable(r);
    case Single(p, n) =>
      TreeParsable(p);
      BackgroundParsable(Tree(p), n);
    case Then(p, n, r) =>
      TreeParsable(p);
      BackgroundParsable(Tree(p), n);
      TreeParsable(r);
  }

  /** No parsed command has MAXARGS words. */
  lemma ParsedIsParsable<W>(ts: seq<Tok<W>>)
    requires Command(ts).Ok?
    ensures Parsable(Command(ts).value)
  {
    hide Line;
    var h := LineSound(ts);
    TreeParsable(h);
  }
}
