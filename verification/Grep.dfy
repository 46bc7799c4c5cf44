/** grep's regular expressions ^ . * $: the backtracking matcher against the
    language a pattern denotes. Strings are C strings without the final NUL. */
module Grep {
  // ----- patterns and their language -----

  datatype Item = One(c: char) | Many(c: char)

  /** The items of a pattern, and whether a final $ ties it to the end. */
  function Items(re: string): seq<Item> {
    if re == [] then []
    else if |re| >= 2 && re[1] == '*' then [Many(re[0])] + Items(re[2..])
    else if re == "$" then []
    else [One(re[0])] + Items(re[1..])
  }

  predicate AtEnd(re: string) {
    if re == [] then false
    else if |re| >= 2 && re[1] == '*' then AtEnd(re[2..])
    else re == "$" || AtEnd(re[1..])
  }

  /** '.' stands for any character. */
  predicate Is(c: char, x: char) {
    c == '.' || c == x
  }

  predicate All(c: char, w: string) {
    forall i | 0 <= i < |w| :: Is(c, w[i])
  }

  predicate InItem(item: Item, w: string) {
    match item
    case One(c) => |w| == 1 && Is(c, w[0])
    case Many(c) => All(c, w)
  }

  /** w is a word for each item, one after the other. */
  ghost predicate InLanguage(items: seq<Item>, w: string)
    decreases |items|
  {
    if items == [] then w == []
    else exists k :: Split(items[0], w, k) && InLanguage(items[1..], w[k..])
  }

  predicate Split(item: Item, w: string, k: int) {
    0 <= k <= |w| && InItem(item, w[..k])
  }

  /** A word of the pattern's language ends k characters on, at the end if tied there. */
  ghost predicate EndsAt(items: seq<Item>, atEnd: bool, text: string, k: int) {
    0 <= k <= |text| && InLanguage(items, text[..k]) && (atEnd ==> k == |text|)
  }

  ghost predicate Prefix(items: seq<Item>, atEnd: bool, text: string) {
    exists k :: EndsAt(items, atEnd, text, k)
  }

  /** Some substring matches, starting at 0 if the pattern begins with ^. */
  ghost predicate Matches(re: string, text: string) {
    if re != [] && re[0] == '^' then Prefix(Items(re[1..]), AtEnd(re[1..]), text)
    else exists i :: Starts(re, text, i)
  }

  ghost predicate Starts(re: string, text: string, i: int) {
    0 <= i <= |text| && Prefix(Items(re), AtEnd(re), text[i..])
  }

  // ----- how words begin -----

  lemma WordOfNone(atEnd: bool, text: string)
    ensures Prefix([], atEnd, text) <==> (atEnd ==> text == [])
  {
    assert text[..0] == [];
    if !atEnd || text == [] {
      assert EndsAt([], atEnd, text, 0);
    }
  }

  /** A match of item and rest: a word of the item, then a match of the rest. */
  lemma WordSplits(item: Item, rest: seq<Item>, atEnd: bool, text: string)
    ensures Prefix([item] + rest, atEnd, text) <==> exists k :: Split(item, text, k) && Prefix(rest, atEnd, text[k..])
  {
    var items := [item] + rest;
    assert items[0] == item && items[1..] == rest;
    if n :| EndsAt(items, atEnd, text, n) {
      var k :| Split(items[0], text[..n], k) && InLanguage(items[1..], text[..n][k..]);
      assert text[..n][..k] == text[..k] && text[..n][k..] == text[k..][..n - k];
      assert Split(item, text, k) && EndsAt(rest, atEnd, text[k..], n - k);
    }
    if k :| Split(item, text, k) && Prefix(rest, atEnd, text[k..]) {
      var m :| EndsAt(rest, atEnd, text[k..], m);
      assert text[..k + m][..k] == text[..k] && text[..k + m][k..] == text[k..][..m];
      assert Split(items[0], text[..k + m], k) && EndsAt(items, atEnd, text, k + m);
    }
  }

  lemma WordOfOne(c: char, rest: seq<Item>, atEnd: bool, text: string)
    ensures Prefix([One(c)] + rest, atEnd, text) <==> text != [] && Is(c, text[0]) && Prefix(rest, atEnd, text[1..])
  {
    WordSplits(One(c), rest, atEnd, text);
    if text != [] && Is(c, text[0]) {
      assert Split(One(c), text, 1);
    }
  }

  /** A starred character is used i times, the characters passed over, and then
      the rest must match; i is at most the number of leading characters it fits. */
  lemma WordOfMany(c: char, rest: seq<Item>, atEnd: bool, text: string)
    ensures Prefix([Many(c)] + rest, atEnd, text) <==> exists i :: Repeats(c, text, i) && Prefix(rest, atEnd, text[i..])
  {
    WordSplits(Many(c), rest, atEnd, text);
    if k :| Split(Many(c), text, k) && Prefix(rest, atEnd, text[k..]) {
      assert Repeats(c, text, k);
    }
    if i :| Repeats(c, text, i) && Prefix(rest, atEnd, text[i..]) {
      assert Split(Many(c), text, i);
    }
  }

  predicate Repeats(c: char, text: string, i: int) {
    0 <= i <= |text| && All(c, text[..i])
  }

  // ----- the matcher -----

  /** match: whether some substring, anchored as the pattern says, is a word of
      the pattern's language. */
  method Match(re: string, text: string) returns (b: bool)
    ensures b <==> Matches(re, text)
  {
    if re != [] && re[0] == '^' {
      b := MatchHere(re[1..], text);
      return;
    }
    var t := 0;
    b := MatchHere(re, text);
    assert text[0..] == text;
    while !b && t < |text|
      invariant 0 <= t <= |text| && b == Prefix(Items(re), AtEnd(re), text[t..])
      invariant forall i | 0 <= i < t :: !Starts(re, text, i)
    {
      t := t + 1;
      b := MatchHere(re, text[t..]);
    }
    if b {
      assert Starts(re, text, t);
    }
  }

  /** matchhere: the pattern at the beginning of the text. */
  method MatchHere(re: string, text: string) returns (b: bool)
    ensures b <==> Prefix(Items(re), AtEnd(re), text)
    decreases |re|
  {
    if re == [] {
      WordOfNone(false, text);
      return true;
    }
    if |re| >= 2 && re[1] == '*' {
      b := MatchStar(re[0], re[2..], text);
      return;
    }
    if re == "$" {
      WordOfNone(true, text);
      return text == [];
    }
    WordOfOne(re[0], Items(re[1..]), AtEnd(re[1..]), text);
    if text != [] && (re[0] == '.' || re[0] == text[0]) {
      b := MatchHere(re[1..], text[1..]);
      return;
    }
    return false;
  }

  /** matchstar: c* and then the pattern. */
  method MatchStar(c: char, re: string, text: string) returns (b: bool)
    ensures b <==> Prefix([Many(c)] + Items(re), AtEnd(re), text)
    decreases |re| + 1
  {
    WordOfMany(c, Items(re), AtEnd(re), text);
    var t := 0;
    assert text[0..] == text;
    while true
      invariant Repeats(c, text, t)
      invariant forall i | 0 <= i < t :: !Prefix(Items(re), AtEnd(re), text[i..])
      decreases |text| - t
    {
      b := MatchHere(re, text[t..]);
      if b {
        return;
      }
      if t == |text| || !(text[t] == c || c == '.') {
        NoMore(c, text, t);
        return;
      }
      t := t + 1;
    }
  }

  lemma NoMore(c: char, text: string, t: nat)
    requires t <= |text| && (t < |text| ==> !Is(c, text[t]))
    ensures forall i | i > t :: !Repeats(c, text, i)
  {
    forall i | t < i <= |text|
      ensures !Repeats(c, text, i)
    {
      assert text[..i][t] == text[t];
    }
  }

  // ----- grep: the lines of a file -----

  const BUFSIZE := 1024
  const NUL := '\0'

  /** The first newline, if there is one. */
  function Newline(data: string): (k: int)
    ensures k == -1 || (0 <= k < |data| && data[k] == '\n')
    ensures forall j | 0 <= j < |data| && (k == -1 || j < k) :: data[j] != '\n'
  {
    if data == [] then -1
    else if data[0] == '\n' then 0
    else
      var k := Newline(data[1..]);
      assert forall j | 0 < j < |data| :: data[j] == data[1..][j - 1];
      if k == -1 then -1 else k + 1
  }

  /** The lines that end in a newline, without it. */
  function Lines(data: string): seq<string>
    decreases |data|
  {
    var k := Newline(data);
    if k == -1 then [] else [data[..k]] + Lines(data[k + 1..])
  }

  /** With its newline the line fits in the buffer, and it holds no NUL. */
  predicate Fits(line: string) {
    |line| + 1 < BUFSIZE && NUL !in line
  }

  /** The lines before the first one that does not fit. */
  function Fitting(lines: seq<string>): seq<string> {
    if lines == [] || !Fits(lines[0]) then [] else [lines[0]] + Fitting(lines[1..])
  }

  ghost function Printed(re: string, lines: seq<string>): string {
    if lines == [] then []
    else (if Matches(re, lines[0]) then lines[0] + ['\n'] else []) + Printed(re, lines[1..])
  }

  /** What grep prints for the input from here on. */
  ghost function Rest(re: string, data: string): string {
    Printed(re, Fitting(Lines(data)))
  }

  /** No newline can be reached: there is none, or a NUL comes first. */
  predicate NoLine(data: string) {
    var k := Newline(data);
    k == -1 || NUL in data[..k]
  }

  lemma NextLine(re: string, data: string, k: nat)
    requires k < |data| && data[k] == '\n' && NUL !in data[..k] && '\n' !in data[..k] && k + 1 < BUFSIZE
    ensures Rest(re, data) == (if Matches(re, data[..k]) then data[..k + 1] else []) + Rest(re, data[k + 1..])
  {
    assert forall j | 0 <= j < k :: data[j] == data[..k][j];
    assert Newline(data) == k;
    var ls := Lines(data);
    assert ls == [data[..k]] + Lines(data[k + 1..]);
    assert ls[0] == data[..k] && ls[1..] == Lines(data[k + 1..]);
    assert Fitting(ls) == [data[..k]] + Fitting(ls[1..]);
    assert Fitting(ls)[1..] == Fitting(ls[1..]);
    assert data[..k + 1] == data[..k] + ['\n'];
  }

  /** A buffer full without a line, or the end of the input, ends the output. */
  lemma NoMoreLines(re: string, data: string, m: nat)
    requires m <= |data| && NoLine(data[..m]) && (m == |data| || m + 1 >= BUFSIZE)
    ensures Rest(re, data) == []
  {
    var k := Newline(data);
    if k != -1 {
      var j := Newline(data[..m]);
      assert forall i | 0 <= i < m :: data[..m][i] == data[i];
      if k < m {
        assert j != -1 by {
          assert data[..m][k] == '\n';
        }
        assert j == k;
        assert data[..m][..k] == data[..k];
        assert NUL in data[..k];
      } else {
        assert |data[..k]| + 1 >= BUFSIZE;
      }
      assert !Fits(data[..k]);
      assert Lines(data)[0] == data[..k];
    }
  }

  /** strchr(p, '\n') on a buffer that ends at m. */
  method Strchr(buf: array<char>, p: nat, m: nat) returns (q: int)
    requires p <= m <= buf.Length
    ensures q == -1 ==> NoLine(buf[p..m])
    ensures q != -1 ==> p <= q < m && buf[q] == '\n' && NUL !in buf[p..q] && '\n' !in buf[p..q]
  {
    q := p;
    while q < m
      invariant p <= q <= m && NUL !in buf[p..q] && '\n' !in buf[p..q]
    {
      if buf[q] == '\n' {
        return;
      }
      if buf[q] == NUL {
        assert NoLine(buf[p..m]) by {
          var k := Newline(buf[p..m]);
          assert forall j | 0 <= j < q - p :: buf[p..m][j] == buf[p..q][j];
          if k != -1 {
            assert buf[p..m][q - p] == NUL;
            assert buf[p..m][k] == '\n';
            assert k > q - p;
            assert buf[p..m][..k][q - p] == NUL;
          }
        }
        return -1;
      }
      assert buf[p..q + 1] == buf[p..q] + [buf[q]];
      q := q + 1;
    }
    assert buf[p..m] == buf[p..q];
    return -1;
  }

  lemma LineAt(b: seq<char>, data: string, p: nat, q: nat, m: nat)
    requires p <= q < m <= |b| && m <= |data| && b[p..m] == data[p..m]
    ensures b[p..q] == data[p..][..q - p] && b[q] == data[p..][q - p]
  {
    assert b[p..m][..q - p] == b[p..q];
    assert data[p..m][..q - p] == data[p..][..q - p];
    assert b[p..m][q - p] == b[q];
  }

  /** A complete line is matched and, if it matches, printed. */
  method PrintLine(re: string, buf: array<char>, p: nat, q: nat, m: nat, ghost data: string) returns (out: string)
    requires p <= q < m < buf.Length == BUFSIZE && m <= |data| && buf[p..m] == data[p..m]
    requires buf[q] == '\n' && NUL !in buf[p..q] && '\n' !in buf[p..q]
    modifies buf
    ensures buf[q + 1..m] == data[q + 1..m] && Rest(re, data[p..]) == out + Rest(re, data[q + 1..])
  {
    hide Rest, Matches;
    ghost var d := data[p..];
    LineAt(buf[..], data, p, q, m);
    NextLine(re, d, q - p);
    assert d[q - p + 1..] == data[q + 1..];
    out := [];
    buf[q] := NUL;
    var hit := Match(re, buf[p..q]);
    if hit {
      buf[q] := '\n';
      out := buf[p..q + 1];
      assert out == d[..q - p + 1];
    }
    RestOfBuffer(old(buf[..]), buf[..], data, p, q, m);
  }

  lemma RestOfBuffer(b: seq<char>, c: seq<char>, data: string, p: nat, q: nat, m: nat)
    requires p <= q < m <= |b| == |c| && m <= |data| && b[p..m] == data[p..m] && forall i | q < i < m :: c[i] == b[i]
    ensures c[q + 1..m] == data[q + 1..m]
  {
    assert c[q + 1..m] == b[q + 1..m] == b[p..m][q + 1 - p..];
    assert data[q + 1..m] == data[p..m][q + 1 - p..];
  }

  /** The lines in buf[..m] are matched and printed; what is left begins at p. */
  method PrintLines(re: string, buf: array<char>, m: nat, ghost data: string) returns (p: nat, out: string)
    requires m < buf.Length == BUFSIZE && m <= |data| && buf[..m] == data[..m]
    modifies buf
    ensures p <= m && buf[p..m] == data[p..m] && NoLine(data[p..m])
    ensures Rest(re, data) == out + Rest(re, data[p..])
  {
    hide Rest, NoLine;
    p, out := 0, [];
    assert data[0..] == data && buf[0..m] == buf[..m] && data[0..m] == data[..m];
    var q := Strchr(buf, p, m);
    while q != -1
      invariant p <= m && buf[p..m] == data[p..m]
      invariant q == -1 ==> NoLine(buf[p..m])
      invariant q != -1 ==> p <= q < m && buf[q] == '\n' && NUL !in buf[p..q] && '\n' !in buf[p..q]
      invariant Rest(re, data) == out + Rest(re, data[p..])
      decreases m - p
    {
      var line := PrintLine(re, buf, p, q, m, data);
      out := out + line;
      p := q + 1;
      q := Strchr(buf, p, m);
    }
  }

  /** memmove(buf, buf + p, m - p). */
  method MoveDown(buf: array<char>, p: nat, m: nat)
    requires p <= m <= buf.Length
    modifies buf
    ensures buf[..m - p] == old(buf[p..m])
  {
    for i := 0 to m - p
      invariant forall j | 0 <= j < i :: buf[j] == old(buf[p + j])
      invariant forall j | i <= j < buf.Length :: buf[j] == old(buf[j])
    {
      buf[i] := buf[p + i];
    }
  }

  /** read(fd, buf + m, BUFSIZE - m - 1): some of the input from pos on, none only
      at its end or without room. */
  method Read(data: string, pos: nat, buf: array<char>, m: nat) returns (n: nat)
    requires pos <= |data| && m < buf.Length == BUFSIZE
    modifies buf
    ensures pos + n <= |data| && m + n < BUFSIZE && (n == 0 ==> pos == |data| || m + 1 == BUFSIZE)
    ensures buf[..m] == old(buf[..m]) && buf[m..m + n] == data[pos..pos + n]
  {
    n :| pos + n <= |data| && m + n < BUFSIZE && (n == 0 ==> pos == |data| || m + 1 == BUFSIZE);
    for i := 0 to n
      invariant buf[..m] == old(buf[..m])
      invariant buf[m..m + i] == data[pos..pos + i]
    {
      buf[m + i] := data[pos + i];
      assert buf[m..m + i + 1] == buf[m..m + i] + [data[pos + i]];
    }
  }

  /** The loop body of grep, after a read: the rest of the last line stays. */
  method Chunk(re: string, buf: array<char>, m: nat, ghost data: string, ghost pos: nat) returns (left: nat, out: string)
    requires m < buf.Length == BUFSIZE && m <= pos <= |data| && buf[..m] == data[pos - m..pos]
    modifies buf
    ensures left <= m && buf[..left] == data[pos - left..pos] && NoLine(data[pos - left..pos])
    ensures Rest(re, data[pos - m..]) == out + Rest(re, data[pos - left..])
  {
    hide NoLine, Rest;
    ghost var d := data[pos - m..];
    assert d[..m] == data[pos - m..pos];
    var p;
    p, out := PrintLines(re, buf, m, d);
    left := m - p;
    assert d[p..m] == data[pos - left..pos] && d[p..] == data[pos - left..];
    MoveDown(buf, p, m);
  }

  /** grep: however the reads cut up the input, exactly its matching lines are
      printed, in order, up to the first line that the buffer cannot hold. */
  method Grep(re: string, data: string) returns (out: string)
    ensures out == Printed(re, Fitting(Lines(data)))
  {
    hide NoLine, Printed, Fitting, Lines;
    var buf := new char[BUFSIZE](_ => NUL);
    var m: nat, pos: nat := 0, 0;
    out := [];
    assert data[0..] == data;
    EmptyNoLine(data);
    var n := Read(data, pos, buf, m);
    while n > 0
      invariant m + n < BUFSIZE && m <= pos && pos + n <= |data| && (n == 0 ==> pos == |data| || m + 1 == BUFSIZE)
      invariant buf[..m] == data[pos - m..pos] && buf[m..m + n] == data[pos..pos + n]
      invariant NoLine(data[pos - m..pos])
      invariant Rest(re, data) == out + Rest(re, data[pos - m..])
      decreases |data| - pos, n
    {
      assert buf[..m + n] == data[pos - m..pos + n] by {
        assert buf[..m + n] == buf[..m] + buf[m..m + n];
      }
      pos := pos + n;
      m := m + n;
      var lines;
      m, lines := Chunk(re, buf, m, data, pos);
      out := out + lines;
      n := Read(data, pos, buf, m);
    }
    assert data[pos - m..][..m] == data[pos - m..pos];
    NoMoreLines(re, data[pos - m..], m);
  }

  lemma EmptyNoLine(data: string)
    ensures NoLine(data[0..0])
  {
  }

  // ----- what grep leaves out -----

  /** Nothing is printed exactly when nothing matches. */
  lemma {:induction false} NothingPrinted(re: string, ls: seq<string>)
    ensures Printed(re, ls) == [] <==> forall i | 0 <= i < |ls| :: !Matches(re, ls[i])
  {
    if ls != [] {
      NothingPrinted(re, ls[1..]);
      assert forall i | 0 < i < |ls| :: ls[i] == ls[1..][i - 1];
      if Matches(re, ls[0]) {
        assert Printed(re, ls)[0] == (ls[0] + ['\n'])[0];
      }
    }
  }

  /** What is printed of the fitting lines, and then of the others. */
  lemma {:induction false} PrintedParts(re: string, ls: seq<string>)
    ensures |Fitting(ls)| <= |ls|
    ensures Printed(re, ls) == Printed(re, Fitting(ls)) + Printed(re, ls[|Fitting(ls)|..])
  {
    hide Matches, Fits;
    if ls != [] && Fits(ls[0]) {
      var f := Fitting(ls[1..]);
      PrintedParts(re, ls[1..]);
      assert Fitting(ls)[0] == ls[0] && Fitting(ls)[1..] == f;
      assert ls[1..][|f|..] == ls[|f| + 1..];
    } else {
      assert ls[0..] == ls;
    }
  }

  lemma {:induction false} AllFit(ls: seq<string>)
    ensures Fitting(ls) == ls <==> forall i | 0 <= i < |ls| :: Fits(ls[i])
  {
    hide Fits;
    if ls != [] && Fits(ls[0]) {
      AllFit(ls[1..]);
      assert ls == [ls[0]] + ls[1..];
      assert Fitting(ls)[1..] == Fitting(ls[1..]);
      assert forall i | 0 < i < |ls| :: ls[i] == ls[1..][i - 1];
    }
  }

  /** grep prints every matching line exactly when none matches from the first
      line on that does not fit; so it does for every pattern when all fit. */
  lemma PrintsAllIff(re: string, data: string)
    ensures var ls := Lines(data);
      Printed(re, Fitting(ls)) == Printed(re, ls) <==> forall i | |Fitting(ls)| <= i < |ls| :: !Matches(re, ls[i])
    ensures var ls := Lines(data); Fitting(ls) == ls <==> forall i | 0 <= i < |ls| :: Fits(ls[i])
  {
    var ls := Lines(data);
    var n := |Fitting(ls)|;
    PrintedParts(re, ls);
    AllFit(ls);
    NothingPrinted(re, ls[n..]);
    assert forall i | n <= i < |ls| :: ls[i] == ls[n..][i - n];
  }

  /** An input: a line of 1023 characters hides the matching line behind it. */
  lemma LongLineHidesMatch()
    ensures var data := seq(BUFSIZE - 1, _ => 'a') + "\nb\n";
      Printed("b", Fitting(Lines(data))) == [] && Printed("b", Lines(data)) != []
  {
    hide Matches, Printed, Fitting;
    var long := seq(BUFSIZE - 1, _ => 'a');
    var data := long + "\nb\n";
    assert data == long + ['\n'] + "b\n" && "b\n" == "b" + ['\n'] + [];
    FirstLine(long, "b\n");
    FirstLine("b", []);
    assert Lines([]) == [];
    assert Lines(data) == [long, "b"];
    assert !Fits(long);
    OneWord();
    SecondHidden(long, "b", "b");
  }

  lemma SecondHidden(a: string, b: string, re: string)
    requires !Fits(a) && Matches(re, b)
    ensures Printed(re, Fitting([a, b])) == [] && Printed(re, [a, b]) != []
  {
    hide Fits, Matches;
    var ls := [a, b];
    assert Fitting(ls) == [];
    NothingPrinted(re, ls);
    assert ls[1] == b;
  }

  lemma OneWord()
    ensures Matches("b", "b")
  {
    assert Items("b") == [One('b')] + [] by {
      assert "b"[1..] == [] && "b" != "$";
    }
    assert AtEnd("b") == false by {
      assert "b"[1..] == [] && "b" != "$";
    }
    WordOfOne('b', [], false, "b");
    WordOfNone(false, "b"[1..]);
    assert "b"[0..] == "b" && Starts("b", "b", 0);
  }

  lemma FirstLine(a: string, rest: string)
    requires '\n' !in a
    ensures Lines(a + ['\n'] + rest) == [a] + Lines(rest)
  {
    var data := a + ['\n'] + rest;
    assert data[|a|] == '\n';
    assert forall i | 0 <= i < |a| :: data[i] == a[i];
    assert Newline(data) == |a|;
    assert data[|a| + 1..] == rest && data[..|a|] == a;
  }

  // ----- patterns by index -----

  /** No special character but '.'. */
  predicate Plain(p: string) {
    forall i | 0 <= i < |p| :: p[i] != '*' && p[i] != '^' && p[i] != '$'
  }

  /** The text has p at i, where '.' stands for any character. */
  predicate HasAt(p: string, text: string, i: int) {
    0 <= i && i + |p| <= |text| && forall j | 0 <= j < |p| :: p[j] == '.' || p[j] == text[i + j]
  }

  /** k characters from i on are c, or any if c is '.'. */
  predicate RunAt(c: char, text: string, i: int, k: int) {
    0 <= i && 0 <= k && i + k <= |text| && forall x | i <= x < i + k :: c == '.' || c == text[x]
  }

  function Anchored(a: bool, p: string, b: bool): string {
    (if a then "^" else "") + p + (if b then "$" else "")
  }

  function Ones(p: string): seq<Item> {
    seq(|p|, i requires 0 <= i < |p| => One(p[i]))
  }

  lemma {:induction false} PlainItems(p: string, r: string)
    requires Plain(p) && (r == [] || r[0] != '*')
    ensures Items(p + r) == Ones(p) + Items(r) && AtEnd(p + r) == AtEnd(r)
    decreases |p|
  {
    if p == [] {
      assert p + r == r && Ones(p) + Items(r) == Items(r);
    } else {
      var t := p + r;
      assert t[1..] == p[1..] + r && t[0] == p[0];
      assert t != "$" && !(|t| >= 2 && t[1] == '*');
      PlainItems(p[1..], r);
      assert Ones(p) == [One(p[0])] + Ones(p[1..]);
      assert Items(t) == [One(t[0])] + Items(t[1..]);
    }
  }

  lemma EndItems(b: bool)
    ensures var r := if b then "$" else ""; Items(r) == [] && AtEnd(r) == b
  {
  }

  lemma {:induction false} OnesFirst(p: string, its: seq<Item>, b: bool, w: string)
    ensures Prefix(Ones(p) + its, b, w) <==> HasAt(p, w, 0) && Prefix(its, b, w[|p|..])
    decreases |p|
  {
    var all := Ones(p) + its;
    if p == [] {
      assert all == its && w[0..] == w;
    } else {
      assert all == [One(p[0])] + (Ones(p[1..]) + its);
      WordOfOne(p[0], Ones(p[1..]) + its, b, w);
      if w != [] {
        OnesFirst(p[1..], its, b, w[1..]);
        HasOneMore(p, w);
        assert |p| <= |w| ==> w[1..][|p| - 1..] == w[|p|..];
      }
    }
  }

  lemma HasOneMore(p: string, w: string)
    requires p != [] && w != []
    ensures HasAt(p, w, 0) <==> Is(p[0], w[0]) && HasAt(p[1..], w[1..], 0)
  {
    if Is(p[0], w[0]) && HasAt(p[1..], w[1..], 0) {
      forall j | 0 <= j < |p|
        ensures p[j] == '.' || p[j] == w[j]
      {
        assert j > 0 ==> p[j] == p[1..][j - 1] && w[j] == w[1..][j - 1];
      }
    }
  }

  lemma HasShift(p: string, text: string, i: int, n: int)
    requires 0 <= i <= |text| && 0 <= n <= |text| - i
    ensures HasAt(p, text[i..], n) <==> HasAt(p, text, i + n)
  {
    assert forall j | 0 <= j < |text| - i :: text[i..][j] == text[i + j];
  }

  /** The places where a pattern may match. */
  lemma MatchesFrom(a: bool, q: string, text: string)
    requires q == [] || q[0] != '^'
    ensures Matches((if a then "^" else "") + q, text) <==>
            exists i :: 0 <= i <= |text| && (a ==> i == 0) && Prefix(Items(q), AtEnd(q), text[i..])
  {
    var re := (if a then "^" else "") + q;
    assert text[0..] == text;
    if a {
      assert re[1..] == q && re[0] == '^';
    } else {
      assert re == q;
      assert forall i | 0 <= i <= |text| :: Starts(q, text, i) <==> Prefix(Items(q), AtEnd(q), text[i..]);
    }
  }

  lemma AnchoredIs(a: bool, p: string, b: bool)
    ensures Anchored(a, p, b) == (if a then "^" else "") + (p + (if b then "$" else ""))
  {
  }

  /** A pattern of plain characters and '.' is found where the text has them, one
      by one; ^ ties it to the beginning and $ to the end. */
  lemma PlainByIndex(a: bool, p: string, b: bool, text: string)
    requires Plain(p)
    ensures Matches(Anchored(a, p, b), text) <==>
            exists i :: HasAt(p, text, i) && (a ==> i == 0) && (b ==> i + |p| == |text|)
  {
    hide Matches, Prefix, Items, AtEnd, HasAt;
    var r := if b then "$" else "";
    AnchoredIs(a, p, b);
    PlainItems(p, r);
    EndItems(b);
    PlainStart(p, r);
    MatchesFrom(a, p + r, text);
    forall i | 0 <= i <= |text|
      ensures Prefix(Items(p + r), b, text[i..]) <==> HasAt(p, text, i) && (b ==> i + |p| == |text|)
    {
      OnesFirst(p, [], b, text[i..]);
      HasShift(p, text, i, 0);
      HasWithin(p, text, i);
      if HasAt(p, text, i) {
        WordOfNone(b, text[i..][|p|..]);
      }
    }
    forall i | HasAt(p, text, i)
      ensures 0 <= i <= |text|
    {
      HasWithin(p, text, i);
    }
  }

  lemma HasWithin(p: string, text: string, i: int)
    ensures HasAt(p, text, i) ==> 0 <= i && i + |p| <= |text|
  {
  }

  lemma PlainStart(p: string, r: string)
    requires Plain(p) && (r == [] || r[0] != '^')
    ensures p + r == [] || (p + r)[0] != '^'
  {
  }

  /** p at i, then k characters that are c, then q, at the end of the text if b. */
  predicate StarAt(p: string, c: char, q: string, b: bool, text: string, i: int, k: int) {
    && HasAt(p, text, i) && RunAt(c, text, i + |p|, k) && HasAt(q, text, i + |p| + k)
    && (b ==> i + |p| + k + |q| == |text|)
  }

  /** One starred character between plain ones: some number of it, or of any
      characters for .*, stands between what comes before and after. */
  lemma StarByIndex(a: bool, p: string, c: char, q: string, b: bool, text: string)
    requires Plain(p) && Plain(q) && (c == '.' || Plain([c]))
    ensures Matches(Anchored(a, p + [c, '*'] + q, b), text) <==>
            exists i, k :: StarAt(p, c, q, b, text, i, k) && (a ==> i == 0)
  {
    hide Matches, Prefix, AtEnd, Items, StarAt;
    var r := if b then "$" else "";
    var re := p + ([c, '*'] + (q + r));
    assert p + [c, '*'] + q + r == re;
    AnchoredIs(a, p + [c, '*'] + q, b);
    StarItems(p, c, q, b);
    PlainStart(p, [c, '*'] + (q + r));
    MatchesFrom(a, re, text);
    forall i | 0 <= i <= |text|
      ensures Prefix(Items(re), b, text[i..]) <==>
              exists k :: StarAt(p, c, q, b, text, i, k)
    {
      StarFrom(p, c, q, b, text, i);
    }
    if i, k :| StarAt(p, c, q, b, text, i, k) && (a ==> i == 0) {
      StarWithin(p, c, q, b, text, i, k);
      assert Prefix(Items(re), b, text[i..]);
    }
    if i :| 0 <= i <= |text| && (a ==> i == 0) && Prefix(Items(re), b, text[i..]) {
      var k :| StarAt(p, c, q, b, text, i, k);
    }
  }

  lemma StarWithin(p: string, c: char, q: string, b: bool, text: string, i: int, k: int)
    ensures StarAt(p, c, q, b, text, i, k) ==> 0 <= i <= |text|
  {
  }

  lemma StarItems(p: string, c: char, q: string, b: bool)
    requires Plain(p) && Plain(q) && (c == '.' || Plain([c]))
    ensures var re := p + ([c, '*'] + (q + (if b then "$" else "")));
      Items(re) == Ones(p) + ([Many(c)] + Ones(q)) && AtEnd(re) == b
  {
    var r := if b then "$" else "";
    var mid := [c, '*'] + (q + r);
    PlainItems(q, r);
    EndItems(b);
    assert Ones(q) + [] == Ones(q);
    assert mid[2..] == q + r;
    PlainItems(p, mid);
  }

  lemma StarFrom(p: string, c: char, q: string, b: bool, text: string, i: int)
    requires 0 <= i <= |text|
    ensures Prefix(Ones(p) + ([Many(c)] + Ones(q)), b, text[i..]) <==>
            exists k :: StarAt(p, c, q, b, text, i, k)
  {
    hide Prefix, HasAt, Repeats, RunAt;
    OnesFirst(p, [Many(c)] + Ones(q), b, text[i..]);
    HasShift(p, text, i, 0);
    HasWithin(p, text, i);
    if HasAt(p, text, i) {
      var n := i + |p|;
      assert text[i..][|p|..] == text[n..];
      WordOfMany(c, Ones(q), b, text[n..]);
      forall k
        ensures Repeats(c, text[n..], k) ==> 0 <= k <= |text[n..]|
        ensures 0 <= k <= |text[n..]| && Repeats(c, text[n..], k) && Prefix(Ones(q), b, text[n..][k..]) <==> StarAt(p, c, q, b, text, i, k)
      {
        RunIsRepeat(c, text, n, k);
        if RunAt(c, text, n, k) {
          assert text[n..][k..] == text[n + k..];
          assert Ones(q) + [] == Ones(q);
          OnesFirst(q, [], b, text[n + k..]);
          HasShift(q, text, n + k, 0);
          HasWithin(q, text, n + k);
          if HasAt(q, text, n + k) {
            WordOfNone(b, text[n + k..][|q|..]);
          }
        }
      }
    }
  }

  lemma RunIsRepeat(c: char, text: string, n: int, k: int)
    requires 0 <= n <= |text|
    ensures Repeats(c, text[n..], k) <==> RunAt(c, text, n, k)
    ensures RunAt(c, text, n, k) ==> 0 <= k <= |text[n..]| && n + k <= |text|
  {
    if 0 <= k <= |text| - n {
      assert forall x | 0 <= x < k :: text[n..][..k][x] == text[n + x];
      if Repeats(c, text[n..], k) {
        forall x | n <= x < n + k
          ensures c == '.' || c == text[x]
        {
          assert Is(c, text[n..][..k][x - n]);
        }
      }
    }
  }
}
