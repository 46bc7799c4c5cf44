/** The on-disk redo log as values: the header codec, the exact sequences of
    block writes that commit() and recover_from_log() issue, and crash
    atomicity of those sequences. A crash keeps the disk and loses memory, so
    it is a prefix of a write sequence. */
module LogSpec {
  import opened Blocks

  const MAXOPBLOCKS := 10
  const LOGBLOCKS := 30 // MAXOPBLOCKS * 3

  type DiskState = seq<Block>

  datatype Write = Write(bno: nat, data: Block)

  predicate InLog(start: nat, b: nat) {
    start <= b <= start + LOGBLOCKS
  }

  ghost predicate Fits(size: nat, ws: seq<Write>) {
    forall i | 0 <= i < |ws| :: ws[i].bno < size
  }

  /** The disk after the given block writes, in order. */
  ghost function Apply(d: DiskState, ws: seq<Write>): (r: DiskState)
    requires Fits(|d|, ws)
    ensures |r| == |d|
  {
    if ws == [] then d
    else
      var w := ws[|ws| - 1];
      Apply(d, ws[..|ws| - 1])[w.bno := w.data]
  }

  // ----- header block -----

  predicate Addresses(t: seq<nat>) {
    forall i | 0 <= i < |t| :: t[i] < 0x1_0000_0000
  }

  function PutTargets(h: Block, t: seq<nat>, i: nat): Block
    requires i <= |t| <= LOGBLOCKS && Addresses(t)
  {
    if i == 0 then h else PutWord(PutTargets(h, t, i - 1), i, t[i - 1])
  }

  /** What write_head leaves in the header buffer: the count and the first
      |t| block numbers; the rest of the block keeps its old bytes. */
  function EncodeHeader(h: Block, t: seq<nat>): Block
    requires |t| <= LOGBLOCKS && Addresses(t)
  {
    PutTargets(PutWord(h, 0, |t|), t, |t|)
  }

  /** What read_head takes from a header block. */
  function Targets(h: Block): (t: seq<nat>)
    requires Word(h, 0) <= LOGBLOCKS
  {
    seq(Word(h, 0), i requires 0 <= i < LOGBLOCKS => Word(h, i + 1) as nat)
  }

  lemma {:induction false} WordsOfPutTargets(h: Block, t: seq<nat>, i: nat)
    requires i <= |t| <= LOGBLOCKS && Addresses(t)
    ensures forall u: nat | u < NWORDS ::
      Word(PutTargets(h, t, i), u) == if 1 <= u <= i then t[u - 1] else Word(h, u)
  {
    if i > 0 {
      WordsOfPutTargets(h, t, i - 1);
      WordOfPut(PutTargets(h, t, i - 1), i, t[i - 1]);
    }
  }

  /** read_head undoes write_head. */
  lemma HeaderRoundTrip(h: Block, t: seq<nat>)
    requires |t| <= LOGBLOCKS && Addresses(t)
    ensures Word(EncodeHeader(h, t), 0) == |t|
    ensures Targets(EncodeHeader(h, t)) == t
  {
    WordOfPut(h, 0, |t|);
    WordsOfPutTargets(PutWord(h, 0, |t|), t, |t|);
  }

  /** struct logheader: the count in the first four bytes, block number i in the
      four at 4 + 4 * i, least significant byte first. */
  ghost predicate HeaderBytes(h: Block, t: seq<nat>) {
    && |t| <= LOGBLOCKS && |t| == LittleEndian(h[0..4])
    && forall i | 0 <= i < |t| :: t[i] == LittleEndian(h[4 + 4 * i..8 + 4 * i])
  }

  /** read_head reads exactly these bytes. */
  lemma HeaderLayout(h: Block, t: seq<nat>)
    ensures HeaderBytes(h, t) <==> Word(h, 0) <= LOGBLOCKS && Targets(h) == t
  {
    hide LittleEndian, Word;
    WordIsBytes(h, 0);
    forall i | 0 <= i < |t| && |t| <= LOGBLOCKS
      ensures Word(h, i + 1) == LittleEndian(h[4 + 4 * i..8 + 4 * i])
    {
      WordIsBytes(h, i + 1);
    }
  }

  /** write_head stores them and leaves the rest of the block. */
  lemma EncodeHeaderLayout(h: Block, t: seq<nat>)
    requires |t| <= LOGBLOCKS && Addresses(t)
    ensures HeaderBytes(EncodeHeader(h, t), t)
    ensures forall i | 4 + 4 * |t| <= i < BSIZE :: EncodeHeader(h, t)[i] == h[i]
  {
    HeaderRoundTrip(h, t);
    HeaderLayout(EncodeHeader(h, t), t);
    hide Word, PutWord;
    forall i | 4 + 4 * |t| <= i < BSIZE
      ensures EncodeHeader(h, t)[i] == h[i]
    {
      PutTargetsElsewhere(PutWord(h, 0, |t|), t, |t|, i);
      PutWordElsewhere(h, 0, |t|, i);
    }
  }

  lemma {:induction false} PutTargetsElsewhere(h: Block, t: seq<nat>, n: nat, i: nat)
    requires n <= |t| <= LOGBLOCKS && Addresses(t) && 4 + 4 * n <= i < BSIZE
    ensures PutTargets(h, t, n)[i] == h[i]
  {
    if n > 0 {
      PutTargetsElsewhere(h, t, n - 1, i);
      PutWordElsewhere(PutTargets(h, t, n - 1), n, t[n - 1], i);
    }
  }

  // ----- well-formed logs -----

  ghost predicate ValidTargets(size: nat, start: nat, t: seq<nat>) {
    && |t| <= LOGBLOCKS
    && forall i | 0 <= i < |t| :: t[i] < size && !InLog(start, t[i])
  }

  ghost predicate WellFormed(d: DiskState, start: nat) {
    && start + LOGBLOCKS < |d| <= 0x1_0000_0000
    && Word(d[start], 0) <= LOGBLOCKS
    && ValidTargets(|d|, start, Targets(d[start]))
  }

  /** What recovery gives block b when the header lists t: the last log copy
      of b, or the block itself when it is not listed. */
  ghost function Durable(d: DiskState, start: nat, t: seq<nat>, b: nat): Block
    requires start + LOGBLOCKS < |d| && |t| <= LOGBLOCKS && b < |d|
  {
    if t == [] then d[b]
    else if t[|t| - 1] == b then d[start + |t|]
    else Durable(d, start, t[..|t| - 1], b)
  }

  lemma {:induction false} DurableLast(d: DiskState, start: nat, t: seq<nat>, b: nat, i: nat)
    requires start + LOGBLOCKS < |d| && |t| <= LOGBLOCKS && b < |d|
    requires i < |t| && t[i] == b && forall j | i < j < |t| :: t[j] != b
    ensures Durable(d, start, t, b) == d[start + 1 + i]
  {
    if i < |t| - 1 {
      DurableLast(d, start, t[..|t| - 1], b, i);
    }
  }

  lemma {:induction false} DurableUnlisted(d: DiskState, start: nat, t: seq<nat>, b: nat)
    requires start + LOGBLOCKS < |d| && |t| <= LOGBLOCKS && b < |d| && b !in t
    ensures Durable(d, start, t, b) == d[b]
  {
    if t != [] {
      assert t[|t| - 1] in t;
      DurableUnlisted(d, start, t[..|t| - 1], b);
    }
  }

  /** Durable depends on the log copies and, for unlisted blocks, on b itself. */
  lemma {:induction false} DurableCongruence(d: DiskState, e: DiskState, start: nat, t: seq<nat>, b: nat)
    requires start + LOGBLOCKS < |d| == |e| && |t| <= LOGBLOCKS && b < |d|
    requires forall a | start < a <= start + |t| :: d[a] == e[a]
    requires b !in t ==> d[b] == e[b]
    ensures Durable(d, start, t, b) == Durable(e, start, t, b)
  {
    if t != [] {
      assert t == t[..|t| - 1] + [t[|t| - 1]];
      if t[|t| - 1] != b {
        DurableCongruence(d, e, start, t[..|t| - 1], b);
      }
    }
  }

  // ----- recovery -----

  ghost function InstallWrites(d: DiskState, start: nat, t: seq<nat>): (ws: seq<Write>)
    requires start + LOGBLOCKS < |d| && |t| <= LOGBLOCKS
    ensures |ws| == |t|
  {
    seq(|t|, i requires 0 <= i < |t| => Write(t[i], d[start + 1 + i]))
  }

  /** The block writes of recover_from_log (lines 119-125 of log.c). */
  ghost function RecoveryWrites(d: DiskState, start: nat): (ws: seq<Write>)
    requires WellFormed(d, start)
    ensures Fits(|d|, ws)
  {
    InstallWrites(d, start, Targets(d[start])) + [Write(start, EncodeHeader(d[start], []))]
  }

  ghost function Recovered(d: DiskState, start: nat): DiskState
    requires WellFormed(d, start)
  {
    Apply(d, RecoveryWrites(d, start))
  }

  /** After i installs: the log area is untouched, and every home block holds
      what recovery restores or, when not reached yet, its old contents. */
  lemma {:induction false} AfterInstalls(d: DiskState, start: nat, t: seq<nat>, i: nat)
    requires start + LOGBLOCKS < |d| && ValidTargets(|d|, start, t) && i <= |t|
    ensures Fits(|d|, InstallWrites(d, start, t)[..i])
    ensures var s := Apply(d, InstallWrites(d, start, t)[..i]);
      forall b: nat | b < |d| :: s[b] == if InLog(start, b) then d[b] else Durable(d, start, t[..i], b)
  {
    if i > 0 {
      hide Apply, Durable;
      AfterInstalls(d, start, t, i - 1);
      var all := InstallWrites(d, start, t);
      assert all[i - 1] == Write(t[i - 1], d[start + 1 + (i - 1)]) && !InLog(start, t[i - 1]);
      ApplyStep(d, all, i);
      forall b: nat | b < |d|
        ensures Durable(d, start, t[..i], b) == if t[i - 1] == b then d[start + i] else Durable(d, start, t[..i - 1], b)
      {
        DurableStep(d, start, t, i, b);
      }
    }
  }

  lemma ApplyStep(d: DiskState, ws: seq<Write>, i: nat)
    requires 0 < i <= |ws| && Fits(|d|, ws[..i - 1]) && ws[i - 1].bno < |d|
    ensures Fits(|d|, ws[..i]) && Apply(d, ws[..i]) == Apply(d, ws[..i - 1])[ws[i - 1].bno := ws[i - 1].data]
  {
    assert ws[..i][..i - 1] == ws[..i - 1];
  }

  lemma DurableStep(d: DiskState, start: nat, t: seq<nat>, i: nat, b: nat)
    requires start + LOGBLOCKS < |d| && 0 < i <= |t| <= LOGBLOCKS && b < |d|
    ensures Durable(d, start, t[..i], b) == if t[i - 1] == b then d[start + i] else Durable(d, start, t[..i - 1], b)
  {
    assert t[..i][..i - 1] == t[..i - 1];
  }

  /** Recovery writes each home block's durable contents and empties the log. */
  lemma RecoveredIsDurable(d: DiskState, start: nat)
    requires WellFormed(d, start)
    ensures var r := Recovered(d, start);
      && |r| == |d|
      && Word(r[start], 0) == 0
      && forall b: nat | b < |d| && !InLog(start, b) :: r[b] == Durable(d, start, Targets(d[start]), b)
  {
    var t := Targets(d[start]);
    var iw := InstallWrites(d, start, t);
    AfterInstalls(d, start, t, |t|);
    assert t[..|t|] == t && iw[..|t|] == iw;
    assert RecoveryWrites(d, start)[..|t|] == iw;
    HeaderRoundTrip(d[start], []);
  }

  /** Two disks on which recovery gives the same home blocks. */
  ghost predicate SameDurable(d: DiskState, e: DiskState, start: nat)
    requires WellFormed(d, start) && WellFormed(e, start)
  {
    && |d| == |e|
    && forall b: nat | b < |d| && !InLog(start, b) ::
      Durable(d, start, Targets(d[start]), b) == Durable(e, start, Targets(e[start]), b)
  }

  /** Recovery interrupted after any number of its block writes loses nothing. */
  lemma RecoveryPrefix(d: DiskState, start: nat, k: nat)
    requires WellFormed(d, start) && k <= |RecoveryWrites(d, start)|
    ensures Fits(|d|, RecoveryWrites(d, start)[..k])
    ensures var s := Apply(d, RecoveryWrites(d, start)[..k]);
      WellFormed(s, start) && SameDurable(d, s, start)
  {
    var t := Targets(d[start]);
    var s := Apply(d, RecoveryWrites(d, start)[..k]);
    if k <= |t| {
      AfterInstalls(d, start, t, k);
      assert RecoveryWrites(d, start)[..k] == InstallWrites(d, start, t)[..k];
      forall b: nat | b < |d| && !InLog(start, b)
        ensures Durable(d, start, t, b) == Durable(s, start, t, b)
      {
        if b !in t {
          DurableUnlisted(d, start, t[..k], b);
        }
        DurableCongruence(d, s, start, t, b);
      }
    } else {
      assert RecoveryWrites(d, start)[..k] == RecoveryWrites(d, start);
      RecoveredIsDurable(d, start);
      assert Targets(s[start]) == [];
    }
  }

  // ----- commit -----

  ghost function LogCopies(view: DiskState, start: nat, t: seq<nat>): (ws: seq<Write>)
    requires start + LOGBLOCKS < |view| && ValidTargets(|view|, start, t)
  {
    seq(|t|, i requires 0 <= i < |t| => Write(start + 1 + i, view[t[i]]))
  }

  ghost function HomeCopies(view: DiskState, start: nat, t: seq<nat>): (ws: seq<Write>)
    requires start + LOGBLOCKS < |view| && ValidTargets(|view|, start, t)
  {
    seq(|t|, i requires 0 <= i < |t| => Write(t[i], view[t[i]]))
  }

  /** The block writes of a commit that stores h1 as the header and h2 to erase it. */
  ghost function CommitSteps(view: DiskState, start: nat, t: seq<nat>, h1: Block, h2: Block): (ws: seq<Write>)
    requires start + LOGBLOCKS < |view| && ValidTargets(|view|, start, t)
    ensures Fits(|view|, ws)
  {
    LogCopies(view, start, t) + [Write(start, h1)] + HomeCopies(view, start, t) + [Write(start, h2)]
  }

  /** The block writes of commit (lines 196-206 of log.c) for the in-memory
      header t, when the cache holds `view` and the header block holds h. */
  ghost function CommitWrites(view: DiskState, start: nat, t: seq<nat>, h: Block): (ws: seq<Write>)
    requires start + LOGBLOCKS < |view| <= 0x1_0000_0000 && ValidTargets(|view|, start, t)
    ensures Fits(|view|, ws)
  {
    if t == [] then []
    else CommitSteps(view, start, t, EncodeHeader(h, t), EncodeHeader(EncodeHeader(h, t), []))
  }

  /** The log area holds the view of every listed block. */
  ghost predicate HoldsCopies(s: DiskState, view: DiskState, start: nat, t: seq<nat>)
    requires start + LOGBLOCKS < |s| == |view| && ValidTargets(|s|, start, t)
  {
    forall j | 0 <= j < |t| :: s[start + 1 + j] == view[t[j]]
  }

  lemma {:induction false} AfterLogCopies(d: DiskState, view: DiskState, start: nat, t: seq<nat>, i: nat)
    requires start + LOGBLOCKS < |view| == |d| && ValidTargets(|d|, start, t) && i <= |t|
    ensures Fits(|d|, LogCopies(view, start, t)[..i])
    ensures var s := Apply(d, LogCopies(view, start, t)[..i]);
      && (forall j | 0 <= j < i :: s[start + 1 + j] == view[t[j]])
      && forall b: nat | b < |d| && !(start < b <= start + i) :: s[b] == d[b]
  {
    var ws := LogCopies(view, start, t)[..i];
    if i > 0 {
      AfterLogCopies(d, view, start, t, i - 1);
      assert ws[..i - 1] == LogCopies(view, start, t)[..i - 1];
    }
  }

  lemma {:induction false} AfterHomeCopies(d: DiskState, view: DiskState, start: nat, t: seq<nat>, i: nat)
    requires start + LOGBLOCKS < |view| == |d| && ValidTargets(|d|, start, t) && i <= |t|
    ensures Fits(|d|, HomeCopies(view, start, t)[..i])
    ensures var s := Apply(d, HomeCopies(view, start, t)[..i]);
      forall b: nat | b < |d| :: s[b] == if b in t[..i] then view[b] else d[b]
  {
    if i > 0 {
      AfterHomeCopies(d, view, start, t, i - 1);
      assert HomeCopies(view, start, t)[..i][..i - 1] == HomeCopies(view, start, t)[..i - 1];
      assert t[..i] == t[..i - 1] + [t[i - 1]];
    }
  }

  lemma {:induction false} ApplyConcat(d: DiskState, a: seq<Write>, b: seq<Write>)
    requires Fits(|d|, a) && Fits(|d|, b)
    ensures Fits(|d|, a + b) && Apply(d, a + b) == Apply(Apply(d, a), b)
  {
    if b == [] {
      assert a + b == a;
    } else {
      assert (a + b)[..|a + b| - 1] == a + b[..|b| - 1];
      ApplyConcat(d, a, b[..|b| - 1]);
    }
  }

  /** The state before a transaction: an empty on-disk log, and a view that
      differs from the disk in logged blocks only. */
  ghost predicate Ready(d: DiskState, view: DiskState, start: nat, t: seq<nat>) {
    && start + LOGBLOCKS < |d| == |view| <= 0x1_0000_0000
    && Word(d[start], 0) == 0
    && ValidTargets(|d|, start, t)
    && forall b: nat | b < |d| && !InLog(start, b) && b !in t :: d[b] == view[b]
  }

  /** The contents recovery must give home block b after k commit writes: the
      old ones until the non-empty header is on disk, the new ones from then on. */
  ghost function Outcome(d: DiskState, view: DiskState, t: seq<nat>, k: nat, b: nat): Block
    requires b < |d| == |view|
  {
    if k <= |t| then d[b] else view[b]
  }

  /** Before the header write only the log area has changed, not the header. */
  lemma StepsEarly(d: DiskState, view: DiskState, start: nat, t: seq<nat>, h1: Block, h2: Block, k: nat)
    requires start + LOGBLOCKS < |d| == |view| && ValidTargets(|d|, start, t) && k <= |t|
    ensures var s := Apply(d, CommitSteps(view, start, t, h1, h2)[..k]);
      forall b: nat | b < |d| && !(start < b <= start + k) :: s[b] == d[b]
  {
    AfterLogCopies(d, view, start, t, k);
    assert CommitSteps(view, start, t, h1, h2)[..k] == LogCopies(view, start, t)[..k];
  }

  /** The commit point: log copies and header are on disk. */
  lemma StepsPoint(d: DiskState, view: DiskState, start: nat, t: seq<nat>, h1: Block, h2: Block)
    requires start + LOGBLOCKS < |d| == |view| && ValidTargets(|d|, start, t)
    ensures var e := Apply(d, CommitSteps(view, start, t, h1, h2)[..|t| + 1]);
      && e[start] == h1
      && HoldsCopies(e, view, start, t)
      && forall b: nat | b < |d| && !InLog(start, b) :: e[b] == d[b]
  {
    var copies := LogCopies(view, start, t);
    var ws := CommitSteps(view, start, t, h1, h2)[..|t| + 1];
    assert ws == copies + [Write(start, h1)];
    assert ws[..|ws| - 1] == copies && copies[..|t|] == copies;
    AfterLogCopies(d, view, start, t, |t|);
  }

  /** After the header and i installs. */
  lemma StepsMiddle(d: DiskState, view: DiskState, start: nat, t: seq<nat>, h1: Block, h2: Block, i: nat)
    requires start + LOGBLOCKS < |d| == |view| && ValidTargets(|d|, start, t) && i <= |t|
    ensures var s := Apply(d, CommitSteps(view, start, t, h1, h2)[..|t| + 1 + i]);
      && s[start] == h1
      && HoldsCopies(s, view, start, t)
      && forall b: nat | b < |d| && !InLog(start, b) :: s[b] == if b in t[..i] then view[b] else d[b]
  {
    hide Apply;
    var ws := CommitSteps(view, start, t, h1, h2);
    var homes := HomeCopies(view, start, t)[..i];
    HomesNext(view, start, t, h1, h2, i);
    hide CommitSteps;
    StepsPoint(d, view, start, t, h1, h2);
    AfterHomeCopies(Apply(d, ws[..|t| + 1]), view, start, t, i);
    ApplyConcat(d, ws[..|t| + 1], homes);
    NoLogTarget(|d|, start, t, i);
  }

  lemma HomesNext(view: DiskState, start: nat, t: seq<nat>, h1: Block, h2: Block, i: nat)
    requires start + LOGBLOCKS < |view| && ValidTargets(|view|, start, t) && i <= |t|
    ensures var ws := CommitSteps(view, start, t, h1, h2);
      ws[..|t| + 1 + i] == ws[..|t| + 1] + HomeCopies(view, start, t)[..i]
  {
  }

  lemma NoLogTarget(size: nat, start: nat, t: seq<nat>, i: nat)
    requires ValidTargets(size, start, t) && i <= |t|
    ensures forall a | start <= a <= start + LOGBLOCKS :: a !in t[..i]
  {
    forall a | start <= a <= start + LOGBLOCKS
      ensures a !in t[..i]
    {
      assert InLog(start, a);
    }
  }

  /** After the header is erased. */
  lemma StepsDone(d: DiskState, view: DiskState, start: nat, t: seq<nat>, h1: Block, h2: Block)
    requires start + LOGBLOCKS < |d| == |view| && ValidTargets(|d|, start, t)
    ensures var s := Apply(d, CommitSteps(view, start, t, h1, h2));
      && s[start] == h2
      && forall b: nat | b < |d| && !InLog(start, b) :: s[b] == if b in t then view[b] else d[b]
  {
    var ws := CommitSteps(view, start, t, h1, h2);
    StepsMiddle(d, view, start, t, h1, h2, |t|);
    assert ws[..|ws| - 1] == ws[..|t| + 1 + |t|] && t[..|t|] == t;
  }

  lemma MiddleIsDurable(d: DiskState, view: DiskState, s: DiskState, start: nat, t: seq<nat>, i: nat)
    requires Ready(d, view, start, t) && |s| == |d| && i <= |t|
    requires s[start] == EncodeHeader(d[start], t) && HoldsCopies(s, view, start, t)
    requires forall b: nat | b < |d| && !InLog(start, b) :: s[b] == if b in t[..i] then view[b] else d[b]
    ensures WellFormed(s, start) && Targets(s[start]) == t
    ensures forall b: nat | b < |d| && !InLog(start, b) :: Durable(s, start, t, b) == view[b]
  {
    HeaderRoundTrip(d[start], t);
    forall b: nat | b < |d| && !InLog(start, b)
      ensures Durable(s, start, t, b) == view[b]
    {
      DurableIsView(s, view, start, t, b);
    }
  }

  /** What recovery would restore after the first k block writes of commit. */
  lemma CommitPrefix(d: DiskState, view: DiskState, start: nat, t: seq<nat>, k: nat)
    requires Ready(d, view, start, t) && k <= |CommitWrites(view, start, t, d[start])|
    ensures var s := Apply(d, CommitWrites(view, start, t, d[start])[..k]);
      && |s| == |d| && WellFormed(s, start)
      && forall b: nat | b < |d| && !InLog(start, b) ::
        Durable(s, start, Targets(s[start]), b) == Outcome(d, view, t, k, b)
  {
    var ws := CommitWrites(view, start, t, d[start]);
    var s := Apply(d, ws[..k]);
    if t == [] {
      assert ws[..k] == [] && Targets(d[start]) == [];
    } else {
      var h1 := EncodeHeader(d[start], t);
      var h2 := EncodeHeader(h1, []);
      if k <= |t| {
        StepsEarly(d, view, start, t, h1, h2, k);
        assert Targets(s[start]) == [];
      } else if k <= 2 * |t| + 1 {
        StepsMiddle(d, view, start, t, h1, h2, k - |t| - 1);
        MiddleIsDurable(d, view, s, start, t, k - |t| - 1);
      } else {
        assert ws[..k] == ws;
        StepsDone(d, view, start, t, h1, h2);
        HeaderRoundTrip(h1, []);
      }
    }
  }

  lemma {:induction false} DurableIsView(s: DiskState, view: DiskState, start: nat, t: seq<nat>, b: nat)
    requires start + LOGBLOCKS < |s| == |view| && ValidTargets(|s|, start, t) && b < |s|
    requires HoldsCopies(s, view, start, t)
    requires b !in t ==> s[b] == view[b]
    ensures Durable(s, start, t, b) == view[b]
  {
    if t != [] {
      assert t == t[..|t| - 1] + [t[|t| - 1]];
      if t[|t| - 1] != b {
        DurableIsView(s, view, start, t[..|t| - 1], b);
      }
    }
  }

  // ----- crashes -----

  /** The disk after a series of reboots, each of which crashes after
      crashes[j] block writes of its recovery (or completes it). */
  ghost function Crashed(d: DiskState, start: nat, crashes: seq<nat>): (r: DiskState)
    requires WellFormed(d, start)
    ensures WellFormed(r, start) && SameDurable(d, r, start)
    decreases |crashes|
  {
    if crashes == [] then d
    else
      var ws := RecoveryWrites(d, start);
      var k := if crashes[0] <= |ws| then crashes[0] else |ws|;
      RecoveryPrefix(d, start, k);
      Crashed(Apply(d, ws[..k]), start, crashes[1..])
  }

  /** Crash atomicity. Stop commit after any number k of its block writes, crash
      recovery any number of times anywhere, then let it finish: every home
      block holds its old contents or every one its new contents, the latter
      exactly when the non-empty header write was among the k; and the log is
      empty again. */
  lemma CrashAtomicity(d: DiskState, view: DiskState, start: nat, t: seq<nat>, k: nat, crashes: seq<nat>)
    requires Ready(d, view, start, t) && k <= |CommitWrites(view, start, t, d[start])|
    ensures var s := Apply(d, CommitWrites(view, start, t, d[start])[..k]);
      && WellFormed(s, start)
      && var r := Recovered(Crashed(s, start, crashes), start);
      && |r| == |d| && Word(r[start], 0) == 0
      && forall b: nat | b < |d| && !InLog(start, b) :: r[b] == Outcome(d, view, t, k, b)
  {
    CommitPrefix(d, view, start, t, k);
    var s := Apply(d, CommitWrites(view, start, t, d[start])[..k]);
    RecoveredIsDurable(Crashed(s, start, crashes), start);
  }
}
