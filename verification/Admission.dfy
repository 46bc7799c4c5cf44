/** Group-commit admission as an interleaving of the lock sections of begin_op,
    log_write, end_op and the end of a commit, for any number of processes. */
module Admission {
  import opened LogSpec

  /** lh is the in-memory header; used[o] is how many entries active operation o
      has added to it. */
  datatype State = State(outstanding: nat, committing: bool, lh: seq<nat>, used: map<nat, nat>)

  const INITIAL := State(0, false, [], map[])

  // ----- unused budget of the active operations -----

  ghost function Unused(used: map<nat, nat>): int {
    if used == map[] then 0
    else
      var o :| o in used;
      MAXOPBLOCKS - used[o] + Unused(used - {o})
  }

  lemma {:induction false} UnusedWithout(used: map<nat, nat>, o: nat)
    requires o in used
    ensures Unused(used) == MAXOPBLOCKS - used[o] + Unused(used - {o})
    decreases |used|
  {
    var p :| p in used && Unused(used) == MAXOPBLOCKS - used[p] + Unused(used - {p});
    if p != o {
      UnusedWithout(used - {p}, o);
      UnusedWithout(used - {o}, p);
      assert used - {p} - {o} == used - {o} - {p};
    }
  }

  lemma UnusedPut(used: map<nat, nat>, o: nat, v: nat)
    ensures Unused(used[o := v]) == MAXOPBLOCKS - v + Unused(used - {o})
  {
    UnusedWithout(used[o := v], o);
    assert used[o := v] - {o} == used - {o};
  }

  lemma {:induction false} UnusedNonNegative(used: map<nat, nat>)
    requires forall o | o in used :: used[o] <= MAXOPBLOCKS
    ensures Unused(used) >= 0
    decreases |used|
  {
    if used != map[] {
      var o :| o in used && Unused(used) == MAXOPBLOCKS - used[o] + Unused(used - {o});
      UnusedNonNegative(used - {o});
    }
  }

  // ----- the lock sections -----

  /** begin_op goes ahead, instead of sleeping, in exactly these states. */
  predicate CanBegin(s: State) {
    !s.committing && |s.lh| + (s.outstanding + 1) * MAXOPBLOCKS <= LOGBLOCKS
  }

  function Begin(s: State, o: nat): State {
    s.(outstanding := s.outstanding + 1, used := s.used[o := 0])
  }

  /** log_write by operation o of block b. */
  function LogBlock(s: State, o: nat, b: nat): State
    requires o in s.used
  {
    if b in s.lh then s
    else s.(lh := s.lh + [b], used := s.used[o := s.used[o] + 1])
  }

  /** The first lock section of end_op; the last operation starts the commit. */
  function End(s: State, o: nat): State
    requires s.outstanding > 0
  {
    s.(outstanding := s.outstanding - 1, committing := s.outstanding == 1, used := s.used - {o})
  }

  /** commit() and the second lock section of end_op. */
  function Finish(s: State): State {
    s.(committing := false, lh := [])
  }

  /** One lock section of some process. A caller within budget has added fewer
      than MAXOPBLOCKS blocks when it calls log_write, absorbed or not. */
  ghost predicate Step(s: State, t: State) {
    || (CanBegin(s) && exists o :: o !in s.used && t == Begin(s, o))
    || (exists o, b :: o in s.used && s.used[o] < MAXOPBLOCKS && t == LogBlock(s, o, b))
    || (exists o :: o in s.used && s.outstanding > 0 && t == End(s, o))
    || (s.committing && t == Finish(s))
  }

  ghost predicate Inv(s: State) {
    && |s.used| == s.outstanding
    && (s.committing ==> s.outstanding == 0)
    && (s.outstanding == 0 && !s.committing ==> s.lh == [])
    && (forall o | o in s.used :: s.used[o] <= MAXOPBLOCKS)
    && |s.lh| + Unused(s.used) <= LOGBLOCKS
  }

  /** Entries plus unused budgets stay within the log. */
  lemma {:induction false} UnusedAtMost(used: map<nat, nat>)
    ensures Unused(used) <= MAXOPBLOCKS * |used|
    decreases |used|
  {
    if used != map[] {
      var o :| o in used && Unused(used) == MAXOPBLOCKS - used[o] + Unused(used - {o});
      UnusedAtMost(used - {o});
      assert |used - {o}| == |used| - 1 by {
        assert (used - {o}).Keys == used.Keys - {o};
      }
    }
  }

  lemma BeginKeeps(s: State, o: nat)
    requires Inv(s) && CanBegin(s) && o !in s.used
    ensures Inv(Begin(s, o))
  {
    UnusedAtMost(s.used);
    UnusedPut(s.used, o, 0);
    assert s.used - {o} == s.used;
    assert s.used[o := 0].Keys == s.used.Keys + {o};
  }

  lemma LogBlockKeeps(s: State, o: nat, b: nat)
    requires Inv(s) && o in s.used && s.used[o] < MAXOPBLOCKS
    ensures Inv(LogBlock(s, o, b))
  {
    UnusedPut(s.used, o, s.used[o] + 1);
    UnusedWithout(s.used, o);
    assert s.used[o := s.used[o] + 1].Keys == s.used.Keys;
    assert s.outstanding > 0 by {
      assert o in s.used.Keys && |s.used.Keys| == s.outstanding;
    }
  }

  lemma EndKeeps(s: State, o: nat)
    requires Inv(s) && o in s.used
    ensures s.outstanding > 0 && !s.committing && Inv(End(s, o))
  {
    assert (s.used - {o}).Keys == s.used.Keys - {o};
    assert o in s.used.Keys && |s.used.Keys| == s.outstanding;
    UnusedWithout(s.used, o);
  }

  lemma FinishKeeps(s: State)
    requires Inv(s) && s.committing
    ensures Inv(Finish(s))
  {
    assert s.used.Keys == {} && s.used == map[];
  }

  lemma StepKeepsInv(s: State, t: State)
    requires Inv(s) && Step(s, t)
    ensures Inv(t)
  {
    if CanBegin(s) && exists o :: o !in s.used && t == Begin(s, o) {
      var o :| o !in s.used && t == Begin(s, o);
      BeginKeeps(s, o);
    } else if exists o, b :: o in s.used && s.used[o] < MAXOPBLOCKS && t == LogBlock(s, o, b) {
      var o, b :| o in s.used && s.used[o] < MAXOPBLOCKS && t == LogBlock(s, o, b);
      LogBlockKeeps(s, o, b);
    } else if exists o :: o in s.used && s.outstanding > 0 && t == End(s, o) {
      var o :| o in s.used && s.outstanding > 0 && t == End(s, o);
      EndKeeps(s, o);
    } else {
      FinishKeeps(s);
    }
  }

  /** A commit finds the log full only if the operation that ended last has spent
      its whole budget. */
  lemma FullOnlyIfSpent(s: State, o: nat)
    requires Inv(s) && s.used.Keys == {o} && |s.lh| == LOGBLOCKS
    ensures s.used[o] == MAXOPBLOCKS
  {
    UnusedWithout(s.used, o);
    UnusedNonNegative(s.used - {o});
  }

  ghost predicate IsRun(run: seq<State>) {
    && run != [] && run[0] == INITIAL
    && forall i | 0 <= i < |run| - 1 :: Step(run[i], run[i + 1])
  }

  lemma {:induction false} RunKeepsInv(run: seq<State>, i: nat)
    requires IsRun(run) && i < |run|
    ensures Inv(run[i])
  {
    if i > 0 {
      RunKeepsInv(run, i - 1);
      assert Step(run[i - 1], run[i - 1 + 1]);
      StepKeepsInv(run[i - 1], run[i]);
    }
  }

  /** In every state of every run: entries plus unused budgets fit the log; an
      operation within budget meets neither panic of log_write, and one that
      ends does not meet that of end_op; no operation is active during a
      commit; and with no operation and no commit the log is empty and
      begin_op goes ahead. */
  lemma AdmissionIsSafe(run: seq<State>, i: nat)
    requires IsRun(run) && i < |run|
    ensures var s := run[i];
      && |s.lh| + Unused(s.used) <= LOGBLOCKS
      && (forall o | o in s.used && s.used[o] < MAXOPBLOCKS :: |s.lh| < LOGBLOCKS && s.outstanding >= 1)
      && (forall o | o in s.used :: s.outstanding >= 1 && !s.committing)
      && (s.committing ==> s.used == map[])
      && (s.outstanding == 0 && !s.committing ==> s.lh == [] && CanBegin(s))
  {
    var s := run[i];
    RunKeepsInv(run, i);
    forall o | o in s.used
      ensures s.outstanding >= 1 && !s.committing
      ensures s.used[o] < MAXOPBLOCKS ==> |s.lh| < LOGBLOCKS
    {
      EndKeeps(s, o);
      UnusedWithout(s.used, o);
      UnusedNonNegative(s.used - {o});
    }
    if s.committing {
      assert s.used.Keys == {};
    }
  }

  // ----- the guard of begin_op -----

  /** Calls of log_write, each by an active operation within its budget. */
  ghost predicate Within(s: State, ws: seq<(nat, nat)>)
    decreases |ws|
  {
    ws == [] || (ws[0].0 in s.used && s.used[ws[0].0] < MAXOPBLOCKS && Within(LogBlock(s, ws[0].0, ws[0].1), ws[1..]))
  }

  ghost function Logged(s: State, ws: seq<(nat, nat)>): State
    requires Within(s, ws)
    decreases |ws|
  {
    if ws == [] then s else Logged(LogBlock(s, ws[0].0, ws[0].1), ws[1..])
  }

  ghost predicate Budgeted(s: State) {
    forall o | o in s.used :: s.used[o] <= MAXOPBLOCKS
  }

  /** The entries and unused budgets that log_write may turn into entries. */
  ghost function Demand(s: State): int {
    |s.lh| + Unused(s.used)
  }

  lemma LogBlockDemand(s: State, o: nat, b: nat)
    requires Budgeted(s) && o in s.used && s.used[o] < MAXOPBLOCKS
    ensures Budgeted(LogBlock(s, o, b)) && Demand(LogBlock(s, o, b)) == Demand(s)
    ensures b !in s.lh ==> |LogBlock(s, o, b).lh| == |s.lh| + 1
  {
    UnusedWithout(s.used, o);
    UnusedPut(s.used, o, s.used[o] + 1);
  }

  lemma {:induction false} WithinDemand(s: State, ws: seq<(nat, nat)>)
    requires Budgeted(s) && Within(s, ws)
    ensures |Logged(s, ws).lh| <= Demand(s)
    decreases |ws|
  {
    if ws == [] {
      UnusedNonNegative(s.used);
    } else {
      LogBlockDemand(s, ws[0].0, ws[0].1);
      WithinDemand(LogBlock(s, ws[0].0, ws[0].1), ws[1..]);
    }
  }

  lemma {:induction false} NoBudgetLeft(used: map<nat, nat>)
    requires forall o | o in used :: used[o] == MAXOPBLOCKS
    ensures Unused(used) == 0
    decreases |used|
  {
    if used != map[] {
      var o :| o in used && Unused(used) == MAXOPBLOCKS - used[o] + Unused(used - {o});
      NoBudgetLeft(used - {o});
    }
  }

  lemma {:induction false} FreshBlock(lh: seq<nat>) returns (b: nat)
    ensures b !in lh && forall i | 0 <= i < |lh| :: lh[i] < b
  {
    b := 0;
    if lh != [] {
      var c := FreshBlock(lh[..|lh| - 1]);
      b := c + lh[|lh| - 1] + 1;
      assert forall i | 0 <= i < |lh| - 1 :: lh[i] == lh[..|lh| - 1][i];
    }
  }

  /** Everything demanded can be logged. */
  lemma {:induction false} DemandIsMet(s: State) returns (ws: seq<(nat, nat)>)
    requires Budgeted(s)
    ensures Within(s, ws) && |Logged(s, ws).lh| == Demand(s)
    decreases Unused(s.used)
  {
    ws := [];
    UnusedNonNegative(s.used);
    if o :| o in s.used && s.used[o] < MAXOPBLOCKS {
      var b := FreshBlock(s.lh);
      LogBlockDemand(s, o, b);
      var more := DemandIsMet(LogBlock(s, o, b));
      ws := [(o, b)] + more;
      assert ws[1..] == more;
    } else {
      NoBudgetLeft(s.used);
    }
  }

  /** Whether the operations that are active once o is admitted can overfill the
      log, each within its budget. */
  ghost predicate Overfills(s: State, o: nat) {
    exists ws: seq<(nat, nat)> :: Within(Begin(s, o), ws) && |Logged(Begin(s, o), ws).lh| > LOGBLOCKS
  }

  /** They can exactly if entries, unused budgets and the new budget exceed it. */
  lemma OverfillsIff(s: State, o: nat)
    requires Budgeted(s) && o !in s.used
    ensures Overfills(s, o) <==> Demand(s) + MAXOPBLOCKS > LOGBLOCKS
  {
    var t := Begin(s, o);
    UnusedPut(s.used, o, 0);
    assert s.used - {o} == s.used;
    if ws: seq<(nat, nat)> :| Within(t, ws) && |Logged(t, ws).lh| > LOGBLOCKS {
      WithinDemand(t, ws);
    }
    var ws := DemandIsMet(t);
  }

  lemma OneMoreKey(m: map<nat, nat>, k: nat, v: nat)
    requires k !in m
    ensures m - {k} == m && |m[k := v]| == |m| + 1
  {
    assert m - {k} == m;
    assert m[k := v].Keys == m.Keys + {k};
  }

  /** n active operations with unused budgets of d in all. */
  lemma {:induction false} Spread(n: nat, d: nat) returns (used: map<nat, nat>)
    requires d <= MAXOPBLOCKS * n
    ensures |used| == n && Unused(used) == d && Below(used, n)
    decreases n
  {
    if n == 0 {
      used := map[];
    } else {
      hide Unused, Below;
      var own := if d < MAXOPBLOCKS then d else MAXOPBLOCKS;
      var rest := Spread(n - 1, d - own);
      used := rest[n - 1 := MAXOPBLOCKS - own];
      SpreadMore(rest, n - 1, own);
    }
  }

  /** Operations below n, each within its budget. */
  ghost predicate Below(used: map<nat, nat>, n: nat) {
    forall o | o in used :: o < n && used[o] <= MAXOPBLOCKS
  }

  lemma SpreadMore(rest: map<nat, nat>, n: nat, own: nat)
    requires Below(rest, n) && own <= MAXOPBLOCKS
    ensures var used := rest[n := MAXOPBLOCKS - own];
      Below(used, n + 1) && |used| == |rest| + 1 && Unused(used) == own + Unused(rest)
  {
    hide Unused;
    UnusedPut(rest, n, MAXOPBLOCKS - own);
    OneMoreKey(rest, n, MAXOPBLOCKS - own);
  }

  /** The guard of begin_op, which sees the number of entries and of active
      operations only, is the weakest safe one: where it holds no admission can
      overfill the log, and where it fails some state with the same two numbers
      keeps the invariant, and there the admission can. */
  lemma GuardIsWeakest(s: State, o: nat) returns (t: State)
    requires Inv(s) && !s.committing && o !in s.used
    ensures CanBegin(s) ==> !Overfills(s, o)
    ensures !CanBegin(s) ==>
      && Inv(t) && |t.lh| == |s.lh| && t.outstanding == s.outstanding && !t.committing
      && t.outstanding !in t.used && Overfills(t, t.outstanding)
  {
    t := s;
    UnusedAtMost(s.used);
    UnusedNonNegative(s.used);
    OverfillsIff(s, o);
    if !CanBegin(s) {
      var d := if MAXOPBLOCKS * s.outstanding < LOGBLOCKS - |s.lh| then MAXOPBLOCKS * s.outstanding else LOGBLOCKS - |s.lh|;
      var used := Spread(s.outstanding, d);
      t := State(s.outstanding, false, s.lh, used);
      OverfillsIff(t, s.outstanding);
    }
  }
}
