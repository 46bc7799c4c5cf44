/** The scheduler of one hart: first come, first served, without preemption. */
module Fcfs {
  import opened ProcState

  const NOBODY := -1

  // ----- one scan of the table -----

  /** i comes before j: it arrived in an earlier tick, or in the same tick in a lower slot. */
  predicate Before(arrival: seq<nat>, i: nat, j: nat)
    requires i < |arrival| && j < |arrival|
  {
    arrival[i] < arrival[j] || (arrival[i] == arrival[j] && i < j)
  }

  /** The runnable process that comes first among the first n slots, if any. */
  ghost predicate IsFirst(state: seq<RunState>, arrival: seq<nat>, n: int, sel: int) {
    && n <= |state| == |arrival|
    && if sel == NOBODY then forall i | 0 <= i < n :: !state[i].Runnable?
       else && 0 <= sel < n && state[sel].Runnable?
            && forall i | 0 <= i < n && i != sel && state[i].Runnable? :: Before(arrival, sel, i)
  }

  class Hart {
    const state: array<RunState>
    const arrival: array<nat> // arrival_time, the tick in allocproc
    const locked: array<bool> // p->lock
    var current: int // c->proc

    ghost predicate Valid()
      reads this
    {
      && state.Length == arrival.Length == locked.Length
    }

    /** Outside the scheduler's own critical sections. */
    ghost predicate NoLocks()
      requires Valid()
      reads this, locked
    {
      forall i | 0 <= i < locked.Length :: !locked[i]
    }

    constructor (st: array<RunState>, ar: array<nat>, lk: array<bool>)
      requires st.Length == ar.Length == lk.Length
      ensures Valid() && state == st && arrival == ar && locked == lk && current == NOBODY
    {
      state, arrival, locked, current := st, ar, lk, NOBODY;
    }

    /** The scan: the runnable process that comes first, with its lock held and
        no other. */
    method Pick() returns (sel: int)
      requires Valid() && NoLocks()
      modifies locked
      ensures IsFirst(state[..], arrival[..], state.Length, sel)
      ensures forall i | 0 <= i < locked.Length :: locked[i] <==> i == sel
    {
      sel := NOBODY;
      var p := 0;
      while p < state.Length
        invariant 0 <= p <= state.Length
        invariant IsFirst(state[..], arrival[..], p, sel)
        invariant forall i | 0 <= i < locked.Length :: locked[i] <==> i == sel
      {
        assert !locked[p]; // acquire does not spin
        locked[p] := true;
        if state[p].Runnable? && (sel == NOBODY || arrival[p] < arrival[sel]) {
          if sel != NOBODY {
            locked[sel] := false;
          }
          sel := p;
        } else {
          locked[p] := false;
        }
        p := p + 1;
      }
    }

    /** One round up to swtch: the first runnable process runs, if there is one. */
    method Dispatch() returns (sel: int)
      requires Valid() && NoLocks() && current == NOBODY
      modifies this, state, locked
      ensures Valid() && current == sel && IsFirst(old(state[..]), arrival[..], state.Length, sel)
      ensures state[..] == if sel == NOBODY then old(state[..]) else old(state[..])[sel := Running]
      ensures forall i | 0 <= i < locked.Length :: locked[i] <==> i == sel
    {
      sel := Pick();
      if sel != NOBODY {
        state[sel] := Running;
      }
      current := sel;
    }

    /** Back from swtch, the process's lock still held. */
    method Resume()
      requires Valid() && 0 <= current < locked.Length && forall i | 0 <= i < locked.Length :: locked[i] <==> i == current
      modifies this`current, locked
      ensures Valid() && NoLocks() && current == NOBODY
    {
      var sel := current;
      current := NOBODY;
      locked[sel] := false;
    }
  }

  // ----- runs of one hart -----

  datatype State = State(state: seq<RunState>, arrival: seq<nat>, ticks: nat, current: int)

  /** What happens on the hart: the scheduler's choice, and what the running
      process and interrupts do to the table. No event preempts. */
  datatype Event =
    | Choose(p: nat)
    | Claim(slot: nat) // allocproc
    | Unclaim(slot: nat) // freeproc after a failed fork
    | Start(slot: nat) // fork is done
    | Wake(slot: nat) // wakeup, kkill
    | Collect(slot: nat) // freeproc of a zombie
    | Sleep // the running process sleeps
    | Exit // ... exits
    | Tick // timer interrupt: clockintr; the yields are gone

  predicate Enabled(s: State, e: Event) {
    && |s.state| == |s.arrival|
    && match e
       case Choose(p) =>
         s.current == NOBODY && p < |s.state| && s.state[p].Runnable?
         && forall i | 0 <= i < |s.state| && i != p && s.state[i].Runnable? :: Before(s.arrival, p, i)
       case Claim(slot) => s.current != NOBODY && slot < |s.state| && s.state[slot].Unused?
       case Unclaim(slot) => s.current != NOBODY && slot < |s.state| && s.state[slot].Used?
       case Start(slot) => s.current != NOBODY && slot < |s.state| && s.state[slot].Used?
       case Wake(slot) => slot < |s.state| && s.state[slot].Sleeping?
       case Collect(slot) => s.current != NOBODY && slot < |s.state| && s.state[slot].Zombie?
       case Sleep => 0 <= s.current < |s.state|
       case Exit => 0 <= s.current < |s.state|
       case Tick => true
  }

  function After(s: State, e: Event): State
    requires Enabled(s, e)
  {
    match e
    case Choose(p) => s.(state := s.state[p := Running], current := p)
    case Claim(slot) => s.(state := s.state[slot := Used], arrival := s.arrival[slot := s.ticks])
    case Unclaim(slot) => s.(state := s.state[slot := Unused])
    case Start(slot) => s.(state := s.state[slot := Runnable])
    case Wake(slot) => s.(state := s.state[slot := Runnable])
    case Collect(slot) => s.(state := s.state[slot := Unused])
    case Sleep => s.(state := s.state[s.current := Sleeping], current := NOBODY)
    case Exit => s.(state := s.state[s.current := Zombie], current := NOBODY)
    case Tick => s.(ticks := s.ticks + 1)
  }

  /** The scheduler's round is the choice event. */
  lemma DispatchIsChoice(s: State, sel: int)
    requires |s.state| == |s.arrival| && s.current == NOBODY
    ensures IsFirst(s.state, s.arrival, |s.state|, sel) && sel != NOBODY ==> Enabled(s, Choose(sel))
    ensures IsFirst(s.state, s.arrival, |s.state|, sel) && sel == NOBODY ==> forall p :: !Enabled(s, Choose(p))
  {
  }

  ghost predicate Inv(s: State) {
    && |s.state| == |s.arrival|
    && (s.current == NOBODY || 0 <= s.current < |s.state|)
    && (forall i | 0 <= i < |s.state| :: s.state[i].Running? <==> i == s.current)
    && forall i | 0 <= i < |s.state| :: s.state[i].Unused? || s.arrival[i] <= s.ticks
  }

  predicate IsRun(s: State, es: seq<Event>)
    decreases |es|
  {
    es == [] || (Enabled(s, es[0]) && IsRun(After(s, es[0]), es[1..]))
  }

  function Final(s: State, es: seq<Event>): State
    requires IsRun(s, es)
    decreases |es|
  {
    if es == [] then s else Final(After(s, es[0]), es[1..])
  }

  /** A dispatched process keeps the hart: whatever happens, it is the one
      running until it sleeps or exits itself. */
  lemma {:induction false} NoPreemption(s: State, es: seq<Event>)
    requires Inv(s) && IsRun(s, es) && s.current != NOBODY
    requires Sleep !in es && Exit !in es
    ensures var t := Final(s, es); 0 <= t.current < |t.state| && t.current == s.current && t.state[t.current].Running?
    ensures forall p :: Choose(p) !in es
    decreases |es|
  {
    if es != [] {
      StepKeepsInv(s, es[0]);
      NoPreemption(After(s, es[0]), es[1..]);
      assert es == [es[0]] + es[1..];
    } else {
      assert s.state[s.current].Running?;
    }
  }

  lemma StepKeepsInv(s: State, e: Event)
    requires Inv(s) && Enabled(s, e)
    ensures Inv(After(s, e)) && |After(s, e).state| == |s.state| && After(s, e).ticks >= s.ticks
  {
  }

  /** Arrival tick and slot of whoever is chosen, event by event. */
  function Chosen(s: State, es: seq<Event>): seq<(nat, nat)>
    requires IsRun(s, es)
    decreases |es|
  {
    if es == [] then []
    else (if es[0].Choose? then [(s.arrival[es[0].p], es[0].p)] else []) + Chosen(After(s, es[0]), es[1..])
  }

  /** First come, first served: as long as q waits, runnable and not chosen,
      everyone chosen comes before q, by arrival tick and then by slot. So a
      process that arrives in a later tick never overtakes. */
  lemma {:induction false} NoOvertaking(s: State, es: seq<Event>, q: nat)
    requires Inv(s) && IsRun(s, es) && q < |s.state| && s.state[q].Runnable? && Choose(q) !in es
    ensures var t := Final(s, es); q < |t.state| == |t.arrival| && t.state[q].Runnable? && t.arrival[q] == s.arrival[q]
    ensures forall c | c in Chosen(s, es) :: c.0 < s.arrival[q] || (c.0 == s.arrival[q] && c.1 < q)
    decreases |es|
  {
    if es != [] {
      StepKeepsInv(s, es[0]);
      assert es == [es[0]] + es[1..];
      assert es[0] in es;
      NoOvertaking(After(s, es[0]), es[1..], q);
    }
  }

  /** A process is runnable only by the end of its fork or a wakeup of it, runs
      only when chosen, and leaves the hart asleep or as a zombie; a zombie's
      slot changes only by being collected, and a free one by being claimed. */
  lemma StateChangesForAReason(s: State, e: Event, p: nat)
    requires Inv(s) && Enabled(s, e) && p < |s.state|
    ensures p < |After(s, e).state|
    ensures var x, y := s.state[p], After(s, e).state[p];
      x != y ==>
        match y
        case Runnable => (e == Start(p) && x.Used?) || (e == Wake(p) && x.Sleeping?)
        case Running => e == Choose(p) && x.Runnable?
        case Sleeping => e == Sleep && s.current == p
        case Zombie => e == Exit && s.current == p
        case Used => e == Claim(p) && x.Unused?
        case Unused => (e == Collect(p) && x.Zombie?) || (e == Unclaim(p) && x.Used?)
    ensures e == Start(p) || e == Wake(p) ==> After(s, e).state[p].Runnable?
    ensures (e.Sleep? || e.Exit?) && s.current == p ==> !After(s, e).state[p].Running? && After(s, e).current == NOBODY
    ensures e == Choose(p) ==> After(s, e).current == p && After(s, e).state[p].Running?
  {
  }

  // ----- over the clock of the run -----

  /** The timer interrupts among the events. */
  function Ticks(es: seq<Event>): nat {
    if es == [] then 0 else (if es[0].Tick? then 1 else 0) + Ticks(es[1..])
  }

  /** es[a] is the last allocproc of slot q. */
  predicate LastClaim(es: seq<Event>, a: nat, q: nat) {
    a < |es| && es[a] == Claim(q) && forall k | a < k < |es| :: es[k] != Claim(q)
  }

  lemma {:induction false} NeverClaimed(s: State, es: seq<Event>, q: nat)
    requires IsRun(s, es) && q < |s.state| && |s.state| == |s.arrival| && Claim(q) !in es
    ensures var t := Final(s, es); q < |t.arrival| && t.arrival[q] == s.arrival[q]
    decreases |es|
  {
    if es != [] {
      assert es == [es[0]] + es[1..];
      assert es[0] in es;
      NeverClaimed(After(s, es[0]), es[1..], q);
    }
  }

  /** A process's arrival time is the tick of its allocproc. */
  lemma {:induction false} ArrivalIsClaim(s: State, es: seq<Event>, a: nat, q: nat)
    requires IsRun(s, es) && LastClaim(es, a, q)
    ensures var t := Final(s, es); q < |t.arrival| && t.arrival[q] == s.ticks + Ticks(es[..a])
    decreases |es|
  {
    assert es == [es[0]] + es[1..];
    if a == 0 {
      forall k | 0 <= k < |es[1..]|
        ensures es[1..][k] != Claim(q)
      {
        assert es[1..][k] == es[k + 1];
      }
      NeverClaimed(After(s, es[0]), es[1..], q);
    } else {
      assert es[..a][1..] == es[1..][..a - 1];
      ArrivalIsClaim(After(s, es[0]), es[1..], a - 1, q);
    }
  }

  /** First come, first served: while q waits, runnable, the scheduler does not
      choose a process claimed in a later tick, or in the same tick in a higher
      slot. */
  lemma FirstComeFirstServed(s: State, es: seq<Event>, a: nat, b: nat, p: nat, q: nat)
    requires IsRun(s, es) && LastClaim(es, a, q) && LastClaim(es, b, p) && p != q
    requires Ticks(es[..a]) < Ticks(es[..b]) || (Ticks(es[..a]) == Ticks(es[..b]) && q < p)
    requires q < |Final(s, es).state| && Final(s, es).state[q].Runnable?
    ensures !Enabled(Final(s, es), Choose(p))
  {
    ArrivalIsClaim(s, es, a, q);
    ArrivalIsClaim(s, es, b, p);
  }

  predicate ClaimedAt(s: State, es: seq<Event>, a: nat, q: nat, n: nat) {
    LastClaim(es, a, q) && n == s.ticks + Ticks(es[..a])
  }

  /** Process q arrived at tick n: its last allocproc in the run was then, or it
      arrived before the run. */
  ghost predicate ArrivedAt(s: State, es: seq<Event>, q: nat, n: nat)
    requires q < |s.arrival|
  {
    || (exists a: nat :: ClaimedAt(s, es, a, q, n))
    || (Claim(q) !in es && n == s.arrival[q])
  }

  /** An idle scheduler chooses exactly the runnable process that arrived in the
      earliest tick, of several in one tick the one in the lowest slot. */
  lemma ServedIffFirst(s: State, es: seq<Event>, at: seq<nat>, p: nat)
    requires IsRun(s, es) && |s.state| == |s.arrival| == |at| && Final(s, es).current == NOBODY
    requires forall q: nat | q < |at| :: ArrivedAt(s, es, q, at[q])
    ensures var t := Final(s, es);
      |t.state| == |at| &&
      (Enabled(t, Choose(p)) <==>
        && p < |at| && t.state[p].Runnable?
        && forall q | 0 <= q < |at| && q != p && t.state[q].Runnable? :: at[p] < at[q] || (at[p] == at[q] && p < q))
  {
    RunKeepsLength(s, es);
    var t := Final(s, es);
    forall q: nat | q < |at|
      ensures t.arrival[q] == at[q]
    {
      assert ArrivedAt(s, es, q, at[q]);
      if a: nat :| ClaimedAt(s, es, a, q, at[q]) {
        ArrivalIsClaim(s, es, a, q);
      } else {
        NeverClaimed(s, es, q);
      }
    }
  }

  lemma {:induction false} RunKeepsLength(s: State, es: seq<Event>)
    requires IsRun(s, es) && |s.state| == |s.arrival|
    ensures |Final(s, es).state| == |s.state| == |Final(s, es).arrival|
    decreases |es|
  {
    if es != [] {
      RunKeepsLength(After(s, es[0]), es[1..]);
    }
  }
}
