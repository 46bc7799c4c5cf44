/** Sleep locks on top of sleep and wakeup, with kkill, as interleaved steps
    between lock operations: mutual exclusion and no lost wakeup. */
module SleepLock {
  import opened ProcState

  const FREE := -1
  const SCHED := -2 // a hart's scheduler

  /** Where a process is. */
  datatype Op =
    | Idle
    // acquiresleep
    | AcqSpin // acquire(&lk->lk), also at the end of sleep
    | AcqTest // while (lk->locked)
    | AcqTake // lk->locked = 1; lk->pid = ...
    | AcqDone // release(&lk->lk)
    // sleep, called by acquiresleep
    | SlpLock // acquire(&p->lock)
    | SlpRelease // release(lk)
    | SlpChan // p->chan = chan
    | SlpState // p->state = SLEEPING
    | SlpSched // sched(): the scheduler will release p->lock
    | SlpWoken // off the cpu; later p->chan = 0
    | SlpUnlock // release(&p->lock)
    // releasesleep
    | RelSpin // acquire(&lk->lk)
    | RelClear // lk->locked = 0; lk->pid = 0
    | RelWake // wakeup: acquire(&p->lock)
    | RelTest // if asleep on chan, make it runnable
    | RelUnlock // release(&p->lock)
    | RelDone // release(&lk->lk)
    // kkill
    | KillLock // acquire(&p->lock)
    | KillTest // if this is the victim, mark it and wake it
    | KillUnlock // release(&p->lock)

  /** A process: its p->lock, the sleep lock l (kkill: the victim) it works on,
      its place k in wakeup's or kkill's loop, and the sleep locks it holds. */
  datatype Proc = Proc(lock: int, st: RunState, chan: int, killed: bool, op: Op, l: nat, k: nat, holds: set<nat>)

  datatype Lock = Lock(spin: int, locked: bool, owner: int)

  datatype State = State(procs: seq<Proc>, locks: seq<Lock>)

  datatype Event =
    | CallAcquire(i: nat, l: nat)
    | CallRelease(i: nat, l: nat) // by the process that holds l: the others panic first
    | CallKill(i: nat, victim: nat)
    | Run(i: nat) // the next step of a running process
    | SwitchOut(i: nat) // the scheduler releases the lock of a process that called sched
    | SchedLock(i: nat) // the scheduler looks at process i
    | SchedRun(i: nat) // ... and runs it
    | SchedUnlock(i: nat) // ... or passes on

  predicate InKill(op: Op) {
    op == KillLock || op == KillTest || op == KillUnlock
  }

  predicate PcOk(s: State, p: Proc) {
    && p.k <= |s.procs|
    && ((p.op.RelTest? || p.op.RelUnlock? || p.op.KillTest? || p.op.KillUnlock?) ==> p.k < |s.procs|)
    && (p.op != Idle && !InKill(p.op) ==> p.l < |s.locks|)
  }

  predicate CanRun(s: State, i: nat)
    requires i < |s.procs| && PcOk(s, s.procs[i])
  {
    var p := s.procs[i];
    && p.st == Running
    && match p.op
       case Idle => false
       case SlpSched => false
       case AcqSpin => s.locks[p.l].spin == FREE
       case RelSpin => s.locks[p.l].spin == FREE
       case SlpLock => p.lock == FREE
       case RelWake => p.k == |s.procs| || p.k == i || s.procs[p.k].lock == FREE
       case KillLock => p.k == |s.procs| || s.procs[p.k].lock == FREE
       case _ => true
  }

  /** What a step of process i does to its sleep lock. */
  function LockStep(s: State, i: nat): Lock
    requires i < |s.procs| && PcOk(s, s.procs[i]) && s.procs[i].l < |s.locks|
  {
    var lk := s.locks[s.procs[i].l];
    match s.procs[i].op
    case AcqSpin => lk.(spin := i)
    case AcqTake => lk.(locked := true, owner := i)
    case AcqDone => lk.(spin := FREE)
    case SlpRelease => lk.(spin := FREE)
    case RelSpin => lk.(spin := i)
    case RelClear => lk.(locked := false, owner := -1)
    case RelDone => lk.(spin := FREE)
    case _ => lk
  }

  /** ... to the process at its place k in a loop, itself included ... */
  function OtherStep(s: State, i: nat): Proc
    requires i < |s.procs| && PcOk(s, s.procs[i]) && s.procs[i].k < |s.procs|
  {
    var p := s.procs[i];
    var q := s.procs[p.k];
    match p.op
    case RelWake => if p.k == i then q else q.(lock := i)
    case RelTest => if q.st == Sleeping && q.chan == p.l then q.(st := Runnable) else q
    case RelUnlock => q.(lock := FREE)
    case KillLock => q.(lock := i)
    case KillTest => if p.k != p.l then q else q.(killed := true, st := if q.st == Sleeping then Runnable else q.st)
    case KillUnlock => q.(lock := FREE)
    case _ => q
  }

  /** ... and to its own fields, p being process i, n the size of the table. */
  function OwnStep(s: State, i: nat, p: Proc): Proc
    requires PcOk(s, p)
  {
    var n := |s.procs|;
    match p.op
    case Idle => p
    case AcqSpin => p.(op := AcqTest)
    case AcqTest => p.(op := if s.locks[p.l].locked then SlpLock else AcqTake)
    case AcqTake => p.(op := AcqDone)
    case AcqDone => p.(op := Idle, holds := p.holds + {p.l})
    case SlpLock => p.(lock := i, op := SlpRelease)
    case SlpRelease => p.(op := SlpChan)
    case SlpChan => p.(chan := p.l, op := SlpState)
    case SlpState => p.(st := Sleeping, op := SlpSched)
    case SlpSched => p
    case SlpWoken => p.(chan := -1, op := SlpUnlock)
    case SlpUnlock => p.(lock := FREE, op := AcqSpin)
    case RelSpin => p.(op := RelClear)
    case RelClear => p.(op := RelWake, k := 0)
    case RelWake => if p.k == n then p.(op := RelDone) else if p.k == i then p.(k := p.k + 1) else p.(op := RelTest)
    case RelTest => p.(op := RelUnlock)
    case RelUnlock => p.(op := RelWake, k := p.k + 1)
    case RelDone => p.(op := Idle)
    case KillLock => if p.k == n then p.(op := Idle) else p.(op := KillTest)
    case KillTest => p.(op := KillUnlock)
    case KillUnlock => if p.k == p.l then p.(op := Idle) else p.(op := KillLock, k := p.k + 1)
  }

  function Stepped(s: State, i: nat): State
    requires i < |s.procs| && PcOk(s, s.procs[i])
  {
    var p := s.procs[i];
    var ls := if p.l < |s.locks| then s.locks[p.l := LockStep(s, i)] else s.locks;
    var ps := if p.k < |s.procs| then s.procs[p.k := OtherStep(s, i)] else s.procs;
    State(ps[i := OwnStep(s, i, ps[i])], ls)
  }

  predicate Enabled(s: State, e: Event) {
    && e.i < |s.procs| && PcOk(s, s.procs[e.i])
    && var p := s.procs[e.i];
       match e
       case CallAcquire(i, l) => p.st == Running && p.op == Idle && l < |s.locks|
       case CallRelease(i, l) => p.st == Running && p.op == Idle && l < |s.locks| && l in p.holds
       case CallKill(i, v) => p.st == Running && p.op == Idle
       case Run(i) => CanRun(s, i)
       case SwitchOut(i) => p.op == SlpSched
       case SchedLock(i) => p.lock == FREE
       case SchedRun(i) => p.lock == SCHED && p.st == Runnable
       case SchedUnlock(i) => p.lock == SCHED
  }

  /** The events other than Run change one process only. */
  function Changed(p: Proc, e: Event): Proc {
    match e
    case CallAcquire(i, l) => p.(op := AcqSpin, l := l)
    case CallRelease(i, l) => p.(op := RelSpin, l := l, holds := p.holds - {l})
    case CallKill(i, v) => p.(op := KillLock, l := v, k := 0)
    case Run(i) => p
    case SwitchOut(i) => p.(lock := FREE, op := SlpWoken)
    case SchedLock(i) => p.(lock := SCHED)
    case SchedRun(i) => p.(lock := i, st := Running)
    case SchedUnlock(i) => p.(lock := FREE)
  }

  function After(s: State, e: Event): State
    requires Enabled(s, e)
  {
    if e.Run? then Stepped(s, e.i) else s.(procs := s.procs[e.i := Changed(s.procs[e.i], e)])
  }

  // ----- the invariant -----

  /** The spinlock of sleep lock l is held here. */
  predicate HasSpin(p: Proc, l: nat) {
    && p.l == l
    && (p.op.AcqTest? || p.op.AcqTake? || p.op.AcqDone? || p.op.SlpLock? || p.op.SlpRelease?
        || p.op.RelClear? || p.op.RelWake? || p.op.RelTest? || p.op.RelUnlock? || p.op.RelDone?)
  }

  /** p->lock of process k is held here by process i. */
  predicate HasPlock(p: Proc, i: nat, k: nat) {
    || (k == i && (p.op.SlpRelease? || p.op.SlpChan? || p.op.SlpState? || p.op.SlpSched? || p.op.SlpUnlock?))
    || (k == i && p.op == SlpWoken && p.st == Running)
    || (k == p.k && (p.op.RelTest? || p.op.RelUnlock? || p.op.KillTest? || p.op.KillUnlock?))
  }

  /** Between taking sleep lock l and giving it up. */
  predicate Owns(p: Proc, l: nat) {
    l in p.holds || (p.l == l && (p.op.AcqDone? || p.op.RelSpin? || p.op.RelClear?))
  }

  /** Committed to sleeping on l, or asleep on it. */
  predicate Awaits(p: Proc, l: nat) {
    p.l == l && ((p.op.SlpChan? || p.op.SlpState? || p.op.SlpSched?) || (p.op == SlpWoken && p.st == Sleeping))
  }

  /** A releaser of l has process i still before it in wakeup's loop. */
  predicate Pending(s: State, l: nat, i: nat)
    requires l < |s.locks|
  {
    var r := s.locks[l].spin;
    && 0 <= r < |s.procs| && r != i
    && var q := s.procs[r];
       && q.l == l
       && (((q.op.RelWake? || q.op.RelTest?) && q.k <= i) || (q.op == RelUnlock && q.k < i))
  }

  ghost predicate ProcOk(s: State, i: nat)
    requires i < |s.procs|
  {
    var p := s.procs[i];
    && PcOk(s, p)
    && (p.lock == FREE || p.lock == SCHED || 0 <= p.lock < |s.procs|)
    && (p.st == Sleeping ==> p.op == SlpSched || p.op == SlpWoken)
    && (p.st == Runnable ==> p.op == SlpWoken)
    && (p.op == SlpSched ==> p.st == Sleeping)
    && p.chan == (if (p.op.SlpState? || p.op.SlpSched? || p.op.SlpWoken?) then p.l else -1)
    && (p.op == SlpLock || p.op == SlpRelease ==> s.locks[p.l].locked)
    && (p.op == AcqTake ==> !s.locks[p.l].locked)
    && (p.op == RelSpin || p.op == RelClear ==> p.l !in p.holds)
  }

  /** A lock's holder field names exactly the process that is past taking it. */
  predicate SpinOk(s: State, i: nat, l: nat)
    requires i < |s.procs| && l < |s.locks|
  {
    HasSpin(s.procs[i], l) <==> s.locks[l].spin == i
  }

  predicate PlockOk(s: State, i: nat, k: nat)
    requires i < |s.procs| && k < |s.procs|
  {
    HasPlock(s.procs[i], i, k) <==> s.procs[k].lock == i
  }

  predicate OwnerOk(s: State, i: nat, l: nat)
    requires i < |s.procs| && l < |s.locks|
  {
    Owns(s.procs[i], l) <==> s.locks[l].locked && s.locks[l].owner == i
  }

  /** Whoever is to sleep on l, or sleeps on it, does so while l is locked or has
      its wakeup still coming. */
  predicate NotLost(s: State, i: nat, l: nat)
    requires i < |s.procs| && l < |s.locks|
  {
    Awaits(s.procs[i], l) ==> s.locks[l].locked || Pending(s, l, i)
  }

  predicate LockOk(s: State, l: nat)
    requires l < |s.locks|
  {
    && (s.locks[l].spin == FREE || 0 <= s.locks[l].spin < |s.procs|)
    && (s.locks[l].locked ==> 0 <= s.locks[l].owner < |s.procs|)
  }

  ghost predicate Inv(s: State) {
    && (forall i: nat | i < |s.procs| :: ProcOk(s, i))
    && (forall l: nat | l < |s.locks| :: LockOk(s, l))
    && (forall i: nat, l: nat | i < |s.procs| && l < |s.locks| :: SpinOk(s, i, l))
    && (forall i: nat, k: nat | i < |s.procs| && k < |s.procs| :: PlockOk(s, i, k))
    && (forall i: nat, l: nat | i < |s.procs| && l < |s.locks| :: OwnerOk(s, i, l))
    && (forall i: nat, l: nat | i < |s.procs| && l < |s.locks| :: NotLost(s, i, l))
  }

  lemma StepKeepsSize(s: State, e: Event)
    requires Enabled(s, e)
    ensures |After(s, e).procs| == |s.procs| && |After(s, e).locks| == |s.locks|
  {
  }

  /** Process i after the event. */
  function NextProc(s: State, e: Event, i: nat): Proc
    requires Enabled(s, e) && i < |s.procs|
  {
    var q := if e.Run? && i == s.procs[e.i].k then OtherStep(s, e.i) else s.procs[i];
    if i != e.i then q else if e.Run? then OwnStep(s, i, q) else Changed(q, e)
  }

  /** Sleep lock l after the event. */
  function NextLock(s: State, e: Event, l: nat): Lock
    requires Enabled(s, e) && l < |s.locks|
  {
    if e.Run? && l == s.procs[e.i].l then LockStep(s, e.i) else s.locks[l]
  }

  lemma ProcAfter(s: State, e: Event, i: nat)
    requires Enabled(s, e) && i < |s.procs|
    ensures |After(s, e).procs| == |s.procs| && After(s, e).procs[i] == NextProc(s, e, i)
  {
  }

  lemma LockAfter(s: State, e: Event, l: nat)
    requires Enabled(s, e) && l < |s.locks|
    ensures |After(s, e).locks| == |s.locks| && After(s, e).locks[l] == NextLock(s, e, l)
  {
  }

  /** In wakeup's or kkill's loop. */
  predicate InLoop(op: Op) {
    InKill(op) || op == RelWake || op == RelTest || op == RelUnlock
  }

  lemma OutsideLoopKeepsSelf(s: State, e: Event, i: nat)
    requires Enabled(s, e) && i < |s.procs| && ProcOk(s, i) && ProcOk(s, e.i)
    requires s.procs[i].l < |s.locks| ==> SpinOk(s, i, s.procs[i].l) && SpinOk(s, e.i, s.procs[i].l) && OwnerOk(s, i, s.procs[i].l)
    requires PlockOk(s, i, i) && PlockOk(s, e.i, i)
    requires e.Run? && i == e.i && !InLoop(s.procs[i].op)
    ensures |After(s, e).procs| == |s.procs| && ProcOk(After(s, e), i)
  {
    hide After;
    StepKeepsSize(s, e);
    ProcAfter(s, e, i);
    if s.procs[i].l < |s.locks| {
      LockAfter(s, e, s.procs[i].l);
    }
  }

  lemma WakeupKeepsSelf(s: State, e: Event, i: nat)
    requires Enabled(s, e) && i < |s.procs| && ProcOk(s, i) && ProcOk(s, e.i)
    requires s.procs[i].l < |s.locks| ==> SpinOk(s, i, s.procs[i].l) && SpinOk(s, e.i, s.procs[i].l) && OwnerOk(s, i, s.procs[i].l)
    requires PlockOk(s, i, i) && PlockOk(s, e.i, i)
    requires e.Run? && i == e.i && InLoop(s.procs[i].op) && !InKill(s.procs[i].op)
    ensures |After(s, e).procs| == |s.procs| && ProcOk(After(s, e), i)
  {
    hide After;
    StepKeepsSize(s, e);
    ProcAfter(s, e, i);
    if s.procs[i].l < |s.locks| {
      LockAfter(s, e, s.procs[i].l);
    }
  }

  lemma KillKeepsSelf(s: State, e: Event, i: nat)
    requires Enabled(s, e) && i < |s.procs| && ProcOk(s, i) && ProcOk(s, e.i)
    requires s.procs[i].l < |s.locks| ==> SpinOk(s, i, s.procs[i].l) && SpinOk(s, e.i, s.procs[i].l) && OwnerOk(s, i, s.procs[i].l)
    requires PlockOk(s, i, i) && PlockOk(s, e.i, i)
    requires e.Run? && i == e.i && InKill(s.procs[i].op)
    ensures |After(s, e).procs| == |s.procs| && ProcOk(After(s, e), i)
  {
    hide After;
    StepKeepsSize(s, e);
    ProcAfter(s, e, i);
    if s.procs[i].l < |s.locks| {
      LockAfter(s, e, s.procs[i].l);
    }
  }

  lemma RunKeepsOther(s: State, e: Event, i: nat)
    requires Enabled(s, e) && i < |s.procs| && ProcOk(s, i) && ProcOk(s, e.i)
    requires s.procs[i].l < |s.locks| ==> SpinOk(s, i, s.procs[i].l) && SpinOk(s, e.i, s.procs[i].l) && OwnerOk(s, i, s.procs[i].l)
    requires PlockOk(s, i, i) && PlockOk(s, e.i, i)
    requires e.Run? && i != e.i
    ensures |After(s, e).procs| == |s.procs| && ProcOk(After(s, e), i)
  {
    hide After;
    StepKeepsSize(s, e);
    ProcAfter(s, e, i);
    if s.procs[i].l < |s.locks| {
      LockAfter(s, e, s.procs[i].l);
    }
  }

  lemma CallKeepsProc(s: State, e: Event, i: nat)
    requires Enabled(s, e) && i < |s.procs| && ProcOk(s, i) && ProcOk(s, e.i)
    requires s.procs[i].l < |s.locks| ==> SpinOk(s, i, s.procs[i].l) && SpinOk(s, e.i, s.procs[i].l) && OwnerOk(s, i, s.procs[i].l)
    requires PlockOk(s, i, i) && PlockOk(s, e.i, i)
    requires !e.Run?
    ensures |After(s, e).procs| == |s.procs| && ProcOk(After(s, e), i)
  {
    hide After;
    StepKeepsSize(s, e);
    ProcAfter(s, e, i);
    if s.procs[i].l < |s.locks| {
      LockAfter(s, e, s.procs[i].l);
    }
    if e.CallAcquire? || e.CallRelease? {
      LockAfter(s, e, e.l);
    }
  }

  lemma StepKeepsProc(s: State, e: Event, i: nat)
    requires Enabled(s, e) && i < |s.procs| && ProcOk(s, i) && ProcOk(s, e.i)
    requires s.procs[i].l < |s.locks| ==> SpinOk(s, i, s.procs[i].l) && SpinOk(s, e.i, s.procs[i].l) && OwnerOk(s, i, s.procs[i].l)
    requires PlockOk(s, i, i) && PlockOk(s, e.i, i)
    ensures |After(s, e).procs| == |s.procs| && ProcOk(After(s, e), i)
  {
    hide After, Enabled, ProcOk, SpinOk, OwnerOk, PlockOk;
    if !e.Run? {
      CallKeepsProc(s, e, i);
    } else if i == e.i && InKill(s.procs[i].op) {
      KillKeepsSelf(s, e, i);
    } else if i == e.i && InLoop(s.procs[i].op) {
      WakeupKeepsSelf(s, e, i);
    } else if i == e.i {
      OutsideLoopKeepsSelf(s, e, i);
    } else {
      RunKeepsOther(s, e, i);
    }
  }

  lemma StepKeepsLock(s: State, e: Event, l: nat)
    requires Enabled(s, e) && l < |s.locks| && LockOk(s, l)
    ensures |After(s, e).locks| == |s.locks| && LockOk(After(s, e), l)
  {
    hide After;
    StepKeepsSize(s, e);
    LockAfter(s, e, l);
  }

  lemma StepKeepsSpin(s: State, e: Event, i: nat, l: nat)
    requires Enabled(s, e) && i < |s.procs| && l < |s.locks|
    requires SpinOk(s, i, l) && SpinOk(s, e.i, l)
    ensures |After(s, e).procs| == |s.procs| && |After(s, e).locks| == |s.locks| && SpinOk(After(s, e), i, l)
  {
    hide After;
    LockAfter(s, e, l);
    ProcAfter(s, e, i);
  }

  lemma RunKeepsOwnPlock(s: State, e: Event, i: nat, k: nat)
    requires Enabled(s, e) && i < |s.procs| && k < |s.procs|
    requires ProcOk(s, i) && ProcOk(s, e.i) && PlockOk(s, i, k) && PlockOk(s, e.i, k) && PlockOk(s, e.i, i) && PlockOk(s, i, i)
    requires e.Run? && i == e.i && k == i
    ensures |After(s, e).procs| == |s.procs| && PlockOk(After(s, e), i, k)
  {
    hide After;
    ProcAfter(s, e, k);
    ProcAfter(s, e, i);
  }

  lemma RunKeepsAnotherPlock(s: State, e: Event, i: nat, k: nat)
    requires Enabled(s, e) && i < |s.procs| && k < |s.procs|
    requires ProcOk(s, i) && ProcOk(s, e.i) && PlockOk(s, i, k) && PlockOk(s, e.i, k) && PlockOk(s, e.i, i) && PlockOk(s, i, i)
    requires e.Run? && i == e.i && k != i
    ensures |After(s, e).procs| == |s.procs| && PlockOk(After(s, e), i, k)
  {
    hide After;
    ProcAfter(s, e, k);
    ProcAfter(s, e, i);
  }

  lemma RunKeepsOtherPlock(s: State, e: Event, i: nat, k: nat)
    requires Enabled(s, e) && i < |s.procs| && k < |s.procs|
    requires ProcOk(s, i) && ProcOk(s, e.i) && PlockOk(s, i, k) && PlockOk(s, e.i, k) && PlockOk(s, e.i, i) && PlockOk(s, i, i)
    requires e.Run? && i != e.i
    ensures |After(s, e).procs| == |s.procs| && PlockOk(After(s, e), i, k)
  {
    hide After;
    ProcAfter(s, e, k);
    ProcAfter(s, e, i);
  }

  lemma CallKeepsPlock(s: State, e: Event, i: nat, k: nat)
    requires Enabled(s, e) && i < |s.procs| && k < |s.procs|
    requires ProcOk(s, i) && ProcOk(s, e.i) && PlockOk(s, i, k) && PlockOk(s, e.i, k) && PlockOk(s, e.i, i) && PlockOk(s, i, i)
    requires !e.Run?
    ensures |After(s, e).procs| == |s.procs| && PlockOk(After(s, e), i, k)
  {
    hide After;
    ProcAfter(s, e, k);
    ProcAfter(s, e, i);
  }

  lemma StepKeepsPlock(s: State, e: Event, i: nat, k: nat)
    requires Enabled(s, e) && i < |s.procs| && k < |s.procs|
    requires ProcOk(s, i) && ProcOk(s, e.i) && PlockOk(s, i, k) && PlockOk(s, e.i, k) && PlockOk(s, e.i, i) && PlockOk(s, i, i)
    ensures |After(s, e).procs| == |s.procs| && PlockOk(After(s, e), i, k)
  {
    hide After, Enabled, ProcOk, PlockOk;
    if !e.Run? {
      CallKeepsPlock(s, e, i, k);
    } else if i == e.i && k == i {
      RunKeepsOwnPlock(s, e, i, k);
    } else if i == e.i {
      RunKeepsAnotherPlock(s, e, i, k);
    } else {
      RunKeepsOtherPlock(s, e, i, k);
    }
  }

  lemma StepKeepsOwner(s: State, e: Event, i: nat, l: nat)
    requires Enabled(s, e) && i < |s.procs| && l < |s.locks| && ProcOk(s, e.i)
    requires OwnerOk(s, i, l) && OwnerOk(s, e.i, l)
    ensures |After(s, e).procs| == |s.procs| && |After(s, e).locks| == |s.locks| && OwnerOk(After(s, e), i, l)
  {
    hide After;
    LockAfter(s, e, l);
    ProcAfter(s, e, i);
  }

  lemma OwnRunKeepsWakeup(s: State, e: Event, i: nat, l: nat)
    requires i == e.i && e.Run? && Enabled(s, e) && i < |s.procs| && l < |s.locks| && ProcOk(s, i) && ProcOk(s, e.i)
    requires NotLost(s, i, l) && SpinOk(s, i, l) && SpinOk(s, e.i, l) && PlockOk(s, e.i, i) && PlockOk(s, i, i) && OwnerOk(s, e.i, l)
    ensures |After(s, e).procs| == |s.procs| && |After(s, e).locks| == |s.locks| && NotLost(After(s, e), i, l)
  {
    hide After;
    StepKeepsSize(s, e);
    LockAfter(s, e, l);
    ProcAfter(s, e, i);
    ProcAfter(s, e, e.i);
    if 0 <= s.locks[l].spin < |s.procs| {
      ProcAfter(s, e, s.locks[l].spin);
    }
  }

  lemma OwnCallKeepsWakeup(s: State, e: Event, i: nat, l: nat)
    requires i == e.i && !e.Run? && Enabled(s, e) && i < |s.procs| && l < |s.locks| && ProcOk(s, i) && ProcOk(s, e.i)
    requires NotLost(s, i, l) && SpinOk(s, i, l) && SpinOk(s, e.i, l) && PlockOk(s, e.i, i) && PlockOk(s, i, i) && OwnerOk(s, e.i, l)
    ensures |After(s, e).procs| == |s.procs| && |After(s, e).locks| == |s.locks| && NotLost(After(s, e), i, l)
  {
    hide After;
    StepKeepsSize(s, e);
    LockAfter(s, e, l);
    ProcAfter(s, e, i);
    ProcAfter(s, e, e.i);
    if 0 <= s.locks[l].spin < |s.procs| {
      ProcAfter(s, e, s.locks[l].spin);
    }
  }

  lemma OwnStepKeepsWakeup(s: State, e: Event, i: nat, l: nat)
    requires i == e.i && Enabled(s, e) && i < |s.procs| && l < |s.locks| && ProcOk(s, i) && ProcOk(s, e.i)
    requires NotLost(s, i, l) && SpinOk(s, i, l) && SpinOk(s, e.i, l) && PlockOk(s, e.i, i) && PlockOk(s, i, i) && OwnerOk(s, e.i, l)
    ensures |After(s, e).procs| == |s.procs| && |After(s, e).locks| == |s.locks| && NotLost(After(s, e), i, l)
  {
    hide After, Enabled, ProcOk, NotLost, SpinOk, PlockOk, OwnerOk;
    if e.Run? {
      OwnRunKeepsWakeup(s, e, i, l);
    } else {
      OwnCallKeepsWakeup(s, e, i, l);
    }
  }

  lemma OtherStepKeepsWakeup(s: State, e: Event, i: nat, l: nat)
    requires i != e.i && Enabled(s, e) && i < |s.procs| && l < |s.locks| && ProcOk(s, i) && ProcOk(s, e.i)
    requires NotLost(s, i, l) && SpinOk(s, i, l) && SpinOk(s, e.i, l) && PlockOk(s, e.i, i) && PlockOk(s, i, i) && OwnerOk(s, e.i, l)
    ensures |After(s, e).procs| == |s.procs| && |After(s, e).locks| == |s.locks| && NotLost(After(s, e), i, l)
  {
    hide After;
    StepKeepsSize(s, e);
    LockAfter(s, e, l);
    ProcAfter(s, e, i);
    ProcAfter(s, e, e.i);
    if 0 <= s.locks[l].spin < |s.procs| {
      ProcAfter(s, e, s.locks[l].spin);
    }
  }

  // ----- runs -----

  lemma StepKeepsInv(s: State, e: Event)
    requires Inv(s) && Enabled(s, e)
    ensures Inv(After(s, e))
  {
    hide After, Enabled, ProcOk, SpinOk, PlockOk, OwnerOk, NotLost, LockOk;
    StepKeepsSize(s, e);
    var t := After(s, e);
    EnabledAt(s, e);
    forall i: nat | i < |s.procs|
      ensures ProcOk(t, i)
    {
      StepKeepsProc(s, e, i);
    }
    forall l: nat | l < |s.locks|
      ensures LockOk(t, l)
    {
      StepKeepsLock(s, e, l);
    }
    forall i: nat, l: nat | i < |s.procs| && l < |s.locks|
      ensures SpinOk(t, i, l) && OwnerOk(t, i, l) && NotLost(t, i, l)
    {
      StepKeepsSpin(s, e, i, l);
      StepKeepsOwner(s, e, i, l);
      if i == e.i {
        OwnStepKeepsWakeup(s, e, i, l);
      } else {
        OtherStepKeepsWakeup(s, e, i, l);
      }
    }
    forall i: nat, k: nat | i < |s.procs| && k < |s.procs|
      ensures PlockOk(t, i, k)
    {
      StepKeepsPlock(s, e, i, k);
    }
  }

  lemma EnabledAt(s: State, e: Event)
    requires Enabled(s, e)
    ensures e.i < |s.procs|
  {
  }

  /** Running processes outside these functions, and free locks. */
  ghost predicate Initial(s: State) {
    && (forall i | 0 <= i < |s.procs| :: s.procs[i] == Proc(FREE, Running, -1, s.procs[i].killed, Idle, 0, 0, {}))
    && forall l | 0 <= l < |s.locks| :: s.locks[l] == Lock(FREE, false, -1)
  }

  ghost predicate IsRun(s: State, es: seq<Event>, t: State)
    decreases |es|
  {
    if es == [] then t == s else Enabled(s, es[0]) && IsRun(After(s, es[0]), es[1..], t)
  }

  lemma {:induction false} RunKeepsInv(s: State, es: seq<Event>, t: State)
    requires Inv(s) && IsRun(s, es, t)
    ensures Inv(t)
    decreases |es|
  {
    if es != [] {
      StepKeepsInv(s, es[0]);
      RunKeepsInv(After(s, es[0]), es[1..], t);
    }
  }

  /** In every state of every run: two processes are never both between
      acquiresleep and releasesleep of one lock, and the lock names the one
      that is; and a process asleep on a lock, or about to be, has the lock
      taken or a releaser that will still reach it, kkill or not. */
  lemma {:induction false} SleepLocksAreSafe(s: State, es: seq<Event>, t: State)
    requires Initial(s) && IsRun(s, es, t)
    ensures forall i, j, l: nat | 0 <= i < j < |t.procs| && l < |t.locks| :: !(Owns(t.procs[i], l) && Owns(t.procs[j], l))
    ensures forall i, l: nat | 0 <= i < |t.procs| && l < |t.locks| && Owns(t.procs[i], l) :: t.locks[l].locked && t.locks[l].owner == i
    ensures forall i, l: nat | 0 <= i < |t.procs| && l < |t.locks| :: t.procs[i].st == Sleeping && t.procs[i].chan == l ==>
              t.locks[l].locked || Pending(t, l, i)
  {
    InitialInv(s);
    RunKeepsInv(s, es, t);
    forall i, j, l: nat | 0 <= i < j < |t.procs| && l < |t.locks|
      ensures !(Owns(t.procs[i], l) && Owns(t.procs[j], l))
    {
      assert OwnerOk(t, i, l) && OwnerOk(t, j, l);
    }
    forall i, l: nat | 0 <= i < |t.procs| && l < |t.locks|
      ensures Owns(t.procs[i], l) ==> t.locks[l].locked && t.locks[l].owner == i
      ensures t.procs[i].st == Sleeping && t.procs[i].chan == l ==> t.locks[l].locked || Pending(t, l, i)
    {
      assert OwnerOk(t, i, l) && NotLost(t, i, l) && ProcOk(t, i);
    }
  }

  lemma InitialInv(s: State)
    requires Initial(s)
    ensures Inv(s)
  {
  }

  /** holdingsleep, called outside the other operations: the answer it computes
      is whether the caller is between acquiresleep and releasesleep. */
  lemma HoldingsleepIsExact(s: State, i: nat, l: nat)
    requires Inv(s) && i < |s.procs| && l < |s.locks| && s.procs[i].op == Idle
    ensures s.locks[l].locked && s.locks[l].owner == i <==> l in s.procs[i].holds
  {
    assert OwnerOk(s, i, l);
  }

  /** A sleeper on a free lock whose spinlock is free too does not exist. */
  lemma NobodySleepsOnAFreeLock(s: State, i: nat, l: nat)
    requires Inv(s) && i < |s.procs| && l < |s.locks| && !s.locks[l].locked && s.locks[l].spin == FREE
    ensures !(s.procs[i].st == Sleeping && s.procs[i].chan == l)
  {
    assert NotLost(s, i, l) && ProcOk(s, i);
  }

  // ----- what the calls do -----

  predicate Acquires(p: Proc) {
    || p.op.AcqSpin? || p.op.AcqTest? || p.op.AcqTake? || p.op.AcqDone?
    || p.op.SlpLock? || p.op.SlpRelease? || p.op.SlpChan? || p.op.SlpState? || p.op.SlpSched? || p.op.SlpWoken? || p.op.SlpUnlock?
  }

  /** acquiresleep returns only with the lock, and it alone gives locks. */
  lemma AcquireEndsWithLock(s: State, e: Event, i: nat)
    requires Inv(s) && Enabled(s, e) && i < |s.procs|
    ensures |After(s, e).procs| == |s.procs|
    ensures AcquireGoesOn(s.procs[i], e, i, After(s, e).procs[i])
  {
    hide After, Inv, AcquireGoesOn, Enabled, NextProc;
    ProcAfter(s, e, i);
    EnabledAt(s, e);
    ProcOf(s, i);
    if i != e.i {
      OthersLeaveCalls(s, e, i);
    } else if Acquires(s.procs[i]) {
      AcquireStep(s, e, i);
    } else {
      NoAcquireStep(s, e, i);
    }
  }

  ghost predicate AcquireGoesOn(p: Proc, e: Event, i: nat, q: Proc) {
    && (Acquires(p) ==> (Acquires(q) && q.l == p.l && q.holds == p.holds) || (q.op.Idle? && q.holds == p.holds + {p.l}))
    && (!Acquires(p) ==> q.holds <= p.holds)
    && (!Acquires(p) && Acquires(q) ==> q.op.AcqSpin? && e == CallAcquire(i, q.l))
  }

  lemma OthersLeaveCalls(s: State, e: Event, i: nat)
    requires Enabled(s, e) && i < |s.procs| && i != e.i
    ensures AcquireGoesOn(s.procs[i], e, i, NextProc(s, e, i))
    ensures var p, q := s.procs[i], NextProc(s, e, i); q.op == p.op && q.l == p.l && q.k == p.k && q.holds == p.holds
  {
  }

  lemma AcquireStep(s: State, e: Event, i: nat)
    requires Enabled(s, e) && i < |s.procs| && i == e.i && Acquires(s.procs[i]) && ProcOk(s, i)
    ensures AcquireGoesOn(s.procs[i], e, i, NextProc(s, e, i))
  {
  }

  lemma NoAcquireStep(s: State, e: Event, i: nat)
    requires Enabled(s, e) && i < |s.procs| && i == e.i && !Acquires(s.procs[i]) && ProcOk(s, i)
    ensures AcquireGoesOn(s.procs[i], e, i, NextProc(s, e, i))
  {
  }

  lemma ProcOf(s: State, i: nat)
    requires Inv(s) && i < |s.procs|
    ensures ProcOk(s, i)
  {
  }

  /** The releaser of l in wakeup, at process i. */
  predicate WakesOn(s: State, e: Event, l: int)
    requires e.i < |s.procs|
  {
    e.Run? && s.procs[e.i].op.RelTest? && s.procs[e.i].l == l
  }

  /** The kkill whose victim is process i. */
  predicate Kills(s: State, e: Event, i: nat)
    requires e.i < |s.procs|
  {
    e.Run? && InKill(s.procs[e.i].op) && s.procs[e.i].l == i
  }

  /** A sleeper becomes RUNNABLE only by a release of its lock or a kkill of it,
      and only a kkill of it marks a process killed. */
  lemma WokenForAReason(s: State, e: Event, i: nat)
    requires Inv(s) && Enabled(s, e) && i < |s.procs|
    ensures |After(s, e).procs| == |s.procs|
    ensures var p, q := s.procs[i], After(s, e).procs[i];
      && (p.st == Sleeping && q.st != Sleeping ==> q.st == Runnable && (WakesOn(s, e, p.chan) || Kills(s, e, i)))
      && (p.killed ==> q.killed)
      && (!p.killed && q.killed ==> Kills(s, e, i) && q.st != Sleeping)
  {
    hide After, Inv;
    ProcAfter(s, e, i);
    assert ProcOk(s, i) by { ProcOf(s, i); }
    assert ProcOk(s, e.i) by { ProcOf(s, e.i); }
  }

  predicate Releases(p: Proc) {
    p.op.RelSpin? || p.op.RelClear? || p.op.RelWake? || p.op.RelTest? || p.op.RelUnlock? || p.op.RelDone?
  }

  /** A call works on the lock, or against the victim, it was given until it
      returns. */
  lemma CallsKeepTheirArgument(s: State, e: Event, i: nat)
    requires Inv(s) && Enabled(s, e) && i < |s.procs|
    ensures |After(s, e).procs| == |s.procs|
    ensures var p, q := s.procs[i], After(s, e).procs[i];
      && (Acquires(q) ==> e == CallAcquire(i, q.l) || (Acquires(p) && p.l == q.l))
      && (Releases(q) ==> e == CallRelease(i, q.l) || (Releases(p) && p.l == q.l))
      && (InKill(q.op) ==> (e == CallKill(i, q.l) && q.k == 0) || (InKill(p.op) && p.l == q.l))
      && (!q.op.Idle? ==> Acquires(q) || Releases(q) || InKill(q.op))
      && (e.CallAcquire? || e.CallRelease? || e.CallKill? ==> (e.i == i ==> !q.op.Idle?))
  {
    hide After, Inv, Enabled, NextProc;
    ProcAfter(s, e, i);
    EnabledAt(s, e);
    ProcOf(s, i);
    if i != e.i {
      OthersLeaveCalls(s, e, i);
    } else {
      OwnCallGoesOn(s, e, i);
    }
  }

  lemma OwnRunGoesOn(s: State, e: Event, i: nat)
    requires Enabled(s, e) && i < |s.procs| && i == e.i && e.Run? && ProcOk(s, i)
    ensures var p, q := s.procs[i], NextProc(s, e, i);
      && (Acquires(q) ==> e == CallAcquire(i, q.l) || (Acquires(p) && p.l == q.l))
      && (Releases(q) ==> e == CallRelease(i, q.l) || (Releases(p) && p.l == q.l))
      && (InKill(q.op) ==> (e == CallKill(i, q.l) && q.k == 0) || (InKill(p.op) && p.l == q.l))
      && (!q.op.Idle? ==> Acquires(q) || Releases(q) || InKill(q.op))
      && (e.CallAcquire? || e.CallRelease? || e.CallKill? ==> !q.op.Idle?)
  {
  }

  lemma OwnOtherGoesOn(s: State, e: Event, i: nat)
    requires Enabled(s, e) && i < |s.procs| && i == e.i && !e.Run? && ProcOk(s, i)
    ensures var p, q := s.procs[i], NextProc(s, e, i);
      && (Acquires(q) ==> e == CallAcquire(i, q.l) || (Acquires(p) && p.l == q.l))
      && (Releases(q) ==> e == CallRelease(i, q.l) || (Releases(p) && p.l == q.l))
      && (InKill(q.op) ==> (e == CallKill(i, q.l) && q.k == 0) || (InKill(p.op) && p.l == q.l))
      && (!q.op.Idle? ==> Acquires(q) || Releases(q) || InKill(q.op))
      && (e.CallAcquire? || e.CallRelease? || e.CallKill? ==> !q.op.Idle?)
  {
  }

  lemma OwnCallGoesOn(s: State, e: Event, i: nat)
    requires Enabled(s, e) && i < |s.procs| && i == e.i && ProcOk(s, i)
    ensures var p, q := s.procs[i], NextProc(s, e, i);
      && (Acquires(q) ==> e == CallAcquire(i, q.l) || (Acquires(p) && p.l == q.l))
      && (Releases(q) ==> e == CallRelease(i, q.l) || (Releases(p) && p.l == q.l))
      && (InKill(q.op) ==> (e == CallKill(i, q.l) && q.k == 0) || (InKill(p.op) && p.l == q.l))
      && (!q.op.Idle? ==> Acquires(q) || Releases(q) || InKill(q.op))
      && (e.CallAcquire? || e.CallRelease? || e.CallKill? ==> !q.op.Idle?)
  {
    hide Enabled, NextProc, ProcOk;
    if e.Run? {
      OwnRunGoesOn(s, e, i);
    } else {
      OwnOtherGoesOn(s, e, i);
    }
  }

  /** kkill has not passed its victim without marking it. */
  predicate KillOk(s: State, i: nat)
    requires i < |s.procs|
  {
    var p := s.procs[i];
    InKill(p.op) && p.l < |s.procs| ==>
      p.k <= p.l && (p.op.KillUnlock? && p.k == p.l ==> s.procs[p.l].killed)
  }

  lemma StepKeepsKill(s: State, e: Event, i: nat)
    requires Inv(s) && Enabled(s, e) && i < |s.procs| && KillOk(s, i)
    ensures |After(s, e).procs| == |s.procs| && KillOk(After(s, e), i)
  {
    hide After, Inv, Enabled, NextProc, Kills, WakesOn;
    ProcAfter(s, e, i);
    EnabledAt(s, e);
    ProcOf(s, i);
    var l := s.procs[i].l;
    if l < |s.procs| {
      WokenForAReason(s, e, l);
      ProcAfter(s, e, l);
    }
    if i != e.i {
      OthersLeaveCalls(s, e, i);
    } else {
      OwnStepKeepsKill(s, e, i);
      if e.Run? && s.procs[i].op.KillTest? && s.procs[i].k == l {
        KillTestMarks(s, e, i);
      }
    }
  }

  lemma KillTestMarks(s: State, e: Event, i: nat)
    requires Enabled(s, e) && i < |s.procs| && i == e.i && e.Run? && ProcOk(s, i)
    requires s.procs[i].op.KillTest? && s.procs[i].k == s.procs[i].l
    ensures s.procs[i].l < |s.procs| && NextProc(s, e, s.procs[i].l).killed
  {
  }

  lemma OwnRunKeepsKill(s: State, e: Event, i: nat)
    requires Enabled(s, e) && i < |s.procs| && i == e.i && KillOk(s, i) && ProcOk(s, i) && e.Run?
    ensures var p, q := s.procs[i], NextProc(s, e, i);
      && (InKill(q.op) && q.l < |s.procs| ==> q.k <= q.l)
      && (q.op.KillUnlock? && q.k == q.l ==> q.l == p.l && p.k == p.l && (p.op.KillUnlock? || (p.op.KillTest? && e.Run?)))
  {
  }

  lemma OwnCallKeepsKill(s: State, e: Event, i: nat)
    requires Enabled(s, e) && i < |s.procs| && i == e.i && KillOk(s, i) && ProcOk(s, i) && !e.Run?
    ensures var p, q := s.procs[i], NextProc(s, e, i);
      && (InKill(q.op) && q.l < |s.procs| ==> q.k <= q.l)
      && (q.op.KillUnlock? && q.k == q.l ==> q.l == p.l && p.k == p.l && (p.op.KillUnlock? || (p.op.KillTest? && e.Run?)))
  {
  }

  lemma OwnStepKeepsKill(s: State, e: Event, i: nat)
    requires Enabled(s, e) && i < |s.procs| && i == e.i && KillOk(s, i) && ProcOk(s, i)
    ensures var p, q := s.procs[i], NextProc(s, e, i);
      && (InKill(q.op) && q.l < |s.procs| ==> q.k <= q.l)
      && (q.op.KillUnlock? && q.k == q.l ==> q.l == p.l && p.k == p.l && (p.op.KillUnlock? || (p.op.KillTest? && e.Run?)))
  {
    hide Enabled, NextProc, KillOk, ProcOk;
    if e.Run? {
      OwnRunKeepsKill(s, e, i);
    } else {
      OwnCallKeepsKill(s, e, i);
    }
  }

  lemma {:induction false} RunKeepsKill(s: State, es: seq<Event>, t: State)
    requires Inv(s) && IsRun(s, es, t) && forall i: nat | i < |s.procs| :: KillOk(s, i)
    ensures Inv(t) && forall i: nat | i < |t.procs| :: KillOk(t, i)
    decreases |es|
  {
    hide KillOk, After, Enabled;
    if es != [] {
      EnabledAt(s, es[0]);
      StepKeepsSize(s, es[0]);
      forall i: nat | i < |s.procs|
        ensures KillOk(After(s, es[0]), i)
      {
        StepKeepsKill(s, es[0], i);
      }
      StepKeepsInv(s, es[0]);
      RunKeepsKill(After(s, es[0]), es[1..], t);
    }
  }

  /** In every run, a kkill that returns has marked its victim, if there is one;
      with WokenForAReason, it and no other process. */
  lemma KillMarksItsVictim(s0: State, es: seq<Event>, s: State, e: Event, i: nat)
    requires Initial(s0) && IsRun(s0, es, s) && Enabled(s, e) && i < |s.procs| && InKill(s.procs[i].op)
    ensures |After(s, e).procs| == |s.procs|
    ensures var p, q := s.procs[i], After(s, e).procs[i];
      (InKill(q.op) && q.l == p.l) || (q.op.Idle? && (p.l < |s.procs| ==> After(s, e).procs[p.l].killed))
  {
    hide After, KillOk;
    InitialInv(s0);
    NobodyKills(s0);
    RunKeepsKill(s0, es, s);
    ProcAfter(s, e, i);
    KillReturns(s, e, i);
  }

  lemma NobodyKills(s: State)
    requires Initial(s)
    ensures forall i: nat | i < |s.procs| :: KillOk(s, i)
  {
  }

  lemma KillReturns(s: State, e: Event, i: nat)
    requires Inv(s) && Enabled(s, e) && i < |s.procs| && KillOk(s, i) && InKill(s.procs[i].op)
    ensures |After(s, e).procs| == |s.procs|
    ensures var p, q := s.procs[i], After(s, e).procs[i];
      (InKill(q.op) && q.l == p.l) || (q.op.Idle? && (p.l < |s.procs| ==> After(s, e).procs[p.l].killed))
  {
    hide After, Inv;
    assert ProcOk(s, i) by { ProcOf(s, i); }
    ProcAfter(s, e, i);
    if s.procs[i].l < |s.procs| {
      WokenForAReason(s, e, s.procs[i].l);
    }
  }
}
