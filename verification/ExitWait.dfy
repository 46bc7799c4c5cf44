/** kfork, kexit and kwait under wait_lock and the process locks, as interleaved
    steps: parents outlive their children, waiters miss no exit, and every
    exited process is collected once, by its parent. A step is a lock operation,
    or a whole critical section that takes no further lock. */
module ExitWait {
  import opened ProcState

  const FREE := -1
  const INIT := 0 // initproc's slot
  const NONE := -1 // no parent, no channel

  datatype Op =
    | Gone // no thread: never started, or exited for good
    | Born // first scheduled: forkret's release(&p->lock)
    | Idle
    // kfork; c is the slot tried
    | ForkClaim // acquire(&np->lock); if it is UNUSED make it USED, else go on
    | ForkFill // allocate and copy memory, release(&np->lock)
    | ForkParent // np->parent = p under wait_lock
    | ForkStart // np->state = RUNNABLE under np->lock
    // kexit; c is reparent's loop, k wakeup's
    | ExitStart // acquire(&wait_lock)
    | ExitScan // if (pp->parent == p) pp->parent = initproc
    | WakeInit // wakeup(initproc)
    | WakeParent // wakeup(p->parent)
    | ExitLock // acquire(&p->lock)
    | ExitZombie // p->state = ZOMBIE; release(&wait_lock)
    | ExitSched // sched(): the scheduler will release p->lock
    // kwait; c is the slot looked at
    | WaitStart // acquire(&wait_lock), also at the end of sleep
    | WaitScan // if (pp->parent == p) look at pp under pp->lock, collect a zombie
    | WaitKilled // killed(p)
    | WaitDone // release(&wait_lock) and return
    // sleep(p, &wait_lock)
    | SlpLock // acquire(&p->lock)
    | SlpRelease // release(&wait_lock)
    | SlpState // p->chan = p; p->state = SLEEPING
    | SlpSched // sched()
    | SlpWoken // off the cpu; later p->chan = 0; release(&p->lock)

  /** A slot of the process table; exits and reaped count the processes that
      became zombies in it and those that were freed from it. */
  datatype Proc = Proc(lock: int, st: RunState, chan: int, killed: bool, parent: int, op: Op, c: nat, k: nat, kids: bool,
                       exits: nat, reaped: nat)

  datatype State = State(procs: seq<Proc>, wait: int)

  datatype Event =
    | CallFork(i: nat)
    | CallExit(i: nat) // not by init, which panics
    | CallWait(i: nat)
    | Run(i: nat) // the next step of a running process
    | ForkFails(i: nat) // out of memory: freeproc(np), release(&np->lock)
    | CopyFails(i: nat) // kwait's copyout of a zombie's status fails
    | Kill(i: nat) // kkill of process i
    | SwitchOut(i: nat) // the scheduler releases the lock of a process that called sched
    | Dispatch(i: nat) // the scheduler runs process i

  /** kfork has claimed slot c. */
  predicate Fills(p: Proc) {
    p.op.ForkFill? || p.op.ForkParent? || p.op.ForkStart?
  }

  predicate InRange(s: State, p: Proc) {
    p.c <= |s.procs| && p.k <= |s.procs| && (Fills(p) || p.op.WakeInit? ==> p.c < |s.procs|)
  }

  /** The other slot a step may touch. */
  function Other(p: Proc): nat {
    if p.op.WakeInit? || p.op.WakeParent? then p.k else p.c
  }

  predicate CanRun(s: State, i: nat)
    requires i < |s.procs| && InRange(s, s.procs[i])
  {
    var p := s.procs[i];
    var o := Other(p);
    && p.st.Running?
    && match p.op
       case Gone => false
       case Idle => false
       case ForkClaim => o == |s.procs| || s.procs[o].lock == FREE
       case ForkParent => s.wait == FREE
       case ForkStart => s.procs[o].lock == FREE
       case ExitStart => s.wait == FREE
       case WakeInit => o == |s.procs| || o == i || s.procs[o].lock == FREE
       case WakeParent => o == |s.procs| || o == i || s.procs[o].lock == FREE
       case ExitLock => p.lock == FREE
       case ExitSched => false
       case WaitStart => s.wait == FREE
       case WaitScan => o == |s.procs| || s.procs[o].parent != i || s.procs[o].lock == FREE
       case WaitKilled => p.lock == FREE
       case SlpLock => p.lock == FREE
       case SlpSched => false
       case _ => true
  }

  function WaitStep(s: State, i: nat): int
    requires i < |s.procs|
  {
    match s.procs[i].op
    case ExitStart => i
    case ExitZombie => FREE
    case WaitStart => i
    case WaitDone => FREE
    case SlpRelease => FREE
    case _ => s.wait
  }

  function Waked(q: Proc, chan: int): Proc {
    if q.st.Sleeping? && q.chan == chan then q.(st := Runnable) else q
  }

  /** freeproc. */
  function Freed(q: Proc): Proc {
    q.(parent := NONE, chan := NONE, killed := false, st := Unused)
  }

  predicate IsZombieChild(q: Proc, i: nat) {
    q.parent == i && q.st.Zombie?
  }

  /** What a step of process i does to slot Other(i). */
  function OtherStep(s: State, i: nat): Proc
    requires i < |s.procs| && Other(s.procs[i]) < |s.procs|
  {
    var p := s.procs[i];
    var q := s.procs[Other(p)];
    match p.op
    case ForkClaim => if q.st.Unused? then q.(st := Used, lock := i) else q
    case ForkFill => q.(lock := FREE)
    case ForkParent => q.(parent := i)
    case ForkStart => q.(st := Runnable, op := Born)
    case ExitScan => if q.parent == i then q.(parent := INIT) else q
    case WakeInit => Waked(q, INIT)
    case WakeParent => Waked(q, p.parent)
    case WaitScan => if IsZombieChild(q, i) then Freed(q).(reaped := q.reaped + 1) else q
    case _ => q
  }

  /** ... and to its own fields. */
  function OwnStep(s: State, i: nat): Proc
    requires i < |s.procs| && InRange(s, s.procs[i])
  {
    var n := |s.procs|;
    var p := s.procs[i];
    match p.op
    case Gone => p
    case Born => p.(lock := FREE, op := Idle)
    case Idle => p
    case ForkClaim =>
      if p.c == n then p.(op := Idle) else if s.procs[p.c].st.Unused? then p.(op := ForkFill) else p.(c := p.c + 1)
    case ForkFill => p.(op := ForkParent)
    case ForkParent => p.(op := ForkStart)
    case ForkStart => p.(op := Idle)
    case ExitStart => p.(op := ExitScan, c := 0)
    case ExitScan =>
      if p.c == n then p.(op := WakeParent, k := 0)
      else if s.procs[p.c].parent == i then p.(op := WakeInit, k := 0)
      else p.(c := p.c + 1)
    case WakeInit => if p.k == n then p.(op := ExitScan, c := p.c + 1) else p.(k := p.k + 1)
    case WakeParent => if p.k == n then p.(op := ExitLock) else p.(k := p.k + 1)
    case ExitLock => p.(lock := i, op := ExitZombie)
    case ExitZombie => p.(st := Zombie, op := ExitSched, exits := p.exits + 1)
    case ExitSched => p
    case WaitStart => p.(op := WaitScan, c := 0, kids := false)
    case WaitScan =>
      if p.c == n then p.(op := if p.kids then WaitKilled else WaitDone)
      else if s.procs[p.c].parent != i then p.(c := p.c + 1)
      else if s.procs[p.c].st.Zombie? then p.(op := WaitDone, kids := true)
      else p.(c := p.c + 1, kids := true)
    case WaitKilled => p.(op := if p.killed then WaitDone else SlpLock)
    case WaitDone => p.(op := Idle)
    case SlpLock => p.(lock := i, op := SlpRelease)
    case SlpRelease => p.(op := SlpState)
    case SlpState => p.(chan := i, st := Sleeping, op := SlpSched)
    case SlpSched => p
    case SlpWoken => p.(chan := NONE, lock := FREE, op := WaitStart)
  }

  predicate Enabled(s: State, e: Event) {
    && e.i < |s.procs| && InRange(s, s.procs[e.i])
    && var p := s.procs[e.i];
       match e
       case CallFork(i) => p.st.Running? && p.op.Idle?
       case CallExit(i) => p.st.Running? && p.op.Idle? && i != INIT
       case CallWait(i) => p.st.Running? && p.op.Idle?
       case Run(i) => CanRun(s, i)
       case ForkFails(i) => p.st.Running? && p.op.ForkFill?
       case CopyFails(i) => CanRun(s, i) && p.op.WaitScan? && p.c < |s.procs| && IsZombieChild(s.procs[p.c], i)
       case Kill(i) => p.lock == FREE
       case SwitchOut(i) => p.op.SlpSched? || p.op.ExitSched?
       case Dispatch(i) => p.lock == FREE && p.st.Runnable?
  }

  /** The acting process after an event other than Run. */
  function Changed(p: Proc, e: Event): Proc {
    match e
    case CallFork(i) => p.(op := ForkClaim, c := 0)
    case CallExit(i) => p.(op := ExitStart)
    case CallWait(i) => p.(op := WaitStart)
    case Run(i) => p
    case ForkFails(i) => p.(op := Idle)
    case CopyFails(i) => p.(op := WaitDone)
    case Kill(i) => p.(killed := true, st := if p.st.Sleeping? then Runnable else p.st)
    case SwitchOut(i) => p.(lock := FREE, op := if p.op.SlpSched? then SlpWoken else Gone)
    case Dispatch(i) => p.(lock := i, st := Running)
  }

  /** Slot x after the event. */
  function NextProc(s: State, e: Event, x: nat): Proc
    requires Enabled(s, e) && x < |s.procs|
  {
    if x == e.i then (if e.Run? then OwnStep(s, x) else Changed(s.procs[x], e))
    else if e.Run? && x == Other(s.procs[e.i]) then OtherStep(s, e.i)
    else if e.ForkFails? && x == s.procs[e.i].c then Freed(s.procs[x]).(lock := FREE)
    else s.procs[x]
  }

  function After(s: State, e: Event): State
    requires Enabled(s, e)
  {
    State(seq(|s.procs|, x requires 0 <= x < |s.procs| => NextProc(s, e, x)), if e.Run? then WaitStep(s, e.i) else s.wait)
  }

  lemma AfterAt(s: State, e: Event, x: nat)
    requires Enabled(s, e) && x < |s.procs|
    ensures |After(s, e).procs| == |s.procs| && After(s, e).procs[x] == NextProc(s, e, x)
    ensures After(s, e).wait == if e.Run? then WaitStep(s, e.i) else s.wait
  {
  }

  // ----- the invariant -----

  predicate Exits(p: Proc) {
    || p.op.ExitStart? || p.op.ExitScan? || p.op.WakeInit? || p.op.WakeParent?
    || p.op.ExitLock? || p.op.ExitZombie? || p.op.ExitSched?
  }

  predicate Started(p: Proc) {
    !p.st.Unused? && !p.st.Used?
  }

  /** A started process that has not exited. */
  predicate Live(p: Proc) {
    Started(p) && !p.st.Zombie?
  }

  /** Each slot by itself. */
  predicate SlotOk(s: State, i: nat)
    requires i < |s.procs|
  {
    var p := s.procs[i];
    && InRange(s, p)
    && (p.lock == FREE || 0 <= p.lock < |s.procs|)
    && (p.st.Unused? || p.st.Used? ==> p.op.Gone?)
    && (p.op.Gone? ==> p.st.Unused? || p.st.Used? || p.st.Zombie?)
    && (p.st.Runnable? ==> p.op.Born? || p.op.SlpWoken?)
    && (p.st.Sleeping? ==> p.op.SlpSched? || p.op.SlpWoken?)
    && (p.st.Zombie? ==> p.op.ExitSched? || p.op.Gone?)
    && (p.op.ExitSched? ==> p.st.Zombie?)
    && (p.op.SlpSched? ==> p.st.Sleeping?)
    && (p.op.SlpSched? || p.op.SlpWoken? ==> p.chan == i)
    && (i == INIT ==> Live(p) && !Exits(p))
    && p.exits == p.reaped + (if p.st.Zombie? then 1 else 0)
  }

  predicate HasWait(p: Proc) {
    || p.op.ExitScan? || p.op.WakeInit? || p.op.WakeParent? || p.op.ExitLock? || p.op.ExitZombie?
    || p.op.WaitScan? || p.op.WaitKilled? || p.op.WaitDone? || p.op.SlpLock? || p.op.SlpRelease?
  }

  predicate WaitOk(s: State, i: nat)
    requires i < |s.procs|
  {
    HasWait(s.procs[i]) <==> s.wait == i
  }

  predicate HasPlock(p: Proc, i: nat, k: nat) {
    || (k == i && (p.op.ExitZombie? || p.op.ExitSched? || p.op.SlpRelease? || p.op.SlpState? || p.op.SlpSched?))
    || (k == i && p.st.Running? && (p.op.Born? || p.op.SlpWoken?))
    || (k == p.c && p.op.ForkFill?)
  }

  predicate PlockOk(s: State, i: nat, k: nat)
    requires i < |s.procs| && k < |s.procs|
  {
    HasPlock(s.procs[i], i, k) <==> s.procs[k].lock == i
  }

  /** A parent is a live process; every started process but init has one. */
  predicate ParentOk(s: State, k: nat)
    requires k < |s.procs|
  {
    var q := s.procs[k];
    && (q.parent == NONE || (0 <= q.parent < |s.procs| && q.parent != k && Live(s.procs[q.parent])))
    && (Started(q) && k != INIT ==> q.parent != NONE)
    && (q.st.Unused? || k == INIT ==> q.parent == NONE)
  }

  /** kfork's slot is its own. */
  predicate FillOk(s: State, i: nat)
    requires i < |s.procs|
  {
    var p := s.procs[i];
    Fills(p) ==> p.c < |s.procs| && p.c != i && s.procs[p.c].st.Used?
                 && s.procs[p.c].parent == if p.op.ForkStart? then i else NONE
  }

  predicate FillersApart(s: State, i: nat, j: nat)
    requires i < |s.procs| && j < |s.procs|
  {
    i != j && Fills(s.procs[i]) && Fills(s.procs[j]) ==> s.procs[i].c != s.procs[j].c
  }

  /** An exiting process has given away the children before its place in the
      loop, in the end all. */
  predicate Disowned(s: State, i: nat, k: nat)
    requires i < |s.procs| && k < |s.procs|
  {
    var p := s.procs[i];
    && (p.op.ExitScan? && k < p.c ==> s.procs[k].parent != i)
    && (p.op.WakeInit? && k <= p.c ==> s.procs[k].parent != i)
    && (p.op.WakeParent? || p.op.ExitLock? || p.op.ExitZombie? ==> s.procs[k].parent != i)
  }

  /** kwait has missed no zombie, and no child unless kids is set, in the slots
      it has passed. */
  predicate Scanned(s: State, i: nat, k: nat)
    requires i < |s.procs| && k < |s.procs|
  {
    var p := s.procs[i];
    && (p.op.WaitScan? && k < p.c ==> !IsZombieChild(s.procs[k], i) && (s.procs[k].parent == i ==> p.kids))
    && (p.op.WaitKilled? || p.op.SlpLock? || p.op.SlpRelease? ==> !IsZombieChild(s.procs[k], i))
  }

  /** Committed to sleeping in kwait, or asleep there. */
  predicate Awaits(p: Proc) {
    p.op.SlpState? || p.op.SlpSched? || (p.op.SlpWoken? && p.st.Sleeping?)
  }

  /** A process that is reparenting will still wake init. */
  predicate InitPending(s: State) {
    0 <= s.wait < |s.procs| && s.wait != INIT && s.procs[s.wait].op.WakeInit? && s.procs[s.wait].k <= INIT
  }

  /** Nobody sleeps in kwait with a zombie child. */
  predicate NotMissed(s: State, i: nat, k: nat)
    requires i < |s.procs| && k < |s.procs|
  {
    Awaits(s.procs[i]) && IsZombieChild(s.procs[k], i) ==> i == INIT && InitPending(s)
  }

  /** About to become a zombie, k has woken its parent i. */
  predicate ParentWoken(s: State, i: nat, k: nat)
    requires i < |s.procs| && k < |s.procs|
  {
    var q := s.procs[k];
    q.parent == i && ((q.op.WakeParent? && q.k > i) || q.op.ExitLock? || q.op.ExitZombie?) ==> !Awaits(s.procs[i])
  }

  lemma OwnStepKeepsSlot(s: State, e: Event, i: nat)
    requires Enabled(s, e) && i < |s.procs| && SlotOk(s, i) && SlotOk(s, e.i)
    requires i == e.i
    requires FillOk(s, e.i) && ParentOk(s, i) && PlockOk(s, e.i, i) && PlockOk(s, i, i)
    ensures |After(s, e).procs| == |s.procs| && SlotOk(After(s, e), i)
  {
    hide After;
    AfterAt(s, e, i);
  }

  lemma OtherStepKeepsSlot(s: State, e: Event, i: nat)
    requires Enabled(s, e) && i < |s.procs| && SlotOk(s, i) && SlotOk(s, e.i)
    requires i != e.i
    requires FillOk(s, e.i) && ParentOk(s, i) && PlockOk(s, e.i, i) && PlockOk(s, i, i)
    ensures |After(s, e).procs| == |s.procs| && SlotOk(After(s, e), i)
  {
    hide After;
    AfterAt(s, e, i);
  }

  lemma StepKeepsWait(s: State, e: Event, i: nat)
    requires Enabled(s, e) && i < |s.procs| && WaitOk(s, i) && WaitOk(s, e.i)
    requires SlotOk(s, i) && SlotOk(s, e.i) && FillOk(s, e.i)
    ensures |After(s, e).procs| == |s.procs| && WaitOk(After(s, e), i)
  {
    hide After;
    AfterAt(s, e, i);
  }

  lemma StepKeepsOwnPlock(s: State, e: Event, i: nat, k: nat)
    requires Enabled(s, e) && i < |s.procs| && k < |s.procs| && k == i
    requires PlockOk(s, i, k) && PlockOk(s, e.i, k) && PlockOk(s, e.i, i) && PlockOk(s, i, i)
    requires SlotOk(s, i) && SlotOk(s, e.i) && FillOk(s, e.i) && ParentOk(s, i)
    ensures |After(s, e).procs| == |s.procs| && PlockOk(After(s, e), i, k)
  {
    hide After;
    AfterAt(s, e, i);
    AfterAt(s, e, k);
  }

  lemma StepKeepsOtherPlock(s: State, e: Event, i: nat, k: nat)
    requires Enabled(s, e) && i < |s.procs| && k < |s.procs| && k != i
    requires PlockOk(s, i, k) && PlockOk(s, e.i, k) && PlockOk(s, e.i, i) && PlockOk(s, i, i)
    requires SlotOk(s, i) && SlotOk(s, e.i) && FillOk(s, e.i) && ParentOk(s, i)
    ensures |After(s, e).procs| == |s.procs| && PlockOk(After(s, e), i, k)
  {
    hide After;
    AfterAt(s, e, i);
    AfterAt(s, e, k);
  }

  /** Only kexit ends a live process. */
  lemma LiveStays(s: State, e: Event, y: nat)
    requires Enabled(s, e) && y < |s.procs| && Live(s.procs[y]) && SlotOk(s, e.i) && FillOk(s, e.i)
    ensures |After(s, e).procs| == |s.procs|
    ensures Live(After(s, e).procs[y]) || (e == Run(y) && s.procs[y].op.ExitZombie?)
  {
    hide After;
    AfterAt(s, e, y);
  }

  lemma StepKeepsParent(s: State, e: Event, k: nat)
    requires Enabled(s, e) && k < |s.procs| && ParentOk(s, k) && SlotOk(s, k) && SlotOk(s, e.i) && SlotOk(s, INIT)
    requires FillOk(s, e.i) && Disowned(s, e.i, k)
    ensures |After(s, e).procs| == |s.procs| && ParentOk(After(s, e), k)
  {
    hide After;
    AfterAt(s, e, k);
    LiveStays(s, e, INIT);
    if Live(s.procs[e.i]) {
      LiveStays(s, e, e.i);
    }
    if s.procs[k].parent != NONE {
      LiveStays(s, e, s.procs[k].parent);
    }
  }

  lemma OwnStepKeepsFill(s: State, e: Event, i: nat)
    requires Enabled(s, e) && i < |s.procs| && SlotOk(s, i) && SlotOk(s, e.i)
    requires i == e.i
    requires FillOk(s, i) && FillOk(s, e.i) && FillersApart(s, i, e.i)
    requires s.procs[i].c < |s.procs| ==> SlotOk(s, s.procs[i].c) && ParentOk(s, s.procs[i].c)
    ensures |After(s, e).procs| == |s.procs| && FillOk(After(s, e), i)
  {
    hide After;
    AfterAt(s, e, i);
    if s.procs[i].c < |s.procs| {
      AfterAt(s, e, s.procs[i].c);
    }
  }

  lemma OtherStepKeepsFill(s: State, e: Event, i: nat)
    requires Enabled(s, e) && i < |s.procs| && SlotOk(s, i) && SlotOk(s, e.i)
    requires i != e.i
    requires FillOk(s, i) && FillOk(s, e.i) && FillersApart(s, i, e.i)
    requires s.procs[i].c < |s.procs| ==> SlotOk(s, s.procs[i].c) && ParentOk(s, s.procs[i].c)
    ensures |After(s, e).procs| == |s.procs| && FillOk(After(s, e), i)
  {
    hide After;
    AfterAt(s, e, i);
    if s.procs[i].c < |s.procs| {
      AfterAt(s, e, s.procs[i].c);
    }
  }

  lemma StepKeepsFillersApart(s: State, e: Event, i: nat, j: nat)
    requires Enabled(s, e) && i < |s.procs| && j < |s.procs| && SlotOk(s, i) && SlotOk(s, j) && SlotOk(s, e.i)
    requires FillOk(s, i) && FillOk(s, j) && FillOk(s, e.i) && FillersApart(s, i, j)
    ensures |After(s, e).procs| == |s.procs| && FillersApart(After(s, e), i, j)
  {
    hide After;
    AfterAt(s, e, i);
    AfterAt(s, e, j);
  }

  lemma OwnStepKeepsDisowned(s: State, e: Event, i: nat, k: nat)
    requires Enabled(s, e) && i < |s.procs| && k < |s.procs| && Disowned(s, i, k)
    requires i == e.i
    requires SlotOk(s, i) && SlotOk(s, e.i) && FillOk(s, e.i) && WaitOk(s, i) && WaitOk(s, e.i) && ParentOk(s, k)
    ensures |After(s, e).procs| == |s.procs| && Disowned(After(s, e), i, k)
  {
    hide After;
    AfterAt(s, e, i);
    AfterAt(s, e, k);
  }

  lemma OtherStepKeepsDisowned(s: State, e: Event, i: nat, k: nat)
    requires Enabled(s, e) && i < |s.procs| && k < |s.procs| && Disowned(s, i, k)
    requires i != e.i
    requires SlotOk(s, i) && SlotOk(s, e.i) && FillOk(s, e.i) && WaitOk(s, i) && WaitOk(s, e.i) && ParentOk(s, k)
    ensures |After(s, e).procs| == |s.procs| && Disowned(After(s, e), i, k)
  {
    hide After;
    AfterAt(s, e, i);
    AfterAt(s, e, k);
  }

  lemma OwnStepKeepsScanned(s: State, e: Event, i: nat, k: nat)
    requires Enabled(s, e) && i < |s.procs| && k < |s.procs| && Scanned(s, i, k)
    requires i == e.i
    requires SlotOk(s, i) && SlotOk(s, k) && SlotOk(s, e.i) && FillOk(s, e.i) && WaitOk(s, i) && WaitOk(s, e.i) && ParentOk(s, k)
    ensures |After(s, e).procs| == |s.procs| && Scanned(After(s, e), i, k)
  {
    hide After;
    AfterAt(s, e, i);
    AfterAt(s, e, k);
  }

  lemma OtherStepKeepsScanned(s: State, e: Event, i: nat, k: nat)
    requires Enabled(s, e) && i < |s.procs| && k < |s.procs| && Scanned(s, i, k)
    requires i != e.i
    requires SlotOk(s, i) && SlotOk(s, k) && SlotOk(s, e.i) && FillOk(s, e.i) && WaitOk(s, i) && WaitOk(s, e.i) && ParentOk(s, k)
    ensures |After(s, e).procs| == |s.procs| && Scanned(After(s, e), i, k)
  {
    hide After;
    AfterAt(s, e, i);
    AfterAt(s, e, k);
  }

  lemma OwnStepKeepsNotMissed(s: State, e: Event, i: nat, k: nat)
    requires Enabled(s, e) && i < |s.procs| && k < |s.procs| && NotMissed(s, i, k) && Scanned(s, i, k) && ParentWoken(s, i, k)
    requires i == e.i
    requires SlotOk(s, i) && SlotOk(s, k) && SlotOk(s, e.i) && FillOk(s, e.i) && PlockOk(s, i, i)
    requires WaitOk(s, i) && WaitOk(s, e.i) && ParentOk(s, k)
    requires 0 <= s.wait < |s.procs| ==> SlotOk(s, s.wait)
    ensures |After(s, e).procs| == |s.procs| && NotMissed(After(s, e), i, k)
  {
    hide After;
    AfterAt(s, e, i);
    AfterAt(s, e, k);
    AfterAt(s, e, e.i);
    if 0 <= s.wait < |s.procs| {
      AfterAt(s, e, s.wait);
    }
  }

  lemma OtherStepKeepsNotMissed(s: State, e: Event, i: nat, k: nat)
    requires Enabled(s, e) && i < |s.procs| && k < |s.procs| && NotMissed(s, i, k) && Scanned(s, i, k) && ParentWoken(s, i, k)
    requires i != e.i
    requires SlotOk(s, i) && SlotOk(s, k) && SlotOk(s, e.i) && FillOk(s, e.i) && PlockOk(s, i, i)
    requires WaitOk(s, i) && WaitOk(s, e.i) && ParentOk(s, k)
    requires 0 <= s.wait < |s.procs| ==> SlotOk(s, s.wait)
    ensures |After(s, e).procs| == |s.procs| && NotMissed(After(s, e), i, k)
  {
    hide After;
    AfterAt(s, e, i);
    AfterAt(s, e, k);
    AfterAt(s, e, e.i);
    if 0 <= s.wait < |s.procs| {
      AfterAt(s, e, s.wait);
    }
  }

  lemma OwnStepKeepsParentWoken(s: State, e: Event, i: nat, k: nat)
    requires Enabled(s, e) && i < |s.procs| && k < |s.procs| && ParentWoken(s, i, k)
    requires i == e.i
    requires SlotOk(s, i) && SlotOk(s, k) && SlotOk(s, e.i) && FillOk(s, e.i) && PlockOk(s, i, i) && ParentOk(s, k)
    requires WaitOk(s, i) && WaitOk(s, k) && WaitOk(s, e.i)
    ensures |After(s, e).procs| == |s.procs| && ParentWoken(After(s, e), i, k)
  {
    hide After;
    AfterAt(s, e, i);
    AfterAt(s, e, k);
  }

  lemma OtherStepKeepsParentWoken(s: State, e: Event, i: nat, k: nat)
    requires Enabled(s, e) && i < |s.procs| && k < |s.procs| && ParentWoken(s, i, k)
    requires i != e.i
    requires SlotOk(s, i) && SlotOk(s, k) && SlotOk(s, e.i) && FillOk(s, e.i) && PlockOk(s, i, i) && ParentOk(s, k)
    requires WaitOk(s, i) && WaitOk(s, k) && WaitOk(s, e.i)
    ensures |After(s, e).procs| == |s.procs| && ParentWoken(After(s, e), i, k)
  {
    hide After;
    AfterAt(s, e, i);
    AfterAt(s, e, k);
  }

  // ----- runs -----

  ghost predicate Inv(s: State) {
    && INIT < |s.procs|
    && (forall i: nat | i < |s.procs| :: SlotOk(s, i) && WaitOk(s, i) && ParentOk(s, i) && FillOk(s, i))
    && (forall i: nat, k: nat | i < |s.procs| && k < |s.procs| :: PlockOk(s, i, k) && FillersApart(s, i, k))
    && (forall i: nat, k: nat | i < |s.procs| && k < |s.procs| :: Disowned(s, i, k) && Scanned(s, i, k))
    && (forall i: nat, k: nat | i < |s.procs| && k < |s.procs| :: NotMissed(s, i, k) && ParentWoken(s, i, k))
  }

  lemma EnabledAt(s: State, e: Event)
    requires Enabled(s, e)
    ensures e.i < |s.procs| && |After(s, e).procs| == |s.procs|
  {
  }

  lemma StepKeepsSlots(s: State, e: Event, i: nat)
    requires Inv(s) && Enabled(s, e) && i < |s.procs|
    ensures |After(s, e).procs| == |s.procs|
    ensures SlotOk(After(s, e), i) && WaitOk(After(s, e), i) && ParentOk(After(s, e), i) && FillOk(After(s, e), i)
  {
    hide After, Enabled, SlotOk, WaitOk, ParentOk, FillOk, PlockOk, FillersApart, Disowned, Scanned, NotMissed, ParentWoken;
    EnabledAt(s, e);
    var j := e.i;
    assert SlotOk(s, i) && SlotOk(s, j) && FillOk(s, j) && ParentOk(s, i) && PlockOk(s, j, i) && PlockOk(s, i, i);
    assert FillersApart(s, i, j) && Disowned(s, j, i) && WaitOk(s, j) && SlotOk(s, INIT);
    StepKeepsWait(s, e, i);
    StepKeepsParent(s, e, i);
    if i == e.i {
      OwnStepKeepsSlot(s, e, i);
      OwnStepKeepsFill(s, e, i);
    } else {
      OtherStepKeepsSlot(s, e, i);
      OtherStepKeepsFill(s, e, i);
    }
  }

  lemma StepKeepsPairs(s: State, e: Event, i: nat, k: nat)
    requires Inv(s) && Enabled(s, e) && i < |s.procs| && k < |s.procs|
    ensures |After(s, e).procs| == |s.procs| && PlockOk(After(s, e), i, k) && FillersApart(After(s, e), i, k)
    ensures Disowned(After(s, e), i, k) && Scanned(After(s, e), i, k)
    ensures NotMissed(After(s, e), i, k) && ParentWoken(After(s, e), i, k)
  {
    hide After, Enabled, SlotOk, WaitOk, ParentOk, FillOk, PlockOk, FillersApart, Disowned, Scanned, NotMissed, ParentWoken;
    EnabledAt(s, e);
    var j := e.i;
    assert SlotOk(s, i) && SlotOk(s, k) && SlotOk(s, j) && FillOk(s, j) && FillOk(s, k) && ParentOk(s, i) && ParentOk(s, k);
    assert WaitOk(s, i) && WaitOk(s, j) && WaitOk(s, k);
    assert PlockOk(s, i, k) && PlockOk(s, j, k) && PlockOk(s, j, i) && PlockOk(s, i, i) && FillersApart(s, i, k);
    assert Disowned(s, i, k) && Scanned(s, i, k) && NotMissed(s, i, k) && ParentWoken(s, i, k);
    if k == i {
      StepKeepsOwnPlock(s, e, i, k);
    } else {
      StepKeepsOtherPlock(s, e, i, k);
    }
    StepKeepsFillersApart(s, e, i, k);
    if i == e.i {
      OwnStepKeepsDisowned(s, e, i, k);
      OwnStepKeepsParentWoken(s, e, i, k);
      OwnStepKeepsScanned(s, e, i, k);
      OwnStepKeepsNotMissed(s, e, i, k);
    } else {
      OtherStepKeepsDisowned(s, e, i, k);
      OtherStepKeepsParentWoken(s, e, i, k);
      OtherStepKeepsScanned(s, e, i, k);
      OtherStepKeepsNotMissed(s, e, i, k);
    }
  }

  lemma StepKeepsInv(s: State, e: Event)
    requires Inv(s) && Enabled(s, e)
    ensures Inv(After(s, e))
  {
    var t := After(s, e);
    assert INIT < |s.procs|;
    hide After, Enabled, SlotOk, WaitOk, ParentOk, FillOk, PlockOk, FillersApart, Disowned, Scanned, NotMissed, ParentWoken, Inv;
    EnabledAt(s, e);
    forall i: nat | i < |s.procs|
      ensures SlotOk(t, i) && WaitOk(t, i) && ParentOk(t, i) && FillOk(t, i)
    {
      StepKeepsSlots(s, e, i);
    }
    forall i: nat, k: nat | i < |s.procs| && k < |s.procs|
      ensures PlockOk(t, i, k) && FillersApart(t, i, k) && Disowned(t, i, k) && Scanned(t, i, k)
      ensures NotMissed(t, i, k) && ParentWoken(t, i, k)
    {
      StepKeepsPairs(s, e, i, k);
    }
    InvFrom(t);
  }

  lemma InvFrom(t: State)
    requires INIT < |t.procs|
    requires forall i: nat | i < |t.procs| :: SlotOk(t, i) && WaitOk(t, i) && ParentOk(t, i) && FillOk(t, i)
    requires forall i: nat, k: nat | i < |t.procs| && k < |t.procs| ::
               PlockOk(t, i, k) && FillersApart(t, i, k) && Disowned(t, i, k) && Scanned(t, i, k)
    requires forall i: nat, k: nat | i < |t.procs| && k < |t.procs| :: NotMissed(t, i, k) && ParentWoken(t, i, k)
    ensures Inv(t)
  {
    hide SlotOk, WaitOk, ParentOk, FillOk, PlockOk, FillersApart, Disowned, Scanned, NotMissed, ParentWoken;
  }

  /** userinit has run: init is ready to start, every other slot is unused. */
  ghost predicate Initial(s: State) {
    && INIT < |s.procs| && s.wait == FREE
    && s.procs[INIT] == Proc(FREE, Runnable, NONE, false, NONE, Born, 0, 0, false, 0, 0)
    && forall i | 0 < i < |s.procs| :: s.procs[i] == Proc(FREE, Unused, NONE, false, NONE, Gone, 0, 0, false, 0, 0)
  }

  ghost predicate IsRun(s: State, es: seq<Event>, t: State)
    decreases |es|
  {
    if es == [] then t == s else Enabled(s, es[0]) && IsRun(After(s, es[0]), es[1..], t)
  }

  lemma {:induction false} RunKeepsInv(s: State, es: seq<Event>, t: State)
    requires Inv(s) && IsRun(s, es, t)
    ensures Inv(t)
    decreases |es|
  {
    if es != [] {
      StepKeepsInv(s, es[0]);
      RunKeepsInv(After(s, es[0]), es[1..], t);
    }
  }

  lemma InitialInv(s: State)
    requires Initial(s)
    ensures Inv(s)
  {
  }

  /** A started process other than init has a live parent. */
  predicate ParentFact(t: State, k: nat)
    requires k < |t.procs|
  {
    var q := t.procs[k];
    Started(q) && k != INIT ==> 0 <= q.parent < |t.procs| && q.parent != k && Live(t.procs[q.parent])
  }

  /** In every state of every run: each started process but init has a parent
      that is started and no zombie; whenever wait_lock is free no process
      sleeps in kwait, or is about to, with a zombie child; and each exit has
      been collected once, except that of a slot still a zombie. */
  lemma {:induction false} ExitsAreSafe(s: State, es: seq<Event>, t: State)
    requires Initial(s) && IsRun(s, es, t)
    ensures forall k: nat | k < |t.procs| :: ParentFact(t, k)
    ensures t.wait == FREE ==> forall i: nat, k: nat | i < |t.procs| && k < |t.procs| ::
              Awaits(t.procs[i]) ==> !IsZombieChild(t.procs[k], i)
    ensures forall k: nat | k < |t.procs| ::
              t.procs[k].exits == t.procs[k].reaped + (if t.procs[k].st.Zombie? then 1 else 0)
  {
    InitialInv(s);
    RunKeepsInv(s, es, t);
    forall k: nat | k < |t.procs|
      ensures ParentFact(t, k) && t.procs[k].exits == t.procs[k].reaped + (if t.procs[k].st.Zombie? then 1 else 0)
    {
      assert ParentOk(t, k) && SlotOk(t, k);
    }
    forall i: nat, k: nat | i < |t.procs| && k < |t.procs| && t.wait == FREE
      ensures Awaits(t.procs[i]) ==> !IsZombieChild(t.procs[k], i)
    {
      assert NotMissed(t, i, k);
    }
  }

  /** As freeproc leaves a slot. */
  predicate IsFreed(p: Proc) {
    p.st.Unused? && p.parent == NONE && p.chan == NONE && !p.killed
  }

  /** A zombie stays one until its current parent's kwait collects it, having
      copied its status: a failed copy loses nothing. */
  lemma ZombiesAwaitTheirParent(s: State, e: Event, k: nat)
    requires Inv(s) && Enabled(s, e) && k < |s.procs| && s.procs[k].st.Zombie?
    ensures |After(s, e).procs| == |s.procs|
    ensures var q, q' := s.procs[k], After(s, e).procs[k];
      if q'.st.Zombie? then q'.reaped == q.reaped && (q'.parent == q.parent || q'.parent == INIT)
      else IsFreed(q') && q'.reaped == q.reaped + 1 && e == Run(q.parent) && s.procs[e.i].op.WaitScan?
  {
    hide After;
    AfterAt(s, e, k);
    assert SlotOk(s, k) && SlotOk(s, e.i) && FillOk(s, e.i);
  }

  /** kwait returns without a child only if it has none: no slot names it as its
      parent when it leaves the loop with kids unset. */
  lemma NoKidsMeansNone(s: State, i: nat, k: nat)
    requires Inv(s) && i < |s.procs| && k < |s.procs|
    requires s.procs[i].op.WaitScan? && s.procs[i].c == |s.procs| && !s.procs[i].kids
    ensures s.procs[k].parent != i
  {
    assert Scanned(s, i, k);
  }

  // ----- why the calls return -----

  predicate Forks(p: Proc) {
    p.op.ForkClaim? || Fills(p)
  }

  /** In kwait, before its return. */
  predicate Waits(p: Proc) {
    || p.op.WaitStart? || p.op.WaitScan? || p.op.WaitKilled?
    || p.op.SlpLock? || p.op.SlpRelease? || p.op.SlpState? || p.op.SlpSched? || p.op.SlpWoken?
  }

  /** Process i has found a zombie child in slot k, and has collected it or failed
      to copy its status. */
  predicate FoundZombie(s: State, t: State, i: nat, k: nat)
    requires i < |s.procs| == |t.procs| && k < |s.procs|
  {
    && s.procs[k].parent == i && s.procs[k].st.Zombie?
    && (t.procs[k] == s.procs[k] || (t.procs[k].st.Unused? && t.procs[k].reaped == s.procs[k].reaped + 1))
  }

  /** Why kwait returns: it has found a zombie child, it has no child at all, or
      it has been killed. */
  ghost predicate WaitReason(s: State, t: State, i: nat)
    requires i < |s.procs| == |t.procs|
  {
    || (exists k: nat :: k < |s.procs| && FoundZombie(s, t, i, k))
    || (forall k: nat | k < |s.procs| :: s.procs[k].parent != i)
    || s.procs[i].killed
  }

  /** In every run, a process in kwait goes on in kwait, or returns for one of
      these reasons. */
  lemma WaitReturnsForAReason(s0: State, es: seq<Event>, s: State, e: Event, i: nat)
    requires Initial(s0) && IsRun(s0, es, s) && Enabled(s, e) && i < |s.procs| && Waits(s.procs[i])
    ensures |After(s, e).procs| == |s.procs|
    ensures Waits(After(s, e).procs[i]) || (After(s, e).procs[i].op.WaitDone? && WaitReason(s, After(s, e), i))
  {
    hide After, Enabled, Initial, IsRun;
    InitialInv(s0);
    RunKeepsInv(s0, es, s);
    WaitStepReason(s, e, i);
  }

  lemma WaitStepReason(s: State, e: Event, i: nat)
    requires Inv(s) && Enabled(s, e) && i < |s.procs| && Waits(s.procs[i])
    ensures |After(s, e).procs| == |s.procs|
    ensures Waits(After(s, e).procs[i]) || (After(s, e).procs[i].op.WaitDone? && WaitReason(s, After(s, e), i))
  {
    hide After, Inv, FoundZombie;
    var p := s.procs[i];
    AfterAt(s, e, i);
    SlotsOf(s, i, e.i);
    if e.i == i && p.op.WaitScan? {
      if p.c == |s.procs| && !p.kids {
        forall k: nat | k < |s.procs|
          ensures s.procs[k].parent != i
        {
          NoKidsMeansNone(s, i, k);
        }
      } else if p.c < |s.procs| && IsZombieChild(s.procs[p.c], i) {
        CollectedOrNot(s, e, i);
      }
    }
  }

  lemma SlotsOf(s: State, i: nat, j: nat)
    requires Inv(s) && i < |s.procs| && j < |s.procs|
    ensures SlotOk(s, i) && SlotOk(s, j) && FillOk(s, j) && WaitOk(s, i) && ParentOk(s, i)
  {
  }

  lemma CollectedOrNot(s: State, e: Event, i: nat)
    requires Inv(s) && Enabled(s, e) && e.i == i < |s.procs| && s.procs[i].op.WaitScan? && s.procs[i].c < |s.procs|
    requires IsZombieChild(s.procs[s.procs[i].c], i) && (e.Run? || e.CopyFails? || e.Kill?)
    ensures |After(s, e).procs| == |s.procs|
    ensures FoundZombie(s, After(s, e), i, s.procs[i].c)
  {
    hide After, Inv;
    SlotsOf(s, s.procs[i].c, i);
    AfterAt(s, e, s.procs[i].c);
  }

  /** A pass of kwait that does not return ends asleep: a process that has begun
      to look for zombies comes to WaitStart, for another pass, only after it was
      SLEEPING and somebody made it RUNNABLE. */
  predicate Looks(p: Proc) {
    p.op.WaitScan? || p.op.WaitKilled? || p.op.SlpLock? || p.op.SlpRelease? || p.op.SlpState?
  }

  /** A wakeup of process i by a child that exits, or of init by a process that
      gives it its children. */
  predicate WakesParent(s: State, e: Event, i: nat)
    requires e.i < |s.procs|
  {
    && e.Run?
    && var x := s.procs[e.i];
       (x.op.WakeParent? && x.parent == i) || (x.op.WakeInit? && i == INIT)
  }

  lemma PassEndsAsleep(s: State, e: Event, i: nat)
    requires Inv(s) && Enabled(s, e) && i < |s.procs|
    ensures |After(s, e).procs| == |s.procs|
    ensures var p, q := s.procs[i], After(s, e).procs[i];
      && (Looks(p) && !Looks(q) ==> q.op.WaitDone? || (q.st.Sleeping? && q.chan == i && !p.st.Sleeping?))
      && (!Looks(p) && Looks(q) ==> p.op.WaitStart?)
      && (!p.op.WaitStart? && q.op.WaitStart? ==> e == CallWait(i) || (p.op.SlpWoken? && p.st.Running?))
      && (p.st.Sleeping? && !q.st.Sleeping? ==> q.st.Runnable? && (e == Kill(i) || WakesParent(s, e, i)))
      && (p.op.WaitDone? && !q.op.WaitDone? ==> q.op.Idle?)
  {
    hide After, Inv;
    AfterAt(s, e, i);
    SlotsOf(s, i, e.i);
  }

  /** The child that p's kfork has made is ready to run. */
  predicate HasChild(p: Proc, t: State, i: nat) {
    p.op.ForkStart? && p.c < |t.procs| && t.procs[p.c].st.Runnable? && t.procs[p.c].op.Born? && t.procs[p.c].parent == i
  }

  /** kfork begins at slot 0. */
  lemma ForkBegins(s: State, e: Event, i: nat)
    requires Inv(s) && Enabled(s, e) && i < |s.procs| && !Forks(s.procs[i])
    ensures |After(s, e).procs| == |s.procs|
    ensures var q := After(s, e).procs[i]; Forks(q) ==> e == CallFork(i) && q.c == 0
  {
    hide After, Inv;
    AfterAt(s, e, i);
    SlotsOf(s, i, e.i);
  }

  /** kfork ends with a child that is RUNNABLE and its own, when allocation of
      memory has failed, or after it has passed every slot; it passes a slot only
      if it is in use. */
  lemma ForkEnds(s: State, e: Event, i: nat)
    requires Inv(s) && Enabled(s, e) && i < |s.procs| && Forks(s.procs[i])
    ensures |After(s, e).procs| == |s.procs|
    ensures var p, q := s.procs[i], After(s, e).procs[i];
      && (!Forks(q) ==> q.op.Idle? && (HasChild(p, After(s, e), i) || e == ForkFails(i) || (p.op.ForkClaim? && p.c == |s.procs|)))
      && (e == ForkFails(i) ==> p.c < |s.procs| && IsFreed(After(s, e).procs[p.c]) && After(s, e).procs[p.c].lock == FREE)
      && (Forks(q) && q.c != p.c ==> p.c < |s.procs| && !s.procs[p.c].st.Unused? && q.c == p.c + 1)
  {
    hide After, Inv;
    var p := s.procs[i];
    AfterAt(s, e, i);
    SlotsOf(s, i, e.i);
    if p.c < |s.procs| {
      SlotsOf(s, p.c, e.i);
      SlotsOf(s, p.c, i);
      AfterAt(s, e, p.c);
    }
  }

  /** A call begins when it is called, and ends as the lemmas here say. */
  lemma CallsBegin(s: State, e: Event, i: nat)
    requires Inv(s) && Enabled(s, e) && i < |s.procs|
    ensures |After(s, e).procs| == |s.procs|
    ensures var p, q := s.procs[i], After(s, e).procs[i];
      && (e == CallFork(i) ==> Forks(q)) && (e == CallExit(i) ==> Exits(q)) && (e == CallWait(i) ==> Waits(q))
      && (Exits(q) ==> Exits(p) || e == CallExit(i))
      && (Waits(q) ==> Waits(p) || e == CallWait(i))
      && (p.op.Idle? && !q.op.Idle? ==> Forks(q) || Exits(q) || Waits(q))
  {
    hide After, Inv;
    AfterAt(s, e, i);
    SlotsOf(s, i, e.i);
  }

  /** kexit does not return: a process in it goes on, or is a zombie for good. */
  lemma ExitEndsAsZombie(s: State, e: Event, i: nat)
    requires Inv(s) && Enabled(s, e) && i < |s.procs| && Exits(s.procs[i])
    ensures |After(s, e).procs| == |s.procs|
    ensures var q := After(s, e).procs[i]; Exits(q) || (q.op.Gone? && q.st.Zombie?)
  {
    hide After, Inv;
    AfterAt(s, e, i);
    SlotsOf(s, i, e.i);
  }

  /** A process gets the mark killed by kkill of it and by nothing else, and keeps
      it until its slot is freed; a sleeping one then runs again. */
  lemma KilledExactly(s: State, e: Event, i: nat)
    requires Inv(s) && Enabled(s, e) && i < |s.procs|
    ensures |After(s, e).procs| == |s.procs|
    ensures var p, q := s.procs[i], After(s, e).procs[i];
      && q.killed == ((p.killed || e == Kill(i)) && !(q.st.Unused? && !p.st.Unused?))
      && (e == Kill(i) ==> !q.st.Sleeping?)
  {
    hide After, Inv;
    AfterAt(s, e, i);
    SlotsOf(s, i, e.i);
  }
}
