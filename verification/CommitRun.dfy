/** A commit among other processes. The commit and any number of readers take
    turns, one lock section at a time: a lookup in the cache, acquiresleep and
    the disk read behind it, a block write, bunpin, brelse. No operation is
    active during a commit, so nobody else changes a buffer. */
module CommitRun {
  import opened Blocks
  import opened LogSpec
  import opened Bio
  import opened Storage
  import opened LogModule
  import opened Pages

  /** Where a commit starts: disk, trace, view, log start and the logged blocks. */
  datatype Job = Job(d: DiskState, w: seq<Write>, view: DiskState, start: nat, t: seq<nat>)

  /** The commit between two of its lock sections. a is the buffer of its first
      bread (to, lbuf or the header), b of its second (from or dbuf). */
  datatype Stage = Idle
                 | Waits1(a: nat) | Got1(a: nat)
                 | Waits2(a: nat, b: nat) | Got2(a: nat, b: nat)
                 | Put2(a: nat, b: nat) | Unpinned(a: nat, b: nat)
                 | Last(a: nat)
                 | Panicked

  /** The cache, the disk and its trace, the view, the blocks still pinned, and
      the commit: k block writes done, and its stage. */
  datatype State = State(s: seq<Buf>, ring: seq<nat>, q: multiset<Waiter>,
                         d: DiskState, w: seq<Write>, view: DiskState, pins: seq<nat>,
                         k: nat, stage: Stage)

  /** A commit may start: what Log.Valid says with a non-empty log. */
  ghost predicate JobOk(j: Job) {
    && Ready(j.d, j.view, j.start, j.t) && j.t != [] && NoDup(j.t)
    && j.view[j.start] == j.d[j.start]
  }

  ghost function Writes(j: Job): (ws: seq<Write>)
    requires JobOk(j)
    ensures |ws| == 2 * |j.t| + 2 && Fits(|j.d|, ws)
  {
    CommitWrites(j.view, j.start, j.t, j.d[j.start])
  }

  /** Whether block write k copies a block; if not it writes the header. */
  predicate IsCopy(j: Job, k: nat) {
    k < |j.t| || |j.t| < k <= 2 * |j.t|
  }

  /** The block of the first bread towards write k. */
  function First(j: Job, k: nat): nat {
    if k < |j.t| then j.start + 1 + k
    else if IsCopy(j, k) then j.start + 1 + (k - |j.t| - 1)
    else j.start
  }

  /** The block of the second. */
  function Second(j: Job, k: nat): nat
    requires IsCopy(j, k)
  {
    if k < |j.t| then j.t[k] else j.t[k - |j.t| - 1]
  }

  // ----- lock sections: each does what the method of Bcache of that name ensures -----

  /** Lookup: bget up to the release of bcache.lock. */
  ghost predicate Looks(x: State, bno: nat, b: nat, y: State) {
    && bno < |x.d| && b < NBUF && CacheInv(x.s, x.ring) && LookedUp(x.s, x.ring, DEV, bno, b, y.s)
    && y == x.(s := y.s, q := x.q + multiset{Waiter(b, DEV, bno)}, stage := y.stage)
  }

  /** Resume: acquiresleep returns and bread ends. */
  ghost predicate Resumes(x: State, b: nat, bno: nat, y: State) {
    && Waiter(b, DEV, bno) in x.q && Resumed(x.s, x.d, Waiter(b, DEV, bno), y.s)
    && y == x.(s := y.s, q := x.q - multiset{Waiter(b, DEV, bno)}, stage := y.stage)
  }

  /** Brelse. */
  ghost predicate Releases(x: State, b: nat, y: State) {
    && b < NBUF && Released(x.s, b, y.s) && CacheInv(y.s, y.ring)
    && y == x.(s := y.s, ring := y.ring, stage := y.stage)
  }

  /** Bwrite of the held buffer b, filled before. */
  ghost predicate Puts(x: State, b: nat, data: Block, y: State) {
    && b < NBUF && b < |x.s| && x.s[b].locked && x.s[b].blockno < |x.d| == |x.view|
    && var bno := x.s[b].blockno;
      y == x.(s := x.s[b := x.s[b].(data := data)], d := x.d[bno := data], w := x.w + [Write(bno, data)],
              view := x.view[bno := data], k := x.k + 1, stage := y.stage)
  }

  /** Bunpin. */
  ghost predicate Unpins(x: State, b: nat, y: State) {
    && b < NBUF && b < |x.s| && x.s[b].refcnt > 0 && x.pins != []
    && y == x.(s := x.s[b := x.s[b].(refcnt := x.s[b].refcnt - 1)], pins := x.pins[1..], stage := y.stage)
  }

  // ----- steps -----

  /** The lookup of the commit for block bno, with the stage it leads to. */
  ghost predicate CommitLooks(x: State, bno: nat, next: nat -> Stage, y: State) {
    if NoBuffer(x.s, DEV, bno) then y == x.(stage := Panicked)
    else exists b :: Looks(x, bno, b, y) && y.stage == next(b)
  }

  ghost predicate CommitStep(j: Job, x: State, y: State) {
    match x.stage
    case Idle => x.k < 2 * |j.t| + 2 && CommitLooks(x, First(j, x.k), (b: nat) => Waits1(b), y)
    case Waits1(a) => Resumes(x, a, First(j, x.k), y) && y.stage == Got1(a)
    case Got1(a) =>
      if IsCopy(j, x.k) then CommitLooks(x, Second(j, x.k), (b: nat) => Waits2(a, b), y)
      else
        && a < |x.s| && |j.t| <= LOGBLOCKS && Addresses(j.t)
        && Puts(x, a, EncodeHeader(x.s[a].data, if x.k == |j.t| then j.t else []), y) && y.stage == Last(a)
    case Waits2(a, b) => IsCopy(j, x.k) && Resumes(x, b, Second(j, x.k), y) && y.stage == Got2(a, b)
    case Got2(a, b) =>
      && a < |x.s| && b < |x.s| && y.stage == Put2(a, b)
      && if x.k < |j.t| then Puts(x, a, x.s[b].data, y) else Puts(x, b, x.s[a].data, y)
    case Put2(a, b) =>
      if x.k <= |j.t| then Releases(x, b, y) && y.stage == Last(a) else Unpins(x, b, y) && y.stage == Unpinned(a, b)
    case Unpinned(a, b) => Releases(x, a, y) && y.stage == Last(b)
    case Last(a) => Releases(x, a, y) && y.stage == Idle
    case Panicked => false
  }

  /** The buffers the commit holds. */
  function Mine(g: Stage): set<nat> {
    match g
    case Idle => {}
    case Waits1(_) => {}
    case Got1(a) => {a}
    case Waits2(a, _) => {a}
    case Got2(a, b) => {a, b}
    case Put2(a, b) => {a, b}
    case Unpinned(a, b) => {a, b}
    case Last(a) => {a}
    case Panicked => {}
  }

  /** The commit's own entry among the waiters. */
  function Own(j: Job, x: State): multiset<Waiter> {
    match x.stage
    case Waits1(a) => multiset{Waiter(a, DEV, First(j, x.k))}
    case Waits2(_, b) => if IsCopy(j, x.k) then multiset{Waiter(b, DEV, Second(j, x.k))} else multiset{}
    case _ => multiset{}
  }

  /** A lock section of another process: it looks up any block (and panics if no
      buffer is left), gets the lock it waits for, or releases a buffer that is
      not the commit's. */
  ghost predicate OtherStep(j: Job, x: State, y: State) {
    && !x.stage.Panicked?
    && (|| (exists bno: nat :: bno < |x.d| && NoBuffer(x.s, DEV, bno) && y == x.(stage := Panicked))
        || (exists bno, b :: Looks(x, bno, b, y) && y.stage == x.stage)
        || (exists b, bno :: Resumes(x, b, bno, y) && Waiter(b, DEV, bno) in x.q - Own(j, x) && y.stage == x.stage)
        || (exists b :: b !in Mine(x.stage) && Releases(x, b, y) && y.stage == x.stage))
  }

  // ----- the invariant -----

  /** Held buffers hold the view, as unlocked valid ones do. */
  ghost predicate Clean(s: seq<Buf>, view: DiskState) {
    forall i | 0 <= i < NBUF && i < |s| && s[i].locked :: s[i].blockno < |view| && s[i].data == view[s[i].blockno]
  }

  /** The cache agrees with disk, view and pins; disk and trace are those of the
      first k commit writes. */
  ghost predicate Core(j: Job, x: State) {
    && JobOk(j) && x.k <= 2 * |j.t| + 2
    && CacheInv(x.s, x.ring) && StorageInv(x.s, x.q, x.d, x.view, x.pins) && Clean(x.s, x.view)
    && Progress(j.d, j.w, j.view, Writes(j)[..x.k], x.d, x.w, x.view)
  }

  /** How many blocks have been unpinned. */
  function Installed(j: Job, x: State): int {
    if x.k <= |j.t| + 1 then 0
    else if x.k == 2 * |j.t| + 2 then |j.t|
    else x.k - |j.t| - 1 - (if x.stage.Put2? then 1 else 0)
  }

  ghost predicate Holds(x: State, a: nat, bno: nat) {
    a < NBUF && a < |x.s| && x.s[a].locked && HasKey(x.s[a], DEV, bno)
  }

  /** The commit holds the buffers, and waits for the one, of its next write. */
  ghost predicate Placed(j: Job, x: State) {
    && 0 <= Installed(j, x) <= |j.t| && x.pins == j.t[Installed(j, x)..]
    && Own(j, x) <= x.q
    && match x.stage
       case Idle => true
       case Waits1(_) => x.k < 2 * |j.t| + 2
       case Got1(a) => x.k < 2 * |j.t| + 2 && Holds(x, a, First(j, x.k))
       case Waits2(a, _) => IsCopy(j, x.k) && Holds(x, a, First(j, x.k))
       case Got2(a, b) => IsCopy(j, x.k) && Holds(x, a, First(j, x.k)) && Holds(x, b, Second(j, x.k))
       case Put2(a, b) =>
         x.k > 0 && IsCopy(j, x.k - 1) && Holds(x, a, First(j, x.k - 1)) && Holds(x, b, Second(j, x.k - 1))
       case Unpinned(a, b) =>
         x.k > 0 && IsCopy(j, x.k - 1) && Holds(x, a, First(j, x.k - 1)) && Holds(x, b, Second(j, x.k - 1))
       case Last(a) => a < NBUF && a < |x.s| && x.s[a].locked
       case Panicked => true
  }

  ghost predicate Inv(j: Job, x: State) {
    Core(j, x) && (x.stage.Panicked? || Placed(j, x))
  }

  // ----- each section keeps the core -----

  lemma StorageWaits(s: seq<Buf>, q: multiset<Waiter>, d: DiskState, view: DiskState, pins: seq<nat>)
    requires StorageInv(s, q, d, view, pins)
    ensures WaitInv(s, q)
  {
    hide UniqueKeys, IsCached;
    forall i: nat | i < NBUF
      ensures s[i].refcnt >= HoldCount(s[i]) + q[WaiterOf(s, i)]
    {
      assert BufInv(s[i], q[WaiterOf(s, i)], view, pins);
      if q[WaiterOf(s, i)] > 0 {
        assert WaiterOf(s, i) in q;
      }
    }
  }

  /** A lookup keeps every key that somebody relies on, and every lock. */
  lemma LooksKeep(j: Job, x: State, bno: nat, b: nat, y: State)
    requires Core(j, x) && Looks(x, bno, b, y)
    ensures Core(j, y) && KeysKept(x.s, y.s) && HasKey(y.s[b], DEV, bno)
    ensures forall i | 0 <= i < NBUF :: y.s[i].locked == x.s[i].locked
  {
    hide StorageInv, CacheInv, WaitInv, LookedUp, JobOk, Progress, Writes;
    StorageWaits(x.s, x.q, x.d, x.view, x.pins);
    LookupKeeps(x.s, x.ring, x.q, DEV, bno, b, y.s);
    WaitKeeps(x.s, x.ring, x.q, x.d, x.view, x.pins, bno, b, y.s);
    assert forall i | 0 <= i < NBUF && i != b :: SameBuf(y.s[i], x.s[i]);
    StillClean(x, bno, b, y.s);
  }

  lemma StillClean(x: State, bno: nat, b: nat, t: seq<Buf>)
    requires CacheInv(x.s, x.ring) && Clean(x.s, x.view) && b < NBUF && LookedUp(x.s, x.ring, DEV, bno, b, t)
    requires |t| == NBUF + 1 && forall i | 0 <= i < NBUF && i != b :: SameBuf(t[i], x.s[i])
    requires KeysKept(x.s, t) && t[b].locked == x.s[b].locked
    ensures Clean(t, x.view)
  {
    hide Linked, FullRing, UniqueKeys;
    forall i | 0 <= i < NBUF && t[i].locked
      ensures t[i].blockno < |x.view| && t[i].data == x.view[t[i].blockno]
    {
      assert x.s[i].locked && x.s[i].refcnt > 0;
    }
  }

  /** All but slot b are as before, list links aside. */
  ghost predicate Apart(s: seq<Buf>, t: seq<Buf>, b: nat) {
    && |s| == |t| == NBUF + 1
    && forall i | 0 <= i < NBUF && i != b ::
      t[i].locked == s[i].locked && t[i].dev == s[i].dev && t[i].blockno == s[i].blockno && t[i].data == s[i].data
  }

  lemma CleanWithout(s: seq<Buf>, t: seq<Buf>, view: DiskState, b: nat)
    requires Clean(s, view) && Apart(s, t, b)
    requires b < NBUF && (t[b].locked ==> t[b].blockno < |view| && t[b].data == view[t[b].blockno])
    ensures Clean(t, view)
  {
    forall i | 0 <= i < NBUF && t[i].locked
      ensures t[i].blockno < |view| && t[i].data == view[t[i].blockno]
    {
      assert i == b || s[i].locked;
    }
  }

  /** A bread that gets its lock finds the view of its block. */
  lemma ResumesKeep(j: Job, x: State, b: nat, bno: nat, y: State)
    requires Core(j, x) && Resumes(x, b, bno, y)
    ensures Core(j, y) && b < NBUF && !x.s[b].locked && Apart(x.s, y.s, b) && Holds(y, b, bno)
    ensures bno < |x.view| && y.s[b].data == x.view[bno]
  {
    hide StorageInv, CacheInv, WaitInv, JobOk, Progress, Writes;
    StorageWaits(x.s, x.q, x.d, x.view, x.pins);
    AcquireWaits(x.s, x.q, Waiter(b, DEV, bno));
    ResumeKeeps(x.s, x.q, x.d, x.view, x.pins, Waiter(b, DEV, bno), y.s);
    ResumeLinks(x.s, x.ring, x.q, x.d, Waiter(b, DEV, bno), y.s);
    CleanWithout(x.s, y.s, x.view, b);
  }

  lemma ResumeLinks(s: seq<Buf>, ring: seq<nat>, q: multiset<Waiter>, d: DiskState, x: Waiter, t: seq<Buf>)
    requires CacheInv(s, ring) && WaitInv(s, q) && x in q && Resumed(s, d, x, t)
    ensures CacheInv(t, ring)
  {
    hide Linked, FullRing, UniqueKeys, WaitInv;
    AcquireWaits(s, q, x);
    AcquireKeeps(s, ring, x.slot);
    var u := s[x.slot := s[x.slot].(locked := true)];
    DataLinks(u, ring, x.slot, t);
  }

  lemma DataLinks(s: seq<Buf>, ring: seq<nat>, b: nat, t: seq<Buf>)
    requires CacheInv(s, ring) && b < NBUF && |t| == |s|
    requires t == s[b := s[b].(valid := t[b].valid, data := t[b].data)]
    ensures CacheInv(t, ring)
  {
    LinksUnchanged(s, t, ring, b);
  }

  lemma ReleasesKeep(j: Job, x: State, b: nat, y: State)
    requires Core(j, x) && Releases(x, b, y)
    ensures Core(j, y) && Apart(x.s, y.s, b)
  {
    hide StorageInv, CacheInv, JobOk, Progress, Writes;
    HeldBlock(x.s, x.q, x.d, x.view, x.pins, b);
    ReleaseKeeps(x.s, x.q, x.d, x.view, x.pins, b, y.s);
    assert SameButLinks(x.s[b := x.s[b].(refcnt := x.s[b].refcnt - 1, locked := false)], y.s);
    CleanWithout(x.s, y.s, x.view, b);
  }

  lemma HeldBlock(s: seq<Buf>, q: multiset<Waiter>, d: DiskState, view: DiskState, pins: seq<nat>, b: nat)
    requires StorageInv(s, q, d, view, pins) && b < NBUF && s[b].locked
    ensures s[b].dev == DEV && s[b].blockno < |view| == |d| && s[b].valid && s[b].refcnt > 0
  {
    assert BufInv(s[b], q[WaiterOf(s, b)], view, pins);
  }

  lemma UnpinsKeep(j: Job, x: State, b: nat, y: State)
    requires Core(j, x) && Unpins(x, b, y) && x.s[b].locked && HasKey(x.s[b], DEV, x.pins[0])
    requires x.pins[0] < |x.d| == |x.view| && x.d[x.pins[0]] == x.view[x.pins[0]]
    ensures Core(j, y) && Apart(x.s, y.s, b) && y.s[b].locked && HasKey(y.s[b], DEV, x.pins[0])
  {
    hide StorageInv, CacheInv, WaitInv, JobOk, Progress, Writes;
    UnpinKeeps(x.s, x.q, x.d, x.view, x.pins, b);
    StorageWaits(y.s, y.q, y.d, y.view, y.pins);
    StorageWaits(x.s, x.q, x.d, x.view, x.pins);
    CountKeeps(x.s, x.ring, x.q, b, x.s[b].refcnt - 1, true);
    CleanWithout(x.s, y.s, x.view, b);
  }

  /** A block write that is the next of the commit. */
  lemma PutsKeep(j: Job, x: State, b: nat, data: Block, y: State)
    requires Core(j, x) && Puts(x, b, data, y) && x.k < 2 * |j.t| + 2
    requires Writes(j)[x.k] == Write(x.s[b].blockno, data)
    ensures Core(j, y) && Apart(x.s, y.s, b) && y.s[b].locked && y.s[b].dev == x.s[b].dev && y.s[b].blockno == x.s[b].blockno
  {
    hide StorageInv, CacheInv, JobOk, Progress, Writes, Clean, UniqueKeys;
    HeldBlock(x.s, x.q, x.d, x.view, x.pins, b);
    WriteKeeps(x.s, x.q, x.d, x.view, x.pins, b, data);
    DataLinks(x.s, x.ring, b, y.s);
    Log.Extend(j.d, j.w, j.view, Writes(j), x.k, x.d, x.w, x.view, y.d, y.w, y.view);
    forall i | 0 <= i < NBUF && x.s[i].locked
      ensures x.s[i].dev == DEV
    {
      HeldBlock(x.s, x.q, x.d, x.view, x.pins, i);
    }
    WrittenClean(x.s, x.ring, x.view, b, data);
  }

  /** No other buffer holds the block written. */
  lemma WrittenClean(s: seq<Buf>, ring: seq<nat>, view: DiskState, b: nat, data: Block)
    requires CacheInv(s, ring) && Clean(s, view) && b < NBUF && s[b].locked && s[b].dev == DEV
    requires forall i | 0 <= i < NBUF && s[i].locked :: s[i].dev == DEV
    ensures Clean(s[b := s[b].(data := data)], view[s[b].blockno := data])
  {
    hide Linked, FullRing;
  }

  // ----- the next write -----

  lemma WriteAt(j: Job, k: nat)
    requires JobOk(j) && k < 2 * |j.t| + 2
    ensures Addresses(j.t) && (IsCopy(j, k) ==> Second(j, k) < |j.view|)
    ensures var h := EncodeHeader(j.d[j.start], j.t);
      Writes(j)[k] ==
        if k < |j.t| then Write(First(j, k), j.view[Second(j, k)])
        else if k == |j.t| then Write(j.start, h)
        else if k <= 2 * |j.t| then Write(Second(j, k), j.view[Second(j, k)])
        else Write(j.start, EncodeHeader(h, []))
  {
    hide EncodeHeader;
    if IsCopy(j, k) {
      assert Second(j, k) in j.t;
    }
  }

  lemma StepsOf(j: Job)
    requires JobOk(j)
    ensures Addresses(j.t)
    ensures var h := EncodeHeader(j.d[j.start], j.t); Writes(j) == CommitSteps(j.view, j.start, j.t, h, EncodeHeader(h, []))
  {
  }

  lemma BlocksApart(j: Job, k: nat)
    requires JobOk(j) && k < 2 * |j.t| + 2
    ensures InLog(j.start, First(j, k)) && First(j, k) < |j.view|
    ensures IsCopy(j, k) ==> Second(j, k) < |j.view| && !InLog(j.start, Second(j, k)) && First(j, k) != j.start
  {
    if IsCopy(j, k) {
      assert Second(j, k) in j.t;
    }
  }

  ghost function ViewNow(j: Job, k: nat): (v: DiskState)
    requires JobOk(j) && k <= 2 * |j.t| + 2
    ensures |v| == |j.view|
  {
    Apply(j.view, Writes(j)[..k])
  }

  lemma ViewEarly(j: Job, k: nat)
    requires JobOk(j) && k <= |j.t|
    ensures forall b: nat | b < |j.view| && !(j.start < b <= j.start + k) :: ViewNow(j, k)[b] == j.view[b]
  {
    hide EncodeHeader, CommitSteps, Apply;
    StepsOf(j);
    var h := EncodeHeader(j.d[j.start], j.t);
    StepsEarly(j.view, j.view, j.start, j.t, h, EncodeHeader(h, []), k);
  }

  lemma ViewMiddle(j: Job, k: nat)
    requires JobOk(j) && |j.t| < k < 2 * |j.t| + 2
    ensures Addresses(j.t) && ViewNow(j, k)[j.start] == EncodeHeader(j.d[j.start], j.t)
    ensures forall i | 0 <= i < |j.t| :: ViewNow(j, k)[j.start + 1 + i] == j.view[j.t[i]]
    ensures forall b: nat | b < |j.view| && !InLog(j.start, b) :: ViewNow(j, k)[b] == j.view[b]
  {
    hide EncodeHeader, CommitSteps, Apply;
    StepsOf(j);
    var h := EncodeHeader(j.d[j.start], j.t);
    StepsMiddle(j.view, j.view, j.start, j.t, h, EncodeHeader(h, []), k - |j.t| - 1);
  }

  lemma ViewDone(j: Job)
    requires JobOk(j)
    ensures forall b: nat | b < |j.view| && !InLog(j.start, b) :: ViewNow(j, 2 * |j.t| + 2)[b] == j.view[b]
  {
    hide EncodeHeader, CommitSteps, Apply;
    StepsOf(j);
    assert Writes(j)[..2 * |j.t| + 2] == Writes(j);
    var h := EncodeHeader(j.d[j.start], j.t);
    StepsDone(j.view, j.view, j.start, j.t, h, EncodeHeader(h, []));
  }

  /** The view of home blocks never changes. */
  lemma HomeStays(j: Job, k: nat)
    requires JobOk(j) && k <= 2 * |j.t| + 2
    ensures forall b: nat | b < |j.view| && !InLog(j.start, b) :: ViewNow(j, k)[b] == j.view[b]
  {
    hide ViewNow;
    if k <= |j.t| {
      ViewEarly(j, k);
    } else if k < 2 * |j.t| + 2 {
      ViewMiddle(j, k);
    } else {
      ViewDone(j);
    }
  }

  /** What write k has to store is what its source shows. */
  lemma SourceAt(j: Job, k: nat)
    requires JobOk(j) && k < 2 * |j.t| + 2
    ensures First(j, k) < |j.view| && Addresses(j.t) && (IsCopy(j, k) ==> Second(j, k) < |j.view|)
    ensures var v := ViewNow(j, k);
      Writes(j)[k] ==
        if k < |j.t| then Write(First(j, k), v[Second(j, k)])
        else if IsCopy(j, k) then Write(Second(j, k), v[First(j, k)])
        else Write(j.start, EncodeHeader(v[j.start], if k == |j.t| then j.t else []))
  {
    hide EncodeHeader, Writes, ViewNow;
    WriteAt(j, k);
    BlocksApart(j, k);
    HomeStays(j, k);
    if k <= |j.t| {
      ViewEarly(j, k);
    } else {
      ViewMiddle(j, k);
    }
  }

  /** The block just installed is the same on disk and in the view. */
  lemma InstalledAgree(j: Job, k: nat)
    requires JobOk(j) && |j.t| + 1 < k <= 2 * |j.t| + 1
    ensures var b := Second(j, k - 1); b < |j.view| && Apply(j.d, Writes(j)[..k])[b] == ViewNow(j, k)[b]
  {
    hide EncodeHeader, CommitSteps, Apply, HoldsCopies, Writes;
    StepsOf(j);
    BlocksApart(j, k - 1);
    HomeStays(j, k);
    var h := EncodeHeader(j.d[j.start], j.t);
    StepsMiddle(j.d, j.view, j.start, j.t, h, EncodeHeader(h, []), k - |j.t| - 1);
    assert j.t[..k - |j.t| - 1][k - |j.t| - 2] == Second(j, k - 1);
  }

  // ----- the commit's steps keep the invariant -----

  lemma StillHolds(x: State, y: State, b: nat, a: nat, bno: nat)
    requires Holds(x, a, bno) && Apart(x.s, y.s, b) && a != b
    ensures Holds(y, a, bno)
  {
  }

  lemma LookedHolds(j: Job, x: State, y: State, a: nat, bno: nat)
    requires Core(j, x) && Holds(x, a, bno) && KeysKept(x.s, y.s)
    requires forall i | 0 <= i < NBUF :: y.s[i].locked == x.s[i].locked
    ensures Holds(y, a, bno)
  {
    hide CacheInv, JobOk, Progress, Writes, Clean;
    HeldBlock(x.s, x.q, x.d, x.view, x.pins, a);
  }

  lemma IdleKeeps(j: Job, x: State, y: State)
    requires Inv(j, x) && x.stage.Idle? && CommitStep(j, x, y)
    ensures Inv(j, y)
  {
    hide StorageInv, CacheInv, JobOk, Progress, Writes, Clean;
    if !NoBuffer(x.s, DEV, First(j, x.k)) {
      var b :| Looks(x, First(j, x.k), b, y) && y.stage == Waits1(b);
      LooksKeep(j, x, First(j, x.k), b, y);
    }
  }

  lemma Waits1Keeps(j: Job, x: State, y: State)
    requires Inv(j, x) && x.stage.Waits1? && CommitStep(j, x, y)
    ensures Inv(j, y)
  {
    hide StorageInv, CacheInv, JobOk, Progress, Writes, Clean;
    ResumesKeep(j, x, x.stage.a, First(j, x.k), y);
  }

  lemma Got1Keeps(j: Job, x: State, y: State)
    requires Inv(j, x) && x.stage.Got1? && IsCopy(j, x.k) && CommitStep(j, x, y)
    ensures Inv(j, y)
  {
    hide StorageInv, CacheInv, JobOk, Progress, Writes, Clean;
    var bno := Second(j, x.k);
    if !NoBuffer(x.s, DEV, bno) {
      var b :| Looks(x, bno, b, y) && y.stage == Waits2(x.stage.a, b);
      LooksKeep(j, x, bno, b, y);
      LookedHolds(j, x, y, x.stage.a, First(j, x.k));
    }
  }

  /** write_head stores what the commit writes stand for. */
  lemma HeadKeeps(j: Job, x: State, y: State)
    requires Inv(j, x) && x.stage.Got1? && !IsCopy(j, x.k) && CommitStep(j, x, y)
    ensures Inv(j, y)
  {
    hide StorageInv, CacheInv, JobOk, Writes, EncodeHeader;
    var a := x.stage.a;
    SourceAt(j, x.k);
    PutsKeep(j, x, a, EncodeHeader(x.s[a].data, if x.k == |j.t| then j.t else []), y);
  }

  lemma Waits2Keeps(j: Job, x: State, y: State)
    requires Inv(j, x) && x.stage.Waits2? && CommitStep(j, x, y)
    ensures Inv(j, y)
  {
    hide StorageInv, CacheInv, JobOk, Progress, Writes, Clean;
    var a, b := x.stage.a, x.stage.b;
    ResumesKeep(j, x, b, Second(j, x.k), y);
    StillHolds(x, y, b, a, First(j, x.k));
  }

  /** A copy stores what the commit writes stand for. */
  lemma CopyKeeps(j: Job, x: State, y: State)
    requires Inv(j, x) && x.stage.Got2? && CommitStep(j, x, y)
    ensures Inv(j, y)
  {
    hide StorageInv, CacheInv, JobOk, Writes, EncodeHeader;
    var a, b := x.stage.a, x.stage.b;
    SourceAt(j, x.k);
    BlocksApart(j, x.k);
    if x.k < |j.t| {
      PutsKeep(j, x, a, x.s[b].data, y);
    } else {
      PutsKeep(j, x, b, x.s[a].data, y);
    }
  }

  lemma PutKeeps(j: Job, x: State, y: State)
    requires Inv(j, x) && x.stage.Put2? && CommitStep(j, x, y)
    ensures Inv(j, y)
  {
    hide StorageInv, CacheInv, JobOk, Writes, Clean, EncodeHeader;
    var a, b := x.stage.a, x.stage.b;
    BlocksApart(j, x.k - 1);
    if x.k <= |j.t| {
      ReleasesKeep(j, x, b, y);
    } else {
      InstalledAgree(j, x.k);
      var i := Installed(j, x);
      assert x.pins[0] == j.t[i] == Second(j, x.k - 1);
      UnpinsKeep(j, x, b, y);
      StillHolds(x, y, b, a, First(j, x.k - 1));
      assert j.t[i..][1..] == j.t[i + 1..];
    }
  }

  lemma ReleaseStepKeeps(j: Job, x: State, y: State)
    requires Inv(j, x) && (x.stage.Unpinned? || x.stage.Last?) && CommitStep(j, x, y)
    ensures Inv(j, y)
  {
    hide StorageInv, CacheInv, JobOk, Progress, Writes, Clean;
    if x.stage.Unpinned? {
      BlocksApart(j, x.k - 1);
    }
    ReleasesKeep(j, x, x.stage.a, y);
  }

  lemma CommitKeeps(j: Job, x: State, y: State)
    requires Inv(j, x) && CommitStep(j, x, y)
    ensures Inv(j, y)
  {
    hide Inv, CommitStep;
    match x.stage
    case Idle => IdleKeeps(j, x, y);
    case Waits1(_) => Waits1Keeps(j, x, y);
    case Got1(_) => if IsCopy(j, x.k) { Got1Keeps(j, x, y); } else { HeadKeeps(j, x, y); }
    case Waits2(_, _) => Waits2Keeps(j, x, y);
    case Got2(_, _) => CopyKeeps(j, x, y);
    case Put2(_, _) => PutKeeps(j, x, y);
    case Unpinned(_, _) => ReleaseStepKeeps(j, x, y);
    case Last(_) => ReleaseStepKeeps(j, x, y);
    case Panicked => StuckPanic(j, x, y);
  }

  lemma StuckPanic(j: Job, x: State, y: State)
    requires x.stage.Panicked?
    ensures !CommitStep(j, x, y)
  {
  }

  // ----- other processes keep the invariant -----

  lemma OtherLooksKeeps(j: Job, x: State, y: State, bno: nat, b: nat)
    requires Inv(j, x) && !x.stage.Panicked? && Looks(x, bno, b, y) && y.stage == x.stage
    ensures Inv(j, y)
  {
    hide StorageInv, CacheInv, JobOk, Progress, Writes, Clean, Holds;
    LooksKeep(j, x, bno, b, y);
    forall a, c | Holds(x, a, c)
      ensures Holds(y, a, c)
    {
      LookedHolds(j, x, y, a, c);
    }
    if x.stage.Last? {
      LastHeld(x, y);
    }
  }

  lemma LastHeld(x: State, y: State)
    requires |y.s| == |x.s| && x.stage.Last?
    requires forall i | 0 <= i < NBUF && i < |x.s| :: y.s[i].locked == x.s[i].locked
    ensures x.stage.a < NBUF && x.stage.a < |x.s| && x.s[x.stage.a].locked ==> y.s[x.stage.a].locked
  {
  }

  lemma OtherKeepsHeld(x: State, y: State, b: nat, a: nat)
    requires Apart(x.s, y.s, b) && a != b
    ensures forall c :: Holds(x, a, c) ==> Holds(y, a, c)
    ensures a < NBUF && x.s[a].locked ==> y.s[a].locked
  {
  }

  lemma OtherResumesKeeps(j: Job, x: State, y: State, b: nat, bno: nat)
    requires Inv(j, x) && !x.stage.Panicked? && Resumes(x, b, bno, y) && y.stage == x.stage
    requires Waiter(b, DEV, bno) in x.q - Own(j, x)
    ensures Inv(j, y)
  {
    hide StorageInv, CacheInv, JobOk, Progress, Writes, Clean;
    ResumesKeep(j, x, b, bno, y);
    forall a | a in Mine(x.stage)
      ensures forall c :: Holds(x, a, c) ==> Holds(y, a, c)
      ensures a < NBUF && x.s[a].locked ==> y.s[a].locked
    {
      if a < NBUF && x.s[a].locked {
        OtherKeepsHeld(x, y, b, a);
      }
    }
  }

  lemma OtherReleasesKeeps(j: Job, x: State, y: State, b: nat)
    requires Inv(j, x) && !x.stage.Panicked? && b !in Mine(x.stage) && Releases(x, b, y) && y.stage == x.stage
    ensures Inv(j, y)
  {
    hide StorageInv, CacheInv, JobOk, Progress, Writes, Clean;
    ReleasesKeep(j, x, b, y);
    forall a | a in Mine(x.stage)
      ensures forall c :: Holds(x, a, c) ==> Holds(y, a, c)
      ensures a < NBUF && x.s[a].locked ==> y.s[a].locked
    {
      OtherKeepsHeld(x, y, b, a);
    }
  }

  lemma OtherKeeps(j: Job, x: State, y: State)
    requires Inv(j, x) && OtherStep(j, x, y)
    ensures Inv(j, y)
  {
    hide Inv, Looks, Resumes, Releases;
    if exists bno: nat :: bno < |x.d| && NoBuffer(x.s, DEV, bno) && y == x.(stage := Panicked) {
      PanicKeeps(j, x);
    } else if exists bno, b :: Looks(x, bno, b, y) && y.stage == x.stage {
      var bno, b :| Looks(x, bno, b, y) && y.stage == x.stage;
      OtherLooksKeeps(j, x, y, bno, b);
    } else if exists b, bno :: Resumes(x, b, bno, y) && Waiter(b, DEV, bno) in x.q - Own(j, x) && y.stage == x.stage {
      var b, bno :| Resumes(x, b, bno, y) && Waiter(b, DEV, bno) in x.q - Own(j, x) && y.stage == x.stage;
      OtherResumesKeeps(j, x, y, b, bno);
    } else {
      var b :| b !in Mine(x.stage) && Releases(x, b, y) && y.stage == x.stage;
      OtherReleasesKeeps(j, x, y, b);
    }
  }

  lemma PanicKeeps(j: Job, x: State)
    requires Inv(j, x)
    ensures Inv(j, x.(stage := Panicked))
  {
    hide StorageInv, CacheInv, JobOk, Progress, Writes, Clean;
  }

  // ----- runs -----

  /** The state in which commit is called: everything logged is pinned, and
      nobody, since no operation is active, holds a buffer he has changed. */
  ghost predicate Initial(j: Job, x: State) {
    && JobOk(j) && x.d == j.d && x.w == j.w && x.view == j.view && x.pins == j.t && x.k == 0 && x.stage == Idle
    && CacheInv(x.s, x.ring) && StorageInv(x.s, x.q, x.d, x.view, x.pins) && Clean(x.s, x.view)
  }

  ghost function JobOf(log: Log): Job
    requires log.n <= log.block.Length
    reads log, log.block, log.disk
  {
    Job(log.disk.blocks, log.disk.writes, log.view, log.start, log.block[..log.n])
  }

  ghost function StateOf(log: Log): State
    requires log.n <= log.block.Length
    reads log, log.block, log.disk, log.cache, log.cache.buf
  {
    State(log.cache.buf[..], log.cache.ring, log.cache.waiting, log.disk.blocks, log.disk.writes, log.view,
          log.block[..log.n], 0, Idle)
  }

  /** The runs below begin where Log.Commit does. */
  lemma CommitStarts(log: Log)
    requires log.Valid() && log.n > 0 && Clean(log.cache.buf[..], log.view)
    ensures Initial(JobOf(log), StateOf(log))
  {
    hide CacheInv, Clean, BufInv, IsCached;
  }

  ghost predicate Step(j: Job, x: State, y: State) {
    CommitStep(j, x, y) || OtherStep(j, x, y)
  }

  ghost predicate IsRun(j: Job, run: seq<State>) {
    && run != [] && Initial(j, run[0])
    && forall i | 0 <= i < |run| - 1 :: Step(j, run[i], run[i + 1])
  }

  lemma InitialInv(j: Job, x: State)
    requires Initial(j, x)
    ensures Inv(j, x)
  {
    hide StorageInv, CacheInv, Clean, Writes;
    assert Writes(j)[..0] == [] && j.t[0..] == j.t;
  }

  lemma {:induction false} RunKeepsInv(j: Job, run: seq<State>, i: nat)
    requires IsRun(j, run) && i < |run|
    ensures Inv(j, run[i])
  {
    hide Inv, Initial, CommitStep, OtherStep;
    if i == 0 {
      InitialInv(j, run[0]);
    } else {
      RunKeepsInv(j, run, i - 1);
      assert Step(j, run[i - 1], run[i - 1 + 1]);
      if CommitStep(j, run[i - 1], run[i]) {
        CommitKeeps(j, run[i - 1], run[i]);
      } else {
        OtherKeeps(j, run[i - 1], run[i]);
      }
    }
  }

  /** In every state of every interleaving of a commit with readers: disk and
      trace are those of the first k commit writes and of nothing else; the view
      of every home block is what it was; blocks not yet installed are pinned;
      and cache, disk, pins, holders and waiters agree. */
  lemma CommitAmongReaders(j: Job, run: seq<State>, i: nat)
    requires IsRun(j, run) && i < |run|
    ensures var x := run[i];
      && x.k <= |Writes(j)| && x.d == Apply(j.d, Writes(j)[..x.k]) && x.w == j.w + Writes(j)[..x.k]
      && |x.view| == |j.view| && (forall b: nat | b < |x.view| && !InLog(j.start, b) :: x.view[b] == j.view[b])
      && StorageInv(x.s, x.q, x.d, x.view, x.pins) && Clean(x.s, x.view)
      && (!x.stage.Panicked? && x.k <= |j.t| + 1 ==> x.pins == j.t)
  {
    hide StorageInv, CacheInv, Writes, Clean, JobOk;
    RunKeepsInv(j, run, i);
    HomeStays(j, run[i].k);
    assert j.t[0..] == j.t;
  }

  /** A commit that gets to its end has done all its writes and dropped every
      pin; the log on disk is empty and home blocks are the view. */
  lemma DoneIsCommitted(j: Job, run: seq<State>, i: nat)
    requires IsRun(j, run) && i < |run| && run[i].k == |Writes(j)| && run[i].stage == Idle
    ensures var x := run[i];
      && x.pins == [] && StorageInv(x.s, x.q, x.d, x.view, [])
      && Committed(j.d, j.w, j.view, j.start, j.t, x.d, x.w, x.view)
  {
    hide StorageInv, CacheInv, Clean;
    var x := run[i];
    RunKeepsInv(j, run, i);
    HomeStays(j, x.k);
    assert Writes(j)[..x.k] == Writes(j);
    HeaderErased(j);
    NothingPinned(x.s, x.q, x.d, x.view);
  }

  lemma NothingPinned(s: seq<Buf>, q: multiset<Waiter>, d: DiskState, view: DiskState)
    requires StorageInv(s, q, d, view, [])
    ensures d == view
  {
  }

  lemma HeaderErased(j: Job)
    requires JobOk(j)
    ensures Word(Apply(j.d, Writes(j))[j.start], 0) == 0
  {
    hide EncodeHeader, CommitSteps, Apply;
    StepsOf(j);
    var h := EncodeHeader(j.d[j.start], j.t);
    StepsDone(j.d, j.view, j.start, j.t, h, EncodeHeader(h, []));
    HeaderRoundTrip(h, []);
  }

  /** Whoever gets the lock of a home block's buffer, at any moment of any such
      run, sees the block he asked for, with the contents last logged. */
  lemma ReadersSeeTheLogged(j: Job, run: seq<State>, i: nat, b: nat, bno: nat, y: State)
    requires IsRun(j, run) && i < |run| && Resumes(run[i], b, bno, y)
    ensures bno < |j.view| && b < |y.s| && y.s[b].locked && HasKey(y.s[b], DEV, bno)
    ensures !InLog(j.start, bno) ==> y.s[b].data == j.view[bno]
  {
    hide StorageInv, CacheInv, Writes, Clean, JobOk, Resumes;
    RunKeepsInv(j, run, i);
    HomeStays(j, run[i].k);
    ResumesKeep(j, run[i], b, bno, y);
  }

  /** Crash atomicity with readers about: a crash in any state of any such run,
      and any crashes in recovery, leave all old or all new home blocks. */
  lemma CrashAmongReaders(j: Job, run: seq<State>, i: nat, crashes: seq<nat>)
    requires IsRun(j, run) && i < |run|
    ensures var x := run[i];
      && WellFormed(x.d, j.start)
      && var r := Recovered(Crashed(x.d, j.start, crashes), j.start);
        && |r| == |j.d| == |j.view| && Word(r[j.start], 0) == 0
        && forall b: nat | b < |r| && !InLog(j.start, b) :: r[b] == if x.k <= |j.t| then j.d[b] else j.view[b]
  {
    hide StorageInv, CacheInv, Clean, Apply, WellFormed, Recovered, Crashed, CommitWrites;
    RunKeepsInv(j, run, i);
    CrashAtomicity(j.d, j.view, j.start, j.t, run[i].k, crashes);
  }

  /** When somebody finds no buffer, every one is in use: logged blocks not yet
      installed, holders and waiters together are at least NBUF. */
  lemma PanicIsCrowding(j: Job, run: seq<State>, i: nat, y: State)
    requires IsRun(j, run) && i < |run| && Step(j, run[i], y) && !run[i].stage.Panicked? && y.stage.Panicked?
    ensures var x := run[i]; |x.s| == NBUF + 1 && |x.pins| + |Held(x.s)| + |x.q| >= NBUF
  {
    hide Linked, FullRing, UniqueKeys, BufInv, IsCached, Writes, Clean, JobOk;
    var x := run[i];
    RunKeepsInv(j, run, i);
    assert exists bno :: NoBuffer(x.s, DEV, bno);
    FreeSlotIffRoom(x.s, x.q, x.d, x.view, x.pins);
  }

  /** The second bread of a copy never fails: its block is pinned. */
  lemma SecondIsCached(j: Job, x: State)
    requires Inv(j, x) && x.stage.Got1? && IsCopy(j, x.k)
    ensures !NoBuffer(x.s, DEV, Second(j, x.k))
  {
    hide CacheInv, Writes, Clean, UniqueKeys, BufInv;
    var m := if x.k < |j.t| then x.k else 0;
    assert x.pins[m] == Second(j, x.k);
    assert IsCached(x.s, x.pins[m]);
  }

  // ----- what the commit holds -----

  lemma LooksHold(j: Job, x: State, bno: nat, b: nat, y: State)
    requires Core(j, x) && Looks(x, bno, b, y)
    ensures |x.s| == |y.s| == NBUF + 1 && Held(y.s) == Held(x.s) && y.q == x.q + multiset{Waiter(b, DEV, bno)}
  {
    hide StorageInv, CacheInv, JobOk, Progress, Writes, Clean;
    LooksKeep(j, x, bno, b, y);
  }

  lemma ResumesHold(j: Job, x: State, b: nat, bno: nat, y: State)
    requires Core(j, x) && Resumes(x, b, bno, y)
    ensures |x.s| == |y.s| == NBUF + 1 && b !in Held(x.s) && Held(y.s) == Held(x.s) + {b}
    ensures y.q == x.q - multiset{Waiter(b, DEV, bno)}
  {
    hide StorageInv, CacheInv, JobOk, Progress, Writes, Clean;
    ResumesKeep(j, x, b, bno, y);
  }

  lemma ReleasesHold(j: Job, x: State, b: nat, y: State)
    requires Core(j, x) && Releases(x, b, y)
    ensures |x.s| == |y.s| == NBUF + 1 && Held(y.s) == Held(x.s) - {b} && y.q == x.q
  {
    hide StorageInv, CacheInv, JobOk, Progress, Writes, Clean;
    ReleasesKeep(j, x, b, y);
    assert !y.s[b].locked;
  }

  lemma SizeOf(j: Job, x: State)
    requires Core(j, x)
    ensures |x.s| == NBUF + 1
  {
    hide JobOk, Progress, Writes, Clean, CacheInv, UniqueKeys, BufInv, IsCached;
  }

  lemma SameLocksHold(s: seq<Buf>, t: seq<Buf>)
    requires |s| == |t| == NBUF + 1 && forall i | 0 <= i < NBUF :: t[i].locked == s[i].locked
    ensures Held(t) == Held(s)
  {
  }

  lemma PutsHold(j: Job, x: State, b: nat, data: Block, y: State)
    requires Core(j, x) && Puts(x, b, data, y)
    ensures |x.s| == |y.s| == NBUF + 1 && Held(y.s) == Held(x.s) && y.q == x.q
  {
    hide StorageInv, CacheInv, JobOk, Progress, Writes, Clean;
    SizeOf(j, x);
    SameLocksHold(x.s, y.s);
  }

  lemma UnpinsHold(j: Job, x: State, b: nat, y: State)
    requires Core(j, x) && Unpins(x, b, y)
    ensures |x.s| == |y.s| == NBUF + 1 && Held(y.s) == Held(x.s) && y.q == x.q
  {
    hide StorageInv, CacheInv, JobOk, Progress, Writes, Clean;
    SizeOf(j, x);
    SameLocksHold(x.s, y.s);
  }

  /** What others hold and wait for is the same. */
  ghost predicate GaveBack(j: Job, x: State, y: State) {
    && |x.s| == |y.s| == NBUF + 1
    && Held(y.s) - Mine(y.stage) == Held(x.s) - Mine(x.stage)
    && y.q - Own(j, y) == x.q - Own(j, x)
  }

  lemma LookGivesBack(j: Job, x: State, y: State)
    requires Inv(j, x) && CommitStep(j, x, y) && !y.stage.Panicked? && (x.stage.Idle? || (x.stage.Got1? && IsCopy(j, x.k)))
    ensures GaveBack(j, x, y)
  {
    hide Core, Held, Looks, Resumes, Releases, Puts, Unpins, NoBuffer;
    var bno := if x.stage.Idle? then First(j, x.k) else Second(j, x.k);
    var b :| Looks(x, bno, b, y) && y.stage == if x.stage.Idle? then Waits1(b) else Waits2(x.stage.a, b);
    LooksHold(j, x, bno, b, y);
    LooksKeepCount(x, bno, b, y);
  }

  lemma ResumeGivesBack(j: Job, x: State, y: State)
    requires Inv(j, x) && CommitStep(j, x, y) && !y.stage.Panicked? && (x.stage.Waits1? || x.stage.Waits2?)
    ensures GaveBack(j, x, y)
  {
    hide Core, Held, Looks, Resumes, Releases, Puts, Unpins, NoBuffer;
    if x.stage.Waits1? {
      ResumesHold(j, x, x.stage.a, First(j, x.k), y);
    } else {
      ResumesHold(j, x, x.stage.b, Second(j, x.k), y);
    }
  }

  lemma WriteGivesBack(j: Job, x: State, y: State)
    requires Inv(j, x) && CommitStep(j, x, y) && !y.stage.Panicked? && ((x.stage.Got1? && !IsCopy(j, x.k)) || x.stage.Got2?)
    ensures GaveBack(j, x, y)
  {
    hide Core, Held, Looks, Resumes, Releases, Puts, Unpins, NoBuffer;
    if x.stage.Got1? {
      PutsHold(j, x, x.stage.a, EncodeHeader(x.s[x.stage.a].data, if x.k == |j.t| then j.t else []), y);
    } else if x.k < |j.t| {
      PutsHold(j, x, x.stage.a, x.s[x.stage.b].data, y);
    } else {
      PutsHold(j, x, x.stage.b, x.s[x.stage.a].data, y);
    }
  }

  lemma EndGivesBack(j: Job, x: State, y: State)
    requires Inv(j, x) && CommitStep(j, x, y) && !y.stage.Panicked? && (x.stage.Put2? || x.stage.Unpinned? || x.stage.Last?)
    ensures GaveBack(j, x, y)
  {
    hide Core, Held, Looks, Resumes, Releases, Puts, Unpins, NoBuffer;
    if x.stage.Put2? && x.k > |j.t| {
      UnpinsHold(j, x, x.stage.b, y);
    } else if x.stage.Put2? {
      ReleasesHold(j, x, x.stage.b, y);
    } else {
      ReleasesHold(j, x, x.stage.a, y);
    }
  }

  /** The commit gives back what it takes: its steps leave what others hold and
      wait for as it is, so that between two of its writes it holds nothing. */
  lemma CommitGivesBack(j: Job, x: State, y: State)
    requires Inv(j, x) && CommitStep(j, x, y) && !y.stage.Panicked?
    ensures GaveBack(j, x, y)
  {
    hide Inv, CommitStep, GaveBack;
    match x.stage
    case Idle => LookGivesBack(j, x, y);
    case Waits1(_) => ResumeGivesBack(j, x, y);
    case Got1(_) => if IsCopy(j, x.k) { LookGivesBack(j, x, y); } else { WriteGivesBack(j, x, y); }
    case Waits2(_, _) => ResumeGivesBack(j, x, y);
    case Got2(_, _) => WriteGivesBack(j, x, y);
    case Put2(_, _) => EndGivesBack(j, x, y);
    case Unpinned(_, _) => EndGivesBack(j, x, y);
    case Last(_) => EndGivesBack(j, x, y);
    case Panicked => StuckPanic(j, x, y);
  }

  lemma LooksKeepCount(x: State, bno: nat, b: nat, y: State)
    requires Looks(x, bno, b, y)
    ensures y.k == x.k
  {
  }
}
