/** A commit that fails: three operations at once, each logging its whole budget
    of new blocks, fill the log, which pins every buffer of the cache. */
module FullLog {
  import opened Blocks
  import opened LogSpec
  import opened Bio
  import opened Storage
  import opened LogModule
  import Admission

  /** How many of the first i blocks the operation o has logged. */
  function Share(o: nat, i: nat): nat {
    if i < o * MAXOPBLOCKS then 0 else if i < (o + 1) * MAXOPBLOCKS then i - o * MAXOPBLOCKS else MAXOPBLOCKS
  }

  /** Operations 0, 1 and 2 are active and have logged i blocks after the log area. */
  ghost predicate Filled(log: Log, i: nat)
    reads log, log.block, log.cache, log.cache.buf, log.disk
  {
    && log.Valid() && NoneHeld(log.cache.buf[..]) && log.cache.waiting == multiset{}
    && log.n == i <= LOGBLOCKS && log.start + 2 * LOGBLOCKS < |log.disk.blocks|
    && (forall j | 0 <= j < i :: log.block[j] == log.start + LOGBLOCKS + 1 + j)
    && log.outstanding == 3 && !log.committing
    && log.used == map[0 := Share(0, i), 1 := Share(1, i), 2 := Share(2, i)]
  }

  /** run is the admission run that led to the log's present state. */
  ghost predicate Recorded(log: Log, run: seq<Admission.State>)
    reads log, log.block
  {
    log.n <= log.block.Length && Admission.IsRun(run) && run[|run| - 1] == log.St()
  }

  lemma RecordedRun(log: Log, run: seq<Admission.State>)
    requires Recorded(log, run)
    ensures log.n <= log.block.Length && Admission.IsRun(run) && run[|run| - 1] == log.St()
  {
  }

  lemma OneMoreStep(run: seq<Admission.State>, t: Admission.State)
    requires Admission.IsRun(run) && Admission.Step(run[|run| - 1], t)
    ensures Admission.IsRun(run + [t])
  {
    hide Admission.Step;
    var r := run + [t];
    forall i | 0 <= i < |r| - 1
      ensures Admission.Step(r[i], r[i + 1])
    {
      if i < |run| - 1 {
        assert Admission.Step(run[i], run[i + 1]);
      }
    }
  }

  lemma NextShare(i: nat)
    requires i < LOGBLOCKS
    ensures var u, o := map[0 := Share(0, i), 1 := Share(1, i), 2 := Share(2, i)], i / MAXOPBLOCKS;
      o in u && u[o] < MAXOPBLOCKS && u[o := u[o] + 1] == map[0 := Share(0, i + 1), 1 := Share(1, i + 1), 2 := Share(2, i + 1)]
  {
  }

  /** One more block on the list. */
  lemma NextBlock(t: seq<nat>, u: seq<nat>, start: nat)
    requires forall j | 0 <= j < |t| :: t[j] == start + LOGBLOCKS + 1 + j
    requires u == t + [start + LOGBLOCKS + 1 + |t|]
    ensures start + LOGBLOCKS + 1 + |t| !in t
    ensures forall j | 0 <= j < |u| :: u[j] == start + LOGBLOCKS + 1 + j
  {
  }

  lemma Fresh(s: seq<Buf>, d: DiskState, view: DiskState, pins: seq<nat>, bno: nat)
    requires StorageInv(s, multiset{}, d, view, pins) && NoneHeld(s) && |pins| < NBUF
    ensures FreeSlot(s) && !IsHeld(s, DEV, bno)
  {
    FreeSlotIffRoom(s, multiset{}, d, view, pins);
  }

  lemma StillNoneHeld(s0: seq<Buf>, s1: seq<Buf>, s2: seq<Buf>, s3: seq<Buf>, s4: seq<Buf>, b: nat)
    requires b < NBUF && NoneHeld(s0) && OthersKept(s0, s1, b) && OthersKept(s3, s4, b) && !s4[b].locked
    requires |s2| == |s1| && (forall j | 0 <= j < |s1| && j != b :: s2[j] == s1[j])
    requires |s3| == |s2| && (forall j | 0 <= j < |s2| && j != b :: s3[j] == s2[j])
    ensures NoneHeld(s4)
  {
    forall j | 0 <= j < NBUF
      ensures !s4[j].locked
    {
      assert j == b || (SameBuf(s4[j], s3[j]) && SameBuf(s1[j], s0[j]));
    }
  }

  /** bread of a fresh block, a change to it, log_write, brelse. */
  method LogOne(log: Log, i: nat, ghost run: seq<Admission.State>) returns (ghost more: seq<Admission.State>)
    requires Filled(log, i) && i < LOGBLOCKS && Recorded(log, run)
    modifies log, log.block, log.cache, log.cache.buf
    ensures Filled(log, i + 1) && Recorded(log, more) && log.disk.writes == old(log.disk.writes)
  {
    hide StorageInv, Linked, FullRing, UniqueKeys, CacheInv, Admission.Inv, OthersKept, NoneHeld, FreeSlot, IsHeld, Share, WaitInv, Admission.IsRun;
    var bno, o := log.start + LOGBLOCKS + 1 + i, i / MAXOPBLOCKS;
    ghost var s0, t := log.cache.buf[..], log.block[..log.n];
    Fresh(s0, log.disk.blocks, log.view, t, bno);
    NextShare(i);
    NextBlock(t, t + [bno], log.start);
    var found, b := log.ReadNow(bno, t);
    ghost var s1 := log.cache.buf[..];
    log.Edit(b, ZERO, t);
    ghost var s2 := log.cache.buf[..];
    log.LogWrite(b, o);
    ghost var s3 := log.cache.buf[..];
    assert log.block[..log.n] == t + [bno];
    log.Release(b, t + [bno]);
    StillNoneHeld(s0, s1, s2, s3, log.cache.buf[..], b);
    assert log.block[..log.n] == t + [bno];
    assert forall j | 0 <= j <= i :: log.block[j] == (t + [bno])[j];
    LogStep(old(log.St()), o, bno);
    OneMoreStep(run, log.St());
    more := run + [log.St()];
  }

  lemma LogStep(s: Admission.State, o: nat, b: nat)
    requires o in s.used && s.used[o] < MAXOPBLOCKS
    ensures Admission.Step(s, Admission.LogBlock(s, o, b))
  {
  }

  lemma BeginStep(s: Admission.State, o: nat)
    requires Admission.CanBegin(s) && o !in s.used
    ensures Admission.Step(s, Admission.Begin(s, o))
  {
  }

  lemma EndStep(s: Admission.State, o: nat)
    requires o in s.used && s.outstanding > 0
    ensures Admission.Step(s, Admission.End(s, o))
  {
  }

  lemma BlankDisk(d: DiskState, start: nat)
    requires start + LOGBLOCKS < |d| <= 0x1_0000_0000 && d[start] == ZERO
    ensures WellFormed(d, start)
  {
    WordOfZero(0);
  }

  method BeginNext(log: Log, o: nat, ghost run: seq<Admission.State>) returns (ghost more: seq<Admission.State>)
    requires log.Valid() && Recorded(log, run) && o !in log.used && Admission.CanBegin(log.St())
    modifies log
    ensures log.Valid() && Recorded(log, more) && log.St() == Admission.Begin(old(log.St()), o)
  {
    hide StorageInv, WaitInv, CacheInv, Admission.Inv, Admission.IsRun;
    BeginStep(log.St(), o);
    var a := log.BeginOp(o);
    OneMoreStep(run, log.St());
    more := run + [log.St()];
  }

  method EndNext(log: Log, o: nat, ghost run: seq<Admission.State>) returns (ghost more: seq<Admission.State>)
    requires log.Valid() && Recorded(log, run) && o in log.used && log.outstanding > 0
    modifies log
    ensures log.Valid() && Recorded(log, more) && log.St() == Admission.End(old(log.St()), o)
  {
    hide StorageInv, WaitInv, CacheInv, Admission.Inv, Admission.IsRun;
    EndStep(log.St(), o);
    var c := log.EndOp(o);
    OneMoreStep(run, log.St());
    more := run + [log.St()];
  }

  /** Three operations begin on an idle log. */
  method BeginThree(log: Log) returns (ghost run: seq<Admission.State>)
    requires log.Valid() && NoneHeld(log.cache.buf[..]) && log.cache.waiting == multiset{}
    requires log.n == 0 && log.outstanding == 0 && !log.committing && log.used == map[]
    requires log.start + 2 * LOGBLOCKS < |log.disk.blocks|
    modifies log
    ensures Filled(log, 0) && Recorded(log, run)
  {
    hide StorageInv, WaitInv, CacheInv, Admission.Inv, NoneHeld;
    assert log.block[..log.n] == [];
    run := [log.St()];
    hide Admission.IsRun;
    run := BeginNext(log, 0, run);
    run := BeginNext(log, 1, run);
    run := BeginNext(log, 2, run);
    assert |log.block[..log.n]| == 0;
  }

  /** The three operations end on a full log, and the commit finds no buffer. */
  method EndThree(log: Log, ghost run: seq<Admission.State>) returns (ok: bool, ghost more: seq<Admission.State>)
    requires Filled(log, LOGBLOCKS) && Recorded(log, run)
    modifies log, log.cache, log.cache.buf, log.disk
    ensures !ok && Recorded(log, more) && log.n <= log.block.Length && log.St().committing && |log.St().lh| == LOGBLOCKS
    ensures log.disk.writes == old(log.disk.writes)
  {
    hide StorageInv, WaitInv, CacheInv, Admission.Inv, Admission.IsRun;
    more := EndNext(log, 0, run);
    more := EndNext(log, 1, more);
    more := EndNext(log, 2, more);
    hide NoneHeld;
    NobodyThere(log.cache.buf[..], log.start, log.block[..log.n]);
    ok := log.Commit();
  }

  lemma NobodyThere(s: seq<Buf>, start: nat, t: seq<nat>)
    requires NoneHeld(s)
    ensures LogUnheld(s, multiset{}, start, t)
  {
  }

  /** A boot on a blank disk of 62 blocks. */
  method Boot() returns (log: Log)
    ensures fresh(log) && fresh(log.block) && fresh(log.cache) && fresh(log.cache.buf) && fresh(log.disk)
    ensures log.Valid() && NoneHeld(log.cache.buf[..]) && log.cache.waiting == multiset{}
    ensures log.n == 0 && log.outstanding == 0 && !log.committing && log.used == map[]
    ensures log.start + 2 * LOGBLOCKS < |log.disk.blocks| && |log.disk.writes| == 1
  {
    hide StorageInv, WaitInv, CacheInv, Admission.Inv, NoneHeld, FreeSlot, UniqueKeys, EncodeHeader;
    var image: DiskState := seq(62, _ => ZERO);
    BlankDisk(image, 1);
    var disk := new Disk(image);
    log := new Log(disk, 1);
    log.Recover();
  }

  /** From a boot on a blank disk of 62 blocks: three operations, all active, log
      ten new blocks each, every one within its budget, and end; the commit then
      fails, where the code panics, before it has written anything. The log gets
      there by an admission run, in which every log_write is within budget. */
  method FullLogCommitFails() returns (log: Log, ok: bool, ghost run: seq<Admission.State>)
    ensures fresh(log) && !ok && log.n <= log.block.Length
    ensures Admission.IsRun(run) && run[|run| - 1] == log.St()
    ensures log.St().committing && |log.St().lh| == LOGBLOCKS
    ensures |log.disk.writes| == 1 // of the recovery at boot
  {
    hide Recorded, Filled;
    log := Boot();
    run := BeginThree(log);
    var i := 0;
    while i < LOGBLOCKS
      invariant 0 <= i <= LOGBLOCKS && Filled(log, i) && Recorded(log, run)
      invariant fresh(log) && fresh(log.block) && fresh(log.cache) && fresh(log.cache.buf) && fresh(log.disk)
      invariant |log.disk.writes| == 1
    {
      run := LogOne(log, i, run);
      i := i + 1;
    }
    ok, run := EndThree(log, run);
    RecordedRun(log, run);
  }
}
