/** log.c over the real cache and disk: admission, log_write, the commit and
    recovery loops, each proved to issue exactly the block writes of LogSpec. */
module LogModule {
  import opened Blocks
  import opened LogSpec
  import opened Bio
  import opened Storage
  import opened Pages
  import Admission

  class Log {
    const cache: Bcache
    const disk: Disk
    const start: nat
    var outstanding: nat
    var committing: bool
    var n: nat
    const block: array<nat>
    ghost var view: DiskState
    ghost var used: map<nat, nat>

    /** A boot: fresh cache, empty memory, and whatever the disk holds. */
    constructor (disk: Disk, start: nat)
      requires start + LOGBLOCKS < |disk.blocks| <= 0x1_0000_0000
      ensures this.disk == disk && this.start == start && fresh(cache) && fresh(cache.buf) && fresh(block)
      ensures Coherent([]) && view == disk.blocks && n == 0 && outstanding == 0 && !committing && used == map[]
      ensures NoneHeld(cache.buf[..]) && FreeSlot(cache.buf[..]) && cache.waiting == multiset{}
    {
      this.disk := disk;
      this.start := start;
      cache := new Bcache();
      block := new nat[LOGBLOCKS];
      outstanding, committing, n := 0, false, 0;
      view, used := disk.blocks, map[];
      new;
      assert HasKey(cache.buf[0], 0, 0);
    }

    /** The cache agrees with view and disk when the given blocks are pinned. */
    ghost predicate Coherent(pins: seq<nat>)
      reads this, block, cache, cache.buf, disk
    {
      && cache.Valid()
      && block.Length == LOGBLOCKS && n <= LOGBLOCKS && cache.buf.Length == NBUF + 1
      && start + LOGBLOCKS < |disk.blocks| == |view| <= 0x1_0000_0000
      && ValidTargets(|disk.blocks|, start, block[..n])
      && ValidTargets(|disk.blocks|, start, pins)
      && StorageInv(cache.buf[..], cache.waiting, disk.blocks, view, pins)
    }

    ghost function St(): Admission.State
      requires n <= block.Length
      reads this, block
    {
      Admission.State(outstanding, committing, block[..n], used)
    }

    /** Between lock sections: the on-disk log is empty, exactly the blocks in
        the header are pinned, and admission keeps its budget. */
    ghost predicate Valid()
      reads this, block, cache, cache.buf, disk
    {
      && n <= block.Length && Coherent(block[..n])
      && Word(disk.blocks[start], 0) == 0
      && Admission.Inv(St())
    }

    // ----- buffers -----

    /** bread: the view of the block, in a locked buffer, unless somebody else
        holds it; then the caller waits for it, its reference counted. */
    method Read(bno: nat, ghost pins: seq<nat>) returns (found: bool, b: nat, waits: bool)
      requires Coherent(pins) && bno < |disk.blocks|
      modifies cache`waiting, cache.buf
      ensures Coherent(pins) && found == (b < NBUF)
      ensures found <==> IsCached(old(cache.buf[..]), bno) || FreeSlot(old(cache.buf[..]))
      ensures waits <==> IsHeld(old(cache.buf[..]), DEV, bno)
      ensures waits ==> Queued(old(cache.buf[..]), DEV, bno, b, cache.buf[..])
      ensures cache.waiting == if waits then old(cache.waiting) + multiset{Waiter(b, DEV, bno)} else old(cache.waiting)
      ensures found && !waits ==> cache.buf[b].locked && HasKey(cache.buf[b], DEV, bno) && cache.buf[b].data == view[bno]
      ensures found && !waits ==> OthersKept(old(cache.buf[..]), cache.buf[..], b) && !old(cache.buf[b]).locked
      ensures !found ==> cache.buf[..] == old(cache.buf[..])
    {
      hide Linked, FullRing, UniqueKeys, StorageInv, WaitInv;
      ghost var s0, q0 := cache.buf[..], cache.waiting;
      found, b, waits := cache.Bread(disk, DEV, bno);
      if waits {
        QueueKeeps(s0, cache.ring, q0, disk.blocks, view, pins, bno, b, cache.buf[..]);
      } else if found {
        ReadKeeps(s0, cache.ring, q0, disk.blocks, view, pins, bno, b, cache.buf[..]);
      }
    }

    /** bread of a block whose buffer nobody holds. */
    method ReadNow(bno: nat, ghost pins: seq<nat>) returns (found: bool, b: nat)
      requires Coherent(pins) && bno < |disk.blocks| && !IsHeld(cache.buf[..], DEV, bno)
      modifies cache`waiting, cache.buf
      ensures Coherent(pins) && found == (b < NBUF) && cache.waiting == old(cache.waiting)
      ensures found <==> IsCached(old(cache.buf[..]), bno) || FreeSlot(old(cache.buf[..]))
      ensures found ==> cache.buf[b].locked && HasKey(cache.buf[b], DEV, bno) && cache.buf[b].data == view[bno]
      ensures found ==> OthersKept(old(cache.buf[..]), cache.buf[..], b) && !old(cache.buf[b]).locked
      ensures !found ==> cache.buf[..] == old(cache.buf[..])
    {
      ghost var waits;
      found, b, waits := Read(bno, pins);
    }

    /** A waiting bread goes on, once nobody holds the buffer: it returns the
        view of the block it asked for. */
    method Resume(b: nat, bno: nat, ghost pins: seq<nat>)
      requires Coherent(pins) && Waiter(b, DEV, bno) in cache.waiting && !cache.buf[b].locked && bno < |disk.blocks|
      modifies cache`waiting, cache.buf
      ensures Coherent(pins) && b < NBUF && cache.waiting == old(cache.waiting) - multiset{Waiter(b, DEV, bno)}
      ensures cache.buf[b].locked && HasKey(cache.buf[b], DEV, bno) && cache.buf[b].data == view[bno]
      ensures Resumed(old(cache.buf[..]), disk.blocks, Waiter(b, DEV, bno), cache.buf[..])
      ensures OthersKept(old(cache.buf[..]), cache.buf[..], b)
    {
      hide Linked, FullRing, UniqueKeys, StorageInv, WaitInv;
      ghost var s0, q0 := cache.buf[..], cache.waiting;
      cache.Resume(disk, b, DEV, bno);
      ResumeKeeps(s0, q0, disk.blocks, view, pins, Waiter(b, DEV, bno), cache.buf[..]);
    }

    /** brelse of a buffer whose contents are the view of its block. */
    method Release(b: nat, ghost pins: seq<nat>)
      requires Coherent(pins) && b < NBUF && cache.buf[b].locked
      requires cache.buf[b].blockno < |view| && cache.buf[b].data == view[cache.buf[b].blockno]
      modifies cache`ring, cache.buf
      ensures Coherent(pins)
      ensures OthersKept(old(cache.buf[..]), cache.buf[..], b) && !cache.buf[b].locked
      ensures HasKey(cache.buf[b], old(cache.buf[b]).dev, old(cache.buf[b]).blockno)
      ensures cache.buf[b].refcnt == old(cache.buf[b]).refcnt - 1
    {
      cache.Brelse(b);
      ReleaseKeeps(old(cache.buf[..]), cache.waiting, disk.blocks, view, pins, b, cache.buf[..]);
    }

    /** Fill a held buffer and bwrite it. */
    method WriteThrough(b: nat, data: Block, ghost pins: seq<nat>)
      requires Coherent(pins) && b < NBUF && cache.buf[b].locked
      modifies this`view, cache.buf, disk
      ensures var bno := old(cache.buf[b]).blockno;
        && bno < old(|disk.blocks|)
        && disk.blocks == old(disk.blocks)[bno := data]
        && disk.writes == old(disk.writes) + [Write(bno, data)]
        && view == old(view)[bno := data]
      ensures cache.buf[..] == old(cache.buf[..])[b := old(cache.buf[b]).(data := data)]
      ensures Coherent(pins)
    {
      ghost var bno := cache.buf[b].blockno;
      assert BufInv(cache.buf[..][b], cache.waiting[WaiterOf(cache.buf[..], b)], view, pins);
      WriteKeeps(cache.buf[..], cache.waiting, disk.blocks, view, pins, b, data);
      cache.SetData(b, data);
      cache.Bwrite(disk, b);
      view := view[bno := data];
    }

    /** The holder of a buffer changes its contents; nothing else sees them yet. */
    method Edit(b: nat, data: Block, ghost pins: seq<nat>)
      requires Coherent(pins) && b < NBUF && cache.buf[b].locked
      modifies cache.buf
      ensures Coherent(pins) && cache.buf[..] == old(cache.buf[..])[b := old(cache.buf[b]).(data := data)]
    {
      EditKeeps(cache.buf[..], cache.waiting, disk.blocks, view, pins, b, data);
      cache.SetData(b, data);
    }

    // ----- admission -----

    /** One pass of begin_op's loop; when not admitted the caller sleeps. */
    method BeginOp(ghost o: nat) returns (admitted: bool)
      requires Valid() && o !in used
      modifies this
      ensures Valid() && view == old(view)
      ensures admitted <==> Admission.CanBegin(old(St()))
      ensures admitted <==> !old(committing) && old(n) + (old(outstanding) + 1) * 10 <= 30
      ensures outstanding == old(outstanding) + (if admitted then 1 else 0)
      ensures St() == if admitted then Admission.Begin(old(St()), o) else old(St())
    {
      if committing || n + (outstanding + 1) * MAXOPBLOCKS > LOGBLOCKS {
        return false;
      }
      Admission.BeginKeeps(St(), o);
      outstanding := outstanding + 1;
      used := used[o := 0];
      return true;
    }

    /** The first lock section of end_op. */
    method EndOp(ghost o: nat) returns (doCommit: bool)
      requires Valid() && o in used
      modifies this
      ensures Valid() && view == old(view)
      ensures St() == Admission.End(old(St()), o)
      ensures doCommit <==> committing
      ensures doCommit <==> old(outstanding) == 1
      ensures outstanding == old(outstanding) - 1 && n == old(n)
    {
      Admission.EndKeeps(St(), o);
      assert outstanding > 0 && !committing; // the panic is not met
      outstanding := outstanding - 1;
      used := used - {o};
      if outstanding == 0 {
        committing := true;
        return true;
      }
      return false;
    }

    /** log_write by operation o of the buffer it holds: neither panic is met
        while o is within its budget; the contents become the view, and the
        block is pinned unless it was logged before. The disk is not written. */
    method LogWrite(b: nat, ghost o: nat)
      requires Valid() && b < NBUF && cache.buf[b].locked && !InLog(start, cache.buf[b].blockno)
      requires o in used && used[o] < MAXOPBLOCKS
      modifies this, block, cache.buf
      ensures Valid()
      ensures var old_b := old(cache.buf[b]);
        && old_b.blockno < old(|view|)
        && view == old(view)[old_b.blockno := old_b.data]
        && St() == Admission.LogBlock(old(St()), o, old_b.blockno)
        && n <= block.Length
        && block[..n] == (if old_b.blockno in old(block[..n]) then old(block[..n]) else old(block[..n]) + [old_b.blockno])
        && cache.buf[..] == old(cache.buf[..])[b := old_b.(refcnt :=
          if old_b.blockno in old(block[..n]) then old_b.refcnt else old_b.refcnt + 1)]
    {
      hide StorageInv, WaitInv, Linked, FullRing, UniqueKeys;
      RoomToLog(St(), o);
      var i := Slot(cache.buf[b].blockno);
      if i == n {
        Admission.LogBlockKeeps(St(), o, cache.buf[b].blockno);
        Append(b);
        used := used[o := used[o] + 1];
      } else {
        Absorb(b, i, o);
      }
    }

    /** The search loop of log_write. */
    method Slot(bno: nat) returns (i: nat)
      requires n <= block.Length
      ensures i <= n
      ensures i == n <==> bno !in block[..n]
      ensures i < n ==> block[i] == bno
    {
      i := 0;
      while i < n && block[i] != bno
        invariant i <= n && bno !in block[..i]
      {
        i := i + 1;
      }
      if i < n {
        assert block[i] in block[..n];
      }
    }

    method Absorb(b: nat, i: nat, ghost o: nat)
      requires Valid() && b < NBUF && cache.buf[b].locked && i < n && block[i] == cache.buf[b].blockno
      requires o in used && used[o] < MAXOPBLOCKS
      modifies this`view, block
      ensures Valid() && St() == old(St())
      ensures cache.buf[b].blockno in block[..n] && cache.buf[b].blockno < old(|view|)
      ensures view == old(view)[cache.buf[b].blockno := cache.buf[b].data]
    {
      ghost var t := block[..n];
      assert block[i] in t;
      AbsorbKeeps(cache.buf[..], cache.waiting, disk.blocks, view, t, b);
      block[i] := cache.buf[b].blockno;
      assert block[..n] == t;
      view := view[cache.buf[b].blockno := cache.buf[b].data];
    }

    method Append(b: nat)
      requires n <= block.Length && Coherent(block[..n]) && b < NBUF && cache.buf[b].locked
      requires cache.buf[b].blockno !in block[..n] && n < LOGBLOCKS && !InLog(start, cache.buf[b].blockno)
      modifies this`view, this`n, block, cache.buf
      ensures n <= block.Length && block[..n] == old(block[..n]) + [old(cache.buf[b]).blockno]
      ensures Coherent(block[..n])
      ensures old(cache.buf[b]).blockno < old(|view|)
      ensures view == old(view)[old(cache.buf[b]).blockno := old(cache.buf[b]).data]
      ensures cache.buf[..] == old(cache.buf[..])[b := old(cache.buf[b]).(refcnt := old(cache.buf[b]).refcnt + 1)]
    {
      hide WaitInv, CacheInv, UniqueKeys;
      ghost var s, t, bno := cache.buf[..], block[..n], cache.buf[b].blockno;
      assert BufInv(s[b], cache.waiting[WaiterOf(s, b)], view, t);
      PinKeeps(s, cache.waiting, disk.blocks, view, t, b);
      view := view[bno := cache.buf[b].data];
      block[n] := cache.buf[b].blockno;
      cache.Bpin(b);
      n := n + 1;
      assert block[..n] == t + [bno];
      assert cache.buf[..] == s[b := s[b].(refcnt := s[b].refcnt + 1)];
      assert StorageInv(cache.buf[..], cache.waiting, disk.blocks, view, t + [bno]);
    }

    static lemma RoomToLog(s: Admission.State, o: nat)
      requires Admission.Inv(s) && o in s.used && s.used[o] < MAXOPBLOCKS
      ensures |s.lh| < LOGBLOCKS
    {
      Admission.UnusedWithout(s.used, o);
      Admission.UnusedNonNegative(s.used - {o});
    }

    // ----- commit and recovery -----

    /** One iteration of write_log, when nobody holds its two buffers: cache
        block to log block. It fails exactly when the log block is not cached
        and no buffer is free. */
    method CopyToLog(tail: nat) returns (ok: bool)
      requires n <= block.Length && Coherent(block[..n]) && tail < n
      requires !IsHeld(cache.buf[..], DEV, start + 1 + tail) && !IsHeld(cache.buf[..], DEV, block[tail])
      modifies this`view, cache, cache.buf, disk
      ensures ok <==> IsCached(old(cache.buf[..]), start + 1 + tail) || FreeSlot(old(cache.buf[..]))
      ensures cache.waiting == old(cache.waiting)
      ensures !ok ==> disk.blocks == old(disk.blocks) && disk.writes == old(disk.writes)
      ensures ok ==> Coherent(block[..n]) && NoNewHolders(old(cache.buf[..]), cache.buf[..])
      ensures ok && NotAwaited(cache.waiting, start + 1 + tail) ==> FreeSlot(cache.buf[..])
      ensures ok ==> WroteCopy(old(disk.blocks), old(disk.writes), old(view), start + 1 + tail, block[tail],
                               disk.blocks, disk.writes, view)
    {
      hide StorageInv, WaitInv, Linked, FullRing, UniqueKeys, NoNewHolders, FreeSlot, IsHeld, IsCached, NotAwaited;
      ghost var t, s0 := block[..n], cache.buf[..];
      assert block[tail] == t[tail];
      var to, from;
      ok, to := ReadNow(start + 1 + tail, t);
      if !ok {
        return;
      }
      ghost var s1 := cache.buf[..];
      PinnedIsCached(s1, cache.waiting, disk.blocks, view, t, tail);
      StillNotHeld(s0, s1, to, t[tail]);
      var found;
      found, from := ReadNow(block[tail], t);
      WriteThrough(to, cache.buf[from].data, t);
      Release(from, t);
      ghost var s4 := cache.buf[..];
      Release(to, t);
      PairBack(s0, s4, cache.buf[..], from, to);
      ReleasedIsFree(cache.buf[..], cache.waiting, disk.blocks, view, t, to);
    }

    /** One iteration of install_trans, when nobody holds its two buffers: log
        block to home block; outside recovery the home block's pin is dropped.
        It fails exactly when the log block is not cached and no buffer is free. */
    method InstallOne(tail: nat, recovering: bool) returns (ok: bool)
      requires n <= block.Length && tail < n && Coherent(if recovering then [] else block[tail..n])
      requires !IsHeld(cache.buf[..], DEV, start + 1 + tail) && !IsHeld(cache.buf[..], DEV, block[tail])
      requires if recovering then NoneHeld(cache.buf[..]) && cache.waiting == multiset{} && ValidTargets(|disk.blocks|, start, block[..n])
               else start + 1 + tail < |view| && block[tail] < |view| && view[start + 1 + tail] == view[block[tail]]
      modifies this`view, cache, cache.buf, disk
      ensures ok <==> IsCached(old(cache.buf[..]), start + 1 + tail) || FreeSlot(old(cache.buf[..]))
      ensures cache.waiting == old(cache.waiting)
      ensures !ok ==> disk.blocks == old(disk.blocks) && disk.writes == old(disk.writes)
      ensures ok ==> Coherent(if recovering then [] else block[tail + 1..n]) && NoNewHolders(old(cache.buf[..]), cache.buf[..])
      ensures ok && NotAwaited(cache.waiting, start + 1 + tail) ==> FreeSlot(cache.buf[..])
      ensures ok ==> WroteCopy(old(disk.blocks), old(disk.writes), old(view), block[tail], start + 1 + tail,
                               disk.blocks, disk.writes, view)
    {
      hide StorageInv, WaitInv, Linked, FullRing, UniqueKeys, NoNewHolders, FreeSlot, IsHeld, IsCached, NotAwaited;
      ghost var pins, s0 := if recovering then [] else block[tail..n], cache.buf[..];
      assert block[tail] == block[..n][tail];
      var lbuf, dbuf;
      ok, lbuf, dbuf := ReadBoth(tail, recovering, pins);
      if !ok {
        return;
      }
      Install(tail, recovering, lbuf, dbuf, pins, s0);
    }

    /** The rest of the iteration: copy, bwrite, bunpin, brelse of both. */
    method Install(tail: nat, recovering: bool, lbuf: nat, dbuf: nat, ghost pins: seq<nat>, ghost s0: seq<Buf>)
      requires n <= block.Length && tail < n && Coherent(pins) && pins == if recovering then [] else block[tail..n]
      requires lbuf < NBUF && dbuf < NBUF && lbuf != dbuf && PairKept(s0, cache.buf[..], lbuf, dbuf)
      requires cache.buf[lbuf].locked && HasKey(cache.buf[lbuf], DEV, start + 1 + tail)
      requires cache.buf[dbuf].locked && HasKey(cache.buf[dbuf], DEV, block[tail]) && block[tail] < |view| && !InLog(start, block[tail])
      requires start + 1 + tail < |view| && cache.buf[lbuf].data == view[start + 1 + tail]
      modifies this`view, cache`ring, cache.buf, disk
      ensures Coherent(if recovering then [] else block[tail + 1..n]) && NoNewHolders(s0, cache.buf[..])
      ensures NotAwaited(cache.waiting, start + 1 + tail) ==> FreeSlot(cache.buf[..])
      ensures WroteCopy(old(disk.blocks), old(disk.writes), old(view), block[tail], start + 1 + tail,
                        disk.blocks, disk.writes, view)
    {
      hide StorageInv, WaitInv, CacheInv, NoNewHolders, FreeSlot, NotAwaited;
      WriteThrough(dbuf, cache.buf[lbuf].data, pins);
      ghost var left := pins;
      if !recovering {
        Unpin(dbuf, pins);
        left := pins[1..];
        assert left == block[tail + 1..n];
      }
      Release(lbuf, left);
      ghost var s4 := cache.buf[..];
      Release(dbuf, left);
      PairBack(s0, s4, cache.buf[..], lbuf, dbuf);
      ReleasedIsFree(cache.buf[..], cache.waiting, disk.blocks, view, left, lbuf);
    }

    /** The two breads of install_trans. */
    method ReadBoth(tail: nat, recovering: bool, ghost pins: seq<nat>) returns (ok: bool, lbuf: nat, dbuf: nat)
      requires n <= block.Length && tail < n && Coherent(pins)
      requires !IsHeld(cache.buf[..], DEV, start + 1 + tail) && !IsHeld(cache.buf[..], DEV, block[tail])
      requires if recovering then pins == [] && NoneHeld(cache.buf[..]) && cache.waiting == multiset{} else pins == block[tail..n]
      modifies cache`waiting, cache.buf
      ensures ok <==> IsCached(old(cache.buf[..]), start + 1 + tail) || FreeSlot(old(cache.buf[..]))
      ensures Coherent(pins) && cache.waiting == old(cache.waiting)
      ensures ok ==>
        && lbuf < NBUF && dbuf < NBUF && lbuf != dbuf
        && cache.buf[lbuf].locked && HasKey(cache.buf[lbuf], DEV, start + 1 + tail)
        && cache.buf[dbuf].locked && HasKey(cache.buf[dbuf], DEV, block[tail])
        && start + 1 + tail < |view| && cache.buf[lbuf].data == view[start + 1 + tail]
        && PairKept(old(cache.buf[..]), cache.buf[..], lbuf, dbuf)
    {
      hide StorageInv, WaitInv, Linked, FullRing, UniqueKeys, FreeSlot, IsHeld, IsCached;
      ghost var s0 := cache.buf[..];
      assert block[tail] == block[..n][tail];
      dbuf := 0;
      ok, lbuf := ReadNow(start + 1 + tail, pins);
      if !ok {
        return;
      }
      ghost var s1 := cache.buf[..];
      StillNotHeld(s0, s1, lbuf, block[tail]);
      if recovering {
        OtherSlotFree(s0, s1, disk.blocks, view, lbuf);
      } else {
        PinnedIsCached(s1, cache.waiting, disk.blocks, view, pins, 0);
      }
      var found;
      found, dbuf := ReadNow(block[tail], pins);
    }

    /** bunpin of the installed block at the head of the remaining pins. */
    method Unpin(b: nat, ghost pins: seq<nat>)
      requires Coherent(pins) && b < NBUF && cache.buf[b].locked && pins != []
      requires HasKey(cache.buf[b], DEV, pins[0]) && disk.blocks[pins[0]] == view[pins[0]]
      modifies cache.buf
      ensures Coherent(pins[1..])
      ensures cache.buf[..] == old(cache.buf[..])[b := old(cache.buf[b]).(refcnt := old(cache.buf[b]).refcnt - 1)]
    {
      UnpinKeeps(cache.buf[..], cache.waiting, disk.blocks, view, pins, b);
      cache.Bunpin(b);
    }

    /** write_head, when nobody holds the header's buffer: the header block takes
        the in-memory count and block numbers. It fails exactly when the header
        is not cached and no buffer is free. */
    method WriteHead(ghost pins: seq<nat>) returns (ok: bool)
      requires Coherent(pins) && !IsHeld(cache.buf[..], DEV, start)
      modifies this`view, cache, cache.buf, disk
      ensures ok <==> IsCached(old(cache.buf[..]), start) || FreeSlot(old(cache.buf[..]))
      ensures cache.waiting == old(cache.waiting)
      ensures !ok ==> disk.blocks == old(disk.blocks) && disk.writes == old(disk.writes)
      ensures ok ==> Coherent(pins) && NoNewHolders(old(cache.buf[..]), cache.buf[..])
      ensures ok && NotAwaited(cache.waiting, start) ==> FreeSlot(cache.buf[..])
      ensures Addresses(block[..n])
      ensures ok ==> start < |disk.blocks| && HeaderBytes(disk.blocks[start], block[..n])
      ensures ok ==> Wrote(old(disk.blocks), old(disk.writes), old(view), start,
                           EncodeHeader(old(disk.blocks)[start], block[..n]), disk.blocks, disk.writes, view)
    {
      hide StorageInv, WaitInv, CacheInv, NoNewHolders, FreeSlot, IsHeld, IsCached, NotAwaited, HeaderBytes;
      ghost var s0 := cache.buf[..];
      HeaderClean(s0, cache.waiting, disk.blocks, view, pins, start);
      var b;
      ok, b := ReadNow(start, pins);
      if !ok {
        return;
      }
      var h := HeaderData(cache.buf[b].data);
      EncodeHeaderLayout(cache.buf[b].data, block[..n]);
      WriteThrough(b, h, pins);
      ghost var s1 := cache.buf[..];
      Release(b, pins);
      SingleBack(s0, s1, cache.buf[..], b);
      ReleasedIsFree(cache.buf[..], cache.waiting, disk.blocks, view, pins, b);
    }

    /** The copying loop of write_head. */
    method HeaderData(old_h: Block) returns (h: Block)
      requires n <= block.Length && n <= LOGBLOCKS && Addresses(block[..n])
      ensures h == EncodeHeader(old_h, block[..n])
    {
      h := PutWord(old_h, 0, n);
      var i := 0;
      while i < n
        invariant 0 <= i <= n
        invariant h == PutTargets(PutWord(old_h, 0, n), block[..n], i)
      {
        assert block[..n][i] == block[i];
        h := PutWord(h, i + 1, block[i]);
        i := i + 1;
      }
    }

    /** tail blocks are copied to the log since the state s0, d0, w0, v0. */
    ghost predicate Copying(tail: nat, s0: seq<Buf>, d0: DiskState, w0: seq<Write>, v0: DiskState)
      reads this, block, cache, cache.buf, disk
    {
      && tail <= n <= block.Length && Coherent(block[..n])
      && LogUnheld(cache.buf[..], cache.waiting, start, block[..n])
      && NoNewHolders(s0, cache.buf[..])
      && (FreeSlot(s0) <==> FreeSlot(cache.buf[..])) && (tail > 0 ==> FreeSlot(s0))
      && |v0| == |disk.blocks|
      && Progress(d0, w0, v0, LogCopies(v0, start, block[..n])[..tail], disk.blocks, disk.writes, view)
    }

    /** write_log: it fails, before any block write, exactly when no buffer is free. */
    method WriteLog() returns (ok: bool)
      requires 0 < n <= block.Length && Coherent(block[..n]) && LogUnheld(cache.buf[..], cache.waiting, start, block[..n])
      modifies this`view, cache, cache.buf, disk
      ensures ok <==> FreeSlot(old(cache.buf[..]))
      ensures cache.waiting == old(cache.waiting)
      ensures !ok ==> disk.blocks == old(disk.blocks) && disk.writes == old(disk.writes)
      ensures ok ==> Coherent(block[..n]) && FreeSlot(cache.buf[..]) && NoNewHolders(old(cache.buf[..]), cache.buf[..])
      ensures |disk.blocks| == old(|disk.blocks|)
      ensures ok ==> Progress(old(disk.blocks), old(disk.writes), old(view), LogCopies(old(view), start, block[..n]),
                              disk.blocks, disk.writes, view)
    {
      hide StorageInv, WaitInv, CacheInv, FreeSlot, NoNewHolders, LogUnheld, Progress;
      ghost var s0, d0, w0, v0 := cache.buf[..], disk.blocks, disk.writes, view;
      SameHolders(s0);
      NoProgress(d0, w0, v0, LogCopies(v0, start, block[..n]));
      var tail := 0;
      ok := true;
      while ok && tail < n
        invariant 0 <= tail <= n && cache.waiting == old(cache.waiting)
        invariant ok ==> Copying(tail, s0, d0, w0, v0)
        invariant !ok ==> !FreeSlot(s0) && disk.blocks == d0 && disk.writes == w0
      {
        ok := CopyNext(tail, s0, d0, w0, v0);
        tail := tail + 1;
      }
      if ok {
        assert LogCopies(v0, start, block[..n])[..n] == LogCopies(v0, start, block[..n]);
      }
    }

    method CopyNext(tail: nat, ghost s0: seq<Buf>, ghost d0: DiskState, ghost w0: seq<Write>, ghost v0: DiskState)
      returns (ok: bool)
      requires tail < n && Copying(tail, s0, d0, w0, v0)
      modifies this`view, cache, cache.buf, disk
      ensures cache.waiting == old(cache.waiting)
      ensures ok ==> Copying(tail + 1, s0, d0, w0, v0)
      ensures !ok ==> !FreeSlot(s0) && disk.blocks == d0 && disk.writes == w0
    {
      hide StorageInv, WaitInv, CacheInv, FreeSlot, NoNewHolders, LogUnheld, Wrote, IsHeld, IsCached, NotAwaited;
      ghost var t, s1, d1, w1, v1 := block[..n], cache.buf[..], disk.blocks, disk.writes, view;
      ghost var ws := LogCopies(v0, start, t);
      AfterLogCopies(v0, v0, start, t, tail);
      assert t[tail] == block[tail] && !InLog(start, t[tail]);
      LogBlockFree(s1, cache.waiting, d1, v1, start, t, t, start + 1 + tail);
      HomeUnheld(s1, cache.waiting, start, t, tail);
      ok := CopyToLog(tail);
      if ok {
        HoldersChain(s0, s1, cache.buf[..]);
        StillUnheld(s1, cache.buf[..], cache.waiting, start, t);
        assert ws[tail] == Write(start + 1 + tail, v0[block[tail]]);
        Extend(d0, w0, v0, ws, tail, d1, w1, v1, disk.blocks, disk.writes, view);
      }
    }

    /** tail blocks are installed since the state s0, d0, w0, v0. */
    ghost predicate Installing(tail: nat, recovering: bool, s0: seq<Buf>, d0: DiskState, w0: seq<Write>, v0: DiskState)
      reads this, block, cache, cache.buf, disk
    {
      && tail <= n <= block.Length && Coherent(if recovering then [] else block[tail..n])
      && LogUnheld(cache.buf[..], cache.waiting, start, block[..n]) && FreeSlot(cache.buf[..])
      && NoNewHolders(s0, cache.buf[..])
      && |v0| == |disk.blocks|
      && (if recovering then NoneHeld(cache.buf[..]) && cache.waiting == multiset{}
          else NoDup(block[..n]) && HoldsCopies(v0, v0, start, block[..n]))
      && Progress(d0, w0, v0, InstallWrites(v0, start, block[..n])[..tail], disk.blocks, disk.writes, view)
    }

    /** install_trans: every listed block gets its log copy. */
    method InstallTrans(recovering: bool)
      requires n <= block.Length && LogUnheld(cache.buf[..], cache.waiting, start, block[..n])
      requires Coherent(if recovering then [] else block[..n]) && FreeSlot(cache.buf[..])
      requires if recovering then NoneHeld(cache.buf[..]) && cache.waiting == multiset{} else HoldsCopies(view, view, start, block[..n])
      modifies this`view, cache, cache.buf, disk
      ensures Coherent([]) && FreeSlot(cache.buf[..]) && NoNewHolders(old(cache.buf[..]), cache.buf[..]) && cache.waiting == old(cache.waiting)
      ensures Progress(old(disk.blocks), old(disk.writes), old(view), InstallWrites(old(view), start, block[..n]),
                       disk.blocks, disk.writes, view)
    {
      hide StorageInv, WaitInv, CacheInv, FreeSlot, NoNewHolders, LogUnheld, Progress;
      ghost var s0, d0, w0, v0 := cache.buf[..], disk.blocks, disk.writes, view;
      SameHolders(s0);
      NoProgress(d0, w0, v0, InstallWrites(v0, start, block[..n]));
      if !recovering {
        PinsDistinct(s0, cache.waiting, d0, v0, block[..n]);
        assert block[0..n] == block[..n];
      }
      var tail := 0;
      while tail < n
        invariant 0 <= tail <= n && Installing(tail, recovering, s0, d0, w0, v0) && cache.waiting == old(cache.waiting)
      {
        InstallNext(tail, recovering, s0, d0, w0, v0);
        tail := tail + 1;
      }
      assert InstallWrites(v0, start, block[..n])[..n] == InstallWrites(v0, start, block[..n]);
      assert block[n..n] == [];
    }

    method InstallNext(tail: nat, recovering: bool,
                       ghost s0: seq<Buf>, ghost d0: DiskState, ghost w0: seq<Write>, ghost v0: DiskState)
      requires tail < n && Installing(tail, recovering, s0, d0, w0, v0)
      modifies this`view, cache, cache.buf, disk
      ensures Installing(tail + 1, recovering, s0, d0, w0, v0) && cache.waiting == old(cache.waiting)
    {
      hide StorageInv, WaitInv, CacheInv, FreeSlot, NoNewHolders, LogUnheld, Progress, Wrote, HoldsCopies, NoDup, InstallWrites, IsHeld, IsCached, NotAwaited;
      ghost var t, s1, d1, w1, v1 := block[..n], cache.buf[..], disk.blocks, disk.writes, view;
      ghost var ws := InstallWrites(v0, start, t);
      NextInstall(d0, w0, v0, d1, w1, v1, start, t, tail, recovering);
      assert t[tail] == block[tail];
      LogBlockFree(s1, cache.waiting, d1, v1, start, t, if recovering then [] else block[tail..n], start + 1 + tail);
      HomeUnheld(s1, cache.waiting, start, t, tail);
      var ok := InstallOne(tail, recovering);
      HoldersChain(s0, s1, cache.buf[..]);
      StillUnheld(s1, cache.buf[..], cache.waiting, start, t);
      Extend(d0, w0, v0, ws, tail, d1, w1, v1, disk.blocks, disk.writes, view);
    }

    /** commit: it fails, before any block write, exactly when something is
        logged and no buffer is free, which with no buffer held means that the
        log is full; otherwise it issues exactly the commit writes and leaves the
        log empty and every pin dropped. */
    method Commit() returns (ok: bool)
      requires Valid() && committing && (n > 0 ==> LogUnheld(cache.buf[..], cache.waiting, start, block[..n]))
      modifies this`n, this`view, cache, cache.buf, disk
      ensures ok <==> old(n) == 0 || FreeSlot(old(cache.buf[..]))
      ensures NoneHeld(old(cache.buf[..])) && old(cache.waiting) == multiset{} ==> (ok <==> old(n) < NBUF)
      ensures !ok ==> disk.blocks == old(disk.blocks) && disk.writes == old(disk.writes) && n == old(n)
      ensures ok ==> Valid() && St() == old(St()).(lh := []) && NoNewHolders(old(cache.buf[..]), cache.buf[..])
      ensures ok ==> Committed(old(disk.blocks), old(disk.writes), old(view), start, old(block[..n]),
                               disk.blocks, disk.writes, view)
    {
      hide StorageInv, WaitInv, CacheInv, FreeSlot, LogUnheld, NoNewHolders, Progress, Ready, Committed, Admission.Inv;
      ghost var t, s0, d0, w0, v0 := block[..n], cache.buf[..], disk.blocks, disk.writes, view;
      EmptiedKeeps(St());
      RoomInLog(s0, cache.waiting, d0, v0, t);
      ok := true;
      if n > 0 {
        ok := CommitBlocks(t, s0, d0, w0, v0);
      } else {
        SameHolders(s0);
        NothingCommitted(s0, cache.waiting, d0, w0, v0, start);
      }
      if ok {
        assert block[..n] == [];
        CommittedClean(d0, w0, v0, start, t, disk.blocks, disk.writes, view);
      }
    }

    static lemma RoomInLog(s: seq<Buf>, q: multiset<Waiter>, d: DiskState, v: DiskState, t: seq<nat>)
      requires StorageInv(s, q, d, v, t)
      ensures NoneHeld(s) && q == multiset{} ==> (FreeSlot(s) <==> |t| < NBUF)
    {
      FreeSlotIffRoom(s, q, d, v, t);
    }

    /** commit of a log that is not empty. */
    method CommitBlocks(ghost t: seq<nat>, ghost s0: seq<Buf>, ghost d0: DiskState, ghost w0: seq<Write>, ghost v0: DiskState)
      returns (ok: bool)
      requires 0 < n <= block.Length && t == block[..n] && Coherent(t) && LogUnheld(cache.buf[..], cache.waiting, start, t)
      requires s0 == cache.buf[..] && d0 == disk.blocks && w0 == disk.writes && v0 == view
      requires Word(disk.blocks[start], 0) == 0
      modifies this`n, this`view, cache, cache.buf, disk
      ensures ok <==> FreeSlot(s0)
      ensures cache.waiting == old(cache.waiting)
      ensures !ok ==> disk.blocks == d0 && disk.writes == w0 && n == old(n)
      ensures ok ==> Coherent([]) && n == 0 && NoNewHolders(s0, cache.buf[..])
      ensures ok ==> Committed(d0, w0, v0, start, t, disk.blocks, disk.writes, view)
    {
      hide StorageInv, WaitInv, CacheInv, FreeSlot, LogUnheld, NoNewHolders, Progress, Ready, Committed;
      ReadyToCommit(s0, cache.waiting, d0, v0, start, t);
      ok := WriteLog();
      if ok {
        ok := FinishWrites(t, s0, d0, w0, v0);
      }
    }

    static lemma EmptiedKeeps(s: Admission.State)
      requires Admission.Inv(s) && s.committing
      ensures Admission.Inv(s.(lh := []))
    {
    }

    static lemma CommittedClean(d0: DiskState, w0: seq<Write>, v0: DiskState, start: nat, t: seq<nat>,
                                d: DiskState, w: seq<Write>, v: DiskState)
      requires Committed(d0, w0, v0, start, t, d, w, v)
      ensures start < |d| == |d0| && Word(d[start], 0) == 0
    {
    }

    /** commit after write_log. */
    method FinishWrites(ghost t: seq<nat>, ghost s0: seq<Buf>, ghost d0: DiskState, ghost w0: seq<Write>, ghost v0: DiskState)
      returns (ok: bool)
      requires n <= block.Length && t == block[..n] && t != [] && |d0| == |v0| == |disk.blocks|
      requires Coherent(t) && FreeSlot(cache.buf[..]) && LogUnheld(s0, cache.waiting, start, t) && NoNewHolders(s0, cache.buf[..])
      requires Ready(d0, v0, start, t)
      requires Progress(d0, w0, v0, LogCopies(v0, start, t), disk.blocks, disk.writes, view)
      modifies this`n, this`view, cache, cache.buf, disk
      ensures ok && Coherent([]) && n == 0 && NoNewHolders(s0, cache.buf[..]) && cache.waiting == old(cache.waiting)
      ensures Committed(d0, w0, v0, start, t, disk.blocks, disk.writes, view)
    {
      hide StorageInv, WaitInv, CacheInv, FreeSlot, LogUnheld, NoNewHolders, IsHeld, IsCached, NotAwaited, Progress, Wrote, Ready, HoldsCopies, InstallWrites;
      ghost var s1, d1, w1, v1 := cache.buf[..], disk.blocks, disk.writes, view;
      StillUnheld(s0, s1, cache.waiting, start, t);
      LogBlockFree(s1, cache.waiting, d1, v1, start, t, t, start);
      ok := WriteHead(t);
      ghost var s2, d2, w2, v2 := cache.buf[..], disk.blocks, disk.writes, view;
      HoldersChain(s0, s1, s2);
      StillUnheld(s0, s2, cache.waiting, start, t);
      HeadWritten(d0, w0, v0, start, t, d1, w1, v1, d2, w2, v2);
      InstallTrans(false);
      ghost var s3, d3, w3, v3 := cache.buf[..], disk.blocks, disk.writes, view;
      HoldersChain(s0, s2, s3);
      StillUnheld(s0, s3, cache.waiting, start, t);
      n := 0;
      LogBlockFree(s3, cache.waiting, d3, v3, start, t, [], start);
      ok := WriteHead([]);
      HoldersChain(s0, s3, cache.buf[..]);
      assert block[..n] == [];
      Erased(d0, w0, v0, start, t, d2, w2, v2, d3, w3, v3, disk.blocks, disk.writes, view);
    }

    static lemma ReadyToCommit(s: seq<Buf>, q: multiset<Waiter>, d: DiskState, v: DiskState, start: nat, t: seq<nat>)
      requires StorageInv(s, q, d, v, t) && start + LOGBLOCKS < |d| <= 0x1_0000_0000
      requires ValidTargets(|d|, start, t) && Word(d[start], 0) == 0
      ensures Ready(d, v, start, t)
    {
    }

    static lemma NothingCommitted(s: seq<Buf>, q: multiset<Waiter>, d: DiskState, w: seq<Write>, v: DiskState, start: nat)
      requires StorageInv(s, q, d, v, []) && start + LOGBLOCKS < |d| <= 0x1_0000_0000
      requires Word(d[start], 0) == 0
      ensures Committed(d, w, v, start, [], d, w, v)
    {
    }

    /** After the first write_head the installs will write what the view held. */
    static lemma HeadWritten(d0: DiskState, w0: seq<Write>, v0: DiskState, start: nat, t: seq<nat>,
                             d1: DiskState, w1: seq<Write>, v1: DiskState, d2: DiskState, w2: seq<Write>, v2: DiskState)
      requires Ready(d0, v0, start, t) && Addresses(t) && |d1| == |d0| && start < |d1|
      requires Progress(d0, w0, v0, LogCopies(v0, start, t), d1, w1, v1)
      requires Wrote(d1, w1, v1, start, EncodeHeader(d1[start], t), d2, w2, v2)
      ensures |d2| == |v2| == |v0|
      ensures Progress(d0, w0, v0, LogCopies(v0, start, t) + [Write(start, EncodeHeader(d0[start], t))], d2, w2, v2)
      ensures HoldsCopies(v2, v2, start, t)
      ensures InstallWrites(v2, start, t) == HomeCopies(v0, start, t)
      ensures d2[start] == EncodeHeader(d0[start], t)
    {
      hide EncodeHeader, Durable, LogCopies, InstallWrites, HomeCopies, HoldsCopies;
      var c := LogCopies(v0, start, t);
      var h := Write(start, EncodeHeader(d0[start], t));
      CopiesMade(d0, v0, start, t);
      assert (c + [h])[..|c|] == c;
      HeadKeepsCopies(v1, v0, start, t, v2);
    }

    /** The log copies touch neither the header nor a home block. */
    static lemma CopiesMade(d0: DiskState, v0: DiskState, start: nat, t: seq<nat>)
      requires Ready(d0, v0, start, t) && Addresses(t)
      ensures var c := LogCopies(v0, start, t);
        && Fits(|d0|, c) && Fits(|v0|, c) && start < |d0| == |v0| && Apply(d0, c)[start] == d0[start]
        && ValidTargets(|v0|, start, t) && start + LOGBLOCKS < |v0|
        && (forall j | 0 <= j < |t| :: Apply(v0, c)[start + 1 + j] == v0[t[j]] && Apply(v0, c)[t[j]] == v0[t[j]])
    {
      hide Durable;
      var c := LogCopies(v0, start, t);
      AfterLogCopies(d0, v0, start, t, |t|);
      AfterLogCopies(v0, v0, start, t, |t|);
      assert c[..|t|] == c;
      forall j | 0 <= j < |t|
        ensures Apply(v0, c)[start + 1 + j] == v0[t[j]] && Apply(v0, c)[t[j]] == v0[t[j]]
      {
        assert !InLog(start, t[j]);
      }
    }

    /** Nor does the header write touch the copies or a home block. */
    static lemma HeadKeepsCopies(v1: DiskState, v0: DiskState, start: nat, t: seq<nat>, v2: DiskState)
      requires ValidTargets(|v0|, start, t) && start + LOGBLOCKS < |v0| == |v1| == |v2|
      requires forall b: nat | b < |v1| && b != start :: v2[b] == v1[b]
      requires forall j | 0 <= j < |t| :: v1[start + 1 + j] == v0[t[j]] && v1[t[j]] == v0[t[j]]
      ensures HoldsCopies(v2, v2, start, t) && InstallWrites(v2, start, t) == HomeCopies(v0, start, t)
    {
      forall j | 0 <= j < |t|
        ensures v2[start + 1 + j] == v0[t[j]] && v2[t[j]] == v0[t[j]]
      {
        assert !InLog(start, t[j]);
      }
    }

    static lemma Erased(d0: DiskState, w0: seq<Write>, v0: DiskState, start: nat, t: seq<nat>,
                        d2: DiskState, w2: seq<Write>, v2: DiskState, d3: DiskState, w3: seq<Write>, v3: DiskState,
                        d4: DiskState, w4: seq<Write>, v4: DiskState)
      requires Ready(d0, v0, start, t) && t != [] && |d2| == |v2| == |d0|
      requires Progress(d0, w0, v0, LogCopies(v0, start, t) + [Write(start, EncodeHeader(d0[start], t))], d2, w2, v2)
      requires Progress(d2, w2, v2, HomeCopies(v0, start, t), d3, w3, v3)
      requires start < |d3| && d2[start] == EncodeHeader(d0[start], t)
      requires Wrote(d3, w3, v3, start, EncodeHeader(d3[start], []), d4, w4, v4)
      ensures Committed(d0, w0, v0, start, t, d4, w4, v4)
    {
      hide EncodeHeader, LogCopies, HomeCopies, Apply;
      var a, b := LogCopies(v0, start, t) + [Write(start, EncodeHeader(d0[start], t))], HomeCopies(v0, start, t);
      HeaderStays(d2, v0, start, t);
      var e := Write(start, EncodeHeader(d2[start], []));
      CommitParts(v0, start, t, d0[start]);
      ThreeParts(d0, a, b, e);
      ThreeParts(v0, a, b, e);
      StepsDone(d0, v0, start, t, EncodeHeader(d0[start], t), e.data);
      StepsDone(v0, v0, start, t, EncodeHeader(d0[start], t), e.data);
      HeaderRoundTrip(d2[start], []);
    }

    static lemma CommitParts(v: DiskState, start: nat, t: seq<nat>, h: Block)
      requires start + LOGBLOCKS < |v| <= 0x1_0000_0000 && ValidTargets(|v|, start, t) && t != []
      ensures CommitWrites(v, start, t, h)
        == LogCopies(v, start, t) + [Write(start, EncodeHeader(h, t))] + HomeCopies(v, start, t)
           + [Write(start, EncodeHeader(EncodeHeader(h, t), []))]
    {
    }

    static lemma HeaderStays(d: DiskState, v: DiskState, start: nat, t: seq<nat>)
      requires start + LOGBLOCKS < |v| == |d| && ValidTargets(|d|, start, t)
      ensures Apply(d, HomeCopies(v, start, t))[start] == d[start]
    {
      AfterHomeCopies(d, v, start, t, |t|);
      assert HomeCopies(v, start, t)[..|t|] == HomeCopies(v, start, t);
      NoLogTarget(|d|, start, t, |t|);
    }

    static lemma ThreeParts(d: DiskState, a: seq<Write>, b: seq<Write>, e: Write)
      requires Fits(|d|, a) && Fits(|d|, b) && e.bno < |d|
      ensures Fits(|d|, a + b + [e]) && Apply(d, a + b + [e]) == Apply(Apply(d, a), b)[e.bno := e.data]
    {
      ApplyConcat(d, a, b);
      assert (a + b + [e])[..|a + b|] == a + b;
    }

    /** The second lock section of end_op after a commit. */
    method FinishCommit()
      requires Valid() && committing && n == 0
      modifies this`committing
      ensures Valid() && St() == Admission.Finish(old(St())) && Admission.CanBegin(St())
    {
      Admission.FinishKeeps(St());
      committing := false;
      assert block[..n] == [];
    }

    /** end_op as one uninterrupted call. The last operation's end puts every
        home block on the disk as the file system sees it and leaves an empty
        log that admits again; it fails exactly when something is logged and no
        buffer is free, before any block write. */
    method EndOpAndCommit(ghost o: nat) returns (ok: bool)
      requires Valid() && o in used
      requires outstanding == 1 && n > 0 ==> LogUnheld(cache.buf[..], cache.waiting, start, block[..n])
      modifies this, cache, cache.buf, disk
      ensures ok <==> old(outstanding) > 1 || old(n) == 0 || FreeSlot(old(cache.buf[..]))
      ensures old(outstanding) > 1 ==> Valid() && view == old(view) && disk.blocks == old(disk.blocks) && n == old(n)
      ensures !ok ==> disk.blocks == old(disk.blocks) && disk.writes == old(disk.writes)
      ensures ok && old(outstanding) == 1 ==>
        && Valid() && n == 0 && Admission.CanBegin(St()) && |view| == |disk.blocks| == old(|view|)
        && forall b: nat | b < |view| && !InLog(start, b) :: disk.blocks[b] == view[b] == old(view)[b]
      ensures ok && old(outstanding) == 1 ==>
        start < old(|disk.blocks|) && disk.writes == old(disk.writes) + CommitWrites(old(view), start, old(block[..n]), old(disk.blocks)[start])
    {
      hide StorageInv, WaitInv, CacheInv, FreeSlot, LogUnheld, NoNewHolders, CommitWrites, Apply, Admission.Inv;
      HasOperation(St(), o);
      var doCommit := EndOp(o);
      ok := true;
      if doCommit {
        ok := Commit();
        if ok {
          FinishCommit();
        }
      }
    }

    static lemma HasOperation(s: Admission.State, o: nat)
      requires Admission.Inv(s) && o in s.used
      ensures s.outstanding >= 1 && !s.committing
    {
      assert |s.used| >= 1;
    }

    /** read_head: the in-memory header is the on-disk one. */
    method ReadHead()
      requires Coherent([]) && WellFormed(disk.blocks, start) && NoneHeld(cache.buf[..]) && cache.waiting == multiset{} && FreeSlot(cache.buf[..])
      modifies this`n, block, cache, cache.buf
      ensures Coherent([]) && NoneHeld(cache.buf[..]) && cache.waiting == multiset{} && FreeSlot(cache.buf[..])
      ensures block[..n] == Targets(disk.blocks[start]) && HeaderBytes(disk.blocks[start], block[..n])
    {
      hide StorageInv, WaitInv, CacheInv, FreeSlot, LogUnheld, NoNewHolders, IsHeld, IsCached, HeaderBytes;
      ghost var s0 := cache.buf[..];
      BootFree(s0, cache.waiting, start, []);
      LogAreaUnheld(s0, cache.waiting, start, [], start);
      HeaderClean(s0, cache.waiting, disk.blocks, view, [], start);
      var found, b := ReadNow(start, []);
      ReadHeader(cache.buf[b].data);
      HeaderLayout(disk.blocks[start], block[..n]);
      ghost var s1 := cache.buf[..];
      Release(b, []);
      OneBack(s0, s1, cache.buf[..], b);
      ReleasedIsFree(cache.buf[..], cache.waiting, disk.blocks, view, [], b);
    }

    /** The copying loop of read_head. */
    method ReadHeader(h: Block)
      requires block.Length == LOGBLOCKS && Word(h, 0) <= LOGBLOCKS
      modifies this`n, block
      ensures n <= block.Length && block[..n] == Targets(h)
    {
      n := Word(h, 0);
      var i := 0;
      while i < n
        invariant 0 <= i <= n && n == Word(h, 0)
        invariant forall j | 0 <= j < i :: block[j] == Word(h, j + 1)
      {
        block[i] := Word(h, i + 1);
        i := i + 1;
      }
    }

    /** recover_from_log at boot: it issues exactly the recovery writes. */
    method Recover()
      requires Coherent([]) && view == disk.blocks && n == 0
      requires outstanding == 0 && !committing && used == map[]
      requires WellFormed(disk.blocks, start) && NoneHeld(cache.buf[..]) && cache.waiting == multiset{} && FreeSlot(cache.buf[..])
      modifies this, block, cache, cache.buf, disk
      ensures Valid() && view == disk.blocks && n == 0 && outstanding == 0 && !committing && used == map[] && NoneHeld(cache.buf[..]) && cache.waiting == multiset{}
      ensures disk.blocks == Recovered(old(disk.blocks), start)
      ensures disk.writes == old(disk.writes) + RecoveryWrites(old(disk.blocks), start)
    {
      hide StorageInv, WaitInv, CacheInv, FreeSlot, LogUnheld, NoNewHolders, IsHeld, IsCached, NotAwaited;
      ghost var d0, w0 := disk.blocks, disk.writes;
      ReadHead();
      ghost var t, s0 := block[..n], cache.buf[..];
      BootFree(s0, cache.waiting, start, t);
      InstallTrans(true);
      ghost var d1, s1 := disk.blocks, cache.buf[..];
      HoldersNone(s0, s1);
      n := 0;
      BootFree(s1, cache.waiting, start, []);
      LogBlockFree(s1, cache.waiting, d1, view, start, [], [], start);
      var ok := WriteHead([]);
      HoldersNone(s1, cache.buf[..]);
      RecoveryEnds(d0, w0, d1, start);
      assert block[..n] == [];
      RecoveredIsDurable(d0, start);
    }

    static lemma RecoveryEnds(d0: DiskState, w0: seq<Write>, d1: DiskState, start: nat)
      requires WellFormed(d0, start)
      requires d1 == Apply(d0, InstallWrites(d0, start, Targets(d0[start])))
      ensures Recovered(d0, start) == d1[start := EncodeHeader(d1[start], [])]
      ensures w0 + RecoveryWrites(d0, start)
        == w0 + InstallWrites(d0, start, Targets(d0[start])) + [Write(start, EncodeHeader(d1[start], []))]
    {
      var t := Targets(d0[start]);
      AfterInstalls(d0, start, t, |t|);
      assert InstallWrites(d0, start, t)[..|t|] == InstallWrites(d0, start, t);
      var ws := RecoveryWrites(d0, start);
      assert ws[..|ws| - 1] == InstallWrites(d0, start, t);
    }

    static lemma BootFree(s: seq<Buf>, q: multiset<Waiter>, start: nat, t: seq<nat>)
      requires NoneHeld(s) && q == multiset{}
      ensures LogUnheld(s, q, start, t)
    {
    }

    static lemma HeaderClean(s: seq<Buf>, q: multiset<Waiter>, d: DiskState, view: DiskState, pins: seq<nat>, start: nat)
      requires StorageInv(s, q, d, view, pins) && start < |d| && ValidTargets(|d|, start, pins)
      ensures view[start] == d[start]
    {
    }

    static lemma OneBack(s0: seq<Buf>, s1: seq<Buf>, s2: seq<Buf>, b: nat)
      requires b < NBUF && OthersKept(s0, s1, b) && OthersKept(s1, s2, b) && !s2[b].locked
      ensures NoneHeld(s0) ==> NoneHeld(s2)
    {
      forall i | 0 <= i < NBUF && NoneHeld(s0)
        ensures !s2[i].locked
      {
        assert i == b || (SameBuf(s2[i], s1[i]) && SameBuf(s1[i], s0[i]));
      }
    }

    static lemma Extend(d0: DiskState, w0: seq<Write>, v0: DiskState, ws: seq<Write>, k: nat,
                        d1: DiskState, w1: seq<Write>, v1: DiskState, d2: DiskState, w2: seq<Write>, v2: DiskState)
      requires k < |ws| && Progress(d0, w0, v0, ws[..k], d1, w1, v1)
      requires Wrote(d1, w1, v1, ws[k].bno, ws[k].data, d2, w2, v2)
      ensures Progress(d0, w0, v0, ws[..k + 1], d2, w2, v2) && |d2| == |v0|
    {
      assert ws[..k + 1][..k] == ws[..k] && ws[..k + 1] == ws[..k] + [ws[k]];
      assert ws[k] == Write(ws[k].bno, ws[k].data);
    }

    static lemma StillUnheld(s: seq<Buf>, s1: seq<Buf>, q: multiset<Waiter>, start: nat, t: seq<nat>)
      requires LogUnheld(s, q, start, t) && NoNewHolders(s, s1)
      ensures LogUnheld(s1, q, start, t)
    {
    }

    static lemma PinsDistinct(s: seq<Buf>, q: multiset<Waiter>, d: DiskState, view: DiskState, pins: seq<nat>)
      requires StorageInv(s, q, d, view, pins)
      ensures NoDup(pins)
    {
    }

    /** The next block to install still has its log copy, and outside recovery
        that copy is the view of the block. */
    static lemma NextInstall(d0: DiskState, w0: seq<Write>, v0: DiskState, d: DiskState, w: seq<Write>, v: DiskState,
                             start: nat, t: seq<nat>, i: nat, recovering: bool)
      requires start + LOGBLOCKS < |v0| && ValidTargets(|v0|, start, t) && i < |t|
      requires !recovering ==> NoDup(t) && HoldsCopies(v0, v0, start, t)
      requires Progress(d0, w0, v0, InstallWrites(v0, start, t)[..i], d, w, v)
      ensures |v| == |v0| && v[start + 1 + i] == v0[start + 1 + i]
      ensures !recovering ==> v[start + 1 + i] == v[t[i]]
      ensures InstallWrites(v0, start, t)[i] == Write(t[i], v0[start + 1 + i])
    {
      AfterInstalls(v0, start, t, i);
      assert InLog(start, start + 1 + i);
      if !recovering {
        DurableUnlisted(v0, start, t[..i], t[i]);
      }
    }

    static lemma NoProgress(d: DiskState, w: seq<Write>, v: DiskState, ws: seq<Write>)
      requires |d| == |v|
      ensures Progress(d, w, v, ws[..0], d, w, v)
    {
    }

    static lemma SameHolders(s: seq<Buf>)
      requires |s| == NBUF + 1
      ensures NoNewHolders(s, s)
    {
    }

    static lemma HoldersChain(s0: seq<Buf>, s1: seq<Buf>, s2: seq<Buf>)
      requires NoNewHolders(s0, s1) && NoNewHolders(s1, s2)
      ensures NoNewHolders(s0, s2)
      ensures NoneHeld(s1) ==> NoneHeld(s2)
    {
    }

    static lemma HoldersNone(s0: seq<Buf>, s1: seq<Buf>)
      requires NoNewHolders(s0, s1) && NoneHeld(s0)
      ensures NoneHeld(s1)
    {
    }

    static lemma HomeUnheld(s: seq<Buf>, q: multiset<Waiter>, start: nat, t: seq<nat>, j: nat)
      requires |s| == NBUF + 1 && LogUnheld(s, q, start, t) && j < |t|
      ensures !IsHeld(s, DEV, t[j])
    {
      assert t[j] in t;
    }

    static lemma PairBack(s0: seq<Buf>, s4: seq<Buf>, s5: seq<Buf>, x: nat, y: nat)
      requires x < NBUF && y < NBUF && PairKept(s0, s4, x, y) && OthersKept(s4, s5, y) && !s4[x].locked && !s5[y].locked
      ensures NoNewHolders(s0, s5)
    {
      forall i | 0 <= i < NBUF && s5[i].locked
        ensures s0[i].locked && s0[i].dev == s5[i].dev && s0[i].blockno == s5[i].blockno
      {
        assert i != x && i != y && SameBuf(s5[i], s4[i]) && SameBuf(s4[i], s0[i]);
      }
    }

    static lemma LogAreaUnheld(s: seq<Buf>, q: multiset<Waiter>, start: nat, t: seq<nat>, bno: nat)
      requires |s| == NBUF + 1 && LogUnheld(s, q, start, t) && InLog(start, bno)
      ensures !IsHeld(s, DEV, bno)
    {
    }

    static lemma PinnedIsCached(s: seq<Buf>, q: multiset<Waiter>, d: DiskState, view: DiskState, pins: seq<nat>, j: nat)
      requires StorageInv(s, q, d, view, pins) && j < |pins|
      ensures IsCached(s, pins[j])
    {
    }

    static lemma ReleasedIsFree(s: seq<Buf>, q: multiset<Waiter>, d: DiskState, view: DiskState, pins: seq<nat>, b: nat)
      requires StorageInv(s, q, d, view, pins) && b < NBUF && !s[b].locked && s[b].blockno !in pins
      ensures NotAwaited(q, s[b].blockno) ==> FreeSlot(s)
    {
      assert BufInv(s[b], q[WaiterOf(s, b)], view, pins);
    }

    static lemma StillNotHeld(s: seq<Buf>, s1: seq<Buf>, b: nat, bno: nat)
      requires b < NBUF && OthersKept(s, s1, b) && !IsHeld(s, DEV, bno) && s1[b].blockno != bno
      ensures !IsHeld(s1, DEV, bno)
    {
      forall i | 0 <= i < NBUF && HasKey(s1[i], DEV, bno)
        ensures !s1[i].locked
      {
        assert SameBuf(s1[i], s[i]) && HasKey(s[i], DEV, bno);
      }
    }

    static lemma SingleBack(s0: seq<Buf>, s1: seq<Buf>, s2: seq<Buf>, b: nat)
      requires b < NBUF && OthersKept(s0, s1, b) && OthersKept(s1, s2, b) && !s2[b].locked
      ensures NoNewHolders(s0, s2)
    {
      forall i | 0 <= i < NBUF && s2[i].locked
        ensures s0[i].locked && s0[i].dev == s2[i].dev && s0[i].blockno == s2[i].blockno
      {
        assert i != b && SameBuf(s2[i], s1[i]) && SameBuf(s1[i], s0[i]);
      }
    }

    static lemma LogBlockFree(s: seq<Buf>, q: multiset<Waiter>, d: DiskState, view: DiskState, start: nat,
                              t: seq<nat>, pins: seq<nat>, bno: nat)
      requires StorageInv(s, q, d, view, pins) && LogUnheld(s, q, start, t) && InLog(start, bno)
      requires ValidTargets(|d|, start, pins)
      ensures !IsHeld(s, DEV, bno) && NotAwaited(q, bno) && (IsCached(s, bno) ==> FreeSlot(s))
    {
      if IsCached(s, bno) {
        var i: nat :| i < NBUF && HasKey(s[i], DEV, bno);
        assert BufInv(s[i], q[WaiterOf(s, i)], view, pins);
      }
    }

    static lemma OtherSlotFree(s: seq<Buf>, t: seq<Buf>, d: DiskState, view: DiskState, b: nat)
      requires StorageInv(t, multiset{}, d, view, []) && b < NBUF && NoneHeld(s) && OthersKept(s, t, b)
      ensures FreeSlot(t)
    {
      var i := if b == 0 then 1 else 0;
      assert BufInv(t[i], multiset{}[WaiterOf(t, i)], view, []) && SameBuf(t[i], s[i]);
    }
  }

  /** Disk, trace and view after the block writes ws. */
  ghost predicate Progress(d0: DiskState, w0: seq<Write>, v0: DiskState, ws: seq<Write>,
                           d: DiskState, w: seq<Write>, v: DiskState) {
    && |d0| == |v0| && Fits(|d0|, ws)
    && d == Apply(d0, ws) && w == w0 + ws && v == Apply(v0, ws)
  }

  /** A whole commit of the blocks t: its writes, an empty log again, and home
      blocks that hold the view, which itself is unchanged there. */
  ghost predicate Committed(d0: DiskState, w0: seq<Write>, v0: DiskState, start: nat, t: seq<nat>,
                            d: DiskState, w: seq<Write>, v: DiskState) {
    && start + LOGBLOCKS < |d0| == |v0| <= 0x1_0000_0000 && ValidTargets(|v0|, start, t)
    && var ws := CommitWrites(v0, start, t, d0[start]);
      && d == Apply(d0, ws) && w == w0 + ws
      && |v| == |v0|
      && Word(d[start], 0) == 0
      && forall b: nat | b < |d| && !InLog(start, b) :: d[b] == v[b] == v0[b]
  }

  /** Only slots x and y may differ, list links aside. */
  ghost predicate PairKept(s: seq<Buf>, t: seq<Buf>, x: nat, y: nat) {
    && |s| == |t| == NBUF + 1
    && forall i | 0 <= i < NBUF && i != x && i != y :: SameBuf(t[i], s[i])
  }

  /** Nobody holds a buffer of the log area or of a listed block, or waits for
      one of the log area. */
  ghost predicate LogUnheld(s: seq<Buf>, q: multiset<Waiter>, start: nat, t: seq<nat>) {
    && (forall i | 0 <= i < NBUF && i < |s| ::
          s[i].dev == DEV && (InLog(start, s[i].blockno) || s[i].blockno in t) ==> !s[i].locked)
    && forall x | x in q :: !InLog(start, x.blockno)
  }

  /** No process waits for the block's buffer. */
  ghost predicate NotAwaited(q: multiset<Waiter>, bno: nat) {
    forall x | x in q :: x.blockno != bno
  }

  /** What the view has at block src is written to block bno. */
  ghost predicate WroteCopy(d0: DiskState, w0: seq<Write>, v0: DiskState, bno: nat, src: nat,
                            d: DiskState, w: seq<Write>, v: DiskState) {
    src < |v0| && Wrote(d0, w0, v0, bno, v0[src], d, w, v)
  }

  /** One block write, seen by the disk, its trace and the view alike. */
  ghost predicate Wrote(d0: DiskState, w0: seq<Write>, v0: DiskState, bno: nat, data: Block,
                        d: DiskState, w: seq<Write>, v: DiskState) {
    && bno < |d0| == |v0|
    && d == d0[bno := data] && w == w0 + [Write(bno, data)] && v == v0[bno := data]
  }
}
