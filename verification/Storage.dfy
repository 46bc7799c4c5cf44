/** How the cache, the disk and the pins of logged blocks hang together. The
    view is what bread must return: the latest logged contents of a block, else
    its disk contents. */
module Storage {
  import opened Blocks
  import opened LogSpec
  import opened Bio
  import opened Pages

  const DEV := 1 // ROOTDEV, the only device

  /** A buffer with n waiters. */
  ghost predicate BufInv(b: Buf, n: nat, view: DiskState, pins: seq<nat>) {
    if b.dev == 0 then b.refcnt == 0 && !b.locked
    else
      && b.dev == DEV && b.blockno < |view|
      && b.refcnt == HoldCount(b) + (if b.blockno in pins then 1 else 0) + n
      && (b.locked || b.blockno in pins ==> b.valid)
      && (b.valid && !b.locked ==> b.data == view[b.blockno])
  }

  ghost predicate IsCached(s: seq<Buf>, bno: nat) {
    exists i: nat :: i < NBUF && i < |s| && HasKey(s[i], DEV, bno)
  }

  /** The cache invariant: references count the lock holder, the pin and the
      waiters q, every pinned block is cached, every waiter's slot caches its
      block, unlocked valid buffers hold the view, and the view differs from the
      disk on pinned blocks only. */
  ghost predicate StorageInv(s: seq<Buf>, q: multiset<Waiter>, d: DiskState, view: DiskState, pins: seq<nat>) {
    && |s| == NBUF + 1 && |d| == |view| && NoDup(pins)
    && UniqueKeys(s)
    && (forall i: nat | i < NBUF :: BufInv(s[i], q[WaiterOf(s, i)], view, pins))
    && (forall x | x in q :: x.slot < NBUF && x.dev == DEV && HasKey(s[x.slot], DEV, x.blockno))
    && (forall j | 0 <= j < |pins| :: pins[j] < |d| && IsCached(s, pins[j]))
    && forall b: nat | b < |d| && b !in pins :: view[b] == d[b]
  }

  ghost predicate FreeSlot(s: seq<Buf>) {
    exists i: nat :: i < NBUF && i < |s| && s[i].refcnt == 0
  }

  ghost predicate NoneHeld(s: seq<Buf>) {
    forall i | 0 <= i < NBUF && i < |s| :: !s[i].locked
  }

  predicate SameBuf(x: Buf, y: Buf) {
    x == y.(prev := x.prev, next := x.next)
  }

  /** Only slot b may differ, list links aside. */
  ghost predicate OthersKept(s: seq<Buf>, t: seq<Buf>, b: nat) {
    && |s| == |t| == NBUF + 1
    && forall i | 0 <= i < NBUF && i != b :: SameBuf(t[i], s[i])
  }

  /** Every holder in t was a holder of the same block in s. */
  ghost predicate NoNewHolders(s: seq<Buf>, t: seq<Buf>) {
    && |s| == |t| == NBUF + 1
    && forall i | 0 <= i < NBUF && t[i].locked :: s[i].locked && s[i].dev == t[i].dev && s[i].blockno == t[i].blockno
  }

  /** The slots of s with a reference keep their block in t. */
  ghost predicate KeysKept(s: seq<Buf>, t: seq<Buf>) {
    && |s| == |t| == NBUF + 1
    && forall i | 0 <= i < NBUF && s[i].refcnt > 0 :: t[i].dev == s[i].dev && t[i].blockno == s[i].blockno
  }

  /** Pinned blocks stay cached when slots with a reference keep their block. */
  lemma PinsStayCached(s: seq<Buf>, q: multiset<Waiter>, d: DiskState, view: DiskState, pins: seq<nat>, t: seq<Buf>)
    requires StorageInv(s, q, d, view, pins) && KeysKept(s, t)
    ensures forall j | 0 <= j < |pins| :: IsCached(t, pins[j])
  {
    forall j | 0 <= j < |pins|
      ensures IsCached(t, pins[j])
    {
      var i: nat :| i < NBUF && HasKey(s[i], DEV, pins[j]);
      assert BufInv(s[i], q[WaiterOf(s, i)], view, pins) && pins[j] in pins;
      assert HasKey(t[i], DEV, pins[j]);
    }
  }

  lemma LookupUnique(s: seq<Buf>, ring: seq<nat>, bno: nat, b: nat, t: seq<Buf>)
    requires CacheInv(s, ring) && b < NBUF && LookedUp(s, ring, DEV, bno, b, t)
    ensures UniqueKeys(t)
  {
    hide Linked, FullRing;
  }

  lemma SameKeysUnique(s: seq<Buf>, t: seq<Buf>)
    requires |s| == |t| == NBUF + 1 && UniqueKeys(s)
    requires forall i | 0 <= i < NBUF :: t[i].dev == s[i].dev && t[i].blockno == s[i].blockno
    ensures UniqueKeys(t)
  {
  }

  /** The lookup of bget. A pinned, held or awaited buffer keeps its block: only
      buffers nobody refers to are recycled. */
  lemma WaitKeeps(s: seq<Buf>, ring: seq<nat>, q: multiset<Waiter>, d: DiskState, view: DiskState, pins: seq<nat>,
                  bno: nat, b: nat, t: seq<Buf>)
    requires CacheInv(s, ring) && b < NBUF && bno < |d| && StorageInv(s, q, d, view, pins)
    requires LookedUp(s, ring, DEV, bno, b, t)
    ensures StorageInv(t, q + multiset{Waiter(b, DEV, bno)}, d, view, pins)
    ensures KeysKept(s, t) && OthersKept(s, t, b) && HasKey(t[b], DEV, bno) && t[b].locked == s[b].locked
  {
    hide Linked, FullRing, BufInv, NoDup, IsCached, UniqueKeys;
    LookupUnique(s, ring, bno, b, t);
    var q2 := q + multiset{Waiter(b, DEV, bno)};
    LookedUpBuf(s, q, d, view, pins, bno, b, t);
    PinsStayCached(s, q, d, view, pins, t);
    forall x | x in q
      ensures x.slot < NBUF && x.dev == DEV && HasKey(t[x.slot], DEV, x.blockno)
    {
      assert HasKey(s[x.slot], DEV, x.blockno) && x == WaiterOf(s, x.slot) && q[x] > 0;
      Referenced(s, q, d, view, pins, x.slot);
    }
    forall i: nat | i < NBUF
      ensures BufInv(t[i], q2[WaiterOf(t, i)], view, pins)
    {
      assert BufInv(s[i], q[WaiterOf(s, i)], view, pins);
    }
  }

  /** A slot with a waiter or a holder has a reference. */
  lemma Referenced(s: seq<Buf>, q: multiset<Waiter>, d: DiskState, view: DiskState, pins: seq<nat>, b: nat)
    requires StorageInv(s, q, d, view, pins) && b < NBUF
    ensures q[WaiterOf(s, b)] > 0 || s[b].locked ==> s[b].refcnt > 0
  {
    assert BufInv(s[b], q[WaiterOf(s, b)], view, pins);
  }

  lemma LookedUpBuf(s: seq<Buf>, q: multiset<Waiter>, d: DiskState, view: DiskState, pins: seq<nat>, bno: nat, b: nat, t: seq<Buf>)
    requires b < NBUF && bno < |d| && StorageInv(s, q, d, view, pins)
    requires if HasKey(s[b], DEV, bno) then t == s[b := s[b].(refcnt := s[b].refcnt + 1)]
             else (forall i | 0 <= i < NBUF :: !HasKey(s[i], DEV, bno)) && s[b].refcnt == 0
                  && t == s[b := s[b].(dev := DEV, blockno := bno, valid := false, refcnt := 1)]
    ensures BufInv(t[b], (q + multiset{Waiter(b, DEV, bno)})[WaiterOf(t, b)], view, pins) && t[b].locked == s[b].locked
    ensures !HasKey(s[b], DEV, bno) ==> s[b].refcnt == 0 && !s[b].locked
  {
    assert BufInv(s[b], q[WaiterOf(s, b)], view, pins);
    if !HasKey(s[b], DEV, bno) {
      assert bno !in pins;
      assert Waiter(b, DEV, bno) !in q;
    }
  }

  /** The rest of a bread: the waiter that gets the lock finds the view of the
      block it asked for. */
  lemma ResumeKeeps(s: seq<Buf>, q: multiset<Waiter>, d: DiskState, view: DiskState, pins: seq<nat>, x: Waiter, t: seq<Buf>)
    requires StorageInv(s, q, d, view, pins) && x in q && Resumed(s, d, x, t)
    ensures StorageInv(t, q - multiset{x}, d, view, pins)
    ensures x.slot < NBUF && x.blockno < |view| && KeysKept(s, t) && OthersKept(s, t, x.slot)
    ensures t[x.slot].locked && HasKey(t[x.slot], DEV, x.blockno) && t[x.slot].data == view[x.blockno]
  {
    var b := x.slot;
    assert x == WaiterOf(s, b);
    assert BufInv(s[b], q[x], view, pins);
    PinsStayCached(s, q, d, view, pins, t);
    forall i: nat | i < NBUF
      ensures BufInv(t[i], (q - multiset{x})[WaiterOf(t, i)], view, pins)
    {
      assert BufInv(s[i], q[WaiterOf(s, i)], view, pins);
    }
  }

  /** A bread that finds its buffer held by another. */
  lemma QueueKeeps(s: seq<Buf>, ring: seq<nat>, q: multiset<Waiter>, d: DiskState, view: DiskState, pins: seq<nat>,
                   bno: nat, b: nat, t: seq<Buf>)
    requires CacheInv(s, ring) && bno < |d| && StorageInv(s, q, d, view, pins) && Queued(s, DEV, bno, b, t)
    ensures StorageInv(t, q + multiset{Waiter(b, DEV, bno)}, d, view, pins)
  {
    hide Linked, FullRing, UniqueKeys, StorageInv;
    WaitKeeps(s, ring, q, d, view, pins, bno, b, t);
  }

  /** bread returns the view. */
  lemma ReadKeeps(s: seq<Buf>, ring: seq<nat>, q: multiset<Waiter>, d: DiskState, view: DiskState, pins: seq<nat>,
                  bno: nat, b: nat, t: seq<Buf>)
    requires CacheInv(s, ring) && b < NBUF && bno < |d| && StorageInv(s, q, d, view, pins) && !IsHeld(s, DEV, bno)
    requires ReadBuffer(s, ring, d, DEV, bno, b, t)
    ensures StorageInv(t, q, d, view, pins)
    ensures t[b].locked && HasKey(t[b], DEV, bno) && t[b].data == view[bno]
    ensures OthersKept(s, t, b) && !s[b].locked && KeysKept(s, t)
  {
    hide Linked, FullRing, UniqueKeys, StorageInv;
    var x := Waiter(b, DEV, bno);
    var u := if HasKey(s[b], DEV, bno) then s[b := s[b].(refcnt := s[b].refcnt + 1)]
             else s[b := s[b].(dev := DEV, blockno := bno, valid := false, refcnt := 1)];
    WaitKeeps(s, ring, q, d, view, pins, bno, b, u);
    FreeIsUnlocked(s, q, d, view, pins, b);
    assert t == u[b := Filled(u[b], d).(locked := true)];
    ResumeKeeps(u, q + multiset{x}, d, view, pins, x, t);
    assert q + multiset{x} - multiset{x} == q;
  }

  lemma FreeIsUnlocked(s: seq<Buf>, q: multiset<Waiter>, d: DiskState, view: DiskState, pins: seq<nat>, b: nat)
    requires StorageInv(s, q, d, view, pins) && b < NBUF
    ensures s[b].refcnt == 0 ==> !s[b].locked
  {
    assert BufInv(s[b], q[WaiterOf(s, b)], view, pins);
  }

  lemma ReleaseKeeps(s: seq<Buf>, q: multiset<Waiter>, d: DiskState, view: DiskState, pins: seq<nat>, b: nat, t: seq<Buf>)
    requires StorageInv(s, q, d, view, pins) && b < NBUF && s[b].locked
    requires s[b].data == view[s[b].blockno]
    requires Released(s, b, t)
    ensures StorageInv(t, q, d, view, pins)
    ensures OthersKept(s, t, b) && !t[b].locked
  {
    assert BufInv(s[b], q[WaiterOf(s, b)], view, pins);
    forall i: nat | i < NBUF
      ensures BufInv(t[i], q[WaiterOf(t, i)], view, pins)
    {
      assert BufInv(s[i], q[WaiterOf(s, i)], view, pins);
    }
    PinsStayCached(s, q, d, view, pins, t);
  }

  /** Writing a held buffer through to the disk. */
  lemma WriteKeeps(s: seq<Buf>, q: multiset<Waiter>, d: DiskState, view: DiskState, pins: seq<nat>, b: nat, data: Block)
    requires StorageInv(s, q, d, view, pins) && b < NBUF && s[b].locked
    ensures var bno := s[b].blockno;
      StorageInv(s[b := s[b].(data := data)], q, d[bno := data], view[bno := data], pins)
  {
    var bno := s[b].blockno;
    var t, v := s[b := s[b].(data := data)], view[bno := data];
    assert BufInv(s[b], q[WaiterOf(s, b)], view, pins);
    forall i: nat | i < NBUF
      ensures BufInv(t[i], q[WaiterOf(t, i)], v, pins)
    {
      assert BufInv(s[i], q[WaiterOf(s, i)], view, pins);
    }
    PinsStayCached(s, q, d, view, pins, t);
  }

  /** Editing a held buffer. */
  lemma EditKeeps(s: seq<Buf>, q: multiset<Waiter>, d: DiskState, view: DiskState, pins: seq<nat>, b: nat, data: Block)
    requires StorageInv(s, q, d, view, pins) && b < NBUF && s[b].locked
    ensures StorageInv(s[b := s[b].(data := data)], q, d, view, pins)
  {
    var t := s[b := s[b].(data := data)];
    assert BufInv(s[b], q[WaiterOf(s, b)], view, pins);
    PinsStayCached(s, q, d, view, pins, t);
  }

  /** Logging a held buffer for the first time pins it; its contents become the view. */
  lemma PinKeeps(s: seq<Buf>, q: multiset<Waiter>, d: DiskState, view: DiskState, pins: seq<nat>, b: nat)
    requires StorageInv(s, q, d, view, pins) && b < NBUF && s[b].locked && s[b].blockno !in pins
    ensures var bno := s[b].blockno;
      bno < |d|
      && StorageInv(s[b := s[b].(refcnt := s[b].refcnt + 1)], q, d, view[bno := s[b].data], pins + [bno])
  {
    hide IsCached, UniqueKeys;
    var bno := s[b].blockno;
    assert BufInv(s[b], q[WaiterOf(s, b)], view, pins);
    var t, v, p := s[b := s[b].(refcnt := s[b].refcnt + 1)], view[bno := s[b].data], pins + [bno];
    SameKeysUnique(s, t);
    PinsStayCached(s, q, d, view, pins, t);
    OneIsCached(t, b);
    forall i: nat | i < NBUF
      ensures BufInv(t[i], q[WaiterOf(t, i)], v, p)
    {
      assert BufInv(s[i], q[WaiterOf(s, i)], view, pins);
    }
  }

  lemma OneIsCached(s: seq<Buf>, b: nat)
    requires b < NBUF < |s| && s[b].dev == DEV
    ensures IsCached(s, s[b].blockno)
  {
    assert HasKey(s[b], DEV, s[b].blockno);
  }

  /** Logging a held buffer again (absorption). */
  lemma AbsorbKeeps(s: seq<Buf>, q: multiset<Waiter>, d: DiskState, view: DiskState, pins: seq<nat>, b: nat)
    requires StorageInv(s, q, d, view, pins) && b < NBUF && s[b].locked && s[b].blockno in pins
    ensures s[b].blockno < |d| && StorageInv(s, q, d, view[s[b].blockno := s[b].data], pins)
  {
    var v := view[s[b].blockno := s[b].data];
    assert BufInv(s[b], q[WaiterOf(s, b)], view, pins);
    forall i: nat | i < NBUF
      ensures BufInv(s[i], q[WaiterOf(s, i)], v, pins)
    {
      assert BufInv(s[i], q[WaiterOf(s, i)], view, pins);
    }
  }

  /** An installed block is unpinned. */
  lemma UnpinKeeps(s: seq<Buf>, q: multiset<Waiter>, d: DiskState, view: DiskState, pins: seq<nat>, b: nat)
    requires StorageInv(s, q, d, view, pins) && b < NBUF && s[b].locked
    requires pins != [] && s[b].dev == DEV && s[b].blockno == pins[0] && d[pins[0]] == view[pins[0]]
    ensures s[b].refcnt == 2 + q[WaiterOf(s, b)]
    ensures StorageInv(s[b := s[b].(refcnt := s[b].refcnt - 1)], q, d, view, pins[1..])
  {
    var t, p := s[b := s[b].(refcnt := s[b].refcnt - 1)], pins[1..];
    hide IsCached;
    assert BufInv(s[b], q[WaiterOf(s, b)], view, pins);
    assert pins == [pins[0]] + p;
    assert pins[0] !in p;
    forall i: nat | i < NBUF
      ensures BufInv(t[i], q[WaiterOf(t, i)], view, p)
    {
      assert BufInv(s[i], q[WaiterOf(s, i)], view, pins);
    }
    PinsStayCached(s, q, d, view, pins, t);
    forall j | 0 <= j < |p|
      ensures IsCached(t, p[j])
    {
      assert p[j] == pins[j + 1];
    }
  }

  // ----- a full log -----

  ghost function PinnedSlots(s: seq<Buf>, pins: seq<nat>): set<nat>
    requires |s| == NBUF + 1
  {
    set i: nat | i < NBUF && s[i].dev == DEV && s[i].blockno in pins
  }

  lemma OneMorePin(s: seq<Buf>, q: seq<nat>, x: nat)
    requires |s| == NBUF + 1 && UniqueKeys(s) && IsCached(s, x) && x !in q
    ensures |PinnedSlots(s, q + [x])| == |PinnedSlots(s, q)| + 1
  {
    var i: nat :| i < NBUF && HasKey(s[i], DEV, x);
    var p := PinnedSlots(s, q);
    assert i !in p;
    forall j | j in PinnedSlots(s, q + [x])
      ensures j in p + {i}
    {
      if s[j].blockno !in q {
        assert HasKey(s[j], DEV, x);
      }
    }
    assert PinnedSlots(s, q + [x]) == p + {i};
  }

  /** Each logged block pins a buffer of its own. */
  lemma {:induction false} PinsAreSlots(s: seq<Buf>, pins: seq<nat>, k: nat)
    requires |s| == NBUF + 1 && UniqueKeys(s) && NoDup(pins) && k <= |pins|
    requires forall j | 0 <= j < |pins| :: IsCached(s, pins[j])
    ensures |PinnedSlots(s, pins[..k])| == k
  {
    if k > 0 {
      PinsAreSlots(s, pins, k - 1);
      assert pins[..k] == pins[..k - 1] + [pins[k - 1]];
      OneMorePin(s, pins[..k - 1], pins[k - 1]);
    } else {
      assert PinnedSlots(s, []) == {};
    }
  }

  lemma {:induction false} SlotsBelow(p: set<nat>, n: nat)
    requires forall i | i in p :: i < n
    ensures |p| <= n
    ensures |p| == n ==> forall i: nat | i < n :: i in p
  {
    if n > 0 {
      SlotsBelow(p - {n - 1}, n - 1);
    }
  }

  ghost function Held(s: seq<Buf>): set<nat>
    requires |s| == NBUF + 1
  {
    set i: nat | i < NBUF && s[i].locked
  }

  ghost function Awaited(q: multiset<Waiter>): set<nat> {
    set x | x in q :: x.slot
  }

  /** The slots that are pinned, held or waited for. */
  ghost function InUse(s: seq<Buf>, q: multiset<Waiter>, pins: seq<nat>): set<nat>
    requires |s| == NBUF + 1
  {
    PinnedSlots(s, pins) + Held(s) + Awaited(q)
  }

  lemma Smaller(a: set<nat>, b: set<nat>)
    requires a <= b
    ensures |a| <= |b|
  {
    assert b == a + (b - a);
  }

  lemma {:induction false} AwaitedBound(q: multiset<Waiter>)
    ensures |Awaited(q)| <= |q|
    decreases |q|
  {
    if x :| x in q {
      var r := q - multiset{x};
      AwaitedBound(r);
      Smaller(Awaited(q), Awaited(r) + {x.slot});
    } else {
      assert Awaited(q) == {};
    }
  }

  /** An unreferenced buffer remains exactly when fewer than NBUF are pinned,
      held or waited for. Each logged block pins one; so with no holder and no
      waiter one remains exactly when fewer than NBUF blocks are logged. */
  lemma FreeSlotIffRoom(s: seq<Buf>, q: multiset<Waiter>, d: DiskState, view: DiskState, pins: seq<nat>)
    requires StorageInv(s, q, d, view, pins)
    ensures FreeSlot(s) <==> |InUse(s, q, pins)| < NBUF
    ensures |pins| <= |InUse(s, q, pins)| <= |pins| + |Held(s)| + |q|
    ensures NoneHeld(s) && q == multiset{} ==> (FreeSlot(s) <==> |pins| < NBUF)
  {
    hide UniqueKeys, BufInv;
    PinsAreSlots(s, pins, |pins|);
    assert pins[..|pins|] == pins;
    var p := InUse(s, q, pins);
    UnusedIsFree(s, q, d, view, pins);
    SlotsBelow(p, NBUF);
    Smaller(PinnedSlots(s, pins), p);
    AwaitedBound(q);
    if forall i: nat | i < NBUF :: i in p {
      AllSlots(p, NBUF);
    }
    if NoneHeld(s) && q == multiset{} {
      assert Held(s) == {} && |q| == 0;
    }
  }

  lemma UnusedIsFree(s: seq<Buf>, q: multiset<Waiter>, d: DiskState, view: DiskState, pins: seq<nat>)
    requires StorageInv(s, q, d, view, pins)
    ensures forall i | i in InUse(s, q, pins) :: i < NBUF
    ensures forall i: nat | i < NBUF :: s[i].refcnt == 0 <==> i !in InUse(s, q, pins)
  {
    hide UniqueKeys, IsCached;
    forall i: nat | i < NBUF
      ensures s[i].refcnt == 0 <==> i !in InUse(s, q, pins)
    {
      assert BufInv(s[i], q[WaiterOf(s, i)], view, pins);
      if i in Awaited(q) {
        var x :| x in q && x.slot == i;
        assert x == WaiterOf(s, i);
      }
      assert q[WaiterOf(s, i)] > 0 ==> WaiterOf(s, i) in q && i in Awaited(q);
    }
  }

  lemma {:induction false} AllSlots(p: set<nat>, n: nat)
    requires forall i: nat | i < n :: i in p
    ensures |p| >= n
  {
    if n > 0 {
      AllSlots(p - {n - 1}, n - 1);
    }
  }
}
