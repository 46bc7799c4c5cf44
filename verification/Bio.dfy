/** The buffer cache: a static array of buffers threaded on a circular doubly
    linked list whose sentinel is slot HEAD, most recently used first. */
module Bio {
  import opened Blocks
  import opened LogSpec

  const NBUF := 30 // MAXOPBLOCKS * 3
  const HEAD := 30 // the slot that stands for bcache.head

  /** prev and next are slots; locked is the buffer's sleep lock. */
  datatype Buf = Buf(valid: bool, dev: nat, blockno: nat, refcnt: nat, locked: bool,
                     prev: nat, next: nat, data: Block)

  /** A process between counting its reference in bget and returning from
      acquiresleep: the slot it found and the block it asked for. */
  datatype Waiter = Waiter(slot: nat, dev: nat, blockno: nat)

  /** The device: whole-block reads and writes, with the trace of all writes. */
  class Disk {
    var blocks: DiskState
    ghost var writes: seq<Write>

    constructor (image: DiskState)
      ensures blocks == image && writes == []
    {
      blocks := image;
      writes := [];
    }

    method Put(b: nat, data: Block)
      requires b < |blocks|
      modifies this
      ensures blocks == old(blocks)[b := data]
      ensures writes == old(writes) + [Write(b, data)]
    {
      blocks := blocks[b := data];
      writes := writes + [Write(b, data)];
    }
  }

  // ----- the linked list -----

  ghost predicate Hop(s: seq<Buf>, a: nat, b: nat) {
    a < |s| && b < |s| && s[a].next == b && s[b].prev == a
  }

  /** c lists the slots in `next` order, from the sentinel back to itself. */
  ghost predicate Linked(s: seq<Buf>, c: seq<nat>) {
    && |c| >= 2 && |s| == NBUF + 1
    && c[0] == c[|c| - 1] == HEAD
    && (forall i, j | 0 <= i < j < |c| - 1 :: c[i] != c[j])
    && forall i | 0 <= i < |c| - 1 :: Hop(s, c[i], c[i + 1])
  }

  function Unlink(s: seq<Buf>, b: nat): seq<Buf>
    requires b < |s| && s[b].next < |s| && s[b].prev < |s|
  {
    var s1 := s[s[b].next := s[s[b].next].(prev := s[b].prev)];
    s1[s[b].prev := s1[s[b].prev].(next := s[b].next)]
  }

  function PushFront(s: seq<Buf>, b: nat): seq<Buf>
    requires b < |s| && HEAD < |s| && s[HEAD].next < |s| && b != HEAD
  {
    var f := s[HEAD].next;
    var s1 := s[b := s[b].(next := f, prev := HEAD)];
    var s2 := s1[f := s1[f].(prev := b)];
    s2[HEAD := s2[HEAD].(next := b)]
  }

  /** Two states that differ in links only. */
  ghost predicate SameButLinks(s: seq<Buf>, t: seq<Buf>) {
    && |s| == |t|
    && forall i | 0 <= i < |s| :: t[i] == s[i].(prev := t[i].prev, next := t[i].next)
  }

  lemma UnlinkKeepsList(s: seq<Buf>, c: seq<nat>, k: nat)
    requires Linked(s, c) && 0 < k < |c| - 1
    ensures Hop(s, c[k - 1], c[k]) && Hop(s, c[k], c[k + 1])
    ensures Linked(Unlink(s, c[k]), c[..k] + c[k + 1..])
    ensures SameButLinks(s, Unlink(s, c[k]))
  {
    var q := c[..k] + c[k + 1..];
    assert Hop(s, c[k - 1], c[k - 1 + 1]) && Hop(s, c[k], c[k + 1]);
    var t := Unlink(s, c[k]);
    forall i | 0 <= i < |q| - 1
      ensures Hop(t, q[i], q[i + 1])
    {
      if i < k - 1 {
        assert Hop(s, c[i], c[i + 1]);
      } else if i >= k {
        assert Hop(s, c[i + 1], c[i + 1 + 1]);
      }
    }
  }

  lemma PushKeepsList(s: seq<Buf>, c: seq<nat>, b: nat)
    requires Linked(s, c) && b < HEAD && b !in c
    ensures s[HEAD].next < |s|
    ensures Linked(PushFront(s, b), [HEAD, b] + c[1..])
    ensures SameButLinks(s, PushFront(s, b))
  {
    var q := [HEAD, b] + c[1..];
    assert Hop(s, c[0], c[0 + 1]);
    var t := PushFront(s, b);
    forall i | 0 <= i < |q| - 1
      ensures Hop(t, q[i], q[i + 1])
    {
      if i >= 2 {
        assert Hop(s, c[i - 1], c[i - 1 + 1]);
      }
    }
  }

  /** All NBUF buffers are on the list. */
  ghost predicate FullRing(c: seq<nat>) {
    && |c| == NBUF + 2
    && (forall i | 0 <= i < |c| :: c[i] <= NBUF)
    && forall b: nat | b <= NBUF :: b in c
  }

  ghost predicate UniqueKeys(s: seq<Buf>)
    requires |s| == NBUF + 1
  {
    forall i, j | 0 <= i < j < NBUF :: s[i].dev != 0 && s[i].dev == s[j].dev ==> s[i].blockno != s[j].blockno
  }

  ghost predicate CacheInv(s: seq<Buf>, ring: seq<nat>) {
    && |s| == NBUF + 1
    && FullRing(ring)
    && Linked(s, ring)
    && UniqueKeys(s)
    && forall i | 0 <= i < NBUF :: s[i].locked ==> s[i].refcnt > 0
  }

  /** Every waiter's slot caches the block it asked for, and references count
      the lock holder and the waiters, whatever else they count. */
  ghost predicate WaitInv(s: seq<Buf>, q: multiset<Waiter>) {
    && |s| == NBUF + 1
    && (forall x | x in q :: x.slot < NBUF && HasKey(s[x.slot], x.dev, x.blockno))
    && forall i: nat | i < NBUF :: s[i].refcnt >= HoldCount(s[i]) + q[WaiterOf(s, i)]
  }

  function HoldCount(b: Buf): nat {
    if b.locked then 1 else 0
  }

  /** How a waiter for slot i is listed. */
  function WaiterOf(s: seq<Buf>, i: nat): Waiter
    requires i < |s|
  {
    Waiter(i, s[i].dev, s[i].blockno)
  }

  predicate HasKey(b: Buf, dev: nat, blockno: nat) {
    b.dev == dev && b.blockno == blockno
  }

  /** ring[k] is the least recently used buffer nobody refers to. */
  ghost predicate OldestFree(s: seq<Buf>, ring: seq<nat>, k: nat)
    requires CacheInv(s, ring)
  {
    && 0 < k <= NBUF
    && s[ring[k]].refcnt == 0
    && forall j | k < j <= NBUF :: s[ring[j]].refcnt > 0
  }

  /** Somebody holds the sleep lock of the buffer that caches the block. */
  ghost predicate IsHeld(s: seq<Buf>, dev: nat, blockno: nat) {
    exists i: nat :: i < NBUF && i < |s| && HasKey(s[i], dev, blockno) && s[i].locked
  }

  /** A bget that waits has counted its reference and holds no lock. */
  ghost predicate Queued(s: seq<Buf>, dev: nat, blockno: nat, b: nat, t: seq<Buf>) {
    && b < NBUF && b < |s| && HasKey(s[b], dev, blockno) && s[b].locked
    && t == s[b := s[b].(refcnt := s[b].refcnt + 1)]
  }

  /** Where bget panics: the block is not cached and every buffer is referenced. */
  ghost predicate NoBuffer(s: seq<Buf>, dev: nat, blockno: nat) {
    forall i | 0 <= i < NBUF && i < |s| :: !HasKey(s[i], dev, blockno) && s[i].refcnt > 0
  }

  /** The buffer as bread returns it. */
  function Filled(x: Buf, d: DiskState): Buf
    requires x.blockno < |d|
  {
    if x.valid then x else x.(valid := true, data := d[x.blockno])
  }

  /** The first half of bget, under bcache.lock: one more reference on the
      cached buffer, or the least recently used free buffer takes the key. */
  ghost predicate LookedUp(s: seq<Buf>, ring: seq<nat>, dev: nat, blockno: nat, b: nat, t: seq<Buf>)
    requires CacheInv(s, ring) && b < NBUF
  {
    if HasKey(s[b], dev, blockno) then
      t == s[b := s[b].(refcnt := s[b].refcnt + 1)]
    else
      && (forall i | 0 <= i < NBUF :: !HasKey(s[i], dev, blockno))
      && (exists k: nat :: OldestFree(s, ring, k) && ring[k] == b)
      && t == s[b := s[b].(dev := dev, blockno := blockno, valid := false, refcnt := 1)]
  }

  /** What a successful bget does: the lookup and the sleep lock. */
  ghost predicate GotBuffer(s: seq<Buf>, ring: seq<nat>, dev: nat, blockno: nat, b: nat, t: seq<Buf>)
    requires CacheInv(s, ring) && b < NBUF
  {
    |t| == NBUF + 1 && t[b].locked && LookedUp(s, ring, dev, blockno, b, t[b := t[b].(locked := false)])
  }

  /** A waiter takes the lock of its buffer and reads the disk block if not valid. */
  ghost predicate Resumed(s: seq<Buf>, d: DiskState, x: Waiter, t: seq<Buf>) {
    && x.slot < |s| && !s[x.slot].locked && s[x.slot].blockno < |d|
    && t == s[x.slot := Filled(s[x.slot], d).(locked := true)]
  }

  /** brelse, list links aside: the lock and one reference go. */
  ghost predicate Released(s: seq<Buf>, b: nat, t: seq<Buf>) {
    && b < |s| && s[b].locked && s[b].refcnt > 0
    && SameButLinks(s[b := s[b].(refcnt := s[b].refcnt - 1, locked := false)], t)
  }

  lemma LookupKeeps(s: seq<Buf>, ring: seq<nat>, q: multiset<Waiter>, dev: nat, blockno: nat, b: nat, t: seq<Buf>)
    requires CacheInv(s, ring) && WaitInv(s, q) && b < NBUF && LookedUp(s, ring, dev, blockno, b, t)
    ensures CacheInv(t, ring) && WaitInv(t, q + multiset{Waiter(b, dev, blockno)})
  {
    hide WaitInv;
    LinksUnchanged(s, t, ring, b);
    LookupWaits(s, ring, q, dev, blockno, b, t);
  }

  /** A lookup adds one reference and one waiter to its slot; no slot with a
      waiter is recycled. */
  lemma LookupWaits(s: seq<Buf>, ring: seq<nat>, q: multiset<Waiter>, dev: nat, blockno: nat, b: nat, t: seq<Buf>)
    requires CacheInv(s, ring) && WaitInv(s, q) && b < NBUF && LookedUp(s, ring, dev, blockno, b, t)
    ensures WaitInv(t, q + multiset{Waiter(b, dev, blockno)})
    ensures forall x | x in q :: HasKey(t[x.slot], x.dev, x.blockno)
  {
    hide Linked, FullRing, UniqueKeys;
    if !HasKey(s[b], dev, blockno) {
      forall x | x in q
        ensures x.slot != b
      {
        assert HasKey(s[x.slot], x.dev, x.blockno);
        assert x == WaiterOf(s, x.slot);
      }
    }
  }

  lemma NobodyWaits(s: seq<Buf>)
    requires |s| == NBUF + 1 && forall i | 0 <= i < NBUF :: !s[i].locked
    ensures WaitInv(s, multiset{})
  {
  }

  /** Waiters care for keys, locks and references only. */
  lemma WaitFrame(s: seq<Buf>, t: seq<Buf>, q: multiset<Waiter>)
    requires WaitInv(s, q) && |t| == |s|
    requires forall i: nat | i < NBUF :: t[i].dev == s[i].dev && t[i].blockno == s[i].blockno
    requires forall i: nat | i < NBUF :: t[i].refcnt - HoldCount(t[i]) >= s[i].refcnt - HoldCount(s[i])
    ensures WaitInv(t, q)
  {
  }

  lemma AcquireKeeps(s: seq<Buf>, ring: seq<nat>, b: nat)
    requires CacheInv(s, ring) && b < NBUF && s[b].refcnt > 0
    ensures CacheInv(s[b := s[b].(locked := true)], ring)
  {
    LinksUnchanged(s, s[b := s[b].(locked := true)], ring, b);
  }

  lemma FillKeeps(s: seq<Buf>, ring: seq<nat>, q: multiset<Waiter>, b: nat, data: Block)
    requires CacheInv(s, ring) && WaitInv(s, q) && b < NBUF
    ensures var t := s[b := s[b].(data := data, valid := true)]; CacheInv(t, ring) && WaitInv(t, q)
    ensures var t := s[b := s[b].(data := data)]; CacheInv(t, ring) && WaitInv(t, q)
  {
    LinksUnchanged(s, s[b := s[b].(data := data, valid := true)], ring, b);
    LinksUnchanged(s, s[b := s[b].(data := data)], ring, b);
  }

  /** References and lock of one buffer change. */
  lemma CountKeeps(s: seq<Buf>, ring: seq<nat>, q: multiset<Waiter>, b: nat, n: nat, held: bool)
    requires CacheInv(s, ring) && WaitInv(s, q) && b < NBUF
    requires n - (if held then 1 else 0) >= q[WaiterOf(s, b)]
    ensures var t := s[b := s[b].(refcnt := n, locked := held)]; CacheInv(t, ring) && WaitInv(t, q)
  {
    LinksUnchanged(s, s[b := s[b].(refcnt := n, locked := held)], ring, b);
  }

  lemma WaitersHaveReferences(s: seq<Buf>, q: multiset<Waiter>, b: nat)
    requires WaitInv(s, q) && b < NBUF
    ensures s[b].refcnt >= HoldCount(s[b]) + q[WaiterOf(s, b)]
  {
  }

  lemma LinksDontWait(s: seq<Buf>, t: seq<Buf>, q: multiset<Waiter>)
    requires WaitInv(s, q) && SameButLinks(s, t)
    ensures WaitInv(t, q)
  {
    WaitFrame(s, t, q);
  }

  /** A waiter becomes the holder. */
  lemma AcquireWaits(s: seq<Buf>, q: multiset<Waiter>, x: Waiter)
    requires WaitInv(s, q) && x in q
    ensures x.slot < NBUF < |s| && HasKey(s[x.slot], x.dev, x.blockno) && s[x.slot].refcnt > HoldCount(s[x.slot])
    ensures !s[x.slot].locked ==> WaitInv(s[x.slot := s[x.slot].(locked := true)], q - multiset{x})
  {
    assert x == WaiterOf(s, x.slot);
  }

  /** What a successful bread does: bget, then the disk contents if not valid. */
  ghost predicate ReadBuffer(s: seq<Buf>, ring: seq<nat>, d: DiskState, dev: nat, blockno: nat, b: nat, t: seq<Buf>)
    requires CacheInv(s, ring) && b < NBUF && blockno < |d|
  {
    if HasKey(s[b], dev, blockno) then
      t == s[b := s[b].(refcnt := s[b].refcnt + 1, locked := true, valid := true,
                        data := if s[b].valid then s[b].data else d[blockno])]
    else
      && (forall i | 0 <= i < NBUF :: !HasKey(s[i], dev, blockno))
      && (exists k: nat :: OldestFree(s, ring, k) && ring[k] == b)
      && t == s[b := s[b].(dev := dev, blockno := blockno, valid := true, refcnt := 1, locked := true,
                           data := d[blockno])]
  }

  /** After a lookup the buffer is locked exactly if somebody else holds it. */
  lemma LookupFindsHolder(s: seq<Buf>, ring: seq<nat>, dev: nat, blockno: nat, b: nat, u: seq<Buf>)
    requires CacheInv(s, ring) && b < NBUF && dev != 0 && LookedUp(s, ring, dev, blockno, b, u)
    ensures |u| == NBUF + 1 && (u[b].locked <==> IsHeld(s, dev, blockno))
    ensures u[b].locked ==> Queued(s, dev, blockno, b, u)
    ensures !u[b].locked ==> GotBuffer(s, ring, dev, blockno, b, u[b := u[b].(locked := true)])
  {
    hide Linked, FullRing;
    var v := u[b := u[b].(locked := true)];
    assert v[b := v[b].(locked := false)] == u[b := u[b].(locked := false)];
    if !u[b].locked {
      assert u[b := u[b].(locked := false)] == u;
    }
  }

  /** bget and the disk read make a bread. */
  lemma GotAndFilled(s: seq<Buf>, ring: seq<nat>, d: DiskState, dev: nat, blockno: nat, b: nat, t: seq<Buf>)
    requires CacheInv(s, ring) && b < NBUF && blockno < |d| && GotBuffer(s, ring, dev, blockno, b, t)
    ensures |t| == NBUF + 1 && HasKey(t[b], dev, blockno) && t[b].locked
    ensures ReadBuffer(s, ring, d, dev, blockno, b, t[b := Filled(t[b], d)])
  {
    hide Linked, FullRing, UniqueKeys;
    var u := t[b := t[b].(locked := false)];
    assert u[b := u[b].(locked := true)] == t;
  }

  /** b moves from position k to the most recently used end. */
  ghost predicate MovedToFront(c: seq<nat>, b: nat, k: nat, q: seq<nat>) {
    0 < k < |c| - 1 && c[k] == b && q == [HEAD, b] + c[1..k] + c[k + 1..]
  }

  lemma MoveKeepsRing(c: seq<nat>, b: nat, k: nat)
    requires FullRing(c) && c[0] == HEAD && 0 < k < |c| - 1 && c[k] == b
    ensures var q := [HEAD, b] + (c[..k] + c[k + 1..])[1..];
      FullRing(q) && MovedToFront(c, b, k, q)
  {
    var q := [HEAD, b] + (c[..k] + c[k + 1..])[1..];
    assert q == [HEAD, b] + c[1..k] + c[k + 1..];
    forall x: nat | x <= NBUF
      ensures x in q
    {
      assert x in c;
      assert c == c[..1] + c[1..k] + [c[k]] + c[k + 1..];
    }
  }

  lemma LinksUnchanged(s: seq<Buf>, t: seq<Buf>, c: seq<nat>, b: nat)
    requires Linked(s, c) && b < |s| == |t|
    requires forall i | 0 <= i < |s| && i != b :: t[i] == s[i]
    requires t[b].next == s[b].next && t[b].prev == s[b].prev
    ensures Linked(t, c)
  {
    forall i | 0 <= i < |c| - 1
      ensures Hop(t, c[i], c[i + 1])
    {
      assert Hop(s, c[i], c[i + 1]);
    }
  }

  class Bcache {
    const buf: array<Buf>
    ghost var ring: seq<nat> // slots from the sentinel on, in `next` order
    ghost var waiting: multiset<Waiter>

    ghost predicate Valid()
      reads this, buf
    {
      buf.Length == NBUF + 1 && CacheInv(buf[..], ring) && WaitInv(buf[..], waiting)
    }

    /** binit: every buffer is keyed (0, 0), unreferenced, and on the list. */
    constructor ()
      ensures Valid() && fresh(buf) && waiting == multiset{}
      ensures forall i | 0 <= i < NBUF :: HasKey(buf[i], 0, 0) && buf[i].refcnt == 0 && !buf[i].valid && !buf[i].locked
    {
      buf := new Buf[NBUF + 1](_ => Buf(false, 0, 0, 0, false, HEAD, HEAD, ZERO));
      ring, waiting := [HEAD, HEAD], multiset{};
      new;
      hide WaitInv;
      var b := 0;
      while b < NBUF
        invariant 0 <= b <= NBUF && fresh(buf) && waiting == multiset{}
        invariant Linked(buf[..], ring) && |ring| == b + 2
        invariant forall i | 0 < i <= b :: ring[i] == b - i
        invariant forall i | 0 <= i < NBUF :: HasKey(buf[i], 0, 0) && buf[i].refcnt == 0 && !buf[i].valid && !buf[i].locked
      {
        label L:
        PushKeepsList(buf[..], ring, b);
        var f := buf[HEAD].next;
        buf[b] := buf[b].(next := f, prev := HEAD);
        buf[f] := buf[f].(prev := b);
        buf[HEAD] := buf[HEAD].(next := b);
        assert buf[..] == PushFront(old@L(buf[..]), b);
        ring := [HEAD, b] + ring[1..];
        b := b + 1;
      }
      forall x: nat | x <= NBUF
        ensures x in ring
      {
        assert if x == HEAD then ring[0] == x else ring[NBUF - x] == x;
      }
      NobodyWaits(buf[..]);
    }

    /** First loop of bget: the slot caching the block, or HEAD. */
    method Cached(dev: nat, blockno: nat) returns (b: nat)
      requires Valid()
      ensures b <= NBUF
      ensures b < NBUF ==> HasKey(buf[b], dev, blockno)
      ensures b == HEAD ==> forall i | 0 <= i < NBUF :: !HasKey(buf[i], dev, blockno)
    {
      assert Hop(buf[..], ring[0], ring[0 + 1]);
      b := buf[HEAD].next;
      ghost var k: nat := 1;
      while b != HEAD
        invariant 1 <= k <= NBUF + 1 && b == ring[k]
        invariant forall j | 1 <= j < k :: !HasKey(buf[ring[j]], dev, blockno)
        decreases NBUF + 1 - k
      {
        if HasKey(buf[b], dev, blockno) {
          return;
        }
        assert Hop(buf[..], ring[k], ring[k + 1]);
        b := buf[b].next;
        k := k + 1;
      }
      assert k == NBUF + 1;
      forall i | 0 <= i < NBUF
        ensures !HasKey(buf[i], dev, blockno)
      {
        assert i in ring;
      }
    }

    /** Second loop of bget: the unreferenced slot nearest the old end, or HEAD. */
    method Victim() returns (b: nat)
      requires Valid()
      ensures b <= NBUF
      ensures b < NBUF ==> buf[b].refcnt == 0 && exists k: nat :: OldestFree(buf[..], ring, k) && ring[k] == b
      ensures b == HEAD ==> forall i | 0 <= i < NBUF :: buf[i].refcnt > 0
    {
      assert Hop(buf[..], ring[NBUF], ring[NBUF + 1]);
      b := buf[HEAD].prev;
      ghost var k := NBUF;
      while b != HEAD
        invariant 0 <= k <= NBUF && b == ring[k]
        invariant forall j | k < j <= NBUF :: buf[ring[j]].refcnt > 0
        decreases k
      {
        if buf[b].refcnt == 0 {
          assert OldestFree(buf[..], ring, k);
          return;
        }
        assert Hop(buf[..], ring[k - 1], ring[k - 1 + 1]);
        b := buf[b].prev;
        k := k - 1;
      }
      assert k == 0;
      forall i | 0 <= i < NBUF
        ensures buf[i].refcnt > 0
      {
        assert i in ring;
      }
    }

    /** bget up to the release of bcache.lock: the cached buffer of the block
        with one more reference, or the least recently used unreferenced buffer
        given the new key, or nothing (the panic) exactly when neither exists. */
    method Lookup(dev: nat, blockno: nat) returns (found: bool, b: nat)
      requires Valid() && dev != 0
      modifies this`waiting, buf
      ensures Valid() && found == (b < NBUF)
      ensures found ==> LookedUp(old(buf[..]), ring, dev, blockno, b, buf[..])
      ensures found ==> waiting == old(waiting) + multiset{Waiter(b, dev, blockno)}
      ensures !found ==> buf[..] == old(buf[..]) && waiting == old(waiting)
      ensures !found <==> NoBuffer(old(buf[..]), dev, blockno)
    {
      hide WaitInv, Linked, UniqueKeys, FullRing;
      b := Cached(dev, blockno);
      if b < NBUF {
        buf[b] := buf[b].(refcnt := buf[b].refcnt + 1);
      } else {
        b := Victim();
        if b < NBUF {
          buf[b] := buf[b].(dev := dev, blockno := blockno, valid := false, refcnt := 1);
        }
      }
      found := b < NBUF;
      if found {
        LookupKeeps(old(buf[..]), ring, old(waiting), dev, blockno, b, buf[..]);
        waiting := waiting + multiset{Waiter(b, dev, blockno)};
      }
    }

    /** acquiresleep at the end of bget, once nobody else holds the lock. Whoever
        looked the block up finds the buffer still on that block: no reference
        that others may drop is a waiter's. */
    method Acquire(b: nat, ghost dev: nat, ghost blockno: nat)
      requires Valid() && Waiter(b, dev, blockno) in waiting && !buf[b].locked
      modifies this`waiting, buf
      ensures Valid() && b < NBUF && HasKey(buf[b], dev, blockno)
      ensures buf[..] == old(buf[..])[b := old(buf[b]).(locked := true)]
      ensures waiting == old(waiting) - multiset{Waiter(b, dev, blockno)}
    {
      hide WaitInv, Linked, UniqueKeys, FullRing;
      AcquireWaits(buf[..], waiting, Waiter(b, dev, blockno));
      AcquireKeeps(buf[..], ring, b);
      buf[b] := buf[b].(locked := true);
      waiting := waiting - multiset{Waiter(b, dev, blockno)};
      assert buf[..] == old(buf[..])[b := old(buf[b]).(locked := true)];
    }

    /** bget: lookup and sleep lock, unless somebody else holds the lock: then
        it sleeps in acquiresleep, its reference already counted. */
    method Bget(dev: nat, blockno: nat) returns (found: bool, b: nat, waits: bool)
      requires Valid() && dev != 0
      modifies this`waiting, buf
      ensures Valid() && found == (b < NBUF)
      ensures waits <==> IsHeld(old(buf[..]), dev, blockno)
      ensures waits ==> Queued(old(buf[..]), dev, blockno, b, buf[..])
      ensures waiting == if waits then old(waiting) + multiset{Waiter(b, dev, blockno)} else old(waiting)
      ensures found && !waits ==> GotBuffer(old(buf[..]), ring, dev, blockno, b, buf[..])
      ensures !found ==> buf[..] == old(buf[..])
      ensures !found <==> NoBuffer(old(buf[..]), dev, blockno)
    {
      hide WaitInv, CacheInv;
      waits := false;
      found, b := Lookup(dev, blockno);
      if found {
        LookupFindsHolder(old(buf[..]), ring, dev, blockno, b, buf[..]);
        waits := buf[b].locked;
        if !waits {
          Acquire(b, dev, blockno);
        }
      }
    }

    /** bread: a locked buffer with valid contents, from the cache or the disk,
        unless bget sleeps. */
    method Bread(disk: Disk, dev: nat, blockno: nat) returns (found: bool, b: nat, waits: bool)
      requires Valid() && dev != 0 && blockno < |disk.blocks|
      modifies this`waiting, buf
      ensures Valid() && found == (b < NBUF)
      ensures waits <==> IsHeld(old(buf[..]), dev, blockno)
      ensures waits ==> Queued(old(buf[..]), dev, blockno, b, buf[..])
      ensures waiting == if waits then old(waiting) + multiset{Waiter(b, dev, blockno)} else old(waiting)
      ensures found && !waits ==> ReadBuffer(old(buf[..]), ring, disk.blocks, dev, blockno, b, buf[..])
      ensures !found ==> buf[..] == old(buf[..])
      ensures !found <==> NoBuffer(old(buf[..]), dev, blockno)
    {
      hide WaitInv, CacheInv;
      found, b, waits := Bget(dev, blockno);
      if found && !waits {
        GotAndFilled(old(buf[..]), ring, disk.blocks, dev, blockno, b, buf[..]);
        Fill(disk, b);
      }
    }

    /** What bread does once it holds the buffer: the disk contents if not valid. */
    method Fill(disk: Disk, b: nat)
      requires Valid() && b < NBUF && buf[b].locked && buf[b].blockno < |disk.blocks|
      modifies buf
      ensures Valid()
      ensures buf[..] == old(buf[..])[b := Filled(old(buf[b]), disk.blocks)]
    {
      hide WaitInv, CacheInv;
      if !buf[b].valid {
        FillKeeps(buf[..], ring, waiting, b, disk.blocks[buf[b].blockno]);
        buf[b] := buf[b].(data := disk.blocks[buf[b].blockno], valid := true);
        assert buf[..] == old(buf[..])[b := Filled(old(buf[b]), disk.blocks)];
      }
    }

    /** A waiting bread goes on when the sleep lock is free, with the buffer of
        the block it asked for. */
    method Resume(disk: Disk, b: nat, dev: nat, blockno: nat)
      requires Valid() && Waiter(b, dev, blockno) in waiting && !buf[b].locked && blockno < |disk.blocks|
      modifies this`waiting, buf
      ensures Valid() && b < NBUF && HasKey(buf[b], dev, blockno)
      ensures Resumed(old(buf[..]), disk.blocks, Waiter(b, dev, blockno), buf[..])
      ensures waiting == old(waiting) - multiset{Waiter(b, dev, blockno)}
    {
      Acquire(b, dev, blockno);
      Fill(disk, b);
    }

    /** bwrite: the locked buffer's contents go to its block. */
    method Bwrite(disk: Disk, b: nat)
      requires b < buf.Length == NBUF + 1 && buf[b].locked && buf[b].blockno < |disk.blocks|
      modifies disk
      ensures disk.blocks == old(disk.blocks)[buf[b].blockno := buf[b].data]
      ensures disk.writes == old(disk.writes) + [Write(buf[b].blockno, buf[b].data)]
    {
      disk.Put(buf[b].blockno, buf[b].data);
    }

    /** The holder of a buffer changes its contents. */
    method SetData(b: nat, data: Block)
      requires Valid() && b < NBUF && buf[b].locked
      modifies buf
      ensures Valid() && buf[..] == old(buf[..])[b := old(buf[b]).(data := data)]
    {
      hide WaitInv, CacheInv;
      FillKeeps(buf[..], ring, waiting, b, data);
      buf[b] := buf[b].(data := data);
      assert buf[..] == old(buf[..])[b := old(buf[b]).(data := data)];
    }

    /** brelse: unlock, drop the reference, and when it was the last one move
        the buffer to the most recently used end. */
    method Brelse(b: nat)
      requires Valid() && b < NBUF && buf[b].locked
      modifies this`ring, buf
      ensures Valid()
      ensures Released(old(buf[..]), b, buf[..])
      ensures old(buf[b]).refcnt > 1 ==> ring == old(ring)
      ensures old(buf[b]).refcnt == 1 ==> exists k: nat :: MovedToFront(old(ring), b, k, ring)
    {
      hide WaitInv, Linked, UniqueKeys;
      WaitersHaveReferences(buf[..], waiting, b);
      CountKeeps(buf[..], ring, waiting, b, buf[b].refcnt - 1, false);
      buf[b] := buf[b].(refcnt := buf[b].refcnt - 1, locked := false);
      ghost var s := buf[..];
      assert s == old(buf[..])[b := old(buf[b]).(refcnt := old(buf[b]).refcnt - 1, locked := false)];
      if buf[b].refcnt == 0 {
        ghost var k := Position(ring, b);
        LinkedEnds(s, ring);
        MoveToFront(b, k);
      }
    }

    ghost function Position(c: seq<nat>, b: nat): (k: nat)
      requires b in c
      ensures k < |c| && c[k] == b
    {
      var k: nat :| k < |c| && c[k] == b;
      k
    }

    static lemma LinkedEnds(s: seq<Buf>, c: seq<nat>)
      requires Linked(s, c)
      ensures |c| >= 2 && c[0] == c[|c| - 1] == HEAD
    {
    }

    /** The pointer surgery of brelse for the buffer at position k of the list. */
    method MoveToFront(b: nat, ghost k: nat)
      requires Valid() && b < NBUF && 0 < k < |ring| - 1 && ring[k] == b
      modifies this`ring, buf
      ensures Valid() && SameButLinks(old(buf[..]), buf[..]) && MovedToFront(old(ring), b, k, ring)
    {
      hide WaitInv;
      ghost var s, c := buf[..], ring[..k] + ring[k + 1..];
      UnlinkKeepsList(s, ring, k);
      var n, p := buf[b].next, buf[b].prev;
      buf[n] := buf[n].(prev := buf[b].prev);
      buf[p] := buf[p].(next := buf[b].next);
      assert buf[..] == Unlink(s, b);
      label L:
      var f := buf[HEAD].next;
      PushKeepsList(buf[..], c, b);
      buf[b] := buf[b].(next := f, prev := HEAD);
      buf[f] := buf[f].(prev := b);
      buf[HEAD] := buf[HEAD].(next := b);
      assert buf[..] == PushFront(old@L(buf[..]), b);
      MoveKeepsRing(ring, b, k);
      ring := [HEAD, b] + c[1..];
      LinksDontWait(s, buf[..], waiting);
    }

    /** bpin: one more reference. */
    method Bpin(b: nat)
      requires Valid() && b < NBUF
      modifies buf
      ensures Valid() && buf[..] == old(buf[..])[b := old(buf[b]).(refcnt := old(buf[b]).refcnt + 1)]
    {
      hide WaitInv, CacheInv;
      WaitersHaveReferences(buf[..], waiting, b);
      CountKeeps(buf[..], ring, waiting, b, buf[b].refcnt + 1, buf[b].locked);
      buf[b] := buf[b].(refcnt := buf[b].refcnt + 1);
      assert buf[..] == old(buf[..])[b := old(buf[b]).(refcnt := old(buf[b]).refcnt + 1, locked := old(buf[b]).locked)];
    }

    /** bunpin: one reference less, which must be neither the holder's nor a waiter's. */
    method Bunpin(b: nat)
      requires Valid() && b < NBUF && buf[b].refcnt > HoldCount(buf[b]) + waiting[WaiterOf(buf[..], b)]
      modifies buf
      ensures Valid() && buf[..] == old(buf[..])[b := old(buf[b]).(refcnt := old(buf[b]).refcnt - 1)]
    {
      hide WaitInv, CacheInv;
      CountKeeps(buf[..], ring, waiting, b, buf[b].refcnt - 1, buf[b].locked);
      buf[b] := buf[b].(refcnt := buf[b].refcnt - 1);
      assert buf[..] == old(buf[..])[b := old(buf[b]).(refcnt := old(buf[b]).refcnt - 1, locked := old(buf[b]).locked)];
    }
  }
}
