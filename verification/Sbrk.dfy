/** Growing and shrinking a process: growproc and sys_sbrk, eager or lazy. */
module Sbrk {
  import opened Pages
  import opened VmSpec
  import opened VmNeed
  import opened Vm
  import opened VmSpace
  import opened Uvm
  import Umalloc

  const U64 := 0x1_0000_0000_0000_0000

  /** An unmapped tail may be claimed without mapping it. */
  lemma SpaceUpTo(m: Memory, f: seq<nat>, t: Tree, lo: nat, hi: nat)
    requires Space(m, f, t, lo) && lo <= hi <= USERTOP
    ensures Space(m, f, t, hi) && SamePool(m, f, t, m, f, t)
  {
    hide Leaf, WF, FreeOk;
  }

  /** The new size of a process of size sz after a request for n more bytes. */
  function NewSize(sz: nat, n: int): int {
    if sz + n < 0 then sz else sz + n
  }

  lemma Wraps(sz: nat, n: int)
    requires sz <= TRAPFRAME && -0x8000_0000 <= n < 0
    ensures (sz + n) % U64 == (if sz + n < 0 then sz + n + U64 else sz + n)
    ensures sz + n < 0 ==> (sz + n) % U64 >= sz
  {
  }

  /** Whether a request for n more bytes can be met at once: within the user
      space, and with the pages and tables it takes in the queue. */
  ghost predicate Growable(t: Tree, free: nat, sz: nat, n: int) {
    n <= 0 || (sz + n <= TRAPFRAME && Needed(ShapeOf(t), Range(Top(sz), Top(sz + n))) <= free)
  }

  /** growproc: all user leaves stay below the rounded-up size, no page is lost,
      and on failure nothing has changed; when it fails is known before. A
      shrink by more than the size wraps around to a huge new size, which
      uvmdealloc leaves alone. */
  method Growproc(ph: Phys, root: nat, sz: nat, n: int, ghost t: Tree) returns (ok: bool, newsz: nat, ghost u: Tree)
    requires sz <= TRAPFRAME && Space(ph.mem, ph.free, t, Top(sz)) && root == t.root
    requires -0x8000_0000 <= n < 0x8000_0000
    modifies ph
    ensures u.root == root && newsz <= TRAPFRAME && Space(ph.mem, ph.free, u, Top(newsz))
    ensures SamePool(old(ph.mem), old(ph.free), t, ph.mem, ph.free, u)
    ensures ok <==> Growable(t, old(|ph.free|), sz, n)
    ensures ok ==> newsz == NewSize(sz, n)
    ensures ok && n > 0 ==> Allocated(old(ph.mem), t, ph.mem, u, Top(sz), Top(newsz), PTE_R + PTE_U + PTE_V + PTE_W)
    ensures ok && n <= 0 ==> u == t && Shrunk(old(ph.mem), t, ph.mem, Top(newsz), Top(sz))
    ensures !ok ==> n > 0 && newsz == sz && Restored(old(ph.mem), t, ph.mem, u, Top(sz))
  {
    hide Leaf, WF, FreeOk, UserOk, TablePages, Space, SamePool, Shrunk, Restored, Allocated, Needed, ShapeOf, Range;
    u, newsz, ok := t, sz, true;
    ghost var m0, f0 := ph.mem, ph.free;
    Unchanged(m0, f0, t, sz);
    if n > 0 {
      if sz + n > TRAPFRAME {
        return false, sz, t;
      }
      var r;
      r, u := Uvmalloc(ph, root, sz, sz + n, PTE_W, t);
      if r == 0 {
        return false, sz, u;
      }
      newsz := r;
    } else if n < 0 {
      Wraps(sz, n);
      newsz := Uvmdealloc(ph, root, sz, (sz + n) % U64, t);
    }
  }

  lemma Unchanged(m: Memory, f: seq<nat>, t: Tree, sz: nat)
    requires Space(m, f, t, Top(sz))
    ensures SamePool(m, f, t, m, f, t) && Shrunk(m, t, m, Top(sz), Top(sz)) && Restored(m, t, m, t, Top(sz))
  {
    hide WF, FreeOk, InPool, Leaf;
  }

  /** sys_sbrk: the old size, or -1 with nothing changed. A lazy growth only
      raises the size: every later page is mapped by vmfault when touched, so
      the leaves are again all below the size. */
  method SysSbrk(ph: Phys, root: nat, sz: nat, n: int, eager: bool, ghost t: Tree) returns (r: int, newsz: nat, ghost u: Tree)
    requires sz <= TRAPFRAME && Space(ph.mem, ph.free, t, Top(sz)) && root == t.root
    requires -0x8000_0000 <= n < 0x8000_0000
    modifies ph
    ensures u.root == root && newsz <= TRAPFRAME && Space(ph.mem, ph.free, u, Top(newsz))
    ensures SamePool(old(ph.mem), old(ph.free), t, ph.mem, ph.free, u)
    ensures if r == -1 then newsz == sz && Restored(old(ph.mem), t, ph.mem, u, Top(sz)) else r == sz && newsz == NewSize(sz, n)
    ensures eager || n < 0 ==> (r != -1 <==> Growable(t, old(|ph.free|), sz, n))
    ensures !eager && n >= 0 ==> ph.mem == old(ph.mem) && ph.free == old(ph.free) && u == t && (r == -1 <==> sz + n > TRAPFRAME)
  {
    hide Leaf, WF, FreeOk, UserOk, TablePages, Space, SamePool, Shrunk, Restored, Allocated, Growable;
    u, newsz, r := t, sz, sz;
    if eager || n < 0 {
      var ok;
      ok, newsz, u := Growproc(ph, root, sz, n, t);
      if !ok {
        r := -1;
      }
    } else {
      Unchanged(ph.mem, ph.free, t, sz);
      if (sz + n) % U64 < sz || sz + n > TRAPFRAME {
        return -1, sz, t;
      }
      SpaceUpTo(ph.mem, ph.free, t, Top(sz), Top(sz + n));
      newsz := sz + n;
    }
  }

  // ----- malloc's request -----

  /** morecore's block ends at the new size exactly for requests up to
      MAXREQUEST. Above it sbrk's int is at most one header: not above zero, it
      never fails, and the block starts at the old size and ends past the new. */
  lemma OversizedRequest(t: Tree, free: nat, sz: nat, nbytes: nat)
    requires sz <= TRAPFRAME && nbytes < 0x1_0000_0000
    ensures var bytes := Umalloc.CoreUnits(Umalloc.Units(nbytes)) * Umalloc.HEADER;
      var n := Umalloc.IntArg(bytes);
      && (NewSize(sz, n) == sz + bytes <==> nbytes <= Umalloc.MAXREQUEST)
      && (nbytes > Umalloc.MAXREQUEST ==>
          n <= Umalloc.HEADER && NewSize(sz, n) < sz + bytes && (n <= 0 ==> Growable(t, free, sz, n)))
  {
    var bytes := Umalloc.CoreUnits(Umalloc.Units(nbytes)) * Umalloc.HEADER;
    Umalloc.RequestSize(nbytes);
    assert bytes < 0x1_0000_0000 + 2 * Umalloc.HEADER;
    if nbytes > Umalloc.MAXREQUEST {
      if bytes >= 0x1_0000_0000 {
        assert bytes % 0x1_0000_0000 == bytes - 0x1_0000_0000;
      }
    }
  }

  /** malloc of 2 to the 31 bytes asks sbrk for a negative number of bytes:
      it succeeds and shrinks, or leaves, the process. */
  lemma TwoGigabytes(t: Tree, free: nat, sz: nat)
    requires sz <= TRAPFRAME
    ensures var n := Umalloc.IntArg(Umalloc.CoreUnits(Umalloc.Units(0x8000_0000)) * Umalloc.HEADER);
      n == -0x7FFF_FFF0 && Growable(t, free, sz, n) && NewSize(sz, n) <= sz
  {
    assert Umalloc.Units(0x8000_0000) == 0x800_0001;
  }
}
