/** Growing, shrinking, faulting in, copying and freeing user address spaces. */
module Uvm {
  import opened Pages
  import opened VmSpec
  import opened VmNeed
  import opened Vm
  import opened VmSpace

  const TRAPFRAME := 0x3F_FFFF_E000 // TRAMPOLINE - PGSIZE

  /** From lo to cur, pages have been mapped with the flags and zeroed; the
      rest of the address space and its contents are as in (m, t). */
  ghost predicate Allocated(m: Memory, t: Tree, n: Memory, u: Tree, lo: nat, cur: nat, flags: nat) {
    && (forall w: nat | w < lo || w >= cur :: Leaf(n, u, w) == Leaf(m, t, w))
    && (forall w: nat | lo <= w < cur :: IsMapped(n, u, w) && PteFlags(Leaf(n, u, w)) == flags
          && Target(n, u, w) in n && n[Target(n, u, w)] == Zeros())
    && forall w: nat | w < lo && IsMapped(m, t, w) && Target(m, t, w) in m ::
      Target(m, t, w) in n && n[Target(m, t, w)] == m[Target(m, t, w)]
  }

  /** kalloc, fill and map one page at v, or leave the space as it was: the
      latter exactly when the queue is too short for the page and the tables
      that v lacks. */
  method AllocPage(ph: Phys, root: nat, v: nat, perm: nat, content: Page, ghost hi: nat, ghost t: Tree) returns (mem: nat, ghost u: Tree)
    requires Space(ph.mem, ph.free, t, hi) && root == t.root && v < hi && !IsMapped(ph.mem, t, v)
    requires perm < 1024 && perm % 2 == 0
    modifies ph
    ensures Space(ph.mem, ph.free, u, hi) && u.root == root
    ensures SamePool(old(ph.mem), old(ph.free), t, ph.mem, ph.free, u) && OutsideKept(old(ph.mem), old(ph.free), t, ph.mem)
    ensures mem != 0 ==> KeepsUser(old(ph.mem), t, ph.mem, u, v)
    ensures mem != 0 ==> mem in ph.mem && ph.mem[mem] == content && Leaf(ph.mem, u, v) == Pte(mem, perm + PTE_V)
    ensures mem != 0 ==> mem % PGSIZE == 0 && IsMapped(ph.mem, u, v) && Target(ph.mem, u, v) == mem
    ensures mem == 0 ==> SameLeaves(old(ph.mem), t, ph.mem, u) && KeepsUser(old(ph.mem), t, ph.mem, u, USERTOP)
    ensures mem == 0 <==> old(|ph.free|) < 1 + Missing(ShapeOf(t), {v})
    ensures mem != 0 ==> |ph.free| + 1 + Missing(ShapeOf(t), {v}) == old(|ph.free|) && ShapeOf(u) == Grown(ShapeOf(t), {v})
  {
    hide WF, FreeOk, UserOk, Leaf, TablePages, Taken, MappedRange, KeepsUser, SamePool, OutsideKept, IsMapped,
      Missing, Grown, ShapeOf;
    u := t;
    if ph.free == [] {
      SpaceUnchanged(ph.mem, ph.free, t);
      return 0, t;
    }
    ghost var m0, f0 := ph.mem, ph.free;
    FreshKeeps(m0, f0, content, t);
    FreshUnmapped(m0, f0, content, t, v);
    mem := ph.free[0];
    ph.free := ph.free[1..];
    ph.mem := ph.mem[mem := content];
    var ok;
    ghost var k, n, m1, f1 := 0, 0, ph.mem, ph.free;
    ok, u, k, n := ph.Mappages(root, v * PGSIZE, PGSIZE, mem, perm, t);
    assert Range(v, v + 1) == {v};
    if ok {
      QueueLeft(m1, f1, t, ph.mem, ph.free, u, k);
      OddFlags(perm);
      MapKeepsSpace(m0, f0, content, t, hi, ph.mem, ph.free, u, k, v, perm + PTE_V);
    } else {
      MapFailsKeepsSpace(m0, f0, content, t, hi, ph.mem, ph.free, u, k, v, perm + PTE_V);
      ph.Kfree(mem, u);
      mem := 0;
    }
  }

  lemma OddFlags(perm: nat)
    requires perm < 1024 && perm % 2 == 0
    ensures perm + PTE_V < 1024 && IsValid(perm + PTE_V)
  {
  }

  lemma SpaceUnchanged(m: Memory, f: seq<nat>, t: Tree)
    ensures SamePool(m, f, t, m, f, t) && OutsideKept(m, f, t, m)
    ensures KeepsUser(m, t, m, t, USERTOP) && SameLeaves(m, t, m, t)
  {
  }

  lemma FreshUnmapped(m: Memory, f: seq<nat>, c: Page, t: Tree, v: nat)
    requires WF(m, t) && FreeOk(m, f, t) && f != [] && !IsMapped(m, t, v)
    ensures !IsMapped(Fresh(m, f, c), t, v)
  {
    FreshKeeps(m, f, c, t);
  }

  /** walkaddr answers the page mapped at the address. */
  ghost predicate IsReached(m: Memory, t: Tree, va: nat) {
    UserPage(m, t, va) != 0 && UserPage(m, t, va) == Target(m, t, va / PGSIZE) && UserPage(m, t, va) in m
  }

  /** walkaddr reaches every address of pages allocated with user flags. */
  lemma AllocatedIsReached(m: Memory, t: Tree, n: Memory, g: seq<nat>, u: Tree, lo: nat, hi: nat, xperm: nat)
    requires Allocated(m, t, n, u, lo, hi, PTE_R + PTE_U + PTE_V + xperm) && xperm in {0, PTE_W, PTE_X, PTE_W + PTE_X}
    requires Space(n, g, u, hi)
    ensures forall va: nat | lo <= va / PGSIZE < hi :: IsReached(n, u, va) && n[UserPage(n, u, va)] == Zeros()
  {
    hide WF, Leaf, FreeOk;
    forall va: nat | lo <= va / PGSIZE < hi
      ensures IsReached(n, u, va) && n[UserPage(n, u, va)] == Zeros()
    {
      FlagsOfEntry(Leaf(n, u, va / PGSIZE));
      UserPageInSpace(n, g, u, hi, va / PGSIZE);
    }
  }

  // ----- growing and shrinking -----

  /** uvmalloc: a smaller new size changes nothing. Else on success every page
      from the old top to the new one is mapped, zeroed, with the given
      permissions; on failure, which is exactly when the queue is too short for
      these pages and the tables they lack, the mapping, its contents and the
      pool of pages are as before. */
  method Uvmalloc(ph: Phys, root: nat, oldsz: nat, newsz: nat, xperm: nat, ghost t: Tree) returns (r: nat, ghost u: Tree)
    requires newsz <= TRAPFRAME && Space(ph.mem, ph.free, t, Top(oldsz)) && root == t.root
    requires xperm in {0, PTE_W, PTE_X, PTE_W + PTE_X}
    modifies ph
    ensures SamePool(old(ph.mem), old(ph.free), t, ph.mem, ph.free, u) && u.root == root
    ensures newsz < oldsz ==> r == oldsz && u == t && ph.mem == old(ph.mem) && ph.free == old(ph.free)
    ensures newsz >= oldsz ==> r == newsz || r == 0
    ensures newsz >= oldsz ==> (r == newsz <==> Needed(ShapeOf(t), Range(Top(oldsz), Top(newsz))) <= old(|ph.free|))
    ensures newsz >= oldsz && r == newsz ==> Space(ph.mem, ph.free, u, Top(newsz))
    ensures newsz >= oldsz && r == newsz ==>
      Allocated(old(ph.mem), t, ph.mem, u, Top(oldsz), Top(newsz), PTE_R + PTE_U + PTE_V + xperm)
    ensures newsz >= oldsz && r == newsz ==> forall va: nat | Top(oldsz) <= va / PGSIZE < Top(newsz) ::
      IsReached(ph.mem, u, va) && ph.mem[UserPage(ph.mem, u, va)] == Zeros()
    ensures newsz >= oldsz && r != newsz ==> Space(ph.mem, ph.free, u, Top(oldsz)) && Restored(old(ph.mem), t, ph.mem, u, Top(oldsz))
  {
    hide WF, FreeOk, UserOk, Leaf, TablePages, KeepsUser, SamePool, IsMapped, Allocated, Restored, Space, SameLeaves,
      Missing, Grown, ShapeOf, Needed, Spent, Range, UserPage, IsReached;
    u := t;
    ghost var m0, f0 := ph.mem, ph.free;
    NothingAllocated(m0, f0, t, Top(oldsz), PTE_R + PTE_U + PTE_V + xperm);
    if newsz < oldsz {
      return oldsz, t;
    }
    NothingSpent(t, |f0|);
    assert Range(Top(oldsz), Top(oldsz)) == {};
    var a := PgRoundUp(oldsz);
    ghost var cur := Top(oldsz);
    while a < newsz
      invariant a == cur * PGSIZE && Top(oldsz) <= cur <= Top(newsz) && u.root == root
      invariant Space(ph.mem, ph.free, u, cur) && SamePool(m0, f0, t, ph.mem, ph.free, u)
      invariant Allocated(m0, t, ph.mem, u, Top(oldsz), cur, PTE_R + PTE_U + PTE_V + xperm)
      invariant Spent(t, u, |f0|, |ph.free|, Range(Top(oldsz), cur))
    {
      ghost var m1, f1, u1 := ph.mem, ph.free, u;
      SpaceMore(m1, f1, u1, cur);
      var mem;
      mem, u := AllocPage(ph, root, a / PGSIZE, PTE_R + PTE_U + xperm, Zeros(), cur + 1, u1);
      SamePoolChain(m0, f0, t, m1, f1, u1, ph.mem, ph.free, u);
      if mem == 0 {
        SpentOut(t, u1, |f0|, |f1|, Range(Top(oldsz), cur), cur, Range(Top(oldsz), Top(newsz)));
        SpaceLess(m1, f1, u1, ph.mem, ph.free, u, cur);
        AllocatedSame(m0, t, m1, f1, u1, ph.mem, u, Top(oldsz), cur, PTE_R + PTE_U + PTE_V + xperm);
        ghost var m2, f2 := ph.mem, ph.free;
        var d := Uvmdealloc(ph, root, a, PgRoundUp(oldsz), u);
        SamePoolChain(m0, f0, t, m2, f2, u, ph.mem, ph.free, u);
        Rollback(m0, f0, t, m2, f2, u, ph.mem, Top(oldsz), cur, PTE_R + PTE_U + PTE_V + xperm);
        return 0, u;
      }
      AllocatedMore(m0, t, m1, f1, u1, ph.mem, u, Top(oldsz), cur, PTE_R + PTE_U + PTE_V + xperm, mem);
      SpentMore(t, u1, u, |f0|, |f1|, |ph.free|, Range(Top(oldsz), cur), cur);
      assert Range(Top(oldsz), cur + 1) == Range(Top(oldsz), cur) + {cur};
      a := a + PGSIZE;
      cur := cur + 1;
    }
    SpentAll(t, u, |f0|, |ph.free|, Range(Top(oldsz), cur));
    AllocatedIsReached(m0, t, ph.mem, ph.free, u, Top(oldsz), cur, xperm);
    r := newsz;
  }

  /** uvmdealloc: the pages from the new top up go back to the queue. */
  method Uvmdealloc(ph: Phys, root: nat, oldsz: nat, newsz: nat, ghost t: Tree) returns (r: nat)
    requires Space(ph.mem, ph.free, t, Top(oldsz)) && root == t.root
    modifies ph
    ensures r == if newsz >= oldsz then oldsz else newsz
    ensures Space(ph.mem, ph.free, t, Top(r))
    ensures SamePool(old(ph.mem), old(ph.free), t, ph.mem, ph.free, t)
    ensures Shrunk(old(ph.mem), t, ph.mem, Top(r), Top(oldsz))
  {
    hide WF, FreeOk, UserOk, Leaf, TablePages, KeepsUser, SamePool, IsMapped;
    ghost var m0, f0 := ph.mem, ph.free;
    SpaceUnchanged(m0, f0, t);
    if newsz >= oldsz {
      return oldsz;
    }
    if PgRoundUp(newsz) < PgRoundUp(oldsz) {
      var npages := (PgRoundUp(oldsz) - PgRoundUp(newsz)) / PGSIZE;
      assert npages == Top(oldsz) - Top(newsz) && PgRoundUp(newsz) == Top(newsz) * PGSIZE;
      SpaceRange(m0, f0, t, Top(oldsz), Top(newsz));
      ph.Uvmunmap(root, PgRoundUp(newsz), npages, true, t);
      UnmapKeepsSpace(m0, f0, t, Top(oldsz), ph.mem, Top(newsz));
    }
    r := newsz;
  }

  /** vmfault: maps and zeroes the faulting page of a lazily grown process; 0
      exactly when the address is out of range or already mapped, or the queue
      is too short for the page and the tables it lacks. */
  method Vmfault(ph: Phys, root: nat, sz: nat, va: nat, ghost t: Tree) returns (mem: nat, ghost u: Tree)
    requires sz <= TRAPFRAME && Space(ph.mem, ph.free, t, Top(sz)) && root == t.root
    modifies ph
    ensures Space(ph.mem, ph.free, u, Top(sz)) && SamePool(old(ph.mem), old(ph.free), t, ph.mem, ph.free, u)
    ensures mem == 0 <==> va >= sz || IsMapped(old(ph.mem), t, va / PGSIZE)
                          || old(|ph.free|) < 1 + Missing(ShapeOf(t), {va / PGSIZE})
    ensures mem == 0 ==> SameLeaves(old(ph.mem), t, ph.mem, u) && KeepsUser(old(ph.mem), t, ph.mem, u, USERTOP)
    ensures mem != 0 ==> KeepsUser(old(ph.mem), t, ph.mem, u, va / PGSIZE)
    ensures mem != 0 ==> mem in ph.mem && ph.mem[mem] == Zeros()
    ensures mem != 0 ==> Leaf(ph.mem, u, va / PGSIZE) == Pte(mem, PTE_R + PTE_W + PTE_U + PTE_V)
    ensures mem != 0 ==> forall x: nat | x / PGSIZE == va / PGSIZE :: UserPage(ph.mem, u, x) == mem
  {
    hide WF, FreeOk, UserOk, TablePages, KeepsUser, SamePool, SameLeaves, Missing, Grown, ShapeOf;
    u := t;
    SpaceUnchanged(ph.mem, ph.free, t);
    if va >= sz {
      return 0, t;
    }
    var pg;
    ghost var w, k;
    pg, w, k := ph.Walk(root, va / PGSIZE * PGSIZE, false, t);
    assert va / PGSIZE * PGSIZE / PGSIZE == va / PGSIZE;
    IndicesOfPage(va / PGSIZE * PGSIZE);
    if pg != 0 {
      LowIsPage(ph.mem, t, va / PGSIZE);
      if IsValid(ph.mem[pg][PX(0, va / PGSIZE * PGSIZE)]) {
        return 0, t;
      }
    }
    mem, u := AllocPage(ph, root, va / PGSIZE, PTE_W + PTE_U + PTE_R, Zeros(), Top(sz), t);
    if mem != 0 {
      FaultedIsReached(ph.mem, u, mem, va);
    }
  }

  lemma FaultedIsReached(n: Memory, u: Tree, mem: nat, va: nat)
    requires mem % PGSIZE == 0 && Leaf(n, u, va / PGSIZE) == Pte(mem, PTE_R + PTE_W + PTE_U + PTE_V) && va < TRAPFRAME
    ensures forall x: nat | x / PGSIZE == va / PGSIZE :: UserPage(n, u, x) == mem
  {
    hide Leaf;
    PteRoundTrip(mem, PTE_R + PTE_W + PTE_U + PTE_V);
  }

  /** Unmapped from lo to hi; below lo nothing changed. */
  ghost predicate Shrunk(m: Memory, t: Tree, n: Memory, lo: nat, hi: nat) {
    && (forall w: nat | w < lo || w >= hi :: Leaf(n, t, w) == Leaf(m, t, w))
    && (forall w: nat | lo <= w < hi :: !IsMapped(n, t, w))
    && forall w: nat | w < lo && IsMapped(m, t, w) && Target(m, t, w) in m :: Target(m, t, w) in n && n[Target(m, t, w)] == m[Target(m, t, w)]
  }

  /** Same mapping, and same contents of the pages below hi. */
  ghost predicate Restored(m: Memory, t: Tree, n: Memory, u: Tree, hi: nat) {
    && SameMap(m, t, n, u)
    && forall w: nat | w < hi && IsMapped(m, t, w) && Target(m, t, w) in m ::
      Target(m, t, w) in n && n[Target(m, t, w)] == m[Target(m, t, w)]
  }

  lemma NothingAllocated(m: Memory, f: seq<nat>, t: Tree, lo: nat, flags: nat)
    ensures Allocated(m, t, m, t, lo, lo, flags) && SamePool(m, f, t, m, f, t)
  {
  }

  lemma SpaceMore(m: Memory, f: seq<nat>, t: Tree, hi: nat)
    requires Space(m, f, t, hi) && hi < USERTOP
    ensures Space(m, f, t, hi + 1) && !IsMapped(m, t, hi)
  {
    hide Leaf, WF, FreeOk;
  }

  lemma SpaceLess(m: Memory, f: seq<nat>, t: Tree, n: Memory, g: seq<nat>, u: Tree, hi: nat)
    requires Space(m, f, t, hi) && Space(n, g, u, hi + 1) && SameLeaves(m, t, n, u)
    ensures Space(n, g, u, hi)
  {
    hide Leaf, WF, FreeOk;
    assert !IsMapped(m, t, hi);
    assert Leaf(n, u, hi) == Leaf(m, t, hi);
    assert !IsMapped(n, u, hi);
  }

  lemma SpaceRange(m: Memory, f: seq<nat>, t: Tree, hi: nat, lo: nat)
    requires Space(m, f, t, hi) && lo <= hi
    ensures UserOk(m, f, t, lo, hi) && WF(m, t) && FreeOk(m, f, t) && hi <= USERTOP
  {
    hide Leaf, WF, FreeOk;
  }

  lemma SamePoolChain(m: Memory, f: seq<nat>, t: Tree, n: Memory, g: seq<nat>, u: Tree, o: Memory, h: seq<nat>, v: Tree)
    requires SamePool(m, f, t, n, g, u) && SamePool(n, g, u, o, h, v)
    ensures SamePool(m, f, t, o, h, v)
  {
    hide InPool;
  }

  lemma AllocatedMore(m: Memory, t: Tree, n: Memory, f: seq<nat>, u: Tree, o: Memory, v: Tree, lo: nat, cur: nat, flags: nat, p: nat)
    requires Allocated(m, t, n, u, lo, cur, flags) && lo <= cur < USERTOP && Space(n, f, u, cur) && KeepsUser(n, u, o, v, cur)
    requires Leaf(o, v, cur) == Pte(p, flags) && p in o && o[p] == Zeros() && IsMapped(o, v, cur) && Target(o, v, cur) == p
    requires flags < 1024 && p % PGSIZE == 0
    ensures Allocated(m, t, o, v, lo, cur + 1, flags)
  {
    hide Leaf, WF, FreeOk, Pte;
    PteRoundTrip(p, flags);
    forall w: nat | lo <= w < cur
      ensures IsMapped(o, v, w) && PteFlags(Leaf(o, v, w)) == flags && Target(o, v, w) in o && o[Target(o, v, w)] == Zeros()
    {
      assert Leaf(o, v, w) == Leaf(n, u, w) && IsMapped(n, u, w);
    }
    forall w: nat | w < lo && IsMapped(m, t, w) && Target(m, t, w) in m
      ensures Target(m, t, w) in o && o[Target(m, t, w)] == m[Target(m, t, w)]
    {
      assert Leaf(n, u, w) == Leaf(m, t, w);
      assert IsMapped(n, u, w) && Target(n, u, w) == Target(m, t, w);
    }
  }

  lemma AllocatedSame(m: Memory, t: Tree, n: Memory, f: seq<nat>, u: Tree, o: Memory, v: Tree, lo: nat, cur: nat, flags: nat)
    requires Allocated(m, t, n, u, lo, cur, flags) && lo <= cur <= USERTOP && Space(n, f, u, cur)
    requires SameLeaves(n, u, o, v) && KeepsUser(n, u, o, v, USERTOP)
    ensures Allocated(m, t, o, v, lo, cur, flags)
  {
    hide Leaf, WF, FreeOk, Pte;
    forall w: nat | lo <= w < cur
      ensures IsMapped(o, v, w) && PteFlags(Leaf(o, v, w)) == flags && Target(o, v, w) in o && o[Target(o, v, w)] == Zeros()
    {
      assert Leaf(o, v, w) == Leaf(n, u, w) && IsMapped(n, u, w);
    }
    forall w: nat | w < lo && IsMapped(m, t, w) && Target(m, t, w) in m
      ensures Target(m, t, w) in o && o[Target(m, t, w)] == m[Target(m, t, w)]
    {
      assert Leaf(n, u, w) == Leaf(m, t, w);
      assert IsMapped(n, u, w) && Target(n, u, w) == Target(m, t, w);
    }
  }

  /** Undoing a partial uvmalloc restores the mapping. */
  lemma Rollback(m: Memory, f: seq<nat>, t: Tree, n: Memory, g: seq<nat>, u: Tree, o: Memory, lo: nat, cur: nat, flags: nat)
    requires Space(m, f, t, lo) && Allocated(m, t, n, u, lo, cur, flags) && Shrunk(n, u, o, lo, cur) && cur <= USERTOP
    ensures Restored(m, t, o, u, lo)
  {
    hide Leaf, WF, FreeOk, Pte;
    forall w: nat
      ensures IsMapped(o, u, w) <==> IsMapped(m, t, w)
      ensures IsMapped(m, t, w) ==> Leaf(o, u, w) == Leaf(m, t, w)
    {
      if lo <= w < cur {
        assert !IsMapped(m, t, w) && !IsMapped(o, u, w);
      } else {
        assert Leaf(o, u, w) == Leaf(n, u, w) == Leaf(m, t, w);
      }
    }
    forall w: nat | w < lo && IsMapped(m, t, w) && Target(m, t, w) in m
      ensures Target(m, t, w) in o && o[Target(m, t, w)] == m[Target(m, t, w)]
    {
      assert Leaf(n, u, w) == Leaf(m, t, w);
      assert IsMapped(n, u, w) && Target(n, u, w) == Target(m, t, w);
    }
  }
}
