/** uvmfree, uvmcopy, and the memory side of kfork with its failure paths. */
module Fork {
  import opened Pages
  import opened VmSpec
  import opened VmNeed
  import opened Vm
  import opened VmSpace
  import opened Uvm
  import opened FreewalkModule

  /** A parent's tables and user pages, all outside the child's pool. */
  ghost predicate Apart(m: Memory, p: Tree, hi: nat, f: seq<nat>, t: Tree) {
    && WF(m, p) && hi <= USERTOP
    && (forall q | q in TablePages(p) :: !InPool(m, f, t, q))
    && forall v: nat | v < hi && IsMapped(m, p, v) :: Target(m, p, v) in m && !InPool(m, f, t, Target(m, p, v))
  }

  /** The child has, up to cur, a copy of the parent's pages with the same
      flags, and beyond that the entries of t0. */
  ghost predicate Copied(m: Memory, p: Tree, n: Memory, u: Tree, cur: nat, m0: Memory, t0: Tree) {
    && (forall v: nat | v < cur :: IsMapped(n, u, v) <==> IsMapped(m, p, v))
    && (forall v: nat | v < cur && IsMapped(m, p, v) ::
          && PteFlags(Leaf(n, u, v)) == PteFlags(Leaf(m, p, v))
          && Target(n, u, v) in n && Target(m, p, v) in m && n[Target(n, u, v)] == m[Target(m, p, v)])
    && forall v: nat | v >= cur :: Leaf(n, u, v) == Leaf(m0, t0, v)
  }

  /** The parent is untouched. */
  ghost predicate ParentKept(m: Memory, p: Tree, hi: nat, n: Memory) {
    && WF(n, p) && SameLeaves(m, p, n, p)
    && forall v: nat | v < hi && IsMapped(m, p, v) && Target(m, p, v) in m ::
      Target(m, p, v) in n && n[Target(m, p, v)] == m[Target(m, p, v)]
  }

  lemma ParentUntouched(m: Memory, p: Tree, hi: nat, f: seq<nat>, t: Tree, n: Memory)
    requires Apart(m, p, hi, f, t) && OutsideKept(m, f, t, n)
    ensures ParentKept(m, p, hi, n)
  {
    hide InPool, IsMapped, Target;
    RootInTables(m, p);
    forall k: nat, i: nat | k in p.mid && i < 512
      ensures Entry(n[p.mid[k]][i], p.low, k * 512 + i)
    {
      assert Entry(m[p.mid[k]][i], p.low, k * 512 + i);
    }
    forall i: nat | i < 512
      ensures Entry(n[p.root][i], p.mid, i)
    {
      assert Entry(m[p.root][i], p.mid, i);
    }
  }

  lemma StillApart(m: Memory, p: Tree, hi: nat, f: seq<nat>, t: Tree, n: Memory, g: seq<nat>, u: Tree)
    requires Apart(m, p, hi, f, t) && OutsideKept(m, f, t, n) && SamePool(m, f, t, n, g, u)
    ensures Apart(n, p, hi, g, u) && ParentKept(m, p, hi, n)
  {
    hide InPool, WF;
    ParentUntouched(m, p, hi, f, t, n);
    forall v: nat | v < hi && IsMapped(n, p, v)
      ensures Target(n, p, v) in n && !InPool(n, g, u, Target(n, p, v))
    {
      assert Leaf(n, p, v) == Leaf(m, p, v) && IsMapped(m, p, v);
    }
  }

  lemma OutsideChain(m: Memory, f: seq<nat>, t: Tree, n: Memory, g: seq<nat>, u: Tree, o: Memory)
    requires OutsideKept(m, f, t, n) && SamePool(m, f, t, n, g, u) && OutsideKept(n, g, u, o)
    ensures OutsideKept(m, f, t, o)
  {
    hide InPool;
  }

  /** uvmcopy: the child gets a copy of every mapped page below sz with the same
      permissions; on failure, which is exactly when the queue is too short for
      the copies and the tables they lack, its user space is empty again. Either
      way the parent and every page outside the child's pool are untouched, and
      no page is lost. */
  method Uvmcopy(ph: Phys, oldRoot: nat, newRoot: nat, sz: nat, ghost p: Tree, ghost t: Tree)
    returns (ok: bool, ghost u: Tree)
    requires sz <= TRAPFRAME && oldRoot == p.root && newRoot == t.root
    requires Space(ph.mem, ph.free, t, 0) && Apart(ph.mem, p, Top(sz), ph.free, t)
    modifies ph
    ensures u.root == newRoot && Space(ph.mem, ph.free, u, if ok then Top(sz) else 0)
    ensures SamePool(old(ph.mem), old(ph.free), t, ph.mem, ph.free, u) && OutsideKept(old(ph.mem), old(ph.free), t, ph.mem)
    ensures ParentKept(old(ph.mem), p, Top(sz), ph.mem)
    ensures ok <==> Needed(ShapeOf(t), MappedBelow(old(ph.mem), p, Top(sz))) <= old(|ph.free|)
    ensures ok ==> Copied(old(ph.mem), p, ph.mem, u, Top(sz), old(ph.mem), t)
    ensures !ok ==> forall v: nat | v >= USERTOP :: Leaf(ph.mem, u, v) == Leaf(old(ph.mem), t, v)
  {
    hide WF, Leaf, IsMapped, SamePool, OutsideKept, Copied, Apart, ParentKept, Space, Missing, ShapeOf, Grown, Needed, Spent,
      MappedBelow;
    ghost var m0, f0 := ph.mem, ph.free;
    u := t;
    NothingCopied(m0, f0, p, t, Top(sz));
    NothingSpent(t, |f0|);
    NoneBelow(m0, p);
    var i := 0;
    ghost var cur: nat := 0;
    while i < sz
      invariant i == cur * PGSIZE && cur <= Top(sz) && u.root == newRoot
      invariant Space(ph.mem, ph.free, u, cur) && Apart(ph.mem, p, Top(sz), ph.free, u)
      invariant SamePool(m0, f0, t, ph.mem, ph.free, u) && OutsideKept(m0, f0, t, ph.mem)
      invariant ParentKept(m0, p, Top(sz), ph.mem) && Copied(m0, p, ph.mem, u, cur, m0, t)
      invariant Spent(t, u, |f0|, |ph.free|, MappedBelow(m0, p, cur))
    {
      ghost var m1, f1, u1 := ph.mem, ph.free, u;
      var done;
      done, u := CopyPage(ph, oldRoot, newRoot, i, p, Top(sz), cur, u1);
      SamePoolChain(m0, f0, t, m1, f1, u1, ph.mem, ph.free, u);
      OutsideChain(m0, f0, t, m1, f1, u1, ph.mem);
      StillApart(m1, p, Top(sz), f1, u1, ph.mem, ph.free, u);
      KeptChain(m0, p, Top(sz), m1, ph.mem);
      SameBelow(m0, p, Top(sz), m1, cur);
      if !done {
        SpentOut(t, u1, |f0|, |f1|, MappedBelow(m0, p, cur), cur, MappedBelow(m0, p, Top(sz)));
        ghost var m2, f2 := ph.mem, ph.free;
        BeyondKept(m0, p, m1, u1, m2, u, cur, t);
        SpaceRange(m2, f2, u, cur, 0);
        ph.Uvmunmap(newRoot, 0, i / PGSIZE, true, u);
        UnmapKeepsSpace(m2, f2, u, cur, ph.mem, 0);
        SamePoolChain(m0, f0, t, m2, f2, u, ph.mem, ph.free, u);
        OutsideChain(m0, f0, t, m2, f2, u, ph.mem);
        StillApart(m2, p, Top(sz), f2, u, ph.mem, ph.free, u);
        KeptChain(m0, p, Top(sz), m2, ph.mem);
        return false, u;
      }
      ApartTarget(m0, p, Top(sz), f0, t, cur);
      CopiedMore(m0, p, m1, f1, u1, ph.mem, u, cur, t, Top(sz));
      if IsMapped(m0, p, cur) {
        SpentMore(t, u1, u, |f0|, |f1|, |ph.free|, MappedBelow(m0, p, cur), cur);
      }
      i := i + PGSIZE;
      cur := cur + 1;
    }
    SpentAll(t, u, |f0|, |ph.free|, MappedBelow(m0, p, cur));
    ok := true;
  }

  /** The pages mapped below hi. */
  ghost function MappedBelow(m: Memory, p: Tree, hi: nat): set<nat> {
    set v: nat | v < hi && IsMapped(m, p, v)
  }

  lemma NoneBelow(m: Memory, p: Tree)
    ensures MappedBelow(m, p, 0) == {}
  {
  }

  /** The parent maps what it did, and one page more or not. */
  lemma SameBelow(m: Memory, p: Tree, hi: nat, n: Memory, cur: nat)
    requires ParentKept(m, p, hi, n) && cur < hi
    ensures IsMapped(n, p, cur) <==> IsMapped(m, p, cur)
    ensures cur !in MappedBelow(m, p, cur) && MappedBelow(m, p, cur) <= MappedBelow(m, p, hi)
    ensures MappedBelow(m, p, cur + 1) == if IsMapped(m, p, cur) then MappedBelow(m, p, cur) + {cur} else MappedBelow(m, p, cur)
    ensures IsMapped(m, p, cur) ==> cur in MappedBelow(m, p, hi)
  {
    hide Leaf, WF;
    assert Leaf(n, p, cur) == Leaf(m, p, cur);
  }

  /** One iteration of uvmcopy: page cur is copied if the parent has it. */
  method CopyPage(ph: Phys, oldRoot: nat, newRoot: nat, i: nat, ghost p: Tree, ghost top: nat, ghost cur: nat, ghost t: Tree)
    returns (done: bool, ghost u: Tree)
    requires i == cur * PGSIZE && cur < top && oldRoot == p.root && newRoot == t.root
    requires Space(ph.mem, ph.free, t, cur) && Apart(ph.mem, p, top, ph.free, t)
    modifies ph
    ensures u.root == newRoot && Space(ph.mem, ph.free, u, if done then cur + 1 else cur)
    ensures SamePool(old(ph.mem), old(ph.free), t, ph.mem, ph.free, u) && OutsideKept(old(ph.mem), old(ph.free), t, ph.mem)
    ensures done ==> OneCopied(old(ph.mem), p, t, ph.mem, u, cur)
    ensures !done ==> SameLeaves(old(ph.mem), t, ph.mem, u)
    ensures !done <==> IsMapped(old(ph.mem), p, cur) && old(|ph.free|) < 1 + Missing(ShapeOf(t), {cur})
    ensures done && !IsMapped(old(ph.mem), p, cur) ==> u == t && ph.free == old(ph.free)
    ensures done && IsMapped(old(ph.mem), p, cur) ==>
      |ph.free| + 1 + Missing(ShapeOf(t), {cur}) == old(|ph.free|) && ShapeOf(u) == Grown(ShapeOf(t), {cur})
  {
    hide WF, Leaf, SamePool, OutsideKept, KeepsUser, TablePages, InPool, IsUserPage, Taken, Missing, ShapeOf, Grown;
    ghost var m0, f0 := ph.mem, ph.free;
    u := t;
    SpaceUnchanged(m0, f0, t);
    SpaceMore(m0, f0, t, cur);
    var pg := WalkParent(ph, oldRoot, i, p, t);
    IndicesOfPage(i);
    if pg == 0 {
      NoTable(m0, p, cur);
      NotInParent(m0, p, t, cur);
      return true, t;
    }
    LowIsPage(ph.mem, p, cur);
    var pte := ph.mem[pg][PX(0, i)];
    assert pte == Leaf(m0, p, cur) by {
      LeafAt(m0, p, cur);
    }
    if !IsValid(pte) {
      NotInParent(m0, p, t, cur);
      return true, t;
    }
    ApartTarget(m0, p, top, f0, t, cur);
    var pa, flags := PtePa(pte), PteFlags(pte);
    FlagsOdd(pte);
    var mem;
    mem, u := AllocPage(ph, newRoot, i / PGSIZE, flags - 1, ph.mem[pa], cur + 1, t);
    if mem == 0 {
      SpaceLess(m0, f0, t, ph.mem, ph.free, u, cur);
      return false, u;
    }
    PteRoundTrip(mem, flags);
    CopiedOne(m0, p, t, ph.mem, u, cur, mem, flags);
    done := true;
  }

  /** walk without alloc in the parent's table. */
  method WalkParent(ph: Phys, root: nat, va: nat, ghost p: Tree, ghost t: Tree) returns (pg: nat)
    requires WF(ph.mem, p) && root == p.root && va < MAXVA
    modifies ph
    ensures ph.mem == old(ph.mem) && ph.free == old(ph.free)
    ensures pg != 0 <==> va / PGSIZE / 512 in p.low
    ensures pg != 0 ==> pg == p.low[va / PGSIZE / 512]
  {
    hide WF, FreeOk, Leaf, TablePages, Missing, Grown, ShapeOf;
    ghost var u, k;
    var free := ph.free;
    ph.free := [];
    NothingFree(ph.mem, p);
    pg, u, k := ph.Walk(root, va, false, p);
    ph.free := free;
  }

  lemma NothingFree(m: Memory, t: Tree)
    ensures FreeOk(m, [], t)
  {
  }

  lemma LeafAt(m: Memory, t: Tree, v: nat)
    requires WF(m, t) && v / 512 in t.low
    ensures t.low[v / 512] in m && m[t.low[v / 512]][v % 512] == Leaf(m, t, v)
  {
  }

  lemma NoTable(m: Memory, t: Tree, v: nat)
    requires v / 512 !in t.low
    ensures !IsMapped(m, t, v)
  {
  }

  lemma ApartTarget(m: Memory, p: Tree, hi: nat, f: seq<nat>, t: Tree, v: nat)
    requires Apart(m, p, hi, f, t) && v < hi
    ensures IsMapped(m, p, v) ==> Target(m, p, v) in m
  {
  }

  lemma FlagsOdd(pte: nat)
    requires IsValid(pte)
    ensures PteFlags(pte) % 2 == 1 && PteFlags(pte) < 1024 && IsValid(PteFlags(pte))
  {
    assert pte == 2 * (pte / 1024 * 512) + pte % 1024;
    Halve(pte / 1024 * 512, pte % 1024);
  }

  /** After one iteration entry cur mirrors the parent's, and the rest is as before. */
  ghost predicate OneCopied(m: Memory, p: Tree, t: Tree, n: Memory, u: Tree, cur: nat) {
    && (forall v: nat | v != cur :: Leaf(n, u, v) == Leaf(m, t, v))
    && (forall v: nat | v < cur && IsMapped(m, t, v) && Target(m, t, v) in m ::
          Target(m, t, v) in n && n[Target(m, t, v)] == m[Target(m, t, v)])
    && (IsMapped(n, u, cur) <==> IsMapped(m, p, cur))
    && (IsMapped(m, p, cur) ==>
          && PteFlags(Leaf(n, u, cur)) == PteFlags(Leaf(m, p, cur))
          && Target(n, u, cur) in n && Target(m, p, cur) in m && n[Target(n, u, cur)] == m[Target(m, p, cur)])
  }

  lemma NotInParent(m: Memory, p: Tree, t: Tree, cur: nat)
    requires !IsMapped(m, p, cur) && !IsMapped(m, t, cur)
    ensures OneCopied(m, p, t, m, t, cur)
  {
  }

  lemma CopiedOne(m: Memory, p: Tree, t: Tree, n: Memory, u: Tree, cur: nat, mem: nat, flags: nat)
    requires KeepsUser(m, t, n, u, cur) && IsMapped(m, p, cur) && flags == PteFlags(Leaf(m, p, cur)) && cur < USERTOP
    requires Target(m, p, cur) in m && mem in n && n[mem] == m[Target(m, p, cur)] && Leaf(n, u, cur) == Pte(mem, flags)
    requires IsMapped(n, u, cur) && Target(n, u, cur) == mem && PteFlags(Pte(mem, flags)) == flags
    ensures OneCopied(m, p, t, n, u, cur)
  {
  }

  lemma NothingCopied(m: Memory, f: seq<nat>, p: Tree, t: Tree, hi: nat)
    requires Apart(m, p, hi, f, t)
    ensures Copied(m, p, m, t, 0, m, t) && SamePool(m, f, t, m, f, t) && OutsideKept(m, f, t, m) && ParentKept(m, p, hi, m)
  {
    hide WF, InPool;
  }

  lemma KeptChain(m: Memory, p: Tree, hi: nat, n: Memory, o: Memory)
    requires ParentKept(m, p, hi, n) && ParentKept(n, p, hi, o)
    ensures ParentKept(m, p, hi, o)
  {
    hide WF, Leaf;
    forall v: nat | v < hi && IsMapped(m, p, v) && Target(m, p, v) in m
      ensures Target(m, p, v) in o && o[Target(m, p, v)] == m[Target(m, p, v)]
    {
      assert Leaf(n, p, v) == Leaf(m, p, v);
      assert IsMapped(n, p, v) && Target(n, p, v) == Target(m, p, v);
    }
  }

  lemma BeyondKept(m0: Memory, p: Tree, m1: Memory, u1: Tree, m2: Memory, u2: Tree, cur: nat, t: Tree)
    requires Copied(m0, p, m1, u1, cur, m0, t) && SameLeaves(m1, u1, m2, u2)
    ensures forall v: nat | v >= cur :: Leaf(m2, u2, v) == Leaf(m0, t, v)
  {
    hide Leaf;
  }

  lemma CopiedMore(m0: Memory, p: Tree, m1: Memory, f1: seq<nat>, u1: Tree, m2: Memory, u2: Tree, cur: nat, t: Tree, hi: nat)
    requires Copied(m0, p, m1, u1, cur, m0, t) && OneCopied(m1, p, u1, m2, u2, cur) && ParentKept(m0, p, hi, m1) && cur < hi
    requires Space(m1, f1, u1, cur)
    requires IsMapped(m0, p, cur) ==> Target(m0, p, cur) in m0
    ensures Copied(m0, p, m2, u2, cur + 1, m0, t)
  {
    hide WF, Leaf, FreeOk, TablePages;
    assert Leaf(m1, p, cur) == Leaf(m0, p, cur);
    forall v: nat | v < cur
      ensures IsMapped(m2, u2, v) <==> IsMapped(m0, p, v)
      ensures IsMapped(m0, p, v) ==>
        && PteFlags(Leaf(m2, u2, v)) == PteFlags(Leaf(m0, p, v))
        && Target(m2, u2, v) in m2 && Target(m0, p, v) in m0 && m2[Target(m2, u2, v)] == m0[Target(m0, p, v)]
    {
      assert Leaf(m2, u2, v) == Leaf(m1, u1, v);
      assert IsMapped(m1, u1, v) <==> IsMapped(m0, p, v);
    }
  }

  // ----- tearing a page table down -----

  /** Nothing is mapped above the trampoline page. */
  ghost predicate NoneAbove(m: Memory, t: Tree) {
    forall v: nat | v >= USERTOP + 2 :: !IsMapped(m, t, v)
  }

  /** uvmfree: every user page and every table page becomes free, and no other. */
  method Uvmfree(ph: Phys, root: nat, sz: nat, ghost t: Tree)
    requires sz <= TRAPFRAME && Space(ph.mem, ph.free, t, Top(sz)) && root == t.root
    requires forall v: nat | v >= USERTOP :: !IsMapped(ph.mem, t, v)
    modifies ph
    ensures NoDup(ph.free) && forall q :: q in ph.free <==> InPool(old(ph.mem), old(ph.free), t, q)
    ensures OutsideKept(old(ph.mem), old(ph.free), t, ph.mem)
  {
    hide WF, Leaf, SamePool, OutsideKept, TablePages, InPool, IsMapped, FreeOk, UserOk;
    ghost var m0, f0 := ph.mem, ph.free;
    SpaceUnchanged(m0, f0, t);
    if sz > 0 {
      assert PgRoundUp(sz) / PGSIZE == Top(sz);
      SpaceRange(m0, f0, t, Top(sz), 0);
      ph.Uvmunmap(root, 0, PgRoundUp(sz) / PGSIZE, true, t);
      UnmapKeepsSpace(m0, f0, t, Top(sz), ph.mem, 0);
    }
    ghost var m1, f1 := ph.mem, ph.free;
    NoneLeft(m0, f0, t, Top(sz), m1, f1);
    EmptyPool(m1, f1, t);
    Freewalk(ph, root, 2, 0, m1, t);
    FreedAll(m0, f0, t, m1, f1, ph.mem, ph.free);
  }

  lemma NoneLeft(m: Memory, f: seq<nat>, t: Tree, hi: nat, n: Memory, g: seq<nat>)
    requires Space(n, g, t, 0) && forall v: nat | v >= USERTOP :: !IsMapped(m, t, v)
    requires forall v: nat | v >= USERTOP :: Leaf(n, t, v) == Leaf(m, t, v)
    ensures forall v: nat :: !IsMapped(n, t, v)
  {
    hide Leaf, WF, FreeOk;
    forall v: nat
      ensures !IsMapped(n, t, v)
    {
      if v >= USERTOP {
        assert !IsMapped(m, t, v);
      }
    }
  }

  lemma EmptyPool(m: Memory, f: seq<nat>, t: Tree)
    requires WF(m, t) && FreeOk(m, f, t) && forall v: nat :: !IsMapped(m, t, v)
    ensures forall q :: InPool(m, f, t, q) <==> q in f || InSub(t, 2, 0, q)
    ensures forall q | InSub(t, 2, 0, q) :: q !in f
    ensures NoDup(f)
  {
    hide InSub;
    forall q
      ensures InSub(t, 2, 0, q) <==> q in TablePages(t)
    {
      InSub2(m, t, q);
    }
  }

  lemma FreedAll(m0: Memory, f0: seq<nat>, t: Tree, m1: Memory, f1: seq<nat>, m2: Memory, f2: seq<nat>)
    requires SamePool(m0, f0, t, m1, f1, t) && OutsideKept(m0, f0, t, m1) && m2.Keys == m1.Keys
    requires forall q :: InPool(m1, f1, t, q) <==> q in f1 || InSub(t, 2, 0, q)
    requires forall p | p in m1 && !InSub(t, 2, 0, p) :: m2[p] == m1[p]
    requires forall q :: q in f2 <==> q in f1 || InSub(t, 2, 0, q)
    ensures (forall q :: q in f2 <==> InPool(m0, f0, t, q)) && OutsideKept(m0, f0, t, m2)
  {
    hide InPool, InSub;
    forall q
      ensures q in f2 <==> InPool(m0, f0, t, q)
    {
      assert InPool(m1, f1, t, q) <==> InPool(m0, f0, t, q);
    }
  }

  /** A change of the entries at or above USERTOP alone. */
  lemma HighKeepsSpace(m: Memory, f: seq<nat>, t: Tree, n: Memory, g: seq<nat>, u: Tree, k: nat, hi: nat)
    requires Space(m, f, t, hi) && Taken(m, f, t, n, g, u, k)
    requires forall v: nat | v < USERTOP :: Leaf(n, u, v) == Leaf(m, t, v)
    ensures Space(n, g, u, hi) && SamePool(m, f, t, n, g, u) && OutsideKept(m, f, t, n)
  {
    hide WF, Leaf, TablePages, Taken;
    TakenOk(m, f, t, n, g, u, k);
    forall v: nat | v < USERTOP && IsMapped(n, u, v)
      ensures v < hi && IsMapped(m, t, v) && Target(n, u, v) == Target(m, t, v)
      ensures GoodPage(Target(n, u, v)) && Target(n, u, v) in n && Target(n, u, v) !in TablePages(u) && Target(n, u, v) !in g
    {
      assert IsMapped(m, t, v);
      UserPageInSpace(m, f, t, hi, v);
      TakenPages(m, f, t, n, g, u, k, Target(m, t, v));
    }
    forall q
      ensures InPool(n, g, u, q) <==> InPool(m, f, t, q)
      ensures q in m && !InPool(m, f, t, q) ==> n[q] == m[q]
    {
      TakenPages(m, f, t, n, g, u, k, q);
      SameUserPages(m, t, n, u, q);
      TakenKept(m, f, t, n, g, u, k, q);
    }
  }

  lemma TakenOk(m: Memory, f: seq<nat>, t: Tree, n: Memory, g: seq<nat>, u: Tree, k: nat)
    requires Taken(m, f, t, n, g, u, k)
    ensures WF(n, u) && FreeOk(n, g, u) && n.Keys == m.Keys && u.root == t.root
  {
  }

  lemma TakenKept(m: Memory, f: seq<nat>, t: Tree, n: Memory, g: seq<nat>, u: Tree, k: nat, q: nat)
    requires Taken(m, f, t, n, g, u, k)
    ensures q in m && q !in TablePages(u) ==> q in n && n[q] == m[q]
  {
  }

  lemma SameUserPages(m: Memory, t: Tree, n: Memory, u: Tree, q: nat)
    requires forall v: nat | v < USERTOP :: Leaf(n, u, v) == Leaf(m, t, v)
    ensures IsUserPage(n, u, q) <==> IsUserPage(m, t, q)
  {
    hide Leaf;
    if IsUserPage(n, u, q) {
      var w: nat :| w < USERTOP && IsMapped(n, u, w) && Target(n, u, w) == q;
      assert IsMapped(m, t, w) && Target(m, t, w) == q;
    }
    if IsUserPage(m, t, q) {
      var w: nat :| w < USERTOP && IsMapped(m, t, w) && Target(m, t, w) == q;
      assert IsMapped(n, u, w) && Target(n, u, w) == q;
    }
  }

  const TRAMPOLINE := 0x3F_FFFF_F000 // MAXVA - PGSIZE

  /** proc_freepagetable: the trampoline and trapframe entries are dropped
      without freeing their pages, then everything else is freed. */
  method ProcFreePagetable(ph: Phys, root: nat, sz: nat, ghost t: Tree)
    requires sz <= TRAPFRAME && Space(ph.mem, ph.free, t, Top(sz)) && root == t.root && NoneAbove(ph.mem, t)
    modifies ph
    ensures NoDup(ph.free) && forall q :: q in ph.free <==> InPool(old(ph.mem), old(ph.free), t, q)
    ensures OutsideKept(old(ph.mem), old(ph.free), t, ph.mem)
  {
    hide WF, Leaf, SamePool, OutsideKept, TablePages, InPool, IsMapped, FreeOk, UserOk;
    ghost var m0, f0 := ph.mem, ph.free;
    DropHigh(ph, root, TRAMPOLINE, Top(sz), t);
    ghost var m1 := ph.mem;
    DropHigh(ph, root, TRAPFRAME, Top(sz), t);
    SamePoolChain(m0, f0, t, m1, f0, t, ph.mem, f0, t);
    OutsideChain(m0, f0, t, m1, f0, t, ph.mem);
    HighDropped(m0, t, m1, ph.mem);
    ghost var m2 := ph.mem;
    Uvmfree(ph, root, sz, t);
    FreedPool(m0, f0, t, m2, f0, ph.mem, ph.free);
  }

  /** uvmunmap of one page at or above USERTOP, keeping its page. */
  method DropHigh(ph: Phys, root: nat, va: nat, ghost hi: nat, ghost t: Tree)
    requires Space(ph.mem, ph.free, t, hi) && root == t.root && va % PGSIZE == 0 && USERTOP <= va / PGSIZE && va < MAXVA
    modifies ph
    ensures ph.free == old(ph.free) && Space(ph.mem, ph.free, t, hi) && Unmapped(old(ph.mem), t, ph.mem, va / PGSIZE, 1)
    ensures SamePool(old(ph.mem), old(ph.free), t, ph.mem, ph.free, t) && OutsideKept(old(ph.mem), old(ph.free), t, ph.mem)
  {
    hide WF, Leaf, SamePool, OutsideKept, TablePages, InPool, IsMapped, FreeOk, UserOk, Taken, Unmapped;
    ghost var m0, f0 := ph.mem, ph.free;
    ph.Uvmunmap(root, va, 1, false, t);
    UnmapTakes(m0, f0, t, ph.mem, ph.free, va / PGSIZE, 1);
    HighKeepsSpace(m0, f0, t, ph.mem, ph.free, t, 0, hi);
  }

  lemma UnmapTakes(m: Memory, f: seq<nat>, t: Tree, n: Memory, g: seq<nat>, lo: nat, cnt: nat)
    requires WF(n, t) && FreeOk(n, g, t) && g == f + [] && Unmapped(m, t, n, lo, cnt)
    ensures Taken(m, f, t, n, g, t, 0)
    ensures forall v: nat | v < lo || v >= lo + cnt :: Leaf(n, t, v) == Leaf(m, t, v)
  {
    hide WF, Leaf;
    assert Elems(f[..0]) == {};
  }

  lemma HighDropped(m0: Memory, t: Tree, m1: Memory, m2: Memory)
    requires NoneAbove(m0, t) && Unmapped(m0, t, m1, USERTOP + 1, 1) && Unmapped(m1, t, m2, USERTOP, 1)
    ensures forall v: nat | v >= USERTOP :: !IsMapped(m2, t, v)
  {
    hide Leaf;
    forall v: nat | v >= USERTOP
      ensures !IsMapped(m2, t, v)
    {
      if v >= USERTOP + 2 {
        assert !IsMapped(m0, t, v);
      } else {
        assert Leaf(m2, t, v) == (if v == USERTOP && IsMapped(m1, t, v) then 0 else Leaf(m1, t, v));
        assert Leaf(m1, t, v) == (if v == USERTOP + 1 && IsMapped(m0, t, v) then 0 else Leaf(m0, t, v));
      }
    }
  }

  lemma FreedPool(m0: Memory, f0: seq<nat>, t: Tree, m1: Memory, f1: seq<nat>, m2: Memory, f2: seq<nat>)
    requires SamePool(m0, f0, t, m1, f1, t) && OutsideKept(m0, f0, t, m1) && OutsideKept(m1, f1, t, m2)
    requires forall q :: q in f2 <==> InPool(m1, f1, t, q)
    ensures (forall q :: q in f2 <==> InPool(m0, f0, t, q)) && OutsideKept(m0, f0, t, m2)
  {
    hide InPool;
    OutsideChain(m0, f0, t, m1, f1, t, m2);
    forall q
      ensures q in f2 <==> InPool(m0, f0, t, q)
    {
      assert InPool(m1, f1, t, q) <==> InPool(m0, f0, t, q);
    }
  }

  // ----- making and discarding a page table -----

  /** Proper free pages, none of them the parent's. */
  ghost predicate Parent(m: Memory, p: Tree, hi: nat, f: seq<nat>) {
    && WF(m, p) && hi <= USERTOP && NoDup(f)
    && (forall i | 0 <= i < |f| :: GoodPage(f[i]) && f[i] in m)
    && (forall q | q in TablePages(p) :: q !in f)
    && forall v: nat | v < hi && IsMapped(m, p, v) :: Target(m, p, v) in m && Target(m, p, v) !in f
  }

  /** The child: a copy of the parent below sz, the trampoline and the trapframe
      above, every page of it taken from the free pages f. */
  ghost predicate Child(m: Memory, p: Tree, sz: nat, f: seq<nat>, n: Memory, g: seq<nat>, u: Tree, tf: nat, tramp: nat) {
    && Space(n, g, u, Top(sz)) && NoneAbove(n, u)
    && (forall v: nat | v < Top(sz) :: IsMapped(n, u, v) <==> IsMapped(m, p, v))
    && (forall v: nat | v < Top(sz) && IsMapped(m, p, v) ::
          && PteFlags(Leaf(n, u, v)) == PteFlags(Leaf(m, p, v))
          && Target(n, u, v) in n && Target(m, p, v) in m && n[Target(n, u, v)] == m[Target(m, p, v)])
    && Leaf(n, u, USERTOP + 1) == Pte(tramp, PTE_R + PTE_X + PTE_V)
    && Leaf(n, u, USERTOP) == Pte(tf, PTE_R + PTE_W + PTE_V)
    && forall q :: q in f <==> InPool(n, g, u, q) || q == tf
  }

  /** No free page is gained or lost, and no other page has changed. */
  ghost predicate AllReturned(m: Memory, f: seq<nat>, n: Memory, g: seq<nat>) {
    && NoDup(g) && (forall q :: q in g <==> q in f)
    && n.Keys == m.Keys && forall q | q in m && q !in f :: n[q] == m[q]
  }

  /** Free pages ready to be handed out. */
  ghost predicate FreeList(m: Memory, f: seq<nat>) {
    NoDup(f) && forall i | 0 <= i < |f| :: GoodPage(f[i]) && f[i] in m
  }

  function NewTree(root: nat): Tree {
    Tree(root, map[], map[])
  }

  /** uvmcreate: one zeroed page is a page table that maps nothing. */
  lemma EmptyTable(m: Memory, f: seq<nat>)
    requires FreeList(m, f) && f != []
    ensures var n, t := Fresh(m, f, Zeros()), NewTree(f[0]);
      && Space(n, f[1..], t, 0) && (forall v: nat :: !IsMapped(n, t, v))
      && (forall q :: InPool(n, f[1..], t, q) <==> q in f)
      && n.Keys == m.Keys && forall q | q in m && q !in f :: n[q] == m[q]
  {
    var n, t := Fresh(m, f, Zeros()), NewTree(f[0]);
    assert TablePages(t) == {f[0]};
    assert f == [f[0]] + f[1..];
  }

  /** A table under construction: empty user space, and the pool is the pages f. */
  ghost predicate Building(m: Memory, f: seq<nat>, n: Memory, g: seq<nat>, u: Tree) {
    && Space(n, g, u, 0) && NoneAbove(n, u)
    && (forall q :: InPool(n, g, u, q) <==> q in f)
    && n.Keys == m.Keys && forall q | q in m && q !in f :: n[q] == m[q]
  }

  lemma EmptyBuilding(m: Memory, f: seq<nat>)
    requires FreeList(m, f) && f != []
    ensures Building(m, f, Fresh(m, f, Zeros()), f[1..], NewTree(f[0]))
    ensures forall v: nat :: !IsMapped(Fresh(m, f, Zeros()), NewTree(f[0]), v)
  {
    hide Space, InPool, IsMapped;
    EmptyTable(m, f);
  }

  lemma BuildMore(m: Memory, f: seq<nat>, n: Memory, g: seq<nat>, u: Tree, o: Memory, h: seq<nat>, w: Tree, k: nat,
                  v: nat, cnt: nat, pa: nat, flags: nat)
    requires Building(m, f, n, g, u) && Taken(n, g, u, o, h, w, k) && MappedRange(n, u, o, w, v, cnt, pa, flags)
    requires USERTOP <= v && v + cnt <= USERTOP + 2
    ensures Building(m, f, o, h, w) && w.root == u.root
    ensures forall x: nat | x < v || x >= v + cnt :: Leaf(o, w, x) == Leaf(n, u, x)
  {
    hide WF, Leaf, InPool, Taken;
    TakenOk(n, g, u, o, h, w, k);
    HighKeepsSpace(n, g, u, o, h, w, k, 0);
    forall x: nat | x >= USERTOP + 2
      ensures !IsMapped(o, w, x)
    {
      assert Leaf(o, w, x) == Leaf(n, u, x) && !IsMapped(n, u, x);
    }
  }

  lemma TornDown(m: Memory, f: seq<nat>, n: Memory, g: seq<nat>, u: Tree, o: Memory, h: seq<nat>)
    requires Building(m, f, n, g, u) && OutsideKept(n, g, u, o)
    requires NoDup(h) && forall q :: q in h <==> InPool(n, g, u, q)
    ensures AllReturned(m, f, o, h)
  {
    hide Space, InPool;
  }

  /** The tables above the trampoline and the trapframe. */
  function HighShape(): Shape {
    Shape({USERTOP / 262144}, {USERTOP / 512})
  }

  lemma NoTablesYet(t: Tree)
    requires t == NewTree(t.root)
    ensures ShapeOf(t) == Shape({}, {})
  {
  }

  lemma HighTables(t: Tree)
    requires t == NewTree(t.root)
    ensures Missing(ShapeOf(t), Range(USERTOP + 1, USERTOP + 2)) == 2
    ensures Grown(ShapeOf(t), Range(USERTOP + 1, USERTOP + 2)) == HighShape()
  {
    hide ShapeOf, Range, Missing, Mids, Lows;
    NoTablesYet(t);
    var v := USERTOP + 1;
    RangeOne(v);
    MissingOne(ShapeOf(t), v);
    assert v / 262144 == USERTOP / 262144 && v / 512 == USERTOP / 512;
  }

  /** The trapframe needs no table that the trampoline has not. */
  lemma TrapframeFits()
    ensures Missing(HighShape(), Range(USERTOP, USERTOP + 1)) == 0
    ensures Grown(HighShape(), Range(USERTOP, USERTOP + 1)) == HighShape()
  {
    hide Range, Missing, Mids, Lows;
    RangeOne(USERTOP);
    MissingOne(HighShape(), USERTOP);
  }

  /** No program reaches the trampoline or the trapframe. */
  lemma HighIsNotReached(n: Memory, u: Tree, tf: nat, tramp: nat)
    requires tf % PGSIZE == 0 && tramp % PGSIZE == 0
    requires Leaf(n, u, USERTOP + 1) == Pte(tramp, PTE_R + PTE_X + PTE_V) && Leaf(n, u, USERTOP) == Pte(tf, PTE_R + PTE_W + PTE_V)
    ensures !IsUser(Leaf(n, u, USERTOP + 1)) && !IsUser(Leaf(n, u, USERTOP))
    ensures forall va: nat | va / PGSIZE == TRAMPOLINE / PGSIZE || va / PGSIZE == TRAPFRAME / PGSIZE :: UserPage(n, u, va) == 0
  {
    hide Leaf, Pte;
    PteRoundTrip(tramp, PTE_R + PTE_X + PTE_V);
    PteRoundTrip(tf, PTE_R + PTE_W + PTE_V);
  }

  lemma NothingReached(m: Memory, f: seq<nat>, n: Memory, g: seq<nat>, u: Tree, tf: nat, tramp: nat)
    requires Building(m, f, n, g, u) && tf % PGSIZE == 0 && tramp % PGSIZE == 0
    requires Leaf(n, u, USERTOP + 1) == Pte(tramp, PTE_R + PTE_X + PTE_V) && Leaf(n, u, USERTOP) == Pte(tf, PTE_R + PTE_W + PTE_V)
    ensures forall va: nat :: UserPage(n, u, va) == 0
  {
    hide Leaf, Pte, WF, InPool, FreeOk;
    HighIsNotReached(n, u, tf, tramp);
  }

  /** proc_pagetable: a page table with the trampoline and the trapframe only,
      which takes three pages; without them every page is free again. */
  method ProcPagetable(ph: Phys, tf: nat, tramp: nat) returns (root: nat, ghost u: Tree)
    requires FreeList(ph.mem, ph.free) && tf % PGSIZE == 0 && tramp % PGSIZE == 0
    modifies ph
    ensures root != 0 <==> 3 <= old(|ph.free|)
    ensures root != 0 ==> |ph.free| + 3 == old(|ph.free|) && ShapeOf(u) == HighShape()
    ensures root == 0 ==> AllReturned(old(ph.mem), old(ph.free), ph.mem, ph.free)
    ensures root != 0 ==> old(ph.free) != [] && root == u.root && Building(old(ph.mem), old(ph.free), ph.mem, ph.free, u)
    ensures root != 0 ==> Leaf(ph.mem, u, USERTOP + 1) == Pte(tramp, PTE_R + PTE_X + PTE_V)
    ensures root != 0 ==> Leaf(ph.mem, u, USERTOP) == Pte(tf, PTE_R + PTE_W + PTE_V)
    ensures root != 0 ==> forall va: nat :: UserPage(ph.mem, u, va) == 0
  {
    hide WF, Leaf, FreeOk, UserOk, InPool, TablePages, IsMapped, Building, Taken, MappedRange, Missing, Grown, ShapeOf, Range,
      HighShape, AllReturned, Pte, UserPage;
    ghost var m0, f0 := ph.mem, ph.free;
    u := NewTree(0);
    if ph.free == [] {
      NothingTaken(m0, f0);
      return 0, u;
    }
    EmptyBuilding(m0, f0);
    root := ph.free[0];
    u := NewTree(root);
    ph.free := ph.free[1..];
    ph.mem := ph.mem[root := Zeros()];
    ghost var k, n, m1, f1, u1 := 0, 0, ph.mem, ph.free, u;
    BuildingOk(m0, f0, m1, f1, u1);
    var ok;
    ok, u, k, n := ph.Mappages(root, TRAMPOLINE, PGSIZE, tramp, PTE_R + PTE_X, u1);
    HighTables(u1);
    QueueLeft(m1, f1, u1, ph.mem, ph.free, u, k);
    BuildMore(m0, f0, m1, f1, u1, ph.mem, ph.free, u, k, USERTOP + 1, n, tramp, PTE_R + PTE_X + PTE_V);
    if !ok {
      HighUnmapped(m1, u1, ph.mem, u, USERTOP + 1, n, tramp, PTE_R + PTE_X + PTE_V);
      Discard(ph, root, m0, f0, u);
      return 0, u;
    }
    RangeLeaf(m1, u1, ph.mem, u, USERTOP + 1, n, tramp, PTE_R + PTE_X + PTE_V);
    ghost var m2, f2, u2 := ph.mem, ph.free, u;
    BuildingOk(m0, f0, m2, f2, u2);
    StillUnmapped(m1, u1, m2, u2);
    ok, u, k, n := ph.Mappages(root, TRAPFRAME, PGSIZE, tf, PTE_R + PTE_W, u2);
    TrapframeFits();
    QueueLeft(m2, f2, u2, ph.mem, ph.free, u, k);
    BuildMore(m0, f0, m2, f2, u2, ph.mem, ph.free, u, k, USERTOP, n, tf, PTE_R + PTE_W + PTE_V);
    if !ok {
      assert false; // the tables above the trampoline serve the trapframe too
    }
    RangeLeaf(m2, u2, ph.mem, u, USERTOP, n, tf, PTE_R + PTE_W + PTE_V);
    BuildingOk(m0, f0, ph.mem, ph.free, u);
    NothingReached(m0, f0, ph.mem, ph.free, u, tf, tramp);
  }

  lemma NothingTaken(m: Memory, f: seq<nat>)
    requires FreeList(m, f)
    ensures AllReturned(m, f, m, f)
  {
  }

  lemma RangeLeaf(m: Memory, t: Tree, n: Memory, u: Tree, v: nat, cnt: nat, pa: nat, flags: nat)
    requires MappedRange(m, t, n, u, v, cnt, pa, flags) && cnt == 1
    ensures Leaf(n, u, v) == Pte(pa, flags)
  {
  }

  lemma StillUnmapped(m: Memory, t: Tree, n: Memory, u: Tree)
    requires !IsMapped(m, t, USERTOP) && Leaf(n, u, USERTOP) == Leaf(m, t, USERTOP)
    ensures !IsMapped(n, u, USERTOP)
  {
  }

  lemma BuildingOk(m: Memory, f: seq<nat>, n: Memory, g: seq<nat>, u: Tree)
    requires Building(m, f, n, g, u)
    ensures WF(n, u) && FreeOk(n, g, u) && u.root != 0 && Space(n, g, u, 0) && NoneAbove(n, u)
  {
  }

  /** Nothing is mapped at or above USERTOP if nothing was and no entry was made. */
  lemma HighUnmapped(m: Memory, t: Tree, n: Memory, u: Tree, v: nat, cnt: nat, pa: nat, flags: nat)
    requires forall x: nat | x >= USERTOP :: !IsMapped(m, t, x)
    requires MappedRange(m, t, n, u, v, cnt, pa, flags) && cnt == 0
    ensures forall x: nat | x >= USERTOP :: !IsMapped(n, u, x)
  {
    hide Leaf, Pte;
    forall x: nat | x >= USERTOP
      ensures !IsMapped(n, u, x)
    {
      assert !IsMapped(m, t, x);
    }
  }

  /** The page table of a process that is not to be after all. */
  method Discard(ph: Phys, root: nat, ghost m0: Memory, ghost f0: seq<nat>, ghost t: Tree)
    requires Building(m0, f0, ph.mem, ph.free, t) && root == t.root
    requires forall x: nat | x >= USERTOP :: !IsMapped(ph.mem, t, x)
    modifies ph
    ensures AllReturned(m0, f0, ph.mem, ph.free)
  {
    hide WF, Leaf, FreeOk, UserOk, InPool, TablePages, IsMapped, Building;
    ghost var m1, f1 := ph.mem, ph.free;
    BuildingOk(m0, f0, m1, f1, t);
    Uvmfree(ph, root, 0, t);
    TornDown(m0, f0, m1, f1, t, ph.mem, ph.free);
  }

  // ----- fork -----

  lemma PoolOfOne(m: Memory, f: seq<nat>, q: nat)
    requires f != []
    ensures InPool(m, f, NewTree(f[0]), q) <==> q in f
  {
    assert TablePages(NewTree(f[0])) == {f[0]};
  }

  /** Nothing outside the free pages changed, so the parent did not. */
  lemma ParentSafe(m: Memory, p: Tree, hi: nat, f: seq<nat>, n: Memory)
    requires Parent(m, p, hi, f) && n.Keys == m.Keys && forall q | q in m && q !in f :: n[q] == m[q]
    ensures ParentKept(m, p, hi, n)
  {
    hide InPool, WF, TablePages, Leaf;
    if f == [] {
      assert n == m;
    } else {
      ParentApart(m, p, hi, f, f);
      forall q: nat
        ensures InPool(m, f, NewTree(f[0]), q) <==> q in f
      {
        PoolOfOne(m, f, q);
      }
      ParentUntouched(m, p, hi, f, NewTree(f[0]), n);
    }
  }

  lemma ParentApart(m: Memory, p: Tree, hi: nat, f: seq<nat>, g: seq<nat>)
    requires Parent(m, p, hi, f) && g != [] && forall q | q in g :: q in f
    ensures Apart(m, p, hi, g, NewTree(g[0]))
  {
    hide InPool, WF, Leaf;
    forall q: nat
      ensures InPool(m, g, NewTree(g[0]), q) <==> q in g
    {
      PoolOfOne(m, g, q);
    }
  }

  /** The new table and the parent share nothing. */
  lemma BuildApart(m: Memory, p: Tree, hi: nat, f: seq<nat>, g: seq<nat>, n: Memory, h: seq<nat>, u: Tree)
    requires Parent(m, p, hi, f) && (forall q | q in g :: q in f) && g != [] && Building(m, g, n, h, u)
    ensures Apart(n, p, hi, h, u) && ParentKept(m, p, hi, n)
  {
    hide InPool, WF, Leaf, Apart, ParentKept, NoneAbove, Space, Parent;
    ParentApart(m, p, hi, f, g);
    forall q: nat
      ensures InPool(m, g, NewTree(g[0]), q) <==> q in g
    {
      PoolOfOne(m, g, q);
    }
    StillApart(m, p, hi, g, NewTree(g[0]), n, h, u);
  }

  lemma ChildBuilt(m0: Memory, p: Tree, sz: nat, f: seq<nat>, m1: Memory, g: seq<nat>, t: Tree,
                   m2: Memory, h: seq<nat>, u: Tree, tf: nat, tramp: nat)
    requires f != [] && tf == f[0] && Building(m0, f[1..], m1, g, t) && ParentKept(m0, p, Top(sz), m1)
    requires Leaf(m1, t, USERTOP + 1) == Pte(tramp, PTE_R + PTE_X + PTE_V) && Leaf(m1, t, USERTOP) == Pte(tf, PTE_R + PTE_W + PTE_V)
    requires Space(m2, h, u, Top(sz)) && SamePool(m1, g, t, m2, h, u) && Copied(m1, p, m2, u, Top(sz), m1, t)
    requires Parent(m0, p, Top(sz), f)
    ensures Child(m0, p, sz, f, m2, h, u, tf, tramp)
  {
    hide InPool, WF, Leaf, FreeOk, UserOk, Pte, PteFlags, TablePages;
    forall v: nat | v >= USERTOP + 2
      ensures !IsMapped(m2, u, v)
    {
      assert !IsMapped(m1, t, v) && Leaf(m2, u, v) == Leaf(m1, t, v);
    }
    forall v: nat | v < Top(sz)
      ensures IsMapped(m2, u, v) <==> IsMapped(m0, p, v)
      ensures IsMapped(m0, p, v) ==>
        && PteFlags(Leaf(m2, u, v)) == PteFlags(Leaf(m0, p, v))
        && Target(m2, u, v) in m2 && Target(m0, p, v) in m0 && m2[Target(m2, u, v)] == m0[Target(m0, p, v)]
    {
      assert Leaf(m1, p, v) == Leaf(m0, p, v);
      assert IsMapped(m1, p, v) <==> IsMapped(m0, p, v);
    }
    assert f == [tf] + f[1..];
  }

  /** In the child walkaddr answers as in the parent below its size, with a copy
      of the page, and 0 from there on. */
  ghost predicate ReachesTheSame(m: Memory, p: Tree, sz: nat, n: Memory, u: Tree) {
    forall va: nat ::
      if va / PGSIZE < Top(sz) then
        && (UserPage(n, u, va) != 0 <==> UserPage(m, p, va) != 0)
        && (UserPage(n, u, va) != 0 ==>
              UserPage(n, u, va) in n && UserPage(m, p, va) in m && n[UserPage(n, u, va)] == m[UserPage(m, p, va)])
      else UserPage(n, u, va) == 0
  }

  lemma ChildReachesTheSame(m: Memory, p: Tree, sz: nat, f: seq<nat>, n: Memory, g: seq<nat>, u: Tree, tf: nat, tramp: nat)
    requires Child(m, p, sz, f, n, g, u, tf, tramp) && tf % PGSIZE == 0 && tramp % PGSIZE == 0 && 0 !in m
    ensures ReachesTheSame(m, p, sz, n, u)
  {
    hide Leaf, WF, FreeOk, InPool, Pte, PteFlags;
    HighIsNotReached(n, u, tf, tramp);
    forall va: nat
      ensures va / PGSIZE < Top(sz) ==> (UserPage(n, u, va) != 0 <==> UserPage(m, p, va) != 0)
      ensures va / PGSIZE < Top(sz) && UserPage(n, u, va) != 0 ==>
                UserPage(n, u, va) in n && UserPage(m, p, va) in m && n[UserPage(n, u, va)] == m[UserPage(m, p, va)]
      ensures va / PGSIZE >= Top(sz) ==> UserPage(n, u, va) == 0
    {
      var v := va / PGSIZE;
      if v < Top(sz) && IsMapped(n, u, v) {
        UserPageInSpace(n, g, u, Top(sz), v);
        FlagsOfEntry(Leaf(n, u, v));
        FlagsOfEntry(Leaf(m, p, v));
      }
    }
  }

  lemma PageBack(m: Memory, f: seq<nat>, n: Memory, g: seq<nat>)
    requires f != [] && NoDup(f) && AllReturned(m, f[1..], n, g)
    ensures AllReturned(m, f, n, g + [f[0]])
  {
    assert f == [f[0]] + f[1..];
    assert f[0] !in f[1..];
    forall q
      ensures q in g + [f[0]] <==> q in f
    {
      assert q in g <==> q in f[1..];
    }
  }

  /** freeproc's kfree of the trapframe page. */
  lemma TrapframeFreed(m0: Memory, f: seq<nat>, m1: Memory, g: seq<nat>, t: Tree, m2: Memory, h: seq<nat>, u: Tree, tf: nat)
    requires FreeList(m0, f) && f != [] && tf == f[0] && Building(m0, f[1..], m1, g, t)
    requires Space(m2, h, u, 0) && SamePool(m1, g, t, m2, h, u) && OutsideKept(m1, g, t, m2)
    requires forall v: nat | v >= USERTOP :: Leaf(m2, u, v) == Leaf(m1, t, v)
    ensures Building(m0, f, m2, h + [tf], u)
  {
    hide WF, Leaf, IsUserPage, InPool;
    assert tf !in f[1..] && f == [tf] + f[1..];
    assert !InPool(m1, g, t, tf) && !InPool(m2, h, u, tf);
    forall v: nat | v >= USERTOP + 2
      ensures !IsMapped(m2, u, v)
    {
      assert !IsMapped(m1, t, v) && Leaf(m2, u, v) == Leaf(m1, t, v);
    }
    PageJoins(m2, h, u, tf);
  }

  /** A page from outside the pool becomes free. */
  lemma PageJoins(m: Memory, f: seq<nat>, t: Tree, p: nat)
    requires Space(m, f, t, 0) && GoodPage(p) && p in m && !InPool(m, f, t, p)
    ensures Space(m, f + [p], t, 0) && forall q :: InPool(m, f + [p], t, q) <==> InPool(m, f, t, q) || q == p
  {
    hide WF, Leaf, IsUserPage;
    assert UserOk(m, f + [p], t, 0, 0);
  }

  lemma SameMapped(m: Memory, p: Tree, hi: nat, n: Memory)
    requires ParentKept(m, p, hi, n)
    ensures MappedBelow(n, p, hi) == MappedBelow(m, p, hi)
  {
    hide Leaf, WF;
    forall v: nat
      ensures IsMapped(n, p, v) <==> IsMapped(m, p, v)
    {
      assert Leaf(n, p, v) == Leaf(m, p, v);
    }
  }

  /** The memory side of kfork, with allocproc and freeproc: the child gets a
      copy of the parent's memory with the parent's permissions, the trampoline
      and a trapframe page, all from free pages. It fails exactly when the queue
      is too short: for the trapframe, the root, the two tables above the
      trampoline, the copies and the tables these lack. Then every page taken is
      free again. The parent is untouched. */
  method ForkMemory(ph: Phys, oldRoot: nat, sz: nat, tramp: nat, ghost p: Tree)
    returns (ok: bool, tf: nat, root: nat, ghost u: Tree)
    requires sz <= TRAPFRAME && oldRoot == p.root && tramp % PGSIZE == 0
    requires Parent(ph.mem, p, Top(sz), ph.free)
    modifies ph
    ensures ParentKept(old(ph.mem), p, Top(sz), ph.mem)
    ensures ok <==> 4 + Needed(HighShape(), MappedBelow(old(ph.mem), p, Top(sz))) <= old(|ph.free|)
    ensures ok ==> root == u.root && Child(old(ph.mem), p, sz, old(ph.free), ph.mem, ph.free, u, tf, tramp)
    ensures ok && 0 !in old(ph.mem) ==> ReachesTheSame(old(ph.mem), p, sz, ph.mem, u)
    ensures !ok ==> AllReturned(old(ph.mem), old(ph.free), ph.mem, ph.free)
  {
    hide WF, Leaf, FreeOk, UserOk, InPool, TablePages, IsMapped, Building, SamePool, OutsideKept, Copied, Apart, ParentKept, Space, NoneAbove,
      Needed, HighShape, MappedBelow, ReachesTheSame, UserPage;
    ghost var m0, f0 := ph.mem, ph.free;
    ok, tf, root, u := false, 0, 0, NewTree(0);
    if ph.free == [] {
      ParentSafe(m0, p, Top(sz), f0, m0);
      return;
    }
    tf := ph.free[0];
    ph.free := ph.free[1..];
    root, u := ProcPagetable(ph, tf, tramp);
    if root == 0 {
      PageBack(m0, f0, ph.mem, ph.free);
      ph.free := ph.free + [tf];
      ParentSafe(m0, p, Top(sz), f0, ph.mem);
      return;
    }
    ghost var m1, f1, u1 := ph.mem, ph.free, u;
    BuildingOk(m0, f0[1..], m1, f1, u1);
    BuildApart(m0, p, Top(sz), f0, f0[1..], m1, f1, u1);
    SameMapped(m0, p, Top(sz), m1);
    ok, u := Uvmcopy(ph, oldRoot, root, sz, p, u1);
    if ok {
      KeptChain(m0, p, Top(sz), m1, ph.mem);
      ChildBuilt(m0, p, sz, f0, m1, f1, u1, ph.mem, ph.free, u, tf, tramp);
      if 0 !in m0 {
        ChildReachesTheSame(m0, p, sz, f0, ph.mem, ph.free, u, tf, tramp);
      }
    } else {
      TrapframeFreed(m0, f0, m1, f1, u1, ph.mem, ph.free, u, tf);
      ph.free := ph.free + [tf];
      ghost var m2, f2 := ph.mem, ph.free;
      BuildingOk(m0, f0, m2, f2, u);
      ProcFreePagetable(ph, root, 0, u);
      TornDown(m0, f0, m2, f2, u, ph.mem, ph.free);
      ParentSafe(m0, p, Top(sz), f0, ph.mem);
    }
  }
}
