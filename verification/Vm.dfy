/** vm.c over physical memory and the queue of free pages. */
module Vm {
  import opened Pages
  import opened VmSpec
  import opened VmNeed

  class Phys {
    var mem: Memory
    var free: seq<nat> // kalloc takes from the front, kfree adds at the back

    constructor (mem: Memory, free: seq<nat>)
      ensures this.mem == mem && this.free == free
    {
      this.mem, this.free := mem, free;
    }

    ghost predicate Ok(t: Tree)
      reads this
    {
      WF(mem, t) && FreeOk(mem, free, t)
    }

    /** walk: the level-0 table that holds the entry of va, or 0 when there is
        none and alloc is not set, or no page was free for a new table. */
    method Walk(root: nat, va: nat, alloc: bool, ghost t: Tree) returns (pg: nat, ghost u: Tree, ghost k: nat)
      requires Ok(t) && root == t.root && va < MAXVA
      modifies this
      ensures GrewBy(old(mem), old(free), t, mem, free, u, k)
      ensures !alloc ==> u == t && mem == old(mem) && free == old(free)
      ensures pg != 0 <==> va / PGSIZE / 512 in u.low
      ensures pg != 0 ==> pg == u.low[va / PGSIZE / 512]
      ensures pg == 0 && alloc ==> free == []
      ensures alloc ==> (pg != 0 <==> Missing(ShapeOf(t), {va / PGSIZE}) <= old(|free|))
      ensures pg != 0 ==> k == Missing(ShapeOf(t), {va / PGSIZE}) && ShapeOf(u) == Grown(ShapeOf(t), {va / PGSIZE})
    {
      hide WF, FreeOk, Leaf, TablePages, NewTable, SameLeaves, Walking, Missing, Grown, ShapeOf;
      IndicesOfPage(va);
      u, k := t, 0;
      StartWalking(t, va / PGSIZE);
      GrewByNone(mem, free, t);
      var pagetable := root;
      var level := 2;
      while level > 0
        invariant 0 <= level <= 2 && Ok(u) && u.root == root
        invariant GrewBy(old(mem), old(free), t, mem, free, u, k)
        invariant !alloc ==> u == t && mem == old(mem) && free == old(free)
        invariant AtLevel(u, level, va / PGSIZE, pagetable)
        invariant Walking(t, u, level, va / PGSIZE, k)
      {
        NodeEntry(mem, u, level, va, pagetable);
        var pte := mem[pagetable][PX(level, va)];
        if IsValid(pte) {
          WalkedDown(old(mem), t, u, level, va / PGSIZE, k);
          pagetable := PtePa(pte);
        } else {
          WalkFails(old(mem), t, u, level, va / PGSIZE, k);
          if !alloc || free == [] {
            return 0, u, k;
          }
          ghost var m1, f1, u1 := mem, free, u;
          pagetable, u := AddTable(pagetable, level, va, u1);
          GrewByChain(old(mem), old(free), t, m1, f1, u1, k, mem, free, u, 1);
          WalkedNew(t, u1, u, level, va / PGSIZE, k, pagetable);
          k := k + 1;
        }
        level := level - 1;
      }
      pg := pagetable;
      LowIsPage(mem, u, va / PGSIZE);
      WalkedAll(t, u, va / PGSIZE, k);
    }

    /** walk's kalloc of a table, entered where it was missing. */
    method AddTable(pagetable: nat, level: nat, va: nat, ghost t: Tree) returns (page: nat, ghost u: Tree)
      requires Ok(t) && free != [] && va < MAXVA && 0 < level <= 2 && AtLevel(t, level, va / PGSIZE, pagetable)
      requires if level == 2 then va / PGSIZE / 262144 !in t.mid else va / PGSIZE / 512 !in t.low
      modifies this
      ensures GrewBy(old(mem), old(free), t, mem, free, u, 1) && u.root == t.root
      ensures u == if level == 2 then t.(mid := t.mid[va / PGSIZE / 262144 := page]) else t.(low := t.low[va / PGSIZE / 512 := page])
      ensures AtLevel(u, level - 1, va / PGSIZE, page)
    {
      hide WF, FreeOk, Leaf, TablePages, NewTable, SameLeaves;
      IndicesOfPage(va);
      NodeEntry(mem, t, level, va, pagetable);
      page := free[0];
      if level == 2 {
        GrowMid(mem, free, t, PX(2, va));
        u := t.(mid := t.mid[PX(2, va) := page]);
      } else {
        GrowLow(mem, free, t, va / PGSIZE / 512);
        u := t.(low := t.low[va / PGSIZE / 512 := page]);
      }
      free := free[1..];
      mem := NewTable(mem, pagetable, PX(level, va), page);
    }

    /** walkaddr: the physical page of a mapped user address, else 0. */
    method Walkaddr(root: nat, va: nat, ghost t: Tree) returns (pa: nat)
      requires Ok(t) && root == t.root
      modifies this
      ensures Ok(t) && mem == old(mem) && free == old(free)
      ensures pa == UserPage(mem, t, va)
    {
      hide WF, FreeOk, TablePages, SameLeaves;
      if va >= MAXVA {
        return 0;
      }
      ghost var u, k;
      var pg;
      pg, u, k := Walk(root, va, false, t);
      if pg == 0 {
        return 0;
      }
      LowIsPage(mem, t, va / PGSIZE);
      var pte := mem[pg][PX(0, va)];
      if !IsValid(pte) || !IsUser(pte) {
        return 0;
      }
      pa := PtePa(pte);
    }

    /** mappages: the range gets its entries and nothing else changes; when
        memory runs out only a prefix of n pages has been entered. The caller
        maps an unmapped, page-aligned, non-empty range: else it panics. */
    method Mappages(root: nat, va: nat, size: nat, pa: nat, perm: nat, ghost t: Tree)
      returns (ok: bool, ghost u: Tree, ghost k: nat, ghost n: nat)
      requires Ok(t) && root == t.root
      requires va % PGSIZE == 0 && size % PGSIZE == 0 && size > 0 && va + size <= MAXVA && pa % PGSIZE == 0
      requires perm < 1024 && perm % 2 == 0
      requires forall v: nat | va / PGSIZE <= v < va / PGSIZE + size / PGSIZE :: !IsMapped(mem, t, v)
      modifies this
      ensures Taken(old(mem), old(free), t, mem, free, u, k) && u.root == root
      ensures MappedRange(old(mem), t, mem, u, va / PGSIZE, n, pa, perm + PTE_V)
      ensures if ok then n == size / PGSIZE else n < size / PGSIZE && free == []
      ensures ok <==> Missing(ShapeOf(t), Range(va / PGSIZE, va / PGSIZE + size / PGSIZE)) <= old(|free|)
      ensures ok ==> k == Missing(ShapeOf(t), Range(va / PGSIZE, va / PGSIZE + size / PGSIZE))
      ensures ok ==> ShapeOf(u) == Grown(ShapeOf(t), Range(va / PGSIZE, va / PGSIZE + size / PGSIZE))
    {
      hide WF, FreeOk, TablePages, IsMapped, Taken, MappedRange, Missing, Grown, ShapeOf, Range, Tables;
      u, k, n := t, 0, 0;
      NoTables(t, va / PGSIZE);
      GrewByNone(mem, free, t);
      NothingMapped(mem, free, t, va / PGSIZE, pa, perm + PTE_V);
      var a, p := va, pa;
      var last := va + size - PGSIZE;
      while true
        invariant Ok(u) && u.root == root
        invariant a == va + n * PGSIZE <= last && p == pa + n * PGSIZE
        invariant Taken(old(mem), old(free), t, mem, free, u, k)
        invariant MappedRange(old(mem), t, mem, u, va / PGSIZE, n, pa, perm + PTE_V)
        invariant Tables(t, u, va / PGSIZE, n, k)
        decreases last - a
      {
        var done;
        ghost var f1, u1, k1 := free, u, k;
        QueueLeft(old(mem), old(free), t, mem, f1, u1, k1);
        done, u, k := MapOne(root, a, p, perm, u1, old(mem), old(free), t, k1, va, n, pa);
        if !done {
          TablesLack(t, u1, va / PGSIZE, n, k1, size / PGSIZE);
          return false, u, k, n;
        }
        MoreTables(t, u1, u, va / PGSIZE, n, k1, k);
        n := n + 1;
        if a == last {
          TablesMade(t, u, va / PGSIZE, n, k);
          return true, u, k, n;
        }
        a := a + PGSIZE;
        p := p + PGSIZE;
      }
    }

    /** One iteration of mappages. */
    method MapOne(root: nat, a: nat, p: nat, perm: nat, ghost u: Tree,
                  ghost m0: Memory, ghost f0: seq<nat>, ghost t0: Tree, ghost k0: nat, ghost va: nat, ghost n: nat, ghost pa: nat)
      returns (done: bool, ghost w: Tree, ghost k: nat)
      requires Ok(u) && root == u.root && a == va + n * PGSIZE < MAXVA && va % PGSIZE == 0 && p == pa + n * PGSIZE
      requires perm < 1024 && perm % 2 == 0
      requires Taken(m0, f0, t0, mem, free, u, k0)
      requires MappedRange(m0, t0, mem, u, va / PGSIZE, n, pa, perm + PTE_V)
      requires !IsMapped(m0, t0, va / PGSIZE + n)
      modifies this
      ensures done <==> Missing(ShapeOf(u), {va / PGSIZE + n}) <= old(|free|)
      ensures done ==> k == k0 + Missing(ShapeOf(u), {va / PGSIZE + n}) && ShapeOf(w) == Grown(ShapeOf(u), {va / PGSIZE + n})
      ensures Ok(w) && w.root == root && Taken(m0, f0, t0, mem, free, w, k)
      ensures MappedRange(m0, t0, mem, w, va / PGSIZE, if done then n + 1 else n, pa, perm + PTE_V)
      ensures !done ==> free == []
    {
      hide WF, FreeOk, TablePages, IsMapped, MappedRange, Taken, SameLeaves, Leaf, Pte, PX, Missing, Grown, ShapeOf;
      var pg;
      ghost var l;
      pg, w, l := Walk(root, a, true, u);
      ghost var vpn := va / PGSIZE + n;
      assert a / PGSIZE == vpn;
      k := k0 + l;
      RangeAfterWalk(m0, f0, t0, old(mem), old(free), u, k0, mem, free, w, l, va / PGSIZE, n, pa, perm + PTE_V);
      if pg == 0 {
        return false, w, k;
      }
      IndicesOfPage(a);
      LowIsPage(mem, w, vpn);
      // the "remap" panic is not met
      assert !IsValid(mem[pg][PX(0, a)]) by {
        UnmappedEntry(m0, t0, mem, w, va / PGSIZE, n, pa, perm + PTE_V);
      }
      PutInRange(m0, f0, t0, mem, free, w, k, va / PGSIZE, n, pa, perm + PTE_V);
      mem := mem[pg := mem[pg][PX(0, a) := Pte(p, perm + PTE_V)]];
      return true, w, k;
    }

    /** kfree of a page that is neither free nor a table. */
    method Kfree(pa: nat, ghost t: Tree)
      requires Ok(t) && GoodPage(pa) && pa in mem && pa !in TablePages(t) && pa !in free
      modifies this`free
      ensures Ok(t) && free == old(free) + [pa]
    {
      free := free + [pa];
    }

    /** uvmunmap: the range loses its mappings, nothing else changes, and with
        doFree the mapped pages join the queue in address order. */
    method Uvmunmap(root: nat, va: nat, npages: nat, doFree: bool, ghost t: Tree)
      requires Ok(t) && root == t.root && va % PGSIZE == 0 && va + npages * PGSIZE <= MAXVA
      requires doFree ==> UserOk(mem, free, t, va / PGSIZE, va / PGSIZE + npages)
      modifies this
      ensures Ok(t) && Unmapped(old(mem), t, mem, va / PGSIZE, npages)
      ensures free == old(free) + (if doFree then Targets(old(mem), t, va / PGSIZE, npages) else [])
    {
      hide WF, FreeOk, TablePages, IsMapped, Unmapped, UserOk;
      ghost var m0, f0 := mem, free;
      var a := va;
      ghost var i: nat := 0;
      NothingUnmapped(mem, t, va / PGSIZE);
      while a < va + npages * PGSIZE
        invariant i <= npages && a == va + i * PGSIZE && Ok(t)
        invariant Unmapped(m0, t, mem, va / PGSIZE, i)
        invariant free == f0 + (if doFree then Targets(m0, t, va / PGSIZE, i) else [])
      {
        UnmapOne(root, a, doFree, t, m0, f0, va / PGSIZE, i, npages);
        a := a + PGSIZE;
        i := i + 1;
      }
    }

    /** One iteration of uvmunmap. */
    method UnmapOne(root: nat, a: nat, doFree: bool, ghost t: Tree,
                    ghost m0: Memory, ghost f0: seq<nat>, ghost lo: nat, ghost i: nat, ghost n: nat)
      requires Ok(t) && root == t.root && a == (lo + i) * PGSIZE < MAXVA && i < n
      requires Unmapped(m0, t, mem, lo, i) && (doFree ==> UserOk(m0, f0, t, lo, lo + n))
      requires free == f0 + (if doFree then Targets(m0, t, lo, i) else [])
      modifies this
      ensures Ok(t) && Unmapped(m0, t, mem, lo, i + 1)
      ensures free == f0 + (if doFree then Targets(m0, t, lo, i + 1) else [])
    {
      hide WF, FreeOk, TablePages, UserOk, Missing, Grown, ShapeOf;
      var pg;
      ghost var u, k;
      pg, u, k := Walk(root, a, false, t);
      assert a / PGSIZE == lo + i;
      IndicesOfPage(a);
      if pg == 0 {
        return;
      }
      LowIsPage(mem, t, lo + i);
      var pte := mem[pg][PX(0, a)];
      assert pte == Leaf(mem, t, lo + i) == Leaf(m0, t, lo + i);
      if !IsValid(pte) {
        return;
      }
      if doFree {
        TargetIsFresh(m0, f0, t, mem, lo, i, n);
        Kfree(PtePa(pte), t);
        assert f0 + Targets(m0, t, lo, i + 1) == f0 + Targets(m0, t, lo, i) + [PtePa(pte)];
      }
      UnmapStep(m0, t, mem, lo, i);
      mem := mem[pg := mem[pg][PX(0, a) := 0]];
      SameKeysFree(old(mem), mem, free, t);
    }
  }

  /** The table that walk looks at, at each level. */
  ghost predicate AtLevel(t: Tree, level: int, vpn: nat, pg: nat) {
    if level == 2 then pg == t.root
    else if level == 1 then vpn / 262144 in t.mid && pg == t.mid[vpn / 262144]
    else vpn / 512 in t.low && pg == t.low[vpn / 512]
  }

  /** The entry walk looks at tells whether the next table exists, and which it is. */
  lemma NodeEntry(mem: Memory, t: Tree, level: nat, va: nat, pg: nat)
    requires WF(mem, t) && va < MAXVA && 0 < level <= 2 && AtLevel(t, level, va / PGSIZE, pg)
    ensures pg in mem && PX(level, va) < 512
    ensures var pte := mem[pg][PX(level, va)];
      && (level == 2 ==> (IsValid(pte) <==> PX(2, va) in t.mid) && pg == t.root)
      && (level == 1 ==> (IsValid(pte) <==> va / PGSIZE / 512 in t.low) && PX(1, va) == va / PGSIZE / 512 % 512)
      && (level == 1 ==> va / PGSIZE / 512 / 512 in t.mid && pg == t.mid[va / PGSIZE / 512 / 512])
      && (!IsValid(pte) ==> va / PGSIZE / 512 !in t.low)
      && (IsValid(pte) ==> AtLevel(t, level - 1, va / PGSIZE, PtePa(pte)))
  {
    IndicesOfPage(va);
    if level == 2 {
      assert Entry(mem[t.root][PX(2, va)], t.mid, PX(2, va));
      if PX(2, va) in t.mid {
        PteRoundTrip(t.mid[PX(2, va)], PTE_V);
      }
    } else {
      var k1 := va / PGSIZE / 512;
      assert k1 == PX(2, va) * 512 + PX(1, va);
      assert Entry(mem[t.mid[PX(2, va)]][PX(1, va)], t.low, PX(2, va) * 512 + PX(1, va));
      if k1 in t.low {
        PteRoundTrip(t.low[k1], PTE_V);
      }
    }
  }

  lemma LowIsPage(mem: Memory, t: Tree, vpn: nat)
    requires WF(mem, t) && vpn / 512 in t.low
    ensures t.low[vpn / 512] != 0 && t.low[vpn / 512] in mem
  {
  }

  /** The tables for n pages from lo on are there, k of them new. */
  ghost predicate Tables(t: Tree, u: Tree, lo: nat, n: nat, k: nat) {
    k == Missing(ShapeOf(t), Range(lo, lo + n)) && ShapeOf(u) == Grown(ShapeOf(t), Range(lo, lo + n))
  }

  lemma NoTables(t: Tree, lo: nat)
    ensures Tables(t, t, lo, 0, 0)
  {
    NeedNothing(ShapeOf(t));
  }

  lemma MoreTables(t: Tree, u: Tree, w: Tree, lo: nat, n: nat, k: nat, l: nat)
    requires Tables(t, u, lo, n, k)
    requires l == k + Missing(ShapeOf(u), {lo + n}) && ShapeOf(w) == Grown(ShapeOf(u), {lo + n})
    ensures Tables(t, w, lo, n + 1, l)
  {
    hide Missing, Grown, ShapeOf, Needed;
    NeedMore(ShapeOf(t), Range(lo, lo + n), lo + n);
    assert Range(lo, lo + (n + 1)) == Range(lo, lo + n) + {lo + n};
  }

  /** The tables for the next page are more than the pages left. */
  lemma TablesLack(t: Tree, u: Tree, lo: nat, n: nat, k: nat, all: nat)
    requires Tables(t, u, lo, n, k) && n < all
    ensures k + Missing(ShapeOf(u), {lo + n}) <= Missing(ShapeOf(t), Range(lo, lo + all))
  {
    hide Missing, Grown, Range, ShapeOf, Needed;
    NeedMore(ShapeOf(t), Range(lo, lo + n), lo + n);
    NeedGrows(ShapeOf(t), Range(lo, lo + n) + {lo + n}, Range(lo, lo + all));
  }

  lemma TablesMade(t: Tree, u: Tree, lo: nat, n: nat, k: nat)
    requires Tables(t, u, lo, n, k)
    ensures k == Missing(ShapeOf(t), Range(lo, lo + n)) && ShapeOf(u) == Grown(ShapeOf(t), Range(lo, lo + n))
  {
  }

  lemma QueueLeft(m: Memory, f: seq<nat>, t: Tree, n: Memory, g: seq<nat>, u: Tree, k: nat)
    requires Taken(m, f, t, n, g, u, k)
    ensures |g| == |f| - k
  {
  }

  /** n pages from lo on have become mapped to successive pages from pa, and
      every other entry is as before. */
  ghost predicate MappedRange(m: Memory, t: Tree, o: Memory, u: Tree, lo: nat, n: nat, pa: nat, flags: nat) {
    forall v: nat :: Leaf(o, u, v) == if lo <= v < lo + n then Pte(pa + (v - lo) * PGSIZE, flags) else Leaf(m, t, v)
  }

  lemma RangeAfterWalk(m: Memory, f: seq<nat>, t: Tree, n: Memory, g: seq<nat>, u: Tree, k: nat,
                       o: Memory, h: seq<nat>, w: Tree, l: nat, lo: nat, cnt: nat, pa: nat, flags: nat)
    requires Taken(m, f, t, n, g, u, k) && GrewBy(n, g, u, o, h, w, l) && MappedRange(m, t, n, u, lo, cnt, pa, flags)
    ensures WF(o, w) && FreeOk(o, h, w) && w.root == u.root
    ensures Taken(m, f, t, o, h, w, k + l) && MappedRange(m, t, o, w, lo, cnt, pa, flags)
  {
    hide WF, FreeOk, Leaf, Pte;
    TakenChain(m, f, t, n, g, u, k, o, h, w, l);
  }

  lemma UnmappedEntry(m: Memory, t: Tree, o: Memory, w: Tree, lo: nat, cnt: nat, pa: nat, flags: nat)
    requires WF(o, w) && MappedRange(m, t, o, w, lo, cnt, pa, flags) && (lo + cnt) / 512 in w.low && !IsMapped(m, t, lo + cnt)
    ensures w.low[(lo + cnt) / 512] in o && !IsValid(o[w.low[(lo + cnt) / 512]][(lo + cnt) % 512])
  {
    assert Leaf(o, w, lo + cnt) == Leaf(m, t, lo + cnt);
  }

  lemma PutInRange(m: Memory, f: seq<nat>, t: Tree, o: Memory, h: seq<nat>, w: Tree, k: nat,
                   lo: nat, cnt: nat, pa: nat, flags: nat)
    requires Taken(m, f, t, o, h, w, k) && MappedRange(m, t, o, w, lo, cnt, pa, flags) && (lo + cnt) / 512 in w.low
    ensures w.low[(lo + cnt) / 512] in o
    ensures var p := w.low[(lo + cnt) / 512];
      var o2: Memory := o[p := o[p][(lo + cnt) % 512 := Pte(pa + cnt * PGSIZE, flags)]];
      && WF(o2, w) && FreeOk(o2, h, w)
      && Taken(m, f, t, o2, h, w, k) && MappedRange(m, t, o2, w, lo, cnt + 1, pa, flags)
  {
    hide Leaf, Pte;
    PutLeaf(o, w, lo + cnt, Pte(pa + cnt * PGSIZE, flags));
    PutLeafTaken(m, f, t, o, h, w, k, lo + cnt, Pte(pa + cnt * PGSIZE, flags));
  }

  lemma NothingMapped(m: Memory, f: seq<nat>, t: Tree, lo: nat, pa: nat, flags: nat)
    ensures MappedRange(m, t, m, t, lo, 0, pa, flags)
  {
  }

  /** The pages mapped in [lo, lo + n), in address order. */
  ghost function Targets(m: Memory, t: Tree, lo: nat, n: nat): seq<nat> {
    if n == 0 then []
    else Targets(m, t, lo, n - 1) + (if IsMapped(m, t, lo + n - 1) then [Target(m, t, lo + n - 1)] else [])
  }

  /** [lo, lo + n) has no mappings any more, every other entry is as before,
      and no page but level-0 tables changed. */
  ghost predicate Unmapped(m: Memory, t: Tree, o: Memory, lo: nat, n: nat) {
    && (forall v: nat :: Leaf(o, t, v) == if lo <= v < lo + n && IsMapped(m, t, v) then 0 else Leaf(m, t, v))
    && o.Keys == m.Keys && forall p | p in m && p !in TablePages(t) :: o[p] == m[p]
  }

  lemma NothingUnmapped(m: Memory, t: Tree, lo: nat)
    ensures Unmapped(m, t, m, lo, 0)
  {
  }

  lemma UnmapStep(m: Memory, t: Tree, o: Memory, lo: nat, i: nat)
    requires WF(o, t) && Unmapped(m, t, o, lo, i) && IsMapped(m, t, lo + i) && (lo + i) / 512 in t.low
    ensures t.low[(lo + i) / 512] in o
    ensures var p := t.low[(lo + i) / 512];
      var o2: Memory := o[p := o[p][(lo + i) % 512 := 0]];
      WF(o2, t) && Unmapped(m, t, o2, lo, i + 1)
  {
    hide Leaf;
    PutLeaf(o, t, lo + i, 0);
    RootInTables(o, t);
  }

  lemma {:induction false} InTargets(m: Memory, t: Tree, lo: nat, n: nat, p: nat)
    ensures p in Targets(m, t, lo, n) <==> exists v: nat :: lo <= v < lo + n && IsMapped(m, t, v) && Target(m, t, v) == p
  {
    if n > 0 {
      InTargets(m, t, lo, n - 1, p);
      var v := lo + n - 1;
      if exists w: nat :: lo <= w < lo + n && IsMapped(m, t, w) && Target(m, t, w) == p {
        var w: nat :| lo <= w < lo + n && IsMapped(m, t, w) && Target(m, t, w) == p;
        assert w < lo + n - 1 || w == v;
      }
    }
  }

  /** A page still to be freed has not been freed yet. */
  lemma TargetIsFresh(m: Memory, f: seq<nat>, t: Tree, o: Memory, lo: nat, i: nat, n: nat)
    requires UserOk(m, f, t, lo, lo + n) && i < n && IsMapped(m, t, lo + i) && o.Keys == m.Keys
    ensures var p := Target(m, t, lo + i);
      GoodPage(p) && p in o && p !in TablePages(t) && p !in f + Targets(m, t, lo, i)
  {
    hide Leaf;
    InTargets(m, t, lo, i, Target(m, t, lo + i));
  }

  lemma SameKeysFree(m: Memory, o: Memory, f: seq<nat>, t: Tree)
    requires FreeOk(o, f, t) || FreeOk(m, f, t)
    requires m.Keys == o.Keys
    ensures FreeOk(o, f, t)
  {
  }
}
