/** User address spaces: where user leaves may be, who owns which page, and how
    mapping and unmapping a page move pages between owners. */
module VmSpace {
  import opened Pages
  import opened VmSpec
  import opened Vm

  const USERTOP := 0x3FF_FFFE // TRAPFRAME / PGSIZE

  /** Pages below PGROUNDUP(sz). */
  function Top(sz: nat): nat {
    (sz + PGSIZE - 1) / PGSIZE
  }

  /** These are exactly the pages that hold a byte below sz, and PGROUNDUP is
      where they end. */
  lemma TopIsExact(sz: nat, v: nat)
    ensures v < Top(sz) <==> v * 4096 < sz
    ensures PgRoundUp(sz) == Top(sz) * 4096 && sz <= PgRoundUp(sz) < sz + 4096
  {
  }

  /** All user leaves lie below hi, each with a page of its own. */
  ghost predicate Space(m: Memory, f: seq<nat>, t: Tree, hi: nat) {
    && WF(m, t) && FreeOk(m, f, t)
    && hi <= USERTOP && UserOk(m, f, t, 0, hi)
    && forall v: nat | hi <= v < USERTOP :: !IsMapped(m, t, v)
  }

  ghost predicate IsUserPage(m: Memory, t: Tree, p: nat) {
    exists v: nat :: v < USERTOP && IsMapped(m, t, v) && Target(m, t, v) == p
  }

  /** Free, a table, or mapped by a user. */
  ghost predicate InPool(m: Memory, f: seq<nat>, t: Tree, p: nat) {
    p in f || p in TablePages(t) || IsUserPage(m, t, p)
  }

  /** No page appears or is lost. */
  ghost predicate SamePool(m: Memory, f: seq<nat>, t: Tree, n: Memory, g: seq<nat>, u: Tree) {
    forall p :: InPool(n, g, u, p) <==> InPool(m, f, t, p)
  }

  /** Pages mapped below hi, except at v, keep entry and contents. */
  ghost predicate KeepsUser(m: Memory, t: Tree, n: Memory, u: Tree, v: nat) {
    && (forall w: nat | w != v :: Leaf(n, u, w) == Leaf(m, t, w))
    && forall w: nat | w != v && w < USERTOP && IsMapped(m, t, w) && Target(m, t, w) in m ::
      Target(m, t, w) in n && n[Target(m, t, w)] == m[Target(m, t, w)]
  }

  lemma UserPageInSpace(m: Memory, f: seq<nat>, t: Tree, hi: nat, w: nat)
    requires Space(m, f, t, hi) && w < USERTOP && IsMapped(m, t, w)
    ensures w < hi && GoodPage(Target(m, t, w)) && Target(m, t, w) in m
    ensures Target(m, t, w) !in TablePages(t) && Target(m, t, w) !in f
  {
  }

  lemma TakenPages(m: Memory, f: seq<nat>, t: Tree, n: Memory, g: seq<nat>, u: Tree, k: nat, p: nat)
    requires Taken(m, f, t, n, g, u, k) && NoDup(f)
    ensures (p in g || p in TablePages(u)) <==> (p in f || p in TablePages(t))
    ensures !(p in g && p in TablePages(u))
  {
    hide WF;
    assert f == f[..k] + g;
    assert p in Elems(f[..k]) <==> p in f[..k];
    if p in g {
      var i :| 0 <= i < |g| && g[i] == p;
    }
  }

  /** The head of the queue, filled with c. */
  function Fresh(m: Memory, f: seq<nat>, c: Page): Memory
    requires f != []
  {
    m[f[0] := c]
  }

  /** Pages outside the pool keep their contents. */
  ghost predicate OutsideKept(m: Memory, f: seq<nat>, t: Tree, n: Memory) {
    n.Keys == m.Keys && forall p | p in m && !InPool(m, f, t, p) :: n[p] == m[p]
  }

  lemma FreshKeeps(m: Memory, f: seq<nat>, c: Page, t: Tree)
    requires WF(m, t) && FreeOk(m, f, t) && f != []
    ensures WF(Fresh(m, f, c), t) && FreeOk(Fresh(m, f, c), f[1..], t) && SameLeaves(m, t, Fresh(m, f, c), t)
    ensures Fresh(m, f, c).Keys == m.Keys && f[0] !in f[1..] && f[0] !in TablePages(t) && GoodPage(f[0])
  {
    var n, p := Fresh(m, f, c), f[0];
    RootInTables(m, t);
    assert p !in TablePages(t);
    forall k: nat, i: nat | k in t.mid && i < 512
      ensures Entry(n[t.mid[k]][i], t.low, k * 512 + i)
    {
      assert Entry(m[t.mid[k]][i], t.low, k * 512 + i);
    }
    forall i: nat | i < 512
      ensures Entry(n[t.root][i], t.mid, i)
    {
      assert Entry(m[t.root][i], t.mid, i);
    }
  }

  /** The fresh page is mapped at v. */
  lemma MapKeepsSpace(m: Memory, f: seq<nat>, c: Page, t: Tree, hi: nat, n: Memory, g: seq<nat>, u: Tree, k: nat, v: nat, flags: nat)
    requires Space(m, f, t, hi) && f != [] && v < hi && !IsMapped(m, t, v)
    requires Taken(Fresh(m, f, c), f[1..], t, n, g, u, k)
    requires MappedRange(Fresh(m, f, c), t, n, u, v, 1, f[0], flags) && flags < 1024 && IsValid(flags)
    ensures Space(n, g, u, hi) && KeepsUser(m, t, n, u, v) && SamePool(m, f, t, n, g, u) && OutsideKept(m, f, t, n)
    ensures IsMapped(n, u, v) && Leaf(n, u, v) == Pte(f[0], flags) && Target(n, u, v) == f[0]
    ensures f[0] in n && n[f[0]] == c
  {
    hide WF, FreeOk, Leaf, TablePages, Pte, Taken, MappedRange;
    var p := f[0];
    FreshFacts(m, f, c, t, n, g, u, k);
    OneRange(m, f, c, t, n, u, v, flags);
    MapKeepsUserOk(m, f, c, t, hi, n, g, u, k, v, flags);
    forall q
      ensures InPool(n, g, u, q) <==> InPool(m, f, t, q)
    {
      TakenPages(Fresh(m, f, c), f[1..], t, n, g, u, k, q);
      assert f == [p] + f[1..];
      PagesAfterMap(m, t, n, u, v, p, q);
    }
    KeptOutside(m, f, c, t, n, g, u, k);
  }

  lemma FreshFacts(m: Memory, f: seq<nat>, c: Page, t: Tree, n: Memory, g: seq<nat>, u: Tree, k: nat)
    requires WF(m, t) && FreeOk(m, f, t) && f != [] && Taken(Fresh(m, f, c), f[1..], t, n, g, u, k)
    ensures WF(n, u) && FreeOk(n, g, u) && NoDup(f[1..]) && n.Keys == m.Keys
    ensures GoodPage(f[0]) && f[0] in n && n[f[0]] == c && f[0] !in g && f[0] !in TablePages(u) && f[0] !in TablePages(t)
    ensures forall p | p in m && p != f[0] && p !in TablePages(u) :: n[p] == m[p]
  {
    hide WF;
    FreshKeepsFree(m, f, c, t);
    TakenPages(Fresh(m, f, c), f[1..], t, n, g, u, k, f[0]);
  }

  lemma FreshKeepsFree(m: Memory, f: seq<nat>, c: Page, t: Tree)
    requires FreeOk(m, f, t) && f != []
    ensures FreeOk(Fresh(m, f, c), f[1..], t) && Fresh(m, f, c).Keys == m.Keys
    ensures f[0] !in f[1..] && f[0] !in TablePages(t) && GoodPage(f[0])
  {
  }

  lemma OneRange(m: Memory, f: seq<nat>, c: Page, t: Tree, n: Memory, u: Tree, v: nat, flags: nat)
    requires WF(m, t) && FreeOk(m, f, t) && f != [] && flags < 1024 && IsValid(flags)
    requires MappedRange(Fresh(m, f, c), t, n, u, v, 1, f[0], flags)
    ensures forall w: nat :: Leaf(n, u, w) == if w == v then Pte(f[0], flags) else Leaf(m, t, w)
    ensures IsMapped(n, u, v) && Target(n, u, v) == f[0]
  {
    FreshKeeps(m, f, c, t);
    PteRoundTrip(f[0], flags);
  }

  lemma MapKeepsUserOk(m: Memory, f: seq<nat>, c: Page, t: Tree, hi: nat, n: Memory, g: seq<nat>, u: Tree, k: nat, v: nat, flags: nat)
    requires Space(m, f, t, hi) && f != [] && v < hi && !IsMapped(m, t, v) && WF(n, u) && FreeOk(n, g, u)
    requires Taken(Fresh(m, f, c), f[1..], t, n, g, u, k) && NoDup(f[1..])
    requires forall w: nat :: Leaf(n, u, w) == if w == v then Pte(f[0], flags) else Leaf(m, t, w)
    requires IsMapped(n, u, v) && Target(n, u, v) == f[0]
    ensures Space(n, g, u, hi) && KeepsUser(m, t, n, u, v)
  {
    hide WF, Leaf, TablePages, Pte, Taken;
    FreshFacts(m, f, c, t, n, g, u, k);
    forall w: nat | w < USERTOP && w != v && IsMapped(n, u, w)
      ensures w < hi && GoodPage(Target(n, u, w)) && Target(n, u, w) in n && Target(n, u, w) !in TablePages(u)
      ensures Target(n, u, w) !in g && Target(n, u, w) != f[0] && Target(n, u, w) == Target(m, t, w)
    {
      assert IsMapped(m, t, w) && Target(n, u, w) == Target(m, t, w);
      UserPageInSpace(m, f, t, hi, w);
      TakenPages(Fresh(m, f, c), f[1..], t, n, g, u, k, Target(m, t, w));
    }
  }

  lemma PagesAfterMap(m: Memory, t: Tree, n: Memory, u: Tree, v: nat, p: nat, q: nat)
    requires forall w: nat | w != v :: Leaf(n, u, w) == Leaf(m, t, w)
    requires v < USERTOP && !IsMapped(m, t, v) && IsMapped(n, u, v) && Target(n, u, v) == p
    ensures IsUserPage(n, u, q) <==> IsUserPage(m, t, q) || q == p
  {
    hide Leaf;
    if IsUserPage(n, u, q) {
      var w: nat :| w < USERTOP && IsMapped(n, u, w) && Target(n, u, w) == q;
      assert w != v ==> IsMapped(m, t, w) && Target(m, t, w) == q;
    }
    if IsUserPage(m, t, q) {
      var w: nat :| w < USERTOP && IsMapped(m, t, w) && Target(m, t, w) == q;
      assert IsMapped(n, u, w) && Target(n, u, w) == q;
    }
  }

  /** No table page could be found for the fresh page, and it is freed again. */
  lemma MapFailsKeepsSpace(m: Memory, f: seq<nat>, c: Page, t: Tree, hi: nat, n: Memory, g: seq<nat>, u: Tree, k: nat, v: nat, flags: nat)
    requires Space(m, f, t, hi) && f != []
    requires Taken(Fresh(m, f, c), f[1..], t, n, g, u, k)
    requires MappedRange(Fresh(m, f, c), t, n, u, v, 0, f[0], flags)
    ensures Space(n, g + [f[0]], u, hi) && SameLeaves(m, t, n, u) && KeepsUser(m, t, n, u, USERTOP)
    ensures SamePool(m, f, t, n, g + [f[0]], u) && OutsideKept(m, f, t, n)
    ensures FreeOk(n, g, u) && GoodPage(f[0]) && f[0] in n && f[0] !in g && f[0] !in TablePages(u)
  {
    hide WF, Leaf, TablePages, Pte, Taken;
    FreshKeeps(m, f, c, t);
    FreshFacts(m, f, c, t, n, g, u, k);
    assert SameLeaves(m, t, n, u);
    forall w: nat | w < USERTOP && IsMapped(n, u, w)
      ensures w < hi && GoodPage(Target(n, u, w)) && Target(n, u, w) in n && Target(n, u, w) !in TablePages(u)
      ensures Target(n, u, w) !in g + [f[0]] && Target(n, u, w) == Target(m, t, w)
    {
      assert IsMapped(m, t, w) && Target(n, u, w) == Target(m, t, w);
      UserPageInSpace(m, f, t, hi, w);
      TakenPages(Fresh(m, f, c), f[1..], t, n, g, u, k, Target(m, t, w));
    }
    forall q
      ensures InPool(n, g + [f[0]], u, q) <==> InPool(m, f, t, q)
    {
      TakenPages(Fresh(m, f, c), f[1..], t, n, g, u, k, q);
      assert f == [f[0]] + f[1..];
      PagesSame(m, t, n, u, q);
    }
    KeptOutside(m, f, c, t, n, g, u, k);
  }

  lemma KeptOutside(m: Memory, f: seq<nat>, c: Page, t: Tree, n: Memory, g: seq<nat>, u: Tree, k: nat)
    requires WF(m, t) && FreeOk(m, f, t) && f != [] && Taken(Fresh(m, f, c), f[1..], t, n, g, u, k)
    ensures OutsideKept(m, f, t, n)
  {
    hide WF, IsUserPage;
    FreshFacts(m, f, c, t, n, g, u, k);
    forall p | p in m && !InPool(m, f, t, p)
      ensures n[p] == m[p]
    {
      TakenPages(Fresh(m, f, c), f[1..], t, n, g, u, k, p);
    }
  }

  lemma PagesSame(m: Memory, t: Tree, n: Memory, u: Tree, q: nat)
    requires SameLeaves(m, t, n, u)
    ensures IsUserPage(n, u, q) <==> IsUserPage(m, t, q)
  {
    hide Leaf;
    if IsUserPage(n, u, q) {
      var w: nat :| w < USERTOP && IsMapped(n, u, w) && Target(n, u, w) == q;
      assert IsMapped(m, t, w) && Target(m, t, w) == q;
    }
    if IsUserPage(m, t, q) {
      var w: nat :| w < USERTOP && IsMapped(m, t, w) && Target(m, t, w) == q;
      assert IsMapped(n, u, w) && Target(n, u, w) == q;
    }
  }

  /** Unmapping [lo, hi) moves exactly its pages from the user to the queue. */
  lemma UnmapKeepsSpace(m: Memory, f: seq<nat>, t: Tree, hi: nat, n: Memory, lo: nat)
    requires Space(m, f, t, hi) && lo <= hi && WF(n, t) && Unmapped(m, t, n, lo, hi - lo)
    requires FreeOk(n, f + Targets(m, t, lo, hi - lo), t)
    ensures Space(n, f + Targets(m, t, lo, hi - lo), t, lo)
    ensures SamePool(m, f, t, n, f + Targets(m, t, lo, hi - lo), t) && OutsideKept(m, f, t, n)
    ensures forall w: nat | w < lo || w >= hi :: Leaf(n, t, w) == Leaf(m, t, w)
    ensures forall w: nat | w < lo && IsMapped(m, t, w) :: Target(m, t, w) in n && n[Target(m, t, w)] == m[Target(m, t, w)]
  {
    hide WF, Leaf, TablePages, FreeOk, IsUserPage;
    var g := f + Targets(m, t, lo, hi - lo);
    forall w: nat | w < USERTOP && IsMapped(n, t, w)
      ensures w < lo && IsMapped(m, t, w) && Target(n, t, w) == Target(m, t, w)
      ensures GoodPage(Target(n, t, w)) && Target(n, t, w) in n && Target(n, t, w) !in TablePages(t) && Target(n, t, w) !in g
    {
      assert IsMapped(m, t, w);
      UserPageInSpace(m, f, t, hi, w);
      InTargets(m, t, lo, hi - lo, Target(m, t, w));
    }
    forall w: nat | w < lo && IsMapped(m, t, w)
      ensures Target(m, t, w) in n && n[Target(m, t, w)] == m[Target(m, t, w)]
    {
      UserPageInSpace(m, f, t, hi, w);
    }
    forall q
      ensures InPool(n, g, t, q) <==> InPool(m, f, t, q)
    {
      InTargets(m, t, lo, hi - lo, q);
      PagesAfterUnmap(m, f, t, hi, n, lo, q);
    }
  }

  lemma PagesAfterUnmap(m: Memory, f: seq<nat>, t: Tree, hi: nat, n: Memory, lo: nat, q: nat)
    requires Space(m, f, t, hi) && lo <= hi && Unmapped(m, t, n, lo, hi - lo)
    ensures IsUserPage(m, t, q) <==> IsUserPage(n, t, q) || exists v: nat :: lo <= v < lo + (hi - lo) && IsMapped(m, t, v) && Target(m, t, v) == q
  {
    hide Leaf, WF, FreeOk, UserOk;
    if IsUserPage(m, t, q) {
      var w: nat :| w < USERTOP && IsMapped(m, t, w) && Target(m, t, w) == q;
      if w < lo {
        assert IsMapped(n, t, w) && Target(n, t, w) == q;
      }
    }
    if IsUserPage(n, t, q) {
      var w: nat :| w < USERTOP && IsMapped(n, t, w) && Target(n, t, w) == q;
      assert IsMapped(m, t, w) && Target(m, t, w) == q;
    }
  }
}
