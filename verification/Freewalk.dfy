/** freewalk and uvmfree: a page table without leaves gives all its pages back. */
module FreewalkModule {
  import opened Pages
  import opened VmSpec
  import opened Vm
  import opened VmSpace
  import opened Uvm

  /** The table at a level (2 the root) under a key. */
  ghost predicate IsTable(t: Tree, lvl: nat, key: nat, p: nat) {
    if lvl == 2 then p == t.root
    else if lvl == 1 then key in t.mid && p == t.mid[key]
    else lvl == 0 && key in t.low && p == t.low[key]
  }

  ghost predicate HasChild(t: Tree, lvl: nat, key: nat, j: nat) {
    j < 512 && if lvl == 2 then j in t.mid else lvl == 1 && key * 512 + j in t.low
  }

  function ChildKey(lvl: nat, key: nat, j: nat): nat {
    if lvl == 2 then j else key * 512 + j
  }

  /** p is the table itself or below it. */
  ghost predicate InSub(t: Tree, lvl: nat, key: nat, p: nat)
    decreases lvl, 1
  {
    IsTable(t, lvl, key, p) || InChildren(t, lvl, key, 512, p)
  }

  /** p is below one of the first i entries. */
  ghost predicate InChildren(t: Tree, lvl: nat, key: nat, i: nat, p: nat)
    decreases lvl, 0
  {
    lvl > 0 && exists j: nat :: j < i && HasChild(t, lvl, key, j) && InSub(t, lvl - 1, ChildKey(lvl, key, j), p)
  }

  lemma InSub0(t: Tree, key: nat, p: nat)
    ensures InSub(t, 0, key, p) <==> key in t.low && p == t.low[key]
  {
  }

  lemma InSub1(t: Tree, key: nat, p: nat)
    ensures InSub(t, 1, key, p) <==>
      (key in t.mid && p == t.mid[key]) || exists k :: k in t.low && k / 512 == key && t.low[k] == p
  {
    if k :| k in t.low && k / 512 == key && t.low[k] == p {
      ChildInSub1(t, key, p, k);
    }
    if InChildren(t, 1, key, 512, p) {
      var j: nat :| j < 512 && HasChild(t, 1, key, j) && InSub(t, 0, ChildKey(1, key, j), p);
      InSub0(t, key * 512 + j, p);
      assert (key * 512 + j) / 512 == key;
    }
  }

  lemma ChildInSub1(t: Tree, key: nat, p: nat, k: nat)
    requires k in t.low && k / 512 == key && t.low[k] == p
    ensures InSub(t, 1, key, p)
  {
    var j := k % 512;
    assert key * 512 + j == k;
    assert HasChild(t, 1, key, j) && ChildKey(1, key, j) == k;
    InSub0(t, k, p);
  }

  /** The pages below the root are exactly the table pages. */
  lemma InSub2(mem: Memory, t: Tree, p: nat)
    requires WF(mem, t)
    ensures InSub(t, 2, 0, p) <==> p in TablePages(t)
  {
    if p in TablePages(t) && p != t.root {
      var k: nat;
      if p in t.mid.Values {
        k :| k in t.mid && t.mid[k] == p;
      } else {
        var l :| l in t.low && t.low[l] == p;
        k := l / 512;
      }
      InSub1(t, k, p);
      assert HasChild(t, 2, 0, k) && ChildKey(2, 0, k) == k;
    }
    if InChildren(t, 2, 0, 512, p) {
      var j: nat :| j < 512 && HasChild(t, 2, 0, j) && InSub(t, 1, ChildKey(2, 0, j), p);
      InSub1(t, j, p);
    }
  }

  /** Subtrees do not overlap, and do not contain their parent. */
  lemma SubtreesApart(mem: Memory, t: Tree, lvl: nat, key: nat, j: nat, l: nat, p: nat)
    requires WF(mem, t) && 0 < lvl <= 2 && (lvl == 1 ==> key in t.mid) && HasChild(t, lvl, key, j)
    requires InSub(t, lvl - 1, ChildKey(lvl, key, j), p)
    ensures !IsTable(t, lvl, key, p)
    ensures l != j && HasChild(t, lvl, key, l) ==> !InSub(t, lvl - 1, ChildKey(lvl, key, l), p)
  {
    if lvl == 2 {
      InSub1(t, j, p);
      InSub1(t, l, p);
    } else {
      InSub0(t, key * 512 + j, p);
      InSub0(t, key * 512 + l, p);
    }
  }

  /** What the entries of a table say when nothing is mapped. */
  lemma EntryTells(mem: Memory, t: Tree, lvl: nat, key: nat, pg: nat, j: nat)
    requires WF(mem, t) && lvl <= 2 && IsTable(t, lvl, key, pg) && j < 512
    requires forall v: nat :: !IsMapped(mem, t, v)
    ensures pg in mem
    ensures var pte := mem[pg][j];
      && (IsNode(pte) <==> HasChild(t, lvl, key, j)) && (IsValid(pte) ==> IsNode(pte))
      && (IsNode(pte) ==> lvl > 0 && IsTable(t, lvl - 1, ChildKey(lvl, key, j), PtePa(pte)))
  {
    if lvl == 2 {
      assert Entry(mem[pg][j], t.mid, j);
      if j in t.mid {
        PteRoundTrip(t.mid[j], PTE_V);
      }
    } else if lvl == 1 {
      assert Entry(mem[pg][j], t.low, key * 512 + j);
      if key * 512 + j in t.low {
        PteRoundTrip(t.low[key * 512 + j], PTE_V);
      }
    } else {
      assert (key * 512 + j) / 512 == key && (key * 512 + j) % 512 == j;
      assert !IsMapped(mem, t, key * 512 + j);
    }
  }

  /** freewalk: the pages of the subtree, and no others, become free; its leaf
      panic is never met when nothing is mapped. m0 is the memory before the
      outermost call. */
  method Freewalk(ph: Phys, pagetable: nat, ghost lvl: nat, ghost key: nat, ghost m0: Memory, ghost t: Tree)
    requires WF(m0, t) && lvl <= 2 && IsTable(t, lvl, key, pagetable) && (forall v: nat :: !IsMapped(m0, t, v))
    requires ph.mem.Keys == m0.Keys && forall p | p in m0 && InSub(t, lvl, key, p) :: ph.mem[p] == m0[p]
    requires NoDup(ph.free) && forall p | InSub(t, lvl, key, p) :: p !in ph.free
    modifies ph
    ensures ph.mem.Keys == m0.Keys && forall p | p in m0 && !InSub(t, lvl, key, p) :: ph.mem[p] == old(ph.mem)[p]
    ensures NoDup(ph.free) && forall p :: p in ph.free <==> p in old(ph.free) || InSub(t, lvl, key, p)
    decreases lvl
  {
    hide WF, IsMapped, InSub, InChildren;
    EntryTells(m0, t, lvl, key, pagetable, 0);
    NoChildren(t, lvl, key);
    ParentApart(m0, t, lvl, key, pagetable);
    var i := 0;
    while i < 512
      invariant 0 <= i <= 512 && Walked(ph.mem, ph.free, t, lvl, key, pagetable, i, m0, old(ph.mem), old(ph.free))
    {
      EntryTells(m0, t, lvl, key, pagetable, i);
      var pte := ph.mem[pagetable][i];
      if IsNode(pte) {
        var child := PtePa(pte);
        FreeChild(ph, child, lvl, key, pagetable, i, m0, t, old(ph.mem), old(ph.free));
      } else {
        SkipChild(t, lvl, key, i);
      }
      i := i + 1;
    }
    ParentApart(m0, t, lvl, key, pagetable);
    ph.free := ph.free + [pagetable];
    SubIsParentAndChildren(t, lvl, key);
  }

  /** One iteration of freewalk at an entry that points to a table. */
  method FreeChild(ph: Phys, child: nat, ghost lvl: nat, ghost key: nat, pagetable: nat, i: nat,
                   ghost m0: Memory, ghost t: Tree, ghost m1: Memory, ghost f1: seq<nat>)
    requires i < 512 && Walked(ph.mem, ph.free, t, lvl, key, pagetable, i, m0, m1, f1)
    requires WF(m0, t) && 0 < lvl <= 2 && IsTable(t, lvl, key, pagetable) && (forall v: nat :: !IsMapped(m0, t, v))
    requires HasChild(t, lvl, key, i) && IsTable(t, lvl - 1, ChildKey(lvl, key, i), child)
    modifies ph
    ensures Walked(ph.mem, ph.free, t, lvl, key, pagetable, i + 1, m0, m1, f1)
    decreases lvl, 0
  {
    hide WF, IsMapped, InSub, InChildren, Walked;
    ghost var m2, f2 := ph.mem, ph.free;
    BeforeChild(m2, f2, t, lvl, key, pagetable, i, m0, m1, f1);
    Freewalk(ph, child, lvl - 1, ChildKey(lvl, key, i), m0, t);
    AfterChild(m2, f2, t, lvl, key, pagetable, i, m0, m1, f1, ph.mem, ph.free);
    ph.mem := ph.mem[pagetable := ph.mem[pagetable][i := 0]];
  }

  /** The first i entries of the table have been freed. */
  ghost predicate Walked(m: Memory, f: seq<nat>, t: Tree, lvl: nat, key: nat, pg: nat, i: nat, m0: Memory, m1: Memory, f1: seq<nat>) {
    && pg in m0 && m.Keys == m0.Keys == m1.Keys
    && (forall p | p in m0 && !InSub(t, lvl, key, p) :: m[p] == m1[p])
    && (forall p | p in m0 && p != pg && InSub(t, lvl, key, p) && !InChildren(t, lvl, key, i, p) :: m[p] == m0[p])
    && (forall j | i <= j < 512 :: m[pg][j] == m0[pg][j])
    && NoDup(f) && (forall p | InSub(t, lvl, key, p) :: p !in f1)
    && forall p :: p in f <==> p in f1 || InChildren(t, lvl, key, i, p)
  }

  /** Before the child is freed its pages are as they were, and in use. */
  lemma BeforeChild(m: Memory, f: seq<nat>, t: Tree, lvl: nat, key: nat, pg: nat, i: nat, m0: Memory, m1: Memory, f1: seq<nat>)
    requires i < 512 && Walked(m, f, t, lvl, key, pg, i, m0, m1, f1)
    requires WF(m0, t) && 0 < lvl <= 2 && IsTable(t, lvl, key, pg) && HasChild(t, lvl, key, i)
    ensures m.Keys == m0.Keys && forall p | p in m0 && InSub(t, lvl - 1, ChildKey(lvl, key, i), p) :: m[p] == m0[p]
    ensures NoDup(f) && forall p | InSub(t, lvl - 1, ChildKey(lvl, key, i), p) :: p !in f
  {
    hide WF, InSub, InChildren;
    ChildIntact(m0, t, lvl, key, i);
  }

  /** Freeing the child's pages and clearing its entry. */
  lemma AfterChild(m: Memory, f: seq<nat>, t: Tree, lvl: nat, key: nat, pg: nat, i: nat, m0: Memory, m1: Memory, f1: seq<nat>,
                   n: Memory, g: seq<nat>)
    requires i < 512 && Walked(m, f, t, lvl, key, pg, i, m0, m1, f1)
    requires WF(m0, t) && 0 < lvl <= 2 && IsTable(t, lvl, key, pg) && HasChild(t, lvl, key, i)
    requires n.Keys == m0.Keys && forall p | p in m0 && !InSub(t, lvl - 1, ChildKey(lvl, key, i), p) :: n[p] == m[p]
    requires NoDup(g) && forall p :: p in g <==> p in f || InSub(t, lvl - 1, ChildKey(lvl, key, i), p)
    ensures pg in n && Walked(n[pg := n[pg][i := 0]], g, t, lvl, key, pg, i + 1, m0, m1, f1)
  {
    hide WF, InSub, InChildren;
    ChildIntact(m0, t, lvl, key, i);
    SubIsParentAndChildren(t, lvl, key);
    ParentApart(m0, t, lvl, key, pg);
    ChildStep(m0, t, lvl, key, i);
  }

  lemma NoChildren(t: Tree, lvl: nat, key: nat)
    ensures forall p :: !InChildren(t, lvl, key, 0, p)
  {
  }

  lemma SkipChild(t: Tree, lvl: nat, key: nat, i: nat)
    requires !HasChild(t, lvl, key, i)
    ensures forall p :: InChildren(t, lvl, key, i + 1, p) <==> InChildren(t, lvl, key, i, p)
  {
    forall p
      ensures InChildren(t, lvl, key, i + 1, p) <==> InChildren(t, lvl, key, i, p)
    {
      if InChildren(t, lvl, key, i + 1, p) {
        var j: nat :| j < i + 1 && HasChild(t, lvl, key, j) && InSub(t, lvl - 1, ChildKey(lvl, key, j), p);
        assert j < i;
      }
    }
  }

  lemma ChildStep(m0: Memory, t: Tree, lvl: nat, key: nat, i: nat)
    requires 0 < lvl <= 2 && HasChild(t, lvl, key, i)
    ensures forall p :: InChildren(t, lvl, key, i + 1, p) <==>
      InChildren(t, lvl, key, i, p) || InSub(t, lvl - 1, ChildKey(lvl, key, i), p)
  {
    forall p
      ensures InChildren(t, lvl, key, i + 1, p) <==>
        InChildren(t, lvl, key, i, p) || InSub(t, lvl - 1, ChildKey(lvl, key, i), p)
    {
      if InChildren(t, lvl, key, i + 1, p) {
        var j: nat :| j < i + 1 && HasChild(t, lvl, key, j) && InSub(t, lvl - 1, ChildKey(lvl, key, j), p);
        assert j < i || j == i;
      }
    }
  }

  /** The next subtree has not been touched. */
  lemma ChildIntact(m0: Memory, t: Tree, lvl: nat, key: nat, i: nat)
    requires WF(m0, t) && 0 < lvl <= 2 && (lvl == 1 ==> key in t.mid) && HasChild(t, lvl, key, i)
    ensures forall p | InSub(t, lvl - 1, ChildKey(lvl, key, i), p) ::
      !InChildren(t, lvl, key, i, p) && InSub(t, lvl, key, p) && !IsTable(t, lvl, key, p)
  {
    forall p | InSub(t, lvl - 1, ChildKey(lvl, key, i), p)
      ensures !InChildren(t, lvl, key, i, p) && InSub(t, lvl, key, p) && !IsTable(t, lvl, key, p)
    {
      forall l: nat | l < i && HasChild(t, lvl, key, l)
        ensures !InSub(t, lvl - 1, ChildKey(lvl, key, l), p)
      {
        SubtreesApart(m0, t, lvl, key, i, l, p);
      }
      SubtreesApart(m0, t, lvl, key, i, i, p);
    }
  }

  lemma ParentApart(m0: Memory, t: Tree, lvl: nat, key: nat, pg: nat)
    requires WF(m0, t) && lvl <= 2 && IsTable(t, lvl, key, pg)
    ensures !InChildren(t, lvl, key, 512, pg) && InSub(t, lvl, key, pg)
    ensures forall i: nat | i <= 512 :: !InChildren(t, lvl, key, i, pg)
  {
    if lvl > 0 {
      forall j: nat | j < 512 && HasChild(t, lvl, key, j)
        ensures !InSub(t, lvl - 1, ChildKey(lvl, key, j), pg)
      {
        if InSub(t, lvl - 1, ChildKey(lvl, key, j), pg) {
          SubtreesApart(m0, t, lvl, key, j, j, pg);
        }
      }
    }
  }

  lemma SubIsParentAndChildren(t: Tree, lvl: nat, key: nat)
    ensures forall p :: InSub(t, lvl, key, p) <==> IsTable(t, lvl, key, p) || InChildren(t, lvl, key, 512, p)
    ensures forall p, i: nat | i <= 512 && InChildren(t, lvl, key, i, p) :: InSub(t, lvl, key, p)
  {
  }
}
