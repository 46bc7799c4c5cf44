/** Sv39 page tables (section 4.4 of the RISC-V Privileged Architecture manual,
    version 20211203) in physical memory, and the finite map they stand for. */
module VmSpec {
  import opened Pages

  const MAXVA := 0x40_0000_0000 // 1 << 38

  const PTE_V := 1
  const PTE_R := 2
  const PTE_W := 4
  const PTE_X := 8
  const PTE_U := 16

  /** Every RAM page is 512 64-bit words; a page-table page holds PTEs. */
  type Page = s: seq<nat> | |s| == 512 witness seq(512, _ => 0)
  type Memory = map<nat, Page>

  function Zeros(): Page {
    seq(512, _ => 0)
  }

  predicate GoodPage(p: nat) {
    p % PGSIZE == 0 && 0 < p < PHYSTOP
  }

  // ----- page-table entries -----

  /** PA2PTE(pa) | flags. */
  function Pte(pa: nat, flags: nat): nat {
    pa / 4096 * 1024 + flags
  }

  /** PTE2PA. */
  function PtePa(pte: nat): nat {
    pte / 1024 * 4096
  }

  function PteFlags(pte: nat): nat {
    pte % 1024
  }

  predicate IsValid(pte: nat) {
    pte % 2 == 1
  }

  predicate IsUser(pte: nat) {
    pte / 16 % 2 == 1
  }

  /** Valid, with R, W and X clear: a pointer to a lower table. */
  predicate IsNode(pte: nat) {
    pte % 2 == 1 && pte / 2 % 8 == 0
  }

  lemma PteRoundTrip(pa: nat, flags: nat)
    requires pa % PGSIZE == 0 && flags < 1024
    ensures PtePa(Pte(pa, flags)) == pa && PteFlags(Pte(pa, flags)) == flags
    ensures IsValid(Pte(pa, flags)) == IsValid(flags) && IsUser(Pte(pa, flags)) == IsUser(flags)
    ensures IsNode(Pte(pa, flags)) == IsNode(flags)
  {
    var q := pa / 4096;
    var pte := q * 1024 + flags;
    assert pte / 1024 == q && pte % 1024 == flags;
    Halve(q * 512, flags);
    Halve(q * 256, flags / 2);
    Halve(q * 128, flags / 4);
    Halve(q * 64, flags / 8);
    Halve(q * 32, flags / 16);
    Eighth(q * 64, flags / 2);
    assert pte / 16 == q * 64 + flags / 16;
  }

  lemma Halve(a: nat, b: nat)
    ensures (2 * a + b) / 2 == a + b / 2 && (2 * a + b) % 2 == b % 2
  {
  }

  lemma Eighth(a: nat, b: nat)
    ensures (8 * a + b) % 8 == b % 8
  {
  }

  /** PX(level, va): the 9-bit index at a level. */
  function PX(level: nat, va: nat): nat
    requires level <= 2
  {
    if level == 2 then va / 0x4000_0000 % 512
    else if level == 1 then va / 0x20_0000 % 512
    else va / 4096 % 512
  }

  /** The three indices are the base-512 digits of the page number, so they
      determine the page and are determined by it. */
  lemma IndicesOfPage(va: nat)
    requires va < MAXVA
    ensures var vpn := va / PGSIZE;
      && PX(2, va) == vpn / 262144 && PX(1, va) == vpn / 512 % 512 && PX(0, va) == vpn % 512
      && vpn == (PX(2, va) * 512 + PX(1, va)) * 512 + PX(0, va)
  {
    assert va / 0x20_0000 == va / 4096 / 512;
    assert va / 0x4000_0000 == va / 4096 / 262144;
  }

  // ----- trees -----

  /** Where the table pages are: the root, the level-1 pages by their index,
      and the level-0 pages by the page number over 512. */
  datatype Tree = Tree(root: nat, mid: map<nat, nat>, low: map<nat, nat>)

  ghost function TablePages(t: Tree): set<nat> {
    {t.root} + t.mid.Values + t.low.Values
  }

  /** No table page is shared. */
  ghost predicate Unshared(t: Tree) {
    && (forall k | k in t.mid :: t.mid[k] != t.root)
    && (forall k | k in t.low :: t.low[k] != t.root)
    && (forall k, l | k in t.mid && l in t.mid && k != l :: t.mid[k] != t.mid[l])
    && (forall k, l | k in t.low && l in t.low && k != l :: t.low[k] != t.low[l])
    && (forall k, l | k in t.mid && l in t.low :: t.mid[k] != t.low[l])
  }

  /** The entry that must be at index i of a table whose children are given. */
  ghost predicate Entry(pte: nat, child: map<nat, nat>, key: nat) {
    if key in child then GoodPage(child[key]) && pte == Pte(child[key], PTE_V) else !IsValid(pte)
  }

  ghost predicate WF(mem: Memory, t: Tree) {
    && Unshared(t)
    && t.root in mem && GoodPage(t.root)
    && (forall i: nat | i < 512 :: Entry(mem[t.root][i], t.mid, i))
    && (forall k | k in t.mid :: k < 512 && t.mid[k] in mem)
    && (forall k: nat, i: nat | k in t.mid && i < 512 :: Entry(mem[t.mid[k]][i], t.low, k * 512 + i))
    && (forall k | k in t.low :: k / 512 in t.mid && t.low[k] in mem && GoodPage(t.low[k]))
  }

  /** The level-0 entry of a page number, 0 where no table reaches. */
  ghost function Leaf(mem: Memory, t: Tree, vpn: nat): nat {
    if vpn / 512 in t.low && t.low[vpn / 512] in mem then mem[t.low[vpn / 512]][vpn % 512] else 0
  }

  ghost predicate SameLeaves(m: Memory, t: Tree, n: Memory, u: Tree) {
    forall vpn: nat :: Leaf(n, u, vpn) == Leaf(m, t, vpn)
  }

  /** The memory after page p, zeroed, is entered in page q at index i. */
  function NewTable(mem: Memory, q: nat, i: nat, p: nat): (n: Memory)
    requires p in mem && q in mem && i < 512
  {
    var m: Memory := mem[p := Zeros()];
    m[q := m[q][i := Pte(p, PTE_V)]]
  }

  lemma ValuesOfPut(m: map<nat, nat>, k: nat, p: nat)
    requires k !in m
    ensures m[k := p].Values == m.Values + {p}
  {
    assert forall x | x in m.Values :: exists j :: j in m && m[j] == x && m[k := p][j] == x;
    assert m[k := p][k] == p;
  }

  lemma TableValues(t: Tree)
    ensures forall k | k in t.mid :: t.mid[k] in TablePages(t)
    ensures forall k | k in t.low :: t.low[k] in TablePages(t)
  {
  }

  /** Adding a zeroed level-1 page. */
  lemma AddMid(mem: Memory, t: Tree, k: nat, p: nat)
    requires WF(mem, t) && k < 512 && k !in t.mid && GoodPage(p) && p in mem && p !in TablePages(t)
    ensures var n, u := NewTable(mem, t.root, k, p), t.(mid := t.mid[k := p]);
      WF(n, u) && SameLeaves(mem, t, n, u) && TablePages(u) == TablePages(t) + {p} && n.Keys == mem.Keys
  {
    hide Pte;
    TableValues(t);
    ValuesOfPut(t.mid, k, p);
    AddMidEntries(mem, t, k, p);
    var n, u := NewTable(mem, t.root, k, p), t.(mid := t.mid[k := p]);
    forall vpn: nat
      ensures Leaf(n, u, vpn) == Leaf(mem, t, vpn)
    {
      if vpn / 512 in t.low {
        assert t.low[vpn / 512] != p && t.low[vpn / 512] != t.root;
      }
    }
  }

  lemma AddMidEntries(mem: Memory, t: Tree, k: nat, p: nat)
    requires WF(mem, t) && k < 512 && k !in t.mid && GoodPage(p) && p in mem && p !in TablePages(t)
    ensures var n, u := NewTable(mem, t.root, k, p), t.(mid := t.mid[k := p]);
      && (forall i: nat | i < 512 :: Entry(n[u.root][i], u.mid, i))
      && forall j: nat, i: nat | j in u.mid && i < 512 :: u.mid[j] in n && Entry(n[u.mid[j]][i], u.low, j * 512 + i)
  {
    hide Pte;
    TableValues(t);
    var n, u := NewTable(mem, t.root, k, p), t.(mid := t.mid[k := p]);
    forall j: nat, i: nat | j in u.mid && i < 512
      ensures Entry(n[u.mid[j]][i], u.low, j * 512 + i)
    {
      if j == k {
        assert (k * 512 + i) / 512 == k;
      } else {
        assert Entry(mem[t.mid[j]][i], t.low, j * 512 + i);
      }
    }
    forall i: nat | i < 512
      ensures Entry(n[u.root][i], u.mid, i)
    {
      assert Entry(mem[t.root][i], t.mid, i);
    }
  }

  /** Adding a zeroed level-0 page. */
  lemma AddLow(mem: Memory, t: Tree, k: nat, p: nat)
    requires WF(mem, t) && k / 512 in t.mid && k !in t.low && GoodPage(p) && p in mem && p !in TablePages(t)
    ensures var n, u := NewTable(mem, t.mid[k / 512], k % 512, p), t.(low := t.low[k := p]);
      WF(n, u) && SameLeaves(mem, t, n, u) && TablePages(u) == TablePages(t) + {p} && n.Keys == mem.Keys
  {
    TableValues(t);
    ValuesOfPut(t.low, k, p);
    AddLowEntries(mem, t, k, p);
    AddLowRoot(mem, t, k, p);
    AddLowLeaves(mem, t, k, p);
    hide Entry, Leaf;
  }

  lemma AddLowRoot(mem: Memory, t: Tree, k: nat, p: nat)
    requires WF(mem, t) && k / 512 in t.mid && GoodPage(p) && p in mem && p !in TablePages(t)
    ensures t.mid[k / 512] in mem && t.mid[k / 512] != p
    ensures var n := NewTable(mem, t.mid[k / 512], k % 512, p);
      t.root in n && forall i: nat | i < 512 :: Entry(n[t.root][i], t.mid, i)
  {
    TableValues(t);
    RootInTables(mem, t);
    var n := NewTable(mem, t.mid[k / 512], k % 512, p);
    forall i: nat | i < 512
      ensures Entry(n[t.root][i], t.mid, i)
    {
      assert Entry(mem[t.root][i], t.mid, i);
    }
  }

  lemma AddLowLeaves(mem: Memory, t: Tree, k: nat, p: nat)
    requires WF(mem, t) && k / 512 in t.mid && k !in t.low && GoodPage(p) && p in mem && p !in TablePages(t)
    ensures t.mid[k / 512] in mem && t.mid[k / 512] != p
    ensures SameLeaves(mem, t, NewTable(mem, t.mid[k / 512], k % 512, p), t.(low := t.low[k := p]))
  {
    TableValues(t);
    var n, u := NewTable(mem, t.mid[k / 512], k % 512, p), t.(low := t.low[k := p]);
    forall vpn: nat
      ensures Leaf(n, u, vpn) == Leaf(mem, t, vpn)
    {
      if vpn / 512 in t.low {
        assert t.low[vpn / 512] != p && t.low[vpn / 512] != t.mid[k / 512];
      }
    }
  }

  lemma AddLowEntries(mem: Memory, t: Tree, k: nat, p: nat)
    requires WF(mem, t) && k / 512 in t.mid && k !in t.low && GoodPage(p) && p in mem && p !in TablePages(t)
    ensures var n, u := NewTable(mem, t.mid[k / 512], k % 512, p), t.(low := t.low[k := p]);
      forall j: nat, i: nat | j in u.mid && i < 512 :: u.mid[j] in n && Entry(n[u.mid[j]][i], u.low, j * 512 + i)
  {
    hide Pte;
    TableValues(t);
    var n, u := NewTable(mem, t.mid[k / 512], k % 512, p), t.(low := t.low[k := p]);
    forall j: nat, i: nat | j in u.mid && i < 512
      ensures Entry(n[u.mid[j]][i], u.low, j * 512 + i)
    {
      assert Entry(mem[t.mid[j]][i], t.low, j * 512 + i);
      assert (j * 512 + i) / 512 == j && (j * 512 + i) % 512 == i;
      assert k == k / 512 * 512 + k % 512;
      assert j != k / 512 ==> t.mid[j] != t.mid[k / 512];
    }
  }

  /** Writing one level-0 entry changes that page number and no other. */
  lemma PutLeaf(mem: Memory, t: Tree, vpn: nat, pte: nat)
    requires WF(mem, t) && vpn / 512 in t.low
    ensures var p := t.low[vpn / 512];
      var n := mem[p := mem[p][vpn % 512 := pte]];
      WF(n, t) && n.Keys == mem.Keys && forall x: nat :: Leaf(n, t, x) == if x == vpn then pte else Leaf(mem, t, x)
  {
    var p := t.low[vpn / 512];
    var n := mem[p := mem[p][vpn % 512 := pte]];
    forall x: nat
      ensures Leaf(n, t, x) == if x == vpn then pte else Leaf(mem, t, x)
    {
      if x / 512 in t.low {
        assert t.low[x / 512] == p ==> x / 512 == vpn / 512;
        assert x == x / 512 * 512 + x % 512 && vpn == vpn / 512 * 512 + vpn % 512;
      }
    }
  }

  // ----- the pool of pages -----

  /** The queue of free pages, disjoint from the tables. */
  ghost predicate FreeOk(mem: Memory, free: seq<nat>, t: Tree) {
    && NoDup(free)
    && forall i | 0 <= i < |free| :: GoodPage(free[i]) && free[i] in mem && free[i] !in TablePages(t)
  }

  ghost function Elems(q: seq<nat>): set<nat> {
    set x | x in q
  }

  /** The tables grew by the first k free pages; no page but table pages changed. */
  ghost predicate Taken(m: Memory, f: seq<nat>, t: Tree, n: Memory, g: seq<nat>, u: Tree, k: nat) {
    && WF(n, u) && FreeOk(n, g, u)
    && k <= |f| && g == f[k..] && TablePages(u) == TablePages(t) + Elems(f[..k])
    && m.Keys == n.Keys && (forall p | p in m && p !in TablePages(u) :: n[p] == m[p])
    && u.root == t.root && (forall x | x in t.low :: x in u.low && u.low[x] == t.low[x])
    && (forall x | x in t.mid :: x in u.mid && u.mid[x] == t.mid[x])
  }

  /** ... and no mapping changed. */
  ghost predicate GrewBy(m: Memory, f: seq<nat>, t: Tree, n: Memory, g: seq<nat>, u: Tree, k: nat) {
    Taken(m, f, t, n, g, u, k) && SameLeaves(m, t, n, u)
  }

  lemma GrewByNone(m: Memory, f: seq<nat>, t: Tree)
    requires WF(m, t) && FreeOk(m, f, t)
    ensures GrewBy(m, f, t, m, f, t, 0)
  {
    assert Elems(f[..0]) == {};
  }

  lemma TakenChain(m: Memory, f: seq<nat>, t: Tree, n: Memory, g: seq<nat>, u: Tree, k: nat,
                   o: Memory, h: seq<nat>, v: Tree, l: nat)
    requires Taken(m, f, t, n, g, u, k) && Taken(n, g, u, o, h, v, l)
    ensures Taken(m, f, t, o, h, v, k + l)
  {
    hide WF, FreeOk;
    assert f[..k + l] == f[..k] + g[..l];
    assert Elems(f[..k + l]) == Elems(f[..k]) + Elems(g[..l]);
    assert f[k..][l..] == f[k + l..];
    forall p | p in m && p !in TablePages(v)
      ensures o[p] == m[p]
    {
      assert p !in TablePages(u);
    }
  }

  lemma GrewByChain(m: Memory, f: seq<nat>, t: Tree, n: Memory, g: seq<nat>, u: Tree, k: nat,
                    o: Memory, h: seq<nat>, v: Tree, l: nat)
    requires GrewBy(m, f, t, n, g, u, k) && GrewBy(n, g, u, o, h, v, l)
    ensures GrewBy(m, f, t, o, h, v, k + l)
  {
    TakenChain(m, f, t, n, g, u, k, o, h, v, l);
  }

  /** Entering a leaf keeps the tables. */
  lemma PutLeafTaken(m: Memory, f: seq<nat>, t: Tree, n: Memory, g: seq<nat>, u: Tree, k: nat, vpn: nat, pte: nat)
    requires Taken(m, f, t, n, g, u, k) && vpn / 512 in u.low
    ensures u.low[vpn / 512] in n
    ensures var p := u.low[vpn / 512];
      Taken(m, f, t, n[p := n[p][vpn % 512 := pte]], g, u, k)
  {
    PutLeaf(n, u, vpn, pte);
  }

  lemma FreeTail(mem: Memory, free: seq<nat>, t: Tree)
    requires FreeOk(mem, free, t) && free != []
    ensures GoodPage(free[0]) && free[0] in mem && free[0] !in TablePages(t)
    ensures forall n: Memory, u: Tree | n.Keys == mem.Keys && TablePages(u) == TablePages(t) + {free[0]} ::
      FreeOk(n, free[1..], u)
  {
  }

  /** The head of the queue becomes a level-1 table. */
  lemma GrowMid(mem: Memory, free: seq<nat>, t: Tree, k: nat)
    requires WF(mem, t) && FreeOk(mem, free, t) && free != [] && k < 512 && k !in t.mid
    ensures free[0] in mem && GrewBy(mem, free, t, NewTable(mem, t.root, k, free[0]), free[1..], t.(mid := t.mid[k := free[0]]), 1)
  {
    hide WF, Leaf;
    FreeTail(mem, free, t);
    AddMid(mem, t, k, free[0]);
    RootInTables(mem, t);
    assert free[..1] == [free[0]] && Elems(free[..1]) == {free[0]};
  }

  lemma RootInTables(mem: Memory, t: Tree)
    requires WF(mem, t)
    ensures t.root in mem && t.root in TablePages(t)
    ensures forall k | k in t.mid :: t.mid[k] in mem && t.mid[k] in TablePages(t)
    ensures forall k | k in t.low :: t.low[k] in mem && t.low[k] in TablePages(t)
  {
  }

  /** The head of the queue becomes a level-0 table. */
  lemma GrowLow(mem: Memory, free: seq<nat>, t: Tree, k: nat)
    requires WF(mem, t) && FreeOk(mem, free, t) && free != [] && k / 512 in t.mid && k !in t.low
    ensures free[0] in mem && t.mid[k / 512] in mem
    ensures GrewBy(mem, free, t, NewTable(mem, t.mid[k / 512], k % 512, free[0]), free[1..], t.(low := t.low[k := free[0]]), 1)
  {
    hide WF, Leaf;
    FreeTail(mem, free, t);
    AddLow(mem, t, k, free[0]);
    RootInTables(mem, t);
    assert free[..1] == [free[0]] && Elems(free[..1]) == {free[0]};
  }

  // ----- user pages -----

  ghost predicate IsMapped(m: Memory, t: Tree, vpn: nat) {
    IsValid(Leaf(m, t, vpn))
  }

  /** The physical page of a mapped page number. */
  ghost function Target(m: Memory, t: Tree, vpn: nat): nat {
    PtePa(Leaf(m, t, vpn))
  }

  /** What walkaddr answers: the page of a mapped user address, else 0. */
  ghost function UserPage(m: Memory, t: Tree, va: nat): nat {
    if va < MAXVA && IsMapped(m, t, va / PGSIZE) && IsUser(Leaf(m, t, va / PGSIZE)) then Target(m, t, va / PGSIZE) else 0
  }

  /** Whether an entry is a user's is among its flags. */
  lemma FlagsOfEntry(e: nat)
    ensures IsUser(e) <==> IsUser(PteFlags(e))
  {
    assert e == e / 1024 * 1024 + e % 1024;
    assert e / 16 == e / 1024 * 64 + e % 1024 / 16;
  }

  /** The pages mapped in [lo, hi) are proper pages, not tables, not free, and
      each mapped once. */
  ghost predicate UserOk(m: Memory, f: seq<nat>, t: Tree, lo: nat, hi: nat) {
    && (forall v: nat | lo <= v < hi && IsMapped(m, t, v) ::
          GoodPage(Target(m, t, v)) && Target(m, t, v) in m && Target(m, t, v) !in TablePages(t) && Target(m, t, v) !in f)
    && forall v: nat, w: nat | lo <= v < hi && lo <= w < hi && v != w && IsMapped(m, t, v) && IsMapped(m, t, w) ::
          Target(m, t, v) != Target(m, t, w)
  }

  /** Same mapping: valid entries agree. */
  ghost predicate SameMap(m: Memory, t: Tree, n: Memory, u: Tree) {
    forall v: nat :: (IsMapped(n, u, v) <==> IsMapped(m, t, v))
      && (IsMapped(m, t, v) ==> Leaf(n, u, v) == Leaf(m, t, v))
  }
}
