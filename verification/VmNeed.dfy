/** How many pages an address space needs to map given page numbers: which table
    pages a tree lacks for them. */
module VmNeed {
  import opened VmSpec

  /** Which tables a tree has: level-1 tables by their index, level-0 tables by
      the page number over 512. */
  datatype Shape = Shape(mid: set<nat>, low: set<nat>)

  ghost function ShapeOf(t: Tree): Shape {
    Shape(t.mid.Keys, t.low.Keys)
  }

  /** The level-1 tables that the page numbers vs go through. */
  function Mids(vs: set<nat>): set<nat> {
    set v | v in vs :: v / 262144
  }

  /** ... and the level-0 tables. */
  function Lows(vs: set<nat>): set<nat> {
    set v | v in vs :: v / 512
  }

  /** With every table that vs go through. */
  function Grown(s: Shape, vs: set<nat>): Shape {
    Shape(s.mid + Mids(vs), s.low + Lows(vs))
  }

  /** The number of table pages that are missing for vs. */
  function Missing(s: Shape, vs: set<nat>): nat {
    |Mids(vs) - s.mid| + |Lows(vs) - s.low|
  }

  /** The pages it takes to map a fresh page at each of vs. */
  function Needed(s: Shape, vs: set<nat>): nat {
    |vs| + Missing(s, vs)
  }

  /** The page numbers from lo up to hi. */
  function Range(lo: nat, hi: nat): (r: set<nat>)
    ensures forall v :: v in r <==> lo <= v < hi
  {
    if lo >= hi then {} else Range(lo, hi - 1) + {hi - 1}
  }

  lemma RangeOne(v: nat)
    ensures Range(v, v + 1) == {v}
  {
  }

  lemma MissingOne(s: Shape, v: nat)
    ensures Mids({v}) == {v / 262144} && Lows({v}) == {v / 512}
    ensures Missing(s, {v}) == (if v / 262144 in s.mid then 0 else 1) + (if v / 512 in s.low then 0 else 1)
  {
    assert v in {v};
    assert Mids({v}) == {v / 262144};
    assert Lows({v}) == {v / 512};
    assert {v / 262144} - s.mid == if v / 262144 in s.mid then {} else {v / 262144};
    assert {v / 512} - s.low == if v / 512 in s.low then {} else {v / 512};
  }

  lemma OneMore(a: set<nat>, s: set<nat>, x: nat)
    ensures |a + {x} - s| == |a - s| + |{x} - (s + a)|
  {
    assert a + {x} - s == (a - s) + ({x} - (s + a));
  }

  lemma TablesMore(vs: set<nat>, v: nat)
    ensures Mids(vs + {v}) == Mids(vs) + {v / 262144} && Lows(vs + {v}) == Lows(vs) + {v / 512}
  {
  }

  lemma GrownMore(s: Shape, vs: set<nat>, v: nat)
    ensures Grown(s, vs + {v}) == Shape(s.mid + Mids(vs) + {v / 262144}, s.low + Lows(vs) + {v / 512})
    ensures Grown(s, vs + {v}) == Grown(Grown(s, vs), {v})
  {
    hide Mids, Lows;
    TablesMore(vs, v);
    MissingOne(s, v);
    assert s.mid + (Mids(vs) + {v / 262144}) == s.mid + Mids(vs) + {v / 262144};
    assert s.low + (Lows(vs) + {v / 512}) == s.low + Lows(vs) + {v / 512};
  }

  /** Needs add up page by page. */
  lemma NeedMore(s: Shape, vs: set<nat>, v: nat)
    ensures Grown(Grown(s, vs), {v}) == Grown(s, vs + {v})
    ensures Missing(s, vs + {v}) == Missing(s, vs) + Missing(Grown(s, vs), {v})
    ensures v !in vs ==> Needed(s, vs + {v}) == Needed(s, vs) + 1 + Missing(Grown(s, vs), {v})
  {
    hide Mids, Lows;
    GrownMore(s, vs, v);
    MissingOne(s, v);
    TablesMore(vs, v);
    OneMore(Mids(vs), s.mid, v / 262144);
    OneMore(Lows(vs), s.low, v / 512);
  }

  /** More pages never need less. */
  lemma NeedGrows(s: Shape, vs: set<nat>, ws: set<nat>)
    requires vs <= ws
    ensures Missing(s, vs) <= Missing(s, ws) && Needed(s, vs) <= Needed(s, ws)
  {
    Fewer(Mids(vs) - s.mid, Mids(ws) - s.mid);
    Fewer(Lows(vs) - s.low, Lows(ws) - s.low);
    Fewer(vs, ws);
  }

  lemma Fewer(a: set<nat>, b: set<nat>)
    requires a <= b
    ensures |a| <= |b|
  {
    assert b == a + (b - a);
  }

  lemma NeedNothing(s: Shape)
    ensures Grown(s, {}) == s && Missing(s, {}) == 0 && Needed(s, {}) == 0
  {
    assert Mids({}) == {} && Lows({}) == {};
  }

  /** Fresh pages have been mapped at vs, which took the free pages from a to b. */
  ghost predicate Spent(t: Tree, u: Tree, a: nat, b: nat, vs: set<nat>) {
    ShapeOf(u) == Grown(ShapeOf(t), vs) && b + Needed(ShapeOf(t), vs) == a
  }

  lemma NothingSpent(t: Tree, a: nat)
    ensures Spent(t, t, a, a, {})
  {
    NeedNothing(ShapeOf(t));
  }

  lemma SpentMore(t: Tree, u: Tree, w: Tree, a: nat, b: nat, c: nat, vs: set<nat>, v: nat)
    requires Spent(t, u, a, b, vs) && v !in vs
    requires c + 1 + Missing(ShapeOf(u), {v}) == b && ShapeOf(w) == Grown(ShapeOf(u), {v})
    ensures Spent(t, w, a, c, vs + {v})
  {
    hide Missing, Grown, ShapeOf, Needed;
    NeedMore(ShapeOf(t), vs, v);
  }

  /** The next page needs more than is left, so all of them need more than there was. */
  lemma SpentOut(t: Tree, u: Tree, a: nat, b: nat, vs: set<nat>, v: nat, all: set<nat>)
    requires Spent(t, u, a, b, vs) && v !in vs && vs + {v} <= all && b < 1 + Missing(ShapeOf(u), {v})
    ensures a < Needed(ShapeOf(t), all)
  {
    hide Missing, Grown, ShapeOf, Needed;
    NeedMore(ShapeOf(t), vs, v);
    NeedGrows(ShapeOf(t), vs + {v}, all);
  }

  lemma SpentAll(t: Tree, u: Tree, a: nat, b: nat, vs: set<nat>)
    requires Spent(t, u, a, b, vs)
    ensures Needed(ShapeOf(t), vs) <= a && b == a - Needed(ShapeOf(t), vs) && ShapeOf(u) == Grown(ShapeOf(t), vs)
  {
  }

  /** A walk for v that has come down to a level of u, from t, with k new tables. */
  ghost predicate Walking(t: Tree, u: Tree, level: int, v: nat, k: nat) {
    && (level == 2 ==> ShapeOf(u) == ShapeOf(t) && k == 0)
    && (level == 1 ==> ShapeOf(u) == Shape(t.mid.Keys + {v / 262144}, t.low.Keys)
                       && k == if v / 262144 in t.mid then 0 else 1)
    && (level == 0 ==> ShapeOf(u) == Grown(ShapeOf(t), {v}) && k == Missing(ShapeOf(t), {v}))
  }

  lemma StartWalking(t: Tree, v: nat)
    ensures Walking(t, t, 2, v, 0)
  {
  }

  /** The table below is there already. */
  lemma WalkedDown(mem: Memory, t: Tree, u: Tree, level: int, v: nat, k: nat)
    requires Walking(t, u, level, v, k) && WF(mem, t)
    requires level == 2 ==> v / 262144 in u.mid
    requires level == 1 ==> v / 512 in u.low
    ensures 1 <= level <= 2 ==> Walking(t, u, level - 1, v, k)
  {
    hide Entry, Unshared;
    MissingOne(ShapeOf(t), v);
    assert v / 512 / 512 == v / 262144;
    if level == 2 {
      assert t.mid.Keys + {v / 262144} == t.mid.Keys;
    }
    if level == 1 {
      assert v / 262144 in t.mid && k == 0;
      assert ShapeOf(u).mid == t.mid.Keys == t.mid.Keys + {v / 262144};
      assert t.low.Keys + {v / 512} == t.low.Keys;
    }
  }

  /** ... or has just been made. */
  lemma WalkedNew(t: Tree, u: Tree, w: Tree, level: int, v: nat, k: nat, p: nat)
    requires Walking(t, u, level, v, k)
    requires level == 2 ==> v / 262144 !in u.mid && w == u.(mid := u.mid[v / 262144 := p])
    requires level == 1 ==> v / 512 !in u.low && w == u.(low := u.low[v / 512 := p])
    ensures 1 <= level <= 2 ==> Walking(t, w, level - 1, v, k + 1)
  {
    MissingOne(ShapeOf(t), v);
    hide Missing, Mids, Lows;
    if level == 2 {
      assert w.mid.Keys == u.mid.Keys + {v / 262144};
    } else if level == 1 {
      assert w.low.Keys == u.low.Keys + {v / 512};
    }
  }

  /** A walk that needs a table when no page is left. */
  lemma WalkFails(mem: Memory, t: Tree, u: Tree, level: int, v: nat, k: nat)
    requires Walking(t, u, level, v, k) && WF(mem, t) && 1 <= level <= 2
    requires if level == 2 then v / 262144 !in u.mid else v / 512 !in u.low
    ensures k < Missing(ShapeOf(t), {v})
  {
    hide Entry, Unshared;
    MissingOne(ShapeOf(t), v);
    assert v / 512 / 512 == v / 262144;
  }

  lemma WalkedAll(t: Tree, u: Tree, v: nat, k: nat)
    requires Walking(t, u, 0, v, k)
    ensures ShapeOf(u) == Grown(ShapeOf(t), {v}) && k == Missing(ShapeOf(t), {v})
  {
  }
}
