/** The user heap: a circular, address-ordered list of free blocks, section 8.7
    of The C Programming Language. Addresses and sizes are in units of one
    block header; a block's first unit is its header. */
module Umalloc {
  const HEADER := 16 // sizeof(Header)

  // ----- the list -----

  ghost function Succ(i: int, n: nat): int {
    if i + 1 < n then i + 1 else 0
  }

  /** Free block i points to the next one, the last one to the first. */
  ghost predicate Linked(next: map<nat, nat>, fl: seq<nat>, i: int) {
    0 <= i < |fl| && fl[i] in next && next[fl[i]] == fl[Succ(i, |fl|)]
  }

  /** fl lists the free blocks by address, base first; they are linked in a
      circle and do not overlap. */
  ghost predicate Ring(next: map<nat, nat>, size: map<nat, nat>, base: nat, fl: seq<nat>) {
    && fl != [] && fl[0] == base && base in size && size[base] == 0
    && Circle(next, fl) && Sorted(size, fl)
  }

  ghost predicate Circle(next: map<nat, nat>, fl: seq<nat>) {
    forall i | 0 <= i < |fl| :: Linked(next, fl, i)
  }

  /** The blocks do not overlap, and all but the first have at least a header. */
  ghost predicate Sorted(size: map<nat, nat>, fl: seq<nat>) {
    && (forall i | 0 <= i < |fl| :: fl[i] in size && (i >= 1 ==> size[fl[i]] >= 1))
    && forall i, j | 0 <= i < j < |fl| :: fl[i] < fl[j] && fl[i] + size[fl[i]] <= fl[j]
  }

  /** Block i ends where block i + 1 begins. */
  ghost predicate Touch(size: map<nat, nat>, fl: seq<nat>, i: int) {
    0 <= i && i + 1 < |fl| && fl[i] in size && fl[i] + size[fl[i]] == fl[i + 1]
  }

  ghost predicate NoTouch(size: map<nat, nat>, fl: seq<nat>) {
    forall i :: !Touch(size, fl, i)
  }

  /** Unit x belongs to a free block. */
  ghost predicate InFree(size: map<nat, nat>, fl: seq<nat>, x: nat) {
    exists i :: 0 <= i < |fl| && fl[i] in size && fl[i] <= x < fl[i] + size[fl[i]]
  }

  /** Unit x belongs to a block some caller holds. */
  ghost predicate InLive(live: map<nat, nat>, x: nat) {
    exists a :: a in live && a <= x < a + live[a]
  }

  /** Blocks held by callers carry their size, lie between base and top, and
      overlap neither each other nor a free block. */
  ghost predicate Held(size: map<nat, nat>, base: nat, fl: seq<nat>, live: map<nat, nat>, top: nat) {
    && base < top && Sized(size, base, live, top)
    && (forall a, b | a in live && b in live && a != b :: a + live[a] <= b || b + live[b] <= a)
    && forall i | 0 <= i < |fl| :: fl[i] in size && fl[i] + size[fl[i]] <= top && Clear(live, fl[i], size[fl[i]])
  }

  ghost predicate Sized(size: map<nat, nat>, base: nat, live: map<nat, nat>, top: nat) {
    forall a | a in live :: base < a && live[a] >= 1 && a + live[a] <= top && a in size && size[a] == live[a]
  }

  /** No held block reaches into the u units from b on. */
  ghost predicate Clear(live: map<nat, nat>, b: nat, u: nat) {
    forall a | a in live :: a + live[a] <= b || b + u <= a
  }

  /** The units obtained from sbrk are exactly those of some block. */
  ghost predicate Cover(size: map<nat, nat>, fl: seq<nat>, live: map<nat, nat>, got: set<nat>) {
    forall x: nat :: x in got <==> InFree(size, fl, x) || InLive(live, x)
  }

  ghost predicate Heaped(next: map<nat, nat>, size: map<nat, nat>, base: nat, fl: seq<nat>,
                         live: map<nat, nat>, got: set<nat>, top: nat) {
    Ring(next, size, base, fl) && Held(size, base, fl, live, top) && Cover(size, fl, live, got)
  }

  /** The free block before address a. */
  ghost predicate Before(fl: seq<nat>, a: nat, e: int) {
    0 <= e < |fl| && fl[e] < a && (e + 1 < |fl| ==> a < fl[e + 1])
  }

  lemma {:induction false} SomeBefore(fl: seq<nat>, a: nat) returns (e: int)
    requires fl != [] && fl[0] < a && a !in fl && forall i, j | 0 <= i < j < |fl| :: fl[i] < fl[j]
    ensures Before(fl, a, e)
    decreases |fl|
  {
    e := |fl| - 1;
    if fl[e] > a {
      e := SomeBefore(fl[..e], a);
    }
  }

  // ----- steps -----

  function Inserted(fl: seq<nat>, e: int, bp: nat): seq<nat>
    requires 0 <= e < |fl|
  {
    fl[..e + 1] + [bp] + fl[e + 1..]
  }

  lemma InsertedAt(fl: seq<nat>, e: int, bp: nat, i: int)
    requires 0 <= e < |fl| && 0 <= i <= |fl|
    ensures Inserted(fl, e, bp)[i] == if i <= e then fl[i] else if i == e + 1 then bp else fl[i - 1]
  {
  }

  lemma InsertLinks(next: map<nat, nat>, size: map<nat, nat>, fl: seq<nat>, e: int, bp: nat)
    requires Sorted(size, fl) && Before(fl, bp, e) && Circle(next, fl) && fl[e] in next
    ensures Circle(next[fl[e] := bp][bp := next[fl[e]]], Inserted(fl, e, bp))
  {
    var n, r := next[fl[e] := bp][bp := next[fl[e]]], Inserted(fl, e, bp);
    assert Linked(next, fl, e);
    forall i | 0 <= i <= |fl|
      ensures Linked(n, r, i)
    {
      InsertedAt(fl, e, bp, i);
      InsertedAt(fl, e, bp, Succ(i, |r|));
      if i < e {
        assert Linked(next, fl, i) && fl[i] < fl[e];
      } else if i > e + 1 {
        assert Linked(next, fl, i - 1) && fl[e] < fl[i - 1] && fl[e + 1] <= fl[i - 1];
      }
    }
  }

  lemma InsertSorted(size: map<nat, nat>, base: nat, fl: seq<nat>, live: map<nat, nat>, top: nat, e: int, bp: nat)
    requires Sorted(size, fl) && Held(size, base, fl, live, top) && bp in live && Before(fl, bp, e)
    ensures Sorted(size, Inserted(fl, e, bp))
  {
    var r := Inserted(fl, e, bp);
    forall i | 0 <= i < |r|
      ensures r[i] in size && (i >= 1 ==> size[r[i]] >= 1)
    {
      InsertedAt(fl, e, bp, i);
    }
    forall i, j | 0 <= i < j < |r|
      ensures r[i] < r[j] && r[i] + size[r[i]] <= r[j]
    {
      InsertedAt(fl, e, bp, i);
      InsertedAt(fl, e, bp, j);
      if i == e + 1 {
        assert fl[e + 1] <= fl[j - 1];
      } else if j == e + 1 {
        assert fl[i] <= fl[e];
      }
    }
  }

  lemma InsertHeld(size: map<nat, nat>, base: nat, fl: seq<nat>, live: map<nat, nat>, top: nat, e: int, bp: nat)
    requires Held(size, base, fl, live, top) && bp in live && 0 <= e < |fl|
    ensures Held(size, base, Inserted(fl, e, bp), live - {bp}, top)
  {
    var r := Inserted(fl, e, bp);
    forall i | 0 <= i < |r|
      ensures r[i] == bp || exists j :: 0 <= j < |fl| && fl[j] == r[i]
    {
      InsertedAt(fl, e, bp, i);
    }
  }

  lemma InsertTouch(size: map<nat, nat>, fl: seq<nat>, e: int, bp: nat, i: int)
    requires 0 <= e < |fl| && Touch(size, Inserted(fl, e, bp), i)
    ensures i == e || i == e + 1 || Touch(size, fl, i) || Touch(size, fl, i - 1)
  {
    InsertedAt(fl, e, bp, i);
    InsertedAt(fl, e, bp, i + 1);
  }

  /** A held block joins the list after block e. */
  lemma InsertKeeps(next: map<nat, nat>, size: map<nat, nat>, base: nat, fl: seq<nat>,
                    live: map<nat, nat>, got: set<nat>, top: nat, e: int, bp: nat)
    requires Heaped(next, size, base, fl, live, got, top) && bp in live && Before(fl, bp, e) && fl[e] in next
    ensures Heaped(next[fl[e] := bp][bp := next[fl[e]]], size, base, Inserted(fl, e, bp), live - {bp}, got, top)
  {
    hide Sorted, Circle, InFree, InLive;
    InsertLinks(next, size, fl, e, bp);
    InsertSorted(size, base, fl, live, top, e, bp);
    InsertHeld(size, base, fl, live, top, e, bp);
    InsertedAt(fl, e, bp, 0);
    forall x: nat
      ensures x in got <==> InFree(size, Inserted(fl, e, bp), x) || InLive(live - {bp}, x)
    {
      InsertUnits(size, fl, live, e, bp, x);
    }
  }

  lemma InsertUnits(size: map<nat, nat>, fl: seq<nat>, live: map<nat, nat>, e: int, bp: nat, x: nat)
    requires 0 <= e < |fl| && bp in live && bp in size && size[bp] == live[bp]
    ensures InFree(size, Inserted(fl, e, bp), x) || InLive(live - {bp}, x) <==> InFree(size, fl, x) || InLive(live, x)
  {
    var r := Inserted(fl, e, bp);
    if i :| 0 <= i < |fl| && fl[i] in size && fl[i] <= x < fl[i] + size[fl[i]] {
      var j := if i <= e then i else i + 1;
      assert r[j] == fl[i];
    }
    if a :| a in live && a <= x < a + live[a] {
      if a == bp {
        assert r[e + 1] == bp;
      } else {
        assert a in live - {bp};
      }
    }
  }

  function Without(fl: seq<nat>, i: int): seq<nat>
    requires 0 <= i < |fl|
  {
    fl[..i] + fl[i + 1..]
  }

  lemma WithoutAt(fl: seq<nat>, i: int, j: int)
    requires 0 <= i < |fl| && 0 <= j < |fl| - 1
    ensures Without(fl, i)[j] == fl[if j < i then j else j + 1]
  {
  }

  /** Block i is bypassed. */
  lemma WithoutLinks(next: map<nat, nat>, size: map<nat, nat>, fl: seq<nat>, i: int)
    requires Sorted(size, fl) && 1 <= i < |fl| && Circle(next, fl)
    ensures fl[i] in next && Circle(next[fl[i - 1] := next[fl[i]]], Without(fl, i))
  {
    assert Linked(next, fl, i);
    var n, r := next[fl[i - 1] := next[fl[i]]], Without(fl, i);
    forall j | 0 <= j < |fl| - 1
      ensures Linked(n, r, j)
    {
      WithoutAt(fl, i, j);
      WithoutAt(fl, i, Succ(j, |r|));
      if j < i - 1 {
        assert Linked(next, fl, j) && fl[j] < fl[i - 1];
      } else if j >= i {
        assert Linked(next, fl, j + 1) && fl[i - 1] < fl[j + 1];
      }
    }
  }

  function MergedSizes(size: map<nat, nat>, a: nat, b: nat): map<nat, nat>
    requires a in size && b in size
  {
    size[a := size[a] + size[b]]
  }

  lemma MergeSorted(size: map<nat, nat>, fl: seq<nat>, i: int)
    requires Sorted(size, fl) && Touch(size, fl, i) && fl[i + 1] in size
    ensures Sorted(MergedSizes(size, fl[i], fl[i + 1]), Without(fl, i + 1))
  {
    var r, s := Without(fl, i + 1), MergedSizes(size, fl[i], fl[i + 1]);
    forall j | 0 <= j < |r|
      ensures r[j] in s && (j >= 1 ==> s[r[j]] >= 1)
    {
      WithoutAt(fl, i + 1, j);
    }
    forall j, k | 0 <= j < k < |r|
      ensures r[j] < r[k] && r[j] + s[r[j]] <= r[k]
    {
      WithoutAt(fl, i + 1, j);
      WithoutAt(fl, i + 1, k);
    }
  }

  lemma MergeHeld(size: map<nat, nat>, base: nat, fl: seq<nat>, live: map<nat, nat>, top: nat, i: int)
    requires Sorted(size, fl) && Held(size, base, fl, live, top) && Touch(size, fl, i) && fl[i + 1] in size && i >= 1
    ensures Held(MergedSizes(size, fl[i], fl[i + 1]), base, Without(fl, i + 1), live, top)
  {
    var r, s := Without(fl, i + 1), MergedSizes(size, fl[i], fl[i + 1]);
    assert size[fl[i]] >= 1 && size[fl[i + 1]] >= 1;
    assert Clear(live, fl[i], size[fl[i]]) && Clear(live, fl[i + 1], size[fl[i + 1]]);
    assert Sized(s, base, live, top) by {
      assert fl[i] !in live;
    }
    forall j | 0 <= j < |r|
      ensures r[j] in s && r[j] + s[r[j]] <= top && Clear(live, r[j], s[r[j]])
    {
      WithoutAt(fl, i + 1, j);
      assert j < i ==> fl[j] < fl[i];
      assert j > i ==> fl[i] < fl[j + 1];
    }
  }

  lemma MergeTouch(size: map<nat, nat>, fl: seq<nat>, i: int, j: int)
    requires Sorted(size, fl) && Touch(size, fl, i)
    requires Touch(MergedSizes(size, fl[i], fl[i + 1]), Without(fl, i + 1), j)
    ensures if j < i then Touch(size, fl, j) else Touch(size, fl, j + 1)
  {
    WithoutAt(fl, i + 1, j);
    WithoutAt(fl, i + 1, j + 1);
  }

  /** Two touching blocks become one. */
  lemma MergeKeeps(next: map<nat, nat>, size: map<nat, nat>, base: nat, fl: seq<nat>,
                   live: map<nat, nat>, got: set<nat>, top: nat, i: int)
    requires Heaped(next, size, base, fl, live, got, top) && Touch(size, fl, i)
    ensures i >= 1 && fl[i + 1] in next && fl[i + 1] in size
    ensures Heaped(next[fl[i] := next[fl[i + 1]]], MergedSizes(size, fl[i], fl[i + 1]), base,
                   Without(fl, i + 1), live, got, top)
  {
    assert i >= 1 && fl[i + 1] in size by {
      assert fl[0] < fl[1];
    }
    assert base != fl[i] by {
      assert fl[0] < fl[i];
    }
    var s := MergedSizes(size, fl[i], fl[i + 1]);
    hide Circle, InFree, InLive, Held;
    WithoutLinks(next, size, fl, i + 1);
    MergeSorted(size, fl, i);
    MergeHeld(size, base, fl, live, top, i);
    WithoutAt(fl, i + 1, 0);
    forall x: nat
      ensures InFree(s, Without(fl, i + 1), x) <==> InFree(size, fl, x)
    {
      MergeUnits(size, fl, i, x);
    }
  }

  lemma MergeUnits(size: map<nat, nat>, fl: seq<nat>, i: int, x: nat)
    requires Touch(size, fl, i) && fl[i + 1] in size && forall j, k | 0 <= j < k < |fl| :: fl[j] < fl[k]
    ensures InFree(MergedSizes(size, fl[i], fl[i + 1]), Without(fl, i + 1), x) <==> InFree(size, fl, x)
  {
    var r := Without(fl, i + 1);
    var s := MergedSizes(size, fl[i], fl[i + 1]);
    if j :| 0 <= j < |fl| && fl[j] in size && fl[j] <= x < fl[j] + size[fl[j]] {
      var k := if j <= i then j else j - 1;
      assert r[k] == if j == i + 1 then fl[i] else fl[j];
      assert r[k] in s && r[k] <= x < r[k] + s[r[k]];
    }
    if k :| 0 <= k < |r| && r[k] in s && r[k] <= x < r[k] + s[r[k]] {
      var j := if k <= i then k else k + 1;
      assert r[k] == fl[j];
      if k == i && x >= fl[i] + size[fl[i]] {
        assert fl[i + 1] <= x < fl[i + 1] + size[fl[i + 1]];
      } else {
        assert fl[j] <= x < fl[j] + size[fl[j]];
      }
    }
  }

  lemma UnlinkSorted(size: map<nat, nat>, base: nat, fl: seq<nat>, live: map<nat, nat>, top: nat, i: int)
    requires Sorted(size, fl) && Held(size, base, fl, live, top) && 1 <= i < |fl| && fl[0] == base
    ensures Sorted(size, Without(fl, i)) && fl[i] !in live
    ensures Held(size, base, Without(fl, i), live[fl[i] := size[fl[i]]], top)
  {
    var r := Without(fl, i);
    forall j | 0 <= j < |r|
      ensures r[j] == fl[if j < i then j else j + 1]
    {
      WithoutAt(fl, i, j);
    }
    assert size[fl[i]] >= 1;
    assert fl[i] !in live;
  }

  lemma UnlinkTouch(size: map<nat, nat>, fl: seq<nat>, i: int, j: int)
    requires Sorted(size, fl) && NoTouch(size, fl) && 1 <= i < |fl|
    ensures !Touch(size, Without(fl, i), j)
  {
    if 0 <= j && j + 1 < |fl| - 1 {
      WithoutAt(fl, i, j);
      WithoutAt(fl, i, j + 1);
      assert !Touch(size, fl, j) && !Touch(size, fl, j + 1);
      if j == i - 1 {
        assert fl[j] + size[fl[j]] <= fl[i] < fl[i + 1];
      }
    }
  }

  /** A block of the right size leaves the list. */
  lemma UnlinkKeeps(next: map<nat, nat>, size: map<nat, nat>, base: nat, fl: seq<nat>,
                    live: map<nat, nat>, got: set<nat>, top: nat, i: int)
    requires Heaped(next, size, base, fl, live, got, top) && NoTouch(size, fl) && 1 <= i < |fl|
    ensures fl[i] in next && fl[i] in size && fl[i] !in live && NoTouch(size, Without(fl, i))
    ensures Heaped(next[fl[i - 1] := next[fl[i]]], size, base, Without(fl, i), live[fl[i] := size[fl[i]]], got, top)
  {
    hide Circle, InFree, InLive, Held, Touch;
    WithoutLinks(next, size, fl, i);
    UnlinkSorted(size, base, fl, live, top, i);
    WithoutAt(fl, i, 0);
    forall j
      ensures !Touch(size, Without(fl, i), j)
    {
      UnlinkTouch(size, fl, i, j);
    }
    forall x: nat
      ensures x in got <==> InFree(size, Without(fl, i), x) || InLive(live[fl[i] := size[fl[i]]], x)
    {
      UnlinkUnits(size, fl, live, i, x);
    }
  }

  lemma UnlinkUnits(size: map<nat, nat>, fl: seq<nat>, live: map<nat, nat>, i: int, x: nat)
    requires 0 <= i < |fl| && fl[i] in size && fl[i] !in live
    ensures InFree(size, Without(fl, i), x) || InLive(live[fl[i] := size[fl[i]]], x) <==> InFree(size, fl, x) || InLive(live, x)
  {
    var r, live' := Without(fl, i), live[fl[i] := size[fl[i]]];
    if j :| 0 <= j < |fl| && fl[j] in size && fl[j] <= x < fl[j] + size[fl[j]] {
      if j == i {
        assert fl[i] in live' && fl[i] <= x < fl[i] + live'[fl[i]];
      } else {
        var k := if j < i then j else j - 1;
        assert r[k] == fl[j];
      }
    }
    if a :| a in live && a <= x < a + live[a] {
      assert a in live' && a <= x < a + live'[a];
    }
    if a :| a in live' && a <= x < a + live'[a] {
      if a != fl[i] {
        assert a in live && a <= x < a + live[a];
      }
    }
  }

  function SplitSizes(size: map<nat, nat>, a: nat, u: nat): map<nat, nat>
    requires a in size && u <= size[a]
  {
    size[a := size[a] - u][a + (size[a] - u) := u]
  }

  lemma SplitApart(size: map<nat, nat>, base: nat, fl: seq<nat>, live: map<nat, nat>, top: nat, i: int, u: nat)
    requires Sorted(size, fl) && Held(size, base, fl, live, top) && 1 <= i < |fl| && 1 <= u < size[fl[i]]
    ensures var bp := fl[i] + (size[fl[i]] - u); bp !in live && bp !in fl
  {
    var bp := fl[i] + (size[fl[i]] - u);
    forall j | 0 <= j < |fl|
      ensures fl[j] != bp
    {
      if j < i {
        assert fl[j] < fl[i];
      } else if j > i {
        assert fl[i] + size[fl[i]] <= fl[j];
      }
    }
  }

  lemma SplitSorted(size: map<nat, nat>, base: nat, fl: seq<nat>, live: map<nat, nat>, top: nat, i: int, u: nat)
    requires Sorted(size, fl) && Held(size, base, fl, live, top) && 1 <= i < |fl| && 1 <= u < size[fl[i]]
    ensures Sorted(SplitSizes(size, fl[i], u), fl)
    ensures forall j | 0 <= j < |fl| ::
              fl[j] in size && SplitSizes(size, fl[i], u)[fl[j]] == if j == i then size[fl[i]] - u else size[fl[j]]
  {
    SplitApart(size, base, fl, live, top, i, u);
    var s := SplitSizes(size, fl[i], u);
    forall j | 0 <= j < |fl|
      ensures s[fl[j]] == if j == i then size[fl[i]] - u else size[fl[j]]
    {
      assert j < i ==> fl[j] < fl[i];
      assert j > i ==> fl[i] < fl[j];
    }
  }

  lemma SplitHeld(size: map<nat, nat>, base: nat, fl: seq<nat>, live: map<nat, nat>, top: nat, i: int, u: nat)
    requires Sorted(size, fl) && Held(size, base, fl, live, top) && 1 <= i < |fl| && 1 <= u < size[fl[i]] && fl[0] == base
    ensures Held(SplitSizes(size, fl[i], u), base, fl, live[fl[i] + (size[fl[i]] - u) := u], top)
  {
    SplitSorted(size, base, fl, live, top, i, u);
    SplitApart(size, base, fl, live, top, i, u);
    var bp, s := fl[i] + (size[fl[i]] - u), SplitSizes(size, fl[i], u);
    assert fl[0] < fl[i];
    assert Clear(live, fl[i], size[fl[i]]);
    assert fl[i] !in live;
    forall j | 0 <= j < |fl|
      ensures fl[j] in s && fl[j] + s[fl[j]] <= top && Clear(live[bp := u], fl[j], s[fl[j]])
    {
      assert Clear(live, fl[j], size[fl[j]]);
      assert j > i ==> fl[i] + size[fl[i]] <= fl[j];
      assert j < i ==> fl[j] + size[fl[j]] <= fl[i];
    }
  }

  lemma SplitTouch(size: map<nat, nat>, fl: seq<nat>, i: int, u: nat, j: int)
    requires Sorted(size, fl) && 1 <= i < |fl| && 1 <= u < size[fl[i]] && fl[i] + (size[fl[i]] - u) !in fl && !Touch(size, fl, j)
    ensures !Touch(SplitSizes(size, fl[i], u), fl, j)
  {
    if 0 <= j && j + 1 < |fl| {
      assert j != i ==> fl[j] != fl[i];
      assert j == i ==> fl[i] + size[fl[i]] <= fl[j + 1];
    }
  }

  /** The last u units of a larger block become a block of their own. */
  lemma SplitKeeps(next: map<nat, nat>, size: map<nat, nat>, base: nat, fl: seq<nat>,
                   live: map<nat, nat>, got: set<nat>, top: nat, i: int, u: nat)
    requires Heaped(next, size, base, fl, live, got, top) && NoTouch(size, fl) && 1 <= i < |fl| && fl[i] in size && 1 <= u < size[fl[i]]
    ensures fl[i] + (size[fl[i]] - u) !in live
    ensures Heaped(next, SplitSizes(size, fl[i], u), base, fl, live[fl[i] + (size[fl[i]] - u) := u], got, top)
    ensures NoTouch(SplitSizes(size, fl[i], u), fl)
  {
    SplitApart(size, base, fl, live, top, i, u);
    assert base < fl[i];
    var s := SplitSizes(size, fl[i], u);
    var live' := live[fl[i] + (size[fl[i]] - u) := u];
    forall x: nat
      ensures InFree(s, fl, x) || InLive(live', x) <==> InFree(size, fl, x) || InLive(live, x)
    {
      SplitUnits(size, fl, live, i, u, x);
    }
    hide Circle, InFree, InLive, Held, Touch;
    SplitSorted(size, base, fl, live, top, i, u);
    SplitHeld(size, base, fl, live, top, i, u);
    forall j
      ensures !Touch(s, fl, j)
    {
      SplitTouch(size, fl, i, u, j);
    }
  }

  lemma SplitUnits(size: map<nat, nat>, fl: seq<nat>, live: map<nat, nat>, i: int, u: nat, x: nat)
    requires 0 <= i < |fl| && fl[i] in size && 1 <= u < size[fl[i]] && forall j, k | 0 <= j < k < |fl| :: fl[j] < fl[k]
    requires var bp := fl[i] + (size[fl[i]] - u); bp !in live && bp !in fl
    ensures InFree(SplitSizes(size, fl[i], u), fl, x) || InLive(live[fl[i] + (size[fl[i]] - u) := u], x)
            <==> InFree(size, fl, x) || InLive(live, x)
  {
    var bp := fl[i] + (size[fl[i]] - u);
    var s, live' := SplitSizes(size, fl[i], u), live[bp := u];
    if j :| 0 <= j < |fl| && fl[j] in size && fl[j] <= x < fl[j] + size[fl[j]] {
      if j == i && x >= bp {
        assert bp in live' && bp <= x < bp + live'[bp];
      } else {
        assert fl[j] in s && fl[j] <= x < fl[j] + s[fl[j]];
      }
    }
    if j :| 0 <= j < |fl| && fl[j] in s && fl[j] <= x < fl[j] + s[fl[j]] {
      assert fl[j] in size && fl[j] <= x < fl[j] + size[fl[j]];
    }
    if a :| a in live && a <= x < a + live[a] {
      assert a in live' && a <= x < a + live'[a];
    }
    if a :| a in live' && a <= x < a + live'[a] {
      if a == bp {
        assert fl[i] <= x < fl[i] + size[fl[i]];
      } else {
        assert a in live && a <= x < a + live[a];
      }
    }
  }

  predicate InRegion(x: nat, a: nat, u: nat) {
    a <= x < a + u
  }

  function Region(a: nat, u: nat): set<nat> {
    set x: nat | x < a + u && InRegion(x, a, u)
  }

  lemma GrowSorted(size: map<nat, nat>, base: nat, fl: seq<nat>, live: map<nat, nat>, top: nat, a: nat, u: nat)
    requires Sorted(size, fl) && Held(size, base, fl, live, top) && a >= top && u >= 1 && fl != [] && fl[0] == base
    ensures a !in live && a !in fl
    ensures Sorted(size[a := u], fl) && Held(size[a := u], base, fl, live[a := u], a + u)
  {
    forall i | 0 <= i < |fl|
      ensures fl[i] < a
    {
      assert fl[i] + size[fl[i]] <= top;
      assert i > 0 ==> size[fl[i]] >= 1;
    }
  }

  lemma GrowUnits(size: map<nat, nat>, fl: seq<nat>, live: map<nat, nat>, a: nat, u: nat, x: nat)
    requires a !in live && a !in fl
    ensures InFree(size[a := u], fl, x) <==> InFree(size, fl, x)
    ensures InLive(live[a := u], x) <==> InLive(live, x) || InRegion(x, a, u)
  {
    var s, live' := size[a := u], live[a := u];
    if i :| 0 <= i < |fl| && fl[i] in size && fl[i] <= x < fl[i] + size[fl[i]] {
      assert fl[i] in s && fl[i] <= x < fl[i] + s[fl[i]];
    }
    if i :| 0 <= i < |fl| && fl[i] in s && fl[i] <= x < fl[i] + s[fl[i]] {
      assert fl[i] in size && fl[i] <= x < fl[i] + size[fl[i]];
    }
    if b :| b in live && b <= x < b + live[b] {
      assert b in live' && b <= x < b + live'[b];
    }
    if b :| b in live' && b <= x < b + live'[b] {
      if b != a {
        assert b in live && b <= x < b + live[b];
      }
    }
    if InRegion(x, a, u) {
      assert a in live' && a <= x < a + live'[a];
    }
  }

  /** Memory from sbrk, above everything else, is first a held block. */
  lemma GrowKeeps(next: map<nat, nat>, size: map<nat, nat>, base: nat, fl: seq<nat>,
                  live: map<nat, nat>, got: set<nat>, top: nat, a: nat, u: nat)
    requires Heaped(next, size, base, fl, live, got, top) && a >= top && u >= 1 && NoTouch(size, fl)
    ensures Heaped(next, size[a := u], base, fl, live[a := u], got + Region(a, u), a + u)
    ensures a !in live && NoTouch(size[a := u], fl)
  {
    hide Circle, InFree, InLive;
    GrowSorted(size, base, fl, live, top, a, u);
    var s := size[a := u];
    forall j
      ensures !Touch(s, fl, j)
    {
      assert !Touch(size, fl, j);
    }
    hide Held, Touch;
    forall x: nat
      ensures x in got + Region(a, u) <==> InFree(size[a := u], fl, x) || InLive(live[a := u], x)
    {
      GrowUnits(size, fl, live, a, u, x);
    }
  }

  // ----- free -----

  lemma HeapedAt(next: map<nat, nat>, size: map<nat, nat>, base: nat, fl: seq<nat>,
                 live: map<nat, nat>, got: set<nat>, top: nat, i: int)
    requires Heaped(next, size, base, fl, live, got, top) && 0 <= i < |fl|
    ensures fl[i] in next && fl[i] in size && next[fl[i]] == fl[Succ(i, |fl|)]
  {
    assert Linked(next, fl, i);
  }

  lemma MergeOrNot(next: map<nat, nat>, size: map<nat, nat>, base: nat, fl: seq<nat>,
                   live: map<nat, nat>, got: set<nat>, top: nat, i: int)
    returns (n: map<nat, nat>, s: map<nat, nat>, r: seq<nat>)
    requires Heaped(next, size, base, fl, live, got, top) && 0 <= i < |fl| && fl[i] in next && fl[i] in size
    ensures Heaped(n, s, base, r, live, got, top)
    ensures if Touch(size, fl, i) then
              && fl[i + 1] in next && fl[i + 1] in size && r == Without(fl, i + 1)
              && n == next[fl[i] := next[fl[i + 1]]] && s == MergedSizes(size, fl[i], fl[i + 1])
            else n == next && s == size && r == fl
    ensures forall j | Touch(s, r, j) :: Touch(size, fl, if j < i || !Touch(size, fl, i) then j else j + 1)
  {
    n, s, r := next, size, fl;
    if Touch(size, fl, i) {
      assert Sorted(size, fl);
      MergeKeeps(next, size, base, fl, live, got, top, i);
      n, s, r := next[fl[i] := next[fl[i + 1]]], MergedSizes(size, fl[i], fl[i + 1]), Without(fl, i + 1);
      hide Heaped, Sorted, Touch;
      forall j | Touch(s, r, j)
        ensures Touch(size, fl, if j < i then j else j + 1)
      {
        MergeTouch(size, fl, i, j);
      }
    }
  }

  /** What free does to the headers once the place of bp, after p, is known. */
  ghost predicate Coalesced(next: map<nat, nat>, size: map<nat, nat>, p: nat, bp: nat, n2: map<nat, nat>, s2: map<nat, nat>) {
    && p in next && p in size && bp in size && next[p] in next && next[p] in size
    && var q := next[p];
       var n1, s1 := if bp + size[bp] == q then next[bp := next[q]] else next[bp := q],
                     if bp + size[bp] == q then size[bp := size[bp] + size[q]] else size;
       if p + s1[p] == bp then n2 == n1[p := n1[bp]] && s2 == s1[p := s1[p] + s1[bp]]
       else n2 == n1[p := bp] && s2 == s1
  }

  /** bp is on the list at place e + 1. */
  ghost predicate Placed(fl: seq<nat>, e: int, p: nat, bp: nat) {
    0 <= e && e + 1 < |fl| && fl[e] == p && fl[e + 1] == bp
  }

  lemma OnlyAround(size: map<nat, nat>, fl: seq<nat>, e: int, bp: nat)
    requires NoTouch(size, fl) && 0 <= e < |fl|
    ensures forall j | Touch(size, Inserted(fl, e, bp), j) :: j == e || j == e + 1
  {
    forall j | Touch(size, Inserted(fl, e, bp), j)
      ensures j == e || j == e + 1
    {
      InsertTouch(size, fl, e, bp, j);
      assert !Touch(size, fl, j) && !Touch(size, fl, j - 1);
    }
  }

  lemma Neighbours(next: map<nat, nat>, size: map<nat, nat>, base: nat, fl: seq<nat>,
                   live: map<nat, nat>, got: set<nat>, top: nat, e: int, bp: nat)
    requires Heaped(next, size, base, fl, live, got, top) && bp in live && Before(fl, bp, e)
    ensures bp in size && fl[e] in next && next[fl[e]] in next && next[fl[e]] in size
    ensures Inserted(fl, e, bp)[e] == fl[e] && Inserted(fl, e, bp)[e + 1] == bp
    ensures bp + size[bp] == next[fl[e]] <==> Touch(size, Inserted(fl, e, bp), e + 1)
    ensures Touch(size, Inserted(fl, e, bp), e + 1) ==> next[fl[e]] == Inserted(fl, e, bp)[e + 2] && fl[e] < next[fl[e]]
  {
    hide Cover, Circle;
    HeapedAt(next, size, base, fl, live, got, top, e);
    HeapedAt(next, size, base, fl, live, got, top, Succ(e, |fl|));
    var q := next[fl[e]];
    if e + 1 == |fl| {
      assert q == base && fl[0] <= fl[e];
    } else {
      InsertedAt(fl, e, bp, e + 2);
    }
  }

  /** First half: bp is entered after fl[e] and merges with the block above. */
  lemma FreeUpper(next: map<nat, nat>, size: map<nat, nat>, base: nat, fl: seq<nat>,
                  live: map<nat, nat>, got: set<nat>, top: nat, e: int, bp: nat)
    returns (n: map<nat, nat>, s: map<nat, nat>, r: seq<nat>)
    requires Heaped(next, size, base, fl, live, got, top) && NoTouch(size, fl) && bp in live && Before(fl, bp, e)
    ensures bp in size && fl[e] in next && next[fl[e]] in next && next[fl[e]] in size
    ensures Heaped(n, s, base, r, live - {bp}, got, top) && Placed(r, e, fl[e], bp)
    ensures forall j | Touch(s, r, j) :: j == e
    ensures var q := next[fl[e]];
      if bp + size[bp] == q then q != fl[e] && n == next[fl[e] := bp][bp := next[q]] && s == MergedSizes(size, bp, q)
      else n == next[fl[e] := bp][bp := q] && s == size
  {
    Neighbours(next, size, base, fl, live, got, top, e, bp);
    InsertKeeps(next, size, base, fl, live, got, top, e, bp);
    hide Heaped, Touch;
    var a, na := Inserted(fl, e, bp), next[fl[e] := bp][bp := next[fl[e]]];
    OnlyAround(size, fl, e, bp);
    var q := next[fl[e]];
    n, s, r := MergeOrNot(na, size, base, a, live - {bp}, got, top, e + 1);
    if Touch(size, a, e + 1) {
      WithoutAt(a, e + 2, e);
      WithoutAt(a, e + 2, e + 1);
      assert n == next[fl[e] := bp][bp := next[q]];
    }
  }

  /** The freed block joins the list and merges with its neighbours. */
  lemma FreeKeeps(next: map<nat, nat>, size: map<nat, nat>, base: nat, fl: seq<nat>,
                  live: map<nat, nat>, got: set<nat>, top: nat, e: int, bp: nat,
                  n2: map<nat, nat>, s2: map<nat, nat>) returns (r: seq<nat>)
    requires Heaped(next, size, base, fl, live, got, top) && NoTouch(size, fl)
    requires bp in live && Before(fl, bp, e) && Coalesced(next, size, fl[e], bp, n2, s2)
    ensures Heaped(n2, s2, base, r, live - {bp}, got, top) && NoTouch(s2, r) && fl[e] in r
    ensures bp in size && Within(s2, r, bp, size[bp])
  {
    hide Heaped, Touch;
    var p := fl[e];
    var n1, s1, b := FreeUpper(next, size, base, fl, live, got, top, e, bp);
    HeapedAt(n1, s1, base, b, live - {bp}, got, top, e);
    assert p + s1[p] == bp <==> Touch(s1, b, e) by {
      TouchIs(s1, b, e);
    }
    var n, s;
    n, s, r := MergeOrNot(n1, s1, base, b, live - {bp}, got, top, e);
    assert n == n2 && s == s2;
    assert r[e] == p;
    if Touch(s1, b, e) {
      assert Spans(s2, r, e, bp, size[bp]);
    } else {
      assert Spans(s2, r, e + 1, bp, size[bp]);
    }
    assert forall j | Touch(s2, r, j) :: Touch(s1, b, if j < e || !Touch(s1, b, e) then j else j + 1);
  }

  /** The u units from a on lie in free block i. */
  ghost predicate Spans(size: map<nat, nat>, fl: seq<nat>, i: int, a: nat, u: nat) {
    0 <= i < |fl| && fl[i] in size && fl[i] <= a && a + u <= fl[i] + size[fl[i]]
  }

  /** ... in one free block. */
  ghost predicate Within(size: map<nat, nat>, fl: seq<nat>, a: nat, u: nat) {
    exists i :: Spans(size, fl, i, a, u)
  }

  lemma TouchIs(size: map<nat, nat>, fl: seq<nat>, i: int)
    requires 0 <= i && i + 1 < |fl| && fl[i] in size
    ensures Touch(size, fl, i) <==> fl[i] + size[fl[i]] == fl[i + 1]
  {
  }

  // ----- searching -----

  function Dist(j: int, k: int, n: int): int {
    if j <= k then k - j else k - j + n
  }

  /** free's search: its two exit tests hold exactly at the block before bp. */
  lemma SearchStep(next: map<nat, nat>, size: map<nat, nat>, base: nat, fl: seq<nat>, live: map<nat, nat>, got: set<nat>, top: nat,
                   bp: nat, e: int, j: int)
    requires Heaped(next, size, base, fl, live, got, top) && Before(fl, bp, e) && 0 <= j < |fl|
    ensures fl[j] in next && next[fl[j]] == fl[Succ(j, |fl|)]
    ensures var p, q := fl[j], fl[Succ(j, |fl|)];
      (bp > p && bp < q) || (p >= q && (bp > p || bp < q)) <==> j == e
  {
    hide Cover, Held, Circle;
    HeapedAt(next, size, base, fl, live, got, top, j);
    assert j < e ==> fl[j + 1] <= fl[e];
    assert j > e ==> fl[e + 1] <= fl[j];
    assert j > 0 ==> fl[0] < fl[j];
  }

  lemma HasBefore(next: map<nat, nat>, size: map<nat, nat>, base: nat, fl: seq<nat>, live: map<nat, nat>, got: set<nat>, top: nat, bp: nat)
    returns (e: int)
    requires Heaped(next, size, base, fl, live, got, top) && bp in live
    ensures Before(fl, bp, e)
  {
    hide Cover, Circle;
    forall i | 0 <= i < |fl|
      ensures fl[i] != bp
    {
      assert Clear(live, fl[i], size[fl[i]]);
      assert i > 0 ==> size[fl[i]] >= 1;
    }
    e := SomeBefore(fl, bp);
  }

  /** Block i is met after block k and before block j is reached. */
  predicate Passed(k: int, j: int, i: int) {
    if k < j then k < i < j else i > k || i < j
  }

  ghost predicate Small(size: map<nat, nat>, fl: seq<nat>, i: int, u: nat) {
    0 <= i < |fl| && fl[i] in size && size[fl[i]] < u
  }

  ghost predicate Fit(size: map<nat, nat>, fl: seq<nat>, i: int, u: nat) {
    0 <= i < |fl| && fl[i] in size && size[fl[i]] >= u
  }

  ghost predicate Fits(size: map<nat, nat>, fl: seq<nat>, u: nat) {
    exists i :: Fit(size, fl, i, u)
  }

  /** Every block met after block k and before block j is too small. */
  ghost predicate Scanned(size: map<nat, nat>, fl: seq<nat>, k: int, j: int, u: nat) {
    && 0 <= k < |fl| && 0 <= j < |fl|
    && forall i | 0 <= i < |fl| && Passed(k, j, i) :: Small(size, fl, i, u)
  }

  lemma ScanStart(size: map<nat, nat>, fl: seq<nat>, k: int, u: nat)
    requires 0 <= k < |fl|
    ensures Scanned(size, fl, k, Succ(k, |fl|), u)
  {
  }

  lemma ScanStep(size: map<nat, nat>, fl: seq<nat>, k: int, j: int, u: nat)
    requires Scanned(size, fl, k, j, u) && Small(size, fl, j, u)
    ensures j != k ==> Scanned(size, fl, k, Succ(j, |fl|), u) && Dist(Succ(j, |fl|), k, |fl|) == Dist(j, k, |fl|) - 1
    ensures j == k ==> !Fits(size, fl, u)
  {
    if j == k {
      forall i
        ensures !Fit(size, fl, i, u)
      {
        assert 0 <= i < |fl| && i != k ==> Passed(k, j, i) && Small(size, fl, i, u);
      }
    } else {
      forall i | 0 <= i < |fl| && Passed(k, Succ(j, |fl|), i)
        ensures Small(size, fl, i, u)
      {
        assert i != j ==> Passed(k, j, i);
      }
    }
  }

  /** malloc's choice: the first block after the one at freep, in circular order,
      that is large enough; its last u units, at bp. */
  ghost predicate FirstFit(size: map<nat, nat>, fl: seq<nat>, freep: nat, u: nat, bp: nat) {
    exists k, j :: Scanned(size, fl, k, j, u) && fl[k] == freep && Fit(size, fl, j, u) && bp == fl[j] + (size[fl[j]] - u)
  }

  // ----- requests -----

  /** Blocks for nbytes bytes with their header. */
  function Units(nbytes: nat): nat {
    (nbytes + HEADER - 1) / HEADER + 1
  }

  function CoreUnits(nu: nat): nat {
    if nu < 4096 then 4096 else nu
  }

  /** A value passed as a C int. */
  function IntArg(n: nat): int {
    var low := n % 0x1_0000_0000;
    if low < 0x8000_0000 then low else low - 0x1_0000_0000
  }

  const MAXREQUEST := 0x7FFF_FFE0

  /** The block has room for the bytes asked for, with less than one unit to
      spare; and sbrk's int parameter receives the number of bytes meant
      exactly when the request is at most MAXREQUEST. */
  lemma RequestSize(nbytes: nat)
    requires nbytes < 0x1_0000_0000
    ensures nbytes <= (Units(nbytes) - 1) * HEADER < nbytes + HEADER
    ensures IntArg(CoreUnits(Units(nbytes)) * HEADER) == CoreUnits(Units(nbytes)) * HEADER <==> nbytes <= MAXREQUEST
  {
    var u := CoreUnits(Units(nbytes)) * HEADER;
    assert u < 0x1_0000_0000 + 2 * HEADER;
    if u >= 0x1_0000_0000 {
      assert u % 0x1_0000_0000 == u - 0x1_0000_0000;
    }
  }

  /** freep is the free block before the place at q: what is left of the block
      that q was cut from comes next, or else the free block beyond q, perhaps
      round the end of the list. The next search goes on from there. */
  predicate SearchGoesOn(next: map<nat, nat>, size: map<nat, nat>, freep: nat, q: nat) {
    && freep in next && freep < q
    && var n := next[freep];
      (n in size && n + size[n] == q) || q < n || n <= freep
  }

  lemma TakenBetween(next: map<nat, nat>, size: map<nat, nat>, base: nat, fl: seq<nat>, live: map<nat, nat>, got: set<nat>, top: nat, i: int)
    requires Heaped(next, size, base, fl, live, got, top) && 0 <= i < |fl| && Succ(i, |fl|) >= 1
    ensures var j := Succ(i, |fl|);
      && fl[i] < fl[j] && fl[i] in next && fl[j] in next && next[fl[i]] == fl[j]
      && (fl[j] < next[fl[j]] || next[fl[j]] <= fl[i])
  {
    var j := Succ(i, |fl|);
    HeapedAt(next, size, base, fl, live, got, top, i);
    HeapedAt(next, size, base, fl, live, got, top, j);
  }

  class Heap {
    const base: nat // address of the zero-sized first block
    var next: map<nat, nat>
    var size: map<nat, nat>
    var freep: nat // 0 until the first malloc
    ghost var fl: seq<nat> // the free list
    ghost var live: map<nat, nat> // blocks in callers' hands
    ghost var got: set<nat> // units obtained from sbrk
    ghost var top: nat // end of the highest of them

    ghost predicate Valid()
      reads this
    {
      && 0 < base < top
      && (freep == 0 ==> fl == [] && live == map[] && got == {})
      && (freep != 0 ==> Heaped(next, size, base, fl, live, got, top) && NoTouch(size, fl) && freep in fl)
    }

    constructor (b: nat, t: nat)
      requires 0 < b < t
      ensures Valid() && base == b && top == t && live == map[] && got == {}
    {
      base := b;
      next, size, freep := map[], map[], 0;
      fl, live, got, top := [], map[], {}, t;
    }

    /** free's search loop: it ends at the free block before bp. */
    method Search(bp: nat) returns (p: nat, ghost e: int)
      requires Valid() && bp in live
      ensures Before(fl, bp, e) && p == fl[e]
      ensures p in next && p < bp && (bp < next[p] || next[p] <= p)
    {
      hide Heaped, Before;
      p := freep;
      e := HasBefore(next, size, base, fl, live, got, top, bp);
      InRange(fl, bp, e);
      ghost var j :| 0 <= j < |fl| && fl[j] == freep;
      SearchStep(next, size, base, fl, live, got, top, bp, e, j);
      while !(bp > p && bp < next[p])
        invariant 0 <= j < |fl| && p == fl[j] && p in next && next[p] == fl[Succ(j, |fl|)]
        decreases Dist(j, e, |fl|)
      {
        SearchStep(next, size, base, fl, live, got, top, bp, e, j);
        if p >= next[p] && (bp > p || bp < next[p]) {
          break;
        }
        p := next[p];
        j := Succ(j, |fl|);
        SearchStep(next, size, base, fl, live, got, top, bp, e, j);
      }
      SearchStep(next, size, base, fl, live, got, top, bp, e, j);
    }

    /** free: the block goes back to the free list, in address order and merged
        with its free neighbours. */
    method Free(ap: nat)
      requires Valid() && ap >= 1 && ap - 1 in live
      modifies this
      ensures Valid() && freep != 0 && live == old(live) - {ap - 1} && got == old(got) && top == old(top)
      ensures Within(size, fl, ap - 1, old(live)[ap - 1])
      ensures freep in next && freep in size && freep < ap - 1 && (ap - 1 < freep + size[freep] || next[freep] == ap - 1)
    {
      hide Heaped, Within, Before, Touch, NoTouch;
      var bp: nat := ap - 1;
      var p;
      ghost var e;
      p, e := Search(bp);
      InRange(fl, bp, e);
      LiveSize(next, size, base, fl, live, got, top, bp);
      HeapedAt(next, size, base, fl, live, got, top, e);
      HeapedAt(next, size, base, fl, live, got, top, Succ(e, |fl|));
      ghost var n0, s0 := next, size;
      if bp + size[bp] == next[p] {
        size := size[bp := size[bp] + size[next[p]]];
        next := next[bp := next[next[p]]];
      } else {
        next := next[bp := next[p]];
      }
      if p + size[p] == bp {
        size := size[p := size[p] + size[bp]];
        next := next[p := next[bp]];
      } else {
        next := next[p := bp];
      }
      assert Coalesced(n0, s0, p, bp, next, size);
      fl := FreeKeeps(n0, s0, base, fl, live, got, top, e, bp, next, size);
      live := live - {bp};
      freep := p;
    }

    /** morecore: at least 4096 units from sbrk join the free list in one block;
        grant is where sbrk puts them, 0 if it refuses. */
    method Morecore(nu: nat, grant: nat) returns (p: nat)
      requires Valid() && freep != 0 && nu >= 1 && (grant == 0 || grant >= top)
      requires IntArg(CoreUnits(nu) * HEADER) == CoreUnits(nu) * HEADER
      modifies this
      ensures Valid() && freep != 0 && live == old(live)
      ensures p == if grant == 0 then 0 else freep
      ensures grant == 0 ==> next == old(next) && size == old(size) && freep == old(freep) && fl == old(fl) && got == old(got) && top == old(top)
      ensures grant != 0 ==> got == old(got) + Region(grant, CoreUnits(nu)) && top == grant + CoreUnits(nu)
      ensures grant != 0 ==> Fits(size, fl, nu)
    {
      hide Heaped, Within, Touch, NoTouch, Fits, IntArg;
      var n := if nu < 4096 then 4096 else nu;
      if grant == 0 {
        return 0;
      }
      GrowKeeps(next, size, base, fl, live, got, top, grant, n);
      size := size[grant := n];
      live := live[grant := n];
      got := got + Region(grant, n);
      top := grant + n;
      Free(grant + 1);
      assert live == old(live);
      WithinFits(size, fl, grant, n, nu);
      p := freep;
    }

    /** malloc: the first block after freep that is large enough, in circular
        order, gives its last units; only when no free block is large enough is
        more memory asked for, once; and only if that is refused is the answer
        null, with nothing changed. The header precedes the address returned. */
    method Malloc(nbytes: nat, grant: nat) returns (r: nat, asked: bool)
      requires Valid() && nbytes < 0x1_0000_0000 && (grant == 0 || grant >= top)
      requires Fits(size, fl, Units(nbytes)) || nbytes <= MAXREQUEST
      modifies this
      ensures Valid() && freep != 0
      ensures asked <==> !Fits(old(size), old(fl), Units(nbytes))
      ensures r == 0 <==> asked && grant == 0
      ensures r == 0 ==> live == old(live)
      ensures r != 0 ==> r - 1 !in old(live) && live == old(live)[r - 1 := Units(nbytes)]
      ensures if r != 0 && asked then got == old(got) + Region(grant, CoreUnits(Units(nbytes))) && top == grant + CoreUnits(Units(nbytes))
              else got == old(got) && top == old(top)
      ensures !asked ==> FirstFit(old(size), old(fl), old(freep), Units(nbytes), r - 1)
      ensures r != 0 ==> SearchGoesOn(next, size, freep, r - 1)
    {
      hide Heaped, Touch, NoTouch, Small, Fits, Scanned, FirstFit, IntArg, SplitSizes;
      var u := Units(nbytes);
      asked := false;
      if freep == 0 {
        Started(next, size, base, top, u);
        next := next[base := base];
        freep := base;
        size := size[base := 0];
        fl := [base];
      }
      ghost var s0, f0, k0 := size, fl, freep;
      var prevp := freep;
      ghost var k :| 0 <= k < |fl| && fl[k] == freep;
      ghost var i := k;
      HeapedAt(next, size, base, fl, live, got, top, k);
      var p := next[prevp];
      ScanStart(size, fl, k, u);
      RequestSize(nbytes);
      while true
        invariant Valid() && freep != 0 && live == old(live)
        invariant 0 <= k < |fl| && 0 <= i < |fl| && fl[k] == freep && fl[i] == prevp && p == fl[Succ(i, |fl|)]
        invariant Scanned(size, fl, k, Succ(i, |fl|), u)
        invariant asked ==> Fits(size, fl, u) && grant != 0 && !Fits(old(size), old(fl), u)
        invariant asked ==> got == old(got) + Region(grant, CoreUnits(u)) && top == grant + CoreUnits(u)
        invariant !asked ==> size == s0 && fl == f0 && freep == k0 && got == old(got) && top == old(top)
        decreases if asked then 0 else 1, Dist(Succ(i, |fl|), k, |fl|)
      {
        ghost var j := Succ(i, |fl|);
        HeapedAt(next, size, base, fl, live, got, top, j);
        if size[p] >= u {
          break;
        }
        ScanStep(size, fl, k, j, u) by {
          IsSmall(size, fl, j, u);
        }
        if p == freep {
          SamePlace(next, size, base, fl, live, got, top, j, k);
          asked := true;
          p := Morecore(u, grant);
          if p == 0 {
            return 0, asked;
          }
          k :| 0 <= k < |fl| && fl[k] == freep;
          j := k;
          ScanStart(size, fl, k, u);
        }
        HeapedAt(next, size, base, fl, live, got, top, j);
        prevp := p;
        p := next[p];
        i := j;
      }
      Chosen(size, fl, k, Succ(i, |fl|), u);
      r := Take(prevp, p, u, i);
    }

    /** malloc takes u units from the free block p, which follows prevp. */
    method Take(prevp: nat, p: nat, u: nat, ghost i: int) returns (r: nat)
      requires Valid() && freep != 0 && 0 <= i < |fl| && prevp == fl[i] && p == fl[Succ(i, |fl|)]
      requires u >= 1 && p in size && size[p] >= u
      modifies this
      ensures Valid() && freep != 0 && got == old(got) && top == old(top)
      ensures r == p + (old(size)[p] - u) + 1 && r - 1 !in old(live) && live == old(live)[r - 1 := u]
      ensures freep == prevp && SearchGoesOn(next, size, freep, r - 1)
    {
      hide Heaped, Touch, NoTouch;
      ghost var j := Succ(i, |fl|);
      HeapedAt(next, size, base, fl, live, got, top, i);
      HeapedAt(next, size, base, fl, live, got, top, j);
      NotBase(next, size, base, fl, live, got, top, j);
      TakenBetween(next, size, base, fl, live, got, top, i);
      var q := p;
      if size[p] == u {
        UnlinkKeeps(next, size, base, fl, live, got, top, j);
        next := next[prevp := next[p]];
        ghost var rest := Without(fl, j);
        assert rest[i] == prevp;
        fl := rest;
      } else {
        SplitKeeps(next, size, base, fl, live, got, top, j, u);
        size := size[p := size[p] - u];
        q := q + size[p];
        size := size[q := u];
      }
      live := live[q := u];
      freep := prevp;
      return q + 1;
    }
  }

  lemma IsSmall(size: map<nat, nat>, fl: seq<nat>, i: int, u: nat)
    requires 0 <= i < |fl| && fl[i] in size && size[fl[i]] < u
    ensures Small(size, fl, i, u)
  {
  }

  lemma SamePlace(next: map<nat, nat>, size: map<nat, nat>, base: nat, fl: seq<nat>, live: map<nat, nat>, got: set<nat>, top: nat,
                  j: int, k: int)
    requires Heaped(next, size, base, fl, live, got, top) && 0 <= j < |fl| && 0 <= k < |fl|
    ensures fl[j] == fl[k] ==> j == k
  {
    hide Cover, Held, Circle;
    if j < k {
      assert fl[j] < fl[k];
    } else if k < j {
      assert fl[k] < fl[j];
    }
  }

  lemma Chosen(size: map<nat, nat>, fl: seq<nat>, k: int, j: int, u: nat)
    requires Scanned(size, fl, k, j, u) && Fit(size, fl, j, u)
    ensures Fits(size, fl, u) && FirstFit(size, fl, fl[k], u, fl[j] + (size[fl[j]] - u))
  {
  }

  /** Only the first block has no units. */
  lemma NotBase(next: map<nat, nat>, size: map<nat, nat>, base: nat, fl: seq<nat>, live: map<nat, nat>, got: set<nat>, top: nat, j: int)
    requires Heaped(next, size, base, fl, live, got, top) && 0 <= j < |fl| && fl[j] in size && size[fl[j]] >= 1
    ensures j >= 1 && forall i | 0 <= i < |fl| :: fl[i] >= base
  {
    assert forall i | 0 < i < |fl| :: fl[0] < fl[i];
  }

  lemma WithinFits(size: map<nat, nat>, fl: seq<nat>, a: nat, n: nat, u: nat)
    requires Within(size, fl, a, n) && u <= n
    ensures Fits(size, fl, u)
  {
    var i :| Spans(size, fl, i, a, n);
    assert Fit(size, fl, i, u);
  }

  /** The list of one block that the first malloc sets up. */
  lemma Started(next: map<nat, nat>, size: map<nat, nat>, base: nat, top: nat, u: nat)
    requires 0 < base < top && u >= 1
    ensures Heaped(next[base := base], size[base := 0], base, [base], map[], {}, top) && NoTouch(size[base := 0], [base])
    ensures !Fits(size[base := 0], [base], u) && !Fits(size, [], u)
  {
    assert Linked(next[base := base], [base], 0);
  }

  lemma InRange(fl: seq<nat>, a: nat, e: int)
    requires Before(fl, a, e)
    ensures 0 <= e < |fl| && fl[e] < a
  {
  }

  lemma LiveSize(next: map<nat, nat>, size: map<nat, nat>, base: nat, fl: seq<nat>, live: map<nat, nat>, got: set<nat>, top: nat, a: nat)
    requires Heaped(next, size, base, fl, live, got, top) && a in live
    ensures a in size && size[a] == live[a] >= 1 && base < a && (forall i | 0 <= i < |fl| :: fl[i] >= base)
  {
    assert forall i | 0 < i < |fl| :: fl[0] < fl[i];
  }

  // ----- the free list is determined by the free units -----

  /** A free block begins at unit a: a is free and no free block ends there or
      goes on across it. */
  lemma StartsAt(next: map<nat, nat>, size: map<nat, nat>, base: nat, fl: seq<nat>, a: nat)
    requires Ring(next, size, base, fl) && NoTouch(size, fl) && a >= 1
    ensures (exists i :: 1 <= i < |fl| && fl[i] == a) <==> InFree(size, fl, a) && !InFree(size, fl, a - 1)
  {
    if i :| 1 <= i < |fl| && fl[i] == a {
      assert fl[i] <= a < fl[i] + size[fl[i]];
      forall j | 0 <= j < |fl| && fl[j] in size && fl[j] <= a - 1 < fl[j] + size[fl[j]]
        ensures false
      {
        Abut(next, size, base, fl, j, i);
      }
    }
    if i :| 0 <= i < |fl| && fl[i] in size && fl[i] <= a < fl[i] + size[fl[i]] {
      assert fl[i] < a ==> fl[i] <= a - 1 < fl[i] + size[fl[i]];
    }
  }

  /** No block ends where another begins. */
  lemma Abut(next: map<nat, nat>, size: map<nat, nat>, base: nat, fl: seq<nat>, j: int, i: int)
    requires Ring(next, size, base, fl) && NoTouch(size, fl) && 0 <= j < |fl| && 0 <= i < |fl|
    requires size[fl[j]] >= 1
    ensures fl[j] + size[fl[j]] != fl[i]
  {
    hide Circle;
    if j + 1 < i {
      assert fl[j] + size[fl[j]] <= fl[j + 1] < fl[i];
    } else if i == j + 1 {
      assert !Touch(size, fl, j);
    } else if i < j {
      assert fl[i] < fl[j];
    }
  }

  lemma {:induction false} SameSorted(a: seq<nat>, b: seq<nat>)
    requires forall i, j | 0 <= i < j < |a| :: a[i] < a[j]
    requires forall i, j | 0 <= i < j < |b| :: b[i] < b[j]
    requires forall x: nat :: x in a <==> x in b
    ensures a == b
  {
    if a != [] {
      assert a[0] in b;
    }
    if b != [] {
      assert b[0] in a;
    }
    if a != [] && b != [] {
      var x, y := a[|a| - 1], b[|b| - 1];
      assert x in b && y in a;
      assert x == y;
      var c, d := a[..|a| - 1], b[..|b| - 1];
      forall z: nat
        ensures z in c <==> z in d
      {
        assert a == c + [x] && b == d + [y];
        assert z in c ==> z in a && z != x;
        assert z in d ==> z in b && z != y;
      }
      SameSorted(c, d);
      assert a == c + [x] && b == d + [y];
    }
  }

  /** Two heaps with the same free units have the same free list and sizes:
      coalescing leaves one list for each set of free units. */
  lemma FreeListIsCanonical(n1: map<nat, nat>, s1: map<nat, nat>, f1: seq<nat>,
                            n2: map<nat, nat>, s2: map<nat, nat>, f2: seq<nat>, base: nat)
    requires Ring(n1, s1, base, f1) && NoTouch(s1, f1) && Ring(n2, s2, base, f2) && NoTouch(s2, f2)
    requires forall x: nat :: InFree(s1, f1, x) <==> InFree(s2, f2, x)
    ensures f1 == f2 && forall i | 0 <= i < |f1| :: f1[i] in s1 && f1[i] in s2 && s1[f1[i]] == s2[f1[i]]
  {
    hide Circle;
    forall a: nat
      ensures a in f1 <==> a in f2
    {
      if a > base {
        StartsAt(n1, s1, base, f1, a);
        StartsAt(n2, s2, base, f2, a);
      }
      assert a in f1 && a != base ==> exists i :: 1 <= i < |f1| && f1[i] == a;
      assert a in f2 && a != base ==> exists i :: 1 <= i < |f2| && f2[i] == a;
      assert forall i | 0 < i < |f1| :: f1[0] < f1[i];
      assert forall i | 0 < i < |f2| :: f2[0] < f2[i];
    }
    SameSorted(f1, f2);
    forall i | 0 <= i < |f1|
      ensures s1[f1[i]] == s2[f1[i]]
    {
      if i > 0 {
        NotLonger(n1, s1, n2, s2, f1, base, i);
        NotLonger(n2, s2, n1, s1, f1, base, i);
      }
    }
  }

  lemma NotLonger(n1: map<nat, nat>, s1: map<nat, nat>, n2: map<nat, nat>, s2: map<nat, nat>, fl: seq<nat>, base: nat, i: int)
    requires Ring(n1, s1, base, fl) && Ring(n2, s2, base, fl) && 1 <= i < |fl|
    requires forall x: nat :: InFree(s2, fl, x) ==> InFree(s1, fl, x)
    ensures s2[fl[i]] <= s1[fl[i]]
  {
    hide Circle;
    var x := fl[i] + s1[fl[i]];
    forall j | 0 <= j < |fl| && s2[fl[i]] > s1[fl[i]]
      ensures !(fl[j] <= x < fl[j] + s1[fl[j]])
    {
      assert j < i ==> fl[j] + s1[fl[j]] <= fl[i];
      assert j > i ==> fl[i] + s2[fl[i]] <= fl[j];
    }
    assert s2[fl[i]] > s1[fl[i]] ==> fl[i] <= x < fl[i] + s2[fl[i]];
    assert s2[fl[i]] > s1[fl[i]] ==> InFree(s2, fl, x) && !InFree(s1, fl, x);
  }
}
