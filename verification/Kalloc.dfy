/** The FIFO page allocator: free pages on a singly linked list threaded
    through their first word, with a tail pointer that means something only
    while the list is not empty. */
module Kalloc {
  import opened Pages

  /** The list from head runs through q and ends in the null pointer. */
  ghost predicate Chain(next: map<nat, nat>, head: nat, q: seq<nat>)
    decreases |q|
  {
    if q == [] then head == 0
    else head != 0 && head == q[0] && head in next && Chain(next, next[head], q[1..])
  }

  lemma {:induction false} ChainLinks(next: map<nat, nat>, head: nat, q: seq<nat>, i: nat)
    requires Chain(next, head, q) && i < |q|
    ensures q[i] != 0 && q[i] in next && next[q[i]] == if i + 1 < |q| then q[i + 1] else 0
    decreases |q|
  {
    if i > 0 {
      ChainLinks(next, next[head], q[1..], i - 1);
    } else {
      assert |q| > 1 ==> q[1..][0] == q[1];
    }
  }

  lemma {:induction false} ChainFrame(next: map<nat, nat>, head: nat, q: seq<nat>, p: nat, v: nat)
    requires Chain(next, head, q) && p !in q
    ensures Chain(next[p := v], head, q)
    decreases |q|
  {
    if q != [] {
      ChainFrame(next, next[head], q[1..], p, v);
    }
  }

  lemma {:induction false} ChainAppend(next: map<nat, nat>, head: nat, q: seq<nat>, p: nat)
    requires Chain(next, head, q) && q != [] && NoDup(q) && p !in q && p != 0 && p in next && next[p] == 0
    ensures Chain(next[q[|q| - 1] := p], head, q + [p])
    decreases |q|
  {
    var t := q[|q| - 1];
    assert (q + [p])[1..] == q[1..] + [p];
    if |q| == 1 {
      assert Chain(next[t := p], p, [p]);
    } else {
      assert q[1..][|q[1..]| - 1] == t;
      ChainAppend(next, next[head], q[1..], p);
    }
  }

  /** Following the links to the end, as freerange does, finds the last page. */
  lemma LastHasNoNext(next: map<nat, nat>, head: nat, q: seq<nat>, i: nat)
    requires Chain(next, head, q) && i < |q|
    ensures q[i] in next && (next[q[i]] == 0 <==> i == |q| - 1)
  {
    ChainLinks(next, head, q, i);
    if i + 1 < |q| {
      ChainLinks(next, head, q, i + 1);
    }
  }

  class Kmem {
    const end: nat // first address after the kernel
    var next: map<nat, nat> // the link word of each page
    var freelist: nat
    var tail: nat
    ghost var queue: seq<nat>

    constructor (end: nat)
      requires 0 < end
      ensures Valid() && queue == [] && this.end == end
    {
      this.end := end;
      next, freelist, tail, queue := map[], 0, 0, [];
    }

    ghost predicate Valid()
      reads this
    {
      && 0 < end && NoDup(queue) && Chain(next, freelist, queue)
      && (queue != [] ==> tail == queue[|queue| - 1])
      && forall i | 0 <= i < |queue| :: IsPage(queue[i])
    }

    /** kfree panics on anything else. */
    predicate IsPage(pa: nat) {
      pa % PGSIZE == 0 && end <= pa < PHYSTOP
    }

    /** kfree: the page goes to the back of the queue. */
    method Kfree(pa: nat)
      requires Valid() && IsPage(pa) && pa !in queue
      modifies this
      ensures Valid() && queue == old(queue) + [pa]
    {
      next := next[pa := 0];
      ChainFrame(old(next), freelist, queue, pa, 0);
      if freelist == 0 {
        freelist := pa;
      } else {
        ChainAppend(next, freelist, queue, pa);
        next := next[tail := pa];
      }
      tail := pa;
      queue := queue + [pa];
    }

    /** kalloc: the page freed longest ago, or 0 exactly when none is free. */
    method Kalloc() returns (r: nat)
      requires Valid()
      modifies this
      ensures Valid()
      ensures r == 0 <==> old(queue) == []
      ensures r == 0 ==> queue == old(queue)
      ensures r != 0 ==> r == old(queue)[0] && queue == old(queue)[1..]
    {
      r := freelist;
      if r != 0 {
        ghost var q := queue;
        freelist := next[r];
        queue := queue[1..];
        assert queue != [] ==> queue[|queue| - 1] == q[|q| - 1];
      }
    }

    /** freerange: every whole page of the range joins the queue, in address
        order, and walking to the end finds the tail again. */
    method Freerange(start: nat, stop: nat)
      requires Valid() && end <= start && stop <= PHYSTOP
      requires forall i | 0 <= i < |queue| :: !(start <= queue[i] < stop)
      modifies this
      ensures Valid() && queue == old(queue) + PagesFrom(PgRoundUp(start), stop)
    {
      hide Chain, NoDup;
      var p: nat := PgRoundUp(start);
      ghost var done: seq<nat> := [];
      assert old(queue) + done == old(queue) && done + PagesFrom(p, stop) == PagesFrom(p, stop);
      while p + PGSIZE <= stop
        invariant p % PGSIZE == 0 && PgRoundUp(start) <= p && Valid() && queue == old(queue) + done
        invariant done + PagesFrom(p, stop) == PagesFrom(PgRoundUp(start), stop)
        invariant forall i | 0 <= i < |done| :: done[i] < p
      {
        NotQueued(old(queue), done, start, stop, p);
        Kfree(p);
        assert queue == old(queue) + (done + [p]);
        NextPage(done, p, stop);
        done := done + [p];
        p := p + PGSIZE;
      }
      if freelist != 0 {
        tail := LastPage();
      }
    }

    /** The walk of freerange to the end of the list. */
    method LastPage() returns (r: nat)
      requires Valid() && freelist != 0
      ensures queue != [] && r == queue[|queue| - 1]
    {
      r := freelist;
      ghost var k: nat := 0;
      LastHasNoNext(next, freelist, queue, 0);
      while next[r] != 0
        invariant k < |queue| && r == queue[k] && r in next
        decreases |queue| - k
      {
        LastHasNoNext(next, freelist, queue, k);
        ChainLinks(next, freelist, queue, k);
        r := next[r];
        k := k + 1;
        LastHasNoNext(next, freelist, queue, k);
      }
      LastHasNoNext(next, freelist, queue, k);
    }
  }

  lemma NotQueued(q: seq<nat>, done: seq<nat>, start: nat, stop: nat, p: nat)
    requires (forall i | 0 <= i < |q| :: !(start <= q[i] < stop)) && (forall i | 0 <= i < |done| :: done[i] < p)
    requires start <= p < stop
    ensures p !in q + done
  {
  }

  lemma NextPage(done: seq<nat>, p: nat, stop: nat)
    requires p + PGSIZE <= stop
    ensures done + PagesFrom(p, stop) == done + [p] + PagesFrom(p + PGSIZE, stop)
  {
  }

  /** The whole pages of [p, stop), in address order. */
  function PagesFrom(p: nat, stop: nat): seq<nat>
    decreases stop - p
  {
    if p + PGSIZE <= stop then [p] + PagesFrom(p + PGSIZE, stop) else []
  }

  /** A page is given out of the range exactly when it lies whole in it. */
  lemma {:induction false} PagesFromExact(p: nat, stop: nat, x: nat)
    requires p % PGSIZE == 0
    ensures x in PagesFrom(p, stop) <==> x % PGSIZE == 0 && p <= x && x + PGSIZE <= stop
    decreases stop - p
  {
    if p + PGSIZE <= stop {
      PagesFromExact(p + PGSIZE, stop, x);
    }
  }

  // ----- whole runs -----

  datatype Op = Free(pa: nat) | Alloc

  /** One call of kfree or kalloc on the queue of free pages, as Kmem proves it. */
  function Step(q: seq<nat>, op: Op): seq<nat> {
    match op
    case Free(pa) => q + [pa]
    case Alloc => if q == [] then [] else q[1..]
  }

  function Given(q: seq<nat>, op: Op): seq<nat> {
    if op.Alloc? && q != [] then [q[0]] else []
  }

  function Final(q: seq<nat>, ops: seq<Op>): seq<nat>
    decreases |ops|
  {
    if ops == [] then q else Final(Step(q, ops[0]), ops[1..])
  }

  function AllGiven(q: seq<nat>, ops: seq<Op>): seq<nat>
    decreases |ops|
  {
    if ops == [] then [] else Given(q, ops[0]) + AllGiven(Step(q, ops[0]), ops[1..])
  }

  function AllFreed(ops: seq<Op>): seq<nat> {
    if ops == [] then [] else (if ops[0].Free? then [ops[0].pa] else []) + AllFreed(ops[1..])
  }

  /** FIFO over any run: the pages handed out, followed by those still free,
      are the initial queue followed by the pages freed, in the order freed. */
  lemma {:induction false} FifoRun(q: seq<nat>, ops: seq<Op>)
    ensures AllGiven(q, ops) + Final(q, ops) == q + AllFreed(ops)
    decreases |ops|
  {
    if ops != [] {
      var q1, freed := Step(q, ops[0]), if ops[0].Free? then [ops[0].pa] else [];
      FifoRun(q1, ops[1..]);
      assert Given(q, ops[0]) + q1 == q + freed;
      Regroup(Given(q, ops[0]), AllGiven(q1, ops[1..]), Final(q1, ops[1..]), q1, AllFreed(ops[1..]), q, freed);
    }
  }

  lemma Regroup(g: seq<nat>, a: seq<nat>, f: seq<nat>, q1: seq<nat>, r: seq<nat>, q: seq<nat>, p: seq<nat>)
    requires a + f == q1 + r && g + q1 == q + p
    ensures g + a + f == q + (p + r)
  {
    assert g + a + f == g + (a + f);
    assert g + (q1 + r) == (g + q1) + r;
    assert (q + p) + r == q + (p + r);
  }
}
