/** Physical pages, and lists of numbers without repetition. */
module Pages {
  const PGSIZE := 4096
  const PHYSTOP := 0x8800_0000 // KERNBASE + 128 MB

  function PgRoundUp(a: nat): nat {
    (a + PGSIZE - 1) / PGSIZE * PGSIZE
  }

  ghost predicate NoDup(q: seq<nat>) {
    forall i, j | 0 <= i < j < |q| :: q[i] != q[j]
  }
}
