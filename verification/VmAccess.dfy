/** The page tables as the hardware walks them: Sv39 address translation, told
    from the words in memory, finds what the trees of VmSpec stand for. */
module VmAccess {
  import opened Pages
  import opened VmSpec

  // ----- the hardware's walk -----

  /** The entry that Sv39 translation ends with, 0 for a page fault on the way:
      three tables of 512 entries, indexed by nine bits of the address each; the
      low bit of an entry says that it is valid, bits 1 to 3 are clear in a
      pointer to the next table, whose page number stands above bit 10. */
  ghost function Sv39(m: Memory, root: nat, va: nat): nat {
    if root !in m then 0
    else
      var e2 := m[root][va / 0x4000_0000 % 512];
      var p1 := e2 / 1024 * 4096;
      if e2 % 2 == 0 || e2 / 2 % 8 != 0 || p1 !in m then 0
      else
        var e1 := m[p1][va / 0x20_0000 % 512];
        var p0 := e1 / 1024 * 4096;
        if e1 % 2 == 0 || e1 / 2 % 8 != 0 || p0 !in m then 0
        else
          var e0 := m[p0][va / 0x1000 % 512];
          if e0 % 2 == 0 then 0 else e0
  }

  /** A table of the tree, as its entry gives it. */
  lemma NodeOf(p: nat)
    requires p % PGSIZE == 0
    ensures var e := Pte(p, PTE_V); e % 2 == 1 && e / 2 % 8 == 0 && e / 1024 * 4096 == p
  {
    PteRoundTrip(p, PTE_V);
  }

  /** The hardware finds exactly the leaves of the tree. */
  lemma Sv39FindsLeaf(m: Memory, t: Tree, va: nat)
    requires WF(m, t) && va < MAXVA
    ensures Sv39(m, t.root, va) == if IsMapped(m, t, va / 4096) then Leaf(m, t, va / 4096) else 0
  {
    hide Pte, Unshared;
    IndicesOfPage(va);
    var v := va / 4096;
    var i2, i1 := PX(2, va), PX(1, va);
    assert Entry(m[t.root][i2], t.mid, i2);
    if i2 in t.mid {
      NodeOf(t.mid[i2]);
      assert Entry(m[t.mid[i2]][i1], t.low, i2 * 512 + i1);
      assert i2 * 512 + i1 == v / 512;
      if v / 512 in t.low {
        NodeOf(t.low[v / 512]);
      }
    } else {
      assert v / 512 / 512 == i2;
      assert v / 512 !in t.low;
    }
  }

  /** The entries the kernel stores, bit by bit: valid, read, write, execute and
      user are bits 0 to 4, the page number stands above bit 10. */
  lemma EntryBits(pa: nat)
    requires pa % 4096 == 0
    ensures Pte(pa, PTE_V) == pa / 4 + 0x1 // a lower table
    ensures Pte(pa, PTE_R + PTE_X + PTE_V) == pa / 4 + 0xB // the trampoline
    ensures Pte(pa, PTE_R + PTE_W + PTE_V) == pa / 4 + 0x7 // the trapframe
    ensures Pte(pa, PTE_R + PTE_W + PTE_U + PTE_V) == pa / 4 + 0x17 // memory from sbrk
    ensures Pte(pa, PTE_R + PTE_X + PTE_U + PTE_V) == pa / 4 + 0x1B // a program's text
  {
  }

  /** walkaddr answers the page that a user access to the address reaches. */
  lemma UserPageIsHardware(m: Memory, t: Tree, va: nat)
    requires WF(m, t)
    ensures UserPage(m, t, va) ==
            if va < MAXVA && Sv39(m, t.root, va) / 16 % 2 == 1 then Sv39(m, t.root, va) / 1024 * 4096 else 0
  {
    if va < MAXVA {
      Sv39FindsLeaf(m, t, va);
    }
  }
}
