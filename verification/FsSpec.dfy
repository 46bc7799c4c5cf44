/** The on-disk format of the file system as values: free bitmap, block map,
    ownership of blocks, and file contents. */
module FsSpec {
  import opened Blocks
  import opened LogSpec

  const NDIRECT := 12
  const NINDIRECT := 256
  const MAXFILE := 268 // NDIRECT + NINDIRECT
  const NSLOTS := 269 // 12 direct, the indirect pointer, 256 entries
  const BPB := 8192 // bitmap bits per block
  const IPB := 16 // inodes per block

  /** nmeta is the number of metadata blocks: everything up to the bitmap. */
  datatype Super = Super(size: nat, ninodes: nat, inodestart: nat, bmapstart: nat, nmeta: nat)

  ghost predicate Layout(sb: Super, n: nat) {
    && 0 < sb.nmeta <= sb.size == n <= 0x1_0000_0000
    && 0 < sb.inodestart && 0 < sb.ninodes
    && sb.inodestart + (sb.ninodes - 1) / IPB < sb.bmapstart
    && sb.bmapstart + (sb.size - 1) / BPB < sb.nmeta
  }

  // ----- bitmap -----

  /** Bit j of x, as x & (1 << j) tests it. */
  predicate ByteBit(x: nat, j: nat) {
    if j == 0 then x % 2 == 1 else ByteBit(x / 2, j - 1)
  }

  /** x with bit j set to v, as x |= 1 << j and x &= ~(1 << j) do. */
  function WithBit(x: nat, j: nat, v: bool): nat {
    if j == 0 then x / 2 * 2 + (if v then 1 else 0) else WithBit(x / 2, j - 1, v) * 2 + x % 2
  }

  lemma {:induction false} BitOfWith(x: nat, j: nat, v: bool, i: nat)
    ensures ByteBit(WithBit(x, j, v), i) == if i == j then v else ByteBit(x, i)
  {
    if j > 0 && i > 0 {
      BitOfWith(x / 2, j - 1, v, i - 1);
    }
  }

  ghost function Pow2(k: nat): nat {
    if k == 0 then 1 else 2 * Pow2(k - 1)
  }

  lemma {:induction false} WithBitFits(x: nat, j: nat, v: bool, k: nat)
    requires j < k && x < Pow2(k)
    ensures WithBit(x, j, v) < Pow2(k)
  {
    if j > 0 {
      WithBitFits(x / 2, j - 1, v, k - 1);
    }
  }

  predicate Bit(blk: Block, bi: nat)
    requires bi < BPB
  {
    ByteBit(blk[bi / 8], bi % 8)
  }

  function PutBit(blk: Block, bi: nat, v: bool): Block
    requires bi < BPB
  {
    assert Pow2(8) == 256 by {
      assert Pow2(4) == 16;
    }
    WithBitFits(blk[bi / 8], bi % 8, v, 8);
    blk[bi / 8 := WithBit(blk[bi / 8], bi % 8, v)]
  }

  lemma BitOfPut(blk: Block, bi: nat, v: bool, i: nat)
    requires bi < BPB && i < BPB
    ensures Bit(PutBit(blk, bi, v), i) == if i == bi then v else Bit(blk, i)
  {
    BitOfWith(blk[bi / 8], bi % 8, v, i % 8);
  }

  function BBlock(sb: Super, b: nat): nat {
    b / BPB + sb.bmapstart
  }

  predicate InBitmap(sb: Super, b: nat) {
    sb.bmapstart <= b < sb.nmeta
  }

  /** The allocation bit of block b. */
  predicate Used(v: DiskState, sb: Super, b: nat)
    requires Layout(sb, |v|) && b < sb.size
  {
    Bit(v[BBlock(sb, b)], b % BPB)
  }

  lemma LowBits(x: nat, j: nat)
    requires j < 4
    ensures ByteBit(x, j) <==> x / [1, 2, 4, 8][j] % 2 == 1
  {
    assert x / 2 / 2 == x / 4 && x / 4 / 2 == x / 8;
    if j == 3 {
      assert ByteBit(x, 3) == ByteBit(x / 2, 2) == ByteBit(x / 4, 1) == ByteBit(x / 8, 0);
    } else if j == 2 {
      assert ByteBit(x, 2) == ByteBit(x / 2, 1) == ByteBit(x / 4, 0);
    } else if j == 1 {
      assert ByteBit(x, 1) == ByteBit(x / 2, 0);
    }
  }

  lemma FourUp(x: nat, j: nat)
    ensures ByteBit(x, j + 4) == ByteBit(x / 16, j)
  {
    assert x / 2 / 2 / 2 / 2 == x / 16;
    assert ByteBit(x, j + 4) == ByteBit(x / 2, j + 3) == ByteBit(x / 2 / 2, j + 2) == ByteBit(x / 2 / 2 / 2, j + 1);
  }

  /** The eight bits of a byte, the least significant first. */
  lemma ByteBits(x: nat, j: nat)
    requires j < 8
    ensures ByteBit(x, j) <==> x / [1, 2, 4, 8, 16, 32, 64, 128][j] % 2 == 1
  {
    if j < 4 {
      LowBits(x, j);
    } else {
      hide ByteBit;
      FourUp(x, j - 4);
      LowBits(x / 16, j - 4);
      assert x / 16 / [1, 2, 4, 8][j - 4] == x / [16, 32, 64, 128][j - 4];
    }
  }

  /** The bit of block b: bit b % 8 of byte b / 8, counted through the bitmap. */
  lemma BitmapLayout(v: DiskState, sb: Super, b: nat)
    requires Layout(sb, |v|) && b < sb.size
    ensures sb.bmapstart + b / 8192 < |v|
    ensures Used(v, sb, b) <==>
            v[sb.bmapstart + b / 8192][b % 8192 / 8] / [1, 2, 4, 8, 16, 32, 64, 128][b % 8] % 2 == 1
  {
    LowDigit(b);
    var x: nat := v[BBlock(sb, b)][b % BPB / 8];
    assert Used(v, sb, b) == ByteBit(x, b % 8);
    ByteBits(x, b % 8);
  }

  lemma LowDigit(b: nat)
    ensures b % 8192 % 8 == b % 8
  {
    EightMore(1024 * (b / 8192), b % 8192);
  }

  lemma EightMore(k: nat, r: nat)
    ensures (8 * k + r) % 8 == r % 8
  {
  }

  function PutUsed(v: DiskState, sb: Super, b: nat, u: bool): DiskState
    requires Layout(sb, |v|) && b < sb.size
  {
    v[BBlock(sb, b) := PutBit(v[BBlock(sb, b)], b % BPB, u)]
  }

  lemma UsedOfPut(v: DiskState, sb: Super, b: nat, u: bool)
    requires Layout(sb, |v|) && b < sb.size
    ensures InBitmap(sb, BBlock(sb, b))
    ensures forall x: nat | x < sb.size :: Used(PutUsed(v, sb, b, u), sb, x) == if x == b then u else Used(v, sb, x)
  {
    forall x: nat | x < sb.size
      ensures Used(PutUsed(v, sb, b, u), sb, x) == if x == b then u else Used(v, sb, x)
    {
      BitOfPut(v[BBlock(sb, b)], b % BPB, u, x % BPB);
      assert x == x / BPB * BPB + x % BPB && b == b / BPB * BPB + b % BPB;
    }
  }

  // ----- block map -----

  /** The part of an inode that names blocks: size and the 13 addresses. */
  datatype Ino = Ino(size: nat, addrs: seq<nat>)

  ghost predicate ValidIno(i: Ino) {
    |i.addrs| == NDIRECT + 1 && forall k | 0 <= k <= NDIRECT :: i.addrs[k] < 0x1_0000_0000
  }

  /** The block named by a slot of an inode: 0..11 direct, 12 the indirect
      block itself, 13.. the entries of the indirect block; 0 when unmapped. */
  ghost function SlotBlock(v: DiskState, i: Ino, k: nat): nat
    requires ValidIno(i) && k < NSLOTS
  {
    if k <= NDIRECT then i.addrs[k]
    else if i.addrs[NDIRECT] == 0 || i.addrs[NDIRECT] >= |v| then 0
    else Word(v[i.addrs[NDIRECT]], k - NDIRECT - 1)
  }

  /** The slot of file block bn. */
  function DataSlot(bn: nat): nat {
    if bn < NDIRECT then bn else bn + 1
  }

  ghost predicate ValidTable(sb: Super, t: seq<Ino>) {
    |t| == sb.ninodes && forall j | 0 <= j < |t| :: ValidIno(t[j])
  }

  /** The bitmap against the inodes t: named blocks are allocated data blocks,
      no block is named twice, and an allocated block is metadata, named, or
      the one block `pend` an operation has just allocated (0 for none). */
  ghost predicate Own(v: DiskState, sb: Super, t: seq<Ino>, pend: nat) {
    && Layout(sb, |v|) && ValidTable(sb, t) && pend < sb.size
    && NamedUsed(v, sb, t)
    && NamedOnce(v, t)
    && (forall b: nat | b < sb.size :: Used(v, sb, b) <==>
          (b < sb.nmeta || Named(v, t, b) || (pend != 0 && b == pend)))
    && (pend != 0 ==> pend >= sb.nmeta && !Named(v, t, pend))
  }

  ghost predicate SlotIs(v: DiskState, t: seq<Ino>, j: nat, k: nat, b: nat) {
    j < |t| && k < NSLOTS && ValidIno(t[j]) && SlotBlock(v, t[j], k) == b
  }

  ghost predicate Named(v: DiskState, t: seq<Ino>, b: nat) {
    b != 0 && exists j: nat, k: nat :: SlotIs(v, t, j, k, b)
  }

  ghost predicate NamedUsed(v: DiskState, sb: Super, t: seq<Ino>)
    requires Layout(sb, |v|)
  {
    forall j: nat, k: nat, b: nat | SlotIs(v, t, j, k, b) && b != 0 :: sb.nmeta <= b < sb.size
  }

  ghost predicate NamedOnce(v: DiskState, t: seq<Ino>) {
    forall j: nat, k: nat, j2: nat, k2: nat, b: nat |
      SlotIs(v, t, j, k, b) && SlotIs(v, t, j2, k2, b) && b != 0 :: j == j2 && k == k2
  }

  /** Same slots, name for name. */
  ghost predicate SameSlots(v: DiskState, t: seq<Ino>, w: DiskState, u: seq<Ino>) {
    && |t| == |u|
    && forall j: nat, k: nat, b: nat :: SlotIs(v, t, j, k, b) <==> SlotIs(w, u, j, k, b)
  }

  /** Slots stay when the indirect blocks do. */
  lemma SlotsFrame(v: DiskState, t: seq<Ino>, w: DiskState)
    requires |v| == |w|
    requires forall j | 0 <= j < |t| :: ValidIno(t[j]) && (0 < t[j].addrs[NDIRECT] < |v| ==>
      w[t[j].addrs[NDIRECT]] == v[t[j].addrs[NDIRECT]])
    ensures SameSlots(v, t, w, t)
  {
    forall j: nat, k: nat, b: nat
      ensures SlotIs(v, t, j, k, b) <==> SlotIs(w, t, j, k, b)
    {
      if j < |t| && k < NSLOTS {
        assert SlotBlock(v, t[j], k) == SlotBlock(w, t[j], k);
      }
    }
  }

  lemma IndirectIsData(v: DiskState, sb: Super, t: seq<Ino>, pend: nat, j: nat)
    requires Own(v, sb, t, pend) && j < |t| && t[j].addrs[NDIRECT] != 0
    ensures var x := t[j].addrs[NDIRECT];
      && sb.nmeta <= x < sb.size && SlotIs(v, t, j, NDIRECT, x) && x != pend && Used(v, sb, x)
  {
    var x := t[j].addrs[NDIRECT];
    assert SlotIs(v, t, j, NDIRECT, x);
    assert Named(v, t, x);
  }

  /** Writing a metadata or an unnamed block leaves every slot alone. */
  lemma OtherWriteSlots(v: DiskState, sb: Super, t: seq<Ino>, pend: nat, b: nat, data: Block)
    requires Own(v, sb, t, pend) && b < sb.size
    requires forall j | 0 <= j < |t| :: t[j].addrs[NDIRECT] == 0 || t[j].addrs[NDIRECT] != b
    ensures SameSlots(v, t, v[b := data], t)
  {
    SlotsFrame(v, t, v[b := data]);
  }

  lemma SameNames(v: DiskState, t: seq<Ino>, w: DiskState, u: seq<Ino>, b: nat)
    requires SameSlots(v, t, w, u)
    ensures Named(v, t, b) <==> Named(w, u, b)
  {
    if Named(v, t, b) {
      var j: nat, k: nat :| SlotIs(v, t, j, k, b);
      assert SlotIs(w, u, j, k, b);
    }
    if Named(w, u, b) {
      var j: nat, k: nat :| SlotIs(w, u, j, k, b);
      assert SlotIs(v, t, j, k, b);
    }
  }

  /** Ownership reads slots and bits only. */
  lemma OwnFrame(v: DiskState, w: DiskState, sb: Super, t: seq<Ino>, u: seq<Ino>, pend: nat)
    requires Own(v, sb, t, pend) && |w| == |v| && ValidTable(sb, u) && SameSlots(v, t, w, u)
    requires forall b: nat | b < sb.size :: Used(w, sb, b) == Used(v, sb, b)
    ensures Own(w, sb, u, pend)
  {
    forall j: nat, k: nat, b: nat | SlotIs(w, u, j, k, b) && b != 0
      ensures sb.nmeta <= b < sb.size
    {
      assert SlotIs(v, t, j, k, b);
    }
    forall j: nat, k: nat, j2: nat, k2: nat, b: nat | SlotIs(w, u, j, k, b) && SlotIs(w, u, j2, k2, b) && b != 0
      ensures j == j2 && k == k2
    {
      assert SlotIs(v, t, j, k, b) && SlotIs(v, t, j2, k2, b);
    }
    forall b: nat
      ensures Named(v, t, b) <==> Named(w, u, b)
    {
      SameNames(v, t, w, u, b);
    }
  }

  /** balloc: the first free block is marked and zeroed, and awaits a name. */
  lemma AllocKeeps(v: DiskState, sb: Super, t: seq<Ino>, b: nat)
    requires Own(v, sb, t, 0) && b < sb.size && !Used(v, sb, b)
    ensures var w := PutUsed(v, sb, b, true)[b := ZERO];
      Own(w, sb, t, b) && SameSlots(v, t, w, t)
  {
    var w := PutUsed(v, sb, b, true)[b := ZERO];
    UsedOfPut(v, sb, b, true);
    forall j | 0 <= j < |t|
      ensures 0 < t[j].addrs[NDIRECT] < |v| ==> w[t[j].addrs[NDIRECT]] == v[t[j].addrs[NDIRECT]]
    {
      if t[j].addrs[NDIRECT] != 0 {
        IndirectIsData(v, sb, t, 0, j);
      }
    }
    SlotsFrame(v, t, w);
    forall x: nat | x < sb.size
      ensures Used(w, sb, x) == (Used(v, sb, x) || x == b)
    {
      assert InBitmap(sb, BBlock(sb, x)) by {
        UsedOfPut(v, sb, x, true);
      }
    }
    OwnPending(v, w, sb, t, b);
  }

  lemma OwnPending(v: DiskState, w: DiskState, sb: Super, t: seq<Ino>, b: nat)
    requires Own(v, sb, t, 0) && |w| == |v| && SameSlots(v, t, w, t) && b < sb.size && !Used(v, sb, b)
    requires forall x: nat | x < sb.size :: Used(w, sb, x) == (Used(v, sb, x) || x == b)
    ensures Own(w, sb, t, b)
  {
    forall j: nat, k: nat, x: nat | SlotIs(w, t, j, k, x) && x != 0
      ensures sb.nmeta <= x < sb.size
    {
      assert SlotIs(v, t, j, k, x);
    }
    forall j: nat, k: nat, j2: nat, k2: nat, x: nat | SlotIs(w, t, j, k, x) && SlotIs(w, t, j2, k2, x) && x != 0
      ensures j == j2 && k == k2
    {
      assert SlotIs(v, t, j, k, x) && SlotIs(v, t, j2, k2, x);
    }
    forall x: nat
      ensures Named(v, t, x) <==> Named(w, t, x)
    {
      SameNames(v, t, w, t, x);
    }
  }

  /** Slot (j, k), unmapped before, now names the pending block. */
  ghost predicate Adopts(v: DiskState, t: seq<Ino>, w: DiskState, u: seq<Ino>, j: nat, k: nat, pend: nat) {
    && |t| == |u|
    && SlotIs(v, t, j, k, 0) && SlotIs(w, u, j, k, pend)
    && forall j2: nat, k2: nat, b: nat | j2 != j || k2 != k :: SlotIs(v, t, j2, k2, b) <==> SlotIs(w, u, j2, k2, b)
  }

  lemma AdoptKeeps(v: DiskState, w: DiskState, sb: Super, t: seq<Ino>, u: seq<Ino>, j: nat, k: nat, pend: nat)
    requires pend != 0 && Own(v, sb, t, pend) && |w| == |v| && ValidTable(sb, u) && Adopts(v, t, w, u, j, k, pend)
    requires forall b: nat | b < sb.size :: Used(w, sb, b) == Used(v, sb, b)
    ensures Own(w, sb, u, 0)
  {
    forall j2: nat, k2: nat, b: nat | SlotIs(w, u, j2, k2, b) && b != 0
      ensures sb.nmeta <= b < sb.size && (b == pend ==> j2 == j && k2 == k)
    {
      if j2 != j || k2 != k {
        assert SlotIs(v, t, j2, k2, b);
        assert Named(v, t, b);
      }
    }
    forall j1: nat, k1: nat, j2: nat, k2: nat, b: nat | SlotIs(w, u, j1, k1, b) && SlotIs(w, u, j2, k2, b) && b != 0
      ensures j1 == j2 && k1 == k2
    {
      if b != pend {
        assert SlotIs(v, t, j1, k1, b) && SlotIs(v, t, j2, k2, b);
      }
    }
    forall b: nat | b < sb.size
      ensures Named(w, u, b) <==> Named(v, t, b) || b == pend
    {
      AdoptNames(v, t, w, u, j, k, pend, b);
    }
  }

  lemma AdoptNames(v: DiskState, t: seq<Ino>, w: DiskState, u: seq<Ino>, j: nat, k: nat, pend: nat, b: nat)
    requires pend != 0 && Adopts(v, t, w, u, j, k, pend)
    ensures Named(w, u, b) <==> Named(v, t, b) || b == pend
  {
    if Named(v, t, b) {
      var j2: nat, k2: nat :| SlotIs(v, t, j2, k2, b);
      assert SlotIs(w, u, j2, k2, b);
    }
    if Named(w, u, b) {
      var j2: nat, k2: nat :| SlotIs(w, u, j2, k2, b);
      assert j2 != j || k2 != k ==> SlotIs(v, t, j2, k2, b);
    }
    if b == pend {
      assert SlotIs(w, u, j, k, b);
    }
  }
}
