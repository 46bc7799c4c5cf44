/** File contents over the block map, and what the operations keep of them. */
module FsContent {
  import opened Blocks
  import opened LogSpec
  import opened FsSpec

  const MAXBYTES := 274432 // MAXFILE * BSIZE

  /** Byte k of a file; unmapped blocks read as zeros. */
  ghost function ByteAt(v: DiskState, i: Ino, k: nat): byte
    requires ValidIno(i) && k < MAXBYTES
  {
    var b := SlotBlock(v, i, DataSlot(k / BSIZE));
    if b == 0 || b >= |v| then 0 else v[b][k % BSIZE]
  }

  /** The file as a byte sequence. */
  ghost function FileBytes(v: DiskState, i: Ino): (s: seq<byte>)
    requires ValidIno(i) && i.size <= MAXBYTES
    ensures |s| == i.size
  {
    seq(i.size, k requires 0 <= k < i.size => ByteAt(v, i, k))
  }

  /** Where byte x of a file without holes lies: in the block of the direct entry
      x / 1024, or of the indirect block's entry x / 1024 - 12. */
  lemma FileLayout(v: DiskState, i: Ino, x: nat)
    requires ValidIno(i) && NoHoles(v, i) && x < i.size
    requires forall k: nat | k < NSLOTS :: SlotBlock(v, i, k) < |v|
    ensures i.addrs[12] < |v|
    ensures var n := x / 1024;
      var b := if n < 12 then i.addrs[n] else LittleEndian(v[i.addrs[12]][4 * (n - 12)..4 * (n - 12) + 4]);
      0 < b < |v| && FileBytes(v, i)[x] == v[b][x % 1024]
  {
    var n := x / 1024;
    assert SlotBlock(v, i, NDIRECT) == i.addrs[12];
    assert n * BSIZE <= x;
    assert SlotBlock(v, i, DataSlot(n)) != 0;
    if n >= 12 {
      WordIsBytes(v[i.addrs[12]], n - 12);
    }
  }

  /** Every block below the file size is mapped. */
  ghost predicate NoHoles(v: DiskState, i: Ino)
    requires ValidIno(i)
  {
    && i.size <= MAXBYTES
    && forall bn: nat | bn * BSIZE < i.size :: SlotBlock(v, i, DataSlot(bn)) != 0
  }

  ghost predicate NoHolesAll(v: DiskState, sb: Super, t: seq<Ino>)
    requires ValidTable(sb, t)
  {
    forall j | 0 <= j < |t| :: NoHoles(v, t[j])
  }

  /** Only new names: every mapped slot keeps its block and every named data
      block its contents; sizes stay. */
  ghost predicate Extends(v: DiskState, t: seq<Ino>, w: DiskState, u: seq<Ino>) {
    && |v| == |w| && |t| == |u|
    && (forall j | 0 <= j < |t| :: t[j].size == u[j].size)
    && forall j: nat, k: nat, b: nat | SlotIs(v, t, j, k, b) && b != 0 ::
      SlotIs(w, u, j, k, b) && (k != NDIRECT && b < |v| ==> w[b] == v[b])
  }

  lemma ExtendsChain(v: DiskState, t: seq<Ino>, w: DiskState, u: seq<Ino>, x: DiskState, y: seq<Ino>)
    requires Extends(v, t, w, u) && Extends(w, u, x, y)
    ensures Extends(v, t, x, y)
  {
    forall j: nat, k: nat, b: nat | SlotIs(v, t, j, k, b) && b != 0
      ensures SlotIs(x, y, j, k, b) && (k != NDIRECT && b < |v| ==> x[b] == v[b])
    {
      assert SlotIs(w, u, j, k, b);
    }
  }

  /** What a file reads is kept when the block map only grows. */
  lemma ExtendsKeepsBytes(v: DiskState, sb: Super, t: seq<Ino>, w: DiskState, u: seq<Ino>, j: nat, k: nat)
    requires Layout(sb, |v|) && ValidTable(sb, t) && ValidTable(sb, u) && NamedUsed(v, sb, t)
    requires Extends(v, t, w, u) && j < |t| && k < MAXBYTES
    requires SlotBlock(v, t[j], DataSlot(k / BSIZE)) != 0
    ensures SlotBlock(w, u[j], DataSlot(k / BSIZE)) == SlotBlock(v, t[j], DataSlot(k / BSIZE))
    ensures ByteAt(w, u[j], k) == ByteAt(v, t[j], k)
  {
    var b := SlotBlock(v, t[j], DataSlot(k / BSIZE));
    assert SlotIs(v, t, j, DataSlot(k / BSIZE), b);
    assert SlotIs(w, u, j, DataSlot(k / BSIZE), b);
  }

  lemma ExtendsKeepsHoles(v: DiskState, sb: Super, t: seq<Ino>, w: DiskState, u: seq<Ino>)
    requires Layout(sb, |v|) && ValidTable(sb, t) && ValidTable(sb, u) && NoHolesAll(v, sb, t) && Extends(v, t, w, u)
    ensures NoHolesAll(w, sb, u)
  {
    forall j, bn: nat | 0 <= j < |t| && bn * BSIZE < u[j].size
      ensures SlotBlock(w, u[j], DataSlot(bn)) != 0
    {
      assert NoHoles(v, t[j]);
      var b := SlotBlock(v, t[j], DataSlot(bn));
      assert SlotIs(v, t, j, DataSlot(bn), b);
      assert SlotIs(w, u, j, DataSlot(bn), b);
    }
    forall j | 0 <= j < |u|
      ensures NoHoles(w, u[j])
    {
      assert NoHoles(v, t[j]);
    }
  }

  /** balloc extends nothing and disturbs nothing. */
  lemma AllocExtends(v: DiskState, sb: Super, t: seq<Ino>, b: nat)
    requires Own(v, sb, t, 0) && b < sb.size && !Used(v, sb, b)
    ensures Extends(v, t, PutUsed(v, sb, b, true)[b := ZERO], t)
  {
    var w := PutUsed(v, sb, b, true)[b := ZERO];
    AllocKeeps(v, sb, t, b);
    UsedOfPut(v, sb, b, true);
    forall j: nat, k: nat, x: nat | SlotIs(v, t, j, k, x) && x != 0
      ensures SlotIs(w, t, j, k, x) && (k != NDIRECT && x < |v| ==> w[x] == v[x])
    {
      assert Named(v, t, x);
    }
  }

  /** The pending block becomes slot k of inode j, in the inode itself. */
  lemma NameInInode(v: DiskState, sb: Super, t: seq<Ino>, j: nat, k: nat, p: nat)
    requires p != 0 && Own(v, sb, t, p) && j < |t| && k <= NDIRECT && t[j].addrs[k] == 0
    requires k == NDIRECT ==> v[p] == ZERO
    ensures var u := t[j := t[j].(addrs := t[j].addrs[k := p])];
      Own(v, sb, u, 0) && Extends(v, t, v, u) && SlotIs(v, u, j, k, p)
  {
    var u := t[j := t[j].(addrs := t[j].addrs[k := p])];
    assert ValidTable(sb, u);
    forall x: nat | x < NSLOTS && x != k
      ensures SlotBlock(v, u[j], x) == SlotBlock(v, t[j], x)
    {
      if k == NDIRECT && x > NDIRECT {
        WordOfZero(x - NDIRECT - 1);
      }
    }
    assert SlotIs(v, t, j, k, 0) && SlotIs(v, u, j, k, p);
    assert Adopts(v, t, v, u, j, k, p);
    AdoptKeeps(v, v, sb, t, u, j, k, p);
  }

  /** The pending block becomes entry e of inode j's indirect block. */
  lemma NameInIndirect(v: DiskState, sb: Super, t: seq<Ino>, j: nat, e: nat, p: nat)
    requires p != 0 && Own(v, sb, t, p) && j < |t| && e < NINDIRECT
    requires t[j].addrs[NDIRECT] != 0 && SlotBlock(v, t[j], e + NDIRECT + 1) == 0
    ensures var x := t[j].addrs[NDIRECT];
      && x < |v| && x != p
      && var w := v[x := PutWord(v[x], e, p)];
        Own(w, sb, t, 0) && Extends(v, t, w, t) && SlotIs(w, t, j, e + NDIRECT + 1, p)
  {
    var x := t[j].addrs[NDIRECT];
    IndirectIsData(v, sb, t, p, j);
    var w := v[x := PutWord(v[x], e, p)];
    WordOfPut(v[x], e, p);
    IndirectWriteAdopts(v, sb, t, j, e, p);
    forall b: nat | b < sb.size
      ensures Used(w, sb, b) == Used(v, sb, b)
    {
      UsedOfPut(v, sb, b, true);
    }
    AdoptKeeps(v, w, sb, t, t, j, e + NDIRECT + 1, p);
    forall j2: nat, k2: nat, b: nat | SlotIs(v, t, j2, k2, b) && b != 0
      ensures SlotIs(w, t, j2, k2, b) && (k2 != NDIRECT && b < |v| ==> w[b] == v[b])
    {
      if b == x {
        assert SlotIs(v, t, j, NDIRECT, x);
      }
    }
  }

  lemma IndirectWriteAdopts(v: DiskState, sb: Super, t: seq<Ino>, j: nat, e: nat, p: nat)
    requires p != 0 && Own(v, sb, t, p) && j < |t| && e < NINDIRECT
    requires t[j].addrs[NDIRECT] != 0 && t[j].addrs[NDIRECT] < |v| && SlotBlock(v, t[j], e + NDIRECT + 1) == 0
    ensures var x := t[j].addrs[NDIRECT];
      Adopts(v, t, v[x := PutWord(v[x], e, p)], t, j, e + NDIRECT + 1, p)
  {
    var x := t[j].addrs[NDIRECT];
    var w := v[x := PutWord(v[x], e, p)];
    WordOfPut(v[x], e, p);
    assert SlotIs(v, t, j, NDIRECT, x);
    forall j2: nat, k2: nat | j2 < |t| && k2 < NSLOTS && (j2 != j || k2 != e + NDIRECT + 1)
      ensures SlotBlock(v, t[j2], k2) == SlotBlock(w, t[j2], k2)
    {
      if t[j2].addrs[NDIRECT] == x {
        assert SlotIs(v, t, j2, NDIRECT, x);
      }
    }
    assert SlotIs(v, t, j, e + NDIRECT + 1, 0) && SlotIs(w, t, j, e + NDIRECT + 1, p);
  }

  /** Writing a named data block moves no name, and no other named block. */
  lemma DataWriteKeeps(v: DiskState, sb: Super, t: seq<Ino>, j: nat, k: nat, b: nat, data: Block)
    requires Own(v, sb, t, 0) && SlotIs(v, t, j, k, b) && b != 0 && k != NDIRECT
    ensures sb.nmeta <= b < |v|
    ensures Own(v[b := data], sb, t, 0) && SameSlots(v, t, v[b := data], t)
  {
    forall j2 | 0 <= j2 < |t|
      ensures t[j2].addrs[NDIRECT] == 0 || t[j2].addrs[NDIRECT] != b
    {
      assert SlotIs(v, t, j2, NDIRECT, t[j2].addrs[NDIRECT]);
    }
    OtherWriteSlots(v, sb, t, 0, b, data);
    forall x: nat | x < sb.size
      ensures Used(v[b := data], sb, x) == Used(v, sb, x)
    {
      UsedOfPut(v, sb, x, true);
    }
    OwnFrame(v, v[b := data], sb, t, t, 0);
  }

  /** Writing a block of the inode area moves no name. */
  lemma InodeWriteKeeps(v: DiskState, sb: Super, t: seq<Ino>, b: nat, data: Block)
    requires Own(v, sb, t, 0) && sb.inodestart <= b < sb.bmapstart
    ensures b < |v| && Own(v[b := data], sb, t, 0) && SameSlots(v, t, v[b := data], t)
    ensures Extends(v, t, v[b := data], t)
  {
    forall j2 | 0 <= j2 < |t|
      ensures t[j2].addrs[NDIRECT] == 0 || t[j2].addrs[NDIRECT] != b
    {
      assert SlotIs(v, t, j2, NDIRECT, t[j2].addrs[NDIRECT]);
    }
    OtherWriteSlots(v, sb, t, 0, b, data);
    forall x: nat | x < sb.size
      ensures Used(v[b := data], sb, x) == Used(v, sb, x)
    {
      UsedOfPut(v, sb, x, true);
    }
    OwnFrame(v, v[b := data], sb, t, t, 0);
    forall j: nat, k: nat, x: nat | SlotIs(v, t, j, k, x) && x != 0
      ensures SlotIs(v[b := data], t, j, k, x) && x != b
    {
    }
  }

  /** The size of one inode alone changes no name. */
  lemma ResizeKeeps(v: DiskState, sb: Super, t: seq<Ino>, j: nat, size: nat)
    requires Own(v, sb, t, 0) && j < |t|
    ensures Own(v, sb, t[j := t[j].(size := size)], 0)
  {
    var u := t[j := t[j].(size := size)];
    forall j2: nat, k: nat, b: nat
      ensures SlotIs(v, t, j2, k, b) <==> SlotIs(v, u, j2, k, b)
    {
      if j2 < |t| && k < NSLOTS {
        assert SlotBlock(v, t[j2], k) == SlotBlock(v, u[j2], k);
      }
    }
    OwnFrame(v, v, sb, t, u, 0);
  }

  // ----- truncation -----

  const EMPTY: Ino := Ino(0, [0, 0, 0, 0, 0, 0, 0, 0, 0, 0, 0, 0, 0])

  ghost predicate NamedBy(v: DiskState, i: Ino, b: nat)
    requires ValidIno(i)
  {
    b != 0 && exists k: nat :: k < NSLOTS && SlotBlock(v, i, k) == b
  }

  /** Exactly the blocks of inode j become free, and its slots vanish. */
  lemma TruncKeeps(v: DiskState, w: DiskState, sb: Super, t: seq<Ino>, j: nat)
    requires Own(v, sb, t, 0) && j < |t| && |w| == |v|
    requires forall b: nat | b < sb.size && !InBitmap(sb, b) :: w[b] == v[b]
    requires forall b: nat | b < sb.size :: Used(w, sb, b) <==> Used(v, sb, b) && !NamedBy(v, t[j], b)
    ensures Own(w, sb, t[j := EMPTY], 0)
    ensures forall j2 | 0 <= j2 < |t| && j2 != j :: forall k: nat | k < NSLOTS :: SlotBlock(w, t[j2], k) == SlotBlock(v, t[j2], k)
  {
    var u := t[j := EMPTY];
    TruncSlots(v, w, sb, t, j);
    forall j2: nat, k2: nat, j3: nat, k3: nat, b: nat | SlotIs(w, u, j2, k2, b) && SlotIs(w, u, j3, k3, b) && b != 0
      ensures j2 == j3 && k2 == k3
    {
      assert SlotIs(v, t, j2, k2, b) && SlotIs(v, t, j3, k3, b);
    }
    forall b: nat | b < sb.size
      ensures Used(w, sb, b) <==> b < sb.nmeta || Named(w, u, b)
    {
      TruncNames(v, w, sb, t, j, b);
    }
  }

  lemma TruncSlots(v: DiskState, w: DiskState, sb: Super, t: seq<Ino>, j: nat)
    requires Own(v, sb, t, 0) && j < |t| && |w| == |v|
    requires forall b: nat | b < sb.size && !InBitmap(sb, b) :: w[b] == v[b]
    ensures forall j2 | 0 <= j2 < |t| && j2 != j :: forall k: nat | k < NSLOTS :: SlotBlock(w, t[j2], k) == SlotBlock(v, t[j2], k)
    ensures forall j2: nat, k: nat, b: nat | b != 0 ::
      SlotIs(w, t[j := EMPTY], j2, k, b) <==> j2 != j && SlotIs(v, t, j2, k, b)
    ensures NamedUsed(w, sb, t[j := EMPTY])
  {
    forall j2, k: nat | 0 <= j2 < |t| && j2 != j && k < NSLOTS
      ensures SlotBlock(w, t[j2], k) == SlotBlock(v, t[j2], k)
    {
      if t[j2].addrs[NDIRECT] != 0 {
        IndirectIsData(v, sb, t, 0, j2);
      }
    }
    var u := t[j := EMPTY];
    forall j2: nat, k: nat, b: nat | b != 0
      ensures SlotIs(w, u, j2, k, b) <==> j2 != j && SlotIs(v, t, j2, k, b)
    {
      if j2 < |t| && j2 != j && k < NSLOTS {
        assert SlotBlock(w, t[j2], k) == SlotBlock(v, t[j2], k);
      }
    }
  }

  lemma TruncNames(v: DiskState, w: DiskState, sb: Super, t: seq<Ino>, j: nat, b: nat)
    requires Own(v, sb, t, 0) && j < |t| && |w| == |v| && b < sb.size
    requires forall j2: nat, k: nat, b: nat | b != 0 ::
      SlotIs(w, t[j := EMPTY], j2, k, b) <==> j2 != j && SlotIs(v, t, j2, k, b)
    requires Used(w, sb, b) <==> Used(v, sb, b) && !NamedBy(v, t[j], b)
    ensures Used(w, sb, b) <==> b < sb.nmeta || Named(w, t[j := EMPTY], b)
  {
    var u := t[j := EMPTY];
    if NamedBy(v, t[j], b) {
      var k: nat :| k < NSLOTS && SlotBlock(v, t[j], k) == b;
      assert SlotIs(v, t, j, k, b);
      forall j2: nat, k2: nat
        ensures !SlotIs(w, u, j2, k2, b)
      {
        assert SlotIs(v, t, j2, k2, b) && SlotIs(v, t, j, k, b) ==> j2 == j;
      }
    } else {
      if Named(v, t, b) {
        var j2: nat, k2: nat :| SlotIs(v, t, j2, k2, b);
        assert SlotIs(w, u, j2, k2, b);
      }
      if Named(w, u, b) {
        var j2: nat, k2: nat :| SlotIs(w, u, j2, k2, b);
        assert SlotIs(v, t, j2, k2, b);
      }
    }
  }
}
