/** fs.c inside a transaction: the block allocator, the block map, truncation
    and byte-granular reads and writes, against FsSpec and FsContent. */
module Fs {
  import opened Blocks
  import opened LogSpec
  import opened FsSpec
  import opened FsContent
  import opened Dinodes

  /** The in-memory inode. */
  class Inode {
    const inum: nat
    var typ: nat
    var major: nat
    var minor: nat
    var nlink: nat
    var size: nat
    const addrs: array<nat>

    constructor (inum: nat)
      ensures Valid() && this.inum == inum && fresh(addrs)
    {
      this.inum := inum;
      typ, major, minor, nlink, size := 0, 0, 0, 0, 0;
      addrs := new nat[NDIRECT + 1](_ => 0);
    }

    ghost predicate Valid()
      reads this, addrs
    {
      && addrs.Length == NDIRECT + 1
      && ValidDinode(Image())
    }

    ghost function Image(): Dinode
      reads this, addrs
    {
      Dinode(typ, major, minor, nlink, size, addrs[..])
    }

    ghost function Val(): Ino
      reads this, addrs
    {
      Ino(size, addrs[..])
    }
  }

  /** Blocks this operation has put in the log, less the two that allocating
      the indirect block accounts for. */
  ghost function Potential(added: set<nat>, ind: nat): int {
    |added| - (if ind != 0 && ind in added then 2 else 0)
  }

  ghost function BitmapBlocks(sb: Super): set<nat> {
    set b: nat | b < sb.nmeta && InBitmap(sb, b)
  }

  lemma {:induction false} BitmapSize(sb: Super)
    requires sb.bmapstart <= sb.nmeta
    ensures |BitmapBlocks(sb)| == sb.nmeta - sb.bmapstart
    decreases sb.nmeta
  {
    if sb.bmapstart == sb.nmeta {
      assert BitmapBlocks(sb) == {};
    } else {
      var less := sb.(nmeta := sb.nmeta - 1);
      BitmapSize(less);
      assert BitmapBlocks(sb) == BitmapBlocks(less) + {sb.nmeta - 1};
    }
  }

  /** Blocks this operation has put in the log, bitmap and indirect block aside. */
  ghost function Plain(sb: Super, added: set<nat>, ind: nat): nat {
    |added - BitmapBlocks(sb) - (if ind == 0 then {} else {ind})|
  }

  lemma AddOne(added: set<nat>, x: nat)
    ensures |added + {x}| == if x in added then |added| else |added| + 1
  {
    if x in added {
      assert added + {x} == added;
    }
  }

  /** One file system operation: view is what bread returns, added the distinct
      blocks the operation has logged, table the inodes as the locked in-memory
      copies have them. */
  class FileSystem {
    const sb: Super
    var view: DiskState
    ghost var added: set<nat>
    ghost var table: seq<Ino>

    constructor (sb: Super, image: DiskState, ghost table: seq<Ino>)
      ensures this.sb == sb && view == image && this.table == table && added == {}
    {
      this.sb := sb;
      view := image;
      this.table := table;
      added := {};
    }

    ghost predicate Inv(ip: Inode)
      reads this, ip, ip.addrs
    {
      && ip.Valid() && Layout(sb, |view|) && ValidTable(sb, table)
      && Own(view, sb, table, 0) && NoHolesAll(view, sb, table)
      && ip.inum < |table| && table[ip.inum] == ip.Val()
      && SyncedBut(view, sb, table, ip.inum)
    }

    /** The bytes of the locked file. */
    ghost function Contents(ip: Inode): seq<byte>
      requires Inv(ip)
      reads this, ip, ip.addrs
    {
      assert NoHoles(view, table[ip.inum]);
      FileBytes(view, table[ip.inum])
    }

    /** begin_op, on the side of the operation: nothing logged yet. */
    ghost method BeginOp()
      modifies this`added
      ensures added == {}
    {
      added := {};
    }

    /** log_write: its "too big a transaction" panic is excluded when the
        operation has put fewer than MAXOPBLOCKS blocks in the log before. */
    method LogWrite(b: nat, data: Block)
      requires b < |view| && |added| < MAXOPBLOCKS
      modifies this`view, this`added
      ensures view == old(view)[b := data] && added == old(added) + {b}
    {
      view := view[b := data];
      added := added + {b};
    }

    // ----- blocks -----

    /** balloc: the lowest free block, marked and zeroed; 0 exactly when every
        block is allocated. */
    method Balloc() returns (r: nat)
      requires Own(view, sb, table, 0) && |added| + 2 <= MAXOPBLOCKS
      modifies this`view, this`added
      ensures r == 0 <==> forall x: nat | x < sb.size :: Used(old(view), sb, x)
      ensures r == 0 ==> view == old(view) && added == old(added)
      ensures r != 0 ==>
        && sb.nmeta <= r < sb.size && !Used(old(view), sb, r)
        && (forall x: nat | x < r :: Used(old(view), sb, x))
        && view == PutUsed(old(view), sb, r, true)[r := ZERO]
        && added == old(added) + {BBlock(sb, r), r}
    {
      hide NamedUsed, NamedOnce, Named, PutBit;
      var b := 0;
      while b < sb.size
        invariant b % BPB == 0 && view == old(view) && added == old(added)
        invariant forall x: nat | x < b && x < sb.size :: Used(view, sb, x)
      {
        var bi := FirstFree(b);
        if bi < BPB && b + bi < sb.size {
          r := b + bi;
          assert r / BPB == b / BPB && r % BPB == bi;
          AddOne(added, BBlock(sb, r));
          LogWrite(BBlock(sb, r), PutBit(view[BBlock(sb, r)], bi, true));
          assert view == PutUsed(old(view), sb, r, true);
          LogWrite(r, ZERO);
          assert added == old(added) + {BBlock(sb, r), r};
          return;
        }
        b := b + BPB;
      }
      r := 0;
    }

    /** The inner loop of balloc, over one bitmap block. */
    method FirstFree(b: nat) returns (bi: nat)
      requires Layout(sb, |view|) && b < sb.size && b % BPB == 0
      ensures bi <= BPB
      ensures forall x: nat | b <= x < b + bi && x < sb.size :: Used(view, sb, x)
      ensures bi < BPB && b + bi < sb.size ==> !Used(view, sb, b + bi)
      ensures bi < BPB ==> b + bi <= sb.size
      ensures bi < BPB && b + bi == sb.size ==> forall x: nat | b <= x < sb.size :: Used(view, sb, x)
    {
      bi := 0;
      while bi < BPB && b + bi < sb.size
        invariant bi <= BPB && b + bi <= sb.size
        invariant forall x: nat | b <= x < b + bi :: Used(view, sb, x)
      {
        assert (b + bi) / BPB == b / BPB && (b + bi) % BPB == bi;
        if !Bit(view[BBlock(sb, b)], bi) {
          return;
        }
        bi := bi + 1;
      }
    }

    /** bfree: its panic is excluded when the block is allocated. */
    method Bfree(b: nat)
      requires Layout(sb, |view|) && b < sb.size && Used(view, sb, b) && |added| < MAXOPBLOCKS
      modifies this`view, this`added
      ensures view == PutUsed(old(view), sb, b, false) && added == old(added) + {BBlock(sb, b)}
    {
      LogWrite(BBlock(sb, b), PutBit(view[BBlock(sb, b)], b % BPB, false));
    }

    // ----- block map -----

    /** The block map of ip may grow, nothing else changes. */
    twostate predicate Grew(ip: Inode)
      reads this, ip, ip.addrs
    {
      && Inv(ip)
      && Extends(old(view), old(table), view, table)
      && old(added) <= added
      && SameInodeArea(old(view), view, sb)
      && |table| == |old(table)| && ip.inum < |table|
      && table == old(table)[ip.inum := table[ip.inum]]
    }

    /** balloc and store the block in the inode's own slot k. */
    method AllocSlot(ip: Inode, k: nat) returns (p: nat)
      requires Inv(ip) && k <= NDIRECT && ip.addrs[k] == 0 && |added| + 2 <= MAXOPBLOCKS
      modifies this`view, this`added, this`table, ip.addrs
      ensures Grew(ip)
      ensures p == 0 ==> view == old(view) && added == old(added) && table == old(table) && ip.addrs[..] == old(ip.addrs[..])
      ensures p == 0 ==> forall x: nat | x < sb.size :: Used(view, sb, x)
      ensures p != 0 ==> ip.addrs[..] == old(ip.addrs[..])[k := p] && SlotIs(view, table, ip.inum, k, p)
      ensures p != 0 ==> p < |view| && view[p] == ZERO && added == old(added) + {BBlock(sb, p), p}
    {
      hide Own, NoHoles, Synced, SameInodeArea, Extends, PutUsed, NamedUsed;
      p := Balloc();
      if p == 0 {
        NothingGrew(view, sb, table);
      } else {
        ghost var v1 := view;
        AllocNamed(old(view), sb, table, ip.inum, k, p);
        ip.addrs[k] := p;
        table := table[ip.inum := ip.Val()];
        Regrown(old(view), view, sb, old(table), table, ip.inum);
      }
    }

    /** The indirect half of bmap for an unmapped entry e. */
    method AllocEntry(ip: Inode, e: nat) returns (p: nat)
      requires Inv(ip) && e < NINDIRECT && ip.addrs[NDIRECT] != 0
      requires SlotBlock(view, table[ip.inum], e + NDIRECT + 1) == 0
      requires Potential(added, ip.addrs[NDIRECT]) + 4 < MAXOPBLOCKS
      modifies this`view, this`added
      ensures Grew(ip) && table == old(table)
      ensures Potential(added, ip.addrs[NDIRECT]) <= old(Potential(added, ip.addrs[NDIRECT])) + 2
      ensures Plain(sb, added, ip.addrs[NDIRECT]) <= old(Plain(sb, added, ip.addrs[NDIRECT])) + 1
      ensures p == 0 ==> view == old(view) && added == old(added)
      ensures p == 0 ==> forall x: nat | x < sb.size :: Used(view, sb, x)
      ensures p != 0 ==> SlotIs(view, table, ip.inum, e + NDIRECT + 1, p)
      ensures p != 0 ==> p < |view| && view[p] == ZERO && p in added
    {
      hide Own, NoHoles, Synced, SameInodeArea, Extends, PutUsed, NamedUsed, Used;
      ghost var ind, a0 := ip.addrs[NDIRECT], added;
      OwnIndirect(view, sb, table, ip.inum);
      p := Balloc();
      if p == 0 {
        NothingGrew(view, sb, table);
      } else {
        ghost var v0, v1 := old(view), view;
        AllocEntryNamed(v0, sb, table, ip.inum, e, p);
        EntryPotential(a0, ind, BBlock(sb, p), p);
        PlainEntry(view, sb, a0, ind, p);
        LogWrite(ip.addrs[NDIRECT], PutWord(view[ip.addrs[NDIRECT]], e, p));
        Regrown(v0, view, sb, table, table, ip.inum);
      }
    }

    /** bmap: the block of file block bn. A mapped block is only looked up; an
        unmapped one is allocated, together with the indirect block when needed;
        0 when the disk is full. */
    method Bmap(ip: Inode, bn: nat) returns (addr: nat)
      requires Inv(ip) && bn < MAXFILE
      requires SlotBlock(view, table[ip.inum], DataSlot(bn)) == 0 ==>
        Potential(added, ip.addrs[NDIRECT]) + 4 < MAXOPBLOCKS
      modifies this`view, this`added, this`table, ip.addrs
      ensures Grew(ip)
      ensures addr == SlotBlock(view, table[ip.inum], DataSlot(bn))
      ensures old(SlotBlock(view, table[ip.inum], DataSlot(bn))) != 0 ==>
        addr != 0 && view == old(view) && added == old(added) && table == old(table)
      ensures old(SlotBlock(view, table[ip.inum], DataSlot(bn))) == 0 && addr != 0 ==>
        addr < |view| && view[addr] == ZERO && addr in added
      ensures addr == 0 ==> forall x: nat | x < sb.size :: Used(view, sb, x)
      ensures Potential(added, ip.addrs[NDIRECT]) <= old(Potential(added, ip.addrs[NDIRECT]))
        + (if old(SlotBlock(view, table[ip.inum], DataSlot(bn))) == 0 then 2 else 0)
      ensures Plain(sb, added, ip.addrs[NDIRECT]) <= old(Plain(sb, added, ip.addrs[NDIRECT]))
        + (if old(SlotBlock(view, table[ip.inum], DataSlot(bn))) == 0 then 1 else 0)
    {
      hide Own, NoHoles, Synced, SameInodeArea, Extends, PutUsed, NamedUsed, Used;
      NothingGrew(view, sb, table);
      if bn < NDIRECT {
        addr := ip.addrs[bn];
        if addr == 0 {
          SmallAdded(added, ip.addrs[NDIRECT]);
          addr := AllocSlot(ip, bn);
          if addr != 0 {
            SlotPotential(old(added), ip.addrs[NDIRECT], BBlock(sb, addr), addr);
            PlainSlot(view, sb, old(added), ip.addrs[NDIRECT], addr);
          }
        }
      } else {
        addr := BmapIndirect(ip, bn - NDIRECT);
      }
    }

    method BmapIndirect(ip: Inode, e: nat) returns (addr: nat)
      requires Inv(ip) && e < NINDIRECT
      requires SlotBlock(view, table[ip.inum], e + NDIRECT + 1) == 0 ==>
        Potential(added, ip.addrs[NDIRECT]) + 4 < MAXOPBLOCKS
      modifies this`view, this`added, this`table, ip.addrs
      ensures Grew(ip)
      ensures addr == SlotBlock(view, table[ip.inum], e + NDIRECT + 1)
      ensures old(SlotBlock(view, table[ip.inum], e + NDIRECT + 1)) != 0 ==>
        addr != 0 && view == old(view) && added == old(added) && table == old(table)
      ensures old(SlotBlock(view, table[ip.inum], e + NDIRECT + 1)) == 0 && addr != 0 ==>
        addr < |view| && view[addr] == ZERO && addr in added
      ensures addr == 0 ==> forall x: nat | x < sb.size :: Used(view, sb, x)
      ensures Potential(added, ip.addrs[NDIRECT]) <= old(Potential(added, ip.addrs[NDIRECT]))
        + (if old(SlotBlock(view, table[ip.inum], e + NDIRECT + 1)) == 0 then 2 else 0)
      ensures Plain(sb, added, ip.addrs[NDIRECT]) <= old(Plain(sb, added, ip.addrs[NDIRECT]))
        + (if old(SlotBlock(view, table[ip.inum], e + NDIRECT + 1)) == 0 then 1 else 0)
    {
      hide Own, NoHoles, Synced, SameInodeArea, Extends, PutUsed, NamedUsed, Used;
      NothingGrew(view, sb, table);
      ghost var v0, t0, a0 := view, table, added;
      if ip.addrs[NDIRECT] == 0 {
        SmallAdded(added, 0);
        addr := AllocSlot(ip, NDIRECT);
        if addr == 0 {
          return;
        }
        IndirectPotential(a0, addr, BBlock(sb, addr));
        PlainIndirect(view, sb, a0, addr);
        WordOfZero(e);
      } else {
        OwnIndirect(view, sb, table, ip.inum);
      }
      addr := Word(view[ip.addrs[NDIRECT]], e);
      ghost var v1, t1 := view, table;
      if addr == 0 {
        addr := AllocEntry(ip, e);
        ExtendsChain(v0, t0, v1, t1, view, table);
        SameAreaChain(v0, v1, view, sb);
      }
    }

    // ----- inodes -----

    /** iupdate: the on-disk inode becomes the in-memory one. */
    method Iupdate(ip: Inode)
      requires Inv(ip) && |added| < MAXOPBLOCKS
      modifies this`view, this`added
      ensures Inv(ip) && OnDisk(view, sb, ip.inum) == ip.Image()
      ensures var b, at := sb.inodestart + ip.inum / 16, 64 * (ip.inum % 16);
        && b < |view| == |old(view)| && InodeBytes(view[b], at, ip.Image())
        && (forall i | 0 <= i < BSIZE && !(at <= i < at + 64) :: view[b][i] == old(view)[b][i])
        && view == old(view)[b := view[b]]
      ensures forall j: nat | j < |table| :: Synced(view, sb, table, j)
      ensures Extends(old(view), table, view, table)
      ensures added == old(added) + {IBlock(sb, ip.inum)}
      ensures forall b: nat | b < sb.size :: Used(view, sb, b) == Used(old(view), sb, b)
    {
      hide Own, NoHoles, Extends, NamedUsed, ToWords, GetDinode, PutDinode, ValidDinode, InodeBytes;
      UpdateSyncs(view, sb, table, ip.inum, ip.Image());
      ghost var v0 := view;
      var dip := Dinode(ip.typ, ip.major, ip.minor, ip.nlink, ip.size, ip.addrs[..]);
      var bp := view[IBlock(sb, ip.inum)];
      PutDinodeLayout(bp, ip.inum % IPB, dip);
      InodeWriteKeeps(view, sb, table, IBlock(sb, ip.inum), PutDinode(bp, ip.inum % IPB, dip));
      LogWrite(IBlock(sb, ip.inum), PutDinode(bp, ip.inum % IPB, dip));
      ExtendsKeepsHoles(v0, sb, table, view, table);
    }

    /** The part of ilock that fills a recycled in-memory inode. */
    method Ilock(ip: Inode)
      requires ip.addrs.Length == NDIRECT + 1 && Own(view, sb, table, 0) && NoHolesAll(view, sb, table)
      requires ip.inum < |table| && forall j: nat | j < |table| :: Synced(view, sb, table, j)
      requires OnDisk(view, sb, ip.inum).typ != 0
      modifies ip, ip.addrs
      ensures Inv(ip) && ip.Image() == OnDisk(view, sb, ip.inum)
      ensures var b, at := sb.inodestart + ip.inum / 16, 64 * (ip.inum % 16);
        b < |view| && InodeBytes(view[b], at, ip.Image())
    {
      hide Own, NoHoles, NamedUsed, Word, InodeBytes;
      OwnTable(view, sb, table);
      InodeLayout(view[IBlock(sb, ip.inum)], ip.inum % IPB);
      var dip := GetDinode(view[IBlock(sb, ip.inum)], ip.inum % IPB);
      ip.typ, ip.major, ip.minor, ip.nlink, ip.size := dip.typ, dip.major, dip.minor, dip.nlink, dip.size;
      var k := 0;
      while k <= NDIRECT
        invariant 0 <= k <= NDIRECT + 1 && ip.addrs[..k] == dip.addrs[..k]
        invariant Dinode(ip.typ, ip.major, ip.minor, ip.nlink, ip.size, dip.addrs) == dip
      {
        ip.addrs[k] := dip.addrs[k];
        k := k + 1;
      }
      assert ip.addrs[..] == ip.addrs[..k] == dip.addrs;
      assert Synced(view, sb, table, ip.inum);
    }

    // ----- truncation -----

    /** The slots of i0 freed so far, since the disk was v0. */
    ghost predicate Freeing(v0: DiskState, i0: Ino, a0: set<nat>, d: nat, e: nat)
      reads this
    {
      && Own(v0, sb, table, 0) && |view| == |v0| && ValidIno(i0)
      && (forall b: nat | b < sb.size && !InBitmap(sb, b) :: view[b] == v0[b])
      && (forall b: nat | b < sb.size :: Used(view, sb, b) <==> Used(v0, sb, b) && !FreedBy(v0, i0, d, e, b))
      && added <= a0 + BitmapsOf(v0, sb, i0)
    }

    /** Free the block of one slot, unless it is unmapped. */
    method FreeSlotBlock(ghost v0: DiskState, ghost j: nat, ghost a0: set<nat>, ghost d: nat, ghost e: nat,
                         b: nat, ghost k: nat, ghost d1: nat, ghost e1: nat)
      requires j < |table| && Freeing(v0, table[j], a0, d, e) && k < NSLOTS && b == SlotBlock(v0, table[j], k)
      requires !FreedSlot(d, e, k) && forall x: nat | x < NSLOTS :: FreedSlot(d1, e1, x) <==> FreedSlot(d, e, x) || x == k
      requires |a0 + BitmapsOf(v0, sb, table[j])| < MAXOPBLOCKS
      modifies this`view, this`added
      ensures Freeing(v0, table[j], a0, d1, e1)
    {
      hide Own, Used, PutUsed;
      OwnTable(v0, sb, table);
      if b != 0 {
        SlotStillUsed(v0, sb, table, j, d, e, k);
        AddedFits(added, a0, BitmapsOf(v0, sb, table[j]));
        BitmapOf(v0, sb, table[j], k);
        UsedOfPut(view, sb, b, false);
        PutUsedFrame(view, sb, b, false);
        Bfree(b);
      }
      forall x: nat | x < sb.size
        ensures FreedBy(v0, table[j], d1, e1, x) <==> FreedBy(v0, table[j], d, e, x) || (x == b && b != 0)
      {
        OneMoreFreed(v0, table[j], d, e, k, d1, e1, x);
      }
    }

    /** itrunc: exactly the blocks of this inode become free, bfree never meets
        a free bit, and no other file changes. The bitmap blocks of the freed
        blocks must leave room in the transaction for the inode. */
    method Itrunc(ip: Inode)
      requires Inv(ip) && |added + BitmapsOf(view, sb, table[ip.inum])| < MAXOPBLOCKS
      modifies this, ip, ip.addrs
      ensures Inv(ip) && table == old(table)[ip.inum := EMPTY]
      ensures forall j: nat | j < |table| :: Synced(view, sb, table, j)
      ensures Truncated(old(view), old(table), view, table, ip.inum)
      ensures forall b: nat | b < sb.size ::
        Used(view, sb, b) <==> Used(old(view), sb, b) && !NamedBy(old(view), old(table[ip.inum]), b)
    {
      hide Own, Used, NoHoles, Synced, ValidDinode;
      ghost var v0, t0, a0, i0 := view, table, added, table[ip.inum];
      FreeDirect(ip, v0, a0);
      FreeIndirect(ip, v0, i0, a0);
      ip.size := 0;
      AllZero(ip.addrs[..]);
      AllFreed(v0, i0);
      TruncKeeps(v0, view, sb, t0, ip.inum);
      table := table[ip.inum := ip.Val()];
      TruncRest(v0, view, sb, t0, ip.inum);
      ZeroDinode(ip.Image(), old(ip.Image()));
      AddedFits(added, a0, BitmapsOf(v0, sb, i0));
      ghost var v1 := view;
      Iupdate(ip);
      TruncUpdated(v0, v1, view, sb, t0, table, ip.inum);
    }

    /** The loop of itrunc over the direct blocks. */
    method FreeDirect(ip: Inode, ghost v0: DiskState, ghost a0: set<nat>)
      requires Inv(ip) && view == v0 && added == a0 && |a0 + BitmapsOf(v0, sb, table[ip.inum])| < MAXOPBLOCKS
      modifies this`view, this`added, ip.addrs
      ensures Freeing(v0, table[ip.inum], a0, NDIRECT, 0)
      ensures ip.addrs[NDIRECT] == old(ip.addrs[NDIRECT]) && forall k | 0 <= k < NDIRECT :: ip.addrs[k] == 0
    {
      hide Own, Used;
      ghost var i0 := table[ip.inum];
      var i := 0;
      while i < NDIRECT
        invariant 0 <= i <= NDIRECT && Freeing(v0, i0, a0, i, 0)
        invariant forall k | 0 <= k < i :: ip.addrs[k] == 0
        invariant forall k | i <= k <= NDIRECT :: ip.addrs[k] == i0.addrs[k]
      {
        FreeSlotBlock(v0, ip.inum, a0, i, 0, ip.addrs[i], i, i + 1, 0);
        ip.addrs[i] := 0;
        i := i + 1;
      }
    }

    /** The part of itrunc that frees the indirect block and its entries. */
    method FreeIndirect(ip: Inode, ghost v0: DiskState, ghost i0: Ino, ghost a0: set<nat>)
      requires ip.inum < |table| && i0 == table[ip.inum] && ip.addrs.Length == NDIRECT + 1
      requires Freeing(v0, i0, a0, NDIRECT, 0) && ip.addrs[NDIRECT] == i0.addrs[NDIRECT]
      requires |a0 + BitmapsOf(v0, sb, i0)| < MAXOPBLOCKS
      modifies this`view, this`added, ip.addrs
      ensures Freeing(v0, i0, a0, NDIRECT, NINDIRECT + 1) && ip.addrs[NDIRECT] == 0
      ensures forall k | 0 <= k < NDIRECT :: ip.addrs[k] == old(ip.addrs[k])
    {
      hide Own, Used, Word;
      OwnTable(v0, sb, table);
      if ip.addrs[NDIRECT] != 0 {
        IndirectIntact(v0, view, sb, table, ip.inum);
        assert forall k | 0 <= k < NDIRECT :: ip.addrs[k] == ip.addrs[..][k];
        var a := view[ip.addrs[NDIRECT]];
        var j := 0;
        while j < NINDIRECT
          invariant 0 <= j <= NINDIRECT && Freeing(v0, i0, a0, NDIRECT, j)
          invariant ip.addrs[..] == old(ip.addrs[..]) && ip.addrs[NDIRECT] == i0.addrs[NDIRECT]
        {
          FreeSlotBlock(v0, ip.inum, a0, NDIRECT, j, Word(a, j), j + NDIRECT + 1, NDIRECT, j + 1);
          j := j + 1;
        }
        FreeSlotBlock(v0, ip.inum, a0, NDIRECT, NINDIRECT, ip.addrs[NDIRECT], NDIRECT, NDIRECT, NINDIRECT + 1);
        ip.addrs[NDIRECT] := 0;
      } else {
        NoIndirectFreed(v0, i0);
      }
    }

    // ----- reading -----

    /** One iteration of readi's loop: bytes of the file from one block. */
    method ReadPiece(ip: Inode, o: nat, m: nat) returns (piece: seq<byte>)
      requires Inv(ip) && 0 < m <= BSIZE - o % BSIZE && o + m <= ip.size && NoHoles(view, table[ip.inum])
      modifies this`view, this`added, this`table, ip.addrs
      ensures Inv(ip) && view == old(view) && added == old(added) && table == old(table)
      ensures ip.Val() == old(ip.Val()) && piece == FileBytes(view, ip.Val())[o..o + m]
    {
      hide Own, Used, Synced, ValidDinode, Extends, SameInodeArea, SlotBlock, FileBytes, NoHolesAll;
      var addr := Bmap(ip, o / BSIZE);
      ReadChunk(view, sb, table, ip.inum, o, m);
      piece := view[addr][o % BSIZE..o % BSIZE + m];
    }

    /** readi: the requested bytes clipped to the size; no block is allocated
        and nothing is logged. dst takes the first `writable` bytes only; a copy
        that goes further fails and readi returns -1. */
    method Readi(ip: Inode, off: nat, n: nat, writable: nat) returns (tot: int, dst: seq<byte>)
      requires Inv(ip) && off < 0x1_0000_0000 && n < 0x1_0000_0000
      modifies this`view, this`added, this`table, ip.addrs
      ensures Inv(ip) && view == old(view) && added == old(added) && table == old(table)
      ensures off > ip.size || off + n >= 0x1_0000_0000 ==> tot == 0 && dst == []
      ensures off <= ip.size && off + n < 0x1_0000_0000 ==>
        var m := Min(n, ip.size - off);
        && (tot == -1 <==> m > writable)
        && (tot != -1 ==> tot == m && dst == FileBytes(view, ip.Val())[off..off + m])
    {
      hide Own, Used, Synced, ValidDinode, Extends, SameInodeArea, SlotBlock, FileBytes, NoHolesAll;
      dst := [];
      if off > ip.size || off + n >= 0x1_0000_0000 {
        return 0, [];
      }
      var len := if off + n > ip.size then ip.size - off else n;
      NoHolesOne(view, sb, table, ip.inum);
      tot := 0;
      while tot < len
        invariant 0 <= tot <= len && Inv(ip) && ip.size == old(ip.size)
        invariant view == old(view) && added == old(added) && table == old(table)
        invariant dst == FileBytes(view, ip.Val())[off..off + tot]
        invariant tot <= writable
      {
        var o := off + tot;
        var m := ChunkLen(o, len - tot);
        var piece := ReadPiece(ip, o, m);
        if tot + m > writable {
          return -1, dst;
        }
        dst := dst + piece;
        assert FileBytes(view, ip.Val())[off..o + m]
            == FileBytes(view, ip.Val())[off..o] + FileBytes(view, ip.Val())[o..o + m];
        tot := tot + m;
      }
    }

    // ----- writing -----

    /** One iteration of writei's loop; it stops on a full disk or a failed copy. */
    method WriteChunk(ip: Inode, o: nat, chunk: seq<byte>, copied: bool,
                      ghost v0: DiskState, ghost t0: seq<Ino>, ghost off: nat, ghost data: seq<byte>)
      returns (ok: bool)
      requires Inv(ip) && Written(v0, sb, t0, view, table, ip.inum, off, data) && o == off + |data|
      requires 0 < |chunk| <= BSIZE - o % BSIZE && o + |chunk| <= MAXBYTES
      requires Potential(added, ip.addrs[NDIRECT]) + ChunkCost(o) + 3 <= MAXOPBLOCKS
      modifies this`view, this`added, this`table, ip.addrs
      ensures Inv(ip) && ip.size == old(ip.size)
      ensures Written(v0, sb, t0, view, table, ip.inum, off, if ok then data + chunk else data)
      ensures Potential(added, ip.addrs[NDIRECT]) <= old(Potential(added, ip.addrs[NDIRECT])) + ChunkCost(o)
      ensures Plain(sb, added, ip.addrs[NDIRECT]) <= old(Plain(sb, added, ip.addrs[NDIRECT])) + 1
      ensures ok ==> copied
      ensures !ok ==> !copied || forall x: nat | x < sb.size :: Used(view, sb, x)
    {
      hide Own, Used, Synced, ValidDinode, Extends, SameInodeArea, SlotBlock, NoHoles, Written;
      PartialIsMapped(v0, sb, t0, view, table, ip.inum, off, data, o);
      var addr := Bmap(ip, o / BSIZE);
      WrittenGrew(v0, sb, t0, old(view), old(table), view, table, ip.inum, off, data);
      if addr == 0 || !copied {
        return false;
      }
      ghost var v1 := view;
      PotentialAdd(added, ip.addrs[NDIRECT], addr);
      PlainAdd(sb, added, ip.addrs[NDIRECT], addr);
      WrittenChunk(v0, sb, t0, v1, table, ip.inum, off, data, o, chunk);
      BoundAdded(added, ip.addrs[NDIRECT]);
      LogWrite(addr, PutBytes(view[addr], o % BSIZE, chunk));
      return true;
    }

    /** writei: the first tot bytes of src replace or extend the file at off;
        no other file changes. src holds the bytes the user copy can read, so a
        copy that needs more fails. Fewer than n bytes are written only after a
        failed copy or on a full disk. */
    method Writei(ip: Inode, src: seq<byte>, off: nat, n: nat) returns (tot: int)
      requires Inv(ip) && off < 0x1_0000_0000 && n < 0x1_0000_0000
      requires Potential(added, ip.addrs[NDIRECT]) + Cost(off, n) + 3 <= MAXOPBLOCKS
      modifies this`view, this`added, this`table, ip`size, ip.addrs
      ensures Inv(ip)
      ensures tot == -1 <==> off > old(ip.size) || off + n >= 0x1_0000_0000 || off + n > MAXBYTES
      ensures tot == -1 ==> view == old(view) && added == old(added) && table == old(table)
      ensures tot != -1 ==>
        && 0 <= tot <= n && tot <= |src|
        && (forall j: nat | j < |table| :: Synced(view, sb, table, j))
        && |table| == |old(table)| && table[ip.inum].size <= MAXBYTES && old(table)[ip.inum].size <= MAXBYTES
        && FileBytes(view, table[ip.inum]) == Spliced(old(FileBytes(view, table[ip.inum])), off, src[..tot])
        && OthersRead(old(view), sb, old(table), view, table, ip.inum)
      ensures tot == n || tot == -1 || |src| < n || forall x: nat | x < sb.size :: Used(view, sb, x)
      ensures |added| <= MAXOPBLOCKS
      ensures |added| <= |BitmapBlocks(sb)| + old(Plain(sb, added, ip.addrs[NDIRECT])) + Chunks(off, n) + 2
    {
      hide Own, Used, Synced, SyncedBut, Extends, SlotBlock, Written, FileBytes, OthersRead, NoHolesAll, Spliced, Plain;
      BoundAdded(added, ip.addrs[NDIRECT]);
      BoundPlain(sb, added, ip.addrs[NDIRECT]);
      NoHolesOne(view, sb, table, ip.inum);
      if off > ip.size || off + n >= 0x1_0000_0000 || off + n > MAXBYTES {
        return -1;
      }
      ghost var v0, t0 := view, table;
      NothingWritten(v0, sb, t0, ip.inum, off);
      tot := WriteLoop(ip, src, off, n);
      WrittenSize(v0, sb, t0, view, table, ip.inum, off, src[..tot]);
      BoundPlain(sb, added, ip.addrs[NDIRECT]);
      AddOne(added, IBlock(sb, ip.inum));
      FinishWrite(ip, off + tot, v0, t0, off, src[..tot]);
    }

    method WriteLoop(ip: Inode, src: seq<byte>, off: nat, n: nat) returns (tot: nat)
      requires Inv(ip) && off + n <= MAXBYTES && Written(view, sb, table, view, table, ip.inum, off, [])
      requires Potential(added, ip.addrs[NDIRECT]) + Cost(off, n) + 3 <= MAXOPBLOCKS
      modifies this`view, this`added, this`table, ip.addrs
      ensures Inv(ip) && ip.size == old(ip.size) && tot <= n && tot <= |src|
      ensures Written(old(view), sb, old(table), view, table, ip.inum, off, src[..tot])
      ensures Potential(added, ip.addrs[NDIRECT]) + 3 <= MAXOPBLOCKS
      ensures Plain(sb, added, ip.addrs[NDIRECT]) <= old(Plain(sb, added, ip.addrs[NDIRECT])) + Chunks(off, n)
      ensures tot == n || |src| < n || forall x: nat | x < sb.size :: Used(view, sb, x)
    {
      hide Own, Used, Extends, Written, NoHolesAll, SyncedBut, Potential, Cost, ChunkCost, ChunkLen, ValidDinode, Layout, ValidTable,
        Plain, Chunks;
      ghost var v0, t0, data := view, table, [];
      tot := 0;
      while tot < n
        invariant tot <= n && tot <= |src| && data == src[..tot] && Inv(ip) && ip.size == old(ip.size)
        invariant Written(v0, sb, t0, view, table, ip.inum, off, data)
        invariant Potential(added, ip.addrs[NDIRECT]) + Cost(off + tot, n - tot) + 3 <= MAXOPBLOCKS
        invariant Plain(sb, added, ip.addrs[NDIRECT]) + Chunks(off + tot, n - tot)
               <= old(Plain(sb, added, ip.addrs[NDIRECT])) + Chunks(off, n)
      {
        ChunksStep(off + tot, n - tot);
        CostStep(off + tot, n - tot);
        var m := ChunkLen(off + tot, n - tot);
        var copied := tot + m <= |src|;
        var chunk := if copied then src[tot..tot + m] else seq(m, _ => 0);
        var ok := WriteChunk(ip, off + tot, chunk, copied, v0, t0, off, data);
        if !ok {
          return;
        }
        assert data + chunk == src[..tot + m];
        data := data + chunk;
        tot := tot + m;
      }
    }

    /** writei after its loop: the size grows when the write went past it, and
        the inode goes to the disk in any case. */
    method FinishWrite(ip: Inode, end: nat, ghost v0: DiskState, ghost t0: seq<Ino>, ghost off: nat, ghost data: seq<byte>)
      requires Inv(ip) && Written(v0, sb, t0, view, table, ip.inum, off, data) && end == off + |data| <= MAXBYTES
      requires Potential(added, ip.addrs[NDIRECT]) + 3 <= MAXOPBLOCKS
      requires |table| == |t0| && table[ip.inum].size == t0[ip.inum].size
      modifies this`view, this`added, this`table, ip`size
      ensures Inv(ip) && |table| == |t0| && table[ip.inum].size <= MAXBYTES && ip.inum < |t0|
      ensures ValidTable(sb, t0) && t0[ip.inum].size <= MAXBYTES
      ensures forall j: nat | j < |table| :: Synced(view, sb, table, j)
      ensures FileBytes(view, table[ip.inum]) == Spliced(FileBytes(v0, t0[ip.inum]), off, data)
      ensures OthersRead(v0, sb, t0, view, table, ip.inum)
      ensures forall x: nat | x < sb.size :: Used(view, sb, x) == Used(old(view), sb, x)
      ensures |added| <= MAXOPBLOCKS && added == old(added) + {IBlock(sb, ip.inum)}
    {
      hide Own, Used, SyncedBut, Extends, SlotBlock, Written, FileBytes, OthersRead, NoHolesAll, Spliced, SameInodeArea;
      ghost var t1 := table;
      BoundAdded(added, ip.addrs[NDIRECT]);
      WrittenSize(v0, sb, t0, view, table, ip.inum, off, data);
      SizedRest(v0, sb, t0, view, t1, ip.inum, off, data);
      Resize(ip, end);
      AddOne(added, IBlock(sb, ip.inum));
      ghost var v2 := view;
      Iupdate(ip);
      SizedBytes(v0, sb, t0, v2, t1, view, table, ip.inum, off, data);
    }

    method Resize(ip: Inode, end: nat)
      requires Inv(ip) && end < 0x1_0000_0000
      requires var u := table[ip.inum := table[ip.inum].(size := if end > ip.size then end else ip.size)];
        ValidTable(sb, u) && NoHolesAll(view, sb, u) && SyncedBut(view, sb, u, ip.inum)
      modifies this`table, ip`size
      ensures Inv(ip)
      ensures table == old(table)[ip.inum := old(table[ip.inum]).(size := if end > old(ip.size) then end else old(ip.size))]
    {
      hide Own, SyncedBut, NoHolesAll;
      if end > ip.size {
        ResizeKeeps(view, sb, table, ip.inum, end);
        ip.size := end;
        table := table[ip.inum := ip.Val()];
      } else {
        assert table[ip.inum := table[ip.inum].(size := ip.size)] == table;
      }
    }
  }

  /** itrunc frees slots 0..11, then 13.., then 12: d counts the direct slots
      done, e the entries done, with NINDIRECT + 1 for all and the pointer. */
  predicate FreedSlot(d: nat, e: nat, k: nat) {
    (k < d && k < NDIRECT) || (NDIRECT < k <= NDIRECT + e) || (k == NDIRECT && e > NINDIRECT)
  }

  ghost predicate FreedBy(v: DiskState, i: Ino, d: nat, e: nat, b: nat)
    requires ValidIno(i)
  {
    b != 0 && exists k: nat :: k < NSLOTS && SlotBlock(v, i, k) == b && FreedSlot(d, e, k)
  }

  /** The bitmap blocks that hold the bits of an inode's blocks. */
  ghost function BitmapsOf(v: DiskState, sb: Super, i: Ino): set<nat>
    requires ValidIno(i)
  {
    set b: nat | b < sb.size && NamedBy(v, i, b) :: BBlock(sb, b)
  }

  lemma BitmapOf(v: DiskState, sb: Super, i: Ino, k: nat)
    requires ValidIno(i) && k < NSLOTS
    ensures 0 < SlotBlock(v, i, k) < sb.size ==> BBlock(sb, SlotBlock(v, i, k)) in BitmapsOf(v, sb, i)
  {
    assert 0 < SlotBlock(v, i, k) ==> NamedBy(v, i, SlotBlock(v, i, k));
  }

  lemma OneMoreFreed(v: DiskState, i: Ino, d: nat, e: nat, k: nat, d1: nat, e1: nat, b: nat)
    requires ValidIno(i) && k < NSLOTS
    requires forall x: nat | x < NSLOTS :: FreedSlot(d1, e1, x) <==> FreedSlot(d, e, x) || x == k
    ensures FreedBy(v, i, d1, e1, b) <==> FreedBy(v, i, d, e, b) || (b == SlotBlock(v, i, k) && b != 0)
  {
  }

  lemma SlotStillUsed(v: DiskState, sb: Super, t: seq<Ino>, j: nat, d: nat, e: nat, k: nat)
    requires Own(v, sb, t, 0) && j < |t| && k < NSLOTS && !FreedSlot(d, e, k) && SlotBlock(v, t[j], k) != 0
    ensures var b := SlotBlock(v, t[j], k);
      b < sb.size && Used(v, sb, b) && !FreedBy(v, t[j], d, e, b)
  {
    var b := SlotBlock(v, t[j], k);
    assert SlotIs(v, t, j, k, b);
    assert Named(v, t, b);
    forall x: nat | x < NSLOTS && FreedSlot(d, e, x)
      ensures SlotBlock(v, t[j], x) != b
    {
      assert SlotIs(v, t, j, x, b) ==> x == k;
    }
  }

  lemma PutUsedFrame(v: DiskState, sb: Super, b: nat, u: bool)
    requires Layout(sb, |v|) && b < sb.size
    ensures |PutUsed(v, sb, b, u)| == |v| && BBlock(sb, b) in BitmapBlocks(sb)
    ensures forall x: nat | x < sb.size && !InBitmap(sb, x) :: PutUsed(v, sb, b, u)[x] == v[x]
  {
    UsedOfPut(v, sb, b, u);
  }

  lemma {:induction false} SubsetSize(a: set<nat>, b: set<nat>)
    requires a <= b
    ensures |a| <= |b|
  {
    if a != {} {
      var x :| x in a;
      SubsetSize(a - {x}, b - {x});
    }
  }

  lemma AddedFits(a: set<nat>, a0: set<nat>, b: set<nat>)
    requires a <= a0 + b && |a0 + b| < MAXOPBLOCKS
    ensures |a| < MAXOPBLOCKS
  {
    SubsetSize(a, a0 + b);
  }

  /** Inode j is emptied; every other file keeps its names and contents. */
  ghost predicate Truncated(v: DiskState, t: seq<Ino>, w: DiskState, u: seq<Ino>, j: nat) {
    && |v| == |w| && |t| == |u| && j < |t|
    && u == t[j := EMPTY]
    && forall j2: nat, k: nat, b: nat | j2 != j && SlotIs(v, t, j2, k, b) && b != 0 ::
      SlotIs(w, u, j2, k, b) && (k != NDIRECT && b < |v| ==> w[b] == v[b])
  }

  lemma IndirectIntact(v: DiskState, w: DiskState, sb: Super, t: seq<Ino>, j: nat)
    requires Own(v, sb, t, 0) && j < |t| && |w| == |v| && t[j].addrs[NDIRECT] != 0
    requires forall b: nat | b < sb.size && !InBitmap(sb, b) :: w[b] == v[b]
    ensures t[j].addrs[NDIRECT] < |v| && w[t[j].addrs[NDIRECT]] == v[t[j].addrs[NDIRECT]]
  {
    IndirectIsData(v, sb, t, 0, j);
  }

  lemma NoIndirectFreed(v: DiskState, i: Ino)
    requires ValidIno(i) && i.addrs[NDIRECT] == 0
    ensures forall b: nat :: FreedBy(v, i, NDIRECT, NINDIRECT + 1, b) <==> FreedBy(v, i, NDIRECT, 0, b)
  {
  }

  lemma AllZero(a: seq<nat>)
    requires |a| == NDIRECT + 1 && forall k | 0 <= k <= NDIRECT :: a[k] == 0
    ensures Ino(0, a) == EMPTY
  {
  }

  lemma AllFreed(v: DiskState, i: Ino)
    requires ValidIno(i)
    ensures forall b: nat :: FreedBy(v, i, NDIRECT, NINDIRECT + 1, b) <==> NamedBy(v, i, b)
  {
  }

  lemma ZeroDinode(d: Dinode, d0: Dinode)
    requires ValidDinode(d0) && d == d0.(size := 0, addrs := d.addrs) && d.addrs == EMPTY.addrs
    ensures ValidDinode(d)
  {
  }

  lemma TruncRest(v: DiskState, w: DiskState, sb: Super, t: seq<Ino>, j: nat)
    requires Own(v, sb, t, 0) && j < |t| && |w| == |v| && NoHolesAll(v, sb, t) && SyncedBut(v, sb, t, j)
    requires forall b: nat | b < sb.size && !InBitmap(sb, b) :: w[b] == v[b]
    requires Own(w, sb, t[j := EMPTY], 0)
    requires forall j2 | 0 <= j2 < |t| && j2 != j :: forall k: nat | k < NSLOTS :: SlotBlock(w, t[j2], k) == SlotBlock(v, t[j2], k)
    ensures NoHolesAll(w, sb, t[j := EMPTY]) && SyncedBut(w, sb, t[j := EMPTY], j)
    ensures Truncated(v, t, w, t[j := EMPTY], j)
  {
    var u := t[j := EMPTY];
    forall j2 | 0 <= j2 < |u|
      ensures NoHoles(w, u[j2])
    {
      if j2 != j {
        assert NoHoles(v, t[j2]);
      }
    }
    forall j2: nat | j2 < |u| && j2 != j
      ensures Synced(w, sb, u, j2)
    {
      assert Synced(v, sb, t, j2);
      assert sb.inodestart <= IBlock(sb, j2) < sb.bmapstart;
    }
    forall j2: nat, k: nat, b: nat | j2 != j && SlotIs(v, t, j2, k, b) && b != 0
      ensures SlotIs(w, u, j2, k, b) && (k != NDIRECT && b < |v| ==> w[b] == v[b])
    {
      assert sb.nmeta <= b;
    }
  }

  /** iupdate after the frees changes the inode area and nothing else. */
  lemma TruncUpdated(v: DiskState, w: DiskState, x: DiskState, sb: Super, t: seq<Ino>, u: seq<Ino>, j: nat)
    requires Truncated(v, t, w, u, j) && Extends(w, u, x, u)
    requires Layout(sb, |v|) && Layout(sb, |w|) && Layout(sb, |x|) && |t| == sb.ninodes
    ensures Truncated(v, t, x, u, j)
  {
    forall j2: nat, k: nat, b: nat | j2 != j && SlotIs(v, t, j2, k, b) && b != 0
      ensures SlotIs(x, u, j2, k, b) && (k != NDIRECT && b < |v| ==> x[b] == v[b])
    {
      assert SlotIs(w, u, j2, k, b);
    }
  }

  function Min(a: nat, b: nat): nat {
    if a < b then a else b
  }

  lemma NoHolesOne(v: DiskState, sb: Super, t: seq<Ino>, j: nat)
    requires ValidTable(sb, t) && NoHolesAll(v, sb, t) && j < |t|
    ensures NoHoles(v, t[j])
  {
  }

  /** One iteration of readi copies the right slice, from a mapped block. */
  lemma ReadChunk(v: DiskState, sb: Super, t: seq<Ino>, j: nat, o: nat, m: nat)
    requires Own(v, sb, t, 0) && j < |t| && NoHoles(v, t[j])
    requires 0 < m && o + m <= t[j].size && o % BSIZE + m <= BSIZE
    ensures var b := SlotBlock(v, t[j], DataSlot(o / BSIZE));
      b < |v| && v[b][o % BSIZE..o % BSIZE + m] == FileBytes(v, t[j])[o..o + m]
  {
    var b := SlotBlock(v, t[j], DataSlot(o / BSIZE));
    assert SlotIs(v, t, j, DataSlot(o / BSIZE), b);
    var part := v[b][o % BSIZE..o % BSIZE + m];
    forall k | 0 <= k < m
      ensures part[k] == FileBytes(v, t[j])[o + k]
    {
      assert (o + k) / BSIZE == o / BSIZE && (o + k) % BSIZE == o % BSIZE + k;
    }
  }

  // ----- what a write does to contents -----

  function PutBytes(blk: Block, o: nat, d: seq<byte>): Block
    requires o + |d| <= BSIZE
  {
    blk[..o] + d + blk[o + |d|..]
  }

  /** s with d written at off <= |s|. */
  function Spliced(s: seq<byte>, off: nat, d: seq<byte>): seq<byte>
    requires off <= |s|
  {
    s[..off] + d + (if off + |d| < |s| then s[off + |d|..] else [])
  }

  /** Log blocks one block of a write may need: an unmapped block takes its
      bitmap block and itself, and only a block written from its start can be
      unmapped. */
  function ChunkCost(o: nat): nat {
    if o % BSIZE == 0 then 2 else 1
  }

  function Cost(o: nat, n: nat): nat
    decreases n
  {
    if n == 0 then 0
    else ChunkCost(o) + Cost(o + ChunkLen(o, n), n - ChunkLen(o, n))
  }

  /** Bytes of a transfer of n bytes at o that lie in the block of o. */
  function ChunkLen(o: nat, n: nat): (m: nat)
    ensures m <= n && o % BSIZE + m <= BSIZE && (n > 0 ==> m > 0)
  {
    Min(n, BSIZE - o % BSIZE)
  }

  /** Blocks a transfer of n bytes at o touches. */
  function Chunks(o: nat, n: nat): nat
    decreases n
  {
    if n == 0 then 0 else 1 + Chunks(o + ChunkLen(o, n), n - ChunkLen(o, n))
  }

  lemma ChunksStep(o: nat, n: nat)
    requires n > 0
    ensures Chunks(o, n) == 1 + Chunks(o + ChunkLen(o, n), n - ChunkLen(o, n))
  {
  }

  lemma {:induction false} ChunksAre(o: nat, n: nat)
    requires n > 0
    ensures Chunks(o, n) == (o + n - 1) / BSIZE - o / BSIZE + 1
    decreases n
  {
    var m := ChunkLen(o, n);
    if n > m {
      assert (o + m) % BSIZE == 0 && (o + m) / BSIZE == o / BSIZE + 1;
      ChunksAre(o + m, n - m);
    }
  }

  lemma FourChunks(o: nat, n: nat)
    requires n <= 3 * BSIZE
    ensures Chunks(o, n) <= 4
  {
    if n > 0 {
      ChunksAre(o, n);
    }
  }

  lemma CostStep(o: nat, n: nat)
    requires n > 0
    ensures var m := ChunkLen(o, n);
      Cost(o, n) == ChunkCost(o) + Cost(o + m, n - m)
  {
  }

  lemma {:induction false} AlignedCost(o: nat, n: nat, k: nat)
    requires o % BSIZE == 0 && n <= k * BSIZE
    ensures Cost(o, n) <= 2 * k
    decreases n
  {
    if n > 0 {
      var m := ChunkLen(o, n);
      if n > m {
        AlignedCost(o + m, n - m, k - 1);
      }
    }
  }

  /** A write of up to three blocks' worth of bytes costs at most seven log
      blocks besides the indirect block's two and the inode's one. */
  lemma ChunkFits(o: nat, n: nat)
    requires n <= 3 * BSIZE
    ensures Cost(o, n) + 3 <= MAXOPBLOCKS
  {
    if n > 0 {
      if o % BSIZE == 0 {
        AlignedCost(o, n, 3);
      } else {
        var m := ChunkLen(o, n);
        AlignedRest(o, n);
      }
    }
  }

  lemma AlignedRest(o: nat, n: nat)
    requires 0 < n <= 3 * BSIZE && o % BSIZE != 0
    ensures Cost(o + ChunkLen(o, n), n - ChunkLen(o, n)) <= 6
  {
    var m := ChunkLen(o, n);
    if n > m {
      assert (o + m) % BSIZE == 0;
      AlignedCost(o + m, n - m, 3);
    }
  }

  lemma {:induction false} AlignedBlocks(o: nat, n: nat, k: nat)
    requires o % BSIZE == 0 && k * BSIZE < n
    ensures Cost(o, n) >= 2 * (k + 1)
    decreases k
  {
    CostStep(o, n);
    if k > 0 {
      AlignedBlocks(o + BSIZE, n - BSIZE, k - 1);
    }
  }

  /** filewrite's chunk is as large as it can be: the count fits a transaction
      at every offset exactly for writes of up to three blocks' worth of bytes,
      and an unaligned write of that size needs all of it. */
  lemma ChunkIsLargest(n: nat)
    ensures (forall o: nat :: Cost(o, n) + 3 <= MAXOPBLOCKS) <==> n <= 3 * BSIZE
    ensures Cost(1, 3 * BSIZE) + 3 == MAXOPBLOCKS
  {
    if n <= 3 * BSIZE {
      forall o: nat
        ensures Cost(o, n) + 3 <= MAXOPBLOCKS
      {
        ChunkFits(o, n);
      }
    } else {
      AlignedBlocks(0, n, 3);
    }
    CostStep(1, 3 * BSIZE);
    CostStep(BSIZE, 2 * BSIZE + 1);
    CostStep(2 * BSIZE, BSIZE + 1);
    CostStep(3 * BSIZE, 1);
  }

  lemma BoundAdded(added: set<nat>, ind: nat)
    ensures |added| <= Potential(added, ind) + 2
  {
  }

  /** Every other file reads as before. */
  ghost predicate OthersRead(v0: DiskState, sb: Super, t0: seq<Ino>, v: DiskState, t: seq<Ino>, j: nat) {
    && ValidTable(sb, t0) && ValidTable(sb, t)
    && forall j2 | 0 <= j2 < |t0| && j2 != j ::
      && t[j2] == t0[j2]
      && forall x: nat | x < t0[j2].size && x < MAXBYTES :: ByteAt(v, t[j2], x) == ByteAt(v0, t0[j2], x)
  }

  /** Since (v0, t0), bytes off.. of file j have become data, all blocks up to
      there are mapped, and nothing else that a file reads has changed. */
  ghost predicate Written(v0: DiskState, sb: Super, t0: seq<Ino>, v: DiskState, t: seq<Ino>, j: nat,
                          off: nat, data: seq<byte>) {
    && OthersRead(v0, sb, t0, v, t, j) && NoHolesAll(v0, sb, t0)
    && j < |t| && t[j].size == t0[j].size && off <= t0[j].size && off + |data| <= MAXBYTES
    && (forall x: nat | x < t0[j].size && !(off <= x < off + |data|) :: ByteAt(v, t[j], x) == ByteAt(v0, t0[j], x))
    && (forall x: nat | off <= x < off + |data| :: ByteAt(v, t[j], x) == data[x - off])
    && forall bn: nat | bn < MAXFILE && (bn * BSIZE < t0[j].size || bn * BSIZE < off + |data|) ::
      SlotBlock(v, t[j], DataSlot(bn)) != 0
  }

  lemma PlainAdd(sb: Super, a: set<nat>, ind: nat, x: nat)
    ensures Plain(sb, a + {x}, ind) <= Plain(sb, a, ind) + (if x in a then 0 else 1)
  {
    var b := BitmapBlocks(sb) + (if ind == 0 then {} else {ind});
    Leaving(a, BitmapBlocks(sb), ind);
    Leaving(a + {x}, BitmapBlocks(sb), ind);
    if x in a {
      assert a + {x} == a;
    } else {
      SubsetSize(a + {x} - b, (a - b) + {x});
      AddOne(a - b, x);
    }
  }

  lemma Leaving(a: set<nat>, b: set<nat>, ind: nat)
    ensures a - b - (if ind == 0 then {} else {ind}) == a - (b + (if ind == 0 then {} else {ind}))
  {
  }

  /** The bitmap block does not count. */
  lemma PlainBitmap(v: DiskState, sb: Super, a: set<nat>, ind: nat, p: nat)
    requires Layout(sb, |v|) && p < sb.size
    ensures Plain(sb, a + {BBlock(sb, p), p}, ind) == Plain(sb, a + {p}, ind)
  {
    assert BBlock(sb, p) in BitmapBlocks(sb);
    assert a + {BBlock(sb, p), p} - BitmapBlocks(sb) == a + {p} - BitmapBlocks(sb);
  }

  lemma PlainSlot(v: DiskState, sb: Super, a: set<nat>, ind: nat, p: nat)
    requires Layout(sb, |v|) && p < sb.size
    ensures Plain(sb, a + {BBlock(sb, p), p}, ind) <= Plain(sb, a, ind) + 1
  {
    PlainBitmap(v, sb, a, ind, p);
    PlainAdd(sb, a, ind, p);
  }

  /** Nor does the indirect block. */
  lemma PlainIndirect(v: DiskState, sb: Super, a: set<nat>, ind: nat)
    requires Layout(sb, |v|) && 0 < ind < sb.size
    ensures Plain(sb, a + {BBlock(sb, ind), ind}, ind) <= Plain(sb, a, 0)
  {
    PlainBitmap(v, sb, a, ind, ind);
    SubsetSize(a + {ind} - BitmapBlocks(sb) - {ind}, a - BitmapBlocks(sb));
  }

  lemma PlainEntry(v: DiskState, sb: Super, a: set<nat>, ind: nat, p: nat)
    requires Layout(sb, |v|) && p < sb.size && ind != 0
    ensures Plain(sb, a + {BBlock(sb, p), p} + {ind}, ind) <= Plain(sb, a, ind) + 1
  {
    PlainSlot(v, sb, a, ind, p);
    var b := a + {BBlock(sb, p), p};
    assert b + {ind} - BitmapBlocks(sb) - {ind} == b - BitmapBlocks(sb) - {ind};
  }

  lemma BoundPlain(sb: Super, a: set<nat>, ind: nat)
    ensures |a| <= Plain(sb, a, ind) + |BitmapBlocks(sb)| + 1
  {
    var i := if ind == 0 then {} else {ind};
    var c := a - BitmapBlocks(sb) - i;
    SubsetSize(a, c + BitmapBlocks(sb) + i);
    assert |c + BitmapBlocks(sb)| <= |c| + |BitmapBlocks(sb)|;
    assert |c + BitmapBlocks(sb) + i| <= |c + BitmapBlocks(sb)| + |i|;
  }

  lemma PotentialAdd(a: set<nat>, ind: nat, x: nat)
    ensures Potential(a + {x}, ind) <= Potential(a, ind) + (if x in a then 0 else 1)
  {
    AddOne(a, x);
  }

  lemma PartialIsMapped(v0: DiskState, sb: Super, t0: seq<Ino>, v: DiskState, t: seq<Ino>, j: nat,
                        off: nat, data: seq<byte>, o: nat)
    requires Written(v0, sb, t0, v, t, j, off, data) && o == off + |data| < MAXBYTES
    ensures o % BSIZE != 0 ==> SlotBlock(v, t[j], DataSlot(o / BSIZE)) != 0
  {
    assert o / BSIZE * BSIZE <= o;
  }

  lemma MappedByteKept(v: DiskState, sb: Super, t: seq<Ino>, w: DiskState, u: seq<Ino>, j: nat)
    requires Layout(sb, |v|) && ValidTable(sb, t) && ValidTable(sb, u) && NamedUsed(v, sb, t) && Extends(v, t, w, u) && j < |t|
    ensures forall x: nat | x < MAXBYTES && SlotBlock(v, t[j], DataSlot(x / BSIZE)) != 0 ::
      ByteAt(w, u[j], x) == ByteAt(v, t[j], x)
    ensures forall bn: nat | bn < MAXFILE && SlotBlock(v, t[j], DataSlot(bn)) != 0 :: SlotBlock(w, u[j], DataSlot(bn)) != 0
  {
    forall x: nat | x < MAXBYTES && SlotBlock(v, t[j], DataSlot(x / BSIZE)) != 0
      ensures ByteAt(w, u[j], x) == ByteAt(v, t[j], x)
    {
      ExtendsKeepsBytes(v, sb, t, w, u, j, x);
    }
    forall bn: nat | bn < MAXFILE && SlotBlock(v, t[j], DataSlot(bn)) != 0
      ensures SlotBlock(w, u[j], DataSlot(bn)) != 0
    {
      ExtendsKeepsBytes(v, sb, t, w, u, j, bn * BSIZE);
    }
  }

  /** A file without holes reads the same when the block map grows. */
  lemma FileKept(v: DiskState, sb: Super, t: seq<Ino>, w: DiskState, u: seq<Ino>, j: nat)
    requires Layout(sb, |v|) && ValidTable(sb, t) && ValidTable(sb, u) && NamedUsed(v, sb, t) && Extends(v, t, w, u)
    requires j < |t| && NoHoles(v, t[j])
    ensures forall x: nat | x < t[j].size && x < MAXBYTES :: ByteAt(w, u[j], x) == ByteAt(v, t[j], x)
  {
    MappedByteKept(v, sb, t, w, u, j);
    forall x: nat | x < t[j].size && x < MAXBYTES
      ensures SlotBlock(v, t[j], DataSlot(x / BSIZE)) != 0
    {
      assert x / BSIZE * BSIZE <= x;
    }
  }

  lemma OthersGrew(v0: DiskState, sb: Super, t0: seq<Ino>, v: DiskState, t: seq<Ino>, w: DiskState, u: seq<Ino>, j: nat)
    requires Layout(sb, |v|) && ValidTable(sb, t) && ValidTable(sb, u) && NamedUsed(v, sb, t) && Extends(v, t, w, u)
    requires NoHolesAll(v, sb, t) && OthersRead(v0, sb, t0, v, t, j)
    requires forall j2: nat | j2 < |t| && j2 != j :: u[j2] == t[j2]
    ensures OthersRead(v0, sb, t0, w, u, j)
  {
    hide SlotBlock, NoHoles;
    forall j2 | 0 <= j2 < |t0| && j2 != j
      ensures u[j2] == t0[j2]
      ensures forall x: nat | x < t0[j2].size && x < MAXBYTES :: ByteAt(w, u[j2], x) == ByteAt(v0, t0[j2], x)
    {
      FileKept(v, sb, t, w, u, j2);
    }
  }

  lemma WrittenGrew(v0: DiskState, sb: Super, t0: seq<Ino>, v: DiskState, t: seq<Ino>, w: DiskState, u: seq<Ino>, j: nat,
                    off: nat, data: seq<byte>)
    requires Own(v, sb, t, 0) && ValidTable(sb, u) && Extends(v, t, w, u) && NoHolesAll(v, sb, t)
    requires Written(v0, sb, t0, v, t, j, off, data)
    requires forall j2: nat | j2 < |t| && j2 != j :: u[j2] == t[j2]
    ensures Written(v0, sb, t0, w, u, j, off, data)
  {
    hide SlotBlock, NoHoles, ByteAt;
    OthersGrew(v0, sb, t0, v, t, w, u, j);
    MappedByteKept(v, sb, t, w, u, j);
    forall x: nat | x < MAXBYTES && (x < t0[j].size || x < off + |data|)
      ensures SlotBlock(v, t[j], DataSlot(x / BSIZE)) != 0
    {
      assert x / BSIZE * BSIZE <= x;
    }
    assert NoHoles(v0, t0[j]);
    SizeBound(v0, t0[j]);
  }

  lemma SizeBound(v: DiskState, i: Ino)
    requires ValidIno(i) && NoHoles(v, i)
    ensures i.size <= MAXBYTES
  {
  }

  /** A write to block b of file j leaves other blocks' bytes alone. */
  lemma ChunkByte(v: DiskState, sb: Super, t: seq<Ino>, j: nat, bn: nat, data: Block, j2: nat, x: nat)
    requires Own(v, sb, t, 0) && j < |t| && j2 < |t| && bn < MAXFILE && x < MAXBYTES
    requires SlotBlock(v, t[j], DataSlot(bn)) != 0
    ensures var b := SlotBlock(v, t[j], DataSlot(bn));
      && b < |v|
      && (forall k: nat | k < NSLOTS :: SlotBlock(v[b := data], t[j2], k) == SlotBlock(v, t[j2], k))
      && ByteAt(v[b := data], t[j2], x) == if j2 == j && x / BSIZE == bn then data[x % BSIZE] else ByteAt(v, t[j2], x)
  {
    var b := SlotBlock(v, t[j], DataSlot(bn));
    assert SlotIs(v, t, j, DataSlot(bn), b);
    DataWriteKeeps(v, sb, t, j, DataSlot(bn), b, data);
    var w := v[b := data];
    forall k: nat | k < NSLOTS
      ensures SlotBlock(w, t[j2], k) == SlotBlock(v, t[j2], k)
    {
      assert SlotIs(v, t, j2, k, SlotBlock(v, t[j2], k));
      assert SlotIs(w, t, j2, k, SlotBlock(v, t[j2], k));
    }
    var k2 := DataSlot(x / BSIZE);
    assert SlotIs(v, t, j2, k2, SlotBlock(v, t[j2], k2));
  }

  lemma WrittenChunk(v0: DiskState, sb: Super, t0: seq<Ino>, v: DiskState, t: seq<Ino>, j: nat,
                     off: nat, data: seq<byte>, o: nat, chunk: seq<byte>)
    requires Own(v, sb, t, 0) && NoHolesAll(v, sb, t) && SyncedBut(v, sb, t, j) && j < |t|
    requires Written(v0, sb, t0, v, t, j, off, data) && o == off + |data|
    requires 0 < |chunk| <= BSIZE - o % BSIZE && o + |chunk| <= MAXBYTES
    requires SlotBlock(v, t[j], DataSlot(o / BSIZE)) != 0
    ensures var b := SlotBlock(v, t[j], DataSlot(o / BSIZE));
      && b < |v|
      && var w := v[b := PutBytes(v[b], o % BSIZE, chunk)];
        && Own(w, sb, t, 0) && NoHolesAll(w, sb, t) && SyncedBut(w, sb, t, j)
        && Written(v0, sb, t0, w, t, j, off, data + chunk)
  {
    hide SlotBlock, ByteAt, NoHoles;
    var bn := o / BSIZE;
    var b := SlotBlock(v, t[j], DataSlot(bn));
    assert SlotIs(v, t, j, DataSlot(bn), b);
    var blk := PutBytes(v[b], o % BSIZE, chunk);
    DataWriteKeeps(v, sb, t, j, DataSlot(bn), b, blk);
    var w := v[b := blk];
    forall j2: nat, x: nat | j2 < |t| && x < MAXBYTES
      ensures ByteAt(w, t[j2], x) == if j2 == j && o <= x < o + |chunk| then chunk[x - o] else ByteAt(v, t[j2], x)
    {
      ChunkByte(v, sb, t, j, bn, blk, j2, x);
      PutByte(v, t[j], x, o, b, chunk);
    }
    forall j2: nat, k: nat | j2 < |t| && k < NSLOTS
      ensures SlotBlock(w, t[j2], k) == SlotBlock(v, t[j2], k)
    {
      ChunkByte(v, sb, t, j, bn, blk, j2, 0);
    }
    SameSlotsRest(v, w, sb, t, j, b);
    ChunkMapped(v, t[j], t0[j].size, off, data, o, chunk);
    WrittenBytes(v0, sb, t0, v, w, t, j, off, data, o, chunk);
  }

  lemma WrittenBytes(v0: DiskState, sb: Super, t0: seq<Ino>, v: DiskState, w: DiskState, t: seq<Ino>, j: nat,
                     off: nat, data: seq<byte>, o: nat, chunk: seq<byte>)
    requires Written(v0, sb, t0, v, t, j, off, data) && o == off + |data| && o + |chunk| <= MAXBYTES && |w| == |v|
    requires forall j2: nat, x: nat | j2 < |t| && x < MAXBYTES ::
      ByteAt(w, t[j2], x) == if j2 == j && o <= x < o + |chunk| then chunk[x - o] else ByteAt(v, t[j2], x)
    requires forall bn: nat | bn < MAXFILE && (bn * BSIZE < t0[j].size || bn * BSIZE < off + |data + chunk|) ::
      SlotBlock(w, t[j], DataSlot(bn)) != 0
    ensures Written(v0, sb, t0, w, t, j, off, data + chunk)
  {
    hide SlotBlock, ByteAt;
    assert NoHoles(v0, t0[j]);
    SizeBound(v0, t0[j]);
    forall j2 | 0 <= j2 < |t0| && j2 != j
      ensures forall x: nat | x < t0[j2].size && x < MAXBYTES :: ByteAt(w, t[j2], x) == ByteAt(v0, t0[j2], x)
    {
      forall x: nat | x < t0[j2].size && x < MAXBYTES
        ensures ByteAt(w, t[j2], x) == ByteAt(v0, t0[j2], x)
      {
        assert ByteAt(w, t[j2], x) == ByteAt(v, t[j2], x);
      }
    }
    forall x: nat | x < t0[j].size && !(off <= x < off + |data + chunk|)
      ensures ByteAt(w, t[j], x) == ByteAt(v0, t0[j], x)
    {
      assert ByteAt(w, t[j], x) == ByteAt(v, t[j], x);
    }
    forall x: nat | off <= x < off + |data + chunk|
      ensures ByteAt(w, t[j], x) == (data + chunk)[x - off]
    {
      assert x < o ==> ByteAt(w, t[j], x) == ByteAt(v, t[j], x);
    }
  }

  lemma PutByte(v: DiskState, i: Ino, x: nat, o: nat, b: nat, chunk: seq<byte>)
    requires ValidIno(i) && x < MAXBYTES && b < |v| && 0 < |chunk| <= BSIZE - o % BSIZE
    requires o < MAXBYTES && b == SlotBlock(v, i, DataSlot(o / BSIZE)) && b != 0
    ensures x / BSIZE == o / BSIZE ==>
      PutBytes(v[b], o % BSIZE, chunk)[x % BSIZE] == if o <= x < o + |chunk| then chunk[x - o] else ByteAt(v, i, x)
    ensures o <= x < o + |chunk| ==> x / BSIZE == o / BSIZE
  {
  }

  lemma SameSlotsRest(v: DiskState, w: DiskState, sb: Super, t: seq<Ino>, j: nat, b: nat)
    requires Own(v, sb, t, 0) && |w| == |v| && NoHolesAll(v, sb, t) && SyncedBut(v, sb, t, j) && sb.nmeta <= b < |v|
    requires forall j2: nat, k: nat | j2 < |t| && k < NSLOTS :: SlotBlock(w, t[j2], k) == SlotBlock(v, t[j2], k)
    requires forall x: nat | x < |v| && x != b :: w[x] == v[x]
    ensures NoHolesAll(w, sb, t) && SyncedBut(w, sb, t, j)
  {
    forall j2 | 0 <= j2 < |t|
      ensures NoHoles(w, t[j2])
    {
      assert NoHoles(v, t[j2]);
    }
    forall j2: nat | j2 < |t| && j2 != j
      ensures Synced(w, sb, t, j2)
    {
      assert Synced(v, sb, t, j2);
      assert sb.inodestart <= IBlock(sb, j2) < sb.bmapstart;
    }
  }

  /** The blocks below the new end of a write are mapped. */
  lemma ChunkMapped(v: DiskState, i: Ino, size0: nat, off: nat, data: seq<byte>, o: nat, chunk: seq<byte>)
    requires ValidIno(i) && o == off + |data| && o + |chunk| <= MAXBYTES && 0 < |chunk| <= BSIZE - o % BSIZE
    requires SlotBlock(v, i, DataSlot(o / BSIZE)) != 0
    requires forall bn: nat | bn < MAXFILE && (bn * BSIZE < size0 || bn * BSIZE < off + |data|) ::
      SlotBlock(v, i, DataSlot(bn)) != 0
    ensures forall bn: nat | bn < MAXFILE && (bn * BSIZE < size0 || bn * BSIZE < off + |data + chunk|) ::
      SlotBlock(v, i, DataSlot(bn)) != 0
  {
    hide SlotBlock;
    forall bn: nat | bn < MAXFILE && bn * BSIZE < off + |data + chunk|
      ensures SlotBlock(v, i, DataSlot(bn)) != 0
    {
      assert bn <= o / BSIZE;
      assert bn * BSIZE < o || bn == o / BSIZE;
    }
  }

  /** The size after a write. */
  function NewSize(i: Ino, off: nat, data: seq<byte>): nat {
    if off + |data| > i.size then off + |data| else i.size
  }

  lemma SizedRest(v0: DiskState, sb: Super, t0: seq<Ino>, v: DiskState, t: seq<Ino>, j: nat, off: nat, data: seq<byte>)
    requires Layout(sb, |v|) && Written(v0, sb, t0, v, t, j, off, data) && NoHolesAll(v, sb, t) && SyncedBut(v, sb, t, j)
    ensures var u := t[j := t[j].(size := NewSize(t[j], off, data))];
      ValidTable(sb, u) && NoHolesAll(v, sb, u) && SyncedBut(v, sb, u, j)
  {
    var u := t[j := t[j].(size := NewSize(t[j], off, data))];
    forall k | 0 <= k < |u|
      ensures NoHoles(v, u[k])
    {
      assert NoHoles(v, t[k]);
      assert NoHoles(v0, t0[k]);
      if k == j {
        forall bn: nat | bn * BSIZE < u[j].size
          ensures SlotBlock(v, u[j], DataSlot(bn)) != 0
        {
          assert SlotBlock(v, u[j], DataSlot(bn)) == SlotBlock(v, t[j], DataSlot(bn));
        }
      }
    }
    forall k: nat | k < |u| && k != j
      ensures Synced(v, sb, u, k)
    {
      assert Synced(v, sb, t, k);
    }
  }

  lemma SizedBytes(v0: DiskState, sb: Super, t0: seq<Ino>, v: DiskState, t: seq<Ino>, w: DiskState, u: seq<Ino>, j: nat,
                   off: nat, data: seq<byte>)
    requires Own(v, sb, u, 0) && Written(v0, sb, t0, v, t, j, off, data) && Extends(v, u, w, u)
    requires u == t[j := t[j].(size := NewSize(t[j], off, data))] && NoHolesAll(v, sb, u) && |t| == sb.ninodes
    ensures u[j].size <= MAXBYTES && t0[j].size <= MAXBYTES
    ensures FileBytes(w, u[j]) == Spliced(FileBytes(v0, t0[j]), off, data)
    ensures OthersRead(v0, sb, t0, w, u, j)
  {
    hide SlotBlock, ByteAt;
    assert NoHoles(v0, t0[j]) && NoHoles(v, u[j]);
    OthersGrew(v0, sb, t0, v, u, w, u, j);
    FileKept(v, sb, u, w, u, j);
    forall x: nat | x < u[j].size
      ensures ByteAt(v, u[j], x) == ByteAt(v, t[j], x)
    {
      SameAddrs(v, u[j], t[j], x);
    }
    var a, b := FileBytes(w, u[j]), Spliced(FileBytes(v0, t0[j]), off, data);
    forall x: nat | x < |a|
      ensures a[x] == b[x]
    {
      assert a[x] == ByteAt(v, t[j], x);
    }
  }

  lemma WrittenSize(v0: DiskState, sb: Super, t0: seq<Ino>, v: DiskState, t: seq<Ino>, j: nat, off: nat, data: seq<byte>)
    requires Written(v0, sb, t0, v, t, j, off, data)
    ensures ValidTable(sb, t0) && j < |t0| == |t| == sb.ninodes && t0[j].size <= MAXBYTES && off <= t0[j].size
    ensures t[j].size == t0[j].size
  {
    assert NoHoles(v0, t0[j]);
  }

  lemma SameAddrs(v: DiskState, i: Ino, i2: Ino, x: nat)
    requires ValidIno(i) && ValidIno(i2) && i.addrs == i2.addrs && x < MAXBYTES
    ensures ByteAt(v, i, x) == ByteAt(v, i2, x)
  {
  }

  lemma NothingWritten(v: DiskState, sb: Super, t: seq<Ino>, j: nat, off: nat)
    requires ValidTable(sb, t) && NoHolesAll(v, sb, t) && j < |t| && off <= t[j].size
    ensures Written(v, sb, t, v, t, j, off, [])
  {
    assert NoHoles(v, t[j]);
  }

  lemma SameAreaChain(v: DiskState, w: DiskState, x: DiskState, sb: Super)
    requires SameInodeArea(v, w, sb) && SameInodeArea(w, x, sb)
    ensures SameInodeArea(v, x, sb)
  {
  }

  lemma OwnIndirect(v: DiskState, sb: Super, t: seq<Ino>, j: nat)
    requires Own(v, sb, t, 0) && j < |t| && t[j].addrs[NDIRECT] != 0
    ensures t[j].addrs[NDIRECT] < |v|
  {
    IndirectIsData(v, sb, t, 0, j);
  }

  lemma SmallAdded(added: set<nat>, ind: nat)
    requires Potential(added, ind) + 4 < MAXOPBLOCKS
    ensures |added| + 2 < MAXOPBLOCKS
  {
  }

  lemma SlotPotential(a: set<nat>, ind: nat, x: nat, y: nat)
    ensures Potential(a + {x, y}, ind) <= Potential(a, ind) + 2
  {
    AddOne(a, x);
    AddOne(a + {x}, y);
    assert a + {x, y} == a + {x} + {y};
  }

  /** Allocating the indirect block is already accounted for. */
  lemma IndirectPotential(a: set<nat>, ind: nat, x: nat)
    requires ind != 0
    ensures Potential(a + {x, ind}, ind) <= Potential(a, 0)
  {
    AddOne(a, x);
    AddOne(a + {x}, ind);
    assert a + {x, ind} == a + {x} + {ind};
  }

  lemma EntryPotential(a: set<nat>, ind: nat, x: nat, y: nat)
    requires ind != 0 && Potential(a, ind) + 4 < MAXOPBLOCKS
    ensures |a + {x, y}| < MAXOPBLOCKS
    ensures Potential(a + {x, y} + {ind}, ind) <= Potential(a, ind) + 2
  {
    AddOne(a, x);
    AddOne(a + {x}, y);
    assert a + {x, y} == a + {x} + {y};
    AddOne(a + {x, y}, ind);
  }

  /** After balloc, naming the new block in entry e of inode j's indirect block. */
  lemma AllocEntryNamed(v: DiskState, sb: Super, t: seq<Ino>, j: nat, e: nat, p: nat)
    requires Own(v, sb, t, 0) && p < sb.size && !Used(v, sb, p)
    requires j < |t| && e < NINDIRECT && t[j].addrs[NDIRECT] != 0 && SlotBlock(v, t[j], e + NDIRECT + 1) == 0
    ensures 0 < p < 0x1_0000_0000
    ensures var x, v1 := t[j].addrs[NDIRECT], PutUsed(v, sb, p, true)[p := ZERO];
      && x < |v1| && |v1| == |v|
      && var w: DiskState := v1[x := PutWord(v1[x], e, p)];
        && w[p] == ZERO
        && Own(w, sb, t, 0) && Extends(v, t, w, t) && SlotIs(w, t, j, e + NDIRECT + 1, p)
        && SameInodeArea(v, w, sb)
  {
    var x, v1 := t[j].addrs[NDIRECT], PutUsed(v, sb, p, true)[p := ZERO];
    AllocKeeps(v, sb, t, p);
    AllocExtends(v, sb, t, p);
    assert SlotIs(v, t, j, e + NDIRECT + 1, 0) && SlotIs(v1, t, j, e + NDIRECT + 1, 0);
    NameInIndirect(v1, sb, t, j, e, p);
    IndirectIsData(v1, sb, t, p, j);
    ExtendsChain(v, t, v1, t, v1[x := PutWord(v1[x], e, p)], t);
    UsedOfPut(v, sb, p, true);
  }

  lemma OwnTable(v: DiskState, sb: Super, t: seq<Ino>)
    requires Own(v, sb, t, 0)
    ensures Layout(sb, |v|) && ValidTable(sb, t)
  {
  }

  lemma NothingGrew(v: DiskState, sb: Super, t: seq<Ino>)
    ensures Extends(v, t, v, t) && SameInodeArea(v, v, sb)
  {
  }

  /** After balloc, naming the new block in slot k of inode j. */
  lemma AllocNamed(v: DiskState, sb: Super, t: seq<Ino>, j: nat, k: nat, p: nat)
    requires Own(v, sb, t, 0) && p < sb.size && !Used(v, sb, p)
    requires j < |t| && k <= NDIRECT && t[j].addrs[k] == 0
    ensures 0 < p < 0x1_0000_0000
    ensures var w, u := PutUsed(v, sb, p, true)[p := ZERO], t[j := t[j].(addrs := t[j].addrs[k := p])];
      && |w| == |v| && w[p] == ZERO && ValidTable(sb, u)
      && Own(w, sb, u, 0) && Extends(v, t, w, u) && SlotIs(w, u, j, k, p)
      && SameInodeArea(v, w, sb)
  {
    var w, u := PutUsed(v, sb, p, true)[p := ZERO], t[j := t[j].(addrs := t[j].addrs[k := p])];
    AllocKeeps(v, sb, t, p);
    AllocExtends(v, sb, t, p);
    NameInInode(w, sb, t, j, k, p);
    ExtendsChain(v, t, w, t, w, u);
    UsedOfPut(v, sb, p, true);
  }

  lemma Regrown(v: DiskState, w: DiskState, sb: Super, t: seq<Ino>, u: seq<Ino>, j: nat)
    requires Layout(sb, |v|) && ValidTable(sb, t) && ValidTable(sb, u) && |w| == |v| && j < |t|
    requires NoHolesAll(v, sb, t) && SyncedBut(v, sb, t, j) && Extends(v, t, w, u) && SameInodeArea(v, w, sb)
    requires forall j2: nat | j2 < |t| && j2 != j :: u[j2] == t[j2]
    ensures NoHolesAll(w, sb, u) && SyncedBut(w, sb, u, j)
  {
    ExtendsKeepsHoles(v, sb, t, w, u);
    forall j2: nat | j2 < |u| && j2 != j
      ensures Synced(w, sb, u, j2)
    {
      assert Synced(v, sb, t, j2);
      assert sb.inodestart <= IBlock(sb, j2) < sb.bmapstart;
    }
  }
}
