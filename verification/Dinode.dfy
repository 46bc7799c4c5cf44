/** The 64-byte on-disk inode: 16 words, sixteen inodes to a block. */
module Dinodes {
  import opened Blocks
  import opened LogSpec
  import opened FsSpec

  datatype Dinode = Dinode(typ: nat, major: nat, minor: nat, nlink: nat, size: nat, addrs: seq<nat>)

  ghost predicate ValidDinode(d: Dinode) {
    && d.typ < 0x1_0000 && d.major < 0x1_0000 && d.minor < 0x1_0000 && d.nlink < 0x1_0000
    && d.size < 0x1_0000_0000
    && |d.addrs| == NDIRECT + 1 && forall k | 0 <= k <= NDIRECT :: d.addrs[k] < 0x1_0000_0000
  }

  function ToWords(d: Dinode): seq<nat> {
    [d.typ + 0x1_0000 * d.major, d.minor + 0x1_0000 * d.nlink, d.size] + d.addrs
  }

  function PutWords(blk: Block, base: nat, ws: seq<nat>, i: nat): Block
    requires i <= |ws| && base + |ws| <= NWORDS && Addresses(ws)
  {
    if i == 0 then blk else PutWord(PutWords(blk, base, ws, i - 1), base + i - 1, ws[i - 1])
  }

  /** iupdate's copy into the inode's place in its block. */
  function PutDinode(blk: Block, slot: nat, d: Dinode): Block
    requires slot < IPB && |d.addrs| == NDIRECT + 1 && Addresses(ToWords(d))
  {
    PutWords(blk, 16 * slot, ToWords(d), 16)
  }

  /** ilock's copy out of it. */
  function GetDinode(blk: Block, slot: nat): (d: Dinode)
    requires slot < IPB
    ensures |d.addrs| == NDIRECT + 1
  {
    var w0, w1 := Word(blk, 16 * slot), Word(blk, 16 * slot + 1);
    Dinode(w0 % 0x1_0000, w0 / 0x1_0000, w1 % 0x1_0000, w1 / 0x1_0000, Word(blk, 16 * slot + 2),
           GetAddrs(blk, 16 * slot + 3, NDIRECT + 1))
  }

  function GetAddrs(blk: Block, base: nat, n: nat): (a: seq<nat>)
    requires base + n <= NWORDS
    ensures |a| == n && forall k | 0 <= k < n :: a[k] == Word(blk, base + k)
  {
    if n == 0 then [] else GetAddrs(blk, base, n - 1) + [Word(blk, base + n - 1) as nat]
  }

  lemma {:induction false} WordsOfPutWords(blk: Block, base: nat, ws: seq<nat>, i: nat)
    requires i <= |ws| && base + |ws| <= NWORDS && Addresses(ws)
    ensures forall u: nat | u < NWORDS ::
      Word(PutWords(blk, base, ws, i), u) == if base <= u < base + i then ws[u - base] else Word(blk, u)
  {
    if i > 0 {
      WordsOfPutWords(blk, base, ws, i - 1);
      WordOfPut(PutWords(blk, base, ws, i - 1), base + i - 1, ws[i - 1]);
    }
  }

  /** ilock reads back what iupdate wrote, and no other inode of the block moves. */
  lemma DinodeRoundTrip(blk: Block, slot: nat, d: Dinode)
    requires slot < IPB && ValidDinode(d)
    ensures Addresses(ToWords(d)) && GetDinode(PutDinode(blk, slot, d), slot) == d
    ensures forall s: nat | s < IPB && s != slot :: GetDinode(PutDinode(blk, slot, d), s) == GetDinode(blk, s)
  {
    hide PutWords, Word;
    var ws := ToWords(d);
    WordsFit(d);
    WordsOfPutWords(blk, 16 * slot, ws, 16);
    OwnDinode(PutDinode(blk, slot, d), slot, d);
    forall s: nat | s < IPB && s != slot
      ensures GetDinode(PutDinode(blk, slot, d), s) == GetDinode(blk, s)
    {
      OtherDinode(blk, PutDinode(blk, slot, d), slot, s);
    }
  }

  lemma WordsFit(d: Dinode)
    requires ValidDinode(d)
    ensures Addresses(ToWords(d))
  {
    var ws := ToWords(d);
    forall i | 0 <= i < |ws|
      ensures ws[i] < 0x1_0000_0000
    {
      assert i >= 3 ==> ws[i] == d.addrs[i - 3];
    }
  }

  lemma OwnDinode(put: Block, slot: nat, d: Dinode)
    requires slot < IPB && ValidDinode(d)
    requires forall u: nat | 16 * slot <= u < 16 * slot + 16 :: Word(put, u) == ToWords(d)[u - 16 * slot]
    ensures GetDinode(put, slot) == d
  {
    hide Word;
    var e := GetDinode(put, slot);
    assert Word(put, 16 * slot) == ToWords(d)[16 * slot - 16 * slot];
    assert Word(put, 16 * slot + 1) == ToWords(d)[16 * slot + 1 - 16 * slot];
    assert Word(put, 16 * slot + 2) == ToWords(d)[16 * slot + 2 - 16 * slot];
    forall k | 0 <= k <= NDIRECT
      ensures e.addrs[k] == d.addrs[k]
    {
      assert Word(put, 16 * slot + 3 + k) == ToWords(d)[16 * slot + 3 + k - 16 * slot];
    }
    assert e.addrs == d.addrs;
  }

  lemma OtherDinode(blk: Block, put: Block, slot: nat, s: nat)
    requires slot < IPB && s < IPB && s != slot
    requires forall u: nat | u < NWORDS && !(16 * slot <= u < 16 * slot + 16) :: Word(put, u) == Word(blk, u)
    ensures GetDinode(put, s) == GetDinode(blk, s)
  {
    hide Word;
    assert s < slot || s > slot;
    assert GetDinode(put, s).addrs == GetDinode(blk, s).addrs;
  }

  // ----- the bytes of an inode -----

  /** struct dinode at byte `at` of a block: four shorts, the size, thirteen
      block numbers, all least significant byte first. */
  ghost predicate InodeBytes(blk: Block, at: nat, d: Dinode) {
    && at + 64 <= BSIZE && |d.addrs| == 13
    && d.typ == LittleEndian(blk[at..at + 2])
    && d.major == LittleEndian(blk[at + 2..at + 4])
    && d.minor == LittleEndian(blk[at + 4..at + 6])
    && d.nlink == LittleEndian(blk[at + 6..at + 8])
    && d.size == LittleEndian(blk[at + 8..at + 12])
    && forall k | 0 <= k < 13 :: d.addrs[k] == LittleEndian(blk[at + 12 + 4 * k..at + 16 + 4 * k])
  }

  /** What ilock takes out of a block are the inode's 64 bytes. */
  lemma InodeLayout(blk: Block, slot: nat)
    requires slot < IPB
    ensures InodeBytes(blk, 64 * slot, GetDinode(blk, slot))
  {
    hide Word, LittleEndian;
    var d := GetDinode(blk, slot);
    HalvesAreBytes(blk, 16 * slot);
    HalvesAreBytes(blk, 16 * slot + 1);
    WordIsBytes(blk, 16 * slot + 2);
    forall k | 0 <= k < 13
      ensures d.addrs[k] == LittleEndian(blk[64 * slot + 12 + 4 * k..64 * slot + 16 + 4 * k])
    {
      WordIsBytes(blk, 16 * slot + 3 + k);
    }
  }

  /** ... and iupdate puts them there, the rest of the block as it was. */
  lemma PutDinodeLayout(blk: Block, slot: nat, d: Dinode)
    requires slot < IPB && ValidDinode(d)
    ensures Addresses(ToWords(d)) && InodeBytes(PutDinode(blk, slot, d), 64 * slot, d)
    ensures forall i | 0 <= i < BSIZE && !(64 * slot <= i < 64 * slot + 64) :: PutDinode(blk, slot, d)[i] == blk[i]
  {
    hide GetDinode, InodeBytes;
    DinodeRoundTrip(blk, slot, d);
    InodeLayout(PutDinode(blk, slot, d), slot);
    forall i | 0 <= i < BSIZE && !(64 * slot <= i < 64 * slot + 64)
      ensures PutDinode(blk, slot, d)[i] == blk[i]
    {
      PutWordsElsewhere(blk, 16 * slot, ToWords(d), 16, i);
    }
  }

  lemma {:induction false} PutWordsElsewhere(blk: Block, base: nat, ws: seq<nat>, n: nat, i: nat)
    requires n <= |ws| && base + |ws| <= NWORDS && Addresses(ws) && i < BSIZE && !(4 * base <= i < 4 * base + 4 * n)
    ensures PutWords(blk, base, ws, n)[i] == blk[i]
  {
    if n > 0 {
      PutWordsElsewhere(blk, base, ws, n - 1, i);
      PutWordElsewhere(PutWords(blk, base, ws, n - 1), base + n - 1, ws[n - 1], i);
    }
  }

  function IBlock(sb: Super, j: nat): nat {
    j / IPB + sb.inodestart
  }

  ghost function OnDisk(v: DiskState, sb: Super, j: nat): (d: Dinode)
    requires Layout(sb, |v|) && j < sb.ninodes
  {
    GetDinode(v[IBlock(sb, j)], j % IPB)
  }

  /** The on-disk inode j names the same size and blocks. */
  ghost predicate Synced(v: DiskState, sb: Super, t: seq<Ino>, j: nat)
    requires Layout(sb, |v|) && |t| == sb.ninodes && j < |t|
  {
    OnDisk(v, sb, j).size == t[j].size && OnDisk(v, sb, j).addrs == t[j].addrs
  }

  ghost predicate SyncedBut(v: DiskState, sb: Super, t: seq<Ino>, j: nat)
    requires Layout(sb, |v|) && |t| == sb.ninodes
  {
    forall j2: nat | j2 < |t| && j2 != j :: Synced(v, sb, t, j2)
  }

  ghost predicate SameInodeArea(v: DiskState, w: DiskState, sb: Super) {
    |v| == |w| && forall b: nat | sb.inodestart <= b < sb.bmapstart && b < |v| :: v[b] == w[b]
  }

  lemma UpdateSyncs(v: DiskState, sb: Super, t: seq<Ino>, j: nat, d: Dinode)
    requires Layout(sb, |v|) && |t| == sb.ninodes && j < |t| && SyncedBut(v, sb, t, j)
    requires ValidDinode(d) && d.size == t[j].size && d.addrs == t[j].addrs
    ensures sb.inodestart <= IBlock(sb, j) < sb.bmapstart && Addresses(ToWords(d))
    ensures var w := v[IBlock(sb, j) := PutDinode(v[IBlock(sb, j)], j % IPB, d)];
      && OnDisk(w, sb, j) == d
      && forall j2: nat | j2 < |t| :: Synced(w, sb, t, j2)
  {
    hide GetDinode, PutDinode;
    DinodeRoundTrip(v[IBlock(sb, j)], j % IPB, d);
    var w := v[IBlock(sb, j) := PutDinode(v[IBlock(sb, j)], j % IPB, d)];
    forall j2: nat | j2 < |t| && j2 != j
      ensures OnDisk(w, sb, j2) == OnDisk(v, sb, j2)
    {
      if IBlock(sb, j2) == IBlock(sb, j) {
        assert j2 % IPB != j % IPB;
      }
    }
    forall j2: nat | j2 < |t|
      ensures Synced(w, sb, t, j2)
    {
      assert j2 != j ==> Synced(v, sb, t, j2);
    }
  }
}
