/** fileread and filewrite on an inode file: one transaction per chunk. */
module FileIo {
  import opened Blocks
  import opened LogSpec
  import opened FsSpec
  import opened FsContent
  import opened Dinodes
  import opened Fs

  const MAXCHUNK := 3072 // ((MAXOPBLOCKS - 1 - 1 - 2) / 2) * BSIZE

  class File {
    const readable: bool
    const writable: bool
    const ip: Inode
    var off: nat

    constructor (readable: bool, writable: bool, ip: Inode)
      ensures this.readable == readable && this.writable == writable && this.ip == ip && off == 0
    {
      this.readable, this.writable, this.ip, off := readable, writable, ip, 0;
    }
  }

  lemma SplicedTwice(s: seq<byte>, off: nat, a: seq<byte>, b: seq<byte>)
    requires off <= |s|
    ensures off + |a| <= |Spliced(s, off, a)|
    ensures Spliced(Spliced(s, off, a), off + |a|, b) == Spliced(s, off, a + b)
  {
  }

  lemma OthersReadChain(v0: DiskState, sb: Super, t0: seq<Ino>, v1: DiskState, t1: seq<Ino>, v2: DiskState, t2: seq<Ino>, j: nat)
    requires OthersRead(v0, sb, t0, v1, t1, j) && OthersRead(v1, sb, t1, v2, t2, j)
    ensures OthersRead(v0, sb, t0, v2, t2, j)
  {
    hide ByteAt;
    forall j2 | 0 <= j2 < |t0| && j2 != j
      ensures t2[j2] == t0[j2]
      ensures forall x: nat | x < t0[j2].size && x < MAXBYTES :: ByteAt(v2, t2[j2], x) == ByteAt(v0, t0[j2], x)
    {
      forall x: nat | x < t0[j2].size && x < MAXBYTES
        ensures ByteAt(v2, t2[j2], x) == ByteAt(v0, t0[j2], x)
      {
        assert ByteAt(v2, t2[j2], x) == ByteAt(v1, t1[j2], x);
      }
    }
  }

  lemma OthersReadSelf(v: DiskState, sb: Super, t: seq<Ino>, j: nat)
    requires ValidTable(sb, t)
    ensures OthersRead(v, sb, t, v, t, j)
  {
  }

  /** Every block is allocated. */
  ghost predicate DiskFull(v: DiskState, sb: Super)
    requires Layout(sb, |v|)
  {
    forall x: nat | x < sb.size :: Used(v, sb, x)
  }

  /** One transaction of filewrite: it logs at most six blocks besides bitmap
      blocks, so at most seven where the bitmap is one block. */
  method WriteChunk(fs: FileSystem, f: File, src: seq<byte>, n1: nat) returns (r: int)
    requires fs.Inv(f.ip) && 0 < n1 <= MAXCHUNK && f.off <= MAXBYTES
    modifies fs`view, fs`added, fs`table, f`off, f.ip`size, f.ip.addrs
    ensures fs.Inv(f.ip) && |fs.added| <= MAXOPBLOCKS && |fs.added| <= 6 + fs.sb.nmeta - fs.sb.bmapstart
    ensures r == -1 || (0 <= r <= n1 && r <= |src| && old(f.off) <= |old(fs.Contents(f.ip))|)
    ensures r == -1 <==> old(f.off) > |old(fs.Contents(f.ip))| || old(f.off) + n1 > MAXBYTES
    ensures r == -1 || r == n1 || |src| < n1 || DiskFull(fs.view, fs.sb)
    ensures f.off == old(f.off) + (if r > 0 then r else 0) && f.off <= MAXBYTES
    ensures fs.Contents(f.ip) == if r > 0 then Spliced(old(fs.Contents(f.ip)), old(f.off), src[..r])
                                 else old(fs.Contents(f.ip))
    ensures OthersRead(old(fs.view), fs.sb, old(fs.table), fs.view, fs.table, f.ip.inum)
  {
    hide Own, NoHolesAll, SyncedBut, FileBytes, OthersRead, Used, ValidDinode, ByteAt;
    OthersReadSelf(fs.view, fs.sb, fs.table, f.ip.inum);
    fs.BeginOp();
    ChunkFits(f.off, n1);
    FourChunks(f.off, n1);
    BitmapSize(fs.sb);
    r := fs.Writei(f.ip, src, f.off, n1);
    if r > 0 {
      f.off := f.off + r;
    }
  }

  /** What filewrite has done after w bytes to contents c0 at offset off0:
      exactly src[..w] is in the file there, and the offset has moved by w. */
  ghost predicate WroteBytes(c0: seq<byte>, off0: nat, c: seq<byte>, off: nat, src: seq<byte>, w: nat) {
    && w <= |src| && off == off0 + w
    && (w > 0 ==> off0 <= |c0|)
    && c == if w > 0 then Spliced(c0, off0, src[..w]) else c0
  }

  /** The user copy can read n bytes, the offset is no further than the end of
      the file, and the file size stays within bounds. */
  predicate Writable(size: nat, off: nat, src: seq<byte>, n: int) {
    0 <= n <= |src| && (n == 0 || off <= size) && off + n <= MAXBYTES
  }

  /** filewrite of n bytes, of which the user copy can read src: w bytes are
      written, and the result is n when that is all of them, else -1. All of
      them are written whenever they can be, unless the disk fills up. No chunk
      needs more than MAXOPBLOCKS log blocks, wherever the offset lies. */
  method FileWrite(fs: FileSystem, f: File, src: seq<byte>, n: int) returns (ret: int, ghost w: nat)
    requires fs.Inv(f.ip) && f.off <= MAXBYTES
    modifies fs`view, fs`added, fs`table, f`off, f.ip`size, f.ip.addrs
    ensures fs.Inv(f.ip) && f.off <= MAXBYTES
    ensures WroteBytes(old(fs.Contents(f.ip)), old(f.off), fs.Contents(f.ip), f.off, src, w)
    ensures OthersRead(old(fs.view), fs.sb, old(fs.table), fs.view, fs.table, f.ip.inum)
    ensures if !f.writable then ret == -1 && w == 0 else ret == if w == n then n else -1
    ensures w == 0 || w <= n
    ensures f.writable && !Writable(old(|fs.Contents(f.ip)|), old(f.off), src, n) ==> ret == -1
    ensures f.writable && Writable(old(|fs.Contents(f.ip)|), old(f.off), src, n) ==> ret == n || DiskFull(fs.view, fs.sb)
  {
    hide Own, NoHolesAll, SyncedBut, FileBytes, OthersRead, Used, ValidDinode, ByteAt, Spliced, WroteBytes;
    w := 0;
    ghost var c0, off0, v0, t0 := fs.Contents(f.ip), f.off, fs.view, fs.table;
    OthersReadSelf(v0, fs.sb, t0, f.ip.inum);
    NothingWrote(c0, off0, src);
    if !f.writable {
      return -1, 0;
    }
    var i := 0;
    while i < n
      invariant 0 <= i && (i == 0 || i <= n) && fs.Inv(f.ip) && f.off <= MAXBYTES
      invariant WroteBytes(c0, off0, fs.Contents(f.ip), f.off, src, i)
      invariant OthersRead(v0, fs.sb, t0, fs.view, fs.table, f.ip.inum)
      invariant i > 0 ==> off0 <= |c0| && i <= |src| && off0 + i <= MAXBYTES
    {
      ghost var c1, off1, v1, t1 := fs.Contents(f.ip), f.off, fs.view, fs.table;
      WroteBounds(c0, off0, c1, off1, src, i);
      EndReached(c0, off0, c1, off1, src, i);
      var r := WriteNext(fs, f, src, i, n);
      OthersReadChain(v0, fs.sb, t0, v1, t1, fs.view, fs.table, f.ip.inum);
      WroteMore(c0, off0, c1, off1, fs.Contents(f.ip), f.off, src, i, if r > 0 then r else 0);
      w := i + (if r > 0 then r else 0);
      if r != Min(n - i, MAXCHUNK) {
        return -1, w;
      }
      i := i + r;
    }
    w := i;
    ret := if i == n then n else -1;
  }

  lemma NothingWrote(c: seq<byte>, off: nat, src: seq<byte>)
    ensures WroteBytes(c, off, c, off, src, 0)
  {
  }

  lemma WroteBounds(c0: seq<byte>, off0: nat, c: seq<byte>, off: nat, src: seq<byte>, w: nat)
    requires WroteBytes(c0, off0, c, off, src, w)
    ensures w <= |src|
  {
  }

  /** The offset stays within the file if it was at first. */
  lemma EndReached(c0: seq<byte>, off0: nat, c: seq<byte>, off: nat, src: seq<byte>, w: nat)
    requires WroteBytes(c0, off0, c, off, src, w)
    ensures off == off0 + w && (off <= |c| <==> off0 <= |c0|)
  {
  }

  lemma WroteMore(c0: seq<byte>, off0: nat, c1: seq<byte>, off1: nat, c2: seq<byte>, off2: nat, src: seq<byte>, i: nat, r: nat)
    requires WroteBytes(c0, off0, c1, off1, src, i) && r <= |src| - i && off2 == off1 + r
    requires r > 0 ==> off1 <= |c1|
    requires c2 == if r > 0 then Spliced(c1, off1, src[i..][..r]) else c1
    ensures WroteBytes(c0, off0, c2, off2, src, i + r)
  {
    assert src[..i] + src[i..][..r] == src[..i + r];
    if i > 0 && r > 0 {
      SplicedTwice(c0, off0, src[..i], src[i..][..r]);
    }
  }

  method WriteNext(fs: FileSystem, f: File, src: seq<byte>, i: nat, n: int) returns (r: int)
    requires fs.Inv(f.ip) && i < n && i <= |src| && f.off <= MAXBYTES
    modifies fs`view, fs`added, fs`table, f`off, f.ip`size, f.ip.addrs
    ensures fs.Inv(f.ip) && f.off <= MAXBYTES
    ensures r == -1 || (0 <= r <= Min(n - i, MAXCHUNK) && r <= |src| - i && old(f.off) <= |old(fs.Contents(f.ip))|)
    ensures r == -1 <==> old(f.off) > |old(fs.Contents(f.ip))| || old(f.off) + Min(n - i, MAXCHUNK) > MAXBYTES
    ensures r == -1 || r == Min(n - i, MAXCHUNK) || |src| - i < Min(n - i, MAXCHUNK) || DiskFull(fs.view, fs.sb)
    ensures f.off == old(f.off) + (if r > 0 then r else 0)
    ensures fs.Contents(f.ip) == if r > 0 then Spliced(old(fs.Contents(f.ip)), old(f.off), src[i..][..r])
                                 else old(fs.Contents(f.ip))
    ensures OthersRead(old(fs.view), fs.sb, old(fs.table), fs.view, fs.table, f.ip.inum)
  {
    hide Own, NoHolesAll, SyncedBut, FileBytes, OthersRead, Used, ValidDinode, ByteAt, Spliced;
    r := WriteChunk(fs, f, src[i..], Min(n - i, MAXCHUNK));
  }

  /** fileread: runs outside a transaction, and allocates and logs nothing. n
      is an int that readi takes as an unsigned number. */
  method FileRead(fs: FileSystem, f: File, n: int, room: nat) returns (r: int, dst: seq<byte>)
    requires fs.Inv(f.ip) && f.off <= MAXBYTES && -0x8000_0000 <= n < 0x8000_0000
    modifies fs`view, fs`added, fs`table, f`off, f.ip.addrs
    ensures fs.Inv(f.ip) && fs.view == old(fs.view) && fs.added == old(fs.added) && fs.table == old(fs.table)
    ensures !f.readable ==> r == -1
    ensures f.off == old(f.off) + (if r > 0 then r else 0)
    ensures f.readable ==>
      var c := old(fs.Contents(f.ip));
      var off, len := old(f.off), if n < 0 then n + 0x1_0000_0000 else n;
      if off > |c| || off + len >= 0x1_0000_0000 then r == 0
      else if Min(len, |c| - off) > room then r == -1
      else r == Min(len, |c| - off) && dst == c[off..off + r]
  {
    hide Own, NoHolesAll, SyncedBut, FileBytes, Used, ValidDinode, ByteAt;
    dst := [];
    if !f.readable {
      return -1, [];
    }
    r, dst := fs.Readi(f.ip, f.off, if n < 0 then n + 0x1_0000_0000 else n, room);
    if r > 0 {
      f.off := f.off + r;
    }
  }
}
