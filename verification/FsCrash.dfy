/** Crash atomicity for files: after any crash in a commit and any crashes in
    recovery, the file system is whole and every file has its old contents, or
    it is whole and every file has its new ones. */
module FsCrash {
  import opened Blocks
  import opened LogSpec
  import opened FsSpec
  import opened FsContent
  import opened Dinodes
  import opened FileIo

  /** The file system of inodes t: ownership, no holes, and inodes as on disk. */
  ghost predicate Whole(v: DiskState, sb: Super, t: seq<Ino>) {
    && Own(v, sb, t, 0) && NoHolesAll(v, sb, t)
    && forall j: nat | j < |t| :: Synced(v, sb, t, j)
  }

  /** The same blocks outside the log area. */
  ghost predicate SameHome(v: DiskState, w: DiskState, start: nat) {
    |v| == |w| && forall b: nat | b < |v| && !InLog(start, b) :: w[b] == v[b]
  }

  lemma HomeIndirect(v: DiskState, sb: Super, t: seq<Ino>, w: DiskState, start: nat)
    requires Own(v, sb, t, 0) && SameHome(v, w, start) && start + LOGBLOCKS < sb.inodestart
    ensures SameSlots(v, t, w, t)
    ensures forall j: nat, k: nat | j < |t| && k < NSLOTS :: SlotBlock(w, t[j], k) == SlotBlock(v, t[j], k)
  {
    hide Used, NamedOnce, NamedUsed, Named;
    forall j | 0 <= j < |t|
      ensures 0 < t[j].addrs[NDIRECT] < |v| ==> w[t[j].addrs[NDIRECT]] == v[t[j].addrs[NDIRECT]]
    {
      if t[j].addrs[NDIRECT] != 0 {
        IndirectIsData(v, sb, t, 0, j);
      }
    }
    SlotsFrame(v, t, w);
  }

  lemma HomeBits(v: DiskState, sb: Super, w: DiskState, start: nat, b: nat)
    requires Layout(sb, |v|) && SameHome(v, w, start) && start + LOGBLOCKS < sb.inodestart && b < sb.size
    ensures Used(w, sb, b) == Used(v, sb, b)
  {
    assert !InLog(start, BBlock(sb, b)) && BBlock(sb, b) < |v|;
  }

  lemma HomeByte(v: DiskState, sb: Super, t: seq<Ino>, w: DiskState, start: nat, j: nat, k: nat)
    requires Own(v, sb, t, 0) && SameHome(v, w, start) && start + LOGBLOCKS < sb.inodestart && j < |t| && k < MAXBYTES
    requires SlotBlock(w, t[j], DataSlot(k / BSIZE)) == SlotBlock(v, t[j], DataSlot(k / BSIZE))
    ensures ByteAt(w, t[j], k) == ByteAt(v, t[j], k)
  {
    hide Used, NamedOnce, Named, SlotBlock;
    var b := SlotBlock(v, t[j], DataSlot(k / BSIZE));
    assert SlotIs(v, t, j, DataSlot(k / BSIZE), b);
  }

  /** A file system lives in its home blocks: the log area does not matter. */
  lemma HomeIsAll(v: DiskState, sb: Super, t: seq<Ino>, w: DiskState, start: nat)
    requires Whole(v, sb, t) && SameHome(v, w, start) && start + LOGBLOCKS < sb.inodestart
    ensures Whole(w, sb, t)
    ensures forall j: nat | j < |t| :: FileBytes(w, t[j]) == FileBytes(v, t[j])
  {
    HomeIndirect(v, sb, t, w, start);
    forall b: nat | b < sb.size
      ensures Used(w, sb, b) == Used(v, sb, b)
    {
      HomeBits(v, sb, w, start, b);
    }
    OwnFrame(v, w, sb, t, t, 0);
    forall j: nat | j < |t|
      ensures NoHoles(w, t[j]) && Synced(w, sb, t, j) && FileBytes(w, t[j]) == FileBytes(v, t[j])
    {
      assert Synced(v, sb, t, j) && NoHoles(v, t[j]);
      assert !InLog(start, IBlock(sb, j)) && IBlock(sb, j) < |v|;
      forall k: nat | k < t[j].size
        ensures ByteAt(w, t[j], k) == ByteAt(v, t[j], k)
      {
        HomeByte(v, sb, t, w, start, j, k);
      }
    }
  }

  /** d is the disk before the transaction, with inodes t0, view what its
      operations have made of it, with inodes t1. Stop the commit of the blocks
      ts after any k of its writes and crash recovery any number of times: the
      recovered file system is whole with all the old files, or, exactly when
      the non-empty header was written, whole with all the new ones. */
  lemma FilesSurviveCrash(d: DiskState, view: DiskState, start: nat, ts: seq<nat>, k: nat, crashes: seq<nat>,
                          sb: Super, t0: seq<Ino>, t1: seq<Ino>)
    requires Ready(d, view, start, ts) && k <= |CommitWrites(view, start, ts, d[start])|
    requires start + LOGBLOCKS < sb.inodestart && Whole(d, sb, t0) && Whole(view, sb, t1)
    ensures var s := Apply(d, CommitWrites(view, start, ts, d[start])[..k]);
      && WellFormed(s, start)
      && var r, t, v := Recovered(Crashed(s, start, crashes), start), if k <= |ts| then t0 else t1, if k <= |ts| then d else view;
      && Whole(r, sb, t) && forall j: nat | j < |t| :: FileBytes(r, t[j]) == FileBytes(v, t[j])
  {
    hide Whole, CommitWrites, Recovered, Crashed, Apply, WellFormed;
    CrashAtomicity(d, view, start, ts, k, crashes);
    var s := Apply(d, CommitWrites(view, start, ts, d[start])[..k]);
    var r := Recovered(Crashed(s, start, crashes), start);
    if k <= |ts| {
      HomeIsAll(d, sb, t0, r, start);
    } else {
      HomeIsAll(view, sb, t1, r, start);
    }
  }

  // ----- several transactions -----

  /** A transaction: the blocks it commits, the view they come from, and the
      inodes of that view. */
  datatype Tx = Tx(view: DiskState, ts: seq<nat>, table: seq<Ino>)

  ghost predicate Commits(d: DiskState, start: nat, x: Tx) {
    Ready(d, x.view, start, x.ts)
  }

  /** The disk after a whole commit. */
  ghost function Next(d: DiskState, start: nat, x: Tx): (e: DiskState)
    requires Commits(d, start, x)
    ensures |e| == |d|
  {
    Apply(d, CommitWrites(x.view, start, x.ts, d[start]))
  }

  /** Commits that follow each other on the disk. */
  ghost predicate Chain(d: DiskState, start: nat, txs: seq<Tx>)
    decreases |txs|
  {
    txs == [] || (Commits(d, start, txs[0]) && Chain(Next(d, start, txs[0]), start, txs[1..]))
  }

  /** The disk when transaction n begins to commit. */
  ghost function Before(d: DiskState, start: nat, txs: seq<Tx>, n: nat): (e: DiskState)
    requires Chain(d, start, txs) && n < |txs|
    ensures Commits(e, start, txs[n])
    decreases n
  {
    if n == 0 then d else Before(Next(d, start, txs[0]), start, txs[1..], n - 1)
  }

  /** The file system at first and in the view of every transaction. */
  ghost predicate AllWhole(d: DiskState, sb: Super, t: seq<Ino>, txs: seq<Tx>) {
    Whole(d, sb, t) && forall i | 0 <= i < |txs| :: Whole(txs[i].view, sb, txs[i].table)
  }

  /** The inodes after m transactions. */
  ghost function TableAt(t: seq<Ino>, txs: seq<Tx>, m: nat): seq<Ino>
    requires m <= |txs|
  {
    if m == 0 then t else txs[m - 1].table
  }

  /** The bytes of file j after m transactions. */
  ghost function FileAt(d: DiskState, sb: Super, t: seq<Ino>, txs: seq<Tx>, m: nat, j: nat): seq<byte>
    requires AllWhole(d, sb, t, txs) && m <= |txs| && j < |TableAt(t, txs, m)|
  {
    if m == 0 then FileBytes(d, t[j]) else FileBytes(txs[m - 1].view, txs[m - 1].table[j])
  }

  lemma CommittedHome(d: DiskState, start: nat, x: Tx)
    requires Commits(d, start, x)
    ensures SameHome(x.view, Next(d, start, x), start)
  {
    var ws := CommitWrites(x.view, start, x.ts, d[start]);
    if x.ts == [] {
      assert ws == [];
    } else {
      hide EncodeHeader, CommitSteps, Apply;
      assert Addresses(x.ts);
      var h := EncodeHeader(d[start], x.ts);
      StepsDone(d, x.view, start, x.ts, h, EncodeHeader(h, []));
    }
  }

  /** Between transactions the disk is the file system of the last one's view. */
  lemma WholeAfter(d: DiskState, start: nat, x: Tx, sb: Super)
    requires Commits(d, start, x) && Whole(x.view, sb, x.table) && start + LOGBLOCKS < sb.inodestart
    ensures Whole(Next(d, start, x), sb, x.table)
    ensures forall j: nat | j < |x.table| :: FileBytes(Next(d, start, x), x.table[j]) == FileBytes(x.view, x.table[j])
  {
    hide SameHome, Next;
    CommittedHome(d, start, x);
    HomeIsAll(x.view, sb, x.table, Next(d, start, x), start);
  }

  /** r is the whole file system that stands after m transactions. */
  ghost predicate RestoredTo(r: DiskState, d: DiskState, sb: Super, t: seq<Ino>, txs: seq<Tx>, m: nat)
    requires AllWhole(d, sb, t, txs) && m <= |txs|
  {
    && Whole(r, sb, TableAt(t, txs, m))
    && forall j: nat | j < |TableAt(t, txs, m)| :: FileBytes(r, TableAt(t, txs, m)[j]) == FileAt(d, sb, t, txs, m, j)
  }

  /** What stands after m transactions, seen from before and after the first. */
  lemma OneEarlier(d: DiskState, e: DiskState, sb: Super, t: seq<Ino>, txs: seq<Tx>, m: nat)
    requires 0 < m <= |txs| && AllWhole(d, sb, t, txs) && AllWhole(e, sb, txs[0].table, txs[1..])
    requires forall j: nat | j < |txs[0].table| :: FileBytes(e, txs[0].table[j]) == FileBytes(txs[0].view, txs[0].table[j])
    ensures forall r | RestoredTo(r, e, sb, txs[0].table, txs[1..], m - 1) :: RestoredTo(r, d, sb, t, txs, m)
  {
    hide Whole;
    assert m > 1 ==> txs[1..][m - 2] == txs[m - 1];
  }

  /** Any number of transactions, and a crash after k block writes of the commit
      of transaction n, with any crashes in recovery: the recovered file system
      is whole, with exactly the files after n transactions or, from the header
      write on, those after n + 1. */
  lemma {:induction false} ChainSurvivesCrash(d: DiskState, start: nat, sb: Super, t: seq<Ino>, txs: seq<Tx>,
                                              n: nat, k: nat, crashes: seq<nat>)
    requires Chain(d, start, txs) && AllWhole(d, sb, t, txs) && start + LOGBLOCKS < sb.inodestart && n < |txs|
    requires k <= |CommitWrites(txs[n].view, start, txs[n].ts, Before(d, start, txs, n)[start])|
    ensures var e := Before(d, start, txs, n);
      var s := Apply(e, CommitWrites(txs[n].view, start, txs[n].ts, e[start])[..k]);
      && WellFormed(s, start)
      && RestoredTo(Recovered(Crashed(s, start, crashes), start), d, sb, t, txs, if k <= |txs[n].ts| then n else n + 1)
    decreases n
  {
    hide Whole, CommitWrites, Recovered, Crashed, Apply, WellFormed, Next;
    if n == 0 {
      FilesSurviveCrash(d, txs[0].view, start, txs[0].ts, k, crashes, sb, t, txs[0].table);
    } else {
      hide FileAt, RestoredTo;
      var e, x, rest := Next(d, start, txs[0]), txs[0], txs[1..];
      WholeAfter(d, start, x, sb);
      assert forall i | 0 <= i < |rest| :: rest[i] == txs[i + 1];
      ChainSurvivesCrash(e, start, sb, x.table, rest, n - 1, k, crashes);
      OneEarlier(d, e, sb, t, txs, if k <= |txs[n].ts| then n else n + 1);
    }
  }

  /** A write cut into chunks, each in a transaction of its own or with others,
      w[m] bytes of src being in file j after m transactions: a crash anywhere
      leaves a first part of src there, up to the end of a transaction. */
  lemma ChunksSurviveCrash(d: DiskState, start: nat, sb: Super, t: seq<Ino>, txs: seq<Tx>, n: nat, k: nat, crashes: seq<nat>,
                           j: nat, c0: seq<byte>, off: nat, src: seq<byte>, w: seq<nat>)
    requires Chain(d, start, txs) && AllWhole(d, sb, t, txs) && start + LOGBLOCKS < sb.inodestart && n < |txs|
    requires k <= |CommitWrites(txs[n].view, start, txs[n].ts, Before(d, start, txs, n)[start])|
    requires |w| == |txs| + 1 && forall m | 0 <= m <= |txs| ::
      j < |TableAt(t, txs, m)| && WroteBytes(c0, off, FileAt(d, sb, t, txs, m, j), off + w[m], src, w[m])
    ensures var e := Before(d, start, txs, n);
      var s := Apply(e, CommitWrites(txs[n].view, start, txs[n].ts, e[start])[..k]);
      var m := if k <= |txs[n].ts| then n else n + 1;
      && WellFormed(s, start)
      && var r := Recovered(Crashed(s, start, crashes), start);
      && Whole(r, sb, TableAt(t, txs, m))
      && WroteBytes(c0, off, FileBytes(r, TableAt(t, txs, m)[j]), off + w[m], src, w[m])
  {
    hide Chain, CommitWrites, Recovered, Crashed, Apply, WellFormed, Next, WroteBytes, FileAt;
    ChainSurvivesCrash(d, start, sb, t, txs, n, k, crashes);
  }
}
