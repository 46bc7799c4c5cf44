/** Disk blocks as byte sequences, and the little-endian 32-bit words the
    file system reads and writes inside them (log header, indirect blocks, inodes). */
module Blocks {
  const BSIZE := 1024
  const NWORDS := 256 // BSIZE / sizeof(uint)

  type byte = x: int | 0 <= x < 256
  type word = x: int | 0 <= x < 0x1_0000_0000
  type Block = b: seq<byte> | |b| == BSIZE witness seq(BSIZE, _ => 0)

  const ZERO: Block := seq(BSIZE, _ => 0)

  function Word(b: Block, w: nat): word
    requires w < NWORDS
  {
    (b[4 * w] as int) + 0x100 * (b[4 * w + 1] as int)
      + 0x1_0000 * (b[4 * w + 2] as int) + 0x100_0000 * (b[4 * w + 3] as int)
  }

  function PutWord(b: Block, w: nat, v: word): Block
    requires w < NWORDS
  {
    b[4 * w := v % 0x100][4 * w + 1 := v / 0x100 % 0x100]
     [4 * w + 2 := v / 0x1_0000 % 0x100][4 * w + 3 := v / 0x100_0000]
  }

  /** A stored word reads back, and no other word moves. */
  lemma WordOfPut(b: Block, w: nat, v: word)
    requires w < NWORDS
    ensures Word(PutWord(b, w, v), w) == v
    ensures forall u: nat | u < NWORDS && u != w :: Word(PutWord(b, w, v), u) == Word(b, u)
  {
    assert v == v % 0x100 + 0x100 * (v / 0x100 % 0x100)
             + 0x1_0000 * (v / 0x1_0000 % 0x100) + 0x100_0000 * (v / 0x100_0000);
  }

  /** The number that bytes stand for, least significant first. */
  function LittleEndian(b: seq<byte>): nat {
    if b == [] then 0 else (b[0] as nat) + 0x100 * LittleEndian(b[1..])
  }

  lemma TwoBytes(b: seq<byte>)
    requires |b| == 2
    ensures LittleEndian(b) == (b[0] as nat) + 0x100 * (b[1] as nat)
  {
    assert b[1..] == [b[1]] && b[1..][1..] == [];
    assert LittleEndian(b[1..]) == b[1] as nat;
  }

  /** A word is four bytes. */
  lemma WordIsBytes(b: Block, w: nat)
    requires w < NWORDS
    ensures Word(b, w) == LittleEndian(b[4 * w..4 * w + 4])
  {
    var s := b[4 * w..4 * w + 4];
    assert s[1..][1..] == s[2..];
    TwoBytes(s[2..]);
  }

  /** Its halves are two each. */
  lemma HalvesAreBytes(b: Block, w: nat)
    requires w < NWORDS
    ensures Word(b, w) % 0x1_0000 == LittleEndian(b[4 * w..4 * w + 2])
    ensures Word(b, w) / 0x1_0000 == LittleEndian(b[4 * w + 2..4 * w + 4])
  {
    TwoBytes(b[4 * w..4 * w + 2]);
    TwoBytes(b[4 * w + 2..4 * w + 4]);
  }

  lemma PutWordElsewhere(b: Block, w: nat, v: word, i: nat)
    requires w < NWORDS && i < BSIZE && !(4 * w <= i < 4 * w + 4)
    ensures PutWord(b, w, v)[i] == b[i]
  {
  }

  lemma WordOfZero(w: nat)
    requires w < NWORDS
    ensures Word(ZERO, w) == 0
  {
  }
}
