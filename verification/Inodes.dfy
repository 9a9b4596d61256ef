/**
 The on-disk inodes of Offline 3/xv6/fs.h: struct dinode as sixteen little-endian words, eight of them to
 a block, with type, major, minor and nlink as signed 16-bit halves.
 */
module Inodes {
  import opened Blocks
  import opened FsTree

  const IPB := 8
  const DINODE_WORDS := 16

  /** The signed short with these sixteen bits. */
  function Short(u: int): int {
    if u >= 0x8000 then u - 0x1_0000 else u
  }

  predicate IsShort(x: int) {
    -0x8000 <= x < 0x8000
  }

  /** The sixteen bits of a short. */
  function Bits(x: int): (u: int)
    ensures 0 <= u < 0x1_0000
  {
    x % 0x1_0000
  }

  /** Every field fits its C type. */
  predicate Storable(ip: Inode) {
    && IsShort(ip.kind) && IsShort(ip.major) && IsShort(ip.minor) && IsShort(ip.nlink)
    && 0 <= ip.size < UINT_RANGE && |ip.addrs| == NDIRECT + 1
    && forall i :: 0 <= i < |ip.addrs| ==> 0 <= ip.addrs[i] < UINT_RANGE
  }

  /** The words of a dinode. */
  function InodeWords(ip: Inode): (w: seq<int>)
    requires Storable(ip)
    ensures |w| == DINODE_WORDS && forall i :: 0 <= i < |w| ==> 0 <= w[i] < UINT_RANGE
  {
    [Bits(ip.kind) + 0x1_0000 * Bits(ip.major), Bits(ip.minor) + 0x1_0000 * Bits(ip.nlink), ip.size] + ip.addrs
  }

  function OfWords(w: seq<int>): Inode
    requires |w| == DINODE_WORDS
  {
    Inode(Short(w[0] % 0x1_0000), Short(w[0] / 0x1_0000), Short(w[1] % 0x1_0000), Short(w[1] / 0x1_0000), w[2], w[3..])
  }

  lemma WordsRoundTrip(ip: Inode)
    requires Storable(ip)
    ensures OfWords(InodeWords(ip)) == ip
  {
    var w := InodeWords(ip);
    Halves(Bits(ip.kind), Bits(ip.major));
    Halves(Bits(ip.minor), Bits(ip.nlink));
    assert w[3..] == ip.addrs;
  }

  lemma Halves(lo: int, hi: int)
    requires 0 <= lo < 0x1_0000
    ensures (lo + 0x1_0000 * hi) % 0x1_0000 == lo && (lo + 0x1_0000 * hi) / 0x1_0000 == hi
  {
  }

  /** Storing words from word index `at` on. */
  function PutSeq(b: Block, at: int, w: seq<int>): (r: Block)
    requires |b| == BSIZE && 0 <= at && at + |w| <= WORDS && forall i :: 0 <= i < |w| ==> 0 <= w[i] < UINT_RANGE
    ensures |r| == BSIZE
    decreases |w|
  {
    if w == [] then b else SetWord(PutSeq(b, at, w[..|w| - 1]), at + |w| - 1, w[|w| - 1])
  }

  lemma {:induction false} PutSeqAt(b: Block, at: int, w: seq<int>, j: int)
    requires |b| == BSIZE && 0 <= at && at + |w| <= WORDS && (forall i :: 0 <= i < |w| ==> 0 <= w[i] < UINT_RANGE)
    requires 0 <= j < WORDS
    ensures Word(PutSeq(b, at, w), j) == if at <= j < at + |w| then w[j - at] else Word(b, j)
    decreases |w|
  {
    hide Word, SetWord;
    if w != [] {
      var n := |w| - 1;
      PutSeqAt(b, at, w[..n], j);
      WordSetWord(PutSeq(b, at, w[..n]), at + n, w[n], j);
    }
  }

  /** The words of dinode `slot` of a block. */
  function SlotWords(b: Block, slot: int): (w: seq<int>)
    requires |b| == BSIZE && 0 <= slot < IPB
    ensures |w| == DINODE_WORDS
  {
    seq(DINODE_WORDS, i requires 0 <= i < DINODE_WORDS => Word(b, DINODE_WORDS * slot + i))
  }

  function DecodeInode(b: Block, slot: int): Inode
    requires |b| == BSIZE && 0 <= slot < IPB
  {
    OfWords(SlotWords(b, slot))
  }

  /** iupdate's stores into the block. */
  function EncodeInode(b: Block, slot: int, ip: Inode): (r: Block)
    requires |b| == BSIZE && 0 <= slot < IPB && Storable(ip)
    ensures |r| == BSIZE
  {
    PutSeq(b, DINODE_WORDS * slot, InodeWords(ip))
  }

  /** Writing one inode of a block changes that inode, to the one written, and no other. */
  lemma InodeRoundTrip(b: Block, slot: int, ip: Inode, s: int)
    requires |b| == BSIZE && 0 <= slot < IPB && 0 <= s < IPB && Storable(ip)
    ensures DecodeInode(EncodeInode(b, slot, ip), s) == if s == slot then ip else DecodeInode(b, s)
  {
    hide Word, PutSeq, InodeWords, OfWords;
    var w, r := InodeWords(ip), EncodeInode(b, slot, ip);
    forall i | 0 <= i < DINODE_WORDS
      ensures SlotWords(r, s)[i] == if s == slot then w[i] else SlotWords(b, s)[i]
    {
      PutSeqAt(b, DINODE_WORDS * slot, w, DINODE_WORDS * s + i);
    }
    if s == slot {
      assert SlotWords(r, s) == w;
      WordsRoundTrip(ip);
    } else {
      assert SlotWords(r, s) == SlotWords(b, s);
    }
  }

  // ---------------------------------------------------------------------------------------------
  // The inode blocks
  // ---------------------------------------------------------------------------------------------

  const NO_INODE := Inode(0, 0, 0, 0, 0, [])

  /** IBLOCK */
  function InodeBlock(ino: int, inodestart: int): int {
    ino / IPB + inodestart
  }

  /** The inode blocks lie in front of the bitmap, have the block size and hold `sb.ninodes` inodes. */
  ghost predicate InodeArea(sb: Super, blk: seq<Block>) {
    && 0 < sb.inodestart && 0 <= sb.ninodes && (sb.ninodes > 0 ==> sb.inodestart + (sb.ninodes - 1) / IPB < sb.bmapstart) && sb.bmapstart <= |blk|
    && forall x :: sb.inodestart <= x < sb.bmapstart ==> |blk[x]| == BSIZE
  }

  /** Inode `ino` as the disk has it. */
  function Dinode(sb: Super, blk: seq<Block>, ino: int): Inode {
    var x := InodeBlock(ino, sb.inodestart);
    if 0 <= ino && 0 <= x < |blk| && |blk[x]| == BSIZE then DecodeInode(blk[x], ino % IPB) else NO_INODE
  }

  lemma InodePlace(sb: Super, blk: seq<Block>, ino: int)
    requires InodeArea(sb, blk) && 0 <= ino < sb.ninodes
    ensures
      var x := InodeBlock(ino, sb.inodestart);
      0 < sb.inodestart <= x < sb.bmapstart && x < |blk| && |blk[x]| == BSIZE && 0 <= ino % IPB < IPB
  {
    assert ino / IPB <= (sb.ninodes - 1) / IPB;
  }

  /** All inodes but `ino` are on the disk as before. */
  ghost predicate DinodesBut(sb: Super, blk: seq<Block>, blk': seq<Block>, ino: int) {
    forall o {:trigger Dinode(sb, blk', o)} :: 0 <= o < sb.ninodes && o != ino ==> Dinode(sb, blk', o) == Dinode(sb, blk, o)
  }

  /** The blocks in front of the bitmap are unchanged, and so is every inode on the disk. */
  ghost predicate InodesKept(sb: Super, blk: seq<Block>, blk': seq<Block>) {
    |blk'| == |blk| && forall x {:trigger blk'[x]} :: 0 <= x < sb.bmapstart && x < |blk| ==> blk'[x] == blk[x]
  }

  lemma KeptRefl(sb: Super, blk: seq<Block>)
    ensures InodesKept(sb, blk, blk)
  {
  }

  lemma KeptTrans(sb: Super, blk0: seq<Block>, blk1: seq<Block>, blk2: seq<Block>)
    requires InodesKept(sb, blk0, blk1) && InodesKept(sb, blk1, blk2)
    ensures InodesKept(sb, blk0, blk2)
  {
  }

  lemma KeptPut(sb: Super, blk: seq<Block>, x: int, b: Block)
    requires sb.bmapstart <= x < |blk| && 0 <= x
    ensures InodesKept(sb, blk, blk[x := b])
  {
  }

  lemma KeptArea(sb: Super, blk: seq<Block>, blk': seq<Block>)
    requires InodesKept(sb, blk, blk') && InodeArea(sb, blk)
    ensures InodeArea(sb, blk')
  {
  }

  lemma KeptDinodes(sb: Super, blk: seq<Block>, blk': seq<Block>, ino: int)
    requires InodesKept(sb, blk, blk') && InodeArea(sb, blk)
    ensures DinodesBut(sb, blk, blk', ino) && (0 <= ino < sb.ninodes ==> Dinode(sb, blk', ino) == Dinode(sb, blk, ino))
  {
    hide DecodeInode;
    forall o | 0 <= o < sb.ninodes
      ensures Dinode(sb, blk', o) == Dinode(sb, blk, o)
    {
      InodePlace(sb, blk, o);
    }
  }

  lemma ButTrans(sb: Super, blk0: seq<Block>, blk1: seq<Block>, blk2: seq<Block>, ino: int)
    requires DinodesBut(sb, blk0, blk1, ino) && DinodesBut(sb, blk1, blk2, ino)
    ensures DinodesBut(sb, blk0, blk2, ino)
  {
    hide Dinode;
    forall o | 0 <= o < sb.ninodes && o != ino
      ensures Dinode(sb, blk2, o) == Dinode(sb, blk0, o)
    {
      assert Dinode(sb, blk1, o) == Dinode(sb, blk0, o);
    }
  }

  /** The block write of iupdate. */
  lemma UpdateDinode(sb: Super, blk: seq<Block>, ino: int, ip: Inode)
    requires InodeArea(sb, blk) && 0 <= ino < sb.ninodes && Storable(ip)
    ensures
      var x := InodeBlock(ino, sb.inodestart);
      && 0 <= x < sb.bmapstart && x < |blk| && |blk[x]| == BSIZE && 0 <= ino % IPB < IPB
      && var blk' := blk[x := EncodeInode(blk[x], ino % IPB, ip)];
      && InodeArea(sb, blk') && Dinode(sb, blk', ino) == ip && DinodesBut(sb, blk, blk', ino)
  {
    hide DecodeInode, EncodeInode;
    InodePlace(sb, blk, ino);
    var x := InodeBlock(ino, sb.inodestart);
    var blk' := blk[x := EncodeInode(blk[x], ino % IPB, ip)];
    InodeRoundTrip(blk[x], ino % IPB, ip, ino % IPB);
    forall o | 0 <= o < sb.ninodes && o != ino
      ensures Dinode(sb, blk', o) == Dinode(sb, blk, o)
    {
      InodePlace(sb, blk, o);
      InodeRoundTrip(blk[x], ino % IPB, ip, o % IPB);
    }
  }
}
