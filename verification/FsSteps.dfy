/**
 What the steps of Offline 3/xv6/fs.c keep and log, as predicates and lemmas on inodes and blocks.
 */
module FsSteps {
  import opened Sums
  import opened Blocks
  import opened Bitmap
  import opened FsTree
  import opened Inodes
  import LogDisk

  const T_DEV := 3
  const NDEV := 10

  /** What readi and writei return: a panic, -1, the call of a device driver, or a byte count. */
  datatype IoResult = Panicked | Failed | Driver(major: int) | Count(n: int)

  /** What reading or writing a device comes to. */
  function Device(d: Inode, hasDriver: bool): IoResult {
    if 0 <= d.major < NDEV && hasDriver then Driver(d.major) else Failed
  }

  ghost predicate AllUsed(sb: Super, blk: seq<Block>, n: int) {
    forall b :: 0 <= b < n ==> InUse(blk, sb.bmapstart, b)
  }

  /** The bit balloc looks at for block b + bi is the bit of that block. */
  lemma {:induction false} ScanBit(sb: Super, blk: seq<Block>, b: int, bi: int)
    requires MapOk(blk, sb.bmapstart, sb.datastart, sb.size)
    requires 0 <= b && b % BPB == 0 && 0 <= bi < BPB && b + bi < sb.size
    ensures 0 <= BitBlock(b, sb.bmapstart) < |blk| && bi / 8 < |blk[BitBlock(b, sb.bmapstart)]|
    ensures BitBlock(b, sb.bmapstart) == BitBlock(b + bi, sb.bmapstart) && bi / 8 == BitByte(b + bi) && bi % 8 == (b + bi) % 8
    ensures InUse(blk, sb.bmapstart, b + bi) <==> BitOf(blk[BitBlock(b, sb.bmapstart)][bi / 8], bi % 8)
  {
    hide BitOf;
    BitPlace(blk, sb.bmapstart, sb.datastart, sb.size, b + bi);
    ScanPlace(b, bi);
  }

  lemma ScanPlace(b: int, bi: int)
    requires 0 <= b && b % BPB == 0 && 0 <= bi < BPB
    ensures (b + bi) / BPB == b / BPB && (b + bi) % BPB == bi && (b + bi) % 8 == bi % 8
  {
    var q := b / BPB;
    assert b == 4096 * q;
    InBlock(q, bi);
    InByte(q, bi);
  }

  lemma InBlock(q: int, bi: int)
    requires 0 <= bi < 4096
    ensures (4096 * q + bi) / 4096 == q && (4096 * q + bi) % 4096 == bi
  {
  }

  lemma InByte(q: int, bi: int)
    ensures (4096 * q + bi) % 8 == bi % 8
  {
    assert 4096 * q + bi == 8 * (512 * q) + bi;
  }

  /** balloc's two writes: the bit, then the zeroed block. */
  lemma AllocStep(sb: Super, inode: seq<Inode>, blk: seq<Block>, owner: map<int, Slot>, b: int)
    requires FsOk(sb, inode, blk, owner, {}) && 0 <= b < sb.size && !InUse(blk, sb.bmapstart, b)
    ensures 0 < sb.datastart <= b && b !in owner
    ensures
      var x := BitBlock(b, sb.bmapstart);
      && 0 <= x < |blk| && 0 <= BitByte(b) < |blk[x]| && b < |blk|
      && var blk' := blk[x := blk[x][BitByte(b) := OrBit(blk[x][BitByte(b)], b % 8)]][b := ZERO];
      && FsOk(sb, inode, blk', owner, {b}) && SameAddrs(inode, blk, inode, blk') && KeepsBytes(inode, blk, inode, blk')
  {
    hide InUse, Addr, KeepsBytes, Tree, BitsAre;
    AllocOk(sb, inode, blk, owner, {}, b);
    BitPlace(blk, sb.bmapstart, sb.datastart, sb.size, b);
    var blk1 := BitWrite(blk, sb.bmapstart, b, true);
    var x := BitBlock(b, sb.bmapstart);
    OwnedAreData(inode, blk, owner, sb.datastart, sb.size);
    OtherWriteKeeps(inode, blk, blk1, owner, sb.datastart, sb.size, x, blk1[x]);
    DataWriteOk(sb, inode, blk1, owner, {} + {b}, b, ZERO);
    OtherWriteKeeps(inode, blk1, blk1[b := ZERO], owner, sb.datastart, sb.size, b, ZERO);
    KeepsTrans(inode, blk, inode, blk1, inode, blk1[b := ZERO]);
    assert {} + {b} == {b};
  }

  lemma {:induction false} FreeStep(sb: Super, inode: seq<Inode>, blk: seq<Block>, owner: map<int, Slot>, extra: set<int>, b: int)
    requires FsOk(sb, inode, blk, owner, extra) && b in extra
    ensures
      var x := BitBlock(b, sb.bmapstart);
      && 0 <= x < |blk| && x < sb.datastart && 0 <= BitByte(b) < |blk[x]| && 0 <= b < sb.size && BitOf(blk[x][BitByte(b)], b % 8)
      && var blk' := blk[x := blk[x][BitByte(b) := AndNotBit(blk[x][BitByte(b)], b % 8)]];
      && FsOk(sb, inode, blk', owner, extra - {b}) && SameAddrs(inode, blk, inode, blk') && KeepsBytes(inode, blk, inode, blk')
  {
    hide Addr, KeepsBytes, Tree, BitsAre;
    FreeOk(sb, inode, blk, owner, extra, b);
    BitPlace(blk, sb.bmapstart, sb.datastart, sb.size, b);
    var blk1 := BitWrite(blk, sb.bmapstart, b, false);
    var x := BitBlock(b, sb.bmapstart);
    OwnedAreData(inode, blk, owner, sb.datastart, sb.size);
    OtherWriteKeeps(inode, blk, blk1, owner, sb.datastart, sb.size, x, blk1[x]);
  }

  lemma OwnedAreData(inode: seq<Inode>, blk: seq<Block>, owner: map<int, Slot>, datastart: int, size: int)
    requires Tree(inode, blk, owner, datastart, size)
    ensures forall a :: a in owner ==> datastart <= a < size
  {
    forall a | a in owner
      ensures datastart <= a < size
    {
      assert Addr(inode, blk, owner[a].ino, owner[a].idx) == a;
    }
  }

  /** Only the addresses of inode `ino` may differ. */
  ghost predicate SameButAddrs(inode: seq<Inode>, inode': seq<Inode>, ino: int) {
    && |inode'| == |inode| && 0 <= ino < |inode|
    && inode' == inode[ino := inode[ino].(addrs := inode'[ino].addrs)]
  }

  /** The block in a slot, if there is one. */
  function BlockIn(inode: seq<Inode>, blk: seq<Block>, ino: int, idx: int): set<int> {
    var a := Addr(inode, blk, ino, idx);
    if a == 0 then {} else {a}
  }

  function IndirectOf(inode: seq<Inode>, blk: seq<Block>, ino: int): set<int> {
    BlockIn(inode, blk, ino, NDIRECT)
  }

  /** The data blocks `lo` .. `hi - 1` of a file. */
  ghost function FileBlocks(inode: seq<Inode>, blk: seq<Block>, ino: int, lo: int, hi: int): set<int>
    decreases hi - lo
  {
    if hi <= lo then {} else FileBlocks(inode, blk, ino, lo, hi - 1) + BlockIn(inode, blk, ino, DataIdx(hi - 1))
  }

  /** The first file block past the bytes off .. off + n - 1. */
  function BlockEnd(off: int, n: int): int {
    if n <= 0 then off / BSIZE else (off + n - 1) / BSIZE + 1
  }

  /** The file's own blocks that a write of `n` bytes at `off` may log. */
  ghost function DataSet(inode: seq<Inode>, blk: seq<Block>, ino: int, off: int, n: int): set<int> {
    FileBlocks(inode, blk, ino, off / BSIZE, BlockEnd(off, n)) + IndirectOf(inode, blk, ino)
  }

  ghost function WriteSet(sb: Super, inode: seq<Inode>, blk: seq<Block>, ino: int, off: int, n: int): set<int> {
    DataSet(inode, blk, ino, off, n) + {InodeBlock(ino, sb.inodestart)}
  }

  lemma {:induction false} FileBlocksGrow(inode: seq<Inode>, blk: seq<Block>, inode': seq<Inode>, blk': seq<Block>, ino: int,
                                          lo: int, hi: int, hi': int)
    requires KeepsAddrs(inode, blk, inode', blk') && hi <= hi'
    ensures FileBlocks(inode, blk, ino, lo, hi) <= FileBlocks(inode', blk', ino, lo, hi')
    ensures IndirectOf(inode, blk, ino) <= IndirectOf(inode', blk', ino)
    decreases hi' - lo
  {
    hide Addr;
    if lo < hi' {
      FileBlocksGrow(inode, blk, inode', blk', ino, lo, if hi < hi' then hi else hi - 1, hi' - 1);
    }
  }

  lemma {:induction false} FileBlocksCount(inode: seq<Inode>, blk: seq<Block>, ino: int, lo: int, hi: int)
    ensures |FileBlocks(inode, blk, ino, lo, hi)| <= if lo <= hi then hi - lo else 0
    decreases hi - lo
  {
    hide Addr;
    if lo < hi {
      FileBlocksCount(inode, blk, ino, lo, hi - 1);
    }
  }

  lemma DataSetStart(l: set<int>, sb: Super, inode: seq<Inode>, blk: seq<Block>, ino: int, off0: int)
    ensures LoggedBy(l, l, sb, DataSet(inode, blk, ino, off0, 0))
  {
  }

  lemma DataSetStep(l0: set<int>, l1: set<int>, l2: set<int>, sb: Super, inode1: seq<Inode>, blk1: seq<Block>, inode: seq<Inode>,
                    blk: seq<Block>, ino: int, off0: int, tot: int, m: int)
    requires KeepsAddrs(inode1, blk1, inode, blk) && off0 >= 0 && tot >= 0 && 0 < m <= BSIZE - (off0 + tot) % BSIZE
    requires LoggedBy(l0, l1, sb, DataSet(inode1, blk1, ino, off0, tot))
    requires Addr(inode, blk, ino, DataIdx((off0 + tot) / BSIZE)) != 0
    requires LoggedBy(l1, l2, sb, {Addr(inode, blk, ino, DataIdx((off0 + tot) / BSIZE))} + IndirectOf(inode, blk, ino))
    ensures LoggedBy(l0, l2, sb, DataSet(inode, blk, ino, off0, tot + m))
  {
    hide Addr, KeepsAddrs, LoggedBy, IndirectOf;
    var bn := (off0 + tot) / BSIZE;
    assert (off0 + tot + m - 1) / BSIZE == bn;
    assert BlockEnd(off0, tot) <= bn + 1 == BlockEnd(off0, tot + m);
    FileBlocksGrow(inode1, blk1, inode, blk, ino, off0 / BSIZE, BlockEnd(off0, tot), bn + 1);
    assert Addr(inode, blk, ino, DataIdx(bn)) in FileBlocks(inode, blk, ino, off0 / BSIZE, bn + 1);
    LoggedTrans(l0, l1, l2, sb, DataSet(inode1, blk1, ino, off0, tot),
                {Addr(inode, blk, ino, DataIdx(bn))} + IndirectOf(inode, blk, ino), DataSet(inode, blk, ino, off0, tot + m));
  }

  lemma DataSetEnd(l0: set<int>, l1: set<int>, sb: Super, inode1: seq<Inode>, blk1: seq<Block>, inode: seq<Inode>, blk: seq<Block>, ino: int, off0: int, n: int)
    requires KeepsAddrs(inode1, blk1, inode, blk) && LoggedBy(l0, l1, sb, DataSet(inode1, blk1, ino, off0, n))
    ensures LoggedBy(l0, l1, sb, WriteSet(sb, inode, blk, ino, off0, n))
    ensures LoggedBy(l0, l1 + {InodeBlock(ino, sb.inodestart)}, sb, WriteSet(sb, inode, blk, ino, off0, n))
  {
    hide KeepsAddrs, IndirectOf, FileBlocks, IsBitmapBlock;
    FileBlocksGrow(inode1, blk1, inode, blk, ino, off0 / BSIZE, BlockEnd(off0, n), BlockEnd(off0, n));
  }

  /** What a write may log: at most one block per file block it touches, the indirect block, the
      inode's block, and the bitmap blocks. */
  lemma WriteBudget(sb: Super, inode: seq<Inode>, blk: seq<Block>, ino: int, off: int, n: int, logged: set<int>)
    requires LoggedBy({}, logged, sb, WriteSet(sb, inode, blk, ino, off, n))
    requires 0 <= off && 0 < n && 0 < sb.size
    ensures |logged| <= (off + n - 1) / BSIZE - off / BSIZE + 3 + (sb.size - 1) / BPB + 1
  {
    hide Addr, FileBlocks;
    FileBlocksCount(inode, blk, ino, off / BSIZE, BlockEnd(off, n));
    var w := WriteSet(sb, inode, blk, ino, off, n);
    assert |w| <= BlockEnd(off, n) - off / BSIZE + 2;
    var hi := sb.bmapstart + (sb.size - 1) / BPB + 1;
    Between(sb.bmapstart, hi, logged - w);
    assert logged <= w + (logged - w);
    Subset(logged, w + (logged - w));
  }

  lemma KeepsOthersRefl(inode: seq<Inode>, blk: seq<Block>, ino: int)
    ensures KeepsOthers(inode, blk, inode, blk, ino) && KeepsAddrs(inode, blk, inode, blk)
  {
  }

  lemma KeepsAddrsTrans(inode0: seq<Inode>, blk0: seq<Block>, inode1: seq<Inode>, blk1: seq<Block>, inode2: seq<Inode>, blk2: seq<Block>)
    requires KeepsAddrs(inode0, blk0, inode1, blk1) && KeepsAddrs(inode1, blk1, inode2, blk2)
    ensures KeepsAddrs(inode0, blk0, inode2, blk2)
  {
    hide Addr;
    forall o, i | Addr(inode0, blk0, o, i) != 0
      ensures Addr(inode2, blk2, o, i) == Addr(inode0, blk0, o, i)
    {
      assert Addr(inode1, blk1, o, i) == Addr(inode0, blk0, o, i);
    }
  }

  /** Before the first turn the file reads as it did. */
  lemma WriteStart(inode: seq<Inode>, blk: seq<Block>, ino: int, off0: int, src: seq<int>)
    requires NoHoles(inode, blk, ino) && 0 <= off0 <= inode[ino].size
    ensures Reads(inode, blk, ino, Splice(Contents(inode, blk, ino), off0, src[..0]))
  {
    hide Mapped, ByteAt;
  }

  lemma ReadsWhole(inode: seq<Inode>, blk: seq<Block>, ino: int, c: seq<int>)
    requires 0 <= ino < |inode| && inode[ino].size == |c| && Reads(inode, blk, ino, c)
    ensures NoHoles(inode, blk, ino) && Contents(inode, blk, ino) == c
  {
    hide Mapped, ByteAt;
  }

  /** Changing an inode's fields other than its addresses. */
  lemma FieldsKeep(sb: Super, inode: seq<Inode>, blk: seq<Block>, owner: map<int, Slot>, extra: set<int>, ino: int, ip: Inode)
    requires FsOk(sb, inode, blk, owner, extra) && 0 <= ino < |inode| && ip.addrs == inode[ino].addrs
    ensures FsOk(sb, inode[ino := ip], blk, owner, extra) && KeepsBytes(inode, blk, inode[ino := ip], blk)
    ensures KeepsOthers(inode, blk, inode[ino := ip], blk, ino) && KeepsAddrs(inode, blk, inode[ino := ip], blk)
    ensures SameAddrs(inode, blk, inode[ino := ip], blk)
  {
    var inode' := inode[ino := ip];
    assert SameAddrs(inode, blk, inode', blk);
    FieldsTree(inode, blk, inode', owner, sb.datastart, sb.size);
  }

  lemma FieldsTree(inode: seq<Inode>, blk: seq<Block>, inode': seq<Inode>, owner: map<int, Slot>, datastart: int, size: int)
    requires Tree(inode, blk, owner, datastart, size) && SameAddrs(inode, blk, inode', blk)
    requires forall i :: 0 <= i < |inode'| ==> |inode'[i].addrs| == NDIRECT + 1
    ensures Tree(inode', blk, owner, datastart, size) && KeepsBytes(inode, blk, inode', blk)
  {
    hide Addr;
  }

  predicate IsBitmapBlock(sb: Super, x: int) {
    sb.bmapstart <= x <= sb.bmapstart + (sb.size - 1) / BPB
  }

  /** What was logged since is in `s`, or a bitmap block. */
  ghost predicate LoggedBy(logged: set<int>, logged': set<int>, sb: Super, s: set<int>) {
    forall x :: x in logged' ==> x in logged || x in s || IsBitmapBlock(sb, x)
  }

  lemma LoggedTrans(l0: set<int>, l1: set<int>, l2: set<int>, sb: Super, s: set<int>, t: set<int>, u: set<int>)
    requires LoggedBy(l0, l1, sb, s) && LoggedBy(l1, l2, sb, t) && s <= u && t <= u
    ensures LoggedBy(l0, l2, sb, u)
  {
  }

  lemma LoggedRefl(l: set<int>, sb: Super, s: set<int>)
    ensures LoggedBy(l, l, sb, s)
  {
  }

  lemma LoggedAlloc(l: set<int>, sb: Super, a: int)
    requires 0 < sb.size && 0 <= a < sb.size
    ensures LoggedBy(l, l + {BitBlock(a, sb.bmapstart), a}, sb, {a})
  {
    assert a / BPB <= (sb.size - 1) / BPB;
  }

  lemma LoggedOne(l: set<int>, sb: Super, a: int)
    ensures LoggedBy(l, l + {a}, sb, {a})
  {
  }

  /** The file blocks of a chunk lie within those of the whole write. */
  lemma ChunkRange(off0: int, tot: int, m: int, n: int)
    requires 0 <= off0 && 0 <= tot && 0 < m <= BSIZE - (off0 + tot) % BSIZE && tot + m <= n
    ensures off0 / BSIZE <= (off0 + tot) / BSIZE && BlockEnd(off0, tot) <= (off0 + tot) / BSIZE + 1
    ensures (off0 + tot) / BSIZE + 1 == BlockEnd(off0, tot + m) <= BlockEnd(off0, n)
  {
    assert (off0 + tot + m - 1) / BSIZE == (off0 + tot) / BSIZE;
  }

  /** Every block whose contents changed has been given to log_write. */
  ghost predicate Covers(blk: seq<Block>, logged: set<int>, blk': seq<Block>, logged': set<int>) {
    && |blk'| == |blk| && logged <= logged'
    && forall x {:trigger blk'[x]} :: 0 <= x < |blk| && blk'[x] != blk[x] ==> x in logged'
  }

  lemma CoversRefl(blk: seq<Block>, l: set<int>)
    ensures Covers(blk, l, blk, l)
  {
  }

  lemma CoversPut(blk: seq<Block>, l: set<int>, x: int, b: Block)
    requires 0 <= x < |blk|
    ensures Covers(blk, l, blk[x := b], l + {x})
  {
  }

  lemma CoversTrans(blk0: seq<Block>, l0: set<int>, blk1: seq<Block>, l1: set<int>, blk2: seq<Block>, l2: set<int>)
    requires Covers(blk0, l0, blk1, l1) && Covers(blk1, l1, blk2, l2)
    ensures Covers(blk0, l0, blk2, l2)
  {
    forall x | 0 <= x < |blk0| && blk2[x] != blk0[x]
      ensures x in l2
    {
      assert blk1[x] != blk0[x] || blk2[x] != blk1[x];
    }
  }

  /** The file block whose address slot `i` holds, -1 for the indirect block's own slot. */
  function FileIdx(i: int): int {
    if 0 <= i < NDIRECT then i else if i > NDIRECT then i - 1 else -1
  }

  /** Besides the indirect block of `ino`, only the addresses of its file blocks lo .. hi - 1 may differ. */
  ghost predicate SlotsKept(inode: seq<Inode>, blk: seq<Block>, inode': seq<Inode>, blk': seq<Block>, ino: int, lo: int, hi: int) {
    forall o, i {:trigger Addr(inode', blk', o, i)} :: !(o == ino && (i == NDIRECT || lo <= FileIdx(i) < hi)) ==>
      Addr(inode', blk', o, i) == Addr(inode, blk, o, i)
  }

  lemma SlotsSame(inode: seq<Inode>, blk: seq<Block>, inode': seq<Inode>, blk': seq<Block>, ino: int, lo: int, hi: int)
    requires SameAddrs(inode, blk, inode', blk')
    ensures SlotsKept(inode, blk, inode', blk', ino, lo, hi)
  {
    hide Addr;
  }

  lemma SlotsRefl(inode: seq<Inode>, blk: seq<Block>, ino: int, lo: int, hi: int)
    ensures SlotsKept(inode, blk, inode, blk, ino, lo, hi)
  {
    hide Addr;
  }

  lemma SlotsAdded(inode: seq<Inode>, blk: seq<Block>, inode': seq<Inode>, blk': seq<Block>, ino: int, idx: int, b: int)
    requires AddrAdded(inode, blk, inode', blk', ino, idx, b)
    ensures SlotsKept(inode, blk, inode', blk', ino, FileIdx(idx), FileIdx(idx) + 1)
  {
    hide Addr;
  }

  lemma SlotsTrans(inode0: seq<Inode>, blk0: seq<Block>, inode1: seq<Inode>, blk1: seq<Block>, inode2: seq<Inode>, blk2: seq<Block>,
                   ino: int, lo: int, hi: int, lo1: int, hi1: int, lo2: int, hi2: int)
    requires SlotsKept(inode0, blk0, inode1, blk1, ino, lo1, hi1) && SlotsKept(inode1, blk1, inode2, blk2, ino, lo2, hi2)
    requires lo1 >= hi1 || (lo <= lo1 && hi1 <= hi)
    requires lo2 >= hi2 || (lo <= lo2 && hi2 <= hi)
    ensures SlotsKept(inode0, blk0, inode2, blk2, ino, lo, hi)
  {
    hide Addr;
    forall o, i | !(o == ino && (i == NDIRECT || lo <= FileIdx(i) < hi))
      ensures Addr(inode2, blk2, o, i) == Addr(inode0, blk0, o, i)
    {
      assert Addr(inode1, blk1, o, i) == Addr(inode0, blk0, o, i);
    }
  }

  /** The range of slot NDIRECT is the indirect address itself, which is exempt anyway. */
  lemma SlotsIndirect(inode: seq<Inode>, blk: seq<Block>, inode': seq<Inode>, blk': seq<Block>, ino: int, bn: int)
    requires SlotsKept(inode, blk, inode', blk', ino, FileIdx(NDIRECT), FileIdx(NDIRECT) + 1)
    ensures SlotsKept(inode, blk, inode', blk', ino, bn, bn + 1)
  {
    hide Entry;
  }

  lemma KeepsRefl(inode: seq<Inode>, blk: seq<Block>)
    ensures KeepsBytes(inode, blk, inode, blk)
  {
  }

  lemma DirectIs(sb: Super, inode: seq<Inode>, blk: seq<Block>, owner: map<int, Slot>, ino: int, idx: int)
    requires FsOk(sb, inode, blk, owner, {}) && 0 <= ino < |inode| && 0 <= idx <= NDIRECT
    ensures |inode[ino].addrs| == NDIRECT + 1 && Addr(inode, blk, ino, idx) == inode[ino].addrs[idx]
  {
  }

  lemma SameSlot(inode: seq<Inode>, blk: seq<Block>, blk': seq<Block>, ino: int, idx: int)
    requires SameAddrs(inode, blk, inode, blk')
    ensures Addr(inode, blk', ino, idx) == Addr(inode, blk, ino, idx)
  {
  }

  /** Storing a fresh block in a slot of the inode itself. */
  lemma StoreStep(sb: Super, inode: seq<Inode>, blk: seq<Block>, owner: map<int, Slot>, ino: int, idx: int, b: int)
    requires FsOk(sb, inode, blk, owner, {b}) && 0 <= ino < |inode| && 0 <= idx <= NDIRECT
    requires Addr(inode, blk, ino, idx) == 0 && b < |blk| && blk[b] == ZERO
    ensures |inode[ino].addrs| == NDIRECT + 1
    ensures
      var inode' := inode[ino := inode[ino].(addrs := inode[ino].addrs[idx := b])];
      && FsOk(sb, inode', blk, owner[b := Slot(ino, idx)], {}) && KeepsBytes(inode, blk, inode', blk)
      && Addr(inode', blk, ino, idx) == b && SameButAddrs(inode, inode', ino)
      && SlotsKept(inode, blk, inode', blk, ino, FileIdx(idx), FileIdx(idx) + 1)
  {
    hide Addr, KeepsBytes, Tree, BitsAre, MapOk, ZERO, SlotsKept;
    StoreDirect(sb, inode, blk, owner, {b}, ino, idx, b);
    SlotsAdded(inode, blk, SetAddr(inode, ino, idx, b), blk, ino, idx, b);
    assert {b} - {b} == {};
    AddedKeeps(inode, blk, SetAddr(inode, ino, idx, b), blk, owner, sb.datastart, sb.size, ino, idx, b, b);
  }

  /** Storing a fresh block in an entry of the indirect block. */
  lemma EntryStep(sb: Super, inode: seq<Inode>, blk: seq<Block>, owner: map<int, Slot>, ino: int, j: int, ind: int, b: int)
    requires FsOk(sb, inode, blk, owner, {b}) && 0 <= ino < |inode| && 0 <= j < NINDIRECT && sb.size < UINT_RANGE
    requires ind == Addr(inode, blk, ino, NDIRECT) != 0 && Addr(inode, blk, ino, NDIRECT + 1 + j) == 0
    ensures 0 < ind < |blk| && |blk[ind]| == BSIZE && 0 <= b < UINT_RANGE && sb.bmapstart <= ind
    ensures
      var blk' := blk[ind := SetWord(blk[ind], j, b)];
      && FsOk(sb, inode, blk', owner[b := Slot(ino, NDIRECT + 1 + j)], {}) && KeepsBytes(inode, blk, inode, blk')
      && Addr(inode, blk', ino, NDIRECT + 1 + j) == b && Addr(inode, blk', ino, NDIRECT) == ind
      && SlotsKept(inode, blk, inode, blk', ino, NDIRECT + j, NDIRECT + j + 1)
  {
    hide Addr, KeepsBytes, BitsAre, MapOk, SetWord, SlotsKept;
    OwnedAreData(inode, blk, owner, sb.datastart, sb.size);
    StoreIndirect(sb, inode, blk, owner, {b}, ino, j, b);
    BitAfter(sb, blk, ind);
    assert {b} - {b} == {};
    var blk' := blk[ind := SetWord(blk[ind], j, b)];
    AddedKeeps(inode, blk, inode, blk', owner, sb.datastart, sb.size, ino, NDIRECT + 1 + j, b, ind);
    SlotsAdded(inode, blk, inode, blk', ino, NDIRECT + 1 + j, b);
  }

  /** What bmap reads from the indirect block. */
  lemma EntryIs(sb: Super, inode: seq<Inode>, blk: seq<Block>, owner: map<int, Slot>, ino: int, j: int, ind: int)
    requires FsOk(sb, inode, blk, owner, {}) && 0 <= ino < |inode| && 0 <= j < NINDIRECT
    requires ind == Addr(inode, blk, ino, NDIRECT) != 0
    ensures 0 < ind < |blk| && |blk[ind]| == BSIZE && Addr(inode, blk, ino, NDIRECT + 1 + j) == Word(blk[ind], j)
  {
  }

  lemma EntryNeedsIndirect(sb: Super, inode: seq<Inode>, blk: seq<Block>, owner: map<int, Slot>, ino: int, j: int)
    requires FsOk(sb, inode, blk, owner, {}) && 0 <= ino < |inode| && 0 <= j < NINDIRECT
    ensures Addr(inode, blk, ino, NDIRECT) == 0 ==> Addr(inode, blk, ino, NDIRECT + 1 + j) == 0
  {
  }

  lemma SameButTrans(inode0: seq<Inode>, inode1: seq<Inode>, inode2: seq<Inode>, ino: int)
    requires SameButAddrs(inode0, inode1, ino) && SameButAddrs(inode1, inode2, ino)
    ensures SameButAddrs(inode0, inode2, ino)
  {
  }

  lemma SameButRefl(inode: seq<Inode>, ino: int)
    requires 0 <= ino < |inode|
    ensures SameButAddrs(inode, inode, ino)
  {
  }

  /** What SameButAddrs promises of the other inodes and the other fields. */
  lemma SameButIs(inode: seq<Inode>, inode': seq<Inode>, ino: int)
    requires SameButAddrs(inode, inode', ino)
    ensures |inode'| == |inode| && 0 <= ino < |inode| && inode'[ino] == inode[ino].(addrs := inode'[ino].addrs)
    ensures forall o :: 0 <= o < |inode| && o != ino ==> inode'[o] == inode[o]
  {
    var t := inode[ino := inode[ino].(addrs := inode'[ino].addrs)];
    assert inode'[ino] == t[ino];
  }

  lemma BlockInRange(off: int)
    requires 0 <= off < MAXFILE * BSIZE
    ensures 0 <= off / BSIZE < MAXFILE
  {
  }

  /** A position below the file's end is mapped already. */
  lemma FirstBytes(inode: seq<Inode>, blk: seq<Block>, ino: int, c: seq<int>, off0: int, src: seq<int>, tot: int)
    requires 0 <= off0 <= |c| && 0 <= tot <= |src| && Reads(inode, blk, ino, Splice(c, off0, src[..tot]))
    ensures off0 + tot < |c| ==> Addr(inode, blk, ino, DataIdx((off0 + tot) / BSIZE)) != 0
  {
    assert off0 + tot < |c| ==> Mapped(inode, blk, ino, off0 + tot);
  }

  lemma KeepsToAddrs(inode: seq<Inode>, blk: seq<Block>, inode': seq<Inode>, blk': seq<Block>)
    requires KeepsBytes(inode, blk, inode', blk')
    ensures KeepsAddrs(inode, blk, inode', blk')
  {
  }

  /** Rewriting a data block moves no address. */
  lemma SameAddrsKeep(inode0: seq<Inode>, blk0: seq<Block>, inode: seq<Inode>, blk: seq<Block>, blk': seq<Block>, ino: int, bn: int)
    requires KeepsAddrs(inode0, blk0, inode, blk) && SameAddrs(inode, blk, inode, blk')
    ensures KeepsAddrs(inode0, blk0, inode, blk')
    ensures Addr(inode, blk', ino, DataIdx(bn)) == Addr(inode, blk, ino, DataIdx(bn))
    ensures IndirectOf(inode, blk', ino) == IndirectOf(inode, blk, ino)
  {
    hide Addr;
  }

  lemma ChunkStep(sb: Super, inode: seq<Inode>, blk: seq<Block>, owner: map<int, Slot>, ino: int, c: seq<int>, off0: int,
                  src: seq<int>, tot: int, m: int, a: int)
    requires FsOk(sb, inode, blk, owner, {})
    requires 0 <= off0 <= |c| && 0 <= tot && 0 < m && tot + m <= |src| && (off0 + tot) % BSIZE + m <= BSIZE
    requires Reads(inode, blk, ino, Splice(c, off0, src[..tot]))
    requires a == Addr(inode, blk, ino, DataIdx((off0 + tot) / BSIZE)) != 0
    ensures 0 <= a < |blk| && |blk[a]| == BSIZE && sb.bmapstart <= a
    ensures
      var blk' := blk[a := Overwrite(blk[a], (off0 + tot) % BSIZE, src[tot..tot + m])];
      && FsOk(sb, inode, blk', owner, {}) && SameAddrs(inode, blk, inode, blk')
      && Reads(inode, blk', ino, Splice(c, off0, src[..tot + m])) && KeepsOthers(inode, blk, inode, blk', ino)
  {
    hide Addr, Reads, KeepsOthers, Splice, BitsAre, SameAddrs;
    assert a in owner && owner[a].idx != NDIRECT;
    OwnedAreData(inode, blk, owner, sb.datastart, sb.size);
    var data := Overwrite(blk[a], (off0 + tot) % BSIZE, src[tot..tot + m]);
    DataWriteOk(sb, inode, blk, owner, {}, a, data);
    WriteReads(inode, blk, blk[a := data], owner, sb.datastart, sb.size, ino, c, off0, src, tot, m);
  }

  /** The slots of a read position below the size. */
  lemma ReadPoint(inode: seq<Inode>, blk: seq<Block>, ino: int, off: int)
    requires NoHoles(inode, blk, ino) && 0 <= off < inode[ino].size
    ensures 0 <= off / BSIZE < MAXFILE && Addr(inode, blk, ino, DataIdx(off / BSIZE)) != 0
  {
    assert Mapped(inode, blk, ino, off);
  }

  /** `m` bytes read inside one block are the file's bytes there. */
  lemma ReadStep(sb: Super, inode: seq<Inode>, blk: seq<Block>, owner: map<int, Slot>, ino: int, off: int, m: int, a: int)
    requires FsOk(sb, inode, blk, owner, {}) && NoHoles(inode, blk, ino)
    requires 0 <= off && 0 < m && off + m <= inode[ino].size && off % BSIZE + m <= BSIZE
    requires a == Addr(inode, blk, ino, DataIdx(off / BSIZE)) != 0
    ensures 0 <= a < |blk| && |blk[a]| == BSIZE
    ensures blk[a][off % BSIZE..off % BSIZE + m] == Contents(inode, blk, ino)[off..off + m]
  {
    hide Addr;
    assert a in owner;
    var c, s := Contents(inode, blk, ino)[off..off + m], blk[a][off % BSIZE..off % BSIZE + m];
    forall k | 0 <= k < m
      ensures s[k] == c[k]
    {
      assert (off + k) / BSIZE == off / BSIZE && (off + k) % BSIZE == off % BSIZE + k;
    }
  }

  /** The blocks that slots lo .. hi - 1 of an inode own. */
  ghost function OwnedIn(owner: map<int, Slot>, ino: int, lo: int, hi: int): set<int> {
    set a | a in owner && owner[a].ino == ino && lo <= owner[a].idx < hi
  }

  ghost function OwnedBy(owner: map<int, Slot>, ino: int): set<int> {
    set a | a in owner && owner[a].ino == ino
  }

  const NO_ADDRS := [0, 0, 0, 0, 0, 0, 0, 0, 0, 0, 0, 0, 0]

  const SLOTS := NDIRECT + 1 + NINDIRECT

  /** A file's slots are its direct, indirect and entry slots. */
  lemma OwnedSlots(sb: Super, inode: seq<Inode>, blk: seq<Block>, owner: map<int, Slot>, ino: int)
    requires FsOk(sb, inode, blk, owner, {})
    ensures OwnedBy(owner, ino) == OwnedIn(owner, ino, 0, SLOTS)
    ensures IndirectBlocks(owner, ino) == OwnedIn(owner, ino, NDIRECT, SLOTS)
  {
    forall a | a in owner
      ensures 0 <= owner[a].idx < SLOTS
    {
      assert Addr(inode, blk, owner[a].ino, owner[a].idx) == a;
    }
  }

  /** Slot `idx` owns one block or none. */
  lemma OwnedOne(sb: Super, inode: seq<Inode>, blk: seq<Block>, owner: map<int, Slot>, ino: int, idx: int, hi: int)
    requires FsOk(sb, inode, blk, owner, {}) && idx < hi
    ensures OwnedIn(owner, ino, idx, hi) == BlockIn(inode, blk, ino, idx) + OwnedIn(owner, ino, idx + 1, hi)
    ensures BlockIn(inode, blk, ino, idx) !! OwnedIn(owner, ino, idx + 1, hi)
  {
    hide Addr;
    var s, t := OwnedIn(owner, ino, idx, hi), BlockIn(inode, blk, ino, idx) + OwnedIn(owner, ino, idx + 1, hi);
    forall a
      ensures a in s <==> a in t
    {
      if a in s && owner[a].idx == idx {
        assert Addr(inode, blk, owner[a].ino, owner[a].idx) == a;
      }
    }
  }

  /** Clearing slots of `ino` leaves the other files as they were. */
  lemma DetachKeepsOthers(inode: seq<Inode>, blk: seq<Block>, inode': seq<Inode>, owner: map<int, Slot>, datastart: int, size: int,
                          ino: int, gone: set<int>)
    requires Tree(inode, blk, owner, datastart, size) && AddrsRemoved(inode, blk, inode', gone)
    requires forall a :: a in gone ==> a in owner && owner[a].ino == ino
    ensures KeepsOthers(inode, blk, inode', blk, ino)
  {
    hide Addr;
    forall o, k | o != ino && Mapped(inode, blk, o, k)
      ensures Mapped(inode', blk, o, k) && ByteAt(inode', blk, o, k) == ByteAt(inode, blk, o, k)
    {
      var a := Addr(inode, blk, o, DataIdx(k / BSIZE));
      assert a in owner && owner[a].ino == o;
      assert Addr(inode', blk, o, DataIdx(k / BSIZE)) == a;
    }
  }

  /** itrunc clears direct slot `idx`; its block is in transit until bfree. */
  lemma TruncDirect(sb: Super, inode: seq<Inode>, blk: seq<Block>, owner: map<int, Slot>, ino: int, idx: int)
    requires FsOk(sb, inode, blk, owner, {}) && 0 <= ino < |inode| && 0 <= idx < NDIRECT && Addr(inode, blk, ino, idx) != 0
    ensures |inode[ino].addrs| == NDIRECT + 1
    ensures
      var a := inode[ino].addrs[idx];
      var inode' := inode[ino := inode[ino].(addrs := inode[ino].addrs[idx := 0])];
      && FsOk(sb, inode', blk, owner - {a}, {a}) && KeepsOthers(inode, blk, inode', blk, ino)
  {
    hide Addr, KeepsOthers, BitsAre, MapOk, Tree, AddrsRemoved;
    DetachDirect(sb, inode, blk, owner, {}, ino, idx);
    var a := inode[ino].addrs[idx];
    assert {} + {a} == {a};
    DetachKeepsOthers(inode, blk, SetAddr(inode, ino, idx, 0), owner, sb.datastart, sb.size, ino, {a});
  }

  lemma TruncIndirect(sb: Super, inode: seq<Inode>, blk: seq<Block>, owner: map<int, Slot>, ino: int)
    requires FsOk(sb, inode, blk, owner, {}) && 0 <= ino < |inode|
    ensures |inode[ino].addrs| == NDIRECT + 1
    ensures
      var inode' := inode[ino := inode[ino].(addrs := inode[ino].addrs[NDIRECT := 0])];
      var gone := OwnedIn(owner, ino, NDIRECT, SLOTS);
      && FsOk(sb, inode', blk, owner - gone, gone) && KeepsOthers(inode, blk, inode', blk, ino)
  {
    hide Addr, KeepsOthers, BitsAre, MapOk, Tree, AddrsRemoved;
    DetachIndirect(sb, inode, blk, owner, {}, ino);
    OwnedSlots(sb, inode, blk, owner, ino);
    var gone := IndirectBlocks(owner, ino);
    assert {} + gone == gone;
    DetachKeepsOthers(inode, blk, SetAddr(inode, ino, NDIRECT, 0), owner, sb.datastart, sb.size, ino, gone);
  }

  lemma Three(a: set<int>, b: set<int>, c: set<int>, lo: int, hi: int)
    requires lo <= hi && forall x :: x in a || x in b || x in c <==> lo <= x < hi
    requires a !! b && a !! c && b !! c
    ensures |a| + |b| + |c| == hi - lo
  {
    assert (a + b) !! c;
    Exactly(lo, hi, a + b + c);
  }

  /** Dropping one more slot's block from `owner0`. */
  lemma OwnerLess(owner0: map<int, Slot>, owner: map<int, Slot>, ino: int, lo: int, hi: int)
    requires owner == owner0 - OwnedIn(owner0, ino, 0, lo) && 0 <= lo <= hi
    ensures owner - OwnedIn(owner, ino, lo, hi) == owner0 - OwnedIn(owner0, ino, 0, hi)
  {
  }

  /** The blocks itrunc still has to free from entry `j` of the indirect block on. */
  lemma TruncEntry(sb: Super, inode: seq<Inode>, blk: seq<Block>, owner: map<int, Slot>, ino: int, j: int, ind: int)
    requires FsOk(sb, inode, blk, owner, {}) && 0 <= ino < |inode| && 0 <= j < NINDIRECT
    requires ind == Addr(inode, blk, ino, NDIRECT) != 0 && ind !in OwnedIn(owner, ino, NDIRECT + 1 + j, SLOTS)
    ensures 0 < ind < |blk| && |blk[ind]| == BSIZE
    ensures
      var a := Word(blk[ind], j);
      var rest, next := OwnedIn(owner, ino, NDIRECT + 1 + j, SLOTS), OwnedIn(owner, ino, NDIRECT + 2 + j, SLOTS);
      && ind !in next && (if a == 0 then rest == next else a in {ind} + rest && {ind} + rest - {a} == {ind} + next)
  {
    hide FsOk, Addr, Word, OwnedIn;
    EntryIs(sb, inode, blk, owner, ino, j, ind);
    OwnedOne(sb, inode, blk, owner, ino, NDIRECT + 1 + j, SLOTS);
  }

  /** The indirect block and what it lists. */
  lemma TruncStart(sb: Super, inode: seq<Inode>, blk: seq<Block>, owner: map<int, Slot>, ino: int, ind: int)
    requires FsOk(sb, inode, blk, owner, {}) && 0 <= ino < |inode| && ind == Addr(inode, blk, ino, NDIRECT)
    ensures ind == 0 ==> OwnedIn(owner, ino, NDIRECT, SLOTS) == {}
    ensures ind != 0 ==>
              && 0 < ind && sb.datastart <= ind < |blk| && ind !in OwnedIn(owner, ino, NDIRECT + 1, SLOTS)
              && OwnedIn(owner, ino, NDIRECT, SLOTS) == {ind} + OwnedIn(owner, ino, NDIRECT + 1, SLOTS)
  {
    OwnedOne(sb, inode, blk, owner, ino, NDIRECT, SLOTS);
    if ind == 0 {
      forall a | a in owner && owner[a].ino == ino
        ensures owner[a].idx < NDIRECT
      {
        assert Addr(inode, blk, owner[a].ino, owner[a].idx) == a;
      }
    }
  }

  lemma NoneOwned(owner: map<int, Slot>, ino: int, lo: int)
    ensures OwnedIn(owner, ino, lo, lo) == {} && owner - {} == owner
  {
  }

  /** itrunc's bfree of a block logs a bitmap block. */
  lemma LoggedBit(l: set<int>, sb: Super, b: int, s: set<int>)
    requires 0 <= b < sb.size
    ensures LoggedBy(l, l + {BitBlock(b, sb.bmapstart)}, sb, s)
  {
    assert b / BPB <= (sb.size - 1) / BPB;
  }

  ghost function FreeBlocks(sb: Super, blk: seq<Block>): set<int> {
    set b | 0 <= b < sb.size && !InUse(blk, sb.bmapstart, b)
  }

  /** Every block is metadata, owned by one slot, in transit, or free. */
  lemma BlocksConserved(sb: Super, inode: seq<Inode>, blk: seq<Block>, owner: map<int, Slot>, extra: set<int>)
    requires FsOk(sb, inode, blk, owner, extra) && 0 <= sb.datastart <= sb.size
    ensures |FreeBlocks(sb, blk)| + |owner| + |extra| + sb.datastart == sb.size
  {
    hide Tree, InUse, MapOk;
    OwnedAreData(inode, blk, owner, sb.datastart, sb.size);
    Three(FreeBlocks(sb, blk), owner.Keys, extra, sb.datastart, sb.size);
  }

  /** Without the ghost map: a data block's bit is set exactly when one slot names it, and no two do. */
  lemma UsedByOneSlot(sb: Super, inode: seq<Inode>, blk: seq<Block>, owner: map<int, Slot>, b: int)
    requires FsOk(sb, inode, blk, owner, {}) && sb.datastart <= b < sb.size
    ensures InUse(blk, sb.bmapstart, b) <==> exists o, i :: Addr(inode, blk, o, i) == b
    ensures forall o, i, o', i' :: Addr(inode, blk, o, i) == b && Addr(inode, blk, o', i') == b ==> o == o' && i == i'
  {
    hide InUse, Addr;
    if b in owner {
      assert Addr(inode, blk, owner[b].ino, owner[b].idx) == b;
    }
    forall o, i | Addr(inode, blk, o, i) == b
      ensures b in owner && owner[b] == Slot(o, i)
    {
      assert b != 0;
    }
  }

  /** Freeing what an inode owned frees just that many blocks. */
  lemma TruncFrees(sb: Super, inode: seq<Inode>, blk: seq<Block>, owner: map<int, Slot>, inode': seq<Inode>, blk': seq<Block>, ino: int)
    requires FsOk(sb, inode, blk, owner, {}) && FsOk(sb, inode', blk', owner - OwnedBy(owner, ino), {})
    ensures |FreeBlocks(sb, blk')| == |FreeBlocks(sb, blk)| + |OwnedBy(owner, ino)|
  {
    hide Tree, BitsAre, FreeBlocks, InUse;
    BlocksConserved(sb, inode, blk, owner, {});
    BlocksConserved(sb, inode', blk', owner - OwnedBy(owner, ino), {});
    var o, g := owner.Keys, OwnedBy(owner, ino);
    assert (owner - g).Keys == o - g;
    assert o == (o - g) + g;
  }

  /** Two splices in a row are one. */
  lemma SpliceNext(c: seq<int>, off: int, src: seq<int>, i: int, m: int)
    requires 0 <= i && 0 <= m && i + m <= |src|
    ensures 0 <= off <= |c| ==>
              && off + i <= |Splice(c, off, src[..i])|
              && Splice(Splice(c, off, src[..i]), off + i, src[i..i + m]) == Splice(c, off, src[..i + m])
  {
  }

  lemma Piece(src: seq<int>, i: int, n: int)
    requires 0 <= i && 0 <= n && i + n <= |src|
    ensures |src[i..i + n]| == n
  {
  }

  lemma SizeIs(inode: seq<Inode>, blk: seq<Block>, ino: int)
    requires NoHoles(inode, blk, ino)
    ensures |Contents(inode, blk, ino)| == inode[ino].size
  {
  }

  lemma SpliceNone(c: seq<int>, off: int)
    ensures 0 <= off <= |c| ==> Splice(c, off, []) == c
  {
  }

  /** A filewrite chunk: MAXOPBLOCKS less the inode, the indirect block and two of slop, halved. */
  const CHUNK := (LogDisk.MAXOPBLOCKS - 1 - 1 - 2) / 2 * 512

  /** A chunk of `n` bytes starts at byte `i`. */
  predicate AtChunk(i: int, n: int) {
    0 <= i < n && i % CHUNK == 0
  }

  function ChunkAt(i: int, n: int): int {
    if n - i > CHUNK then CHUNK else n - i
  }

  lemma ChunkFirst(n: int)
    ensures 0 < n ==> AtChunk(0, n)
  {
  }

  lemma ChunkNext(i: int, n: int)
    requires AtChunk(i, n)
    ensures i + ChunkAt(i, n) == n || AtChunk(i + ChunkAt(i, n), n)
  {
  }

  function BitmapBlocks(sb: Super): int {
    (sb.size - 1) / BPB + 1
  }

  /** Every chunk fits its reservation: four data blocks, the indirect block, the inode and the bitmap. */
  lemma ChunkBudget(sb: Super, inode: seq<Inode>, blk: seq<Block>, ino: int, off: int, n: int, logged: set<int>)
    requires LoggedBy({}, logged, sb, WriteSet(sb, inode, blk, ino, off, n))
    requires 0 <= off && 0 < n <= CHUNK && 0 < sb.size
    ensures |logged| <= 6 + BitmapBlocks(sb)
    ensures sb.size <= BPB ==> |logged| <= 7 < LogDisk.MAXOPBLOCKS
  {
    hide LoggedBy, WriteSet;
    WriteBudget(sb, inode, blk, ino, off, n, logged);
    assert (off + n - 1) / BSIZE <= off / BSIZE + 3;
  }

  /** Freeing a file logs its inode's block and bitmap blocks only: two with one bitmap block. */
  lemma FreeBudget(sb: Super, ino: int, logged: set<int>)
    requires LoggedBy({}, logged, sb, {InodeBlock(ino, sb.inodestart)}) && 0 < sb.size
    ensures |logged| <= 1 + BitmapBlocks(sb)
    ensures sb.size <= BPB ==> |logged| <= 2 < LogDisk.MAXOPBLOCKS
  {
    var w := {InodeBlock(ino, sb.inodestart)};
    Between(sb.bmapstart, sb.bmapstart + BitmapBlocks(sb), logged - w);
    assert logged <= w + (logged - w);
    Subset(logged, w + (logged - w));
  }

  /** Each transaction recorded since `ops` logged at most `b` blocks. */
  ghost predicate BudgetsMet(ops: seq<set<int>>, ops': seq<set<int>>, b: int) {
    ops <= ops' && forall k {:trigger ops'[k]} :: |ops| <= k < |ops'| ==> |ops'[k]| <= b
  }

  lemma BudgetsStart(ops: seq<set<int>>, b: int)
    ensures BudgetsMet(ops, ops, b)
  {
  }

  lemma BudgetsTrans(ops0: seq<set<int>>, ops1: seq<set<int>>, ops2: seq<set<int>>, l: set<int>, b: int)
    requires BudgetsMet(ops0, ops1, b) && (ops2 == ops1 || (ops2 == ops1 + [l] && |l| <= b))
    ensures BudgetsMet(ops0, ops2, b)
  {
  }

  /** No inode other than `ino` has changed, in core or on disk. */
  ghost predicate OthersSame(sb: Super, inode: seq<Inode>, blk: seq<Block>, inode': seq<Inode>, blk': seq<Block>, ino: int) {
    && |inode'| == |inode| && (forall o :: 0 <= o < |inode| && o != ino ==> inode'[o] == inode[o])
    && DinodesBut(sb, blk, blk', ino)
  }

  lemma OthersTrans(sb: Super, inode0: seq<Inode>, blk0: seq<Block>, inode1: seq<Inode>, blk1: seq<Block>, inode2: seq<Inode>, blk2: seq<Block>, ino: int)
    requires OthersSame(sb, inode0, blk0, inode1, blk1, ino) && OthersSame(sb, inode1, blk1, inode2, blk2, ino)
    ensures OthersSame(sb, inode0, blk0, inode2, blk2, ino)
  {
    hide DinodesBut;
    ButTrans(sb, blk0, blk1, blk2, ino);
  }

  lemma OthersRefl(sb: Super, inode: seq<Inode>, blk: seq<Block>, ino: int)
    ensures OthersSame(sb, inode, blk, inode, blk, ino)
  {
  }

  /** Without a write in front of the bitmap the disk's inodes are as before. */
  lemma OthersKept(sb: Super, inode: seq<Inode>, blk: seq<Block>, inode': seq<Inode>, blk': seq<Block>, ino: int)
    requires InodesKept(sb, blk, blk') && Meta(sb, inode, blk) && SameButAddrs(inode, inode', ino)
    ensures OthersSame(sb, inode, blk, inode', blk', ino)
  {
    hide InodesKept, InodeArea, Dinode;
    SameButIs(inode, inode', ino);
    KeptDinodes(sb, blk, blk', ino);
  }

  lemma AreaKept(sb: Super, inode: seq<Inode>, blk: seq<Block>, blk': seq<Block>, ino: int)
    requires InodesKept(sb, blk, blk') && Meta(sb, inode, blk)
    ensures DinodesBut(sb, blk, blk', ino)
  {
    hide InodesKept, InodeArea, Dinode;
    KeptDinodes(sb, blk, blk', ino);
  }

  lemma ButRefl(sb: Super, blk: seq<Block>, ino: int)
    ensures DinodesBut(sb, blk, blk, ino)
  {
  }

  lemma KeptSynced(sb: Super, blk: seq<Block>, blk': seq<Block>, inode: seq<Inode>, ino: int)
    requires InodesKept(sb, blk, blk') && Meta(sb, inode, blk) && 0 <= ino < sb.ninodes
    ensures Dinode(sb, blk', ino) == Dinode(sb, blk, ino)
  {
    hide InodesKept, InodeArea, Dinode;
    KeptDinodes(sb, blk, blk', ino);
  }

  lemma OthersUpdated(sb: Super, inode: seq<Inode>, blk: seq<Block>, inode': seq<Inode>, blk': seq<Block>, ino: int)
    requires 0 <= ino < |inode| == |inode'| && inode' == inode[ino := inode'[ino]] && DinodesBut(sb, blk, blk', ino)
    ensures OthersSame(sb, inode, blk, inode', blk', ino)
  {
    hide DinodesBut;
    assert forall o :: 0 <= o < |inode| && o != ino ==> inode[ino := inode'[ino]][o] == inode[o];
  }

  // ---------------------------------------------------------------------------------------------
  // Inodes on the disk
  // ---------------------------------------------------------------------------------------------

  /** The fields that iupdate stores as shorts and as an unsigned size fit them. */
  predicate FieldsFit(ip: Inode) {
    IsShort(ip.kind) && IsShort(ip.major) && IsShort(ip.minor) && IsShort(ip.nlink) && 0 <= ip.size < UINT_RANGE
  }

  ghost predicate Meta(sb: Super, inode: seq<Inode>, blk: seq<Block>) {
    InodeArea(sb, blk) && forall i :: 0 <= i < |inode| ==> FieldsFit(inode[i])
  }

  /** The bitmap block of a block lies behind the inodes, and so does a data block. */
  lemma BitAfter(sb: Super, blk: seq<Block>, b: int)
    requires MapOk(blk, sb.bmapstart, sb.datastart, sb.size) && 0 <= b
    ensures 0 < sb.bmapstart <= BitBlock(b, sb.bmapstart) && (b >= sb.datastart ==> b >= sb.bmapstart)
  {
  }

  lemma FsMap(sb: Super, inode: seq<Inode>, blk: seq<Block>, owner: map<int, Slot>, extra: set<int>)
    requires FsOk(sb, inode, blk, owner, extra)
    ensures MapOk(blk, sb.bmapstart, sb.datastart, sb.size)
  {
  }

  lemma MetaBlk(sb: Super, inode: seq<Inode>, blk: seq<Block>, blk': seq<Block>)
    requires Meta(sb, inode, blk) && InodesKept(sb, blk, blk')
    ensures Meta(sb, inode, blk')
  {
    KeptArea(sb, blk, blk');
  }

  lemma MetaSet(sb: Super, inode: seq<Inode>, blk: seq<Block>, ino: int, ip: Inode)
    requires Meta(sb, inode, blk) && 0 <= ino < |inode| && FieldsFit(ip)
    ensures Meta(sb, inode[ino := ip], blk)
  {
  }

  lemma MetaFits(sb: Super, inode: seq<Inode>, blk: seq<Block>, ino: int)
    requires Meta(sb, inode, blk) && 0 <= ino < |inode|
    ensures FieldsFit(inode[ino])
  {
  }

  lemma MetaAddrs(sb: Super, inode: seq<Inode>, inode': seq<Inode>, blk: seq<Block>, ino: int)
    requires Meta(sb, inode, blk) && SameButAddrs(inode, inode', ino)
    ensures Meta(sb, inode', blk)
  {
    hide InodeArea;
    SameButIs(inode, inode', ino);
  }

  /** Every inode of a sound tree can be stored. */
  lemma CanStore(sb: Super, inode: seq<Inode>, blk: seq<Block>, owner: map<int, Slot>, extra: set<int>, ino: int)
    requires FsOk(sb, inode, blk, owner, extra) && Meta(sb, inode, blk) && 0 <= ino < |inode| && sb.size < UINT_RANGE
    ensures Storable(inode[ino])
  {
    hide InodeArea, BitsAre;
    forall i | 0 <= i <= NDIRECT
      ensures 0 <= inode[ino].addrs[i] < UINT_RANGE
    {
      assert Addr(inode, blk, ino, i) == inode[ino].addrs[i];
    }
  }

  /** iupdate's block write keeps ownership, all addresses and all file bytes. */
  lemma UpdateStep(sb: Super, inode: seq<Inode>, blk: seq<Block>, owner: map<int, Slot>, ino: int)
    requires FsOk(sb, inode, blk, owner, {}) && Meta(sb, inode, blk) && 0 <= ino < |inode| == sb.ninodes && sb.size < UINT_RANGE
    ensures Storable(inode[ino])
    ensures
      var x := InodeBlock(ino, sb.inodestart);
      && 0 <= x < |blk| && |blk[x]| == BSIZE && 0 <= ino % IPB < IPB
      && var blk' := blk[x := EncodeInode(blk[x], ino % IPB, inode[ino])];
      && FsOk(sb, inode, blk', owner, {}) && Meta(sb, inode, blk') && SameAddrs(inode, blk, inode, blk') && KeepsBytes(inode, blk, inode, blk')
      && Dinode(sb, blk', ino) == inode[ino] && DinodesBut(sb, blk, blk', ino)
  {
    hide Addr, KeepsBytes, Tree, BitsAre, InodeArea, Storable, EncodeInode, Dinode, DinodesBut, FieldsFit;
    CanStore(sb, inode, blk, owner, {}, ino);
    UpdateDinode(sb, blk, ino, inode[ino]);
    var x := InodeBlock(ino, sb.inodestart);
    var data := EncodeInode(blk[x], ino % IPB, inode[ino]);
    BitWriteAddr(inode, blk, owner, sb.datastart, sb.size, x, data);
    SameTree(inode, blk, blk[x := data], owner, sb.datastart, sb.size);
    OwnedAreData(inode, blk, owner, sb.datastart, sb.size);
    OtherWriteKeeps(inode, blk, blk[x := data], owner, sb.datastart, sb.size, x, data);
    FrontWriteBits(sb, blk, x, data, blk[x := data], owner, {});
  }

  /** A write in front of the bitmap leaves the bitmap alone. */
  lemma FrontWriteBits(sb: Super, blk: seq<Block>, x: int, data: Block, blk': seq<Block>, owner: map<int, Slot>, extra: set<int>)
    requires MapOk(blk, sb.bmapstart, sb.datastart, sb.size) && 0 <= x < sb.bmapstart && blk' == blk[x := data]
    requires BitsAre(blk, owner, extra, sb.bmapstart, sb.datastart, sb.size)
    ensures MapOk(blk', sb.bmapstart, sb.datastart, sb.size)
    ensures BitsAre(blk', owner, extra, sb.bmapstart, sb.datastart, sb.size)
  {
    hide InUse;
    forall b | 0 <= b < sb.size
      ensures InUse(blk', sb.bmapstart, b) <==> b < sb.datastart || b in owner || b in extra
    {
      assert InUse(blk, sb.bmapstart, b) <==> b < sb.datastart || b in owner || b in extra;
      FrontWriteBit(sb, blk, x, data, b);
    }
  }

  lemma FrontWriteBit(sb: Super, blk: seq<Block>, x: int, data: Block, b: int)
    requires MapOk(blk, sb.bmapstart, sb.datastart, sb.size) && 0 <= x < sb.bmapstart && 0 <= b < sb.size
    ensures InUse(blk[x := data], sb.bmapstart, b) <==> InUse(blk, sb.bmapstart, b)
  {
    hide BitOf;
    BitPlace(blk, sb.bmapstart, sb.datastart, sb.size, b);
  }
}
