/**
 Inodes, indirect blocks and block ownership of Offline 3/xv6/fs.c, as values.

 `blk` is what bread returns for each block. The ghost map `owner` sends every block that belongs
 to a file to the one slot that names it: 0 .. 11 are an inode's direct addresses, 12 its indirect
 block, and 13 + j is entry j of that block.
 */
module FsTree {
  import opened Blocks
  import opened Bitmap

  const NDIRECT := 12
  const NINDIRECT := 128
  const MAXFILE := 140

  datatype Inode = Inode(kind: int, major: int, minor: int, nlink: int, size: int, addrs: seq<int>)

  datatype Slot = Slot(ino: int, idx: int)

  datatype Super = Super(size: int, ninodes: int, inodestart: int, bmapstart: int, datastart: int)

  /** The address in slot `idx` of inode `ino`, 0 if there is none. */
  function Addr(inode: seq<Inode>, blk: seq<Block>, ino: int, idx: int): int {
    if !(0 <= ino < |inode|) || |inode[ino].addrs| != NDIRECT + 1 then 0
    else if 0 <= idx <= NDIRECT then inode[ino].addrs[idx]
    else if NDIRECT < idx <= NDIRECT + NINDIRECT then Entry(blk, inode[ino].addrs[NDIRECT], idx - NDIRECT - 1)
    else 0
  }

  /** Entry `j` of the indirect block `ind`; 0 if there is no indirect block. */
  function Entry(blk: seq<Block>, ind: int, j: int): int {
    if 0 < ind < |blk| && |blk[ind]| == BSIZE && 0 <= j < NINDIRECT then Word(blk[ind], j) else 0
  }

  /** The slot of a file's block number `bn`. */
  function DataIdx(bn: int): int {
    if bn < NDIRECT then bn else bn + 1
  }

  // ---------------------------------------------------------------------------------------------
  // Ownership
  // ---------------------------------------------------------------------------------------------

  /** Every address a slot holds is a data block owned by that slot alone. */
  ghost predicate Tree(inode: seq<Inode>, blk: seq<Block>, owner: map<int, Slot>, datastart: int, size: int) {
    && (forall i :: 0 <= i < |inode| ==> |inode[i].addrs| == NDIRECT + 1)
    && (forall ino, idx :: Addr(inode, blk, ino, idx) != 0 ==>
          && datastart <= Addr(inode, blk, ino, idx) < size
          && Addr(inode, blk, ino, idx) in owner && owner[Addr(inode, blk, ino, idx)] == Slot(ino, idx))
    && (forall a :: a in owner ==> a != 0 && Addr(inode, blk, owner[a].ino, owner[a].idx) == a)
  }

  /** A bit is set exactly when its block is metadata, owned, or among the blocks in transit `extra`. */
  ghost predicate BitsAre(blk: seq<Block>, owner: map<int, Slot>, extra: set<int>, bmapstart: int, datastart: int, size: int) {
    forall b :: 0 <= b < size ==> (InUse(blk, bmapstart, b) <==> b < datastart || b in owner || b in extra)
  }

  ghost predicate FsOk(sb: Super, inode: seq<Inode>, blk: seq<Block>, owner: map<int, Slot>, extra: set<int>) {
    && MapOk(blk, sb.bmapstart, sb.datastart, sb.size)
    && Tree(inode, blk, owner, sb.datastart, sb.size)
    && BitsAre(blk, owner, extra, sb.bmapstart, sb.datastart, sb.size)
    && (forall e :: e in extra ==> sb.datastart <= e < sb.size && e !in owner)
  }

  /** The data block of a slot other than an indirect one may be rewritten freely. */
  lemma DataWriteAddr(inode: seq<Inode>, blk: seq<Block>, owner: map<int, Slot>, datastart: int, size: int, a: int, data: Block)
    requires Tree(inode, blk, owner, datastart, size) && 0 <= a < |blk| && |data| == |blk[a]|
    requires a in owner ==> owner[a].idx != NDIRECT
    ensures SameAddrs(inode, blk, inode, blk[a := data])
  {
    forall ino, idx
      ensures Addr(inode, blk[a := data], ino, idx) == Addr(inode, blk, ino, idx)
    {
      if 0 <= ino < |inode| {
        assert Addr(inode, blk, ino, NDIRECT) == inode[ino].addrs[NDIRECT];
      }
    }
  }

  /** `inode'` and `blk'` hold the same addresses as `inode` and `blk`. */
  ghost predicate SameAddrs(inode: seq<Inode>, blk: seq<Block>, inode': seq<Inode>, blk': seq<Block>) {
    forall o, i :: Addr(inode', blk', o, i) == Addr(inode, blk, o, i)
  }

  /** The only difference is that the empty slot (ino, idx) now holds `b`. */
  ghost predicate AddrAdded(inode: seq<Inode>, blk: seq<Block>, inode': seq<Inode>, blk': seq<Block>, ino: int, idx: int, b: int) {
    && Addr(inode, blk, ino, idx) == 0
    && forall o, i :: Addr(inode', blk', o, i) == if o == ino && i == idx then b else Addr(inode, blk, o, i)
  }

  lemma SameTree(inode: seq<Inode>, blk: seq<Block>, blk': seq<Block>, owner: map<int, Slot>, datastart: int, size: int)
    requires Tree(inode, blk, owner, datastart, size) && SameAddrs(inode, blk, inode, blk')
    ensures Tree(inode, blk', owner, datastart, size)
  {
    hide Addr;
  }

  lemma AddedTree(inode: seq<Inode>, blk: seq<Block>, inode': seq<Inode>, blk': seq<Block>, owner: map<int, Slot>,
                  datastart: int, size: int, ino: int, idx: int, b: int)
    requires Tree(inode, blk, owner, datastart, size) && AddrAdded(inode, blk, inode', blk', ino, idx, b)
    requires forall i :: 0 <= i < |inode'| ==> |inode'[i].addrs| == NDIRECT + 1
    requires b !in owner && 0 < datastart <= b < size
    ensures Tree(inode', blk', owner[b := Slot(ino, idx)], datastart, size)
  {
    hide Addr;
  }

  lemma BitsSame(blk: seq<Block>, blk': seq<Block>, owner: map<int, Slot>, extra: set<int>, bmapstart: int, datastart: int, size: int)
    requires BitsAre(blk, owner, extra, bmapstart, datastart, size) && SameBits(blk, blk', bmapstart, size)
    ensures BitsAre(blk', owner, extra, bmapstart, datastart, size)
  {
    hide InUse;
  }

  lemma DataWriteOk(sb: Super, inode: seq<Inode>, blk: seq<Block>, owner: map<int, Slot>, extra: set<int>, a: int, data: Block)
    requires FsOk(sb, inode, blk, owner, extra) && sb.datastart <= a < |blk| && |data| == BSIZE
    requires a in owner ==> owner[a].idx != NDIRECT
    ensures FsOk(sb, inode, blk[a := data], owner, extra)
    ensures SameAddrs(inode, blk, inode, blk[a := data])
  {
    DataWriteAddr(inode, blk, owner, sb.datastart, sb.size, a, data);
    SameTree(inode, blk, blk[a := data], owner, sb.datastart, sb.size);
    DataWriteKeepsMap(blk, sb.bmapstart, sb.datastart, sb.size, a, data);
    BitsSame(blk, blk[a := data], owner, extra, sb.bmapstart, sb.datastart, sb.size);
  }

  /** Setting or clearing a bit touches no address. */
  lemma BitWriteAddr(inode: seq<Inode>, blk: seq<Block>, owner: map<int, Slot>, datastart: int, size: int, x: int, data: Block)
    requires Tree(inode, blk, owner, datastart, size) && 0 <= x < |blk| && x < datastart && |data| == |blk[x]|
    ensures SameAddrs(inode, blk, inode, blk[x := data])
  {
    forall ino, idx
      ensures Addr(inode, blk[x := data], ino, idx) == Addr(inode, blk, ino, idx)
    {
      if 0 <= ino < |inode| {
        assert Addr(inode, blk, ino, NDIRECT) == inode[ino].addrs[NDIRECT];
      }
    }
  }

  /** The bitmap write of balloc and bfree. */
  function BitWrite(blk: seq<Block>, bmapstart: int, b: int, used: bool): seq<Block>
    requires 0 <= b && 0 <= BitBlock(b, bmapstart) < |blk| && BitByte(b) < |blk[BitBlock(b, bmapstart)]|
  {
    var x := BitBlock(b, bmapstart);
    var v := blk[x][BitByte(b)];
    blk[x := blk[x][BitByte(b) := if used then OrBit(v, b % 8) else AndNotBit(v, b % 8)]]
  }

  /** balloc takes a free block: it becomes a block in transit. */
  lemma AllocOk(sb: Super, inode: seq<Inode>, blk: seq<Block>, owner: map<int, Slot>, extra: set<int>, b: int)
    requires FsOk(sb, inode, blk, owner, extra) && 0 <= b < sb.size && !InUse(blk, sb.bmapstart, b)
    ensures sb.datastart <= b && b !in owner && b !in extra
    ensures 0 <= BitBlock(b, sb.bmapstart) < |blk| && BitByte(b) < |blk[BitBlock(b, sb.bmapstart)]|
    ensures FsOk(sb, inode, BitWrite(blk, sb.bmapstart, b, true), owner, extra + {b})
    ensures SameAddrs(inode, blk, inode, BitWrite(blk, sb.bmapstart, b, true))
  {
    BitPlace(blk, sb.bmapstart, sb.datastart, sb.size, b);
    var blk' := BitWrite(blk, sb.bmapstart, b, true);
    SetInUse(blk, sb.bmapstart, sb.datastart, sb.size, b, blk', true);
    var x := BitBlock(b, sb.bmapstart);
    BitWriteAddr(inode, blk, owner, sb.datastart, sb.size, x, blk'[x]);
    assert blk' == blk[x := blk'[x]];
    SameTree(inode, blk, blk', owner, sb.datastart, sb.size);
  }

  /** bfree releases a block in transit; its panic is unreachable because the bit is set. */
  lemma FreeOk(sb: Super, inode: seq<Inode>, blk: seq<Block>, owner: map<int, Slot>, extra: set<int>, b: int)
    requires FsOk(sb, inode, blk, owner, extra) && b in extra
    ensures 0 <= b < sb.size && InUse(blk, sb.bmapstart, b)
    ensures 0 <= BitBlock(b, sb.bmapstart) < |blk| && BitByte(b) < |blk[BitBlock(b, sb.bmapstart)]|
    ensures FsOk(sb, inode, BitWrite(blk, sb.bmapstart, b, false), owner, extra - {b})
    ensures SameAddrs(inode, blk, inode, BitWrite(blk, sb.bmapstart, b, false))
  {
    BitPlace(blk, sb.bmapstart, sb.datastart, sb.size, b);
    var blk' := BitWrite(blk, sb.bmapstart, b, false);
    SetInUse(blk, sb.bmapstart, sb.datastart, sb.size, b, blk', false);
    var x := BitBlock(b, sb.bmapstart);
    BitWriteAddr(inode, blk, owner, sb.datastart, sb.size, x, blk'[x]);
    assert blk' == blk[x := blk'[x]];
    SameTree(inode, blk, blk', owner, sb.datastart, sb.size);
  }

  function SetAddr(inode: seq<Inode>, ino: int, idx: int, a: int): seq<Inode>
    requires 0 <= ino < |inode| && 0 <= idx < |inode[ino].addrs|
  {
    inode[ino := inode[ino].(addrs := inode[ino].addrs[idx := a])]
  }

  /** bmap stores a fresh zeroed block in an empty direct or indirect slot of the inode. */
  lemma StoreDirect(sb: Super, inode: seq<Inode>, blk: seq<Block>, owner: map<int, Slot>, extra: set<int>, ino: int, idx: int, b: int)
    requires FsOk(sb, inode, blk, owner, extra) && 0 <= ino < |inode| && 0 <= idx <= NDIRECT
    requires Addr(inode, blk, ino, idx) == 0 && b in extra && b < |blk| && blk[b] == ZERO
    ensures |inode[ino].addrs| == NDIRECT + 1
    ensures FsOk(sb, SetAddr(inode, ino, idx, b), blk, owner[b := Slot(ino, idx)], extra - {b})
    ensures AddrAdded(inode, blk, SetAddr(inode, ino, idx, b), blk, ino, idx, b)
  {
    var inode' := SetAddr(inode, ino, idx, b);
    forall o, i
      ensures Addr(inode', blk, o, i) == if o == ino && i == idx then b else Addr(inode, blk, o, i)
    {
      if o == ino && NDIRECT < i <= NDIRECT + NINDIRECT {
        assert Addr(inode, blk, ino, NDIRECT) == inode[ino].addrs[NDIRECT];
        ZeroWords(i - NDIRECT - 1);
      }
    }
    AddedTree(inode, blk, inode', blk, owner, sb.datastart, sb.size, ino, idx, b);
  }

  /** Writing entry `j` of the inode's indirect block changes just that address. */
  lemma EntryAdded(inode: seq<Inode>, blk: seq<Block>, owner: map<int, Slot>, datastart: int, size: int, ino: int, j: int, b: int, blk': seq<Block>)
    requires Tree(inode, blk, owner, datastart, size) && 0 <= ino < |inode| && 0 <= j < NINDIRECT && 0 <= b < UINT_RANGE
    requires
      var ind := Addr(inode, blk, ino, NDIRECT);
      && 0 < ind < |blk| && |blk[ind]| == BSIZE && blk' == blk[ind := SetWord(blk[ind], j, b)]
    requires Addr(inode, blk, ino, NDIRECT + 1 + j) == 0
    ensures AddrAdded(inode, blk, inode, blk', ino, NDIRECT + 1 + j, b)
  {
    hide Word, SetWord;
    var ind := Addr(inode, blk, ino, NDIRECT);
    forall o, i
      ensures Addr(inode, blk', o, i) == if o == ino && i == NDIRECT + 1 + j then b else Addr(inode, blk, o, i)
    {
      if 0 <= o < |inode| && NDIRECT < i <= NDIRECT + NINDIRECT {
        assert Addr(inode, blk, o, NDIRECT) == inode[o].addrs[NDIRECT];
        WordSetWord(blk[ind], j, b, i - NDIRECT - 1);
      }
    }
  }

  /** bmap stores a fresh block in an empty entry of the indirect block. */
  lemma StoreIndirect(sb: Super, inode: seq<Inode>, blk: seq<Block>, owner: map<int, Slot>, extra: set<int>, ino: int, j: int, b: int)
    requires FsOk(sb, inode, blk, owner, extra) && 0 <= ino < |inode| && 0 <= j < NINDIRECT && sb.size < UINT_RANGE
    requires Addr(inode, blk, ino, NDIRECT) != 0 && Addr(inode, blk, ino, NDIRECT + 1 + j) == 0 && b in extra
    ensures
      var ind := Addr(inode, blk, ino, NDIRECT);
      && 0 < ind < |blk| && |blk[ind]| == BSIZE && 0 <= b < UINT_RANGE
      && var blk' := blk[ind := SetWord(blk[ind], j, b)];
      && FsOk(sb, inode, blk', owner[b := Slot(ino, NDIRECT + 1 + j)], extra - {b})
      && AddrAdded(inode, blk, inode, blk', ino, NDIRECT + 1 + j, b)
  {
    hide Word, SetWord, Addr, InUse;
    var ind := Addr(inode, blk, ino, NDIRECT);
    var blk' := blk[ind := SetWord(blk[ind], j, b)];
    EntryAdded(inode, blk, owner, sb.datastart, sb.size, ino, j, b, blk');
    AddedTree(inode, blk, inode, blk', owner, sb.datastart, sb.size, ino, NDIRECT + 1 + j, b);
    DataWriteKeepsMap(blk, sb.bmapstart, sb.datastart, sb.size, ind, SetWord(blk[ind], j, b));
    StoredBits(blk, blk', owner, extra, sb.bmapstart, sb.datastart, sb.size, b, Slot(ino, NDIRECT + 1 + j));
  }

  lemma StoredBits(blk: seq<Block>, blk': seq<Block>, owner: map<int, Slot>, extra: set<int>, bmapstart: int, datastart: int,
                   size: int, b: int, s: Slot)
    requires BitsAre(blk, owner, extra, bmapstart, datastart, size) && SameBits(blk, blk', bmapstart, size) && b in extra
    ensures BitsAre(blk', owner[b := s], extra - {b}, bmapstart, datastart, size)
  {
    hide InUse;
  }

  // ---------------------------------------------------------------------------------------------
  // Giving blocks back
  // ---------------------------------------------------------------------------------------------

  /** Every slot that held an address in `gone` is now empty; the others are unchanged. */
  ghost predicate AddrsRemoved(inode: seq<Inode>, blk: seq<Block>, inode': seq<Inode>, gone: set<int>) {
    forall o, i :: Addr(inode', blk, o, i) == if Addr(inode, blk, o, i) in gone then 0 else Addr(inode, blk, o, i)
  }

  lemma RemovedOk(sb: Super, inode: seq<Inode>, blk: seq<Block>, owner: map<int, Slot>, extra: set<int>, inode': seq<Inode>, gone: set<int>)
    requires FsOk(sb, inode, blk, owner, extra) && AddrsRemoved(inode, blk, inode', gone)
    requires forall a :: a in gone ==> a in owner
    requires forall i :: 0 <= i < |inode'| ==> |inode'[i].addrs| == NDIRECT + 1
    ensures FsOk(sb, inode', blk, owner - gone, extra + gone)
  {
    hide Addr, InUse, MapOk;
    forall a | a in owner
      ensures sb.datastart <= a < sb.size
    {
      assert Addr(inode, blk, owner[a].ino, owner[a].idx) == a;
    }
    assert Tree(inode', blk, owner - gone, sb.datastart, sb.size);
  }

  /** itrunc clears one direct address. */
  lemma DetachDirect(sb: Super, inode: seq<Inode>, blk: seq<Block>, owner: map<int, Slot>, extra: set<int>, ino: int, idx: int)
    requires FsOk(sb, inode, blk, owner, extra) && 0 <= ino < |inode| && 0 <= idx < NDIRECT
    requires Addr(inode, blk, ino, idx) != 0
    ensures |inode[ino].addrs| == NDIRECT + 1
    ensures
      var a := inode[ino].addrs[idx];
      && FsOk(sb, SetAddr(inode, ino, idx, 0), blk, owner - {a}, extra + {a})
      && AddrsRemoved(inode, blk, SetAddr(inode, ino, idx, 0), {a})
      && a in owner && owner[a] == Slot(ino, idx) && 0 < a < |blk| && a !in extra
  {
    var a, inode' := inode[ino].addrs[idx], SetAddr(inode, ino, idx, 0);
    assert Addr(inode, blk, ino, idx) == a;
    forall o, i
      ensures Addr(inode', blk, o, i) == if Addr(inode, blk, o, i) == a then 0 else Addr(inode, blk, o, i)
    {
    }
    RemovedOk(sb, inode, blk, owner, extra, inode', {a});
  }

  /** The indirect block of an inode together with the blocks it lists. */
  ghost function IndirectBlocks(owner: map<int, Slot>, ino: int): set<int> {
    set a | a in owner && owner[a].ino == ino && owner[a].idx >= NDIRECT
  }

  /** Clearing the indirect address detaches the indirect block and everything it lists. */
  lemma DetachIndirect(sb: Super, inode: seq<Inode>, blk: seq<Block>, owner: map<int, Slot>, extra: set<int>, ino: int)
    requires FsOk(sb, inode, blk, owner, extra) && 0 <= ino < |inode|
    ensures |inode[ino].addrs| == NDIRECT + 1
    ensures
      var gone := IndirectBlocks(owner, ino);
      && FsOk(sb, SetAddr(inode, ino, NDIRECT, 0), blk, owner - gone, extra + gone)
      && AddrsRemoved(inode, blk, SetAddr(inode, ino, NDIRECT, 0), gone)
  {
    var inode', gone := SetAddr(inode, ino, NDIRECT, 0), IndirectBlocks(owner, ino);
    forall o, i
      ensures Addr(inode', blk, o, i) == if Addr(inode, blk, o, i) in gone then 0 else Addr(inode, blk, o, i)
    {
      var a := Addr(inode, blk, o, i);
      if a != 0 {
        assert a in owner && owner[a] == Slot(o, i);
      } else if 0 in owner {
        assert false;
      }
    }
    RemovedOk(sb, inode, blk, owner, extra, inode', gone);
  }

  // ---------------------------------------------------------------------------------------------
  // Files as byte sequences
  // ---------------------------------------------------------------------------------------------

  /** Byte `k` of file `ino` lies in an allocated block. */
  predicate Mapped(inode: seq<Inode>, blk: seq<Block>, ino: int, k: int) {
    k >= 0 && Addr(inode, blk, ino, DataIdx(k / BSIZE)) != 0
  }

  function ByteAt(inode: seq<Inode>, blk: seq<Block>, ino: int, k: int): int {
    var a := Addr(inode, blk, ino, DataIdx(k / BSIZE));
    if 0 <= a < |blk| && |blk[a]| == BSIZE then blk[a][k % BSIZE] else 0
  }

  /** Every byte below the size is mapped. */
  ghost predicate NoHoles(inode: seq<Inode>, blk: seq<Block>, ino: int) {
    && 0 <= ino < |inode| && inode[ino].size >= 0
    && forall k :: 0 <= k < inode[ino].size ==> Mapped(inode, blk, ino, k)
  }

  function Contents(inode: seq<Inode>, blk: seq<Block>, ino: int): (c: seq<int>)
    requires 0 <= ino < |inode|
    ensures |c| == if inode[ino].size >= 0 then inode[ino].size else 0
    ensures forall k :: 0 <= k < |c| ==> c[k] == ByteAt(inode, blk, ino, k)
  {
    seq(if inode[ino].size >= 0 then inode[ino].size else 0, k => ByteAt(inode, blk, ino, k))
  }

  /** No address has been lost or changed. */
  ghost predicate KeepsAddrs(inode: seq<Inode>, blk: seq<Block>, inode': seq<Inode>, blk': seq<Block>) {
    forall o, i {:trigger Addr(inode', blk', o, i)} :: Addr(inode, blk, o, i) != 0 ==> Addr(inode', blk', o, i) == Addr(inode, blk, o, i)
  }

  /** No mapped byte of any file has moved or changed. */
  ghost predicate KeepsBytes(inode: seq<Inode>, blk: seq<Block>, inode': seq<Inode>, blk': seq<Block>) {
    && KeepsAddrs(inode, blk, inode', blk')
    && forall o, k {:trigger ByteAt(inode', blk', o, k)} ::
         Mapped(inode, blk, o, k) ==> ByteAt(inode', blk', o, k) == ByteAt(inode, blk, o, k)
  }

  lemma KeepsMapped(inode: seq<Inode>, blk: seq<Block>, inode': seq<Inode>, blk': seq<Block>, o: int, k: int)
    requires KeepsBytes(inode, blk, inode', blk') && Mapped(inode, blk, o, k)
    ensures Mapped(inode', blk', o, k) && ByteAt(inode', blk', o, k) == ByteAt(inode, blk, o, k)
  {
  }

  lemma KeepsTrans(inode0: seq<Inode>, blk0: seq<Block>, inode1: seq<Inode>, blk1: seq<Block>, inode2: seq<Inode>, blk2: seq<Block>)
    requires KeepsBytes(inode0, blk0, inode1, blk1) && KeepsBytes(inode1, blk1, inode2, blk2)
    ensures KeepsBytes(inode0, blk0, inode2, blk2)
  {
    hide ByteAt, Addr;
    forall o, i | Addr(inode0, blk0, o, i) != 0
      ensures Addr(inode2, blk2, o, i) == Addr(inode0, blk0, o, i)
    {
      assert Addr(inode1, blk1, o, i) == Addr(inode0, blk0, o, i);
    }
    forall o, k | Mapped(inode0, blk0, o, k)
      ensures ByteAt(inode2, blk2, o, k) == ByteAt(inode0, blk0, o, k)
    {
      KeepsMapped(inode0, blk0, inode1, blk1, o, k);
    }
  }

  /** A write to a block that holds no file data keeps every byte. */
  lemma OtherWriteKeeps(inode: seq<Inode>, blk: seq<Block>, blk': seq<Block>, owner: map<int, Slot>, datastart: int, size: int, x: int, data: Block)
    requires Tree(inode, blk, owner, datastart, size) && SameAddrs(inode, blk, inode, blk')
    requires 0 <= x < |blk| && blk' == blk[x := data] && |data| == |blk[x]| && (x in owner ==> owner[x].idx == NDIRECT)
    ensures KeepsBytes(inode, blk, inode, blk')
  {
    hide Addr;
    forall o, k | Mapped(inode, blk, o, k)
      ensures ByteAt(inode, blk', o, k) == ByteAt(inode, blk, o, k)
    {
      assert Addr(inode, blk, o, DataIdx(k / BSIZE)) != 0;
    }
  }

  /** Filling an empty slot keeps every byte; the block written on the way may be an indirect one. */
  lemma AddedKeeps(inode: seq<Inode>, blk: seq<Block>, inode': seq<Inode>, blk': seq<Block>, owner: map<int, Slot>,
                   datastart: int, size: int, ino: int, idx: int, b: int, x: int)
    requires Tree(inode, blk, owner, datastart, size) && AddrAdded(inode, blk, inode', blk', ino, idx, b)
    requires |blk'| == |blk| && (forall a :: 0 <= a < |blk| && a != x ==> blk'[a] == blk[a]) && (x in owner ==> owner[x].idx == NDIRECT)
    ensures KeepsBytes(inode, blk, inode', blk')
  {
    hide Addr;
    forall o, k | Mapped(inode, blk, o, k)
      ensures ByteAt(inode', blk', o, k) == ByteAt(inode, blk, o, k)
    {
      assert Addr(inode, blk, o, DataIdx(k / BSIZE)) != 0;
    }
  }

  /** Overwriting `m` bytes inside one block, as one turn of writei's loop does. */
  function Overwrite(b: Block, at: int, src: seq<int>): (r: Block)
    requires 0 <= at && at + |src| <= |b|
    ensures |r| == |b|
  {
    b[..at] + src + b[at + |src|..]
  }

  /** The bytes a write into the block of file position `off` changes are exactly its own. */
  lemma WriteBytes(inode: seq<Inode>, blk: seq<Block>, blk': seq<Block>, owner: map<int, Slot>, datastart: int, size: int,
                   ino: int, off: int, src: seq<int>, o: int, k: int)
    requires Tree(inode, blk, owner, datastart, size) && SameAddrs(inode, blk, inode, blk')
    requires off >= 0 && off % BSIZE + |src| <= BSIZE && Mapped(inode, blk, ino, off) && Mapped(inode, blk, o, k)
    requires
      var a := Addr(inode, blk, ino, DataIdx(off / BSIZE));
      && 0 <= a < |blk| && |blk[a]| == BSIZE && blk' == blk[a := Overwrite(blk[a], off % BSIZE, src)]
    ensures Mapped(inode, blk', o, k)
    ensures ByteAt(inode, blk', o, k) == if o == ino && off <= k < off + |src| then src[k - off] else ByteAt(inode, blk, o, k)
  {
    hide Addr;
    var a, c := Addr(inode, blk, ino, DataIdx(off / BSIZE)), Addr(inode, blk, o, DataIdx(k / BSIZE));
    assert Addr(inode, blk', o, DataIdx(k / BSIZE)) == c;
    if c == a {
      assert o == ino && DataIdx(k / BSIZE) == DataIdx(off / BSIZE);
      assert k / BSIZE == off / BSIZE;
      assert k - off == k % BSIZE - off % BSIZE;
    } else if o == ino {
      assert k / BSIZE != off / BSIZE;
    }
  }

  /** What writei means: the source spliced into the contents at `off`. */
  function Splice(c: seq<int>, off: int, src: seq<int>): (r: seq<int>)
    requires 0 <= off <= |c|
    ensures |r| == if off + |src| <= |c| then |c| else off + |src|
    ensures forall k :: 0 <= k < |r| ==> r[k] == if off <= k < off + |src| then src[k - off] else c[k]
  {
    c[..off] + src + if off + |src| <= |c| then c[off + |src|..] else []
  }

  /** File `ino` reads as `c`, byte by byte, whatever its size field says. */
  ghost predicate Reads(inode: seq<Inode>, blk: seq<Block>, ino: int, c: seq<int>) {
    forall k :: 0 <= k < |c| ==> Mapped(inode, blk, ino, k) && ByteAt(inode, blk, ino, k) == c[k]
  }

  /** The other files read as before. */
  ghost predicate KeepsOthers(inode: seq<Inode>, blk: seq<Block>, inode': seq<Inode>, blk': seq<Block>, ino: int) {
    forall o, k {:trigger ByteAt(inode', blk', o, k)} {:trigger Mapped(inode', blk', o, k)} ::
      o != ino && Mapped(inode, blk, o, k) ==>
        Mapped(inode', blk', o, k) && ByteAt(inode', blk', o, k) == ByteAt(inode, blk, o, k)
  }

  lemma KeepsOthersTrans(inode0: seq<Inode>, blk0: seq<Block>, inode1: seq<Inode>, blk1: seq<Block>, inode2: seq<Inode>, blk2: seq<Block>, ino: int)
    requires KeepsOthers(inode0, blk0, inode1, blk1, ino) && KeepsOthers(inode1, blk1, inode2, blk2, ino)
    ensures KeepsOthers(inode0, blk0, inode2, blk2, ino)
  {
    hide Mapped, ByteAt;
    forall o, k | o != ino && Mapped(inode0, blk0, o, k)
      ensures Mapped(inode2, blk2, o, k) && ByteAt(inode2, blk2, o, k) == ByteAt(inode0, blk0, o, k)
    {
      assert Mapped(inode1, blk1, o, k);
    }
  }

  lemma KeepsIsKeepsOthers(inode: seq<Inode>, blk: seq<Block>, inode': seq<Inode>, blk': seq<Block>, ino: int)
    requires KeepsBytes(inode, blk, inode', blk')
    ensures KeepsOthers(inode, blk, inode', blk', ino)
  {
    hide ByteAt, Addr;
    forall o, k | Mapped(inode, blk, o, k)
      ensures Mapped(inode', blk', o, k) && ByteAt(inode', blk', o, k) == ByteAt(inode, blk, o, k)
    {
      KeepsMapped(inode, blk, inode', blk', o, k);
    }
  }

  lemma KeepsReads(inode: seq<Inode>, blk: seq<Block>, inode': seq<Inode>, blk': seq<Block>, ino: int, c: seq<int>)
    requires KeepsBytes(inode, blk, inode', blk') && Reads(inode, blk, ino, c)
    ensures Reads(inode', blk', ino, c)
  {
    hide ByteAt, Mapped;
    forall k | 0 <= k < |c|
      ensures Mapped(inode', blk', ino, k) && ByteAt(inode', blk', ino, k) == c[k]
    {
      KeepsMapped(inode, blk, inode', blk', ino, k);
    }
  }

  /** One turn of writei's loop extends the splice by the bytes it writes. */
  lemma WriteReads(inode: seq<Inode>, blk: seq<Block>, blk': seq<Block>, owner: map<int, Slot>, datastart: int, size: int,
                   ino: int, c: seq<int>, off0: int, src: seq<int>, tot: int, m: int)
    requires Tree(inode, blk, owner, datastart, size) && SameAddrs(inode, blk, inode, blk')
    requires 0 <= off0 <= |c| && 0 <= tot && 0 < m && tot + m <= |src| && (off0 + tot) % BSIZE + m <= BSIZE
    requires Reads(inode, blk, ino, Splice(c, off0, src[..tot])) && Mapped(inode, blk, ino, off0 + tot)
    requires
      var off := off0 + tot;
      var a := Addr(inode, blk, ino, DataIdx(off / BSIZE));
      && 0 <= a < |blk| && |blk[a]| == BSIZE && blk' == blk[a := Overwrite(blk[a], off % BSIZE, src[tot..tot + m])]
    ensures Reads(inode, blk', ino, Splice(c, off0, src[..tot + m]))
    ensures KeepsOthers(inode, blk, inode, blk', ino)
  {
    hide Addr, ByteAt, Tree, SameAddrs, Overwrite, Splice;
    var off := off0 + tot;
    var c1, c2 := Splice(c, off0, src[..tot]), Splice(c, off0, src[..tot + m]);
    forall k | 0 <= k < |c2|
      ensures Mapped(inode, blk', ino, k) && ByteAt(inode, blk', ino, k) == c2[k]
    {
      if k >= |c1| {
        assert k / BSIZE == off / BSIZE;
      }
      WriteBytes(inode, blk, blk', owner, datastart, size, ino, off, src[tot..tot + m], ino, k);
    }
    forall o, k | o != ino && Mapped(inode, blk, o, k)
      ensures Mapped(inode, blk', o, k) && ByteAt(inode, blk', o, k) == ByteAt(inode, blk, o, k)
    {
      WriteBytes(inode, blk, blk', owner, datastart, size, ino, off, src[tot..tot + m], o, k);
    }
  }
}
