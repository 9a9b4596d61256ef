/**
 The block and inode layer of Offline 3/xv6/fs.c: balloc, bfree, bmap, itrunc, iupdate, readi,
 writei and iput, and filewrite of file.c. The in-core inodes are `inode`; `blk` is what bread returns
 for each block, inode blocks included, and the ghost `logged` collects the blocks given to log_write.
 */
module Fs {
  import opened Wrappers
  import opened Blocks
  import opened Bitmap
  import opened FsTree
  import opened Inodes
  import opened FsSteps

  class Fs {
    const sb: Super
    var blk: seq<Block>
    var inode: seq<Inode>
    var ref: seq<int>
    var valid: seq<bool>
    ghost var owner: map<int, Slot>
    ghost var logged: set<int>
    ghost var ops: seq<set<int>>

    constructor (sb: Super, blk: seq<Block>, inode: seq<Inode>, ghost owner: map<int, Slot>)
      requires FsOk(sb, inode, blk, owner, {}) && 0 < sb.size < UINT_RANGE && |inode| == sb.ninodes && Meta(sb, inode, blk)
      ensures Valid() && this.sb == sb && this.blk == blk && this.inode == inode && this.owner == owner && logged == {} && ops == []
      ensures |ref| == |valid| == |inode| && forall i :: 0 <= i < |inode| ==> ref[i] == 0 && !valid[i]
    {
      this.sb, this.blk, this.inode, this.owner := sb, blk, inode, owner;
      logged, ops := {}, [];
      ref, valid := seq(|inode|, _ => 0), seq(|inode|, _ => false);
    }

    /** The tree is sound, with the blocks `extra` allocated but not stored anywhere yet. */
    ghost predicate Sound(extra: set<int>)
      reads this
    {
      FsOk(sb, inode, blk, owner, extra) && 0 < sb.size < UINT_RANGE && |inode| == sb.ninodes && Meta(sb, inode, blk)
    }

    /** Inode `ino` is on the disk as it is in core. */
    predicate Synced(ino: int)
      reads this
    {
      0 <= ino < |inode| && Dinode(sb, blk, ino) == inode[ino]
    }

    ghost predicate Valid()
      reads this
    {
      Sound({})
    }

    /** balloc's two loops: the first block whose bit is clear, or sb.size if there is none. */
    method FindFree() returns (r: int)
      requires Valid()
      ensures 0 <= r <= sb.size && AllUsed(sb, blk, r)
      ensures r < sb.size ==> !InUse(blk, sb.bmapstart, r)
    {
      hide InUse, Tree, BitsAre, BitOf, Meta;
      var b := 0;
      while b < sb.size
        invariant 0 <= b && b % BPB == 0 && (if b <= sb.size then AllUsed(sb, blk, b) else AllUsed(sb, blk, sb.size))
        decreases sb.size - b
      {
        var bi := 0;
        while bi < BPB && b + bi < sb.size
          invariant 0 <= bi <= BPB && b + bi <= sb.size && AllUsed(sb, blk, b + bi)
        {
          ScanBit(sb, blk, b, bi);
          if !BitOf(blk[BitBlock(b, sb.bmapstart)][bi / 8], bi % 8) {
            return b + bi;
          }
          bi := bi + 1;
        }
        b := b + BPB;
      }
      r := sb.size;
    }

    /** balloc: the first free block, zeroed and marked; None where the source panics. */
    method Balloc() returns (r: Option<int>)
      requires Valid()
      modifies `blk, `logged
      ensures r.None? <==> AllUsed(sb, old(blk), sb.size)
      ensures r.None? ==> blk == old(blk) && logged == old(logged)
      ensures Covers(old(blk), old(logged), blk, logged) && InodesKept(sb, old(blk), blk) && Meta(sb, inode, blk)
      ensures r.Some? ==>
                && Sound({r.value}) && 0 < sb.datastart <= r.value < sb.size && r.value !in owner
                && AllUsed(sb, old(blk), r.value) && !InUse(old(blk), sb.bmapstart, r.value)
                && r.value < |blk| && blk[r.value] == ZERO
                && SameAddrs(inode, old(blk), inode, blk) && KeepsBytes(inode, old(blk), inode, blk)
                && logged == old(logged) + {BitBlock(r.value, sb.bmapstart), r.value}
    {
      hide FsOk, InUse, BitOf, BitWrite, BitBlock, BitByte, SameAddrs, KeepsBytes, Addr, ZERO, Covers, InodesKept, Meta;
      CoversRefl(blk, logged);
      KeptRefl(sb, blk);
      var b := FindFree();
      if b == sb.size {
        return None;
      }
      AllocStep(sb, inode, blk, owner, b);
      var x := BitBlock(b, sb.bmapstart);
      FsMap(sb, inode, blk, owner, {});
      BitAfter(sb, blk, b);
      KeptPut(sb, blk, x, blk[x][BitByte(b) := OrBit(blk[x][BitByte(b)], b % 8)]);
      CoversPut(blk, logged, x, blk[x][BitByte(b) := OrBit(blk[x][BitByte(b)], b % 8)]);
      blk := blk[x := blk[x][BitByte(b) := OrBit(blk[x][BitByte(b)], b % 8)]];
      logged := logged + {x};
      CoversPut(blk, logged, b, ZERO);
      CoversTrans(old(blk), old(logged), blk, logged, blk[b := ZERO], logged + {b});
      KeptPut(sb, blk, b, ZERO);
      KeptTrans(sb, old(blk), blk, blk[b := ZERO]);
      MetaBlk(sb, inode, old(blk), blk[b := ZERO]);
      blk := blk[b := ZERO];
      logged := logged + {b};
      r := Some(b);
    }

    /** bfree of a block in transit; the source's panic "freeing free block" is unreachable. */
    method Bfree(b: int, ghost extra: set<int>)
      requires Sound(extra) && b in extra
      modifies `blk, `logged
      ensures Sound(extra - {b})
      ensures SameAddrs(inode, old(blk), inode, blk) && KeepsBytes(inode, old(blk), inode, blk)
      ensures |blk| == |old(blk)| && forall x :: sb.datastart <= x < |blk| && 0 <= x ==> blk[x] == old(blk)[x]
      ensures 0 <= b < sb.size && logged == old(logged) + {BitBlock(b, sb.bmapstart)}
      ensures Covers(old(blk), old(logged), blk, logged) && InodesKept(sb, old(blk), blk)
    {
      hide FsOk, BitOf, BitWrite, BitBlock, BitByte, SameAddrs, KeepsBytes, Addr, Covers, InodesKept, Meta;
      FreeStep(sb, inode, blk, owner, extra, b);
      var x := BitBlock(b, sb.bmapstart);
      if !BitOf(blk[x][BitByte(b)], b % 8) {
        assert false;
      }
      FsMap(sb, inode, blk, owner, extra);
      BitAfter(sb, blk, b);
      KeptPut(sb, blk, x, blk[x][BitByte(b) := AndNotBit(blk[x][BitByte(b)], b % 8)]);
      MetaBlk(sb, inode, blk, blk[x := blk[x][BitByte(b) := AndNotBit(blk[x][BitByte(b)], b % 8)]]);
      CoversPut(blk, logged, x, blk[x][BitByte(b) := AndNotBit(blk[x][BitByte(b)], b % 8)]);
      blk := blk[x := blk[x][BitByte(b) := AndNotBit(blk[x][BitByte(b)], b % 8)]];
      logged := logged + {x};
    }

    /** The address in a direct or indirect slot of the inode, filled from balloc if it is empty. */
    method BmapSlot(ino: int, idx: int) returns (r: Option<int>)
      requires Valid() && 0 <= ino < |inode| && 0 <= idx <= NDIRECT
      modifies `blk, `inode, `owner, `logged
      ensures Valid() && SameButAddrs(old(inode), inode, ino) && KeepsBytes(old(inode), old(blk), inode, blk)
      ensures r.Some? ==> r.value != 0 && r.value == Addr(inode, blk, ino, idx) && LoggedBy(old(logged), logged, sb, {r.value})
      ensures r.None? ==> unchanged(this) && AllUsed(sb, blk, sb.size)
      ensures Addr(old(inode), old(blk), ino, idx) != 0 ==> r.Some? && unchanged(this)
      ensures Covers(old(blk), old(logged), blk, logged) && SlotsKept(old(inode), old(blk), inode, blk, ino, FileIdx(idx), FileIdx(idx) + 1)
      ensures InodesKept(sb, old(blk), blk)
    {
      hide FsOk, AllUsed, InUse, SameAddrs, KeepsBytes, Addr, ZERO, LoggedBy, BitBlock, Covers, SlotsKept, InodesKept, Meta;
      CoversRefl(blk, logged);
      KeptRefl(sb, blk);
      SlotsRefl(inode, blk, ino, FileIdx(idx), FileIdx(idx) + 1);
      DirectIs(sb, inode, blk, owner, ino, idx);
      KeepsRefl(inode, blk);
      var addr := inode[ino].addrs[idx];
      LoggedRefl(logged, sb, {addr});
      if addr == 0 {
        r := Balloc();
        if r.None? {
          return;
        }
        addr := r.value;
        SameSlot(inode, old(blk), blk, ino, idx);
        SlotsSame(inode, old(blk), inode, blk, ino, FileIdx(idx), FileIdx(idx) + 1);
        StoreStep(sb, inode, blk, owner, ino, idx, addr);
        LoggedAlloc(old(logged), sb, addr);
        inode := inode[ino := inode[ino].(addrs := inode[ino].addrs[idx := addr])];
        MetaAddrs(sb, old(inode), inode, blk, ino);
        owner := owner[addr := Slot(ino, idx)];
        KeepsTrans(old(inode), old(blk), old(inode), blk, inode, blk);
        SlotsTrans(old(inode), old(blk), old(inode), blk, inode, blk, ino, FileIdx(idx), FileIdx(idx) + 1,
                   FileIdx(idx), FileIdx(idx) + 1, FileIdx(idx), FileIdx(idx) + 1);
      }
      r := Some(addr);
    }

    /** An entry of the indirect block `ind`, filled from balloc if it is empty. */
    method BmapEntry(ino: int, j: int, ind: int) returns (r: Option<int>)
      requires Valid() && 0 <= ino < |inode| && 0 <= j < NINDIRECT && ind == Addr(inode, blk, ino, NDIRECT) != 0
      modifies `blk, `owner, `logged
      ensures Valid() && KeepsBytes(inode, old(blk), inode, blk)
      ensures r.Some? ==> r.value != 0 && r.value == Addr(inode, blk, ino, NDIRECT + 1 + j)
      ensures r.Some? ==> Addr(inode, blk, ino, NDIRECT) == ind && LoggedBy(old(logged), logged, sb, {r.value, ind})
      ensures r.None? ==> unchanged(this) && AllUsed(sb, blk, sb.size)
      ensures Addr(inode, old(blk), ino, NDIRECT + 1 + j) != 0 ==> r.Some? && unchanged(this)
      ensures Covers(old(blk), old(logged), blk, logged) && SlotsKept(inode, old(blk), inode, blk, ino, NDIRECT + j, NDIRECT + j + 1)
      ensures InodesKept(sb, old(blk), blk)
    {
      hide FsOk, AllUsed, InUse, SameAddrs, KeepsBytes, Addr, ZERO, LoggedBy, BitBlock, Word, SetWord, Covers, SlotsKept, InodesKept, Meta;
      CoversRefl(blk, logged);
      KeptRefl(sb, blk);
      SlotsRefl(inode, blk, ino, NDIRECT + j, NDIRECT + j + 1);
      EntryIs(sb, inode, blk, owner, ino, j, ind);
      KeepsRefl(inode, blk);
      var addr := Word(blk[ind], j);
      LoggedRefl(logged, sb, {addr, ind});
      if addr == 0 {
        r := Balloc();
        if r.None? {
          return;
        }
        addr := r.value;
        SameSlot(inode, old(blk), blk, ino, NDIRECT);
        SameSlot(inode, old(blk), blk, ino, NDIRECT + 1 + j);
        SlotsSame(inode, old(blk), inode, blk, ino, NDIRECT + j, NDIRECT + j + 1);
        EntryStep(sb, inode, blk, owner, ino, j, ind, addr);
        KeptPut(sb, blk, ind, SetWord(blk[ind], j, addr));
        KeptTrans(sb, old(blk), blk, blk[ind := SetWord(blk[ind], j, addr)]);
        MetaBlk(sb, inode, blk, blk[ind := SetWord(blk[ind], j, addr)]);
        CoversPut(blk, logged, ind, SetWord(blk[ind], j, addr));
        CoversTrans(old(blk), old(logged), blk, logged, blk[ind := SetWord(blk[ind], j, addr)], logged + {ind});
        SlotsTrans(inode, old(blk), inode, blk, inode, blk[ind := SetWord(blk[ind], j, addr)], ino, NDIRECT + j, NDIRECT + j + 1,
                   NDIRECT + j, NDIRECT + j + 1, NDIRECT + j, NDIRECT + j + 1);
        LoggedAlloc(old(logged), sb, addr);
        LoggedOne(logged, sb, ind);
        LoggedTrans(old(logged), logged, logged + {ind}, sb, {addr}, {ind}, {addr, ind});
        KeepsTrans(inode, old(blk), inode, blk, inode, blk[ind := SetWord(blk[ind], j, addr)]);
        blk := blk[ind := SetWord(blk[ind], j, addr)];
        logged := logged + {ind};
        owner := owner[addr := Slot(ino, NDIRECT + 1 + j)];
      }
      r := Some(addr);
    }

    /** bmap: the address of block `bn` of the file, allocating it (and the indirect block) if needed.
        None where the source panics: past the largest file, or with no block left. */
    method Bmap(ino: int, bn: int) returns (r: Option<int>)
      requires Valid() && 0 <= ino < |inode| && bn >= 0
      modifies `blk, `inode, `owner, `logged
      ensures Valid() && SameButAddrs(old(inode), inode, ino) && KeepsBytes(old(inode), old(blk), inode, blk)
      ensures r.Some? ==> r.value != 0 && r.value == Addr(inode, blk, ino, DataIdx(bn))
      ensures r.Some? ==> LoggedBy(old(logged), logged, sb, {r.value} + IndirectOf(inode, blk, ino))
      ensures r.None? ==> bn >= MAXFILE || AllUsed(sb, blk, sb.size)
      ensures bn < MAXFILE && Addr(old(inode), old(blk), ino, DataIdx(bn)) != 0 ==> r.Some? && unchanged(this)
      ensures bn >= MAXFILE ==> r.None? && unchanged(this)
      ensures Covers(old(blk), old(logged), blk, logged) && SlotsKept(old(inode), old(blk), inode, blk, ino, bn, bn + 1)
      ensures InodesKept(sb, old(blk), blk)
    {
      hide FsOk, AllUsed, InUse, SameAddrs, KeepsBytes, Addr, ZERO, LoggedBy, BitBlock, Word, SetWord, Covers, SlotsKept, InodesKept, Meta;
      CoversRefl(blk, logged);
      KeptRefl(sb, blk);
      SlotsRefl(inode, blk, ino, bn, bn + 1);
      if bn < NDIRECT {
        r := BmapSlot(ino, bn);
        if r.Some? {
          LoggedRefl(logged, sb, {});
          LoggedTrans(old(logged), logged, logged, sb, {r.value}, {}, {r.value} + IndirectOf(inode, blk, ino));
        }
        return;
      }
      if bn - NDIRECT < NINDIRECT {
        EntryNeedsIndirect(sb, inode, blk, owner, ino, bn - NDIRECT);
        r := BmapSlot(ino, NDIRECT);
        SlotsIndirect(old(inode), old(blk), inode, blk, ino, bn);
        if r.None? {
          return;
        }
        var ind := r.value;
        ghost var inode1, blk1, logged1 := inode, blk, logged;
        r := BmapEntry(ino, bn - NDIRECT, ind);
        KeepsTrans(old(inode), old(blk), inode1, blk1, inode, blk);
        CoversTrans(old(blk), old(logged), blk1, logged1, blk, logged);
        KeptTrans(sb, old(blk), blk1, blk);
        SlotsTrans(old(inode), old(blk), inode1, blk1, inode, blk, ino, bn, bn + 1, bn, bn + 1, bn, bn + 1);
        if r.Some? {
          LoggedTrans(old(logged), logged1, logged, sb, {ind}, {r.value, ind}, {r.value} + IndirectOf(inode, blk, ino));
        }
        return;
      }
      KeepsRefl(inode, blk);
      r := None;
    }

    /** iupdate: the inode's place in its block gets the in-core fields; every other inode of the disk, every
        address and every file byte stays. */
    method Iupdate(ino: int)
      requires Valid() && 0 <= ino < |inode|
      modifies `blk, `logged
      ensures Valid() && Synced(ino) && DinodesBut(sb, old(blk), blk, ino)
      ensures SameAddrs(inode, old(blk), inode, blk) && KeepsBytes(inode, old(blk), inode, blk)
      ensures logged == old(logged) + {InodeBlock(ino, sb.inodestart)} && Covers(old(blk), old(logged), blk, logged)
    {
      hide FsOk, Meta, EncodeInode, Dinode, DinodesBut, SameAddrs, KeepsBytes, Covers, Storable;
      UpdateStep(sb, inode, blk, owner, ino);
      var x := InodeBlock(ino, sb.inodestart);
      CoversPut(blk, logged, x, EncodeInode(blk[x], ino % IPB, inode[ino]));
      blk := blk[x := EncodeInode(blk[x], ino % IPB, inode[ino])];
      logged := logged + {x};
    }

    /** One turn of writei's loop: find the block, overwrite `m` bytes of it, log it. */
    method WriteChunk(ino: int, src: seq<int>, ghost c: seq<int>, ghost off0: int, tot: int, off: int, m: int) returns (ok: bool)
      requires Valid() && 0 <= ino < |inode|
      requires 0 <= off0 <= |c| && off == off0 + tot && 0 <= tot && 0 < m && tot + m <= |src| && off % BSIZE + m <= BSIZE
      requires off < MAXFILE * BSIZE && Reads(inode, blk, ino, Splice(c, off0, src[..tot]))
      modifies `blk, `inode, `owner, `logged
      ensures Valid() && SameButAddrs(old(inode), inode, ino) && KeepsOthers(old(inode), old(blk), inode, blk, ino)
      ensures !ok ==> AllUsed(sb, blk, sb.size)
      ensures KeepsAddrs(old(inode), old(blk), inode, blk)
      ensures ok ==>
                && Reads(inode, blk, ino, Splice(c, off0, src[..tot + m]))
                && Addr(inode, blk, ino, DataIdx(off / BSIZE)) != 0
                && LoggedBy(old(logged), logged, sb, {Addr(inode, blk, ino, DataIdx(off / BSIZE))} + IndirectOf(inode, blk, ino))
      ensures off < |c| ==> inode == old(inode)
      ensures Covers(old(blk), old(logged), blk, logged) && SlotsKept(old(inode), old(blk), inode, blk, ino, off / BSIZE, off / BSIZE + 1)
      ensures InodesKept(sb, old(blk), blk)
    {
      hide Covers, SlotsKept, InodesKept, Meta;
      hide FsOk, AllUsed, InUse, SameAddrs, KeepsBytes, KeepsOthers, KeepsAddrs, Addr, Reads, Splice, Overwrite, LoggedBy, IndirectOf;
      FirstBytes(inode, blk, ino, c, off0, src, tot);
      BlockInRange(off);
      var r := Bmap(ino, off / BSIZE);
      KeepsIsKeepsOthers(old(inode), old(blk), inode, blk, ino);
      KeepsToAddrs(old(inode), old(blk), inode, blk);
      if r.None? {
        return false;
      }
      var a := r.value;
      ghost var logged1 := logged;
      KeepsReads(old(inode), old(blk), inode, blk, ino, Splice(c, off0, src[..tot]));
      ChunkStep(sb, inode, blk, owner, ino, c, off0, src, tot, m, a);
      KeepsOthersTrans(old(inode), old(blk), inode, blk, inode, blk[a := Overwrite(blk[a], off % BSIZE, src[tot..tot + m])], ino);
      SameAddrsKeep(old(inode), old(blk), inode, blk, blk[a := Overwrite(blk[a], off % BSIZE, src[tot..tot + m])], ino, off / BSIZE);
      KeptPut(sb, blk, a, Overwrite(blk[a], off % BSIZE, src[tot..tot + m]));
      KeptTrans(sb, old(blk), blk, blk[a := Overwrite(blk[a], off % BSIZE, src[tot..tot + m])]);
      MetaBlk(sb, inode, blk, blk[a := Overwrite(blk[a], off % BSIZE, src[tot..tot + m])]);
      CoversPut(blk, logged, a, Overwrite(blk[a], off % BSIZE, src[tot..tot + m]));
      CoversTrans(old(blk), old(logged), blk, logged, blk[a := Overwrite(blk[a], off % BSIZE, src[tot..tot + m])], logged + {a});
      SlotsSame(inode, blk, inode, blk[a := Overwrite(blk[a], off % BSIZE, src[tot..tot + m])], ino, off / BSIZE, off / BSIZE + 1);
      SlotsTrans(old(inode), old(blk), inode, blk, inode, blk[a := Overwrite(blk[a], off % BSIZE, src[tot..tot + m])], ino,
                 off / BSIZE, off / BSIZE + 1, off / BSIZE, off / BSIZE + 1, off / BSIZE, off / BSIZE + 1);
      blk := blk[a := Overwrite(blk[a], off % BSIZE, src[tot..tot + m])];
      logged := logged + {a};
      LoggedOne(logged1, sb, a);
      LoggedTrans(old(logged), logged1, logged, sb, {a} + IndirectOf(inode, blk, ino), {a}, {a} + IndirectOf(inode, blk, ino));
      ok := true;
    }

    /** writei. On success the source is spliced into the file, every other file is untouched, the
        on-disk inode is up to date, and only the file's own blocks and bitmap blocks were logged. */
    method Writei(ino: int, src: seq<int>, off0: int, n: int, hasDriver: bool) returns (res: IoResult)
      requires Valid() && 0 <= ino < |inode| && 0 <= off0 < UINT_RANGE && 0 <= n < UINT_RANGE && |src| == n
      requires NoHoles(inode, blk, ino) && Synced(ino)
      modifies `blk, `inode, `owner, `logged
      ensures Valid() && OthersSame(sb, old(inode), old(blk), inode, blk, ino)
      ensures old(inode)[ino].kind == T_DEV ==> unchanged(this) && res == Device(inode[ino], hasDriver)
      ensures old(inode)[ino].kind != T_DEV ==> !res.Driver?
      ensures old(inode)[ino].kind != T_DEV ==>
                (res.Failed? <==> off0 > old(inode)[ino].size || off0 + n >= UINT_RANGE || off0 + n > MAXFILE * BSIZE)
      ensures res.Failed? ==> unchanged(this)
      ensures res.Panicked? ==> AllUsed(sb, blk, sb.size)
      ensures KeepsOthers(old(inode), old(blk), inode, blk, ino) && KeepsAddrs(old(inode), old(blk), inode, blk)
      ensures Covers(old(blk), old(logged), blk, logged)
      ensures 0 < n ==> SlotsKept(old(inode), old(blk), inode, blk, ino, off0 / BSIZE, BlockEnd(off0, n))
      ensures res.Count? ==>
                && res.n == n && off0 <= old(inode)[ino].size
                && NoHoles(inode, blk, ino) && Synced(ino)
                && Contents(inode, blk, ino) == Splice(old(Contents(inode, blk, ino)), off0, src)
                && inode[ino] == old(inode)[ino].(size := inode[ino].size, addrs := inode[ino].addrs)
                && LoggedBy(old(logged), logged, sb, WriteSet(sb, inode, blk, ino, off0, n))
    {
      hide FsOk, AllUsed, InUse, KeepsBytes, KeepsOthers, KeepsAddrs, Addr, Reads, Splice, LoggedBy, NoHoles, WriteSet, DataSet, IndirectOf, Contents, SameButAddrs;
      hide Covers, SlotsKept, BlockEnd, InodesKept, Meta, OthersSame, Dinode;
      CoversRefl(blk, logged);
      KeptRefl(sb, blk);
      OthersRefl(sb, inode, blk, ino);
      SlotsRefl(inode, blk, ino, off0 / BSIZE, BlockEnd(off0, n));
      KeepsOthersRefl(inode, blk, ino);
      if inode[ino].kind == T_DEV {
        if inode[ino].major < 0 || inode[ino].major >= NDEV || !hasDriver {
          return Failed;
        }
        return Driver(inode[ino].major);
      }
      if off0 > inode[ino].size || off0 + n >= UINT_RANGE {
        return Failed;
      }
      if off0 + n > MAXFILE * BSIZE {
        return Failed;
      }
      ghost var c := Contents(inode, blk, ino);
      WriteStart(inode, blk, ino, off0, src);
      DataSetStart(logged, sb, inode, blk, ino, off0);
      SameButRefl(inode, ino);
      var tot, off := 0, off0;
      while tot < n
        invariant 0 <= tot <= n && off == off0 + tot && Valid()
        invariant SameButAddrs(old(inode), inode, ino) && InodesKept(sb, old(blk), blk)
        invariant KeepsOthers(old(inode), old(blk), inode, blk, ino) && KeepsAddrs(old(inode), old(blk), inode, blk)
        invariant Reads(inode, blk, ino, Splice(c, off0, src[..tot]))
        invariant off <= |c| ==> inode == old(inode)
        invariant LoggedBy(old(logged), logged, sb, DataSet(inode, blk, ino, off0, tot))
        invariant Covers(old(blk), old(logged), blk, logged)
        invariant SlotsKept(old(inode), old(blk), inode, blk, ino, off0 / BSIZE, BlockEnd(off0, n))
        decreases n - tot
      {
        var m := if n - tot < BSIZE - off % BSIZE then n - tot else BSIZE - off % BSIZE;
        ghost var inode1, blk1, logged1 := inode, blk, logged;
        var ok := WriteChunk(ino, src, c, off0, tot, off, m);
        KeepsOthersTrans(old(inode), old(blk), inode1, blk1, inode, blk, ino);
        KeepsAddrsTrans(old(inode), old(blk), inode1, blk1, inode, blk);
        SameButTrans(old(inode), inode1, inode, ino);
        SameButIs(old(inode), inode, ino);
        CoversTrans(old(blk), old(logged), blk1, logged1, blk, logged);
        KeptTrans(sb, old(blk), blk1, blk);
        OthersKept(sb, old(inode), old(blk), inode, blk, ino);
        ChunkRange(off0, tot, m, n);
        SlotsTrans(old(inode), old(blk), inode1, blk1, inode, blk, ino, off0 / BSIZE, BlockEnd(off0, n),
                   off0 / BSIZE, BlockEnd(off0, n), off / BSIZE, off / BSIZE + 1);
        if !ok {
          return Panicked;
        }
        DataSetStep(old(logged), logged1, logged, sb, inode1, blk1, inode, blk, ino, off0, tot, m);
        tot := tot + m;
        off := off + m;
      }
      assert src[..n] == src;
      SameButIs(old(inode), inode, ino);
      OthersKept(sb, old(inode), old(blk), inode, blk, ino);
      if n > 0 && off > inode[ino].size {
        GrowFile(ino, off, c, src, off0, n, old(inode), old(blk), old(logged));
      } else {
        KeepsOthersRefl(inode, blk, ino);
        DataSetEnd(old(logged), logged, sb, inode, blk, inode, blk, ino, off0, n);
        KeptSynced(sb, old(blk), blk, inode, ino);
        ReadsWhole(inode, blk, ino, Splice(c, off0, src));
      }
      res := Count(n);
    }

    /** The end of writei: the size grows and the inode goes to the disk. */
    method GrowFile(ino: int, off: int, ghost c: seq<int>, ghost src: seq<int>, ghost off0: int, ghost n: int,
                    ghost inode0: seq<Inode>, ghost blk0: seq<Block>, ghost logged0: set<int>)
      requires Valid() && 0 <= ino < |inode| && 0 <= off < UINT_RANGE && 0 <= off0 <= |c| && n == |src| > 0 && off == off0 + n > |c|
      requires KeepsOthers(inode0, blk0, inode, blk, ino) && KeepsAddrs(inode0, blk0, inode, blk) && OthersSame(sb, inode0, blk0, inode, blk, ino)
      requires Reads(inode, blk, ino, Splice(c, off0, src)) && LoggedBy(logged0, logged, sb, DataSet(inode, blk, ino, off0, n))
      requires Covers(blk0, logged0, blk, logged) && SlotsKept(inode0, blk0, inode, blk, ino, off0 / BSIZE, BlockEnd(off0, n))
      modifies `blk, `inode, `logged
      ensures Valid() && inode == old(inode)[ino := old(inode)[ino].(size := off)] && Synced(ino)
      ensures KeepsOthers(inode0, blk0, inode, blk, ino) && KeepsAddrs(inode0, blk0, inode, blk) && OthersSame(sb, inode0, blk0, inode, blk, ino)
      ensures NoHoles(inode, blk, ino) && Contents(inode, blk, ino) == Splice(c, off0, src)
      ensures LoggedBy(logged0, logged, sb, WriteSet(sb, inode, blk, ino, off0, n))
      ensures Covers(blk0, logged0, blk, logged) && SlotsKept(inode0, blk0, inode, blk, ino, off0 / BSIZE, BlockEnd(off0, n))
    {
      hide FsOk, Meta, KeepsBytes, KeepsOthers, KeepsAddrs, Addr, Reads, Splice, LoggedBy, NoHoles, WriteSet, DataSet, Contents, Covers, SlotsKept,
           BlockEnd, OthersSame, Dinode, DinodesBut, SameAddrs;
      ghost var inode1, blk1 := inode, blk;
      MetaFits(sb, inode, blk, ino);
      inode := inode[ino := inode[ino].(size := off)];
      FieldsKeep(sb, inode1, blk, owner, {}, ino, inode[ino]);
      MetaSet(sb, inode1, blk, ino, inode[ino]);
      ghost var logged1 := logged;
      Iupdate(ino);
      KeepsTrans(inode1, blk1, inode, blk1, inode, blk);
      KeepsIsKeepsOthers(inode1, blk1, inode, blk, ino);
      KeepsToAddrs(inode1, blk1, inode, blk);
      KeepsOthersTrans(inode0, blk0, inode1, blk1, inode, blk, ino);
      KeepsAddrsTrans(inode0, blk0, inode1, blk1, inode, blk);
      KeepsReads(inode1, blk1, inode, blk, ino, Splice(c, off0, src));
      ReadsWhole(inode, blk, ino, Splice(c, off0, src));
      DataSetEnd(logged0, logged1, sb, inode1, blk1, inode, blk, ino, off0, n);
      SlotsSame(inode1, blk1, inode, blk1, ino, off0 / BSIZE, BlockEnd(off0, n));
      SlotsSame(inode, blk1, inode, blk, ino, off0 / BSIZE, BlockEnd(off0, n));
      SlotsTrans(inode0, blk0, inode1, blk1, inode, blk1, ino, off0 / BSIZE, BlockEnd(off0, n),
                 off0 / BSIZE, BlockEnd(off0, n), off0 / BSIZE, BlockEnd(off0, n));
      SlotsTrans(inode0, blk0, inode, blk1, inode, blk, ino, off0 / BSIZE, BlockEnd(off0, n),
                 off0 / BSIZE, BlockEnd(off0, n), off0 / BSIZE, BlockEnd(off0, n));
      CoversTrans(blk0, logged0, blk1, logged1, blk, logged);
      OthersUpdated(sb, inode1, blk1, inode, blk, ino);
      OthersTrans(sb, inode0, blk0, inode1, blk1, inode, blk, ino);
    }

    /** readi: exactly the requested slice, and nothing changes: bmap allocates nothing below the size. */
    method Readi(ino: int, off0: int, n0: int, hasDriver: bool) returns (res: IoResult, dst: seq<int>)
      requires Valid() && 0 <= ino < |inode| && 0 <= off0 < UINT_RANGE && 0 <= n0 < UINT_RANGE && NoHoles(inode, blk, ino)
      modifies `blk, `inode, `owner, `logged
      ensures unchanged(this) && !res.Panicked?
      ensures inode[ino].kind == T_DEV ==> res == Device(inode[ino], hasDriver)
      ensures inode[ino].kind != T_DEV ==> !res.Driver? && (res.Failed? <==> off0 > inode[ino].size || off0 + n0 >= UINT_RANGE)
      ensures res.Count? ==> off0 <= off0 + res.n <= inode[ino].size
      ensures res.Count? ==> res.n == if off0 + n0 <= inode[ino].size then n0 else inode[ino].size - off0
      ensures res.Count? ==> dst == Contents(inode, blk, ino)[off0..off0 + res.n]
    {
      hide FsOk, AllUsed, KeepsBytes, Addr, LoggedBy, NoHoles, Contents, SameButAddrs, Covers, SlotsKept, InodesKept, Meta;
      dst := [];
      if inode[ino].kind == T_DEV {
        if inode[ino].major < 0 || inode[ino].major >= NDEV || !hasDriver {
          return Failed, [];
        }
        return Driver(inode[ino].major), [];
      }
      if off0 > inode[ino].size || off0 + n0 >= UINT_RANGE {
        return Failed, [];
      }
      var n := n0;
      if off0 + n > inode[ino].size {
        n := inode[ino].size - off0;
      }
      var tot, off := 0, off0;
      while tot < n
        invariant 0 <= tot <= n && off == off0 + tot && unchanged(this)
        invariant dst == Contents(inode, blk, ino)[off0..off]
        decreases n - tot
      {
        ReadPoint(inode, blk, ino, off);
        var r := Bmap(ino, off / BSIZE);
        var a := r.value;
        var m := if n - tot < BSIZE - off % BSIZE then n - tot else BSIZE - off % BSIZE;
        ReadStep(sb, inode, blk, owner, ino, off, m, a);
        Joined(Contents(inode, blk, ino), off0, off, off + m);
        dst := dst + blk[a][off % BSIZE..off % BSIZE + m];
        tot := tot + m;
        off := off + m;
      }
      res := Count(n);
    }

    lemma Joined(c: seq<int>, i: int, j: int, k: int)
      requires 0 <= i <= j <= k <= |c|
      ensures c[i..j] + c[j..k] == c[i..k]
    {
    }

    /** itrunc's first loop, one address. */
    method FreeDirect(ino: int, i: int)
      requires Valid() && 0 <= ino < |inode| && 0 <= i < NDIRECT
      modifies `blk, `inode, `owner, `logged
      ensures Valid() && SameButAddrs(old(inode), inode, ino) && |old(inode)[ino].addrs| == |inode[ino].addrs| == NDIRECT + 1
      ensures inode[ino].addrs == old(inode)[ino].addrs[i := 0]
      ensures owner == old(owner) - OwnedIn(old(owner), ino, i, i + 1)
      ensures KeepsOthers(old(inode), old(blk), inode, blk, ino)
      ensures LoggedBy(old(logged), logged, sb, {}) && Covers(old(blk), old(logged), blk, logged) && InodesKept(sb, old(blk), blk)
    {
      hide FsOk, KeepsOthers, KeepsBytes, Addr, LoggedBy, BitBlock, OwnedIn, Word, SameAddrs, Covers, InodesKept, Meta;
      CoversRefl(blk, logged);
      KeptRefl(sb, blk);
      DirectIs(sb, inode, blk, owner, ino, i);
      OwnedOne(sb, inode, blk, owner, ino, i, i + 1);
      NoneOwned(owner, ino, i + 1);
      KeepsOthersRefl(inode, blk, ino);
      LoggedRefl(logged, sb, {});
      var a := inode[ino].addrs[i];
      if a != 0 {
        TruncDirect(sb, inode, blk, owner, ino, i);
        inode := inode[ino := inode[ino].(addrs := inode[ino].addrs[i := 0])];
        MetaAddrs(sb, old(inode), inode, blk, ino);
        owner := owner - {a};
        FreeOne(a, {a}, old(inode), old(blk), old(logged), ino);
        assert {a} - {a} == {};
      } else {
        NoneOwned(owner, ino, i);
      }
    }

    /** itrunc's second part: the blocks the indirect block lists, then the indirect block. */
    method FreeIndirect(ino: int)
      requires Valid() && 0 <= ino < |inode|
      modifies `blk, `inode, `owner, `logged
      ensures Valid() && SameButAddrs(old(inode), inode, ino) && |old(inode)[ino].addrs| == |inode[ino].addrs| == NDIRECT + 1
      ensures inode[ino].addrs == old(inode)[ino].addrs[NDIRECT := 0]
      ensures owner == old(owner) - OwnedIn(old(owner), ino, NDIRECT, SLOTS)
      ensures KeepsOthers(old(inode), old(blk), inode, blk, ino) && LoggedBy(old(logged), logged, sb, {})
      ensures Covers(old(blk), old(logged), blk, logged) && InodesKept(sb, old(blk), blk)
    {
      hide FsOk, KeepsOthers, KeepsBytes, Addr, LoggedBy, BitBlock, OwnedIn, Word, SameAddrs, Covers, InodesKept, Meta;
      CoversRefl(blk, logged);
      KeptRefl(sb, blk);
      DirectIs(sb, inode, blk, owner, ino, NDIRECT);
      KeepsOthersRefl(inode, blk, ino);
      LoggedRefl(logged, sb, {});
      var ind := inode[ino].addrs[NDIRECT];
      TruncStart(sb, inode, blk, owner, ino, ind);
      if ind != 0 {
        TruncIndirect(sb, inode, blk, owner, ino);
        ghost var gone := OwnedIn(owner, ino, NDIRECT, SLOTS);
        inode := inode[ino := inode[ino].(addrs := inode[ino].addrs[NDIRECT := 0])];
        MetaAddrs(sb, old(inode), inode, blk, ino);
        owner := owner - gone;
        var j := 0;
        while j < NINDIRECT
          invariant 0 <= j <= NINDIRECT && Sound({ind} + OwnedIn(old(owner), ino, NDIRECT + 1 + j, SLOTS))
          invariant ind !in OwnedIn(old(owner), ino, NDIRECT + 1 + j, SLOTS)
          invariant ind < |blk| == |old(blk)| && blk[ind] == old(blk)[ind]
          invariant KeepsOthers(old(inode), old(blk), inode, blk, ino) && LoggedBy(old(logged), logged, sb, {})
          invariant Covers(old(blk), old(logged), blk, logged) && InodesKept(sb, old(blk), blk)
          invariant inode == old(inode)[ino := old(inode)[ino].(addrs := old(inode)[ino].addrs[NDIRECT := 0])]
          invariant owner == old(owner) - gone
        {
          TruncEntry(sb, old(inode), old(blk), old(owner), ino, j, ind);
          var a := Word(blk[ind], j);
          if a != 0 {
            FreeOne(a, {ind} + OwnedIn(old(owner), ino, NDIRECT + 1 + j, SLOTS), old(inode), old(blk), old(logged), ino);
          }
          j := j + 1;
        }
        NoneOwned(old(owner), ino, SLOTS);
        assert {ind} + {} == {ind} && {ind} - {ind} == {};
        FreeOne(ind, {ind}, old(inode), old(blk), old(logged), ino);
      } else {
        assert inode[ino].addrs[NDIRECT := 0] == inode[ino].addrs;
        NoneOwned(owner, ino, NDIRECT);
      }
    }

    /** bfree, keeping what a run from an earlier state has kept so far. */
    method FreeOne(b: int, ghost extra: set<int>, ghost inode0: seq<Inode>, ghost blk0: seq<Block>, ghost logged0: set<int>, ghost ino: int)
      requires Sound(extra) && b in extra && KeepsOthers(inode0, blk0, inode, blk, ino)
      requires LoggedBy(logged0, logged, sb, {}) && Covers(blk0, logged0, blk, logged)
      modifies `blk, `logged
      ensures Sound(extra - {b}) && KeepsOthers(inode0, blk0, inode, blk, ino)
      ensures LoggedBy(logged0, logged, sb, {}) && Covers(blk0, logged0, blk, logged) && (InodesKept(sb, blk0, old(blk)) ==> InodesKept(sb, blk0, blk))
      ensures |blk| == |old(blk)| && forall x :: sb.datastart <= x < |blk| && 0 <= x ==> blk[x] == old(blk)[x]
    {
      hide FsOk, KeepsOthers, KeepsBytes, LoggedBy, BitBlock, SameAddrs, Covers, InodesKept, Meta;
      Bfree(b, extra);
      if InodesKept(sb, blk0, old(blk)) {
        KeptTrans(sb, blk0, old(blk), blk);
      }
      CoversTrans(blk0, logged0, old(blk), old(logged), blk, logged);
      KeepsIsKeepsOthers(inode, old(blk), inode, blk, ino);
      KeepsOthersTrans(inode0, blk0, inode, old(blk), inode, blk, ino);
      LoggedBit(old(logged), sb, b, {});
      LoggedTrans(logged0, old(logged), logged, sb, {}, {}, {});
    }

    /** itrunc: the file becomes empty and exactly the blocks it owned become free. The source clears
        each address just after freeing its block; here the address is saved and cleared first. */
    method Itrunc(ino: int)
      requires Valid() && 0 <= ino < |inode|
      modifies `blk, `inode, `owner, `logged
      ensures Valid() && owner == old(owner) - OwnedBy(old(owner), ino)
      ensures |FreeBlocks(sb, blk)| == |FreeBlocks(sb, old(blk))| + |OwnedBy(old(owner), ino)|
      ensures |inode| == |old(inode)| && KeepsOthers(old(inode), old(blk), inode, blk, ino)
      ensures inode == old(inode)[ino := old(inode)[ino].(size := 0, addrs := NO_ADDRS)]
      ensures Synced(ino) && DinodesBut(sb, old(blk), blk, ino)
      ensures LoggedBy(old(logged), logged, sb, {InodeBlock(ino, sb.inodestart)}) && Covers(old(blk), old(logged), blk, logged)
    {
      hide FsOk, KeepsOthers, KeepsBytes, Addr, LoggedBy, BitBlock, OwnedIn, OwnedBy, FreeBlocks, Word, SameAddrs, SameButAddrs, Covers, InodesKept, Meta, Dinode, DinodesBut;
      CoversRefl(blk, logged);
      KeptRefl(sb, blk);
      KeepsOthersRefl(inode, blk, ino);
      LoggedRefl(logged, sb, {});
      SameButRefl(inode, ino);
      OwnedSlots(sb, inode, blk, owner, ino);
      NoneOwned(owner, ino, 0);
      DirectIs(sb, inode, blk, owner, ino, 0);
      var i := 0;
      while i < NDIRECT
        invariant 0 <= i <= NDIRECT && Valid() && SameButAddrs(old(inode), inode, ino) && InodesKept(sb, old(blk), blk)
        invariant owner == old(owner) - OwnedIn(old(owner), ino, 0, i)
        invariant |inode[ino].addrs| == NDIRECT + 1 && forall k :: 0 <= k < i ==> inode[ino].addrs[k] == 0
        invariant KeepsOthers(old(inode), old(blk), inode, blk, ino) && LoggedBy(old(logged), logged, sb, {})
        invariant Covers(old(blk), old(logged), blk, logged)
      {
        ghost var inode1, blk1, owner1, logged1 := inode, blk, owner, logged;
        FreeDirect(ino, i);
        OwnerLess(old(owner), owner1, ino, i, i + 1);
        KeepsOthersTrans(old(inode), old(blk), inode1, blk1, inode, blk, ino);
        SameButTrans(old(inode), inode1, inode, ino);
        LoggedTrans(old(logged), logged1, logged, sb, {}, {}, {});
        CoversTrans(old(blk), old(logged), blk1, logged1, blk, logged);
        KeptTrans(sb, old(blk), blk1, blk);
        i := i + 1;
      }
      ghost var inode1, blk1, owner1, logged1 := inode, blk, owner, logged;
      FreeIndirect(ino);
      OwnerLess(old(owner), owner1, ino, NDIRECT, SLOTS);
      KeepsOthersTrans(old(inode), old(blk), inode1, blk1, inode, blk, ino);
      SameButTrans(old(inode), inode1, inode, ino);
      SameButIs(old(inode), inode, ino);
      LoggedTrans(old(logged), logged1, logged, sb, {}, {}, {});
      CoversTrans(old(blk), old(logged), blk1, logged1, blk, logged);
      KeptTrans(sb, old(blk), blk1, blk);
      AreaKept(sb, old(inode), old(blk), blk, ino);
      assert inode[ino].addrs == NO_ADDRS;
      ghost var inode2, blk2, logged2 := inode, blk, logged;
      MetaFits(sb, inode, blk, ino);
      FieldsKeep(sb, inode, blk, owner, {}, ino, inode[ino].(size := 0));
      inode := inode[ino := inode[ino].(size := 0)];
      MetaSet(sb, inode2, blk, ino, inode[ino]);
      Iupdate(ino);
      TruncFrees(sb, old(inode), old(blk), old(owner), inode, blk, ino);
      KeepsIsKeepsOthers(inode, blk2, inode, blk, ino);
      KeepsOthersTrans(old(inode), old(blk), inode2, blk2, inode, blk2, ino);
      KeepsOthersTrans(old(inode), old(blk), inode, blk2, inode, blk, ino);
      CoversTrans(old(blk), old(logged), blk2, logged2, blk, logged);
      ButTrans(sb, old(blk), blk2, blk, ino);
      LoggedOne(logged2, sb, InodeBlock(ino, sb.inodestart));
      LoggedTrans(old(logged), logged2, logged, sb, {}, {InodeBlock(ino, sb.inodestart)}, {InodeBlock(ino, sb.inodestart)});
    }

    /** iput: the last reference to an inode without links truncates and frees it. */
    method Iput(ino: int)
      requires Valid() && 0 <= ino < |inode| && |ref| == |valid| == |inode|
      modifies this
      ensures Valid() && |inode| == |old(inode)| && KeepsOthers(old(inode), old(blk), inode, blk, ino)
      ensures ref == old(ref)[ino := old(ref)[ino] - 1]
      ensures Covers(old(blk), old(logged), blk, logged) && DinodesBut(sb, old(blk), blk, ino)
      ensures LoggedBy(old(logged), logged, sb, {InodeBlock(ino, sb.inodestart)})
      ensures
        if old(valid)[ino] && old(inode)[ino].nlink == 0 && old(ref)[ino] == 1 then
          && inode == old(inode)[ino := old(inode)[ino].(kind := 0, size := 0, addrs := NO_ADDRS)]
          && Synced(ino) && valid == old(valid)[ino := false]
          && owner == old(owner) - OwnedBy(old(owner), ino)
        else
          inode == old(inode) && valid == old(valid) && owner == old(owner) && blk == old(blk)
    {
      hide FsOk, KeepsOthers, KeepsBytes, Addr, LoggedBy, OwnedBy, SameAddrs, Covers, Meta, Dinode, DinodesBut;
      KeepsOthersRefl(inode, blk, ino);
      CoversRefl(blk, logged);
      ButRefl(sb, blk, ino);
      LoggedRefl(logged, sb, {InodeBlock(ino, sb.inodestart)});
      if valid[ino] && inode[ino].nlink == 0 {
        var r := ref[ino];
        if r == 1 {
          Itrunc(ino);
          ghost var inode1, blk1, logged1 := inode, blk, logged;
          MetaFits(sb, inode, blk, ino);
          FieldsKeep(sb, inode, blk, owner, {}, ino, inode[ino].(kind := 0));
          inode := inode[ino := inode[ino].(kind := 0)];
          MetaSet(sb, inode1, blk, ino, inode[ino]);
          Iupdate(ino);
          KeepsIsKeepsOthers(inode, blk1, inode, blk, ino);
          KeepsOthersTrans(old(inode), old(blk), inode1, blk1, inode, blk1, ino);
          KeepsOthersTrans(old(inode), old(blk), inode, blk1, inode, blk, ino);
          CoversTrans(old(blk), old(logged), blk1, logged1, blk, logged);
          ButTrans(sb, old(blk), blk1, blk, ino);
          LoggedOne(logged1, sb, InodeBlock(ino, sb.inodestart));
          LoggedTrans(old(logged), logged1, logged, sb, {InodeBlock(ino, sb.inodestart)}, {InodeBlock(ino, sb.inodestart)}, {InodeBlock(ino, sb.inodestart)});
          valid := valid[ino := false];
        }
      }
      ref := ref[ino := ref[ino] - 1];
    }

    /** One transaction of filewrite; `ops` records what each transaction logged. */
    method WriteOp(ino: int, src: seq<int>, off: int, n: int, hasDriver: bool) returns (r: IoResult)
      requires Valid() && 0 <= ino < |inode| && 0 <= off < UINT_RANGE && 0 < n <= CHUNK && |src| == n
      requires NoHoles(inode, blk, ino) && Synced(ino)
      modifies `blk, `inode, `owner, `logged, `ops
      ensures Valid() && OthersSame(sb, old(inode), old(blk), inode, blk, ino)
      ensures KeepsOthers(old(inode), old(blk), inode, blk, ino)
      ensures !r.Panicked? ==> NoHoles(inode, blk, ino) && Synced(ino) && inode[ino].kind == old(inode)[ino].kind
      ensures r.Driver? ==> old(inode)[ino].kind == T_DEV
      ensures old(inode)[ino].kind == T_DEV ==> r == Device(inode[ino], hasDriver)
      ensures r.Panicked? ==> AllUsed(sb, blk, sb.size)
      ensures r.Failed? || r.Driver? ==> inode == old(inode) && blk == old(blk)
      ensures old(inode)[ino].kind != T_DEV ==> (r.Failed? <==> off > old(inode)[ino].size || off + n > MAXFILE * BSIZE)
      ensures r.Count? ==> r.n == n && off <= old(inode)[ino].size && off + n <= MAXFILE * BSIZE && old(inode)[ino].kind != T_DEV
      ensures r.Count? ==> Contents(inode, blk, ino) == Splice(old(Contents(inode, blk, ino)), off, src)
      ensures ops == if r.Panicked? then old(ops) else old(ops) + [logged]
      ensures Covers(old(blk), {}, blk, logged)
      ensures !r.Panicked? ==> |logged| <= 6 + BitmapBlocks(sb)
    {
      hide FsOk, AllUsed, KeepsOthers, KeepsAddrs, Addr, Splice, LoggedBy, NoHoles, WriteSet, Contents, OthersSame, Covers, Meta, Dinode;
      logged := {};
      r := Writei(ino, src, off, n, hasDriver);
      if r.Count? {
        ChunkBudget(sb, inode, blk, ino, off, n, logged);
      }
      if !r.Panicked? {
        ops := ops + [logged];
      }
    }

    /** filewrite's state when the file has taken `w` from `off0` on; `inode0`, `blk0` and `ops0` are those it
        began with. */
    ghost predicate Took(ino: int, inode0: seq<Inode>, blk0: seq<Block>, ops0: seq<set<int>>, off0: int, w: seq<int>)
      reads this
    {
      && Valid() && 0 <= ino < |inode| == |inode0| && OthersSame(sb, inode0, blk0, inode, blk, ino) && KeepsOthers(inode0, blk0, inode, blk, ino)
      && NoHoles(inode, blk, ino) && Synced(ino) && inode[ino].kind == inode0[ino].kind && BudgetsMet(ops0, ops, 6 + BitmapBlocks(sb))
      && (0 <= off0 <= |Contents(inode0, blk0, ino)| ==> Contents(inode, blk, ino) == Splice(Contents(inode0, blk0, ino), off0, w))
    }

    /** One turn of filewrite's loop. */
    method FileChunk(ino: int, src: seq<int>, off0: int, i: int, n1: int, hasDriver: bool,
                     ghost inode0: seq<Inode>, ghost blk0: seq<Block>, ghost ops0: seq<set<int>>) returns (r: IoResult)
      requires 0 <= off0 && 0 <= i && 0 < n1 <= CHUNK && i + n1 <= |src| && off0 + i < UINT_RANGE
      requires Took(ino, inode0, blk0, ops0, off0, src[..i]) && (i > 0 ==> off0 <= |Contents(inode0, blk0, ino)|)
      modifies `blk, `inode, `owner, `logged, `ops
      ensures Valid() && OthersSame(sb, inode0, blk0, inode, blk, ino) && KeepsOthers(inode0, blk0, inode, blk, ino)
      ensures BudgetsMet(ops0, ops, 6 + BitmapBlocks(sb))
      ensures r.Panicked? ==> AllUsed(sb, blk, sb.size)
      ensures r.Driver? ==> inode0[ino].kind == T_DEV
      ensures inode0[ino].kind == T_DEV ==> r == Device(old(inode)[ino], hasDriver)
      ensures r.Failed? || r.Driver? ==> Took(ino, inode0, blk0, ops0, off0, src[..i])
      ensures r.Count? ==> Took(ino, inode0, blk0, ops0, off0, src[..i + n1]) && off0 + i <= |old(Contents(inode, blk, ino))|
      ensures r.Count? ==> off0 + i + n1 <= MAXFILE * BSIZE && inode0[ino].kind != T_DEV
      ensures inode0[ino].kind != T_DEV ==>
                (r.Failed? <==> off0 + i > |old(Contents(inode, blk, ino))| || off0 + i + n1 > MAXFILE * BSIZE)
    {
      hide FsOk, AllUsed, KeepsOthers, KeepsAddrs, Addr, Splice, LoggedBy, NoHoles, WriteSet, Contents, OthersSame, BitmapBlocks, BudgetsMet, Covers, Meta, Dinode;
      SizeIs(inode, blk, ino);
      Piece(src, i, n1);
      ghost var inode1, blk1, ops1 := inode, blk, ops;
      r := WriteOp(ino, src[i..i + n1], off0 + i, n1, hasDriver);
      KeepsOthersTrans(inode0, blk0, inode1, blk1, inode, blk, ino);
      OthersTrans(sb, inode0, blk0, inode1, blk1, inode, blk, ino);
      BudgetsTrans(ops0, ops1, ops, logged, 6 + BitmapBlocks(sb));
      if r.Count? {
        SpliceNext(Contents(inode0, blk0, ino), off0, src, i, n1);
      }
    }

    /** filewrite: chunks that each fit one transaction, spliced into the file one after the other. It
        fails exactly when some chunk does not fit the file; the chunks before it have been written. */
    method Filewrite(ino: int, writable: bool, src: seq<int>, off0: int, hasDriver: bool) returns (res: IoResult, off: int)
      requires Valid() && 0 <= ino < |inode| && 0 <= off0 < UINT_RANGE && |src| < UINT_RANGE / 2
      requires NoHoles(inode, blk, ino) && Synced(ino)
      modifies `blk, `inode, `owner, `logged, `ops
      ensures Valid() && OthersSame(sb, old(inode), old(blk), inode, blk, ino)
      ensures KeepsOthers(old(inode), old(blk), inode, blk, ino)
      ensures !writable ==> res.Failed? && off == off0 && inode == old(inode) && blk == old(blk)
      ensures res.Driver? ==> old(inode)[ino].kind == T_DEV
      ensures old(inode)[ino].kind == T_DEV && writable && src != [] ==> res == Device(old(inode)[ino], hasDriver) && off == off0
      ensures res.Panicked? ==> AllUsed(sb, blk, sb.size)
      ensures !res.Panicked? ==> NoHoles(inode, blk, ino) && Synced(ino) && off0 <= off <= off0 + |src|
      ensures !res.Panicked? && off0 <= old(inode)[ino].size ==>
                Contents(inode, blk, ino) == Splice(old(Contents(inode, blk, ino)), off0, src[..off - off0])
      ensures res.Count? ==> res.n == |src| && off == off0 + |src|
      ensures old(inode)[ino].kind != T_DEV && writable && !res.Panicked? ==>
                (res.Failed? <==> |src| > 0 && (off0 > old(inode)[ino].size || off0 + |src| > MAXFILE * BSIZE))
      ensures old(inode)[ino].kind != T_DEV && writable && res.Failed? ==>
                && AtChunk(off - off0, |src|)
                && if off0 > old(inode)[ino].size then off == off0 else off + ChunkAt(off - off0, |src|) > MAXFILE * BSIZE
      ensures BudgetsMet(old(ops), ops, 6 + BitmapBlocks(sb))
    {
      hide FsOk, AllUsed, KeepsOthers, KeepsAddrs, Addr, Splice, LoggedBy, NoHoles, WriteSet, Contents, OthersSame, BitmapBlocks, BudgetsMet, Covers, Meta, Dinode, AtChunk;
      ChunkFirst(|src|);
      BudgetsStart(ops, 6 + BitmapBlocks(sb));
      KeepsOthersRefl(inode, blk, ino);
      OthersRefl(sb, inode, blk, ino);
      if !writable {
        return Failed, off0;
      }
      ghost var c := Contents(inode, blk, ino);
      SpliceNone(c, off0);
      SizeIs(inode, blk, ino);
      var i, n := 0, |src|;
      off := off0;
      while i < n
        invariant 0 <= i <= n && off == off0 + i && off < UINT_RANGE && (i == n || AtChunk(i, n))
        invariant Took(ino, old(inode), old(blk), old(ops), off0, src[..i])
        invariant i > 0 ==> off0 <= |c| && off <= MAXFILE * BSIZE && old(inode)[ino].kind != T_DEV
        invariant i == 0 ==> inode == old(inode) && blk == old(blk)
      {
        var n1 := n - i;
        if n1 > CHUNK {
          n1 := CHUNK;
        }
        TookSize(ino, old(inode), old(blk), old(ops), off0, src[..i]);
        var r := FileChunk(ino, src, off0, i, n1, hasDriver, old(inode), old(blk), old(ops));
        if !r.Count? {
          return r, off;
        }
        ChunkNext(i, n);
        off := off + n1;
        i := i + n1;
      }
      assert src[..n] == src;
      res := Count(n);
    }

    /** What has been written so far lies below the size. */
    lemma TookSize(ino: int, inode0: seq<Inode>, blk0: seq<Block>, ops0: seq<set<int>>, off0: int, w: seq<int>)
      requires Took(ino, inode0, blk0, ops0, off0, w) && 0 <= off0 && 0 <= ino < |inode0|
      ensures off0 <= |Contents(inode0, blk0, ino)| ==> off0 + |w| <= |Contents(inode, blk, ino)|
    {
    }
  }
}
