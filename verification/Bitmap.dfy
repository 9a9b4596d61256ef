/**
 The free-block bitmap of Offline 3/xv6/fs.c: bit operations on bytes, and the bit of a block
 inside the bitmap blocks.
 */
module Bitmap {
  import opened Blocks

  const BPB := 4096

  /** 1 << k */
  function Pow2(k: int): (p: int)
    requires k >= 0
    ensures p >= 1
    decreases k
  {
    if k == 0 then 1 else 2 * Pow2(k - 1)
  }

  /** (x & (1 << k)) != 0 */
  predicate BitOf(x: int, k: int)
    requires k >= 0
    decreases k
  {
    if k == 0 then x % 2 == 1 else BitOf(x / 2, k - 1)
  }

  /** x | (1 << k) */
  function OrBit(x: int, k: int): int
    requires k >= 0
  {
    if BitOf(x, k) then x else x + Pow2(k)
  }

  /** x & ~(1 << k) */
  function AndNotBit(x: int, k: int): int
    requires k >= 0
  {
    if BitOf(x, k) then x - Pow2(k) else x
  }

  lemma {:induction false} AddBit(x: int, k: int, j: int)
    requires k >= 0 && j >= 0 && !BitOf(x, k)
    ensures BitOf(x + Pow2(k), j) <==> j == k || BitOf(x, j)
    decreases k
  {
    if k == 0 {
      assert (x + 1) / 2 == x / 2;
    } else {
      assert (x + Pow2(k)) / 2 == x / 2 + Pow2(k - 1);
      assert (x + Pow2(k)) % 2 == x % 2;
      if j > 0 {
        AddBit(x / 2, k - 1, j - 1);
      }
    }
  }

  lemma {:induction false} AddBitBound(x: int, k: int, n: int)
    requires 0 <= k < n && 0 <= x < Pow2(n) && !BitOf(x, k)
    ensures x + Pow2(k) < Pow2(n)
    decreases k
  {
    if k > 0 {
      AddBitBound(x / 2, k - 1, n - 1);
    }
  }

  lemma {:induction false} BitBelow(x: int, k: int)
    requires k >= 0 && x >= 0 && BitOf(x, k)
    ensures x >= Pow2(k) && !BitOf(x - Pow2(k), k)
    decreases k
  {
    if k > 0 {
      BitBelow(x / 2, k - 1);
      assert (x - Pow2(k)) / 2 == x / 2 - Pow2(k - 1);
    }
  }

  lemma {:induction false} OrBitIs(x: int, k: int, j: int)
    requires 0 <= x < 256 && 0 <= k < 8 && j >= 0
    ensures 0 <= OrBit(x, k) < 256
    ensures BitOf(OrBit(x, k), j) <==> j == k || BitOf(x, j)
  {
    assert Pow2(8) == 256 by {
      assert Pow2(4) == 16;
    }
    if !BitOf(x, k) {
      AddBit(x, k, j);
      AddBitBound(x, k, 8);
    }
  }

  lemma {:induction false} AndNotBitIs(x: int, k: int, j: int)
    requires 0 <= x < 256 && 0 <= k < 8 && j >= 0
    ensures 0 <= AndNotBit(x, k) < 256
    ensures BitOf(AndNotBit(x, k), j) <==> j != k && BitOf(x, j)
  {
    if BitOf(x, k) {
      BitBelow(x, k);
      AddBit(x - Pow2(k), k, j);
    }
  }

  // ---------------------------------------------------------------------------------------------
  // The bit of a block
  // ---------------------------------------------------------------------------------------------

  /** Blocks from the bitmap on have the block size; the bitmap blocks hold bytes and cover blocks 0 .. size - 1. */
  ghost predicate MapOk(blk: seq<Block>, bmapstart: int, datastart: int, size: int) {
    && 0 < bmapstart < datastart <= size <= |blk|
    && bmapstart + (size - 1) / BPB < datastart
    && (forall b :: bmapstart <= b < |blk| ==> |blk[b]| == BSIZE)
    && (forall b, i :: bmapstart <= b < datastart && 0 <= i < BSIZE && b < |blk| && i < |blk[b]| ==> 0 <= blk[b][i] < 256)
  }

  function BitBlock(b: int, bmapstart: int): int {
    bmapstart + b / BPB
  }

  function BitByte(b: int): int {
    (b % BPB) / 8
  }

  /** Block `b` is marked in use. */
  ghost predicate InUse(blk: seq<Block>, bmapstart: int, b: int) {
    && b >= 0 && 0 <= BitBlock(b, bmapstart) < |blk| && |blk[BitBlock(b, bmapstart)]| == BSIZE
    && BitOf(blk[BitBlock(b, bmapstart)][BitByte(b)], b % 8)
  }

  lemma BitPlace(blk: seq<Block>, bmapstart: int, datastart: int, size: int, b: int)
    requires MapOk(blk, bmapstart, datastart, size) && 0 <= b < size
    ensures bmapstart <= BitBlock(b, bmapstart) < datastart <= |blk| && |blk[BitBlock(b, bmapstart)]| == BSIZE
    ensures 0 <= BitByte(b) < BSIZE && 0 <= blk[BitBlock(b, bmapstart)][BitByte(b)] < 256
  {
    assert b / BPB <= (size - 1) / BPB;
  }

  lemma SameBit(a: int, b: int)
    requires a >= 0 && b >= 0
    ensures a / BPB == b / BPB && BitByte(a) == BitByte(b) && a % 8 == b % 8 ==> a == b
  {
    assert (a % BPB) % 8 == a % 8 && (b % BPB) % 8 == b % 8;
  }

  /** Setting one bit changes no other. */
  lemma SetInUse(blk: seq<Block>, bmapstart: int, datastart: int, size: int, b: int, blk': seq<Block>, used: bool)
    requires MapOk(blk, bmapstart, datastart, size) && 0 <= b < size
    requires
      var x := BitBlock(b, bmapstart);
      && 0 <= x < |blk| && |blk[x]| == BSIZE && 0 <= BitByte(b) < BSIZE
      && var v := blk[x][BitByte(b)];
      blk' == blk[x := blk[x][BitByte(b) := if used then OrBit(v, b % 8) else AndNotBit(v, b % 8)]]
    ensures MapOk(blk', bmapstart, datastart, size)
    ensures forall a :: 0 <= a < size ==> (InUse(blk', bmapstart, a) <==> if a == b then used else InUse(blk, bmapstart, a))
  {
    BitPlace(blk, bmapstart, datastart, size, b);
    var x, i := BitBlock(b, bmapstart), BitByte(b);
    var v := blk[x][i];
    OrBitIs(v, b % 8, 0);
    AndNotBitIs(v, b % 8, 0);
    forall a | 0 <= a < size
      ensures InUse(blk', bmapstart, a) <==> if a == b then used else InUse(blk, bmapstart, a)
    {
      BitPlace(blk, bmapstart, datastart, size, a);
      SameBit(a, b);
      OrBitIs(v, b % 8, a % 8);
      AndNotBitIs(v, b % 8, a % 8);
    }
  }

  ghost predicate SameBits(blk: seq<Block>, blk': seq<Block>, bmapstart: int, size: int) {
    forall a :: 0 <= a < size ==> (InUse(blk', bmapstart, a) <==> InUse(blk, bmapstart, a))
  }

  /** Writing a data block changes no bit. */
  lemma DataWriteKeepsMap(blk: seq<Block>, bmapstart: int, datastart: int, size: int, b: int, data: Block)
    requires MapOk(blk, bmapstart, datastart, size) && datastart <= b < |blk| && |data| == BSIZE
    ensures MapOk(blk[b := data], bmapstart, datastart, size)
    ensures SameBits(blk, blk[b := data], bmapstart, size)
  {
    forall a | 0 <= a < size
      ensures bmapstart <= BitBlock(a, bmapstart) < datastart <= |blk| && |blk[BitBlock(a, bmapstart)]| == BSIZE
    {
      BitPlace(blk, bmapstart, datastart, size, a);
    }
  }
}
