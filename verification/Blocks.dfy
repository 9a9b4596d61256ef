/**
 Disk blocks as byte sequences, and the little-endian 32-bit words the kernel overlays on them
 (Offline 3/xv6/fs.h and the pointer casts in log.c and fs.c).
 */
module Blocks {
  const BSIZE := 512
  const WORDS := 128
  const UINT_RANGE := 0x1_0000_0000

  type Block = seq<int>

  predicate IsBlock(b: Block) {
    |b| == BSIZE && forall i :: 0 <= i < |b| ==> 0 <= b[i] < 256
  }

  /** The 32-bit word at word index `j`. */
  function Word(b: Block, j: int): int
    requires 0 <= j && 4 * j + 4 <= |b|
  {
    b[4 * j] + 256 * b[4 * j + 1] + 65536 * b[4 * j + 2] + 16777216 * b[4 * j + 3]
  }

  function SetWord(b: Block, j: int, v: int): (r: Block)
    requires 0 <= j && 4 * j + 4 <= |b| && 0 <= v < UINT_RANGE
    ensures |r| == |b|
  {
    b[4 * j := v % 256][4 * j + 1 := (v / 256) % 256][4 * j + 2 := (v / 65536) % 256][4 * j + 3 := v / 16777216]
  }

  lemma WordSetWord(b: Block, j: int, v: int, i: int)
    requires 0 <= j && 4 * j + 4 <= |b| && 0 <= v < UINT_RANGE && 0 <= i && 4 * i + 4 <= |b|
    ensures Word(SetWord(b, j, v), i) == if i == j then v else Word(b, i)
  {
    Digits(v);
  }

  lemma Digits(v: int)
    requires 0 <= v < UINT_RANGE
    ensures v % 256 + 256 * ((v / 256) % 256) + 65536 * ((v / 65536) % 256) + 16777216 * (v / 16777216) == v
    ensures 0 <= v / 16777216 < 256
  {
    var a := v / 256;
    var b := a / 256;
    assert v / 65536 == b;
    assert v / 16777216 == b / 256;
  }

  const ZERO: Block := seq(BSIZE, _ => 0)

  lemma ZeroWords(j: int)
    requires 0 <= j < WORDS
    ensures IsBlock(ZERO) && Word(ZERO, j) == 0
  {
  }
}
