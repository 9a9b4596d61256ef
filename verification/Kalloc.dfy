/**
 The physical frame allocator of Offline 3/xv6/kalloc.c: a stack of free frames linked through
 their own first words. Every frame is either on the list or in use, never both.
 */
module Kalloc {
  import opened Wrappers
  import opened Sums
  import opened Blocks
  import opened PageTable

  /** P2V of the frame's physical address. */
  function Kva(f: int): int {
    KERNBASE + f * PGSIZE
  }

  ghost predicate Shaped(mem: seq<Block>) {
    |mem| == NFRAMES && forall f :: 0 <= f < |mem| ==> |mem[f]| == PGSIZE
  }

  /** The list headed by `head` runs through just the frames `free`, in order. */
  ghost predicate Chain(mem: seq<Block>, head: int, free: seq<int>) {
    && head == (if free == [] then 0 else Kva(free[0]))
    && (forall j, k :: 0 <= j < k < |free| ==> free[j] != free[k])
    && (forall j, k {:trigger free[j], free[k]} :: 0 <= j < |free| - 1 && k == j + 1 ==> At(mem, free[j], 0) == Kva(free[k]))
    && (free != [] ==> At(mem, free[|free| - 1], 0) == 0)
  }

  /** The frames from `lo` on are partitioned between the free list and the frames in use. */
  ghost predicate Frames(mem: seq<Block>, head: int, free: seq<int>, use: map<int, Use>, lo: int) {
    && Shaped(mem) && 0 < lo <= NFRAMES && Chain(mem, head, free)
    && (forall f :: f in use ==> lo <= f < NFRAMES && f !in free)
    && (forall f :: f in free ==> lo <= f < NFRAMES)
    && (forall f :: lo <= f < NFRAMES ==> f in use || f in free)
  }

  lemma PopFrame(mem: seq<Block>, head: int, free: seq<int>, use: map<int, Use>, lo: int)
    requires Frames(mem, head, free, use, lo)
    ensures head == 0 <==> free == []
    ensures free != [] ==>
              && head == Kva(free[0]) && lo <= free[0] < NFRAMES && free[0] !in use
              && Frames(mem, At(mem, free[0], 0), free[1..], use[free[0] := Loose], lo)
  {
    hide At;
    if free != [] {
      var rest := free[1..];
      var first: int := free[0];
      assert first in free;
      assert forall f :: f in free <==> f == free[0] || f in rest;
      assert Chain(mem, At(mem, free[0], 0), rest);
    }
  }

  lemma PushFrame(mem: seq<Block>, head: int, free: seq<int>, use: map<int, Use>, lo: int, f: int, mem': seq<Block>)
    requires Frames(mem, head, free, use, lo) && f in use
    requires Shaped(mem') && WordsKept(mem, mem', f) && At(mem', f, 0) == head
    ensures Frames(mem', Kva(f), [f] + free, use - {f}, lo)
  {
    hide At;
    var more := [f] + free;
    assert forall g :: g in more <==> g == f || g in free;
    assert Chain(mem', Kva(f), more) by {
      forall j, k | 0 <= j < |more| - 1 && k == j + 1
        ensures At(mem', more[j], 0) == Kva(more[k])
      {
        if j > 0 {
          assert more[j] == free[j - 1] && more[k] == free[k - 1] && more[j] != f;
        }
      }
      assert free != [] ==> more[|more| - 1] == free[|free| - 1];
    }
  }

  /** A write to a frame in use leaves the list alone. */
  lemma WriteUsed(mem: seq<Block>, head: int, free: seq<int>, use: map<int, Use>, lo: int, f: int, mem': seq<Block>)
    requires Frames(mem, head, free, use, lo) && f in use && Shaped(mem') && WordsKept(mem, mem', f)
    ensures Frames(mem', head, free, use, lo)
  {
    hide At;
    if free != [] {
      assert free[|free| - 1] in free;
    }
  }

  lemma UseOnly(mem: seq<Block>, head: int, free: seq<int>, use: map<int, Use>, lo: int, use': map<int, Use>)
    requires Frames(mem, head, free, use, lo) && (forall f :: f in use' <==> f in use)
    ensures Frames(mem, head, free, use', lo)
  {
  }

  /** No frame is ever lost: free and used frames always add up. */
  lemma FramesConserved(mem: seq<Block>, head: int, free: seq<int>, use: map<int, Use>, lo: int)
    requires Frames(mem, head, free, use, lo)
    ensures |free| + |use| == NFRAMES - lo
  {
    hide Chain, Shaped;
    ChainDistinct(mem, head, free);
    var s := set f | f in free;
    SeqCount(free, s);
    TwoSets(s, use.Keys, lo, NFRAMES);
  }

  lemma TwoSets(a: set<int>, b: set<int>, lo: int, hi: int)
    requires a !! b && lo <= hi && forall x :: x in a || x in b <==> lo <= x < hi
    ensures |a| + |b| == hi - lo
  {
    Exactly(lo, hi, a + b);
  }

  lemma ChainDistinct(mem: seq<Block>, head: int, free: seq<int>)
    requires Chain(mem, head, free)
    ensures forall j, k :: 0 <= j < k < |free| ==> free[j] != free[k]
  {
  }

  lemma {:induction false} SeqCount(q: seq<int>, s: set<int>)
    requires forall j, k :: 0 <= j < k < |q| ==> q[j] != q[k]
    requires forall x :: x in s <==> x in q
    ensures |s| == |q|
  {
    if q == [] {
      if s != {} {
        var x := Pick(s);
      }
    } else {
      var n := |q| - 1;
      assert forall x :: x in q <==> x == q[n] || x in q[..n];
      SeqCount(q[..n], s - {q[n]});
    }
  }

  /** kfree's memset and link. */
  function Junk(head: int): (b: Block)
    requires 0 <= head < UINT_RANGE
    ensures |b| == PGSIZE
  {
    SetWord(seq(PGSIZE, _ => 1), 0, head)
  }

  lemma JunkHead(head: int)
    requires 0 <= head < UINT_RANGE
    ensures Word(Junk(head), 0) == head
  {
    WordSetWord(seq(PGSIZE, _ => 1), 0, head, 0);
  }
}
