/**
 What the cache of Offline 3/xv6/bio.c holds after one process has read blocks one after the other: bread and brelse
 keep the blocks read most recently.
 */
module Lru {
  import opened Counting
  import opened Bio

  ghost function Without(c: seq<int>, x: int): seq<int>
    decreases |c|
  {
    if c == [] then [] else (if c[0] == x then [] else [c[0]]) + Without(c[1..], x)
  }

  /** The blocks read, each once, the most recent first. */
  ghost function Recent(xs: seq<int>): seq<int>
    decreases |xs|
  {
    if xs == [] then [] else [xs[|xs| - 1]] + Without(Recent(xs[..|xs| - 1]), xs[|xs| - 1])
  }

  ghost function Upto(c: seq<int>, n: nat): seq<int> {
    if |c| <= n then c else c[..n]
  }

  lemma {:induction false} WithoutNone(c: seq<int>, x: int)
    requires x !in c
    ensures Without(c, x) == c
    decreases |c|
  {
    if c != [] {
      WithoutNone(c[1..], x);
    }
  }

  /** In a list without repetitions one place at most goes. */
  lemma {:induction false} WithoutIs(c: seq<int>, x: int) returns (k: nat)
    requires Distinct(c)
    ensures k <= |c| && (k < |c| ==> c[k] == x) && (k == |c| ==> x !in c)
    ensures Without(c, x) == c[..k] + if k < |c| then c[k + 1..] else []
    decreases |c|
  {
    if c == [] {
      k := 0;
    } else if c[0] == x {
      k := 0;
      WithoutNone(c[1..], x);
    } else {
      var j := WithoutIs(c[1..], x);
      k := j + 1;
      hide Distinct;
      assert c[..k] == [c[0]] + c[1..][..j];
      assert k < |c| ==> c[k + 1..] == c[1..][j + 1..];
    }
  }

  lemma {:induction false} WithoutHas(c: seq<int>, x: int)
    requires Distinct(c)
    ensures Distinct(Without(c, x)) && forall y :: y in Without(c, x) <==> y in c && y != x
  {
    var k := WithoutIs(c, x);
    forall y | y in c && y != x
      ensures y in Without(c, x)
    {
      var i :| 0 <= i < |c| && c[i] == y;
      assert Without(c, x)[if i < k then i else i - 1] == y;
    }
  }

  lemma DistinctMore(c: seq<int>, x: int)
    requires Distinct(c) && x !in c
    ensures Distinct([x] + c)
  {
    forall i | 0 <= i < |c|
      ensures c[i] != x
    {
    }
  }

  /** Recent lists just the blocks read, ... */
  lemma {:induction false} RecentHas(xs: seq<int>)
    ensures Distinct(Recent(xs)) && forall x :: x in Recent(xs) <==> x in xs
    decreases |xs|
  {
    if xs != [] {
      var n := |xs| - 1;
      RecentHas(xs[..n]);
      var c := Without(Recent(xs[..n]), xs[n]);
      WithoutHas(Recent(xs[..n]), xs[n]);
      assert xs == xs[..n] + [xs[n]];
      DistinctMore(c, xs[n]);
      hide Distinct, Without;
    }
  }

  /** ... each before those that were last read earlier. */
  lemma {:induction false} RecentOrder(xs: seq<int>, i: int, j: int)
    requires 0 <= i < j < |Recent(xs)|
    ensures LastAt(xs, Recent(xs)[i]) > LastAt(xs, Recent(xs)[j])
    decreases |xs|
  {
    hide Without, Distinct, LastAt;
    var n, x := |xs| - 1, xs[|xs| - 1];
    var c := Recent(xs[..n]);
    RecentHas(xs[..n]);
    var k := WithoutFrom(c, x);
    assert xs == xs[..n] + [x] && Recent(xs) == [x] + Without(c, x);
    var a, b := Recent(xs)[i], Recent(xs)[j];
    LastAtMore(xs[..n], x, a);
    LastAtMore(xs[..n], x, b);
    assert b == Without(c, x)[j - 1];
    if i > 0 {
      assert a == Without(c, x)[i - 1];
      RecentOrder(xs[..n], if i - 1 < k then i - 1 else i, if j - 1 < k then j - 1 else j);
    }
  }

  /** Where the elements that stay come from. */
  lemma {:induction false} WithoutFrom(c: seq<int>, x: int) returns (k: nat)
    requires Distinct(c)
    ensures |Without(c, x)| <= |c| && (k < |c| ==> |Without(c, x)| < |c|)
    ensures forall i :: 0 <= i < |Without(c, x)| ==>
              (i >= k ==> i + 1 < |c|) && Without(c, x)[i] == c[if i < k then i else i + 1] != x
  {
    k := WithoutIs(c, x);
    hide Without;
  }

  lemma SamePlace(c: seq<int>, x: int, n: nat, k: nat, j: nat)
    requires Distinct(c) && n < |c| && k <= |c| && (k < |c| ==> c[k] == x) && (k == |c| ==> x !in c)
    requires j <= n && (j < n ==> c[..n][j] == x) && (j == n ==> x !in c[..n])
    ensures j == if k < n then k else n
  {
    assert forall i :: 0 <= i < n ==> c[..n][i] == c[i];
  }

  /** A list of the most recent blocks is enough to go on with. */
  lemma {:induction false} UptoNext(c: seq<int>, x: int, n: nat)
    requires Distinct(c) && n >= 1
    ensures Upto([x] + Without(Upto(c, n), x), n) == Upto([x] + Without(c, x), n)
  {
    hide Without;
    if |c| > n {
      assert Distinct(c[..n]);
      var k := WithoutIs(c, x);
      var j := WithoutIs(c[..n], x);
      SamePlace(c, x, n, k, j);
      hide Distinct;
      if k < n {
        assert c[..n][..k] == c[..k];
      }
    }
  }

  /** Nobody has a buffer; the list shows the blocks of `c`, in this order, and then buffers never used. */
  ghost predicate Shows(buf: seq<Buf>, ring: seq<int>, c: seq<int>) {
    && |ring| == |buf| + 2 && |c| <= |buf|
    && (forall i :: 1 <= i <= |buf| ==> 0 <= ring[i] < |buf| && Idle(buf[ring[i]]) && !buf[ring[i]].locked)
    && (forall i :: 1 <= i <= |c| ==> Caches(buf[ring[i]], ROOTDEV, c[i - 1]))
    && (forall i :: |c| < i <= |buf| ==> buf[ring[i]].dev == 0)
  }

  lemma ShowsCached(buf: seq<Buf>, ring: seq<int>, pos: seq<int>, c: seq<int>, x: int)
    requires Tour(ring, pos, |buf|) && Shows(buf, ring, c)
    ensures x in c <==> exists b :: 0 <= b < |buf| && Caches(buf[b], ROOTDEV, x)
  {
    forall b | 0 <= b < |buf| && Caches(buf[b], ROOTDEV, x)
      ensures x in c
    {
      assert ring[pos[b]] == b;
      assert c[pos[b] - 1] == x;
    }
    if x in c {
      var i :| 0 <= i < |c| && c[i] == x;
      assert Caches(buf[ring[i + 1]], ROOTDEV, x);
    }
  }

  /** The place in the list of the buffer bget picks: the block's own, or the last. */
  lemma PickedPlace(buf: seq<Buf>, ring: seq<int>, pos: seq<int>, released: seq<int>, c: seq<int>, x: int, b: int)
    requires Tour(ring, pos, |buf|) && ByRelease(ring, released, |buf|) && Shows(buf, ring, c) && Picks(buf, released, ROOTDEV, x, b)
    ensures 1 <= pos[b] <= |buf| && ring[pos[b]] == b
    ensures if x in c then pos[b] <= |c| && c[pos[b] - 1] == x else pos[b] == |buf|
  {
    ShowsCached(buf, ring, pos, c, x);
    assert ring[pos[b]] == b;
    if x !in c {
      assert Idle(buf[ring[|buf|]]);
    }
  }

  /** What the list shows after its place `k` has got buffer `n` and moved to the front. */
  lemma MovedShows(buf: seq<Buf>, ring: seq<int>, pos: seq<int>, k: int, n: Buf, ring': seq<int>, i: int)
    requires Tour(ring, pos, |buf|) && 1 <= k <= |buf| && MovedFront(ring, k, ring') && 1 <= i <= |buf|
    ensures 0 <= ring[k] < |buf| && 0 <= ring'[i] < |buf| && (1 < i <= k ==> 0 <= ring[i - 1] < |buf|) && 0 <= ring[i] < |buf|
    ensures buf[ring[k] := n][ring'[i]] == if i == 1 then n else buf[ring[if i <= k then i - 1 else i]]
  {
    if i > 1 {
      var t := if i <= k then i - 1 else i;
      assert ring'[i] == ring[t];
      assert pos[ring[t]] == t && pos[ring[k]] == k;
    }
  }

  /** The list of blocks then. */
  lemma {:induction false} MovedBlocks(c: seq<int>, x: int, k: int, n: nat)
    requires Distinct(c) && |c| <= n && 1 <= k <= n && if x in c then k <= |c| && c[k - 1] == x else k == n
    ensures
      var c' := Upto([x] + Without(c, x), n);
      && |c'| == (if k <= |c| then |c| else |c| + 1) && c'[0] == x
      && forall i {:trigger c'[i]} :: 1 <= i < |c'| ==> i < |c'| <= n && (i < k || i < |c|) && c'[i] == c[if i < k then i - 1 else i]
  {
    var j := WithoutIs(c, x);
    assert x in c ==> j == k - 1;
  }

  /** Reading a block and giving it back puts it first; it takes the place of its own or of the last. */
  lemma {:induction false} ShowsNext(buf: seq<Buf>, ring: seq<int>, pos: seq<int>, c: seq<int>, x: int, k: int, n: Buf, buf': seq<Buf>, ring': seq<int>)
    requires Tour(ring, pos, |buf|) && Shows(buf, ring, c) && Distinct(c) && 1 <= k <= |buf| && MovedFront(ring, k, ring')
    requires if x in c then k <= |c| && c[k - 1] == x else k == |buf|
    requires Caches(n, ROOTDEV, x) && Idle(n) && !n.locked && buf' == buf[ring[k] := n]
    ensures Shows(buf', ring', Upto([x] + Without(c, x), |buf|))
  {
    hide Tour, MovedFront, Distinct, Without, Upto;
    var c' := Upto([x] + Without(c, x), |buf|);
    MovedBlocks(c, x, k, |buf|);
    MovedLength(ring, k, ring');
    forall i | 1 <= i <= |buf|
      ensures 0 <= ring'[i] < |buf| && buf'[ring'[i]] == if i == 1 then n else buf[ring[if i <= k then i - 1 else i]]
    {
      MovedShows(buf, ring, pos, k, n, ring', i);
    }
    forall i | 1 <= i <= |c'|
      ensures Caches(buf'[ring'[i]], ROOTDEV, c'[i - 1])
    {
      if i > 1 {
        assert c'[i - 1] == c[(if i <= k then i - 1 else i) - 1];
      }
    }
  }

  lemma MovedLength(ring: seq<int>, k: int, ring': seq<int>)
    requires MovedFront(ring, k, ring')
    ensures |ring'| == |ring|
  {
  }

  /** bread and brelse of block after block: of a cache of `nbuf` buffers the last `nbuf` blocks stay, in order. */
  method ReadAll(nbuf: nat, disk: Disk, xs: seq<int>) returns (bc: Bcache)
    requires nbuf >= 1 && forall i :: 0 <= i < |xs| ==> 0 <= xs[i] < |disk|
    ensures fresh(bc) && bc.Valid() && |bc.buf| == nbuf && Shows(bc.buf, bc.ring, Upto(Recent(xs), nbuf))
    ensures forall x :: x in Upto(Recent(xs), nbuf) <==> exists b :: 0 <= b < nbuf && Caches(bc.buf[b], ROOTDEV, x)
  {
    hide Coherent, ListOk, Unique, Tour, ByRelease, Shows, MovedFront, Picks, Upto, Recent, NoBuffer, HeldLocked;
    bc := new Bcache(nbuf, disk);
    bc.Parts();
    ShowsFirst(bc.buf, bc.ring, bc.pos);
    var i := 0;
    while i < |xs|
      invariant 0 <= i <= |xs| && fresh(bc) && bc.Valid() && |bc.buf| == nbuf && bc.view == bc.disk == disk
      invariant Shows(bc.buf, bc.ring, Upto(Recent(xs[..i]), nbuf))
    {
      ReadNext(bc, xs, i);
      i := i + 1;
    }
    assert xs[..|xs|] == xs;
    bc.Parts();
    forall x
      ensures x in Upto(Recent(xs), nbuf) <==> exists b :: 0 <= b < nbuf && Caches(bc.buf[b], ROOTDEV, x)
    {
      ShowsCached(bc.buf, bc.ring, bc.pos, Upto(Recent(xs), nbuf), x);
    }
  }

  lemma ShowsFirst(buf: seq<Buf>, ring: seq<int>, pos: seq<int>)
    requires Tour(ring, pos, |buf|) && forall b :: 0 <= b < |buf| ==> Idle(buf[b]) && buf[b].dev == 0 && !buf[b].locked
    ensures Shows(buf, ring, Upto(Recent([]), |buf|))
  {
  }

  lemma ShowsFree(buf: seq<Buf>, ring: seq<int>, pos: seq<int>, c: seq<int>, x: int)
    requires Tour(ring, pos, |buf|) && Shows(buf, ring, c) && |buf| >= 1
    ensures !NoBuffer(buf, ROOTDEV, x) && !HeldLocked(buf, ROOTDEV, x)
  {
    assert Idle(buf[ring[1]]);
    forall b | 0 <= b < |buf|
      ensures !buf[b].locked
    {
      assert ring[pos[b]] == b;
    }
  }

  lemma PickedIdle(buf: seq<Buf>, ring: seq<int>, pos: seq<int>, released: seq<int>, c: seq<int>, x: int, b: int)
    requires Tour(ring, pos, |buf|) && Shows(buf, ring, c) && Picks(buf, released, ROOTDEV, x, b)
    ensures 0 <= b < |buf| && Idle(buf[b]) && |ring| == |buf| + 2
  {
    assert ring[pos[b]] == b;
  }

  method ReadNext(bc: Bcache, xs: seq<int>, i: int)
    requires bc.Valid() && |bc.buf| >= 1 && 0 <= i < |xs| && 0 <= xs[i] < |bc.disk| && bc.view == bc.disk
    requires Shows(bc.buf, bc.ring, Upto(Recent(xs[..i]), |bc.buf|))
    modifies bc
    ensures bc.Valid() && |bc.buf| == |old(bc.buf)| && bc.disk == old(bc.disk) && bc.view == old(bc.view)
    ensures Shows(bc.buf, bc.ring, Upto(Recent(xs[..i + 1]), |bc.buf|))
  {
    hide Coherent, ListOk, Unique, Tour, ByRelease, Shows, MovedFront, Picks, Recent, NoBuffer, HeldLocked, Distinct, Upto, Without;
    var x := xs[i];
    ghost var c := Upto(Recent(xs[..i]), |bc.buf|);
    bc.Parts();
    ShowsFree(bc.buf, bc.ring, bc.pos, c, x);
    var r := bc.Bread(ROOTDEV, x);
    PickedIdle(old(bc.buf), old(bc.ring), old(bc.pos), old(bc.released), c, x, r.buf);
    bc.Brelse(r.buf);
    PickedPlace(old(bc.buf), old(bc.ring), old(bc.pos), old(bc.released), c, x, r.buf);
    RecentNext(xs, i, |bc.buf|);
    ShowsNext(old(bc.buf), old(bc.ring), old(bc.pos), c, x, old(bc.pos)[r.buf], bc.buf[r.buf], bc.buf, bc.ring);
  }

  lemma RecentNext(xs: seq<int>, i: int, n: nat)
    requires 0 <= i < |xs| && n >= 1
    ensures Distinct(Upto(Recent(xs[..i]), n))
    ensures Upto([xs[i]] + Without(Upto(Recent(xs[..i]), n), xs[i]), n) == Upto(Recent(xs[..i + 1]), n)
  {
    RecentHas(xs[..i]);
    assert xs[..i + 1][..i] == xs[..i];
    UptoNext(Recent(xs[..i]), xs[i], n);
  }
}
