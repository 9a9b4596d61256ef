/**
 The user-level heap allocator of Offline 3/xv6/umalloc.c.

 Addresses are counted in header units (8 bytes on the 32-bit target). The free list is the
 circular list threaded through the headers in `mem`; the ghost sequence `ring` lists its nodes
 in address order, starting with the static header `base`. The ghost map `blocks` gives every
 block, free or live, its size, and `owner` sends every unit obtained from sbrk to the header of
 the block that contains it, so two blocks can never share a unit.
 */
module Umalloc {
  import opened Wrappers

  const HEADER_BYTES := 8
  const NALLOC := 4096
  const UINT_RANGE := 0x1_0000_0000

  type Uint = x: int | 0 <= x < UINT_RANGE

  datatype Header = Header(ptr: int, size: int)

  type Memory = map<int, Header>

  /** The unit count malloc computes; the sum inside it is a 32-bit sum and wraps. */
  function UnitsFor(nbytes: Uint): (n: int)
    ensures n >= 1
  {
    ((nbytes + HEADER_BYTES - 1) % UINT_RANGE) / HEADER_BYTES + 1
  }

  /** How many units morecore asks sbrk for. */
  function RequestUnits(nu: int): (n: nat)
    ensures n >= nu && n >= NALLOC && (n == nu || n == NALLOC)
  {
    if nu < NALLOC then NALLOC else nu
  }

  /** The signed 32-bit argument sbrk receives when asked for `nu` units. */
  function SbrkArgument(nu: int): int {
    var bytes := (nu * HEADER_BYTES) % UINT_RANGE;
    if bytes >= UINT_RANGE / 2 then bytes - UINT_RANGE else bytes
  }

  /** A block of `UnitsFor(nbytes)` units holds `nbytes` bytes after its header exactly when the
      rounding did not wrap. */
  lemma LargeEnoughIff(nbytes: Uint)
    ensures (UnitsFor(nbytes) - 1) * HEADER_BYTES >= nbytes <==> nbytes <= UINT_RANGE - HEADER_BYTES
  {
  }

  /** sbrk is asked for the bytes morecore means exactly when the units stay below 2^28. */
  lemma SbrkArgumentExactIff(nu: int)
    requires nu <= UINT_RANGE / HEADER_BYTES
    ensures SbrkArgument(RequestUnits(nu)) == RequestUnits(nu) * HEADER_BYTES <==> nu < 0x1000_0000
  {
  }

  /** User memory ends below this byte address. */
  const KERNBASE := 0x8000_0000

  /** The process size in units after growproc(arg), from `p` units. A negative argument goes to deallocuvm, which
      succeeds without doing anything when the 32-bit sum has wrapped to a larger size. */
  function SizeAfter(p: int, arg: int): int {
    if arg > 0 then p + arg / HEADER_BYTES
    else if (HEADER_BYTES * p + arg) % UINT_RANGE >= HEADER_BYTES * p then p
    else (HEADER_BYTES * p + arg) % UINT_RANGE / HEADER_BYTES
  }

  /** sbrk(arg) can return the old size `p`: the new one is below KERNBASE, and not 0, which growproc takes for
      an error. */
  predicate SbrkOk(p: int, arg: int) {
    0 < p && HEADER_BYTES * p < KERNBASE && HEADER_BYTES * p + arg < KERNBASE && HEADER_BYTES * p + arg != 0
  }

  const PAGE_UNITS := 512

  /** The pages of a process of `size` units reach unit `u`; a store behind them traps. */
  predicate Reaches(size: int, u: int) {
    u < (size + PAGE_UNITS - 1) / PAGE_UNITS * PAGE_UNITS
  }

  /** morecore and malloc return 0 or a pointer, or the process is killed at a store behind its last page. */
  datatype Grant = NoMemory | Trap | Got(p: int)

  /** What sbrk is asked for when a request of `nbytes` bytes does not fit. */
  function Asked(nbytes: Uint): int {
    SbrkArgument(RequestUnits(UnitsFor(nbytes)))
  }

  lemma AskedIs(nbytes: Uint)
    ensures Asked(nbytes) == SbrkArgument(RequestUnits(UnitsFor(nbytes)))
  {
  }

  /** The process grows by the units morecore means exactly below 2^28 of them; from there on it does not grow. */
  lemma SbrkObtainsIff(nu: int, p: int)
    requires 1 <= nu <= UINT_RANGE / HEADER_BYTES && SbrkOk(p, SbrkArgument(RequestUnits(nu)))
    ensures SizeAfter(p, SbrkArgument(RequestUnits(nu))) == p + RequestUnits(nu) <==> nu < 0x1000_0000
    ensures nu >= 0x1000_0000 ==> SizeAfter(p, SbrkArgument(RequestUnits(nu))) <= p
    ensures nu < 0x1000_0000 ==> Reaches(SizeAfter(p, SbrkArgument(RequestUnits(nu))), p)
    ensures p % PAGE_UNITS == 0 ==> (Reaches(SizeAfter(p, SbrkArgument(RequestUnits(nu))), p) <==> nu < 0x1000_0000)
  {
  }

  /** Both sums of malloc are right, the rounding and sbrk's argument, exactly up to this request. */
  lemma JoinedIff(nbytes: Uint)
    ensures nbytes <= 0x8000_0000 - 16 <==>
            (UnitsFor(nbytes) - 1) * HEADER_BYTES >= nbytes && Asked(nbytes) == RequestUnits(UnitsFor(nbytes)) * HEADER_BYTES
    ensures nbytes <= 0x8000_0000 - 16 <==> (UnitsFor(nbytes) - 1) * HEADER_BYTES >= nbytes && UnitsFor(nbytes) < 0x1000_0000
    ensures UnitsFor(nbytes) <= UINT_RANGE / HEADER_BYTES
  {
  }

  /** A block of memory the process has, holding `nbytes` bytes behind its header. */
  predicate Usable(b: int, units: int, brk: int, nbytes: Uint) {
    b + units <= brk && (units - 1) * HEADER_BYTES >= nbytes
  }

  // ---------------------------------------------------------------------------------------------
  // The free list as a sorted ring
  // ---------------------------------------------------------------------------------------------

  /** The headers in `mem` form one circular list in the order of `ring`, starting at `base`. */
  ghost predicate Linked(mem: Memory, base: int, ring: seq<int>) {
    && |ring| > 0 && ring[0] == base
    && (forall i :: 0 <= i < |ring| ==> ring[i] in mem)
    && (forall i, j :: 0 <= i < |ring| && j == i + 1 && j < |ring| ==> mem[ring[i]].ptr == ring[j])
    && mem[ring[|ring| - 1]].ptr == base
    && mem[base].size == 0
  }

  /** The blocks of `ring` are nonempty (except `base`), in address order and disjoint. */
  ghost predicate Sorted(mem: Memory, ring: seq<int>) {
    && (forall i :: 0 <= i < |ring| ==> ring[i] in mem)
    && (forall i :: 1 <= i < |ring| ==> mem[ring[i]].size >= 1)
    && (forall i, j :: 0 <= i < j < |ring| ==> ring[i] < ring[j] && ring[i] + mem[ring[i]].size <= ring[j])
  }

  /** Where two neighbours may touch while free is at work: nowhere, at `j`, or at `j` and `j + 1`. */
  datatype Gap = NoGap | OneAt(j: int) | TwoFrom(j: int)

  /** No two neighbours in address order touch, except where `gap` allows it. */
  ghost predicate Coalesced(mem: Memory, ring: seq<int>, gap: Gap) {
    forall i, j :: 0 <= i < |ring| && j == i + 1 && j < |ring| && (gap.NoGap? || (i != gap.j && (gap.TwoFrom? ==> i != gap.j + 1))) ==>
      ring[i] in mem && ring[i] + mem[ring[i]].size < ring[j]
  }

  /** `ring'` is `ring` with `b` inserted behind position `j`. */
  ghost predicate Inserted(ring: seq<int>, j: nat, b: int, ring': seq<int>) {
    && j < |ring| && |ring'| == |ring| + 1
    && (forall i {:trigger ring'[i]} :: 0 <= i < |ring'| ==> ring'[i] == if i <= j then ring[i] else if i == j + 1 then b else ring[i - 1])
  }

  /** `ring'` is `ring` without position `k`. */
  ghost predicate Removed(ring: seq<int>, k: nat, ring': seq<int>) {
    && k < |ring| && |ring'| == |ring| - 1
    && (forall i {:trigger ring'[i]} :: 0 <= i < |ring'| ==> ring'[i] == if i < k then ring[i] else ring[i + 1])
  }

  function InsertMem(mem: Memory, p: int, b: int, n: int): Memory
    requires p in mem
  {
    mem[b := Header(mem[p].ptr, n)][p := Header(b, mem[p].size)]
  }

  function MergeMem(mem: Memory, a: int, b: int): Memory
    requires a in mem && b in mem
  {
    mem[a := Header(mem[b].ptr, mem[a].size + mem[b].size)]
  }

  /** Writing `b` between position `j` and its successor, as free does when it merges nothing. */
  ghost predicate InsertWrites(mem: Memory, ring: seq<int>, j: nat, b: int, n: int, mem': Memory) {
    && j < |ring| && ring[j] in mem && ring[j] < b
    && mem' == InsertMem(mem, ring[j], b, n)
  }

  lemma RemovedMembers(mem: Memory, ring: seq<int>, k: nat, ring': seq<int>)
    requires Sorted(mem, ring) && Removed(ring, k, ring')
    ensures forall c :: c in ring' <==> c in ring && c != ring[k]
  {
    forall c | c in ring && c != ring[k]
      ensures c in ring'
    {
      var i :| 0 <= i < |ring| && ring[i] == c;
      assert ring'[if i < k then i else i - 1] == c;
    }
    forall c | c in ring'
      ensures c in ring && c != ring[k]
    {
      var i :| 0 <= i < |ring'| && ring'[i] == c;
      assert c == ring[if i < k then i else i + 1];
      assert if i < k then ring[i] < ring[k] else ring[k] < ring[i + 1];
    }
  }

  lemma InsertSizes(mem: Memory, ring: seq<int>, j: nat, b: int, n: int, mem': Memory, ring': seq<int>, i: nat)
    requires Sorted(mem, ring) && Inserted(ring, j, b, ring') && InsertWrites(mem, ring, j, b, n, mem')
    requires j + 1 < |ring| ==> b < ring[j + 1]
    requires i < |ring'|
    ensures ring'[i] in mem'
    ensures mem'[ring'[i]].size == if i == j + 1 then n else if i <= j then mem[ring[i]].size else mem[ring[i - 1]].size
    ensures mem'[ring'[i]].ptr == if i == j then b else if i == j + 1 then mem[ring[j]].ptr else if i < j then mem[ring[i]].ptr else mem[ring[i - 1]].ptr
  {
    assert i < j ==> ring[i] < ring[j];
    assert i > j + 2 ==> ring[j + 1] < ring[i - 1];
  }

  lemma InsertSorted(mem: Memory, ring: seq<int>, j: nat, b: int, n: int, mem': Memory, ring': seq<int>)
    requires Sorted(mem, ring) && Inserted(ring, j, b, ring') && InsertWrites(mem, ring, j, b, n, mem')
    requires n >= 1 && ring[j] + mem[ring[j]].size <= b && (j + 1 < |ring| ==> b + n <= ring[j + 1])
    ensures Sorted(mem', ring')
  {
    forall i: nat | i < |ring'| {
      InsertSizes(mem, ring, j, b, n, mem', ring', i);
    }
    forall i, k | 0 <= i < k < |ring'|
      ensures ring'[i] < ring'[k] && ring'[i] + mem'[ring'[i]].size <= ring'[k]
    {
      assert i < j ==> ring[i] + mem[ring[i]].size <= ring[j];
      assert k > j + 2 ==> ring[j + 1] < ring[k - 1];
    }
  }

  lemma InsertLinked(mem: Memory, base: int, ring: seq<int>, j: nat, b: int, n: int, mem': Memory, ring': seq<int>)
    requires Linked(mem, base, ring)
    requires Sorted(mem, ring) && Inserted(ring, j, b, ring') && InsertWrites(mem, ring, j, b, n, mem')
    requires j + 1 < |ring| ==> b < ring[j + 1]
    ensures Linked(mem', base, ring')
  {
    forall i: nat | i < |ring'|
      ensures ring'[i] in mem'
    {
      InsertSizes(mem, ring, j, b, n, mem', ring', i);
    }
    forall i, k | 0 <= i < |ring'| && k == i + 1 && k < |ring'|
      ensures mem'[ring'[i]].ptr == ring'[k]
    {
      InsertSizes(mem, ring, j, b, n, mem', ring', i);
    }
    InsertSizes(mem, ring, j, b, n, mem', ring', |ring|);
    InsertSizes(mem, ring, j, b, n, mem', ring', 0);
  }

  /** Absorbing position `k + 1` into position `k`, as free does when the two touch. */
  ghost predicate MergeWrites(mem: Memory, ring: seq<int>, k: nat, mem': Memory) {
    && k + 1 < |ring| && ring[k] in mem && ring[k + 1] in mem
    && ring[k] + mem[ring[k]].size == ring[k + 1]
    && mem' == MergeMem(mem, ring[k], ring[k + 1])
  }

  /** The header at each remaining position. */
  lemma MergeAt(mem: Memory, ring: seq<int>, k: nat, mem': Memory, ring': seq<int>, i: int)
    requires Sorted(mem, ring) && 0 <= i < |ring'| && Removed(ring, k + 1, ring') && MergeWrites(mem, ring, k, mem')
    ensures ring'[i] in mem && ring'[i] in mem' && (i == k ==> ring'[i] == ring[k])
    ensures i != k ==> ring'[i] != ring[k] && mem'[ring'[i]] == mem[ring'[i]]
    ensures i == k ==> mem'[ring'[i]] == Header(mem[ring[k + 1]].ptr, mem[ring[k]].size + mem[ring[k + 1]].size)
  {
    var i0 := if i <= k then i else i + 1;
    assert ring'[i] == ring[i0] && ring[i0] in mem;
    assert i0 < k ==> ring[i0] < ring[k];
    assert i0 > k ==> ring[k] < ring[i0];
  }

  lemma MergeSorted(mem: Memory, ring: seq<int>, k: nat, mem': Memory, ring': seq<int>)
    requires Sorted(mem, ring) && 1 <= k && Removed(ring, k + 1, ring') && MergeWrites(mem, ring, k, mem')
    ensures Sorted(mem', ring')
  {
    hide MergeWrites;
    MergedEnds(mem, ring, k, mem');
    forall i | 0 <= i < |ring'|
      ensures ring'[i] in mem' && (i >= 1 ==> mem'[ring'[i]].size >= 1)
    {
      MergeAt(mem, ring, k, mem', ring', i);
    }
    forall i, j | 0 <= i < j < |ring'|
      ensures ring'[i] < ring'[j] && ring'[i] + mem'[ring'[i]].size <= ring'[j]
    {
      MergeAt(mem, ring, k, mem', ring', i);
      var i0, j0 := if i < k then i else i + 1, if j <= k then j else j + 1;
      assert ring'[j] == ring[j0] && (i != k ==> ring'[i] == ring[i0]);
      assert ring[i0] < ring[j0] && ring[i0] + mem[ring[i0]].size <= ring[j0];
    }
  }

  lemma MergedEnds(mem: Memory, ring: seq<int>, k: nat, mem': Memory)
    requires MergeWrites(mem, ring, k, mem')
    ensures k + 1 < |ring| && ring[k] in mem && ring[k + 1] in mem && ring[k] + mem[ring[k]].size == ring[k + 1]
    ensures mem' == MergeMem(mem, ring[k], ring[k + 1])
  {
  }

  lemma MergeRing(mem: Memory, base: int, ring: seq<int>, k: nat, mem': Memory, ring': seq<int>)
    requires Linked(mem, base, ring) && Sorted(mem, ring)
    requires 1 <= k && Removed(ring, k + 1, ring') && MergeWrites(mem, ring, k, mem')
    ensures Linked(mem', base, ring') && Sorted(mem', ring')
  {
    MergeSorted(mem, ring, k, mem', ring');
    hide Sorted, MergeWrites;
    MergedEnds(mem, ring, k, mem');
    forall i | 0 <= i < |ring'|
      ensures ring'[i] in mem' && mem'[ring'[i]].ptr == if i + 1 < |ring'| then ring'[i + 1] else base
    {
      MergeAt(mem, ring, k, mem', ring', i);
      if i < k {
        assert mem[ring[i]].ptr == ring[i + 1];
      } else if i + 2 < |ring| {
        assert mem[ring[i + 1]].ptr == ring[i + 2];
      }
    }
    MergeAt(mem, ring, k, mem', ring', 0);
  }

  lemma InsertCoalesced(mem: Memory, ring: seq<int>, j: nat, b: int, n: int, mem': Memory, ring': seq<int>)
    requires Sorted(mem, ring) && Inserted(ring, j, b, ring') && InsertWrites(mem, ring, j, b, n, mem')
    requires j + 1 < |ring| ==> b < ring[j + 1]
    requires Sorted(mem', ring') && Coalesced(mem, ring, NoGap)
    ensures Coalesced(mem', ring', TwoFrom(j))
  {
    forall i, k | 0 <= i < |ring'| && k == i + 1 && k < |ring'| && i != j && i != j + 1
      ensures ring'[i] + mem'[ring'[i]].size < ring'[k]
    {
      InsertSizes(mem, ring, j, b, n, mem', ring', i);
    }
  }

  lemma MergeCoalesced(mem: Memory, ring: seq<int>, k: nat, mem': Memory, ring': seq<int>, gap: Gap, gap': Gap)
    requires (gap.TwoFrom? && k == gap.j + 1 && gap' == OneAt(gap.j)) || (gap == OneAt(k) && gap' == NoGap)
    requires Sorted(mem, ring) && Removed(ring, k + 1, ring') && MergeWrites(mem, ring, k, mem')
    requires Sorted(mem', ring') && Coalesced(mem, ring, gap)
    ensures Coalesced(mem', ring', gap')
  {
  }

  lemma SkipCoalesced(mem: Memory, ring: seq<int>, k: nat, gap: Gap, gap': Gap)
    requires (gap.TwoFrom? && k == gap.j + 1 && gap' == OneAt(gap.j)) || (gap == OneAt(k) && gap' == NoGap)
    requires Sorted(mem, ring) && Coalesced(mem, ring, gap)
    requires k + 1 < |ring| ==> ring[k] + mem[ring[k]].size != ring[k + 1]
    ensures Coalesced(mem, ring, gap')
  {
  }

  // ---------------------------------------------------------------------------------------------
  // Blocks partition the units obtained from sbrk
  // ---------------------------------------------------------------------------------------------

  predicate Inside(u: int, b: int, n: int) {
    b <= u < b + n
  }

  /** `owner` and `blocks` describe the same partition of the obtained units into blocks. */
  ghost predicate Partition(blocks: map<int, int>, owner: map<int, int>) {
    && (forall u :: u in owner ==> owner[u] in blocks && Inside(u, owner[u], blocks[owner[u]]))
    && (forall b, u :: b in blocks && Inside(u, b, blocks[b]) ==> u in owner && owner[u] == b)
    && (forall b :: b in blocks ==> blocks[b] >= 1)
  }

  ghost function Reassign(owner: map<int, int>, lo: int, hi: int, b: int): map<int, int> {
    map u | u in owner :: if lo <= u < hi then b else owner[u]
  }

  lemma Disjoint(blocks: map<int, int>, owner: map<int, int>, a: int, b: int)
    requires Partition(blocks, owner) && a in blocks && b in blocks && a < b
    ensures a + blocks[a] <= b
  {
    assert blocks[b] >= 1;
    UniqueOwner(blocks, owner, b, b);
    if b < a + blocks[a] {
      UniqueOwner(blocks, owner, b, a);
    }
  }

  lemma UniqueOwner(blocks: map<int, int>, owner: map<int, int>, u: int, b: int)
    requires Partition(blocks, owner) && b in blocks && b <= u < b + blocks[b]
    ensures u in owner && owner[u] == b
  {
    assert Inside(u, b, blocks[b]);
  }

  lemma MergeBlocks(blocks: map<int, int>, owner: map<int, int>, a: int, b: int)
    requires Partition(blocks, owner) && a in blocks && b in blocks && a + blocks[a] == b
    ensures Partition((blocks - {b})[a := blocks[a] + blocks[b]], Reassign(owner, b, b + blocks[b], a))
  {
    var blocks', owner' := (blocks - {b})[a := blocks[a] + blocks[b]], Reassign(owner, b, b + blocks[b], a);
    forall c, u | c in blocks' && Inside(u, c, blocks'[c])
      ensures u in owner' && owner'[u] == c
    {
      assert Inside(u, c, blocks[c]) || Inside(u, b, blocks[b]);
    }
    forall u | u in owner'
      ensures owner'[u] in blocks' && Inside(u, owner'[u], blocks'[owner'[u]])
    {
      assert Inside(u, b, blocks[b]) ==> owner[u] == b;
    }
  }

  /** The free list and the live blocks are exactly the blocks, and headers record their sizes. */
  ghost predicate Agree(mem: Memory, base: int, ring: seq<int>, live: set<int>, blocks: map<int, int>) {
    && live <= blocks.Keys
    && (forall b :: b in blocks ==> base < b && b in mem && mem[b].size == blocks[b])
    && (forall b :: b in ring && b != base ==> b in blocks && b !in live)
    && (forall b :: b in blocks && b !in live ==> b in ring)
  }

  ghost function FreeSet(owner: map<int, int>, live: set<int>): set<int> {
    set u | u in owner && owner[u] !in live
  }

  ghost function UnitsOf(owner: map<int, int>, b: int): set<int> {
    set u | u in owner && owner[u] == b
  }

  ghost predicate Shape(mem: Memory, base: int, ring: seq<int>, live: set<int>, blocks: map<int, int>,
                        owner: map<int, int>, gap: Gap) {
    && Linked(mem, base, ring)
    && Sorted(mem, ring)
    && Coalesced(mem, ring, gap)
    && Agree(mem, base, ring, live, blocks)
    && Partition(blocks, owner)
  }

  lemma InsertAgree(mem: Memory, base: int, ring: seq<int>, live: set<int>, blocks: map<int, int>,
                    j: nat, b: int, mem': Memory, ring': seq<int>)
    requires Agree(mem, base, ring, live, blocks) && b in live
    requires Inserted(ring, j, b, ring') && InsertWrites(mem, ring, j, b, blocks[b], mem')
    ensures Agree(mem', base, ring', live - {b}, blocks)
  {
    assert ring'[j + 1] == b;
    forall c | c in ring
      ensures c in ring'
    {
      var i :| 0 <= i < |ring| && ring[i] == c;
      assert ring'[if i <= j then i else i + 1] == c;
    }
    assert forall c :: c in ring' ==> c == b || c in ring;
  }

  /** free without merging: `b` leaves the live blocks and enters the ring behind position `j`. */
  lemma InsertShape(mem: Memory, base: int, ring: seq<int>, live: set<int>, blocks: map<int, int>, owner: map<int, int>,
                    j: nat, b: int, mem': Memory, ring': seq<int>)
    requires Shape(mem, base, ring, live, blocks, owner, NoGap) && b in live && b in blocks
    requires Inserted(ring, j, b, ring') && InsertWrites(mem, ring, j, b, blocks[b], mem')
    requires j + 1 < |ring| ==> b < ring[j + 1]
    ensures Shape(mem', base, ring', live - {b}, blocks, owner, TwoFrom(j))
    ensures FreeSet(owner, live - {b}) == FreeSet(owner, live) + UnitsOf(owner, b)
  {
    NoOverlap(mem, base, ring, live, blocks, owner, j, b);
    InsertSorted(mem, ring, j, b, blocks[b], mem', ring');
    InsertLinked(mem, base, ring, j, b, blocks[b], mem', ring');
    InsertCoalesced(mem, ring, j, b, blocks[b], mem', ring');
    InsertAgree(mem, base, ring, live, blocks, j, b, mem', ring');
  }

  lemma NoOverlap(mem: Memory, base: int, ring: seq<int>, live: set<int>, blocks: map<int, int>, owner: map<int, int>,
                  j: nat, b: int)
    requires Shape(mem, base, ring, live, blocks, owner, NoGap) && b in live
    requires j < |ring| && ring[j] < b && (j + 1 < |ring| ==> b < ring[j + 1])
    ensures ring[j] + mem[ring[j]].size <= b
    ensures j + 1 < |ring| ==> b + blocks[b] <= ring[j + 1]
    ensures blocks[b] >= 1
  {
    assert ring[j] in ring;
    assert b in blocks;
    if ring[j] != base {
      Disjoint(blocks, owner, ring[j], b);
    }
    if j + 1 < |ring| {
      assert ring[j + 1] in ring;
      assert ring[0] < ring[j + 1];
      Disjoint(blocks, owner, b, ring[j + 1]);
    }
  }

  lemma MergeAgree(mem: Memory, base: int, ring: seq<int>, live: set<int>, blocks: map<int, int>,
                   k: nat, mem': Memory, ring': seq<int>)
    requires Agree(mem, base, ring, live, blocks) && Sorted(mem, ring)
    requires 1 <= k && |ring| > 0 && ring[0] == base && Removed(ring, k + 1, ring') && MergeWrites(mem, ring, k, mem')
    ensures ring[k] in blocks && ring[k + 1] in blocks
    ensures mem[ring[k]].size == blocks[ring[k]] && mem[ring[k + 1]].size == blocks[ring[k + 1]]
    ensures Agree(mem', base, ring', live, (blocks - {ring[k + 1]})[ring[k] := blocks[ring[k]] + blocks[ring[k + 1]]])
  {
    var a, b := ring[k], ring[k + 1];
    assert a in ring && b in ring && ring[0] < a < b;
    RemovedMembers(mem, ring, k + 1, ring');
  }

  /** Merging two free blocks changes no unit's status. */
  lemma MergeFree(blocks: map<int, int>, owner: map<int, int>, live: set<int>, a: int, b: int)
    requires Partition(blocks, owner) && a in blocks && b in blocks && a !in live && b !in live
    ensures FreeSet(Reassign(owner, b, b + blocks[b], a), live) == FreeSet(owner, live)
  {
    forall u | u in owner && b <= u < b + blocks[b]
      ensures owner[u] == b
    {
      assert Inside(u, b, blocks[b]);
    }
  }

  /** free merging two touching free blocks. */
  lemma MergeShape(mem: Memory, base: int, ring: seq<int>, live: set<int>, blocks: map<int, int>, owner: map<int, int>,
                   gap: Gap, gap': Gap, k: nat, a: int, b: int)
    returns (mem': Memory, ring': seq<int>, blocks': map<int, int>, owner': map<int, int>)
    requires Shape(mem, base, ring, live, blocks, owner, gap)
    requires (gap.TwoFrom? && k == gap.j + 1 && gap' == OneAt(gap.j)) || (gap == OneAt(k) && gap' == NoGap)
    requires 1 <= k && k + 1 < |ring| && ring[k] == a && ring[k + 1] == b && a in mem && a + mem[a].size == b
    ensures Shape(mem', base, ring', live, blocks', owner', gap')
    ensures b in mem && mem' == MergeMem(mem, a, b)
    ensures k < |ring'| && ring'[k] == a && ring'[k - 1] == ring[k - 1]
    ensures owner'.Keys == owner.Keys && FreeSet(owner', live) == FreeSet(owner, live)
    ensures a in blocks && b in blocks && a in blocks' && blocks'[a] == blocks[a] + blocks[b]
    ensures owner' == Reassign(owner, b, b + blocks[b], a)
    ensures SameSizes(live, blocks, blocks')
  {
    hide *;
    ShapeParts(mem, base, ring, live, blocks, owner, gap);
    FreeBlock(mem, base, ring, live, blocks, owner, gap, k);
    FreeBlock(mem, base, ring, live, blocks, owner, gap, k + 1);
    mem', ring' := MergeMem(mem, a, b), RemoveAt(ring, k + 1);
    RemoveAtIs(ring, k + 1);
    MergeWritesIntro(mem, ring, k);
    MergeRing(mem, base, ring, k, mem', ring');
    MergeCoalesced(mem, ring, k, mem', ring', gap, gap');
    MergeAgree(mem, base, ring, live, blocks, k, mem', ring');
    MergeBlocks(blocks, owner, a, b);
    MergeFree(blocks, owner, live, a, b);
    blocks' := (blocks - {b})[a := blocks[a] + blocks[b]];
    owner' := Reassign(owner, b, b + blocks[b], a);
    ReassignIs(owner, b, b + blocks[b], a);
    SameSizesIntro(live, blocks, blocks', a, b);
    ShapeIntro(mem', base, ring', live, blocks', owner', gap');
  }

  lemma ReassignAt(owner: map<int, int>, lo: int, hi: int, b: int, u: int)
    requires u in owner
    ensures u in Reassign(owner, lo, hi, b)
    ensures Reassign(owner, lo, hi, b)[u] == if lo <= u < hi then b else owner[u]
  {
  }

  /** The blocks in `live` keep their sizes. */
  ghost predicate SameSizes(live: set<int>, blocks: map<int, int>, blocks': map<int, int>) {
    forall c :: c in live && c in blocks ==> c in blocks' && blocks'[c] == blocks[c]
  }

  lemma SameSizesIntro(live: set<int>, blocks: map<int, int>, blocks': map<int, int>, a: int, b: int)
    requires forall c :: c in blocks && c != a && c != b ==> c in blocks' && blocks'[c] == blocks[c]
    requires a !in live && b !in live
    ensures SameSizes(live, blocks, blocks')
  {
  }

  lemma SameSizesRefl(live: set<int>, blocks: map<int, int>)
    ensures SameSizes(live, blocks, blocks)
  {
  }

  lemma SameSizesTrans(live: set<int>, blocks: map<int, int>, blocks1: map<int, int>, blocks2: map<int, int>)
    requires SameSizes(live, blocks, blocks1) && SameSizes(live, blocks1, blocks2)
    ensures SameSizes(live, blocks, blocks2)
  {
  }

  lemma ReassignIs(owner: map<int, int>, lo: int, hi: int, b: int)
    ensures Reassign(owner, lo, hi, b).Keys == owner.Keys
    ensures forall u :: u in owner ==> Reassign(owner, lo, hi, b)[u] == if lo <= u < hi then b else owner[u]
  {
  }

  lemma ShapeParts(mem: Memory, base: int, ring: seq<int>, live: set<int>, blocks: map<int, int>, owner: map<int, int>,
                   gap: Gap)
    requires Shape(mem, base, ring, live, blocks, owner, gap)
    ensures |ring| > 0 && ring[0] == base
    ensures Linked(mem, base, ring) && Sorted(mem, ring) && Coalesced(mem, ring, gap)
    ensures Agree(mem, base, ring, live, blocks) && Partition(blocks, owner)
  {
  }

  lemma FreeBlock(mem: Memory, base: int, ring: seq<int>, live: set<int>, blocks: map<int, int>, owner: map<int, int>,
                  gap: Gap, i: nat)
    requires Shape(mem, base, ring, live, blocks, owner, gap) && 1 <= i < |ring|
    ensures ring[i] in blocks && ring[i] !in live && base < ring[i]
    ensures ring[i] in mem && mem[ring[i]].size == blocks[ring[i]]
  {
    assert ring[i] in ring && ring[0] < ring[i];
  }

  lemma ShapeIntro(mem: Memory, base: int, ring: seq<int>, live: set<int>, blocks: map<int, int>, owner: map<int, int>,
                   gap: Gap)
    requires Linked(mem, base, ring) && Sorted(mem, ring) && Coalesced(mem, ring, gap)
    requires Agree(mem, base, ring, live, blocks) && Partition(blocks, owner)
    ensures Shape(mem, base, ring, live, blocks, owner, gap)
  {
  }

  // ---------------------------------------------------------------------------------------------
  // free: insert, then merge upwards, then merge downwards
  // ---------------------------------------------------------------------------------------------

  function InsertAt(ring: seq<int>, j: nat, b: int): seq<int>
    requires j < |ring|
  {
    ring[..j + 1] + [b] + ring[j + 1..]
  }

  function RemoveAt(ring: seq<int>, k: nat): seq<int>
    requires k < |ring|
  {
    ring[..k] + ring[k + 1..]
  }

  lemma InsertAtIs(ring: seq<int>, j: nat, b: int)
    requires j < |ring|
    ensures Inserted(ring, j, b, InsertAt(ring, j, b)) && |InsertAt(ring, j, b)| == |ring| + 1
    ensures InsertAt(ring, j, b)[j] == ring[j] && InsertAt(ring, j, b)[j + 1] == b
    ensures j + 1 < |ring| ==> InsertAt(ring, j, b)[j + 2] == ring[j + 1]
  {
  }

  lemma RemoveAtIs(ring: seq<int>, k: nat)
    requires 1 <= k < |ring|
    ensures Removed(ring, k, RemoveAt(ring, k)) && |RemoveAt(ring, k)| == |ring| - 1
    ensures RemoveAt(ring, k)[k - 1] == ring[k - 1]
    ensures 2 <= k ==> RemoveAt(ring, k)[k - 2] == ring[k - 2]
  {
  }

  /** Memory after free's first test: `b` merged with the block above it, or just linked to it. */
  function AfterUpper(mem: Memory, p: int, b: int): Memory
    requires p in mem && b in mem && mem[p].ptr in mem
  {
    var q := mem[p].ptr;
    if b + mem[b].size == q then mem[b := Header(mem[q].ptr, mem[b].size + mem[q].size)]
    else mem[b := Header(q, mem[b].size)]
  }

  /** Memory after free's second test: `b` merged into the block below it, or linked behind it. */
  function AfterLower(mem: Memory, p: int, b: int): Memory
    requires p in mem && b in mem
  {
    if p + mem[p].size == b then mem[p := Header(mem[b].ptr, mem[p].size + mem[b].size)]
    else mem[p := Header(b, mem[p].size)]
  }

  lemma UpperShape(mem: Memory, base: int, ring: seq<int>, live: set<int>, blocks: map<int, int>, owner: map<int, int>,
                   j: nat, b: int)
    returns (mem': Memory, ring': seq<int>, blocks': map<int, int>, owner': map<int, int>)
    requires Shape(mem, base, ring, live, blocks, owner, NoGap) && b in live && b in blocks && b in mem
    requires j < |ring| && ring[j] < b && (j + 1 < |ring| ==> b < ring[j + 1])
    requires ring[j] in mem && mem[ring[j]].ptr in mem
    ensures Shape(mem', base, ring', live - {b}, blocks', owner', OneAt(j))
    ensures j + 1 < |ring'| && ring'[j] == ring[j] && ring'[j + 1] == b
    ensures mem' == AfterUpper(mem, ring[j], b)[ring[j] := Header(b, mem[ring[j]].size)]
    ensures b in mem' && owner'.Keys == owner.Keys
    ensures FreeSet(owner', live - {b}) == FreeSet(owner, live) + UnitsOf(owner, b)
    ensures b in owner' && owner'[b] == b && b in blocks' && blocks'[b] >= blocks[b]
    ensures SameSizes(live - {b}, blocks, blocks')
  {
    hide *;
    ShapeParts(mem, base, ring, live, blocks, owner, NoGap);
    NextOf(mem, base, ring, j);
    BlockOf(mem, base, ring, live, blocks, owner, NoGap, b);
    var p := ring[j];
    var ring1 := InsertAt(ring, j, b);
    var mem1 := InsertMem(mem, p, b, blocks[b]);
    InsertAtIs(ring, j, b);
    InsertWritesIntro(mem, ring, j, b, blocks[b]);
    InsertShape(mem, base, ring, live, blocks, owner, j, b, mem1, ring1);
    ShapeParts(mem1, base, ring1, live - {b}, blocks, owner, TwoFrom(j));
    if j + 1 < |ring| && b + blocks[b] == ring[j + 1] {
      mem', ring', blocks', owner' :=
        MergeShape(mem1, base, ring1, live - {b}, blocks, owner, TwoFrom(j), OneAt(j), j + 1, b, ring[j + 1]);
      ReassignAt(owner, ring[j + 1], ring[j + 1] + blocks[ring[j + 1]], b, b);
    } else {
      ring', mem', blocks', owner' := ring1, mem1, blocks, owner;
      SkipShape(mem1, base, ring1, live - {b}, blocks, owner, j + 1, TwoFrom(j), OneAt(j));
      SameSizesIntro(live - {b}, blocks, blocks, b, b);
    }
    UpperMemory(mem, p, b, mem[p].ptr, blocks[b]);
  }

  lemma UpperMemory(mem: Memory, p: int, b: int, q: int, n: int)
    requires p in mem && b in mem && q in mem && mem[p].ptr == q && mem[b].size == n && p < b
    ensures q in InsertMem(mem, p, b, n) && b in InsertMem(mem, p, b, n) && b in AfterUpper(mem, p, b)
    ensures b + n == q && n > 0 ==>
              MergeMem(InsertMem(mem, p, b, n), b, q) == AfterUpper(mem, p, b)[p := Header(b, mem[p].size)]
    ensures b + n != q ==> InsertMem(mem, p, b, n) == AfterUpper(mem, p, b)[p := Header(b, mem[p].size)]
  {
  }

  lemma NextOf(mem: Memory, base: int, ring: seq<int>, j: nat)
    requires Linked(mem, base, ring) && Sorted(mem, ring) && j < |ring|
    ensures ring[j] in mem && mem[ring[j]].ptr == if j + 1 < |ring| then ring[j + 1] else base
    ensures base <= ring[j] && (j > 0 ==> base < ring[j]) && base in mem
  {
  }

  lemma BlockOf(mem: Memory, base: int, ring: seq<int>, live: set<int>, blocks: map<int, int>, owner: map<int, int>,
                gap: Gap, b: int)
    requires Shape(mem, base, ring, live, blocks, owner, gap) && b in blocks
    ensures base < b && b in mem && mem[b].size == blocks[b] >= 1
    ensures b in owner && owner[b] == b
  {
    assert Inside(b, b, blocks[b]);
  }

  lemma InsertWritesIntro(mem: Memory, ring: seq<int>, j: nat, b: int, n: int)
    requires j < |ring| && ring[j] in mem && ring[j] < b
    ensures InsertWrites(mem, ring, j, b, n, InsertMem(mem, ring[j], b, n))
  {
  }

  lemma MergeWritesIntro(mem: Memory, ring: seq<int>, k: nat)
    requires k + 1 < |ring| && ring[k] in mem && ring[k + 1] in mem
    requires ring[k] + mem[ring[k]].size == ring[k + 1]
    ensures MergeWrites(mem, ring, k, MergeMem(mem, ring[k], ring[k + 1]))
  {
  }

  lemma SkipShape(mem: Memory, base: int, ring: seq<int>, live: set<int>, blocks: map<int, int>, owner: map<int, int>,
                  k: nat, gap: Gap, gap': Gap)
    requires Shape(mem, base, ring, live, blocks, owner, gap)
    requires (gap.TwoFrom? && k == gap.j + 1 && gap' == OneAt(gap.j)) || (gap == OneAt(k) && gap' == NoGap)
    requires k < |ring| && ring[k] in mem && (k + 1 < |ring| ==> ring[k] + mem[ring[k]].size != ring[k + 1])
    ensures Shape(mem, base, ring, live, blocks, owner, gap')
  {
    hide *;
    ShapeParts(mem, base, ring, live, blocks, owner, gap);
    SkipCoalesced(mem, ring, k, gap, gap');
    ShapeIntro(mem, base, ring, live, blocks, owner, gap');
  }

  /** All of free's relinking: the result is a valid heap whose free units grew by exactly `b`'s. */
  lemma LinkShape(mem: Memory, base: int, ring: seq<int>, live: set<int>, blocks: map<int, int>, owner: map<int, int>,
                  j: nat, b: int)
    returns (mem': Memory, ring': seq<int>, blocks': map<int, int>, owner': map<int, int>)
    requires Shape(mem, base, ring, live, blocks, owner, NoGap) && b in live && b in blocks && b in mem
    requires j < |ring| && ring[j] < b && (j + 1 < |ring| ==> b < ring[j + 1])
    requires ring[j] in mem && mem[ring[j]].ptr in mem
    ensures Shape(mem', base, ring', live - {b}, blocks', owner', NoGap)
    ensures mem' == AfterLower(AfterUpper(mem, ring[j], b), ring[j], b)
    ensures ring[j] in ring' && owner'.Keys == owner.Keys
    ensures FreeSet(owner', live - {b}) == FreeSet(owner, live) + UnitsOf(owner, b)
    ensures b in owner' && owner'[b] <= b && owner'[b] in blocks' && owner'[b] !in live - {b}
    ensures owner'[b] + blocks'[owner'[b]] >= b + blocks[b]
    ensures SameSizes(live - {b}, blocks, blocks')
  {
    hide *;
    var p, mem1, ring1, blocks1, owner1 := ring[j], map[], [], map[], map[];
    mem1, ring1, blocks1, owner1 := UpperShape(mem, base, ring, live, blocks, owner, j, b);
    ShapeParts(mem1, base, ring1, live - {b}, blocks1, owner1, OneAt(j));
    BlockOf(mem1, base, ring1, live - {b}, blocks1, owner1, OneAt(j), b);
    NextOf(mem1, base, ring1, j);
    if p + mem1[p].size == b {
      SizeOfBase(mem1, base, ring1);
      mem', ring', blocks', owner' := MergeShape(mem1, base, ring1, live - {b}, blocks1, owner1, OneAt(j), NoGap, j, p, b);
      ReassignAt(owner1, b, b + blocks1[b], p, b);
      BlockOf(mem', base, ring', live - {b}, blocks', owner', NoGap, p);
      FreeBlock(mem', base, ring', live - {b}, blocks', owner', NoGap, j);
    } else {
      mem', ring', blocks', owner' := mem1, ring1, blocks1, owner1;
      SkipShape(mem1, base, ring1, live - {b}, blocks1, owner1, j, OneAt(j), NoGap);
      SameSizesIntro(live - {b}, blocks1, blocks1, b, b);
    }
    SameSizesTrans(live - {b}, blocks, blocks1, blocks');
    UpperMemory(mem, p, b, mem[p].ptr, mem[b].size);
    LowerMemory(mem, AfterUpper(mem, p, b), p, b, mem1);
  }

  lemma LowerMemory(mem: Memory, upper: Memory, p: int, b: int, mem1: Memory)
    requires p in mem && b in mem && p < b && mem[p].ptr in mem && upper == AfterUpper(mem, p, b)
    requires b in upper && mem1 == upper[p := Header(b, mem[p].size)]
    ensures p in upper && p in mem1 && b in mem1
    ensures p + mem1[p].size == b ==> AfterLower(upper, p, b) == MergeMem(mem1, p, b)
    ensures p + mem1[p].size != b ==> AfterLower(upper, p, b) == mem1
  {
  }

  lemma SizeOfBase(mem: Memory, base: int, ring: seq<int>)
    requires Linked(mem, base, ring)
    ensures base in mem && mem[base].size == 0
  {
  }

  // ---------------------------------------------------------------------------------------------
  // malloc: take a whole block, split a block, or grow the heap
  // ---------------------------------------------------------------------------------------------

  /** malloc unlinks a block that fits exactly. */
  function UnlinkMem(mem: Memory, prev: int, b: int): Memory
    requires prev in mem && b in mem
  {
    mem[prev := Header(mem[b].ptr, mem[prev].size)]
  }

  /** malloc gives out the tail of a block that is too large; the tail's old `ptr` is kept. */
  function SplitMem(mem: Memory, b: int, n: int): Memory
    requires b in mem && n <= mem[b].size
  {
    var rest := mem[b].size - n;
    mem[b := Header(mem[b].ptr, rest)][b + rest := Header(if b + rest in mem then mem[b + rest].ptr else 0, n)]
  }

  lemma UnlinkRing(mem: Memory, base: int, ring: seq<int>, k: nat, ring': seq<int>)
    requires Linked(mem, base, ring) && Sorted(mem, ring) && 1 <= k < |ring| && Removed(ring, k, ring')
    ensures ring[k - 1] in mem && ring[k] in mem
    ensures Linked(UnlinkMem(mem, ring[k - 1], ring[k]), base, ring')
  {
    var mem' := UnlinkMem(mem, ring[k - 1], ring[k]);
    forall i | 0 <= i < |ring|
      ensures ring[i] in mem' && (i != k - 1 ==> mem'[ring[i]] == mem[ring[i]])
    {
      assert i < k - 1 ==> ring[i] < ring[k - 1];
      assert i > k - 1 ==> ring[k - 1] < ring[i];
    }
  }

  lemma UnlinkAt(mem: Memory, ring: seq<int>, k: nat, ring': seq<int>, i: int)
    requires Sorted(mem, ring) && 1 <= k < |ring| && Removed(ring, k, ring') && 0 <= i < |ring'|
    ensures ring[k - 1] in mem && ring[k] in mem && ring'[i] in mem
    ensures
      var mem' := UnlinkMem(mem, ring[k - 1], ring[k]);
      ring'[i] in mem' && mem'[ring'[i]].size == mem[ring'[i]].size
  {
    assert ring'[i] == ring[if i < k then i else i + 1];
  }

  lemma UnlinkSorted(mem: Memory, ring: seq<int>, k: nat, ring': seq<int>)
    requires Sorted(mem, ring) && 1 <= k < |ring| && Removed(ring, k, ring')
    ensures ring[k - 1] in mem && ring[k] in mem
    ensures Sorted(UnlinkMem(mem, ring[k - 1], ring[k]), ring')
  {
    hide UnlinkMem;
    var mem' := UnlinkMem(mem, ring[k - 1], ring[k]);
    forall i | 0 <= i < |ring'|
      ensures ring'[i] in mem' && (i >= 1 ==> mem'[ring'[i]].size >= 1)
    {
      UnlinkAt(mem, ring, k, ring', i);
    }
    forall i, j | 0 <= i < j < |ring'|
      ensures ring'[i] < ring'[j] && ring'[i] + mem'[ring'[i]].size <= ring'[j]
    {
      UnlinkAt(mem, ring, k, ring', i);
      var i0, j0 := if i < k then i else i + 1, if j < k then j else j + 1;
      assert ring'[i] == ring[i0] && ring'[j] == ring[j0];
    }
  }

  lemma UnlinkGap(mem: Memory, ring: seq<int>, k: nat, ring': seq<int>, i: int)
    requires Sorted(mem, ring) && Coalesced(mem, ring, NoGap) && 1 <= k < |ring| && Removed(ring, k, ring')
    requires 0 <= i && i + 1 < |ring'|
    ensures ring[k - 1] in mem && ring[k] in mem
    ensures
      var mem' := UnlinkMem(mem, ring[k - 1], ring[k]);
      ring'[i] in mem' && ring'[i] + mem'[ring'[i]].size < ring'[i + 1]
  {
    hide UnlinkMem;
    UnlinkAt(mem, ring, k, ring', i);
    var i0 := if i < k then i else i + 1;
    assert ring'[i] == ring[i0] && ring[i0] + mem[ring[i0]].size < ring[i0 + 1];
    assert ring'[i + 1] == ring[if i + 1 < k then i + 1 else i + 2];
    if i == k - 1 {
      assert ring[k] < ring[k + 1];
    }
  }

  lemma UnlinkCoalesced(mem: Memory, ring: seq<int>, k: nat, ring': seq<int>)
    requires Sorted(mem, ring) && Coalesced(mem, ring, NoGap) && 1 <= k < |ring| && Removed(ring, k, ring')
    ensures ring[k - 1] in mem && ring[k] in mem
    ensures Coalesced(UnlinkMem(mem, ring[k - 1], ring[k]), ring', NoGap)
  {
    assert ring[k - 1] in mem && ring[k] in mem;
    var mem' := UnlinkMem(mem, ring[k - 1], ring[k]);
    hide UnlinkMem, Sorted, Removed;
    forall i, j | 0 <= i < |ring'| && j == i + 1 && j < |ring'|
      ensures ring'[i] in mem' && ring'[i] + mem'[ring'[i]].size < ring'[j]
    {
      UnlinkGap(mem, ring, k, ring', i);
    }
  }

  lemma UnlinkAgree(mem: Memory, base: int, ring: seq<int>, live: set<int>, blocks: map<int, int>, k: nat, ring': seq<int>)
    requires Agree(mem, base, ring, live, blocks) && Sorted(mem, ring) && 1 <= k < |ring| && Removed(ring, k, ring')
    requires ring[k - 1] in mem && ring[k] in blocks && ring[k] in mem
    ensures Agree(UnlinkMem(mem, ring[k - 1], ring[k]), base, ring', live + {ring[k]}, blocks)
  {
    RemovedMembers(mem, ring, k, ring');
  }

  lemma TakeShape(mem: Memory, base: int, ring: seq<int>, live: set<int>, blocks: map<int, int>, owner: map<int, int>,
                  k: nat, b: int)
    requires Shape(mem, base, ring, live, blocks, owner, NoGap) && 1 <= k < |ring| && ring[k] == b
    requires ring[k - 1] in mem && b in mem
    ensures Shape(UnlinkMem(mem, ring[k - 1], b), base, RemoveAt(ring, k), live + {b}, blocks, owner, NoGap)
    ensures ring[k - 1] in RemoveAt(ring, k)
    ensures FreeSet(owner, live + {b}) == FreeSet(owner, live) - UnitsOf(owner, b)
  {
    hide *;
    var ring', mem' := RemoveAt(ring, k), UnlinkMem(mem, ring[k - 1], b);
    ShapeParts(mem, base, ring, live, blocks, owner, NoGap);
    RemoveAtIs(ring, k);
    UnlinkRing(mem, base, ring, k, ring');
    UnlinkSorted(mem, ring, k, ring');
    UnlinkCoalesced(mem, ring, k, ring');
    FreeBlock(mem, base, ring, live, blocks, owner, NoGap, k);
    UnlinkAgree(mem, base, ring, live, blocks, k, ring');
    ShapeIntro(mem', base, ring', live + {b}, blocks, owner, NoGap);
    TakeFree(owner, live, b);
    assert ring'[k - 1] in ring';
  }

  lemma TakeFree(owner: map<int, int>, live: set<int>, b: int)
    ensures FreeSet(owner, live + {b}) == FreeSet(owner, live) - UnitsOf(owner, b)
  {
  }

  lemma SplitRing(mem: Memory, base: int, ring: seq<int>, k: nat, n: int, q: int)
    requires Linked(mem, base, ring) && Sorted(mem, ring) && Coalesced(mem, ring, NoGap)
    requires 1 <= k < |ring| && ring[k] in mem && 1 <= n < mem[ring[k]].size && q == ring[k] + mem[ring[k]].size - n
    requires q !in ring
    ensures Linked(SplitMem(mem, ring[k], n), base, ring)
    ensures Sorted(SplitMem(mem, ring[k], n), ring)
    ensures Coalesced(SplitMem(mem, ring[k], n), ring, NoGap)
  {
    var mem' := SplitMem(mem, ring[k], n);
    forall i | 0 <= i < |ring|
      ensures ring[i] in mem' && mem'[ring[i]].ptr == mem[ring[i]].ptr
      ensures mem'[ring[i]].size == if i == k then mem[ring[i]].size - n else mem[ring[i]].size
    {
    }
  }

  lemma SplitBlocks(blocks: map<int, int>, owner: map<int, int>, b: int, n: int, q: int)
    requires Partition(blocks, owner) && b in blocks && 1 <= n < blocks[b] && q == b + blocks[b] - n
    ensures q !in blocks
    ensures Partition(blocks[b := blocks[b] - n][q := n], Reassign(owner, q, q + n, q))
  {
    UniqueOwner(blocks, owner, q, b);
    if q in blocks {
      UniqueOwner(blocks, owner, q, q);
    }
    var blocks', owner' := blocks[b := blocks[b] - n][q := n], Reassign(owner, q, q + n, q);
    forall c, u | c in blocks' && Inside(u, c, blocks'[c])
      ensures u in owner' && owner'[u] == c
    {
      UniqueOwner(blocks, owner, u, if c == q then b else c);
    }
    forall u | u in owner'
      ensures owner'[u] in blocks' && Inside(u, owner'[u], blocks'[owner'[u]])
    {
      assert Inside(u, owner[u], blocks[owner[u]]);
      assert Inside(u, b, blocks[b]) ==> owner[u] == b;
    }
  }

  lemma SplitAgree(mem: Memory, base: int, ring: seq<int>, live: set<int>, blocks: map<int, int>, b: int, n: int, q: int)
    requires Agree(mem, base, ring, live, blocks) && b in blocks && b in mem && b !in live
    requires 1 <= n < blocks[b] && q == b + blocks[b] - n && q !in blocks && base != q
    ensures Agree(SplitMem(mem, b, n), base, ring, live + {q}, blocks[b := blocks[b] - n][q := n])
  {
  }

  lemma SplitShape(mem: Memory, base: int, ring: seq<int>, live: set<int>, blocks: map<int, int>, owner: map<int, int>,
                   k: nat, b: int, n: int)
    returns (q: int, blocks': map<int, int>, owner': map<int, int>)
    requires Shape(mem, base, ring, live, blocks, owner, NoGap) && 1 <= k < |ring| && ring[k] == b
    requires b in mem && 1 <= n < mem[b].size
    ensures q == b + mem[b].size - n && b in blocks && blocks[b] == mem[b].size
    ensures q !in live && blocks' == blocks[b := mem[b].size - n][q := n] && owner'.Keys == owner.Keys
    ensures Shape(SplitMem(mem, b, n), base, ring, live + {q}, blocks', owner', NoGap)
    ensures FreeSet(owner', live + {q}) == FreeSet(owner, live) - UnitsOf(owner', q)
  {
    hide *;
    ShapeParts(mem, base, ring, live, blocks, owner, NoGap);
    FreeBlock(mem, base, ring, live, blocks, owner, NoGap, k);
    q := b + mem[b].size - n;
    SplitBlocks(blocks, owner, b, n, q);
    NotInRing(mem, base, ring, live, blocks, q);
    SplitRing(mem, base, ring, k, n, q);
    SplitAgree(mem, base, ring, live, blocks, b, n, q);
    blocks' := blocks[b := blocks[b] - n][q := n];
    owner' := Reassign(owner, q, q + n, q);
    ReassignIs(owner, q, q + n, q);
    SplitFree(blocks, owner, live, b, n, q);
    ShapeIntro(SplitMem(mem, b, n), base, ring, live + {q}, blocks', owner', NoGap);
  }

  lemma NotInRing(mem: Memory, base: int, ring: seq<int>, live: set<int>, blocks: map<int, int>, q: int)
    requires Agree(mem, base, ring, live, blocks) && q !in blocks && q > base
    ensures q !in ring && q !in live
  {
  }

  lemma SplitFree(blocks: map<int, int>, owner: map<int, int>, live: set<int>, b: int, n: int, q: int)
    requires Partition(blocks, owner) && b in blocks && b !in live && 1 <= n < blocks[b] && q == b + blocks[b] - n
    requires q !in blocks && live <= blocks.Keys
    ensures FreeSet(Reassign(owner, q, q + n, q), live + {q}) ==
            FreeSet(owner, live) - UnitsOf(Reassign(owner, q, q + n, q), q)
  {
    forall u | u in owner && q <= u < q + n
      ensures owner[u] == b
    {
      assert Inside(u, b, blocks[b]);
    }
  }

  /** The units of a fresh region obtained from sbrk all belong to the block that starts it. */
  ghost function Region(p: int, n: int): map<int, int> {
    map u | p <= u < p + n && Inside(u, p, n) :: p
  }

  lemma GrowShape(mem: Memory, base: int, ring: seq<int>, live: set<int>, blocks: map<int, int>, owner: map<int, int>,
                  b: int, h: Header)
    requires Shape(mem, base, ring, live, blocks, owner, NoGap) && base < b && h.size >= 1
    requires forall c :: c in blocks ==> c + blocks[c] <= b
    ensures Shape(mem[b := h], base, ring, live + {b}, blocks[b := h.size], owner + Region(b, h.size), NoGap)
    ensures FreeSet(owner + Region(b, h.size), live + {b}) == FreeSet(owner, live)
    ensures b !in live && b !in owner
  {
    hide *;
    ShapeParts(mem, base, ring, live, blocks, owner, NoGap);
    GrowBlocks(blocks, owner, b, h.size);
    NotInRing(mem, base, ring, live, blocks, b);
    GrowRing(mem, base, ring, b, h);
    GrowAgree(mem, base, ring, live, blocks, b, h);
    GrowFree(blocks, owner, live, b, h.size);
    ShapeIntro(mem[b := h], base, ring, live + {b}, blocks[b := h.size], owner + Region(b, h.size), NoGap);
  }

  lemma GrowAgree(mem: Memory, base: int, ring: seq<int>, live: set<int>, blocks: map<int, int>, b: int, h: Header)
    requires Agree(mem, base, ring, live, blocks) && base < b && b !in ring && b !in blocks
    ensures Agree(mem[b := h], base, ring, live + {b}, blocks[b := h.size])
  {
  }

  lemma GrowFree(blocks: map<int, int>, owner: map<int, int>, live: set<int>, b: int, n: int)
    requires Partition(blocks, owner) && forall c :: c in blocks ==> c + blocks[c] <= b
    requires b !in blocks
    ensures FreeSet(owner + Region(b, n), live + {b}) == FreeSet(owner, live)
  {
    assert forall u :: u in owner ==> Inside(u, owner[u], blocks[owner[u]]) && u !in Region(b, n);
  }

  lemma GrowRing(mem: Memory, base: int, ring: seq<int>, b: int, h: Header)
    requires Linked(mem, base, ring) && Sorted(mem, ring) && Coalesced(mem, ring, NoGap) && b !in ring
    ensures Linked(mem[b := h], base, ring) && Sorted(mem[b := h], ring) && Coalesced(mem[b := h], ring, NoGap)
  {
    assert forall i :: 0 <= i < |ring| ==> ring[i] != b;
  }

  lemma GrowBlocks(blocks: map<int, int>, owner: map<int, int>, b: int, n: int)
    requires Partition(blocks, owner) && n >= 1
    requires forall c :: c in blocks ==> c + blocks[c] <= b
    ensures b !in blocks && b !in owner && Partition(blocks[b := n], owner + Region(b, n))
  {
    assert b !in owner by {
      assert forall u :: u in owner ==> Inside(u, owner[u], blocks[owner[u]]);
    }
    var blocks', owner' := blocks[b := n], owner + Region(b, n);
    forall u | u in owner'
      ensures owner'[u] in blocks' && Inside(u, owner'[u], blocks'[owner'[u]])
    {
      assert u in owner ==> Inside(u, owner[u], blocks[owner[u]]);
    }
    forall c, u | c in blocks' && Inside(u, c, blocks'[c])
      ensures u in owner' && owner'[u] == c
    {
      assert c != b ==> Inside(u, c, blocks[c]);
    }
  }

  // ---------------------------------------------------------------------------------------------
  // The allocator
  // ---------------------------------------------------------------------------------------------

  /** Every unit obtained so far lies below `brk`. */
  ghost predicate Below(owner: map<int, int>, brk: int) {
    forall u :: u in owner ==> u < brk
  }

  lemma BelowBlocks(blocks: map<int, int>, owner: map<int, int>, brk: int)
    requires Partition(blocks, owner) && Below(owner, brk)
    ensures forall c :: c in blocks ==> c + blocks[c] <= brk
  {
    forall c | c in blocks
      ensures c + blocks[c] <= brk
    {
      UniqueOwner(blocks, owner, c + blocks[c] - 1, c);
    }
  }

  /** All units obtained are memory of the process. */
  ghost predicate BackedBy(owner: map<int, int>, base: int, brk: int) {
    base < brk && HEADER_BYTES * brk < KERNBASE && Below(owner, brk)
  }

  lemma BackedKeys(owner: map<int, int>, owner': map<int, int>, base: int, brk: int)
    requires owner'.Keys == owner.Keys
    ensures BackedBy(owner', base, brk) <==> BackedBy(owner, base, brk)
  {
    assert forall u :: u in owner' <==> u in owner;
  }

  /** sbrk's answer lies behind all units obtained, if those are memory of the process. */
  lemma BackedRoom(owner: map<int, int>, base: int, brk: int, p: int)
    requires BackedBy(owner, base, brk) && brk <= p
    ensures base < p && Below(owner, p)
  {
  }

  /** Nothing that large can be free, since all of user memory is smaller. */
  lemma FitsBelow(mem: Memory, base: int, ring: seq<int>, live: set<int>, blocks: map<int, int>, owner: map<int, int>, brk: int, n: int)
    requires Shape(mem, base, ring, live, blocks, owner, NoGap) && BackedBy(owner, base, brk) && 0 < base && Fits(blocks, live, n)
    ensures n < 0x1000_0000
  {
    var b :| b in blocks && b !in live && blocks[b] >= n;
    BelowBlocks(blocks, owner, brk);
  }

  /** The grown heap is backed exactly below 2^28 units. */
  lemma GrownBacked(owner: map<int, int>, base: int, p: int, nu: int, owner': map<int, int>)
    requires 1 <= nu <= UINT_RANGE / HEADER_BYTES && SbrkOk(p, SbrkArgument(RequestUnits(nu)))
    requires 0 < base < p && Below(owner, p) && owner'.Keys == owner.Keys + Region(p, RequestUnits(nu)).Keys
    ensures BackedBy(owner', base, SizeAfter(p, SbrkArgument(RequestUnits(nu)))) <==> nu < 0x1000_0000
  {
    SbrkObtainsIff(nu, p);
    var n := RequestUnits(nu);
    assert forall u :: u in Region(p, n) <==> Inside(u, p, n);
    if nu < 0x1000_0000 {
      assert forall u :: u in owner' ==> u in owner || u in Region(p, n);
    } else {
      assert Inside(p + n - 1, p, n);
      assert p + n - 1 in owner';
    }
  }

  lemma SbrkSize(p: int, arg: int)
    requires SbrkOk(p, arg)
    ensures p < 0x1000_0000
  {
  }

  lemma UsableIff(blocks: map<int, int>, owner: map<int, int>, base: int, brk: int, b: int, nbytes: Uint)
    requires Partition(blocks, owner) && b in blocks && blocks[b] == UnitsFor(nbytes) && 0 < base < b
    requires UnitsFor(nbytes) < 0x1000_0000 ==> BackedBy(owner, base, brk)
    requires UnitsFor(nbytes) >= 0x1000_0000 ==> brk < 0x1000_0000
    ensures Usable(b, UnitsFor(nbytes), brk, nbytes) <==> nbytes <= 0x8000_0000 - 16
  {
    JoinedIff(nbytes);
    if UnitsFor(nbytes) < 0x1000_0000 {
      BelowBlocks(blocks, owner, brk);
    }
  }

  /** How many steps after the node behind freep's the search reaches position `t`. */
  function Pos(t: nat, f: nat, n: int): int {
    if t > f then t - f - 1 else t + n - f - 1
  }

  function PrevPos(i: nat, n: int): int {
    if i > 0 then i - 1 else n - 1
  }

  lemma PrevNext(i: nat, n: int)
    requires i < n
    ensures PrevPos(if i + 1 < n then i + 1 else 0, n) == i
    ensures i > 0 ==> PrevPos(i, n) == i - 1
  {
  }

  /** No node the search has passed before reaching position `i` is large enough. */
  ghost predicate Passed(mem: Memory, ring: seq<int>, f: nat, i: nat, n: int) {
    forall t: nat :: t < |ring| && ring[t] in mem && Pos(t, f, |ring|) < Pos(i, f, |ring|) ==> mem[ring[t]].size < n
  }

  /** The free block at position `i` is large enough, and none that comes before it on the way round from `from` is. */
  ghost predicate NextFit(mem: Memory, ring: seq<int>, from: int, n: int, i: nat) {
    && 1 <= i < |ring| && ring[i] in mem && mem[ring[i]].size >= n
    && exists f: nat :: f < |ring| && ring[f] == from && Passed(mem, ring, f, i, n)
  }

  /** malloc takes the end of that block, and the next search will start at the node before it. */
  ghost predicate TakesNext(mem: Memory, ring: seq<int>, from: int, n: int, b: int, next: int) {
    exists i: nat :: NextFit(mem, ring, from, n, i) && b == ring[i] + mem[ring[i]].size - n && next == ring[i - 1]
  }

  lemma NextFitIs(mem: Memory, ring: seq<int>, f: nat, i: nat, n: int)
    requires f < |ring| && 1 <= i < |ring| && ring[i] in mem && mem[ring[i]].size >= n && Passed(mem, ring, f, i, n)
    ensures NextFit(mem, ring, ring[f], n, i)
  {
  }

  lemma TakesNextIs(mem: Memory, ring: seq<int>, from: int, n: int, i: nat)
    requires NextFit(mem, ring, from, n, i)
    ensures 1 <= i < |ring| && ring[i] in mem && TakesNext(mem, ring, from, n, ring[i] + mem[ring[i]].size - n, ring[i - 1])
  {
  }

  /** Node `p` of the free list is the last one before `b` in address order. */
  ghost predicate NodeBefore(ring: seq<int>, b: int, p: int) {
    exists j: nat :: j < |ring| && ring[j] == p < b && (j + 1 < |ring| ==> b < ring[j + 1])
  }

  lemma NodeBeforeIs(ring: seq<int>, j: nat, b: int)
    requires j < |ring| && ring[j] < b && (j + 1 < |ring| ==> b < ring[j + 1])
    ensures NodeBefore(ring, b, ring[j])
  {
  }

  lemma FitsNone(n: int)
    ensures !Fits(map[], {}, n)
  {
  }

  lemma Slot(mem: Memory, base: int, ring: seq<int>, live: set<int>, blocks: map<int, int>, owner: map<int, int>,
             b: int, from: nat) returns (j: nat)
    requires Shape(mem, base, ring, live, blocks, owner, NoGap) && b in live
    requires from < |ring| && ring[from] < b
    ensures j < |ring| && ring[j] < b && (j + 1 < |ring| ==> b < ring[j + 1])
    decreases |ring| - from
  {
    if from + 1 < |ring| && ring[from + 1] < b {
      j := Slot(mem, base, ring, live, blocks, owner, b, from + 1);
    } else {
      j := from;
      if from + 1 < |ring| {
        FreeBlock(mem, base, ring, live, blocks, owner, NoGap, from + 1);
      }
    }
  }

  /** free's loop stops at position `i` exactly when that is where `b` belongs. */
  lemma FreeLoopStep(mem: Memory, base: int, ring: seq<int>, b: int, j: nat, i: nat)
    requires Linked(mem, base, ring) && Sorted(mem, ring)
    requires j < |ring| && ring[j] < b && (j + 1 < |ring| ==> b < ring[j + 1]) && i < |ring|
    ensures ring[i] in mem && mem[ring[i]].ptr == if i + 1 < |ring| then ring[i + 1] else ring[0]
    ensures
      var p, next := ring[i], mem[ring[i]].ptr;
      (b > p && b < next) || (p >= next && (b > p || b < next)) <==> i == j
  {
    assert i < j ==> i + 1 == j || ring[i + 1] < ring[j];
    assert i > j ==> i == j + 1 || ring[j + 1] < ring[i];
    assert j > 0 ==> ring[0] < ring[j];
    assert i > 0 ==> ring[0] < ring[i];
  }

  lemma LinkSafe(mem: Memory, base: int, ring: seq<int>, live: set<int>, blocks: map<int, int>, owner: map<int, int>,
                 j: nat, b: int)
    requires Shape(mem, base, ring, live, blocks, owner, NoGap) && b in live
    requires j < |ring|
    ensures ring[j] in mem && mem[ring[j]].ptr in mem && b in blocks && b in mem
  {
    NextOf(mem, base, ring, j);
  }

  /** The statements of free compute AfterUpper and then AfterLower. */
  lemma LinkWrites(mem: Memory, p: int, b: int)
    requires p in mem && b in mem && mem[p].ptr in mem && p != b
    ensures var q := mem[p].ptr; b + mem[b].size == q ==>
              AfterUpper(mem, p, b) == mem[b := Header(mem[q].ptr, mem[b].size + mem[q].size)]
    ensures b + mem[b].size != mem[p].ptr ==> AfterUpper(mem, p, b) == mem[b := Header(mem[p].ptr, mem[b].size)]
    ensures
      var m := AfterUpper(mem, p, b);
      p in m && b in m && AfterLower(m, p, b) ==
      if p + m[p].size == b then m[p := Header(m[b].ptr, m[p].size + m[b].size)] else m[p := Header(b, m[p].size)]
  {
  }

  lemma OwnedBlock(mem: Memory, base: int, ring: seq<int>, live: set<int>, blocks: map<int, int>, owner: map<int, int>, b: int)
    requires Shape(mem, base, ring, live, blocks, owner, NoGap) && b in blocks && b !in live
    ensures b in ring && b in mem && mem[b].size == blocks[b]
  {
  }

  lemma RequestAtLeast(nu: int)
    ensures RequestUnits(nu) >= nu && RequestUnits(nu) >= NALLOC
  {
  }

  lemma BelowBlocksOf(mem: Memory, base: int, ring: seq<int>, live: set<int>, blocks: map<int, int>, owner: map<int, int>,
                      brk: int)
    requires Shape(mem, base, ring, live, blocks, owner, NoGap) && Below(owner, brk)
    ensures forall c :: c in blocks ==> c + blocks[c] <= brk
  {
    BelowBlocks(blocks, owner, brk);
  }

  lemma GrowUnits(owner: map<int, int>, live: set<int>, brk: int, p: int, n: int)
    requires Below(owner, brk) && brk <= p && n >= 1
    ensures Below(owner + Region(p, n), p + n)
    ensures (owner + Region(p, n)).Keys == owner.Keys + Region(p, n).Keys
    ensures UnitsOf(owner + Region(p, n), p) == Region(p, n).Keys + UnitsOf(owner, p)
    ensures p !in live ==> FreeSet(owner, live) * UnitsOf(owner, p) == UnitsOf(owner, p)
  {
    assert forall u :: u in Region(p, n) <==> Inside(u, p, n);
  }

  lemma SameSizesGrow(live: set<int>, blocks: map<int, int>, b: int, n: int)
    requires b !in live
    ensures SameSizes(live, blocks, blocks[b := n])
  {
  }

  /** Some free block has at least `n` units. */
  ghost predicate Fits(blocks: map<int, int>, live: set<int>, n: int) {
    exists b :: b in blocks && b !in live && blocks[b] >= n
  }

  ghost predicate NoneFits(mem: Memory, ring: seq<int>, n: int) {
    forall t :: 0 <= t < |ring| && ring[t] in mem ==> mem[ring[t]].size < n
  }

  /** `owner` has the units of `owner0` and the free units `more`. */
  ghost predicate GrewBy(owner0: map<int, int>, owner: map<int, int>, live: set<int>, more: set<int>) {
    owner.Keys == owner0.Keys + more && FreeSet(owner, live) == FreeSet(owner0, live) + more
  }

  lemma GrewByIntro(owner0: map<int, int>, owner: map<int, int>, live: set<int>, more: set<int>)
    requires owner.Keys == owner0.Keys + more && FreeSet(owner, live) == FreeSet(owner0, live) + more
    ensures GrewBy(owner0, owner, live, more)
  {
  }

  /** The heap has grown by what sbrk returned at `p` for `nu` units, and the process by what its argument said. */
  ghost predicate Obtained(owner0: map<int, int>, owner: map<int, int>, live: set<int>, base: int, brk: int, p: int, nu: int) {
    && GrewBy(owner0, owner, live, Region(p, RequestUnits(nu)).Keys) && brk == SizeAfter(p, SbrkArgument(RequestUnits(nu)))
    && (BackedBy(owner, base, brk) <==> nu < 0x1000_0000)
  }

  lemma ObtainedIs(owner0: map<int, int>, owner: map<int, int>, live: set<int>, base: int, brk: int, p: int, nu: int)
    ensures Obtained(owner0, owner, live, base, brk, p, nu) <==>
            && GrewBy(owner0, owner, live, Region(p, RequestUnits(nu)).Keys) && brk == SizeAfter(p, SbrkArgument(RequestUnits(nu)))
            && (BackedBy(owner, base, brk) <==> nu < 0x1000_0000)
  {
  }

  lemma GrewByUnits(owner0: map<int, int>, owner: map<int, int>, live: set<int>, more: set<int>)
    requires GrewBy(owner0, owner, live, more)
    ensures owner.Keys == owner0.Keys + more && FreeSet(owner, live) == FreeSet(owner0, live) + more
  {
  }

  lemma BaseShape(mem: Memory, base: int)
    requires base in mem && mem[base] == Header(base, 0)
    ensures Shape(mem, base, [base], {}, map[], map[], NoGap) && base in [base]
    ensures FreeSet(map[], {}) == {}
  {
  }

  lemma SearchStart(mem: Memory, base: int, ring: seq<int>, live: set<int>, blocks: map<int, int>, owner: map<int, int>,
                    freep: int, n: int)
    requires Shape(mem, base, ring, live, blocks, owner, NoGap) && freep in ring
    ensures freep in mem
    ensures forall f: nat :: f < |ring| && ring[f] == freep ==>
              var i := if f + 1 < |ring| then f + 1 else 0;
              mem[freep].ptr == ring[i] && Passed(mem, ring, f, i, n)
  {
    forall f: nat | f < |ring| && ring[f] == freep
      ensures mem[freep].ptr == ring[if f + 1 < |ring| then f + 1 else 0]
    {
      NextOf(mem, base, ring, f);
    }
  }

  /** What malloc's two tests tell at position `i`. */
  lemma SearchFacts(mem: Memory, base: int, ring: seq<int>, live: set<int>, blocks: map<int, int>, owner: map<int, int>,
                    f: nat, i: nat, n: int)
    requires Shape(mem, base, ring, live, blocks, owner, NoGap) && f < |ring| && i < |ring| && n >= 1
    requires Passed(mem, ring, f, i, n)
    ensures ring[i] in mem && (ring[i] == ring[f] ==> i == f)
    ensures mem[ring[i]].size >= n ==> i >= 1 && ring[i - 1] in mem && Fits(blocks, live, n)
    ensures i == f && mem[ring[i]].size < n ==> NoneFits(mem, ring, n)
    ensures NoneFits(mem, ring, n) ==> !Fits(blocks, live, n)
  {
    assert ring[i] in mem && ring[0] == base;
    if i >= 1 {
      FreeBlock(mem, base, ring, live, blocks, owner, NoGap, i);
      assert ring[i - 1] in mem;
    }
    if NoneFits(mem, ring, n) {
      forall b | b in blocks && b !in live
        ensures blocks[b] < n
      {
        assert b in ring;
      }
    }
  }

  lemma SearchNext(mem: Memory, base: int, ring: seq<int>, live: set<int>, blocks: map<int, int>, owner: map<int, int>,
                   f: nat, i: nat, n: int)
    requires Shape(mem, base, ring, live, blocks, owner, NoGap) && f < |ring| && i < |ring|
    requires ring[i] in mem && (i == f || (Passed(mem, ring, f, i, n) && mem[ring[i]].size < n))
    ensures
      var i' := if i + 1 < |ring| then i + 1 else 0;
      && mem[ring[i]].ptr == ring[i'] && Passed(mem, ring, f, i', n)
      && Pos(i', f, |ring|) == (if i == f then 0 else Pos(i, f, |ring|) + 1)
      && Pos(i', f, |ring|) <= Pos(f, f, |ring|)
  {
    NextOf(mem, base, ring, i);
    var i' := if i + 1 < |ring| then i + 1 else 0;
    forall t: nat | t < |ring| && ring[t] in mem && Pos(t, f, |ring|) < Pos(i', f, |ring|)
      ensures mem[ring[t]].size < n
    {
      assert t == i || Pos(t, f, |ring|) < Pos(i, f, |ring|);
    }
  }

  lemma SearchAgain(mem: Memory, ring: seq<int>, big: int, n: int)
    requires big in ring && big in mem && mem[big].size >= n
    ensures !NoneFits(mem, ring, n)
  {
  }

  lemma RingNode(mem: Memory, base: int, ring: seq<int>, live: set<int>, blocks: map<int, int>, owner: map<int, int>, i: nat)
    requires Shape(mem, base, ring, live, blocks, owner, NoGap) && i < |ring|
    ensures ring[i] in ring && base <= ring[i] && ring[i] in mem
  {
    NextOf(mem, base, ring, i);
  }

  lemma PosBound(i: nat, f: nat, n: int)
    requires i < n && f < n
    ensures 0 <= Pos(i, f, n) <= Pos(f, f, n)
  {
  }

  lemma UnlinkMemIs(mem: Memory, prev: int, b: int)
    requires prev in mem && b in mem
    ensures UnlinkMem(mem, prev, b) == mem[prev := Header(mem[b].ptr, mem[prev].size)]
  {
  }

  lemma SplitMemIs(mem: Memory, b: int, n: int)
    requires b in mem && n <= mem[b].size
    ensures
      var m := mem[b := Header(mem[b].ptr, mem[b].size - n)];
      var q := b + m[b].size;
      n > 0 && n < mem[b].size ==> SplitMem(mem, b, n) == m[q := Header(if q in m then m[q].ptr else 0, n)]
  {
  }

  // ---------------------------------------------------------------------------------------------
  // What the invariant means
  // ---------------------------------------------------------------------------------------------

  /** A block's units are exactly its address range. */
  lemma UnitsAre(blocks: map<int, int>, owner: map<int, int>, b: int, u: int)
    requires Partition(blocks, owner) && b in blocks
    ensures u in UnitsOf(owner, b) <==> b <= u < b + blocks[b]
  {
    assert u in owner ==> Inside(u, owner[u], blocks[owner[u]]);
    assert Inside(u, b, blocks[b]) ==> u in owner && owner[u] == b;
  }

  lemma {:induction false} RangeSize(lo: int, n: nat, s: set<int>)
    requires forall u :: u in s <==> lo <= u < lo + n
    ensures |s| == n
    decreases n
  {
    if n > 0 {
      RangeSize(lo, n - 1, s - {lo + n - 1});
    } else if s != {} {
      var u := Pick(s);
    }
  }

  lemma UnitsCount(blocks: map<int, int>, owner: map<int, int>, b: int)
    requires Partition(blocks, owner) && b in blocks
    ensures |UnitsOf(owner, b)| == blocks[b]
  {
    forall u
      ensures u in UnitsOf(owner, b) <==> b <= u < b + blocks[b]
    {
      UnitsAre(blocks, owner, b, u);
    }
    RangeSize(b, blocks[b], UnitsOf(owner, b));
  }

  /** The summed sizes of a set of blocks. */
  ghost function SumOver(blocks: map<int, int>, s: set<int>): int
    requires s <= blocks.Keys
  {
    if s == {} then 0 else var b := Pick(s); blocks[b] + SumOver(blocks, s - {b})
  }

  ghost function UnitsIn(owner: map<int, int>, s: set<int>): set<int> {
    set u | u in owner && owner[u] in s
  }

  lemma {:induction false} SumCounts(blocks: map<int, int>, owner: map<int, int>, s: set<int>)
    requires Partition(blocks, owner) && s <= blocks.Keys
    ensures SumOver(blocks, s) == |UnitsIn(owner, s)|
    decreases s
  {
    if s == {} {
      assert UnitsIn(owner, s) == {};
    } else {
      var b := Pick(s);
      SumCounts(blocks, owner, s - {b});
      UnitsCount(blocks, owner, b);
      UnitsAdd(owner, s - {b}, b);
      assert s - {b} + {b} == s;
    }
  }

  /** The summed sizes of the first `k` nodes of the free list. */
  ghost function RingSum(mem: Memory, ring: seq<int>, k: nat): int
    requires k <= |ring|
  {
    if k == 0 then 0 else RingSum(mem, ring, k - 1) + if ring[k - 1] in mem then mem[ring[k - 1]].size else 0
  }

  /** The free blocks among the first `k` nodes. */
  ghost function RingSet(ring: seq<int>, k: nat): set<int>
    requires k <= |ring|
  {
    if k <= 1 then {} else RingSet(ring, k - 1) + {ring[k - 1]}
  }

  lemma {:induction false} RingSetIs(mem: Memory, ring: seq<int>, k: nat, b: int)
    requires Sorted(mem, ring) && 1 <= k <= |ring|
    ensures b in RingSet(ring, k) <==> exists i :: 1 <= i < k && ring[i] == b
    ensures b in RingSet(ring, k) ==> ring[0] < b <= ring[k - 1]
  {
    if k > 1 {
      RingSetIs(mem, ring, k - 1, b);
    }
  }

  lemma {:induction false} RingCounts(mem: Memory, base: int, ring: seq<int>, live: set<int>, blocks: map<int, int>,
                                      owner: map<int, int>, k: nat)
    requires Shape(mem, base, ring, live, blocks, owner, NoGap) && 1 <= k <= |ring|
    ensures RingSum(mem, ring, k) == |UnitsIn(owner, RingSet(ring, k))|
    decreases k
  {
    ShapeParts(mem, base, ring, live, blocks, owner, NoGap);
    hide Shape, Linked, Sorted, Coalesced, Agree, Partition;
    RingOrder(mem, ring, k);
    if k == 1 {
      SizeOfBaseIs(mem, base, ring, live, blocks, owner);
      HeadIs(mem, base, ring);
      assert RingSum(mem, ring, 1) == RingSum(mem, ring, 0) + mem[ring[0]].size;
      assert UnitsIn(owner, RingSet(ring, k)) == {};
    } else {
      var b, s := ring[k - 1], RingSet(ring, k - 1);
      FreeBlock(mem, base, ring, live, blocks, owner, NoGap, k - 1);
      RingSetIs(mem, ring, k - 1, b);
      RingCounts(mem, base, ring, live, blocks, owner, k - 1);
      UnitsCount(blocks, owner, b);
      assert RingSet(ring, k) == s + {b};
      UnitsAdd(owner, s, b);
    }
  }

  lemma RingOrder(mem: Memory, ring: seq<int>, k: nat)
    requires Sorted(mem, ring) && 1 <= k <= |ring|
    ensures k > 1 ==> ring[k - 2] < ring[k - 1]
  {
  }

  lemma HeadIs(mem: Memory, base: int, ring: seq<int>)
    requires Linked(mem, base, ring)
    ensures |ring| > 0 && ring[0] == base
  {
  }

  lemma UnitsAdd(owner: map<int, int>, s: set<int>, b: int)
    ensures b !in s ==> |UnitsIn(owner, s + {b})| == |UnitsIn(owner, s)| + |UnitsOf(owner, b)|
  {
    if b !in s {
      var us, ub := UnitsIn(owner, s), UnitsOf(owner, b);
      assert forall u :: u in UnitsIn(owner, s + {b}) <==> u in us + ub;
      assert UnitsIn(owner, s + {b}) == us + ub;
      assert forall u :: u in us ==> u !in ub;
      assert us !! ub;
    }
  }

  /** Conservation: the sizes on the free list and of the live blocks add up to the units obtained. */
  lemma {:induction false} Conservation(mem: Memory, base: int, ring: seq<int>, live: set<int>, blocks: map<int, int>, owner: map<int, int>)
    requires Shape(mem, base, ring, live, blocks, owner, NoGap) && |ring| > 0 && live <= blocks.Keys
    ensures RingSum(mem, ring, |ring|) + SumOver(blocks, live) == |owner|
  {
    hide *;
    ShapeParts(mem, base, ring, live, blocks, owner, NoGap);
    var free := RingSet(ring, |ring|);
    RingCounts(mem, base, ring, live, blocks, owner, |ring|);
    FreeOrLive(mem, base, ring, live, blocks, owner);
    SumCounts(blocks, owner, live);
    UnitsSplit(owner, free, live);
  }

  lemma {:induction false} FreeOrLive(mem: Memory, base: int, ring: seq<int>, live: set<int>, blocks: map<int, int>, owner: map<int, int>)
    requires Agree(mem, base, ring, live, blocks) && Partition(blocks, owner)
    requires |ring| > 0 && ring[0] == base && Sorted(mem, ring)
    ensures forall u :: u in owner ==> (owner[u] in live <==> owner[u] !in RingSet(ring, |ring|))
  {
    forall u | u in owner
      ensures owner[u] in live <==> owner[u] !in RingSet(ring, |ring|)
    {
      RingSetIs(mem, ring, |ring|, owner[u]);
      assert owner[u] in blocks;
      if owner[u] !in live {
        var i :| 0 <= i < |ring| && ring[i] == owner[u];
        assert i >= 1;
      } else {
        assert forall i :: 1 <= i < |ring| ==> ring[i] in ring && ring[0] < ring[i];
      }
    }
  }

  lemma UnitsSplit(owner: map<int, int>, s: set<int>, t: set<int>)
    requires forall u :: u in owner ==> (owner[u] in t <==> owner[u] !in s)
    ensures |UnitsIn(owner, s)| + |UnitsIn(owner, t)| == |owner|
  {
    var us, ut := UnitsIn(owner, s), UnitsIn(owner, t);
    assert forall u :: u in owner.Keys <==> u in us + ut;
    assert owner.Keys == us + ut;
    assert forall u :: u in us ==> u !in ut;
    assert us !! ut;
  }

  /** A free block starts exactly where a maximal run of free units starts. */
  lemma RunStart(mem: Memory, base: int, ring: seq<int>, live: set<int>, blocks: map<int, int>, owner: map<int, int>, b: int)
    requires Shape(mem, base, ring, live, blocks, owner, NoGap)
    ensures b in ring && b != base <==> b in FreeSet(owner, live) && b - 1 !in FreeSet(owner, live)
  {
    if b in ring && b != base {
      BlockOf(mem, base, ring, live, blocks, owner, NoGap, b);
      forall c | b - 1 in owner && owner[b - 1] == c && c !in live
        ensures false
      {
        UnitsAre(blocks, owner, c, b - 1);
        OwnedBlock(mem, base, ring, live, blocks, owner, c);
        Apart(mem, ring, c, b);
      }
    }
    if b in FreeSet(owner, live) && b - 1 !in FreeSet(owner, live) {
      var c := owner[b];
      UnitsAre(blocks, owner, c, b);
      UnitsAre(blocks, owner, c, b - 1);
    }
  }

  lemma IndexOrder(mem: Memory, ring: seq<int>, i: nat, j: nat)
    requires Sorted(mem, ring) && i < |ring| && j < |ring|
    ensures ring[i] < ring[j] ==> i < j
  {
    if j < i {
      assert ring[j] < ring[i];
    }
  }

  /** Two different free blocks never touch. */
  lemma Apart(mem: Memory, ring: seq<int>, a: int, b: int)
    requires Sorted(mem, ring) && Coalesced(mem, ring, NoGap) && a in ring && b in ring && a < b
    ensures a in mem && a + mem[a].size < b
  {
    var i :| 0 <= i < |ring| && ring[i] == a;
    var j :| 0 <= j < |ring| && ring[j] == b;
    IndexOrder(mem, ring, i, j);
    assert ring[i] in mem && ring[i] + mem[ring[i]].size < ring[i + 1];
    assert j != i + 1 ==> ring[i + 1] < ring[j];
  }

  /** ... and ends where that run ends. */
  lemma RunEnd(mem: Memory, base: int, ring: seq<int>, live: set<int>, blocks: map<int, int>, owner: map<int, int>, b: int, u: int)
    requires Shape(mem, base, ring, live, blocks, owner, NoGap) && b in ring && b != base && b in blocks
    ensures b <= u < b + blocks[b] ==> u in FreeSet(owner, live)
    ensures b + blocks[b] !in FreeSet(owner, live)
  {
    UnitsAre(blocks, owner, b, u);
    var e := b + blocks[b];
    if e in FreeSet(owner, live) {
      var c := owner[e];
      UnitsAre(blocks, owner, c, e);
      UnitsAre(blocks, owner, c, e - 1);
      UnitsAre(blocks, owner, b, e);
      UnitsAre(blocks, owner, b, e - 1);
      RunStart(mem, base, ring, live, blocks, owner, e);
    }
  }

  /** The free list is determined by the set of free units: coalescing leaves no choice. */
  lemma Canonical(mem1: Memory, ring1: seq<int>, live1: set<int>, blocks1: map<int, int>, owner1: map<int, int>,
                  mem2: Memory, ring2: seq<int>, live2: set<int>, blocks2: map<int, int>, owner2: map<int, int>,
                  base: int, b: int)
    requires Shape(mem1, base, ring1, live1, blocks1, owner1, NoGap) && Shape(mem2, base, ring2, live2, blocks2, owner2, NoGap)
    requires FreeSet(owner1, live1) == FreeSet(owner2, live2)
    ensures b in ring1 <==> b in ring2
    ensures b in ring1 ==> b in mem1 && b in mem2 && mem1[b].size == mem2[b].size
  {
    hide *;
    RunStart(mem1, base, ring1, live1, blocks1, owner1, b);
    RunStart(mem2, base, ring2, live2, blocks2, owner2, b);
    SizeOfBaseIs(mem1, base, ring1, live1, blocks1, owner1);
    SizeOfBaseIs(mem2, base, ring2, live2, blocks2, owner2);
    if b in ring1 && b != base {
      RingBlock(mem1, base, ring1, live1, blocks1, owner1, b);
      RingBlock(mem2, base, ring2, live2, blocks2, owner2, b);
      RunEnd(mem1, base, ring1, live1, blocks1, owner1, b, b + blocks2[b]);
      RunEnd(mem2, base, ring2, live2, blocks2, owner2, b, b + blocks1[b]);
    }
  }

  lemma RingBlock(mem: Memory, base: int, ring: seq<int>, live: set<int>, blocks: map<int, int>, owner: map<int, int>, b: int)
    requires Shape(mem, base, ring, live, blocks, owner, NoGap) && b in ring && b != base
    ensures b in blocks && b in mem && mem[b].size == blocks[b] >= 1
  {
  }

  lemma SizeOfBaseIs(mem: Memory, base: int, ring: seq<int>, live: set<int>, blocks: map<int, int>, owner: map<int, int>)
    requires Shape(mem, base, ring, live, blocks, owner, NoGap)
    ensures base in ring && base in mem && mem[base].size == 0
  {
    assert ring[0] == base;
  }

  class Heap {
    const base: int
    var mem: Memory
    var freep: int
    var brk: int
    ghost var ring: seq<int>
    ghost var live: set<int>
    ghost var blocks: map<int, int>
    ghost var owner: map<int, int>

    /** The ring, the blocks and the units obtained agree. */
    ghost predicate Sound()
      reads this
    {
      && 0 < base
      && if freep == 0 then ring == [] && live == {} && blocks == map[] && owner == map[]
         else freep in ring && Shape(mem, base, ring, live, blocks, owner, NoGap)
    }

    lemma Parts()
      requires Sound()
      ensures 0 < base
      ensures freep == 0 ==> ring == [] && live == {} && blocks == map[] && owner == map[]
      ensures freep != 0 ==> freep in ring && Shape(mem, base, ring, live, blocks, owner, NoGap)
    {
    }

    lemma LiveParts(b: int)
      requires Sound() && b in live
      ensures 0 < base && freep != 0 && freep in ring && Shape(mem, base, ring, live, blocks, owner, NoGap)
      ensures |ring| > 0 && ring[0] == base < b && b in blocks && b in mem && mem[b].size == blocks[b] >= 1
      ensures Linked(mem, base, ring) && Sorted(mem, ring)
    {
      BlockOf(mem, base, ring, live, blocks, owner, NoGap, b);
    }

    lemma Whole()
      requires 0 < base && freep != 0 && freep in ring && Shape(mem, base, ring, live, blocks, owner, NoGap)
      ensures Sound()
    {
    }

    lemma BackedFits(n: int)
      requires Sound() && freep != 0 && BackedBy(owner, base, brk) && Fits(blocks, live, n)
      ensures n < 0x1000_0000
    {
      FitsBelow(mem, base, ring, live, blocks, owner, brk, n);
    }

    constructor (base: int, brk: int)
      requires 0 < base < brk && HEADER_BYTES * brk < KERNBASE
      ensures Sound() && BackedBy(owner, base, brk) && freep == 0 && live == {} && blocks == map[] && owner == map[]
      ensures this.base == base && this.brk == brk
    {
      this.base, this.brk := base, brk;
      mem, freep := map[], 0;
      ring, live, blocks, owner := [], {}, map[], map[];
    }

    method Free(ap: int)
      requires Sound() && ap > 0 && ap - 1 in live
      modifies this
      ensures Sound() && brk == old(brk) && (old(BackedBy(owner, base, brk)) ==> BackedBy(owner, base, brk)) && freep != 0
      ensures NodeBefore(old(ring), ap - 1, freep)
      ensures live == old(live) - {ap - 1} && SameSizes(live, old(blocks), blocks)
      ensures owner.Keys == old(owner.Keys)
      ensures FreeSet(owner, live) == old(FreeSet(owner, live)) + old(UnitsOf(owner, ap - 1))
      ensures ap - 1 in old(blocks) && ap - 1 in owner && owner[ap - 1] in ring && owner[ap - 1] in mem
      ensures owner[ap - 1] <= ap - 1 && owner[ap - 1] + mem[owner[ap - 1]].size >= ap - 1 + old(blocks)[ap - 1]
    {
      hide *;
      var bp := ap - 1;
      var p := freep;
      LiveParts(bp);
      ghost var j := Slot(mem, base, ring, live, blocks, owner, bp, 0);
      ghost var i: nat :| i < |ring| && ring[i] == freep;
      FreeLoopStep(mem, base, ring, bp, j, i);
      while !(bp > p && bp < mem[p].ptr)
        modifies {}
        invariant i < |ring| && p == ring[i] && p in mem
        decreases if i <= j then j - i else j + |ring| - i
      {
        FreeLoopStep(mem, base, ring, bp, j, i);
        if p >= mem[p].ptr && (bp > p || bp < mem[p].ptr) {
          break;
        }
        p := mem[p].ptr;
        i := if i + 1 < |ring| then i + 1 else 0;
        FreeLoopStep(mem, base, ring, bp, j, i);
      }
      FreeLoopStep(mem, base, ring, bp, j, i);
      NodeBeforeIs(ring, j, bp);
      Link(bp, p, j);
      BackedKeys(old(owner), owner, base, brk);
    }

    /** The stores of free's two branches. */
    method Stores(bp: int, p: int)
      requires p in mem && bp in mem && mem[p].ptr in mem && p != bp
      modifies `mem
      ensures p in AfterUpper(old(mem), p, bp) && bp in AfterUpper(old(mem), p, bp)
      ensures mem == AfterLower(AfterUpper(old(mem), p, bp), p, bp)
    {
      hide *;
      LinkWrites(mem, p, bp);
      if bp + mem[bp].size == mem[p].ptr {
        var q := mem[p].ptr;
        mem := mem[bp := Header(mem[q].ptr, mem[bp].size + mem[q].size)];
      } else {
        mem := mem[bp := Header(mem[p].ptr, mem[bp].size)];
      }
      if p + mem[p].size == bp {
        mem := mem[p := Header(mem[bp].ptr, mem[p].size + mem[bp].size)];
      } else {
        mem := mem[p := Header(bp, mem[p].size)];
      }
    }

    /** free's relinking, once `p` is known to be the node before `bp`. */
    method Link(bp: int, p: int, ghost j: nat)
      requires Sound() && bp in live
      requires j < |ring| && p == ring[j] < bp && (j + 1 < |ring| ==> bp < ring[j + 1])
      modifies this
      ensures Sound() && brk == old(brk) && freep == p != 0
      ensures live == old(live) - {bp} && SameSizes(live, old(blocks), blocks)
      ensures owner.Keys == old(owner.Keys)
      ensures FreeSet(owner, live) == old(FreeSet(owner, live)) + old(UnitsOf(owner, bp))
      ensures bp in old(blocks) && bp in owner && owner[bp] in ring && owner[bp] in mem
      ensures owner[bp] <= bp && owner[bp] + mem[owner[bp]].size >= bp + old(blocks)[bp]
    {
      hide *;
      Parts();
      LiveParts(bp);
      LinkSafe(mem, base, ring, live, blocks, owner, j, bp);
      ghost var mem', ring', blocks', owner' := LinkShape(mem, base, ring, live, blocks, owner, j, bp);
      Stores(bp, p);
      freep := p;
      ring, live, blocks, owner := ring', live - {bp}, blocks', owner';
      OwnedBlock(mem, base, ring, live, blocks, owner, owner[bp]);
      Whole();
    }

    /** sbrk's answer: None is -1, Some(p) the old size. It lies behind every unit obtained before, but memory
        comes with it only as far as the argument says. */
    method Morecore(nu: int, sbrk: Option<int>) returns (r: Grant, ghost big: int)
      requires Sound() && freep != 0 && 1 <= nu <= UINT_RANGE / HEADER_BYTES
      requires sbrk.Some? ==> SbrkOk(sbrk.value, SbrkArgument(RequestUnits(nu))) && base < sbrk.value && Below(owner, sbrk.value)
      modifies this
      ensures Sound() && freep != 0 && live == old(live) && SameSizes(live, old(blocks), blocks)
      ensures r.NoMemory? <==> sbrk.None?
      ensures r.NoMemory? ==> unchanged(this)
      ensures r.Trap? <==> sbrk.Some? && !Reaches(SizeAfter(sbrk.value, SbrkArgument(RequestUnits(nu))), sbrk.value)
      ensures r.Trap? ==> owner == old(owner) && blocks == old(blocks)
      ensures r.Got? ==>
                && r.p == freep && brk == SizeAfter(sbrk.value, SbrkArgument(RequestUnits(nu)))
                && (BackedBy(owner, base, brk) <==> nu < 0x1000_0000)
                && GrewBy(old(owner), owner, live, Region(sbrk.value, RequestUnits(nu)).Keys)
                && big in ring && big in mem && mem[big].size >= nu
    {
      hide *;
      big := 0;
      var n := RequestUnits(nu);
      RequestAtLeast(nu);
      if sbrk.None? {
        SameSizesRefl(live, blocks);
        return NoMemory, 0;
      }
      Parts();
      var hp := sbrk.value;
      brk := SizeAfter(hp, SbrkArgument(n));
      if !Reaches(brk, hp) {
        SameSizesRefl(live, blocks);
        Whole();
        return Trap, 0;
      }
      BelowBlocksOf(mem, base, ring, live, blocks, owner, hp);
      GrowShape(mem, base, ring, live, blocks, owner, hp, Header(if hp in mem then mem[hp].ptr else 0, n));
      GrowUnits(owner, live, hp, hp, n);
      SameSizesGrow(live, blocks, hp, n);
      mem := mem[hp := Header(if hp in mem then mem[hp].ptr else 0, n)];
      blocks, owner, live := blocks[hp := n], owner + Region(hp, n), live + {hp};
      Whole();
      Free(hp + 1);
      SameSizesTrans(old(live), old(blocks), old(blocks)[hp := n], blocks);
      assert old(live) + {hp} - {hp} == old(live);
      GrewByIntro(old(owner), owner, live, Region(hp, n).Keys);
      GrownBacked(old(owner), base, hp, nu, owner);
      big := owner[hp];
      r := Got(freep);
    }

    /** The allocating branch of malloc: take the block `p`, or its tail, out of the free list. */
    method Take(prevp: int, p: int, nunits: int, ghost k: nat) returns (b: int)
      requires Sound() && freep != 0 && nunits >= 1
      requires 1 <= k < |ring| && ring[k] == p && ring[k - 1] == prevp
      requires prevp in mem && p in mem && mem[p].size >= nunits
      modifies this
      ensures Sound() && freep != 0 && brk == old(brk) && (BackedBy(owner, base, brk) <==> old(BackedBy(owner, base, brk)))
      ensures base < b && b !in old(live) && live == old(live) + {b}
      ensures b == p + old(mem)[p].size - nunits && freep == prevp
      ensures b in blocks && blocks[b] == nunits && SameSizes(old(live), old(blocks), blocks)
      ensures owner.Keys == old(owner.Keys)
      ensures FreeSet(owner, live) == old(FreeSet(owner, live)) - UnitsOf(owner, b)
    {
      hide *;
      Parts();
      FreeBlock(mem, base, ring, live, blocks, owner, NoGap, k);
      b := p;
      SameSizesRefl(live, blocks);
      RingNode(mem, base, ring, live, blocks, owner, k - 1);
      if mem[p].size == nunits {
        TakeShape(mem, base, ring, live, blocks, owner, k, p);
        UnlinkMemIs(mem, prevp, p);
        mem := mem[prevp := Header(mem[p].ptr, mem[prevp].size)];
        ring := RemoveAt(ring, k);
      } else {
        ghost var q, blocks', owner' := SplitShape(mem, base, ring, live, blocks, owner, k, p, nunits);
        SplitMemIs(mem, p, nunits);
        SameSizesIntro(live, blocks, blocks', p, q);
        mem := mem[p := Header(mem[p].ptr, mem[p].size - nunits)];
        b := p + mem[p].size;
        mem := mem[b := Header(if b in mem then mem[b].ptr else 0, nunits)];
        blocks, owner := blocks', owner';
      }
      live := live + {b};
      freep := prevp;
      BlockOf(mem, base, ring, live, blocks, owner, NoGap, b);
      Whole();
      BackedKeys(old(owner), owner, base, brk);
    }

    /** Morecore from inside malloc's loop: the search goes on from freep, at position `f`. */
    method Regrow(nu: int, sbrk: Option<int>) returns (r: Grant, ghost f: nat)
      requires Sound() && freep != 0 && 1 <= nu <= UINT_RANGE / HEADER_BYTES
      requires sbrk.Some? ==> SbrkOk(sbrk.value, SbrkArgument(RequestUnits(nu))) && base < sbrk.value && Below(owner, sbrk.value)
      modifies this
      ensures Sound() && freep != 0 && live == old(live) && SameSizes(live, old(blocks), blocks)
      ensures r.NoMemory? <==> sbrk.None?
      ensures r.NoMemory? ==> unchanged(this)
      ensures r.Trap? <==> sbrk.Some? && !Reaches(SizeAfter(sbrk.value, SbrkArgument(RequestUnits(nu))), sbrk.value)
      ensures r.Trap? ==> owner == old(owner) && blocks == old(blocks)
      ensures r.Got? ==>
                && r.p == freep && Obtained(old(owner), owner, live, base, brk, sbrk.value, nu)
                && f < |ring| && ring[f] == freep && !NoneFits(mem, ring, nu)
    {
      hide *;
      ghost var big;
      r, big := Morecore(nu, sbrk);
      f := 0;
      if r.Got? {
        ObtainedIs(old(owner), owner, live, base, brk, sbrk.value, nu);
        Parts();
        f :| f < |ring| && ring[f] == freep;
        SearchAgain(mem, ring, big, nu);
      }
    }

    /** malloc's loop: find a large enough block after freep, growing the heap once if there is none. */
    method Search(nunits: int, sbrk: Option<int>) returns (found: Grant, prevp: int, p: int, ghost i: nat, ghost grew: bool)
      requires Sound() && freep != 0 && 1 <= nunits <= UINT_RANGE / HEADER_BYTES
      requires sbrk.Some? ==> SbrkOk(sbrk.value, SbrkArgument(RequestUnits(nunits))) && base < sbrk.value && Below(owner, sbrk.value)
      modifies this
      ensures Sound() && freep != 0 && live == old(live) && SameSizes(live, old(blocks), blocks)
      ensures grew <==> !Fits(old(blocks), old(live), nunits)
      ensures found.NoMemory? <==> grew && sbrk.None?
      ensures found.Trap? <==> grew && sbrk.Some? && !Reaches(SizeAfter(sbrk.value, SbrkArgument(RequestUnits(nunits))), sbrk.value)
      ensures !found.Got? || !grew ==> owner == old(owner) && blocks == old(blocks) && (found.Trap? || brk == old(brk))
      ensures found.Got? && grew ==> Obtained(old(owner), owner, live, base, brk, sbrk.value, nunits)
      ensures found.Got? ==>
                && found.p == p && 1 <= i < |ring| && ring[i] == p && ring[i - 1] == prevp
                && prevp in mem && p in mem && mem[p].size >= nunits && NextFit(mem, ring, freep, nunits, i)
      ensures !grew ==> mem == old(mem) && ring == old(ring) && freep == old(freep)
    {
      hide *;
      grew := false;
      Parts();
      SearchStart(mem, base, ring, live, blocks, owner, freep, nunits);
      SameSizesRefl(live, blocks);
      ghost var f: nat :| f < |ring| && ring[f] == freep;
      i := if f + 1 < |ring| then f + 1 else 0;
      PosBound(i, f, |ring|);
      PrevNext(f, |ring|);
      prevp, p := freep, mem[freep].ptr;
      while true
        invariant Sound() && freep != 0 && live == old(live) && SameSizes(live, old(blocks), blocks)
        invariant f < |ring| && ring[f] == freep && i < |ring| && ring[i] == p
        invariant 0 <= PrevPos(i, |ring|) < |ring| && prevp == ring[PrevPos(i, |ring|)]
        invariant Passed(mem, ring, f, i, nunits) && Pos(i, f, |ring|) <= Pos(f, f, |ring|)
        invariant !grew ==> owner == old(owner) && blocks == old(blocks) && brk == old(brk)
        invariant !grew ==> mem == old(mem) && ring == old(ring) && freep == old(freep)
        invariant grew ==> !Fits(old(blocks), old(live), nunits) && !NoneFits(mem, ring, nunits)
        invariant grew ==> sbrk.Some? && Reaches(SizeAfter(sbrk.value, SbrkArgument(RequestUnits(nunits))), sbrk.value)
        invariant grew ==> Obtained(old(owner), owner, live, base, brk, sbrk.value, nunits)
        decreases if grew then 0 else 1, Pos(f, f, |ring|) - Pos(i, f, |ring|)
      {
        Parts();
        SearchFacts(mem, base, ring, live, blocks, owner, f, i, nunits);
        PrevNext(i, |ring|);
        if mem[p].size >= nunits {
          NextFitIs(mem, ring, f, i, nunits);
          found := Got(p);
          return;
        }
        if p == freep {
          assert !grew;
          var np;
          np, f := Regrow(nunits, sbrk);
          grew := true;
          if !np.Got? {
            found := np;
            return;
          }
          p := np.p;
          i := f;
          Parts();
        }
        RingNode(mem, base, ring, live, blocks, owner, i);
        SearchNext(mem, base, ring, live, blocks, owner, f, i, nunits);
        PrevNext(i, |ring|);
        prevp := p;
        p := mem[p].ptr;
        i := if i + 1 < |ring| then i + 1 else 0;
      }
    }

    /** malloc from its loop on: search, and take the block found. */
    method Allocate(nunits: int, sbrk: Option<int>) returns (r: Grant, ghost grew: bool)
      requires Sound() && freep != 0 && 1 <= nunits <= UINT_RANGE / HEADER_BYTES
      requires sbrk.Some? ==> SbrkOk(sbrk.value, SbrkArgument(RequestUnits(nunits))) && base < sbrk.value && Below(owner, sbrk.value)
      modifies this
      ensures Sound() && freep != 0
      ensures grew <==> !Fits(old(blocks), old(live), nunits)
      ensures r.NoMemory? <==> grew && sbrk.None?
      ensures r.Trap? <==> grew && sbrk.Some? && !Reaches(SizeAfter(sbrk.value, SbrkArgument(RequestUnits(nunits))), sbrk.value)
      ensures !r.Got? ==> live == old(live) && owner == old(owner) && blocks == old(blocks) && (r.Trap? || brk == old(brk))
      ensures r.Got? ==>
                var q: int := r.p - 1;
                var more := if grew then Region(sbrk.value, RequestUnits(nunits)).Keys else {};
                && base < q && q !in old(live) && live == old(live) + {q}
                && q in blocks && blocks[q] == nunits && SameSizes(old(live), old(blocks), blocks)
                && owner.Keys == old(owner.Keys) + more
                && FreeSet(owner, live) == old(FreeSet(owner, live)) + more - UnitsOf(owner, q)
                && brk == (if grew then SizeAfter(sbrk.value, SbrkArgument(RequestUnits(nunits))) else old(brk))
                && (BackedBy(owner, base, brk) <==> if grew then nunits < 0x1000_0000 else old(BackedBy(owner, base, brk)))
      ensures !grew ==> r.Got? && TakesNext(old(mem), old(ring), old(freep), nunits, r.p - 1, freep)
    {
      hide *;
      var found, prevp, p;
      ghost var i;
      found, prevp, p, i, grew := Search(nunits, sbrk);
      if !found.Got? {
        return found, grew;
      }
      ghost var before := blocks;
      TakesNextIs(mem, ring, freep, nunits, i);
      if grew {
        ObtainedIs(old(owner), owner, live, base, brk, sbrk.value, nunits);
        GrewByUnits(old(owner), owner, live, Region(sbrk.value, RequestUnits(nunits)).Keys);
      }
      var b := Take(prevp, p, nunits, i);
      SameSizesTrans(old(live), old(blocks), before, blocks);
      r := Got(b + 1);
    }

    /** malloc, next fit. `grew` tells whether sbrk had to be called. On a heap of memory the process has, the block it returns
        is usable exactly up to 2^31 - 16 bytes, and the heap stays one exactly unless it had to ask for 2^28
        units or more. */
    method Malloc(nbytes: Uint, sbrk: Option<int>) returns (r: Grant, ghost grew: bool)
      requires Sound()
      requires sbrk.Some? ==> SbrkOk(sbrk.value, Asked(nbytes)) && base < sbrk.value && Below(owner, sbrk.value)
      modifies this
      ensures Sound() && freep != 0
      ensures grew <==> !Fits(old(blocks), old(live), UnitsFor(nbytes))
      ensures r.NoMemory? <==> grew && sbrk.None?
      ensures r.Trap? <==> grew && sbrk.Some? && !Reaches(SizeAfter(sbrk.value, Asked(nbytes)), sbrk.value)
      ensures !r.Got? ==> live == old(live) && owner == old(owner) && blocks == old(blocks) && (r.Trap? || brk == old(brk))
      ensures r.Got? ==>
                var q: int := r.p - 1;
                var more := if grew then Region(sbrk.value, RequestUnits(UnitsFor(nbytes))).Keys else {};
                && base < q && q !in old(live) && live == old(live) + {q}
                && q in blocks && blocks[q] == UnitsFor(nbytes) && SameSizes(old(live), old(blocks), blocks)
                && owner.Keys == old(owner.Keys) + more
                && FreeSet(owner, live) == old(FreeSet(owner, live)) + more - UnitsOf(owner, q)
                && brk == if grew then SizeAfter(sbrk.value, Asked(nbytes)) else old(brk)
      ensures old(BackedBy(owner, base, brk)) && r.Got? ==>
                && (BackedBy(owner, base, brk) <==> !grew || UnitsFor(nbytes) < 0x1000_0000)
                && (Usable(r.p - 1, UnitsFor(nbytes), brk, nbytes) <==> nbytes <= 0x8000_0000 - 16)
      ensures UnitsFor(nbytes) < 0x1000_0000 ==> !r.Trap?
      ensures !grew ==> r.Got? && TakesNext(old(mem), old(ring), old(freep), UnitsFor(nbytes), r.p - 1, freep)
    {
      hide *;
      var nunits := UnitsFor(nbytes);
      AskedIs(nbytes);
      JoinedIff(nbytes);
      Parts();
      if freep == 0 {
        mem := mem[base := Header(base, 0)];
        freep := base;
        ring := [base];
        BaseShape(mem, base);
        Whole();
        FitsNone(nunits);
      }
      if BackedBy(owner, base, brk) && Fits(blocks, live, nunits) {
        BackedFits(nunits);
      }
      if sbrk.Some? {
        SbrkObtainsIff(nunits, sbrk.value);
      }
      r, grew := Allocate(nunits, sbrk);
      if r.Got? && old(BackedBy(owner, base, brk)) {
        if grew {
          SbrkSize(sbrk.value, Asked(nbytes));
        }
        Partitioned();
        UsableIff(blocks, owner, base, brk, r.p - 1, nbytes);
      }
    }

    lemma Partitioned()
      requires Sound() && freep != 0
      ensures Partition(blocks, owner) && 0 < base
    {
    }
  }

  lemma OvercommitArgument(brk: int)
    requires 0 < brk && HEADER_BYTES * brk < KERNBASE
    ensures UnitsFor(0x8000_0000 - 15) == 0x1000_0000 && SbrkOk(brk, Asked(0x8000_0000 - 15))
    ensures SizeAfter(brk, Asked(0x8000_0000 - 15)) == brk && (Reaches(brk, brk) <==> brk % PAGE_UNITS != 0)
  {
  }

  /** The first request past the bound, with the process at `brk`: the process does not grow by a unit. If brk lies on
      a page boundary, as after exec, it traps; otherwise malloc hands out 2^28 units all the same, and the next sbrk
      would return an address inside that block. */
  method Overcommit(base: int, brk: int) returns (h: Heap, r: Grant)
    requires 0 < base < brk && HEADER_BYTES * brk < KERNBASE
    ensures fresh(h) && h.Sound() && (r.Trap? <==> brk % PAGE_UNITS == 0) && !r.NoMemory?
    ensures r.Got? ==>
              && r.p - 1 in h.live && r.p - 1 in h.blocks && h.blocks[r.p - 1] == 0x1000_0000 && h.brk == brk
              && !Below(h.owner, h.brk)
  {
    hide Shape, Below, UnitsFor, Asked, SizeAfter, SbrkOk, FreeSet, UnitsOf, SameSizes, Fits, Region, SbrkArgument;
    h := new Heap(base, brk);
    OvercommitArgument(brk);
    BackedRoom(h.owner, base, brk, brk);
    NothingFits();
    ghost var grew;
    r, grew := h.Malloc(0x8000_0000 - 15, Some(brk));
    if r.Got? {
      NotBacked(h.owner, base, brk);
    }
  }

  lemma NothingFits()
    ensures !Fits(map[], {}, UnitsFor(0x8000_0000 - 15))
  {
  }

  lemma NotBacked(owner: map<int, int>, base: int, brk: int)
    requires !BackedBy(owner, base, brk) && base < brk && HEADER_BYTES * brk < KERNBASE
    ensures !Below(owner, brk)
  {
  }
}
