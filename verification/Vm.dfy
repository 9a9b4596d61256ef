/**
 The virtual-memory operations of Offline 3/xv6/vm.c over the frames of kalloc.c.

 Frames are named by number, page-table entries are 32-bit words inside frames, and `lo` is the first
 frame above the kernel. None stands for the source's null pointers; Remap, Panicked and NotMapped are
 its panics.
 */
module Vm {
  import opened Wrappers
  import opened Blocks
  import opened PageTable
  import opened Kalloc
  import opened VmState

  class Vm {
    const lo: int
    const data: int
    var mem: seq<Block>
    var freelist: int
    ghost var free: seq<int>
    ghost var use: map<int, Use>

    ghost predicate Valid()
      reads this
    {
      VmOk(mem, freelist, free, use, lo)
    }

    /** Before kinit every frame is in use and none is free. */
    constructor (lo: int, data: int, mem: seq<Block>)
      requires 0 < lo <= NFRAMES && Shaped(mem)
      ensures Valid() && this.lo == lo && this.data == data && this.mem == mem && free == []
      ensures forall f :: lo <= f < NFRAMES <==> f in use
      ensures forall f :: f in use ==> use[f].Loose?
    {
      this.lo, this.data, this.mem := lo, data, mem;
      freelist, free := 0, [];
      use := AllLoose(lo, NFRAMES);
    }

    /** kinit1 and kinit2: freerange frees each whole frame of the range once, the last one on top. */
    method Freerange(vstart: int, vend: int)
      requires Valid() && Kva(lo) <= vstart <= vend <= Kva(NFRAMES)
      requires forall f :: PageUp(vstart) <= f + KERNBASE / PGSIZE < vend / PGSIZE ==> f in use && use[f].Loose?
      modifies `mem, `freelist, `free, `use
      ensures Valid() && |mem| == |old(mem)| && LooksKept(old(mem), old(use), mem)
      ensures Released(old(use), use, PageUp(vstart) - KERNBASE / PGSIZE, vend / PGSIZE - KERNBASE / PGSIZE)
    {
      hide VmOk, Lookup, LooksKept, DataKept;
      ghost var first := PageUp(vstart) - KERNBASE / PGSIZE;
      DataRefl(mem, use);
      var p := PageUp(vstart) * PGSIZE;
      ghost var n := first;
      while p + PGSIZE <= vend
        invariant first <= n && p == Kva(n) && Valid() && |mem| == |old(mem)| && (n == first || p <= vend)
        invariant Released(old(use), use, first, n) && LooksKept(old(mem), old(use), mem)
        invariant forall e :: IsDir(old(use), e) ==> IsDir(use, e)
        decreases vend - p
      {
        var f := (p - KERNBASE) / PGSIZE;
        ReleasedNext(old(use), use, first, n);
        ghost var mem1, use1 := mem, use;
        KfreeLoose(f);
        LooksTrans(old(mem), old(use), mem1, use1, mem);
        p := p + PGSIZE;
        n := n + 1;
      }
    }

    /** kalloc: the first free frame; None exactly when no frame is free. */
    method Kalloc() returns (r: Option<int>)
      requires Valid()
      modifies `freelist, `free, `use
      ensures Valid() && |mem| == NFRAMES && (r.None? <==> old(free) == [])
      ensures r.None? ==> unchanged(this)
      ensures r.Some? ==>
                && r.value == old(free)[0] && lo <= r.value < NFRAMES && 0 < r.value && r.value !in old(use)
                && free == old(free)[1..] && use == old(use)[r.value := Loose]
    {
      hide Tables, Chain;
      KallocOk(mem, freelist, free, use, lo);
      var r0 := freelist;
      if r0 == 0 {
        return None;
      }
      var f := (r0 - KERNBASE) / PGSIZE;
      free, use := free[1..], use[f := Loose];
      freelist := At(mem, f, 0);
      r := Some(f);
    }

    /** kfree: the frame is filled with junk and pushed on the free list. */
    method Kfree(f: int)
      requires Frames(mem, freelist, free, use, lo) && f in use
      modifies `mem, `freelist, `free, `use
      ensures Frames(mem, freelist, free, use, lo)
      ensures lo <= f < |old(mem)| == |mem| == NFRAMES && 0 <= old(freelist) < UINT_RANGE
      ensures mem == old(mem)[f := Junk(old(freelist))] && freelist == Kva(f)
      ensures free == [f] + old(free) && use == old(use) - {f}
    {
      hide Tables, Chain, Shaped, Word, SetWord;
      KfreeFrames(mem, freelist, free, use, lo, f);
      var v := Kva(f);
      if v % PGSIZE != 0 || v < Kva(lo) || v - KERNBASE >= NFRAMES * PGSIZE {
        assert false;
      }
      mem := mem[f := Junk(freelist)];
      freelist := v;
      free, use := [f] + free, use - {f};
    }

    /** kfree of a frame no page table refers to. */
    method KfreeLoose(f: int)
      requires Valid() && f in use && use[f].Loose?
      modifies `mem, `freelist, `free, `use
      ensures Valid() && |mem| == |old(mem)| && free == [f] + old(free) && use == old(use) - {f}
      ensures LooksKept(old(mem), old(use), mem) && DataKept(old(mem), use, mem)
      ensures forall g :: 0 <= g < |mem| && g != f ==> mem[g] == old(mem)[g]
    {
      hide Tables, Frames, WordsKept, LooksKept, Junk;
      FramesSize(mem, freelist, free, use, lo);
      KfreeFrames(mem, freelist, free, use, lo, f);
      KfreeOk(mem, freelist, free, use, lo, f, mem[f := Junk(freelist)]);
      Kfree(f);
      DataPut(old(mem), use, f, mem[f]);
    }

    /** walkpgdir: the page table that holds the entry of page `v`, hung in if `alloc` asks for it. */
    method Walkpgdir(d: int, v: int, alloc: bool) returns (t: Option<int>)
      requires Valid() && IsDir(use, d) && 0 <= v < VPNS
      modifies `mem, `freelist, `free, `use
      ensures Valid() && |mem| == |old(mem)| == NFRAMES
      ensures LooksKept(old(mem), old(use), mem) && DataKept(old(mem), old(use), mem) && TablesAdded(old(use), use, d)
      ensures t.Some? ==> Present(At(mem, d, v / NPT)) && FrameOf(At(mem, d, v / NPT)) == t.value
      ensures t.Some? ==> Pte(mem, d, v) == At(mem, t.value, v % NPT)
      ensures t.None? ==> unchanged(this) && !Present(At(mem, d, v / NPT)) && (alloc ==> free == [])
      ensures !alloc || Present(At(old(mem), d, v / NPT)) ==> unchanged(this)
      ensures SlotsAre(old(mem), mem, d, v, if t.Some? then 1 else 0)
      ensures t.Some? && !Present(At(old(mem), d, v / NPT)) ==>
                && t.value !in old(use) && use == old(use)[t.value := Table(d, v / NPT)]
                && At(mem, d, v / NPT) == Entry(t.value, PTE_W + PTE_U)
    {
      hide Tables, Chain, Word, SetWord, Lookup, ZEROPAGE, LooksKept, DataKept, At, SlotsAre;
      SlotsStart(mem, d, v);
      DataRefl(mem, use);
      FramesSize(mem, freelist, free, use, lo);
      var e := At(mem, d, v / NPT);
      if Present(e) {
        SlotsOne(mem, mem, d, v);
        return Some(FrameOf(e));
      }
      if !alloc {
        return None;
      }
      var pg := Kalloc();
      if pg.None? {
        return None;
      }
      var f := pg.value;
      ghost var mem0, use0 := mem, use;
      ZeroSize();
      WriteData(mem, freelist, free, use, lo, f, ZEROPAGE);
      DataPut(mem, old(use), f, ZEROPAGE);
      assert At(mem[f := ZEROPAGE], d, v / NPT) == e && SameSlots(mem, mem[f := ZEROPAGE], d) by {
        PutFrame(mem, f, ZEROPAGE);
      }
      mem := mem[f := ZEROPAGE];
      LooksTrans(mem0, old(use), mem0, use, mem);
      AttachOk(mem, freelist, free, use, lo, d, v / NPT, f);
      DataPut(mem, old(use), d, SetWord(mem[d], v / NPT, Entry(f, PTE_W + PTE_U)));
      ghost var mem1 := mem;
      mem := mem[d := SetWord(mem[d], v / NPT, Entry(f, PTE_W + PTE_U))];
      use := use[f := Table(d, v / NPT)];
      assert forall i :: i != v / NPT ==> At(mem, d, i) == At(mem1, d, i) && At(mem1, d, i) == At(mem0, d, i);
      SlotsOne(mem0, mem, d, v);
      LooksTrans(mem0, old(use), mem1, use0, mem);
      DataTrans(mem0, old(use), mem1, old(use), mem);
      t := Some(f);
    }

    /** mappages: maps the range, stopping early when memory runs out or at a page already mapped
        (the source's panic); `k` pages have been mapped. */
    method Mappages(d: int, va: int, size: int, pa: int, perm: int) returns (res: MapResult, ghost k: int)
      requires Valid() && IsDir(use, d) && 0 <= va && 0 < size && va + size <= UINT_RANGE
      requires 0 <= pa && pa % PGSIZE == 0 && 0 <= perm < PGSIZE
      requires pa / PGSIZE + (va + size - 1) / PGSIZE - va / PGSIZE < VPNS
      requires LooseRange(use, va / PGSIZE, (va + size - 1) / PGSIZE - va / PGSIZE + 1, pa / PGSIZE)
      modifies `mem, `freelist, `free, `use
      ensures Valid() && IsDir(use, d) && |mem| == |old(mem)| == NFRAMES
      ensures MapLook(old(mem), old(use), mem, d, va / PGSIZE, k, pa / PGSIZE, perm)
      ensures MapUse(old(use), use, d, va / PGSIZE, k, pa / PGSIZE) && DataKept(old(mem), old(use), mem)
      ensures SlotsAre(old(mem), mem, d, va / PGSIZE, k)
      ensures 0 <= k <= (va + size - 1) / PGSIZE - va / PGSIZE + 1
      ensures res.Done? <==> k == (va + size - 1) / PGSIZE - va / PGSIZE + 1
      ensures res.NoMemory? ==> free == []
      ensures res.Remap? ==> Lookup(old(mem), d, va / PGSIZE + k) != 0
    {
      hide VmOk, Lookup, LooksKept, DataKept, MapLook, MapUse, TablesAdded, LooseRange, Word, SetWord, At, IsDir, SlotsAre, SameSlots;
      ghost var first, n, f0 := va / PGSIZE, (va + size - 1) / PGSIZE - va / PGSIZE + 1, pa / PGSIZE;
      var a, last, p := va / PGSIZE * PGSIZE, (va + size - 1) / PGSIZE * PGSIZE, pa;
      k := 0;
      SlotsStart(mem, d, first);
      MapStart(mem, use, d, first, f0, perm);
      DataRefl(mem, use);
      VmSize(mem, freelist, free, use, lo);
      while true
        invariant 0 <= k < n && a == (first + k) * PGSIZE && p == (f0 + k) * PGSIZE
        invariant Valid() && IsDir(use, d) && |mem| == |old(mem)| == NFRAMES
        invariant MapLook(old(mem), old(use), mem, d, first, k, f0, perm) && MapUse(old(use), use, d, first, k, f0)
        invariant DataKept(old(mem), old(use), mem) && forall f :: IsData(old(use), f) ==> IsData(use, f)
        invariant SlotsAre(old(mem), mem, d, first, k)
        decreases n - k
      {
        ghost var mem1, use1 := mem, use;
        var t := Walkpgdir(d, a / PGSIZE, true);
        MapReady(old(mem), old(use), mem1, use1, mem, use, d, first, n, k, f0, perm);
        DataTrans(old(mem), old(use), mem1, use1, mem);
        SlotsNext(old(mem), mem1, mem, d, first, k, if t.Some? then 1 else 0);
        if t.None? {
          return NoMemory, k;
        }
        var e := At(mem, t.value, (a / PGSIZE) % NPT);
        LookupOf(mem, d, a / PGSIZE);
        if Present(e) {
          SlotsBack(old(mem), mem, d, first, k);
          return Remap, k;
        }
        StoreOk(mem, freelist, free, use, lo, d, a / PGSIZE, t.value, p / PGSIZE, perm);
        DataPut(mem, use, t.value, SetWord(mem[t.value], (a / PGSIZE) % NPT, Entry(p / PGSIZE, perm)));
        ghost var mem2, use2 := mem, use;
        mem := mem[t.value := SetWord(mem[t.value], (a / PGSIZE) % NPT, Entry(p / PGSIZE, perm))];
        use := Mapped(use, d, a / PGSIZE, p / PGSIZE);
        MapNext(old(mem), old(use), mem2, use2, mem, d, first, n, k, f0, perm);
        SlotsKept(old(mem), mem2, mem, d, first, k + 1);
        DataTrans(old(mem), old(use), mem2, use2, mem);
        k := k + 1;
        if a == last {
          return Done, k;
        }
        a := a + PGSIZE;
        p := p + PGSIZE;
      }
    }

    /** The `free page, then clear its entry` pair in deallocuvm's loop. */
    method FreePage(d: int, v: int, t: int)
      requires Valid() && IsDir(use, d) && 0 <= v < USER && Lookup(mem, d, v) != 0
      requires Present(At(mem, d, v / NPT)) && FrameOf(At(mem, d, v / NPT)) == t && Pte(mem, d, v) == At(mem, t, v % NPT)
      modifies `mem, `freelist, `free, `use
      ensures Valid() && |mem| == |old(mem)| && LookPut(old(mem), old(use), mem, d, v, 0)
      ensures
        var f := FrameOf(Lookup(old(mem), d, v));
        f in old(use) && old(use)[f] == Page(d, v) && use == old(use) - {f} && free == [f] + old(free)
      ensures DataKept(old(mem), use, mem)
    {
      hide Tables, Frames, LookPut, Lookup, At, Word, SetWord, Junk;
      FreePageOk(mem, freelist, free, use, lo, d, v, t);
      LookupOf(mem, d, v);
      var f := FrameOf(At(mem, t, v % NPT));
      Kfree(f);
      DataPut(old(mem), use, f, mem[f]);
      ghost var mem1 := mem;
      mem := mem[t := SetWord(mem[t], v % NPT, 0)];
      DataPut(mem1, use, t, mem[t]);
      DataTrans(old(mem), use, mem1, use, mem);
    }

    /** deallocuvm: every mapped page of the range is unmapped and its frame freed once, although
        whole empty directory slots are skipped. */
    method Deallocuvm(d: int, oldsz: int, newsz: int) returns (r: int)
      requires Valid() && IsDir(use, d) && 0 <= newsz && 0 <= oldsz <= KERNBASE
      modifies `mem, `freelist, `free, `use
      ensures Valid() && IsDir(use, d) && |mem| == |old(mem)|
      ensures r == if newsz >= oldsz then oldsz else newsz
      ensures newsz >= oldsz ==> unchanged(this)
      ensures Unmapped(old(mem), old(use), mem, d, PageUp(newsz), PageUp(oldsz))
      ensures use == old(use) - PagesIn(old(use), d, PageUp(newsz), PageUp(oldsz))
      ensures DataKept(old(mem), use, mem)
    {
      hide VmOk, Lookup, At, DataKept, Unmapped, PagesIn, IsDir, LookPut;
      ghost var first, last := PageUp(newsz), PageUp(oldsz);
      DataRefl(mem, use);
      UnmapStart(mem, use, d, first);
      if newsz >= oldsz {
        UnmapNone(mem, use, d, first, last);
        return oldsz;
      }
      var a := PageUp(newsz) * PGSIZE;
      ghost var c, p := first, first;
      while a < oldsz
        invariant a == p * PGSIZE && first <= c <= last && c == if p <= last then p else last
        invariant Valid() && IsDir(use, d) && |mem| == |old(mem)|
        invariant Unmapped(old(mem), old(use), mem, d, first, c) && use == old(use) - PagesIn(old(use), d, first, c)
        invariant DataKept(old(mem), use, mem)
        decreases oldsz - a
      {
        assert p == c < last <= USER;
        VmTables(old(mem), old(freelist), old(free), old(use), lo);
        VmTables(mem, freelist, free, use, lo);
        var v := a / PGSIZE;
        var t := Walkpgdir(d, v, false);
        if t.None? {
          NextDir(v, a, last);
          a := (a / (PGSIZE * NPT) + 1) * (PGSIZE * NPT) - PGSIZE;
          p := (v / NPT + 1) * NPT;
          ghost var c' := if (v / NPT + 1) * NPT <= last then (v / NPT + 1) * NPT else last;
          NoTable(mem, d, v, c, c');
          UnmapSkip(old(mem), old(use), mem, d, first, c, c');
          c := c';
        } else {
          LookupOf(mem, d, v);
          var e := At(mem, t.value, v % NPT);
          if Present(e) {
            ghost var mem1, use1 := mem, use;
            if FrameOf(e) == 0 {
              PageFrame(mem, freelist, free, use, lo, d, v);
              assert false;
            }
            FreePage(d, v, t.value);
            UnmapPage(old(mem), old(use), mem1, use1, mem, d, first, c, FrameOf(e));
            DataLess(old(mem), use1, mem1, use);
            DataTrans(old(mem), use, mem1, use, mem);
          } else {
            UnmapSkip(old(mem), old(use), mem, d, first, c, c + 1);
          }
          c, p := c + 1, p + 1;
        }
        DirsKept(old(use), d, first, c);
        a := a + PGSIZE;
      }
      r := newsz;
    }

    /** freevm: gives back every frame of the directory, each exactly once. */
    method Freevm(d: int)
      requires Valid() && IsDir(use, d)
      modifies `mem, `freelist, `free, `use
      ensures Valid() && |mem| == |old(mem)| && use == old(use) - Owned(old(use), d)
      ensures LooksKept(old(mem), use, mem) && DataKept(old(mem), use, mem)
    {
      hide VmOk, Lookup, At, DataKept, LooksKept, Unmapped, PagesIn, TablesBelow, Owned, Dismantled;
      var r := Deallocuvm(d, KERNBASE, 0);
      ghost var mem1, use1 := mem, use;
      VmTables(old(mem), old(freelist), old(free), old(use), lo);
      VmTables(mem, freelist, free, use, lo);
      NoPagesLeft(old(mem), old(use), use, d);
      DismantleOk(mem, freelist, free, use, lo, d);
      use := Dismantled(use, d);
      ghost var last := old(use) - Owned(old(use), d);
      OwnedKinds(old(use), use1, d);
      UnmappedOthers(old(mem), old(use), mem, d, 0, USER, last);
      DataLess(old(mem), use1, mem, last);
      DropStart(mem, use1, d);
      var i := 0;
      while i < NPT
        invariant 0 <= i <= NPT && Valid() && |mem| == |old(mem)| && 0 <= d < |mem| && mem[d] == mem1[d]
        invariant use == Dismantled(use1, d) - TablesBelow(use1, d, i)
        invariant LooksKept(old(mem), last, mem) && DataKept(old(mem), last, mem)
      {
        DropTable(mem1, use1, use, d, i);
        SameFrame(mem1, mem, d, i);
        LastIn(old(use), use1, use, d, i);
        LastIn(old(use), use1, Dismantled(use1, d) - TablesBelow(use1, d, i + 1), d, i + 1);
        var e := At(mem, d, i);
        if Present(e) {
          ghost var mem2, use2 := mem, use;
          KfreeLoose(FrameOf(e));
          LooksTrans(old(mem), last, mem2, use2, mem);
          DataTrans(old(mem), last, mem2, use, mem);
        }
        i := i + 1;
      }
      LastIn(old(use), use1, use, d, NPT);
      ghost var mem2, use2 := mem, use;
      KfreeLoose(d);
      LooksTrans(old(mem), last, mem2, use2, mem);
      DataTrans(old(mem), last, mem2, use, mem);
      AllDropped(old(mem), old(use), use1, d);
    }

    /** setupkvm: a new directory with just the kernel's mappings; None when memory runs out, with every
        frame given back. The panic of mappages is unreachable. */
    method Setupkvm() returns (r: Option<int>)
      requires Valid() && DataPlaced(data)
      modifies `mem, `freelist, `free, `use
      ensures Valid() && |mem| == |old(mem)| == NFRAMES
      ensures LooksKept(old(mem), old(use), mem) && DataKept(old(mem), old(use), mem)
      ensures r.None? ==> use == old(use) && |old(free)| <= 1 + (NPT - USER / NPT)
      ensures r.Some? ==>
                && r.value !in old(use) && IsDir(use, r.value) && TablesAdded(old(use)[r.value := Dir], use, r.value)
                && KernelMap(mem, r.value, data, 0) && KernelOnly(mem, r.value) && NoUserTables(mem, r.value)
    {
      hide VmOk, Lookup, At, DataKept, LooksKept, MapLook, MapUse, Kmaps, KmapSize, KernelEntry, KernelLooks, InKmap, TablesAdded, Grown, Owned, ZEROPAGE, LooseRange, DataPlaced, KernelOnly, KernelMap, SlotsAre, NoUserTables;
      VmSize(mem, freelist, free, use, lo);
      DataRefl(mem, use);
      var pg := Kalloc();
      if pg.None? {
        return None;
      }
      var d := pg.value;
      ghost var use0 := use;
      ZeroSize();
      WriteData(mem, freelist, free, use, lo, d, ZEROPAGE);
      DataPut(mem, old(use), d, ZEROPAGE);
      mem := mem[d := ZEROPAGE];
      NewDir(mem, freelist, free, use, lo, d, data);
      LooksTrans(old(mem), old(use), old(mem), use, mem);
      BlankTables(mem, d);
      use := use[d := Dir];
      assert use == old(use)[d := Dir];
      AddedRefl(use, d);
      var k := 0;
      while k < 4
        invariant 0 <= k <= 4 && Valid() && IsDir(use, d) && |mem| == |old(mem)| == NFRAMES
        invariant LooksKept(old(mem), old(use), mem) && DataKept(old(mem), old(use), mem)
        invariant TablesAdded(old(use)[d := Dir], use, d) && KernelLooks(mem, d, data, k) && NoUserTables(mem, d)
      {
        var m := Kmaps(data)[k];
        KmapRange(data, k);
        LooseKernel(use, m.virt / PGSIZE, (m.virt + KmapSize(m) - 1) / PGSIZE - m.virt / PGSIZE + 1, m.start / PGSIZE);
        ghost var mem1, use1 := mem, use;
        var res, n := Mappages(d, m.virt, KmapSize(m), m.start, m.perm);
        KernelUse(old(use)[d := Dir], use1, use, d, m.virt / PGSIZE, n, m.start / PGSIZE);
        KernelLook(old(mem), old(use), mem1, use1, mem, d, m.virt / PGSIZE, n, m.start / PGSIZE, m.perm);
        DataTrans(old(mem), old(use), mem1, use1, mem);
        KernelTables(mem1, mem, d, m.virt / PGSIZE, n);
        if res.Remap? {
          KernelNoRemap(mem1, d, data, k, m.virt / PGSIZE + n);
          KmapIn(m, m.virt / PGSIZE + n);
          assert false;
        } else if res.NoMemory? {
          ghost var mem2, use2 := mem, use;
          EnoughFrames(old(mem), old(freelist), old(free), old(use), mem, freelist, use, lo, d);
          VmTables(old(mem), old(freelist), old(free), old(use), lo);
          TablesGrown(old(use), use, d);
          GivenBack(old(mem), old(use), use, d);
          Freevm(d);
          LooksTrans(old(mem), old(use), mem2, use, mem);
          DataTrans(old(mem), old(use), mem2, use, mem);
          return None;
        } else {
          KernelNext(mem1, use1, mem, d, data, k, n);
        }
        k := k + 1;
      }
      KernelMapped(mem, d, data);
      KernelNotUser(mem, d, data);
      r := Some(d);
    }

    /** allocuvm: on success the pages between the sizes are new zeroed user pages in frames of their own;
        on failure none of them is mapped and only page tables have been added. */
    method Allocuvm(d: int, oldsz: int, newsz: int) returns (r: AllocResult)
      requires Valid() && IsDir(use, d) && 0 <= oldsz && 0 <= newsz
      modifies `mem, `freelist, `free, `use
      ensures Valid() && IsDir(use, d) && |mem| == |old(mem)|
      ensures newsz >= KERNBASE ==> r.Failed? && unchanged(this)
      ensures newsz < KERNBASE && newsz < oldsz ==> r == Grew(oldsz) && unchanged(this)
      ensures oldsz <= newsz && r.Grew? ==>
                && r.sz == newsz && DataKept(old(mem), old(use), mem)
                && Fresh(old(mem), old(use), mem, use, d, PageUp(oldsz), Zeroed(PageUp(newsz) - PageUp(oldsz)), {})
                && UserPages(mem, d, PageUp(oldsz), PageUp(newsz))
      ensures newsz < KERNBASE && r.Failed? ==>
                && Unmapped(old(mem), old(use), mem, d, PageUp(oldsz), PageUp(newsz))
                && TablesAdded(old(use) - PagesIn(old(use), d, PageUp(oldsz), PageUp(newsz)), use, d)
                && DataKept(old(mem), old(use) - PagesIn(old(use), d, PageUp(oldsz), PageUp(newsz)), mem)
      ensures r.Panicked? ==> exists v :: PageUp(oldsz) <= v < PageUp(newsz) && Lookup(old(mem), d, v) != 0
    {
      hide VmOk, Lookup, At, DataKept, LooksKept, MapLook, MapUse, TablesAdded, Unmapped, PagesIn, ZEROPAGE, LooseRange, Fresh, Zeroed, UserPages;
      if newsz >= KERNBASE {
        return Failed;
      }
      if newsz < oldsz {
        return Grew(oldsz);
      }
      ghost var first, last := PageUp(oldsz), PageUp(newsz);
      var a := PageUp(oldsz) * PGSIZE;
      ghost var n := 0;
      FreshStart(mem, use, d, first);
      ZeroedNone();
      DataRefl(mem, use);
      while a < newsz
        invariant 0 <= n && a == (first + n) * PGSIZE && first + n <= last
        invariant Valid() && IsDir(use, d) && |mem| == |old(mem)|
        invariant Fresh(old(mem), old(use), mem, use, d, first, Zeroed(n), {}) && DataKept(old(mem), old(use), mem)
        decreases newsz - a
      {
        ZeroedNext(n);
        ghost var mem1, use1 := mem, use;
        FreshDirs(old(mem), old(use), mem, use, d, first, Zeroed(n), {});
        var pg := Kalloc();
        if pg.None? {
          var sz := Deallocuvm(d, newsz, oldsz);
          FreshUndo(old(mem), old(use), mem1, use1, mem, d, first, last, Zeroed(n), {});
          DropNone(use);
          DataLess(old(mem), old(use), mem1, old(use) - PagesIn(old(use), d, first, last));
          DataTrans(old(mem), old(use) - PagesIn(old(use), d, first, last), mem1, use, mem);
          return Failed;
        }
        var f := pg.value;
        ghost var w := Want(PTE_W + PTE_U, ZEROPAGE);
        ZeroSize();
        AfterKalloc(old(use), use1, f);
        WriteData(mem, freelist, free, use, lo, f, ZEROPAGE);
        DataPut(mem, old(use), f, ZEROPAGE);
        mem := mem[f := ZEROPAGE];
        DataTrans(old(mem), old(use), mem1, old(use), mem);
        LooseOne(use, a / PGSIZE, f);
        ghost var mem2, use2 := mem, use;
        var res, k := Mappages(d, a, PGSIZE, f * PGSIZE, PTE_W + PTE_U);
        DataTrans(old(mem), old(use), mem2, use2, mem);
        if res.Remap? {
          RemapSeen(mem1, use1, mem2, use2, d, first + n);
          assert Lookup(old(mem), d, first + n) != 0;
          return Panicked;
        }
        if res.NoMemory? {
          FreshFail(old(mem), old(use), mem1, use1, mem, use, d, first, Zeroed(n), f, w);
          ghost var mem3, use3 := mem, use;
          var sz := Deallocuvm(d, newsz, oldsz);
          FreshUndo(old(mem), old(use), mem3, use3, mem, d, first, last, Zeroed(n), {f});
          ghost var mem4, use4 := mem, use;
          DataLess(old(mem), old(use), mem3, old(use) - PagesIn(old(use), d, first, last));
          DataTrans(old(mem), old(use) - PagesIn(old(use), d, first, last), mem3, use4, mem4);
          FreshDirs(old(mem), old(use), mem3, use3, d, first, Zeroed(n), {f});
          DirsKept(use3, d, first, last);
          StillLoose(use3, d, first, last, f);
          KfreeLoose(f);
          UnmappedThenKept(old(mem), old(use), mem4, use4, mem, d, first, last);
          DataTrans(old(mem), old(use) - PagesIn(old(use), d, first, last), mem4, use, mem);
          DropNoDir(use4, d, f);
          return Failed;
        }
        FreshStep(old(mem), old(use), mem1, use1, mem, use, d, first, Zeroed(n), f, w);
        a := a + PGSIZE;
        n := n + 1;
      }
      NewAreUser(old(mem), old(use), mem, use, d, first, n);
      r := Grew(newsz);
    }

    /** One turn of copyuvm's loop: a frame, a copy, a mapping; the frame goes back if it cannot be mapped. */
    method CopyOne(d: int, i: int, pa: int, flags: int, ghost mem0: seq<Block>, ghost use0: map<int, Use>,
                   ghost mem1: seq<Block>, ghost use1: map<int, Use>, ghost want: seq<Want>) returns (ok: bool)
      requires Valid() && IsDir(use1, d) && i == |want| * PGSIZE && 0 <= i < KERNBASE && 0 <= flags < PGSIZE
      requires 0 <= pa < |mem| && |mem[pa]| == PGSIZE && |mem0| == |mem|
      requires Fresh(mem1, use1, mem, use, d, 0, want, {}) && LooksKept(mem0, use0, mem) && DataKept(mem0, use0, mem)
      requires forall e :: IsDir(use0, e) ==> IsDir(use1, e) && e != d
      requires forall f :: IsData(use0, f) ==> IsData(use1, f)
      requires Lookup(mem1, d, |want|) == 0
      modifies `mem, `freelist, `free, `use
      ensures Valid() && |mem| == |old(mem)| && LooksKept(mem0, use0, mem) && DataKept(mem0, use0, mem)
      ensures Fresh(mem1, use1, mem, use, d, 0, if ok then want + [Want(flags, old(mem)[pa])] else want, {})
    {
      hide VmOk, Lookup, At, DataKept, LooksKept, MapLook, MapUse, TablesAdded, LooseRange, Fresh, Grown, Owned;
      ghost var w, n := Want(flags, mem[pa]), |want|;
      ghost var mem2, use2 := mem, use;
      FreshDirs(mem1, use1, mem, use, d, 0, want, {});
      var pg := Kalloc();
      if pg.None? {
        return false;
      }
      var f := pg.value;
      AfterKalloc(use0, use2, f);
      WriteData(mem, freelist, free, use, lo, f, mem[pa]);
      DataPut(mem, use0, f, mem[pa]);
      mem := mem[f := mem[pa]];
      LooksTrans(mem0, use0, mem2, use, mem);
      DataTrans(mem0, use0, mem2, use0, mem);
      LooseOne(use, i / PGSIZE, f);
      ghost var mem3, use3 := mem, use;
      var res, k := Mappages(d, i, PGSIZE, f * PGSIZE, flags);
      ChildMapped(mem0, use0, mem3, use3, mem, d, n, k, f, flags);
      DataTrans(mem0, use0, mem3, use3, mem);
      if res.Remap? {
        RemapSeen(mem2, use2, mem3, use3, d, n);
        assert false;
      } else if res.NoMemory? {
        FreshFail(mem1, use1, mem2, use2, mem, use, d, 0, want, f, w);
        ghost var mem4, use4 := mem, use;
        FreshDirs(mem1, use1, mem4, use4, d, 0, want, {f});
        KfreeLoose(f);
        FreshDrop(mem1, use1, mem4, use4, mem, d, 0, want, f);
        FreshDirs(mem1, use1, mem, use, d, 0, want, {});
        LooksTrans(mem0, use0, mem4, use4, mem);
        DataTrans(mem0, use0, mem4, use, mem);
        ok := false;
      } else {
        FreshStep(mem1, use1, mem2, use2, mem, use, d, 0, want, f, w);
        ok := true;
      }
    }

    /** copyuvm: a child directory with equal pages in frames of its own, or nothing at all. */
    method Copyuvm(d0: int, sz: int) returns (r: CopyResult)
      requires Valid() && IsDir(use, d0) && 0 <= sz <= KERNBASE && DataPlaced(data)
      modifies `mem, `freelist, `free, `use
      ensures Valid() && |mem| == |old(mem)|
      ensures LooksKept(old(mem), old(use), mem) && DataKept(old(mem), old(use), mem)
      ensures r.Copied? ==> IsCopy(old(mem), old(use), d0, mem, use, r.d, PageUp(sz), data)
      ensures r.NoSpace? ==> use == old(use)
      ensures r.NotMapped? ==> exists v :: 0 <= v < PageUp(sz) && Lookup(old(mem), d0, v) == 0
      ensures r.Copied? ==> forall v :: 0 <= v < PageUp(sz) ==> Lookup(old(mem), d0, v) != 0
    {
      hide VmOk, Lookup, At, DataKept, LooksKept, MapLook, MapUse, TablesAdded, LooseRange, Fresh, PagesOf, PageOf, Grown, Owned, KernelMap, IsCopy, Flags, DataPlaced;
      var ds := Setupkvm();
      if ds.None? {
        return NoSpace;
      }
      var d := ds.value;
      ghost var mem1, use1 := mem, use;
      VmTables(old(mem), old(freelist), old(free), old(use), lo);
      VmSize(old(mem), old(freelist), old(free), old(use), lo);
      ghost var n := 0;
      FreshStart(mem, use, d, 0);
      PagesOfNone(old(mem), d0);
      DataRefl(mem, use);
      AddedIn(old(use), use, d);
      var i := 0;
      while i < sz
        invariant 0 <= n <= PageUp(sz) && i == n * PGSIZE && Valid() && |mem| == |old(mem)|
        invariant Fresh(mem1, use1, mem, use, d, 0, PagesOf(old(mem), d0, n), {})
        invariant LooksKept(old(mem), old(use), mem) && DataKept(old(mem), old(use), mem)
        invariant forall v :: 0 <= v < n ==> Lookup(old(mem), d0, v) != 0
        invariant forall v :: 0 <= v < n ==> PageOf(old(mem), d0, v).perm % 2 == 1 && PageOf(old(mem), d0, v).perm >= 0
        decreases sz - i
      {
        PagesOfNext(old(mem), d0, n);
        ghost var want := PagesOf(old(mem), d0, n);
        FreshDirs(mem1, use1, mem, use, d, 0, want, {});
        VmSize(mem, freelist, free, use, lo);
        var t := Walkpgdir(d0, i / PGSIZE, false);
        LookIs(old(mem), old(use), mem, d0, n);
        LookupOf(mem, d0, n);
        if t.None? {
          NoTable(mem, d0, n, n, n + 1);
          return NotMapped;
        }
        var e := At(mem, t.value, (i / PGSIZE) % NPT);
        if !Present(e) {
          return NotMapped;
        }
        ParentPage(old(mem), old(use), mem, d0, n);
        PermOdd(old(mem), d0, n);
        var pa, flags := FrameOf(e), Flags(e);
        KernelIs(mem1, d, data, n);
        var ok := CopyOne(d, i, pa, flags, old(mem), old(use), mem1, use1, want);
        if !ok {
          CopyBad(d, mem1, use1, old(mem), old(use), old(freelist), old(free), want);
          return NoSpace;
        }
        i := i + PGSIZE;
        n := n + 1;
      }
      FreshDirs(mem1, use1, mem, use, d, 0, PagesOf(old(mem), d0, n), {});
      CopyDone(old(mem), old(use), d0, mem1, use1, mem, use, d, n, data);
      r := Copied(d);
    }

    /** copyuvm's `bad` exit: everything the child had goes back. */
    method CopyBad(d: int, ghost mem1: seq<Block>, ghost use1: map<int, Use>, ghost mem0: seq<Block>, ghost use0: map<int, Use>,
                   ghost head0: int, ghost free0: seq<int>, ghost want: seq<Want>)
      requires Valid() && d !in use0 && TablesAdded(use0[d := Dir], use1, d) && IsDir(use1, d) && |mem0| == |mem|
      requires Fresh(mem1, use1, mem, use, d, 0, want, {}) && VmOk(mem0, head0, free0, use0, lo)
      requires LooksKept(mem0, use0, mem) && DataKept(mem0, use0, mem)
      modifies `mem, `freelist, `free, `use
      ensures Valid() && use == use0 && |mem| == |old(mem)| && LooksKept(mem0, use0, mem) && DataKept(mem0, use0, mem)
    {
      hide VmOk, Lookup, DataKept, LooksKept, TablesAdded, Fresh, Grown, Owned;
      VmTables(mem0, head0, free0, use0, lo);
      FreshDirs(mem1, use1, mem, use, d, 0, want, {});
      FreshGrown(mem1, use0, use1, mem, use, d, want);
      GivenBack(mem0, use0, use, d);
      ghost var mem2, use2 := mem, use;
      Freevm(d);
      LooksTrans(mem0, use0, mem2, use, mem);
      DataTrans(mem0, use0, mem2, use, mem);
    }

    /** copyout: the bytes land at the given user addresses, page by page, and nowhere else. It stops at the
        first page that is not a user page, with every byte before that page written; if that page has no page
        table at all, uva2ka reads through a null pointer. */
    method Copyout(d: int, va0: int, src: seq<int>) returns (r: OutResult, k: int)
      requires Valid() && IsDir(use, d) && 0 <= va0 < UINT_RANGE && KernelOnly(mem, d)
      modifies `mem
      ensures Valid() && |mem| == |old(mem)| && LooksKept(old(mem), use, mem)
      ensures 0 <= k <= |src| && Poked(old(mem), use, mem, d, va0, src[..k])
      ensures r.Written? <==> k == |src|
      ensures r.Written? <==> src == [] || UserPages(old(mem), d, va0 / PGSIZE, (va0 + |src| - 1) / PGSIZE + 1)
      ensures r.Fault? <==> src != [] && NullRead(old(mem), d, va0 / PGSIZE, (va0 + |src| - 1) / PGSIZE)
      ensures k < |src| ==>
                && StopsAt(old(mem), d, va0 / PGSIZE, (va0 + |src| - 1) / PGSIZE, (va0 + k) / PGSIZE)
                && (k == 0 || (va0 + k) % PGSIZE == 0)
                && (r.Fault? <==> !HasTable(old(mem), d, (va0 + k) / PGSIZE))
    {
      hide VmOk, Lookup, At, LooksKept, Poked, Patch, UserBit, KernelOnly, UserPages, NullRead, SameSlots;
      PokeStart(mem, use, d, va0);
      var va, len := va0, |src|;
      ghost var first, last := va0 / PGSIZE, (va0 + |src| - 1) / PGSIZE;
      CopyStart(mem, d, first);
      k := 0;
      assert src[..0] == [];
      while len > 0
        invariant 0 <= k <= |src| && len == |src| - k && va == va0 + k && 0 <= va < UINT_RANGE
        invariant Valid() && |mem| == |old(mem)| && LooksKept(old(mem), use, mem) && SameSlots(old(mem), mem, d)
        invariant Poked(old(mem), use, mem, d, va0, src[..k])
        invariant k == 0 || len == 0 || va % PGSIZE == 0
        invariant UserPages(old(mem), d, first, if k == 0 then first else (va - 1) / PGSIZE + 1)
        decreases len
      {
        LookIs(old(mem), use, mem, d, va / PGSIZE);
        LookupOf(mem, d, va / PGSIZE);
        SlotIs(old(mem), mem, d, va / PGSIZE);
        NoUser();
        var t := Uva2pte(d, va / PGSIZE);
        if t.None? {
          NoTable(mem, d, va / PGSIZE, va / PGSIZE, va / PGSIZE + 1);
          StopIff(old(mem), d, first, last, va / PGSIZE);
          return Fault, k;
        }
        var e := At(mem, t.value, va / PGSIZE % NPT);
        if !Present(e) || !UserBit(e) {
          StopIff(old(mem), d, first, last, va / PGSIZE);
          return Refused, k;
        }
        UserBelow(old(mem), d, va / PGSIZE);
        UserPagesNext(old(mem), d, first, va / PGSIZE);
        var n := PGSIZE - va % PGSIZE;
        if n > len {
          n := len;
        }
        PokeStep(mem, freelist, free, use, lo, d, va, src[k..k + n]);
        ghost var mem1 := mem;
        mem := mem[FrameOf(e) := Patch(mem[FrameOf(e)], va % PGSIZE, src[k..k + n])];
        PokeNext(old(mem), use, mem1, mem, d, va0, src, k, n);
        LooksTrans(old(mem), use, mem1, use, mem);
        SlotsTrans(old(mem), mem1, mem, d);
        InPage(va, n);
        len := len - n;
        va := va + n;
        k := k + n;
      }
      if src != [] {
        NoStop(old(mem), d, first, last);
      }
      r := Written;
    }

    /** walkpgdir without allocation, as uva2ka calls it. */
    method Uva2pte(d: int, v: int) returns (t: Option<int>)
      requires Valid() && IsDir(use, d) && 0 <= v < VPNS
      ensures t.None? <==> !Present(At(mem, d, v / NPT))
      ensures t.Some? ==> Pte(mem, d, v) == At(mem, t.value, v % NPT)
    {
      hide VmOk, At;
      var e := At(mem, d, v / NPT);
      if Present(e) {
        return Some(FrameOf(e));
      }
      t := None;
    }
  }

  /** kinit, setupkvm, and copyout of any bytes to any user address before user memory has been mapped: the first page
      has no page table, and uva2ka reads through a null pointer. */
  method NullReadRun(lo: int, mem: seq<Block>, data: int, va: int, src: seq<int>) returns (r: OutResult, k: int)
    requires 0 < lo < NFRAMES - NPT && Shaped(mem) && DataPlaced(data) && 0 <= va < KERNBASE && src != []
    ensures r.Fault? && k == 0
  {
    hide VmOk, KernelOnly, NullRead, Lookup, Poked, Shaped, NoUserTables, LooksKept, DataKept, TablesAdded, KernelMap, StopsAt;
    var vm := new Vm(lo, data, mem);
    vm.Freerange(Kva(lo), Kva(NFRAMES));
    AllFree(vm.mem, vm.freelist, vm.free, vm.use, lo);
    var d := vm.Setupkvm();
    FreshFaults(vm.mem, d.value, va / PGSIZE, (va + |src| - 1) / PGSIZE);
    r, k := vm.Copyout(d.value, va, src);
    StopsAtOnce(va, k);
  }

  lemma AllFree(mem: seq<Block>, head: int, free: seq<int>, use: map<int, Use>, lo: int)
    requires VmOk(mem, head, free, use, lo) && forall f :: f !in use
    ensures |free| == NFRAMES - lo
  {
    FramesConserved(mem, head, free, use, lo);
    if use.Keys != {} {
      var f := Pick(use.Keys);
    }
  }
}
