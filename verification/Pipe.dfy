/**
 The pipe of Offline 3/xv6/pipe.c: a ring of bytes with 32-bit counters that wrap around.

 Each method runs from taking p->lock to releasing it or going to sleep, so the calls of any number of
 readers and writers interleave as sequences of these methods. The ghost `written` and `taken` are all
 bytes ever written and read; `readers` and `writers` count the processes asleep on &p->nread and
 &p->nwrite.
 */
module Pipe {
  const PIPESIZE := 512
  const UINT_RANGE := 0x1_0000_0000

  /** A writer has written everything, sleeps, or gets -1; a reader has its bytes, sleeps, or gets -1. */
  datatype Outcome = Done | Slept | Failed

  /** Counters and ring agree with the histories. */
  ghost predicate RingOk(data: seq<int>, nread: int, nwrite: int, taken: seq<int>, written: seq<int>) {
    && |data| == PIPESIZE
    && nread == |taken| % UINT_RANGE && nwrite == |written| % UINT_RANGE
    && |taken| <= |written| <= |taken| + PIPESIZE
    && taken == written[..|taken|]
    && forall k :: |taken| <= k < |written| ==> data[k % PIPESIZE] == written[k]
  }

  /** Wrapped around or not, the counters tell full and empty, and index the ring. */
  lemma Counters(data: seq<int>, nread: int, nwrite: int, taken: seq<int>, written: seq<int>)
    requires RingOk(data, nread, nwrite, taken, written)
    ensures nwrite == (nread + PIPESIZE) % UINT_RANGE <==> |written| == |taken| + PIPESIZE
    ensures nread == nwrite <==> |written| == |taken|
    ensures nwrite % PIPESIZE == |written| % PIPESIZE && nread % PIPESIZE == |taken| % PIPESIZE
  {
    var a, b := |taken| / UINT_RANGE, |written| / UINT_RANGE;
    assert |taken| == a * UINT_RANGE + nread && |written| == b * UINT_RANGE + nwrite;
    assert UINT_RANGE == 8388608 * PIPESIZE;
    Wrapped(nread, a);
    Wrapped(nwrite, b);
  }

  lemma Wrapped(n: int, a: int)
    requires n >= 0 && a >= 0
    ensures n % PIPESIZE == (a * UINT_RANGE + n) % PIPESIZE
  {
    assert a * UINT_RANGE + n == (a * 8388608) * 512 + n;
  }

  /** Storing a byte when there is room. */
  lemma PutByte(data: seq<int>, nread: int, nwrite: int, taken: seq<int>, written: seq<int>, x: int)
    requires RingOk(data, nread, nwrite, taken, written) && |written| < |taken| + PIPESIZE
    ensures RingOk(data[nwrite % PIPESIZE := x], nread, (nwrite + 1) % UINT_RANGE, taken, written + [x])
  {
    Counters(data, nread, nwrite, taken, written);
    Successor(|written|);
    var w := |written|;
    forall k | |taken| <= k < w
      ensures k % PIPESIZE != w % PIPESIZE
    {
      Apart(k, w);
    }
  }

  lemma Successor(n: int)
    requires n >= 0
    ensures (n % UINT_RANGE + 1) % UINT_RANGE == (n + 1) % UINT_RANGE
  {
  }

  lemma Apart(k: int, w: int)
    requires 0 <= k < w < k + PIPESIZE
    ensures k % PIPESIZE != w % PIPESIZE
  {
    var a, b := k / PIPESIZE, w / PIPESIZE;
    assert k == a * PIPESIZE + k % PIPESIZE && w == b * PIPESIZE + w % PIPESIZE;
  }

  /** Taking a byte when there is one. */
  lemma TakeByte(data: seq<int>, nread: int, nwrite: int, taken: seq<int>, written: seq<int>)
    requires RingOk(data, nread, nwrite, taken, written) && |taken| < |written|
    ensures data[nread % PIPESIZE] == written[|taken|]
    ensures RingOk(data, (nread + 1) % UINT_RANGE, nwrite, taken + [data[nread % PIPESIZE]], written)
  {
    Counters(data, nread, nwrite, taken, written);
    Successor(|taken|);
  }

  class Pipe {
    const data: array<int>
    var nread: int
    var nwrite: int
    var readopen: bool
    var writeopen: bool
    ghost var taken: seq<int>
    ghost var written: seq<int>
    ghost var readers: int
    ghost var writers: int

    /** The ring is sound, and writers sleep only on a full pipe that may still be read. */
    ghost predicate Sound()
      reads this, data
    {
      && RingOk(data[..], nread, nwrite, taken, written) && readers >= 0 && writers >= 0
      && (writers > 0 ==> |written| == |taken| + PIPESIZE && readopen)
    }

    /** Readers sleep only on an empty pipe that may still be written. */
    ghost predicate ReadersAwake()
      reads this
    {
      readers > 0 ==> |written| == |taken| && writeopen
    }

    /** The bytes in the pipe: what was written is what was read followed by these. */
    ghost function Buffered(): (b: seq<int>)
      reads this, data
      requires Sound()
      ensures written == taken + b && |b| <= PIPESIZE
    {
      written[|taken|..]
    }

    constructor ()
      ensures Sound() && ReadersAwake() && taken == written == [] && readopen && writeopen && fresh(data)
      ensures readers == writers == 0
    {
      data := new int[PIPESIZE];
      nread, nwrite, readopen, writeopen := 0, 0, true, true;
      taken, written, readers, writers := [], [], 0, 0;
    }

    /** pipewrite from byte `i0` on: it is done if the rest fits; otherwise it fills the pipe and fails if nobody
        can read or the writer was killed, else sleeps. Failing, it does not wake the readers: one that was
        asleep stays so beside a full pipe. Any other outcome wakes them all. */
    method Write(addr: seq<int>, i0: int, killed: bool) returns (i: int, r: Outcome)
      requires Sound() && 0 <= i0 <= |addr|
      modifies this`nwrite, this`written, this`readers, this`writers, data
      ensures Sound()
      ensures i == if |addr| - i0 <= PIPESIZE - |old(Buffered())| then |addr| else i0 + PIPESIZE - |old(Buffered())|
      ensures i0 <= i <= |addr| && Buffered() == old(Buffered()) + addr[i0..i] && written == old(written) + addr[i0..i]
      ensures r.Done? <==> |addr| - i0 <= PIPESIZE - |old(Buffered())|
      ensures r.Failed? <==> |addr| - i0 > PIPESIZE - |old(Buffered())| && (!readopen || killed)
      ensures readers == if r.Failed? then old(readers) else 0
      ensures writers == if r.Slept? then old(writers) + 1 else old(writers)
      ensures ReadersAwake() <==> !(old(readers) > 0 && |addr| - i0 > PIPESIZE - |old(Buffered())| && (!readopen || killed))
      ensures old(ReadersAwake()) ==>
                (ReadersAwake() <==> !(old(readers) > 0 && |addr| - i0 > PIPESIZE && (!readopen || killed)))
    {
      hide RingOk;
      i := i0;
      Lengths(data[..], nread, nwrite, taken, written);
      while i < |addr|
        invariant i0 <= i <= |addr| && written == old(written) + addr[i0..i]
        invariant RingOk(data[..], nread, nwrite, taken, written)
        invariant readers == old(readers) && writers == old(writers)
        invariant |taken| <= |written| <= |taken| + PIPESIZE
        invariant writers > 0 ==> |written| == |taken| + PIPESIZE && readopen
      {
        Counters(data[..], nread, nwrite, taken, written);
        Lengths(data[..], nread, nwrite, taken, written);
        if nwrite == (nread + PIPESIZE) % UINT_RANGE {
          if !readopen || killed {
            return i, Failed;
          }
          readers := 0;
          writers := writers + 1;
          return i, Slept;
        }
        ghost var ring := data[..];
        PutByte(ring, nread, nwrite, taken, written, addr[i]);
        data[nwrite % PIPESIZE] := addr[i];
        assert data[..] == ring[nwrite % PIPESIZE := addr[i]];
        nwrite := (nwrite + 1) % UINT_RANGE;
        written := written + [addr[i]];
        i := i + 1;
      }
      readers := 0;
      r := Done;
    }

    /** piperead: as many bytes as there are and are asked for, in order. It sleeps on an empty pipe that may
        still be written, and so returns no byte only at the end of the stream. */
    method Read(n: int, killed: bool) returns (r: Outcome, addr: seq<int>)
      requires Sound()
      modifies this`nread, this`taken, this`readers, this`writers
      ensures Sound() && (old(ReadersAwake()) ==> ReadersAwake()) && taken == old(taken) + addr
      ensures r.Done? ==> |addr| == (if n < 0 then 0 else if n < |old(Buffered())| then n else |old(Buffered())|)
      ensures r.Done? ==> addr == old(Buffered())[..|addr|] && writers == 0
      ensures r.Done? && n > 0 && addr == [] ==> Buffered() == [] && !writeopen
      ensures r.Slept? <==> old(Buffered()) == [] && writeopen && !killed
      ensures r.Failed? <==> old(Buffered()) == [] && writeopen && killed
      ensures r.Slept? || r.Failed? ==> addr == [] && Buffered() == []
      ensures r.Slept? ==> readers == old(readers) + 1
    {
      hide RingOk;
      addr := [];
      Counters(data[..], nread, nwrite, taken, written);
      Lengths(data[..], nread, nwrite, taken, written);
      if nread == nwrite && writeopen {
        if killed {
          return Failed, [];
        }
        readers := readers + 1;
        return Slept, [];
      }
      var i := 0;
      while i < n
        invariant 0 <= i == |addr| && (if n < 0 then i == 0 else i <= n) && taken == old(taken) + addr
        invariant RingOk(data[..], nread, nwrite, taken, written) && |taken| <= |written|
        invariant addr == written[|old(taken)|..|old(taken)| + i]
        invariant readers == old(readers) && writers == old(writers)
        decreases n - i
      {
        Counters(data[..], nread, nwrite, taken, written);
        if nread == nwrite {
          break;
        }
        TakeByte(data[..], nread, nwrite, taken, written);
        addr := addr + [data[nread % PIPESIZE]];
        taken := taken + [data[nread % PIPESIZE]];
        nread := (nread + 1) % UINT_RANGE;
        i := i + 1;
        Lengths(data[..], nread, nwrite, taken, written);
      }
      writers := 0;
      r := Done;
    }

    /** kill makes a sleeping reader or writer runnable again; it then calls Read or Write once more, killed. */
    method Kill(reader: bool)
      requires Sound() && (if reader then readers > 0 else writers > 0)
      modifies this`readers, this`writers
      ensures Sound() && (old(ReadersAwake()) ==> ReadersAwake())
      ensures readers == old(readers) - (if reader then 1 else 0) && writers == old(writers) - (if reader then 0 else 1)
    {
      if reader {
        readers := readers - 1;
      } else {
        writers := writers - 1;
      }
    }

    /** pipeclose: the other side is woken; the pipe is freed when both ends are closed. */
    method Close(writable: bool) returns (freed: bool)
      requires Sound()
      modifies this`readopen, this`writeopen, this`readers, this`writers
      ensures Sound() && (old(ReadersAwake()) ==> ReadersAwake())
      ensures readopen == (old(readopen) && writable) && writeopen == (old(writeopen) && !writable)
      ensures if writable then readers == 0 && writers == old(writers) else writers == 0 && readers == old(readers)
      ensures freed <==> !readopen && !writeopen
    {
      if writable {
        writeopen := false;
        readers := 0;
      } else {
        readopen := false;
        writers := 0;
      }
      freed := !readopen && !writeopen;
    }
  }

  /** Such a pipe: one reader asleep, then a killed writer with a byte more than fits. The reader is not woken and
      sleeps beside a full pipe. */
  method KilledWriter(addr: seq<int>) returns (p: Pipe)
    requires |addr| == PIPESIZE + 1
    ensures fresh(p) && p.Sound() && p.readers == 1 && !p.ReadersAwake() && p.Buffered() == addr[..PIPESIZE]
  {
    p := new Pipe();
    var r, bytes := p.Read(1, false);
    var i;
    i, r := p.Write(addr, 0, true);
  }

  lemma Lengths(data: seq<int>, nread: int, nwrite: int, taken: seq<int>, written: seq<int>)
    requires RingOk(data, nread, nwrite, taken, written)
    ensures |data| == PIPESIZE && |taken| <= |written| <= |taken| + PIPESIZE && taken == written[..|taken|]
    ensures 0 <= nread && 0 <= nwrite
  {
  }
}
