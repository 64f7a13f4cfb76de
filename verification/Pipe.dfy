/** kernel/pipe.c: the bounded FIFO between readers and writers. Each method is what a process does
    between taking the pipe's lock and giving it up, be it to sleep or for good; any interleaving of
    such stretches, by any number of readers and writers, is a sequence of these calls. */
module Pipe {
  import opened Blocks

  const PIPESIZE := 512
  const TWO32 := 0x1_0000_0000

  /** How a stretch of pipewrite() ends: it returns, or goes to sleep on a full pipe with `i` bytes written. */
  datatype WriteEnd = Wrote(r: int) | Full(i: nat)

  /** How a stretch of piperead() ends: it returns, or goes to sleep on an empty pipe. */
  datatype ReadEnd = Read(r: int) | Empty

  /** Wrapped counters that are at most PIPESIZE apart tell empty from full, and find the right slot. */
  lemma Counters(taken: nat, put: nat)
    requires taken <= put <= taken + PIPESIZE
    ensures taken % TWO32 == put % TWO32 <==> taken == put
    ensures put % TWO32 == (taken % TWO32 + PIPESIZE) % TWO32 <==> put == taken + PIPESIZE
    ensures put % TWO32 % PIPESIZE == put % PIPESIZE && (put % TWO32 + 1) % TWO32 == (put + 1) % TWO32
  {
    var p, q := put / TWO32, taken / TWO32;
    assert put == TWO32 * p + put % TWO32 && taken == TWO32 * q + taken % TWO32;
    assert p == q || p == q + 1;
    CounterSlot(put);
  }

  lemma CounterSlot(n: nat)
    ensures n % TWO32 % PIPESIZE == n % PIPESIZE && (n % TWO32 + 1) % TWO32 == (n + 1) % TWO32
  {
    var p := n / TWO32;
    assert n == PIPESIZE * (0x80_0000 * p) + n % TWO32;
  }

  lemma SlotsDiffer(m: nat, n: nat)
    requires m < n < m + PIPESIZE
    ensures m % PIPESIZE != n % PIPESIZE
  {
  }

  class Pipe {
    const data: array<Byte>
    var nread: nat       // 32 bits
    var nwrite: nat      // 32 bits
    var readopen: bool
    var writeopen: bool
    ghost var put: seq<Byte>     // all bytes ever put in
    ghost var taken: seq<Byte>   // all bytes ever taken out

    /** What was taken out is a prefix of what was put in; the rest, at most PIPESIZE bytes, is in the ring. */
    ghost predicate Valid()
      reads this, data
    {
      && data.Length == PIPESIZE
      && |taken| <= |put| <= |taken| + PIPESIZE && taken == put[..|taken|]
      && nread == |taken| % TWO32 && nwrite == |put| % TWO32
      && forall k: nat {:trigger put[k]} | |taken| <= k < |put| :: data[k % PIPESIZE] == put[k]
    }

    constructor ()
      ensures Valid() && readopen && writeopen && put == taken == [] && fresh(data)
    {
      data := new Byte[PIPESIZE](i => 0);
      nread, nwrite, readopen, writeopen := 0, 0, true, true;
      put, taken := [], [];
    }

    /** Appends one byte to a pipe that is not full. */
    method PutByte(ch: Byte)
      requires Valid() && |put| < |taken| + PIPESIZE
      modifies this, data
      ensures Valid() && put == old(put) + [ch] && taken == old(taken) && readopen == old(readopen) &&
              writeopen == old(writeopen)
    {
      Counters(|taken|, |put|);
      ghost var slot := |put| % PIPESIZE;
      forall k: nat | |taken| <= k < |put|
        ensures k % PIPESIZE != slot
      {
        SlotsDiffer(k, |put|);
      }
      data[nwrite % PIPESIZE] := ch;
      nwrite := (nwrite + 1) % TWO32;
      put := put + [ch];
    }

    /** Removes the oldest byte of a pipe that is not empty. */
    method TakeByte() returns (ch: Byte)
      requires Valid() && |taken| < |put|
      modifies this
      ensures Valid() && ch == old(put)[|old(taken)|] && taken == old(taken) + [ch]
      ensures put == old(put) && readopen == old(readopen) && writeopen == old(writeopen)
    {
      Counters(|taken|, |taken|);
      ghost var k := |taken|;
      assert data[k % PIPESIZE] == put[k];
      ch := data[nread % PIPESIZE];
      nread := (nread + 1) % TWO32;
      assert put[..k + 1] == put[..k] + [put[k]];
      taken := taken + [ch];
    }

    /** pipewrite() of `src` from byte `i` on. The copy from user space fails at byte `readable`; the
        writer is seen to be killed from byte `killedAt` on. */
    method Write(src: seq<Byte>, i: nat, readable: nat, killedAt: nat) returns (end: WriteEnd, ghost m: nat)
      requires Valid() && i <= |src| && i <= readable
      modifies this, data
      ensures Valid() && taken == old(taken) && readopen == old(readopen) && writeopen == old(writeopen)
      ensures i <= m <= |src| && m <= readable && put == old(put) + src[i..m]
      ensures match end
              case Wrote(r) => if r == -1 then m < |src| && (!readopen || m >= killedAt)
                               else r == m && (m == |src| || m == readable)
              case Full(j) => j == m < |src| && |put| == |taken| + PIPESIZE && readopen && m < killedAt
    {
      m := i;
      var k := i;
      while k < |src|
        invariant Valid() && taken == old(taken) && readopen == old(readopen) && writeopen == old(writeopen)
        invariant i <= k == m <= |src| && m <= readable && put == old(put) + src[i..m]
      {
        if !readopen || k >= killedAt {
          return Wrote(-1), m;
        }
        Counters(|taken|, |put|);
        if nwrite == (nread + PIPESIZE) % TWO32 {
          return Full(k), m;
        }
        if k == readable {
          break;
        }
        PutByte(src[k]);
        k := k + 1;
        m := k;
      }
      return Wrote(k), m;
    }

    /** piperead() of up to `n` bytes. The copy to user space fails at byte `writable`. */
    method Read(n: nat, writable: nat, killed: bool) returns (end: ReadEnd, out: seq<Byte>)
      requires Valid()
      modifies this
      ensures Valid() && put == old(put) && readopen == old(readopen) && writeopen == old(writeopen)
      ensures end == Empty || end == ReadEnd.Read(-1) ==>
              taken == old(taken) == put && writeopen && (end == Empty <==> !killed)
      ensures end != Empty && end != ReadEnd.Read(-1) ==>
              end == ReadEnd.Read(|out|) && |out| <= n && |out| <= writable && old(taken) + out <= taken
      ensures end != Empty && end != ReadEnd.Read(-1) && n <= writable ==>
              taken == old(taken) + out && (|out| == n || taken == put)
      ensures end == ReadEnd.Read(0) && 0 < n <= writable ==> !writeopen && taken == put
    {
      out := [];
      Counters(|taken|, |put|);
      if nread == nwrite && writeopen {
        return if killed then ReadEnd.Read(-1) else Empty, out;
      }
      var i := 0;
      while i < n
        invariant Valid() && put == old(put) && readopen == old(readopen) && writeopen == old(writeopen)
        invariant 0 <= i == |out| <= n && i <= writable && taken == old(taken) + out
        invariant old(taken) == put && i == 0 ==> !writeopen
      {
        Counters(|taken|, |put|);
        if nread == nwrite {
          break;
        }
        var ch := TakeByte();
        if i == writable {
          break;
        }
        out := out + [ch];
        i := i + 1;
      }
      end := ReadEnd.Read(i);
    }

    /** Closes an end; the last close gives the pipe's memory back. */
    method Close(writable: bool) returns (freed: bool)
      requires Valid()
      modifies `readopen, `writeopen
      ensures Valid() && writeopen == (old(writeopen) && !writable) && readopen == (old(readopen) && writable)
      ensures freed <==> !readopen && !writeopen
    {
      if writable {
        writeopen := false;
      } else {
        readopen := false;
      }
      freed := !readopen && !writeopen;
    }
  }
}
