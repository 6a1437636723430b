/** The bounded buffer of kernel/pipe.c: a ring of bytes under two free-running 32-bit counters. */
module PipeBuffer {
  import opened Bytes
  import opened Ring

  const PIPESIZE := 512

  function Min(a: nat, b: nat): nat {
    if a < b then a else b
  }

  /** The test for a full pipe, made in 32-bit arithmetic. */
  lemma {:induction false} FullTest(nread: nat, nwrite: nat)
    requires nread < WRAP && nwrite < WRAP
    ensures nwrite == (nread + PIPESIZE) % WRAP <==> Count(nread, nwrite) == PIPESIZE
  {
  }

  class Pipe {
    var data: seq<byte>
    var nread: nat
    var nwrite: nat

    ghost predicate Valid()
      reads this
    {
      |data| == PIPESIZE && nread < WRAP && nwrite < WRAP && Count(nread, nwrite) <= PIPESIZE
    }

    ghost function Contents(): (r: seq<byte>)
      requires Valid()
      reads this
      ensures |r| <= PIPESIZE
    {
      Queued(data, nread, Count(nread, nwrite))
    }

    constructor (d: seq<byte>)
      requires |d| == PIPESIZE
      ensures Valid() && Contents() == []
    {
      data := d;
      nread := 0;
      nwrite := 0;
    }

    lemma Length()
      requires Valid()
      ensures |Contents()| == Count(nread, nwrite)
    {
    }

    /** One byte in: the body of pipewrite's loop. */
    method Put(b: byte)
      requires Valid() && |Contents()| < PIPESIZE
      modifies this
      ensures Valid() && Contents() == old(Contents()) + [b]
    {
      PutLast(data, nread, nwrite, b);
      data := data[nwrite % PIPESIZE := b];
      nwrite := Inc(nwrite);
    }

    /** One byte out: the body of piperead's loop. */
    method Get() returns (b: byte)
      requires Valid() && Contents() != []
      modifies this
      ensures Valid() && [b] + Contents() == old(Contents())
    {
      TakeFirst(data, nread, nwrite);
      b := data[nread % PIPESIZE];
      nread := Inc(nread);
    }

    /** The loop of pipewrite up to the point where the pipe is full or all is written. */
    method Fill(addr: seq<byte>) returns (i: nat)
      requires Valid()
      modifies this
      ensures Valid() && i <= |addr| && Contents() == old(Contents()) + addr[..i]
      ensures i == Min(|addr|, PIPESIZE - |old(Contents())|)
    {
      hide Pipe.Contents;
      i := 0;
      while i < |addr|
        invariant Valid() && i <= |addr| && Contents() == old(Contents()) + addr[..i]
      {
        FullTest(nread, nwrite);
        Length();
        if nwrite == (nread + PIPESIZE) % WRAP {
          return;
        }
        Put(addr[i]);
        assert addr[..i + 1] == addr[..i] + [addr[i]];
        i := i + 1;
      }
    }

    /** The loop of piperead that copies up to n bytes out. */
    method Drain(n: nat) returns (addr: seq<byte>)
      requires Valid()
      modifies this
      ensures Valid() && addr + Contents() == old(Contents())
      ensures |addr| == Min(n, |old(Contents())|)
    {
      hide Pipe.Contents;
      addr := [];
      while |addr| < n
        invariant Valid() && addr + Contents() == old(Contents()) && |addr| <= n
      {
        Length();
        if nread == nwrite {
          return;
        }
        var b := Get();
        addr := addr + [b];
      }
    }
  }
}
