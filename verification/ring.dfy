/** Rings of bytes under free-running 32-bit counters, as kernel/pipe.c and kernel/console.c keep them. */
module Ring {
  import opened Bytes

  const WRAP := 0x1_0000_0000

  /** The sizes in use; both divide 2^32, so that a counter that wraps goes on at the next slot. */
  predicate Size(n: nat) {
    n == 512 || n == 128
  }

  /** A counter after ++. */
  function Inc(x: nat): (r: nat)
    requires x < WRAP
    ensures r == (x + 1) % WRAP
  {
    if x + 1 == WRAP then 0 else x + 1
  }

  /** A counter after --. */
  function Dec(x: nat): (r: nat)
    requires x < WRAP
    ensures r < WRAP && Inc(r) == x
  {
    if x == 0 then WRAP - 1 else x - 1
  }

  /** to - from, unsigned. */
  function Count(from: nat, to: nat): (r: nat)
    requires from < WRAP && to < WRAP
    ensures r < WRAP
  {
    if from <= to then to - from else WRAP + to - from
  }

  /** The n bytes from a counter on, oldest first. */
  function Queued(data: seq<byte>, from: nat, n: nat): (r: seq<byte>)
    requires Size(|data|)
    ensures |r| == n && forall k :: 0 <= k < n ==> r[k] == data[(from + k) % |data|]
  {
    seq(n, k => data[(from + k) % |data|])
  }

  lemma {:induction false} Wraps(x: nat, size: nat)
    requires Size(size)
    ensures (x + WRAP) % size == x % size
  {
    if size == 512 {
      assert x + WRAP == x + 512 * 0x80_0000;
    } else {
      assert x + WRAP == x + 128 * 0x200_0000;
    }
  }

  /** A counter points just past the bytes counted up to it. */
  lemma {:induction false} EndSlot(from: nat, to: nat, size: nat)
    requires from < WRAP && to < WRAP && Size(size)
    ensures to % size == (from + Count(from, to)) % size
  {
    Wraps(to, size);
  }

  /** Different positions of a queue are different slots. */
  lemma {:induction false} SlotsApart(from: nat, k: nat, n: nat, size: nat)
    requires Size(size) && k <= n < size
    ensures (from + k) % size == (from + n) % size <==> k == n
  {
    if size == 512 {
      assert (from + k) % 512 == (from + n) % 512 <==> k == n;
    } else {
      assert (from + k) % 128 == (from + n) % 128 <==> k == n;
    }
  }

  lemma {:induction false} NextSlot(from: nat, k: nat, size: nat)
    requires from < WRAP && Size(size)
    ensures (Inc(from) + k) % size == (from + (k + 1)) % size
  {
    if from + 1 == WRAP { Wraps(k, size); }
  }

  /** A byte put at the end. */
  lemma {:induction false} PutLast(data: seq<byte>, from: nat, to: nat, b: byte)
    requires Size(|data|) && from < WRAP && to < WRAP && Count(from, to) < |data|
    ensures var n := Count(from, to);
            Count(from, Inc(to)) == n + 1 && Queued(data[to % |data| := b], from, n + 1) == Queued(data, from, n) + [b]
  {
    var n := Count(from, to);
    EndSlot(from, to, |data|);
    forall k | 0 <= k < n + 1
      ensures Queued(data[to % |data| := b], from, n + 1)[k] == (Queued(data, from, n) + [b])[k]
    {
      SlotsApart(from, k, n, |data|);
    }
  }

  /** The oldest byte taken. */
  lemma {:induction false} TakeFirst(data: seq<byte>, from: nat, to: nat)
    requires Size(|data|) && from < WRAP && to < WRAP && Count(from, to) > 0
    ensures var n := Count(from, to);
            Count(Inc(from), to) == n - 1
            && [data[from % |data|]] + Queued(data, Inc(from), n - 1) == Queued(data, from, n)
  {
    var n := Count(from, to);
    var rest := Queued(data, from, n)[1..];
    forall k | 0 <= k < n - 1
      ensures Queued(data, Inc(from), n - 1)[k] == rest[k]
    {
      NextSlot(from, k, |data|);
    }
    assert Queued(data, from, n)[0] == data[from % |data|];
  }

  /** A queue in two parts. */
  lemma {:induction false} Parts(data: seq<byte>, from: nat, mid: nat, to: nat)
    requires Size(|data|) && from < WRAP && mid < WRAP && to < WRAP && Count(from, mid) <= Count(from, to)
    ensures Count(from, mid) + Count(mid, to) == Count(from, to)
    ensures Queued(data, from, Count(from, to)) ==
            Queued(data, from, Count(from, mid)) + Queued(data, mid, Count(mid, to))
  {
    var m := Count(from, mid);
    forall k | 0 <= k < Count(mid, to)
      ensures Queued(data, mid, Count(mid, to))[k] == Queued(data, from, Count(from, to))[m + k]
    {
      if from > mid { Wraps(mid + k, |data|); }
    }
  }
}
