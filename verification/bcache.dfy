/** The buffer cache of kernel/bio.c over the synchronous disk of kernel/memide.c.

    `bcache.buf[NBUF]` and `bcache.head` are one array of NBUF + 1 records, so that the
    `prev`/`next` pointers are indices into it and HEAD names the list head. */
module BufferCache {
  import opened Bytes

  const NBUF := 10
  const HEAD := NBUF
  const NODEV: uint32 := 0xFFFF_FFFF
  const ROOTDEV: uint32 := 1

  datatype Buf = Buf(busy: bool, valid: bool, dirty: bool, dev: uint32, sector: nat,
                     prev: nat, next: nat, data: Block)

  /** One atomic sector write, as it reaches the disk. */
  datatype Write = Write(sector: nat, data: Block)

  datatype BgetResult = Hit(i: nat) | Recycled(i: nat) | Sleep(i: nat) | NoBuffers

  datatype Panic = NoBuffer | NotBusy | NothingToDo | WrongDisk | OutOfRange

  datatype IoResult = Done | Halted(why: Panic)

  datatype BreadResult = Ok(i: nat) | Wait(i: nat) | Panicked(why: Panic)

  // ----- the ring -----

  function Succ(k: nat): nat {
    if k == NBUF then 0 else k + 1
  }

  function Pred(k: nat): nat {
    if k == 0 then NBUF else k - 1
  }

  /** `order` lists the head and then every buffer exactly once, and the links follow it. */
  ghost predicate Ring(bufs: seq<Buf>, order: seq<nat>) {
    && |bufs| == NBUF + 1
    && Permutation(order)
    && forall k: nat :: k <= NBUF ==> Linked(bufs, order, k)
  }

  ghost predicate Permutation(order: seq<nat>) {
    && |order| == NBUF + 1 && order[0] == HEAD
    && (forall k :: 0 <= k <= NBUF ==> order[k] <= NBUF)
    && (forall j: nat, k: nat :: j < k <= NBUF ==> Apart(order, j, k))
    && (forall i: nat :: i <= NBUF ==> i in order)
  }

  ghost predicate Linked(bufs: seq<Buf>, order: seq<nat>, k: nat)
    requires |bufs| == |order| == NBUF + 1 && k <= NBUF && order[k] <= NBUF
  {
    bufs[order[k]].next == order[Succ(k)] && bufs[order[k]].prev == order[Pred(k)]
  }

  ghost predicate Apart(order: seq<nat>, j: nat, k: nat)
    requires |order| == NBUF + 1 && j < k <= NBUF
  {
    order[j] != order[k]
  }

  lemma {:induction false} Distinct(order: seq<nat>, j: nat, k: nat)
    requires Permutation(order) && j <= NBUF && k <= NBUF
    ensures order[j] == order[k] <==> j == k
  {
    assert j < k ==> Apart(order, j, k);
    assert k < j ==> Apart(order, k, j);
  }

  /** Moves the buffer at position p to just behind the head. */
  function MoveToFront(order: seq<nat>, p: nat): (r: seq<nat>)
    requires 0 < p < |order|
    ensures |r| == |order| && r[0] == order[0] && r[1] == order[p]
    ensures forall k :: 2 <= k <= p ==> r[k] == order[k - 1]
    ensures forall k :: p < k < |order| ==> r[k] == order[k]
  {
    [order[0], order[p]] + order[1..p] + order[p + 1..]
  }

  /** Equality of everything but the list links. */
  predicate SamePayload(x: Buf, y: Buf) {
    y.(prev := x.prev, next := x.next) == x
  }

  /** The position of a buffer in the list. */
  ghost function Position(order: seq<nat>, i: nat): (k: nat)
    requires Permutation(order) && i <= NBUF
    ensures k <= NBUF && order[k] == i && (i < NBUF ==> k >= 1)
  {
    assert i in order;
    var k :| 0 <= k < |order| && order[k] == i;
    k
  }

  /** Every buffer has a place in the ring, and its links stay inside the ring. */
  lemma {:induction false} InRing(bufs: seq<Buf>, order: seq<nat>, i: nat) returns (k: nat)
    requires Ring(bufs, order) && i <= NBUF
    ensures k <= NBUF && order[k] == i && (k == 0 <==> i == HEAD)
    ensures bufs[i].next == order[Succ(k)] <= NBUF && bufs[i].prev == order[Pred(k)] <= NBUF
  {
    k := Position(order, i);
    assert Linked(bufs, order, k);
    Distinct(order, 0, k);
  }

  lemma {:induction false} MoveToFrontPermutes(order: seq<nat>, p: nat)
    requires Permutation(order) && 0 < p <= NBUF
    ensures Permutation(MoveToFront(order, p))
  {
    var r := MoveToFront(order, p);
    forall i: nat | i <= NBUF ensures i in r {
      var k := Position(order, i);
      assert i == if k == 0 then r[0] else if k == p then r[1] else if k < p then r[k + 1] else r[k];
    }
    forall j: nat, k: nat | j < k <= NBUF ensures Apart(r, j, k) {
      Distinct(order, Origin(p, j), Origin(p, k));
    }
  }

  /** The position before MoveToFront of what is at position k after it. */
  function Origin(p: nat, k: nat): nat {
    if k == 1 then p else if 1 < k <= p then k - 1 else k
  }

  /** r is bufs with b unlinked from its neighbours, relinked behind the head and not busy. */
  ghost predicate MovedToFront(bufs: seq<Buf>, b: nat, r: seq<Buf>)
    requires |bufs| == |r| == NBUF + 1 && b < NBUF
  {
    var before, after := bufs[b].prev, bufs[b].next;
    var first := if before == HEAD then after else bufs[HEAD].next;
    forall i {:trigger r[i]} :: 0 <= i <= NBUF ==>
      && r[i].next == (if i == HEAD then b else if i == b then first
                       else if i == before then after else bufs[i].next)
      && r[i].prev == (if i == b then HEAD else if i == first then b
                       else if i == after then before else bufs[i].prev)
      && SamePayload(if i == b then bufs[b].(busy := false) else bufs[i], r[i])
  }

  lemma {:induction false} MovedLinked(bufs: seq<Buf>, order: seq<nat>, p: nat, r: seq<Buf>, k: nat)
    requires Ring(bufs, order) && 0 < p <= NBUF && |r| == NBUF + 1 && order[p] < NBUF && k <= NBUF
    requires MovedToFront(bufs, order[p], r)
    ensures MoveToFront(order, p)[k] <= NBUF && Linked(r, MoveToFront(order, p), k)
  {
    var q := Origin(p, k);
    assert MoveToFront(order, p)[k] == order[q];
    assert Linked(bufs, order, 0) && Linked(bufs, order, p) && Linked(bufs, order, q);
    Distinct(order, q, p);
    Distinct(order, q, 0);
    Distinct(order, q, 1);
    Distinct(order, q, Pred(p));
    Distinct(order, q, Succ(p));
    Distinct(order, 0, Pred(p));
    Distinct(order, p, 1);
  }

  /** The ring depends on the links only. */
  lemma {:induction false} RingFrame(bufs: seq<Buf>, order: seq<nat>, i: nat, b: Buf)
    requires Ring(bufs, order) && i <= NBUF && b.prev == bufs[i].prev && b.next == bufs[i].next
    ensures Ring(bufs[i := b], order)
  {
    var r := bufs[i := b];
    forall k: nat | k <= NBUF ensures Linked(r, order, k) {
      assert Linked(bufs, order, k);
    }
  }

  /** Unlinking a buffer and relinking it behind the head leaves one ring of all buffers. */
  lemma {:induction false} MovedToFrontIsRing(bufs: seq<Buf>, order: seq<nat>, p: nat, r: seq<Buf>)
    requires Ring(bufs, order) && 0 < p <= NBUF && |r| == NBUF + 1 && order[p] < NBUF
    requires MovedToFront(bufs, order[p], r)
    ensures Ring(r, MoveToFront(order, p))
  {
    MoveToFrontPermutes(order, p);
    forall k: nat | k <= NBUF ensures Linked(r, MoveToFront(order, p), k) {
      MovedLinked(bufs, order, p, r, k);
    }
  }

  // ----- recency -----

  /** The last position of b in a release history, -1 if b does not occur. */
  function LastRelease(history: seq<nat>, b: nat): (t: int)
    ensures -1 <= t < |history|
    ensures t >= 0 ==> history[t] == b
    ensures forall k :: t < k < |history| ==> history[k] != b
  {
    if history == [] then -1
    else if history[|history| - 1] == b then |history| - 1
    else LastRelease(history[..|history| - 1], b)
  }

  /** The list behind the head is sorted by most recent release. */
  ghost predicate ByRecency(order: seq<nat>, history: seq<nat>) {
    && |order| == NBUF + 1
    && forall j, k :: 1 <= j < k <= NBUF ==>
         LastRelease(history, order[j]) > LastRelease(history, order[k])
  }

  lemma {:induction false} ReleaseIsMostRecent(history: seq<nat>, b: nat, c: nat)
    ensures LastRelease(history + [b], c) == if c == b then |history| else LastRelease(history, c)
  {
    assert (history + [b])[..|history|] == history;
  }

  /** A release moves its buffer to the front and leaves the others in order. */
  lemma {:induction false} ReleaseKeepsRecency(order: seq<nat>, history: seq<nat>, p: nat)
    requires Permutation(order) && ByRecency(order, history) && 0 < p <= NBUF
    ensures ByRecency(MoveToFront(order, p), history + [order[p]])
  {
    var o, h := MoveToFront(order, p), history + [order[p]];
    forall j, k | 1 <= j < k <= NBUF
      ensures LastRelease(h, o[j]) > LastRelease(h, o[k])
    {
      ReleaseIsMostRecent(history, order[p], o[j]);
      ReleaseIsMostRecent(history, order[p], o[k]);
      var jj, kk := if j <= p then j - 1 else j, if k <= p then k - 1 else k;
      assert o[k] == order[kk];
      Distinct(order, kk, p);
      if j > 1 {
        assert o[j] == order[jj];
      }
    }
  }

  // ----- contents -----

  predicate Caches(b: Buf, dev: uint32, sector: nat) {
    b.dev == dev && b.sector == sector
  }

  predicate Recyclable(b: Buf) {
    !b.busy && !b.dirty
  }

  /** No sector is cached twice, apart from the placeholders that binit leaves. */
  ghost predicate Unique(bufs: seq<Buf>) {
    && |bufs| == NBUF + 1
    && forall i, j :: 0 <= i < j < NBUF && bufs[i].dev != NODEV ==> !Caches(bufs[j], bufs[i].dev, bufs[i].sector)
  }

  /** Every valid buffer caches an existing sector, and a dirty buffer has contents. */
  ghost predicate OnDisk(bufs: seq<Buf>, disk: seq<Block>) {
    && |bufs| == NBUF + 1
    && forall i :: 0 <= i < NBUF ==>
         && (bufs[i].valid ==> bufs[i].dev == ROOTDEV && bufs[i].sector < |disk|)
         && (bufs[i].dirty ==> bufs[i].valid)
  }

  /** A buffer nobody holds, and that is not waiting to be installed, equals its sector. */
  ghost predicate Coherent(bufs: seq<Buf>, disk: seq<Block>)
    requires OnDisk(bufs, disk)
  {
    forall i :: 0 <= i < NBUF && bufs[i].valid && Recyclable(bufs[i]) ==> bufs[i].data == disk[bufs[i].sector]
  }

  /** The buffers other than i are the same up to their links. */
  ghost predicate OthersKept(pre: seq<Buf>, post: seq<Buf>, i: nat) {
    && |pre| == |post| == NBUF + 1
    && forall j :: 0 <= j < NBUF && j != i ==> SamePayload(pre[j], post[j])
  }

  lemma {:induction false} KeptAt(pre: seq<Buf>, post: seq<Buf>, i: nat, j: nat)
    requires OthersKept(pre, post, i) && j < NBUF && j != i
    ensures post[j] == pre[j].(prev := post[j].prev, next := post[j].next)
  {
    assert SamePayload(pre[j], post[j]);
  }

  /** The disk after a sequence of sector writes. */
  function Apply(disk: seq<Block>, writes: seq<Write>): (r: seq<Block>)
    ensures |r| == |disk|
  {
    if writes == [] then disk
    else
      var d, w := Apply(disk, writes[..|writes| - 1]), writes[|writes| - 1];
      if w.sector < |d| then d[w.sector := w.data] else d
  }

  lemma {:induction false} ApplyAppend(disk: seq<Block>, writes: seq<Write>, w: Write)
    ensures Apply(disk, writes + [w]) ==
            var d := Apply(disk, writes); if w.sector < |d| then d[w.sector := w.data] else d
  {
    assert (writes + [w])[..|writes|] == writes;
  }

  /** The effect of a successful bread: buffer i, idle before, now busy with the latest contents. */
  ghost predicate Fetched(pre: seq<Buf>, post: seq<Buf>, i: nat, sector: nat, disk: seq<Block>) {
    && |pre| == |post| == NBUF + 1 && i < NBUF && sector < |disk|
    && !pre[i].busy
    && (!Caches(pre[i], ROOTDEV, sector) ==>
          !pre[i].dirty && forall j :: 0 <= j < NBUF ==> !Caches(pre[j], ROOTDEV, sector))
    && var held := Caches(pre[i], ROOTDEV, sector) && pre[i].valid;
       post == pre[i := pre[i].(busy := true, valid := true, dirty := held && pre[i].dirty,
                                dev := ROOTDEV, sector := sector,
                                data := if held then pre[i].data else disk[sector])]
  }

  lemma {:induction false} MovedKeepsContents(bufs: seq<Buf>, b: nat, r: seq<Buf>, disk: seq<Block>)
    requires |bufs| == |r| == NBUF + 1 && b < NBUF && MovedToFront(bufs, b, r)
    requires Unique(bufs) && OnDisk(bufs, disk)
    ensures Unique(r) && OnDisk(r, disk)
    ensures SamePayload(bufs[b].(busy := false), r[b])
    ensures forall i :: 0 <= i < NBUF && i != b ==> SamePayload(bufs[i], r[i])
  {
    forall i | 0 <= i < NBUF ensures SamePayload(if i == b then bufs[b].(busy := false) else bufs[i], r[i]) {
      assert r[i].dev == bufs[i].dev;
    }
  }

  lemma {:induction false} InitialRing(bufs: seq<Buf>, order: seq<nat>, history: seq<nat>)
    requires |bufs| == NBUF + 1 && bufs[HEAD].prev == 0 && bufs[HEAD].next == NBUF - 1
    requires forall i :: 0 <= i < NBUF ==>
      bufs[i].prev == (if i == NBUF - 1 then HEAD else i + 1) && bufs[i].next == (if i == 0 then HEAD else i - 1)
    requires |order| == NBUF + 1 && forall k :: 0 <= k <= NBUF ==> order[k] == NBUF - k
    requires |history| == NBUF && forall k :: 0 <= k < NBUF ==> history[k] == k
    ensures Ring(bufs, order) && ByRecency(order, history)
  {
    forall i: nat | i <= NBUF ensures i in order {
      assert order[NBUF - i] == i;
    }
    forall j: nat, k: nat | j < k <= NBUF ensures Apart(order, j, k) {
    }
    forall k: nat | k <= NBUF ensures Linked(bufs, order, k) {
      assert order[Succ(k)] == NBUF - Succ(k) && order[Pred(k)] == NBUF - Pred(k);
    }
    forall j, k | 1 <= j < k <= NBUF
      ensures LastRelease(history, order[j]) > LastRelease(history, order[k])
    {
      assert history[order[j]] == order[j] && history[order[k]] == order[k];
    }
  }

  class Cache {
    var buf: seq<Buf>
    var disk: seq<Block>
    ghost var order: seq<nat>
    ghost var history: seq<nat>
    ghost var boot: seq<Block>
    ghost var trace: seq<Write>

    ghost predicate Valid()
      reads this
    {
      && |buf| == NBUF + 1
      && Ring(buf, order)
      && ByRecency(order, history)
      && Unique(buf)
      && OnDisk(buf, disk)
      && disk == Apply(boot, trace)
    }

    /** Valid, but buffer i may be dirty without having contents yet. */
    ghost predicate ValidBut(i: nat)
      requires i < NBUF
      reads this
    {
      && |buf| == NBUF + 1
      && Ring(buf, order)
      && ByRecency(order, history)
      && Unique(buf)
      && OnDisk(buf[i := buf[i].(dirty := false)], disk)
      && disk == Apply(boot, trace)
    }

    lemma {:induction false} Facts()
      requires Valid()
      ensures |buf| == NBUF + 1 && Unique(buf) && OnDisk(buf, disk) && disk == Apply(boot, trace)
    {
    }

    /** binit: every buffer is put at the front in turn, as if released once. */
    constructor (image: seq<Block>)
      ensures Valid() && Coherent(buf, disk)
      ensures disk == boot == image && trace == []
      ensures history == seq(NBUF, k => k)
      ensures forall i :: 0 <= i < NBUF ==> buf[i].dev == NODEV && Recyclable(buf[i]) && !buf[i].valid
    {
      var empty := Buf(false, false, false, 0, 0, 0, 0, ZERO_BLOCK);
      buf := seq(NBUF + 1, _ => empty);
      disk := image;
      boot := image;
      trace := [];
      order := [];
      history := [];
      new;
      buf := buf[HEAD := buf[HEAD].(prev := HEAD, next := HEAD)];
      var b := 0;
      while b < NBUF
        modifies `buf
        invariant 0 <= b <= NBUF && |buf| == NBUF + 1
        invariant forall i :: 0 <= i < b ==>
          buf[i] == empty.(dev := NODEV, prev := if i == b - 1 then HEAD else i + 1,
                           next := if i == 0 then HEAD else i - 1)
        invariant forall i :: b <= i < NBUF ==> buf[i] == empty
        invariant buf[HEAD].prev == (if b == 0 then HEAD else 0)
        invariant buf[HEAD].next == (if b == 0 then HEAD else b - 1)
      {
        var first := buf[HEAD].next;
        buf := buf[b := buf[b].(next := first, prev := HEAD, dev := NODEV)];
        buf := buf[first := buf[first].(prev := b)];
        buf := buf[HEAD := buf[HEAD].(next := b)];
        b := b + 1;
      }
      order := seq(NBUF + 1, k requires 0 <= k => NBUF - k);
      history := seq(NBUF, k => k);
      InitialRing(buf, order, history);
    }

    /** bget's forward scan: the buffer caching the sector, or HEAD. */
    method FindCached(dev: uint32, sector: nat) returns (b: nat)
      requires Valid()
      ensures b <= NBUF
      ensures b < NBUF ==> Caches(buf[b], dev, sector)
      ensures b == HEAD ==> forall i :: 0 <= i < NBUF ==> !Caches(buf[i], dev, sector)
    {
      assert Linked(buf, order, 0);
      ghost var k := 1;
      b := buf[HEAD].next;
      while b != HEAD
        invariant 1 <= k <= NBUF + 1 && b == (if k == NBUF + 1 then HEAD else order[k])
        invariant forall q :: 1 <= q < k ==> !Caches(buf[order[q]], dev, sector)
        decreases NBUF + 1 - k
      {
        if buf[b].dev == dev && buf[b].sector == sector {
          return;
        }
        assert Linked(buf, order, k);
        b, k := buf[b].next, k + 1;
      }
      Distinct(order, 0, if k <= NBUF then k else 0);
      assert k == NBUF + 1;
      forall i | 0 <= i < NBUF ensures !Caches(buf[i], dev, sector) {
        var q := Position(order, i);
        assert 1 <= q < k && buf[order[q]] == buf[i];
      }
    }

    /** bget's backward scan: the least recently released clean idle buffer, or HEAD. */
    method FindRecyclable() returns (b: nat)
      requires Valid()
      ensures b <= NBUF
      ensures b < NBUF ==> Recyclable(buf[b]) && forall i :: 0 <= i < NBUF && Recyclable(buf[i]) ==>
        LastRelease(history, b) <= LastRelease(history, i)
      ensures b == HEAD ==> forall i :: 0 <= i < NBUF ==> !Recyclable(buf[i])
    {
      assert Linked(buf, order, 0);
      ghost var k := NBUF;
      b := buf[HEAD].prev;
      while b != HEAD
        invariant 0 <= k <= NBUF && b == order[k]
        invariant forall q :: k < q <= NBUF ==> !Recyclable(buf[order[q]])
        decreases k
      {
        if !buf[b].busy && !buf[b].dirty {
          break;
        }
        assert Linked(buf, order, k);
        b, k := buf[b].prev, k - 1;
      }
      Distinct(order, 0, k);
      forall i | 0 <= i < NBUF && Recyclable(buf[i])
        ensures b < NBUF && LastRelease(history, b) <= LastRelease(history, i)
      {
        var q := Position(order, i);
        assert q <= k;
      }
    }

    /** bget, one pass under bcache.lock; `Sleep` is the pass that found the buffer held. */
    method Bget(dev: uint32, sector: nat) returns (r: BgetResult)
      requires Valid()
      modifies `buf
      ensures Valid()
      ensures match r
        case Hit(i) =>
          && i < NBUF && Caches(old(buf[i]), dev, sector) && !old(buf[i]).busy
          && buf == old(buf)[i := old(buf[i]).(busy := true)]
        case Recycled(i) =>
          && i < NBUF && Recyclable(old(buf[i]))
          && (forall j :: 0 <= j < NBUF ==> !Caches(old(buf[j]), dev, sector))
          && (forall j :: 0 <= j < NBUF && Recyclable(old(buf[j])) ==>
                LastRelease(history, i) <= LastRelease(history, j))
          && buf == old(buf)[i := old(buf[i]).(busy := true, valid := false, dirty := false,
                                                       dev := dev, sector := sector)]
        case Sleep(i) =>
          && i < NBUF && Caches(buf[i], dev, sector) && buf[i].busy
          && buf == old(buf)
        case NoBuffers =>
          && (forall j :: 0 <= j < NBUF ==> !Caches(buf[j], dev, sector) && !Recyclable(buf[j]))
          && buf == old(buf)
    {
      hide Ring, ByRecency, Apply;
      var b := FindCached(dev, sector);
      if b != HEAD {
        if !buf[b].busy {
          RingFrame(buf, order, b, buf[b].(busy := true));
          buf := buf[b := buf[b].(busy := true)];
              return Hit(b);
        }
        return Sleep(b);
      }
      b := FindRecyclable();
      if b != HEAD {
        var taken := buf[b].(dev := dev, sector := sector, busy := true, valid := false, dirty := false);
        RingFrame(buf, order, b, taken);
        buf := buf[b := taken];
        return Recycled(b);
      }
      return NoBuffers;
    }

    /** iderw of the memory disk: one sector copied out when dirty, in when not. */
    method Iderw(i: nat) returns (r: IoResult)
      requires i < NBUF && ValidBut(i)
      modifies `buf, `disk, `trace
      ensures |buf| == NBUF + 1 && (r.Done? || old(Valid()) ==> Valid())
      ensures r == (if !old(buf[i]).busy then Halted(NotBusy)
                    else if old(buf[i]).valid && !old(buf[i]).dirty then Halted(NothingToDo)
                    else if buf[i].dev != ROOTDEV then Halted(WrongDisk)
                    else if buf[i].sector >= |disk| then Halted(OutOfRange)
                    else Done)
      ensures r.Halted? ==> buf == old(buf) && disk == old(disk) && trace == old(trace)
      ensures r.Done? && old(buf[i]).dirty ==>
        && buf == old(buf)[i := old(buf[i]).(dirty := false, valid := true)]
        && disk == old(disk)[buf[i].sector := buf[i].data]
        && trace == old(trace) + [Write(buf[i].sector, buf[i].data)]
      ensures r.Done? && !old(buf[i]).dirty ==>
        && disk == old(disk) && trace == old(trace)
        && buf == old(buf)[i := old(buf[i]).(data := disk[buf[i].sector], valid := true)]
    {
      hide Ring, ByRecency, Apply;
      var b := buf[i];
      if !b.busy { return Halted(NotBusy); }
      if b.valid && !b.dirty { return Halted(NothingToDo); }
      if b.dev != ROOTDEV { return Halted(WrongDisk); }
      if b.sector >= |disk| { return Halted(OutOfRange); }
      if b.dirty {
        b := b.(dirty := false);
        disk := disk[b.sector := b.data];
        ApplyAppend(boot, trace, Write(b.sector, b.data));
        trace := trace + [Write(b.sector, b.data)];
      } else {
        b := b.(data := disk[b.sector]);
      }
      RingFrame(buf, order, i, b.(valid := true));
      ghost var clean := buf[i := buf[i].(dirty := false)];
      buf := buf[i := b.(valid := true)];
      assert forall j :: 0 <= j < NBUF && j != i ==> buf[j] == clean[j];
      return Done;
    }

    /** bread: the latest contents of the sector, in a buffer the caller now holds. */
    method Bread(sector: nat) returns (r: BreadResult)
      requires Valid()
      modifies `buf, `disk, `trace
      ensures Valid() && disk == old(disk) && trace == old(trace)
      ensures old(Coherent(buf, disk)) ==> Coherent(buf, disk)
      ensures r.Ok? ==> Fetched(old(buf), buf, r.i, sector, disk)
      ensures r.Wait? ==> r.i < NBUF && buf == old(buf) && buf[r.i].busy && Caches(buf[r.i], ROOTDEV, sector)
      ensures r.Panicked? && sector < |disk| ==>
        && buf == old(buf)
        && forall j :: 0 <= j < NBUF ==> !Caches(buf[j], ROOTDEV, sector) && !Recyclable(buf[j])
    {
      hide Ring, ByRecency, Apply, LastRelease;
      var g := Bget(ROOTDEV, sector);
      match g {
        case NoBuffers => return Panicked(NoBuffer);
        case Sleep(i) => return Wait(i);
        case _ =>
      }
      if !buf[g.i].valid {
        var io := Iderw(g.i);
        if io.Halted? {
          return Panicked(io.why);
        }
      }
      return Ok(g.i);
    }

    /** bwrite: the held buffer reaches its sector before the call returns. */
    method Bwrite(i: nat) returns (r: IoResult)
      requires Valid() && i < NBUF
      modifies `buf, `disk, `trace
      ensures |buf| == NBUF + 1
      ensures r == (if !old(buf[i]).busy then Halted(NotBusy)
                    else if buf[i].dev != ROOTDEV then Halted(WrongDisk)
                    else if buf[i].sector >= |disk| then Halted(OutOfRange)
                    else Done)
      ensures old(buf[i]).valid ==> (r.Halted? <==> !old(buf[i]).busy)
      ensures r.Done? ==>
        && Valid()
        && buf == old(buf)[i := old(buf[i]).(dirty := false, valid := true)]
        && disk == old(disk)[buf[i].sector := buf[i].data]
        && trace == old(trace) + [Write(buf[i].sector, buf[i].data)]
    {
      hide Ring, ByRecency, Apply;
      if !buf[i].busy { return Halted(NotBusy); }
      RingFrame(buf, order, i, buf[i].(dirty := true));
      buf := buf[i := buf[i].(dirty := true)];
      r := Iderw(i);
    }

    /** brelse's first two link updates. */
    method Unlink(b: nat)
      requires |buf| == NBUF + 1 && b < NBUF
      requires buf[b].prev <= NBUF && buf[b].next <= NBUF && buf[b].prev != b && buf[b].next != b
      modifies `buf
      ensures |buf| == NBUF + 1 && forall i :: 0 <= i <= NBUF ==> buf[i] == old(buf)[i].(
        prev := if i == old(buf[b]).next then old(buf[b]).prev else old(buf)[i].prev,
        next := if i == old(buf[b]).prev then old(buf[b]).next else old(buf)[i].next)
    {
      buf := buf[buf[b].next := buf[buf[b].next].(prev := buf[b].prev)];
      buf := buf[buf[b].prev := buf[buf[b].prev].(next := buf[b].next)];
    }

    /** brelse's last four link updates, and the cleared busy flag. */
    method PushFront(b: nat)
      requires |buf| == NBUF + 1 && b < NBUF && buf[HEAD].next <= NBUF && buf[HEAD].next != b
      modifies `buf
      ensures |buf| == NBUF + 1 && forall i :: 0 <= i <= NBUF ==> buf[i] == old(buf)[i].(
        prev := if i == b then HEAD else if i == old(buf[HEAD]).next then b else old(buf)[i].prev,
        next := if i == HEAD then b else if i == b then old(buf[HEAD]).next else old(buf)[i].next,
        busy := i != b && old(buf)[i].busy)
    {
      buf := buf[b := buf[b].(next := buf[HEAD].next)];
      buf := buf[b := buf[b].(prev := HEAD)];
      buf := buf[buf[HEAD].next := buf[buf[HEAD].next].(prev := b)];
      buf := buf[HEAD := buf[HEAD].(next := b)];
      buf := buf[b := buf[b].(busy := false)];
    }

    method Relink(b: nat)
      requires |buf| == NBUF + 1 && b < NBUF
      requires buf[b].prev <= NBUF && buf[b].next <= NBUF && buf[HEAD].next <= NBUF
      requires buf[b].prev != b && buf[b].next != b && (buf[b].prev == HEAD <==> buf[HEAD].next == b)
      modifies `buf
      ensures |buf| == NBUF + 1 && MovedToFront(old(buf), b, buf)
    {
      Unlink(b);
      PushFront(b);
    }

    /** brelse: the buffer becomes the most recently used one. */
    method Brelse(b: nat) returns (r: IoResult)
      requires Valid() && b < NBUF
      modifies `buf, `order, `history
      ensures Valid()
      ensures r.Halted? <==> !old(buf[b]).busy
      ensures r.Halted? ==> buf == old(buf) && history == old(history)
      ensures r.Done? ==>
        && history == old(history) + [b]
        && SamePayload(old(buf[b]).(busy := false), buf[b])
        && OthersKept(old(buf), buf, b)
    {
      if !buf[b].busy { return Halted(NotBusy); }
      ghost var p := InRing(buf, order, b);
      assert Linked(buf, order, 0);
      Distinct(order, p, 1);
      Distinct(order, p, Pred(p));
      Distinct(order, p, Succ(p));
      Distinct(order, 0, Pred(p));
      Relink(b);
      MovedToFrontIsRing(old(buf), order, p, buf);
      MovedKeepsContents(old(buf), b, buf, disk);
      ReleaseKeepsRecency(order, history, p);
      order := MoveToFront(order, p);
      history := history + [b];
      return Done;
    }

    /** A holder overwrites the data of its buffer, or pins it with the dirty flag. */
    method Modify(i: nat, data: Block, dirty: bool)
      requires Valid() && i < NBUF && buf[i].busy && buf[i].valid
      modifies `buf
      ensures Valid()
      ensures old(Coherent(buf, disk)) ==> Coherent(buf, disk)
      ensures buf == old(buf)[i := old(buf[i]).(data := data, dirty := dirty)]
    {
      hide Ring, ByRecency, Apply;
      RingFrame(buf, order, i, buf[i].(data := data, dirty := dirty));
      buf := buf[i := buf[i].(data := data, dirty := dirty)];
    }

    /** Starts a new record of writes at the present disk. */
    ghost method Rebase()
      requires Valid()
      modifies `boot, `trace
      ensures Valid() && boot == disk && trace == []
    {
      boot := disk;
      trace := [];
    }

    /** The end of every write of the log layer: memmove into the held buffer, bwrite, brelse. */
    method Put(i: nat, data: Block)
      requires Valid() && Coherent(buf, disk) && i < NBUF && buf[i].busy && buf[i].valid
      modifies `buf, `disk, `trace, `order, `history
      ensures Valid() && Coherent(buf, disk)
      ensures OthersKept(old(buf), buf, i)
      ensures SamePayload(old(buf[i]).(data := data, dirty := false, busy := false), buf[i])
      ensures disk == old(disk)[buf[i].sector := data]
      ensures trace == old(trace) + [Write(buf[i].sector, data)]
    {
      hide Ring, ByRecency, Apply;
      Modify(i, data, buf[i].dirty);
      var w := Bwrite(i);
      var r := Brelse(i);
    }
  }
}
