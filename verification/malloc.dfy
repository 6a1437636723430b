/** malloc and free of ulib/umalloc.c: headers in memory linked into a ring. */
module Malloc {
  import opened FreeList

  const NULL := -1
  const MINUNITS := 4096
  const HEADER := 16

  /** The link that block i should have. */
  function Next(bs: seq<Blk>, i: nat): int
    requires i < |bs|
  {
    if i + 1 < |bs| then bs[i + 1].addr else BASE
  }

  predicate HeaderAt(b: Blk, next: int, ptr: map<int, int>, size: map<int, int>) {
    b.addr in ptr && b.addr in size && size[b.addr] == b.size && ptr[b.addr] == next
  }

  /** The headers in memory form the ring of the blocks in order. */
  predicate Ring(bs: seq<Blk>, ptr: map<int, int>, size: map<int, int>) {
    forall i :: 0 <= i < |bs| ==> HeaderAt(bs[i], Next(bs, i), ptr, size)
  }

  lemma {:induction false} SplicedRing(bs: seq<Blk>, cs: seq<Blk>, e: nat, d: nat, m: Blk, ptr: map<int, int>,
                                       size: map<int, int>)
    requires 0 < e && |bs| > 0 && bs[0] == Blk(BASE, 0) && Spliced(bs, cs, e, d, m) && 0 < d
    requires forall i :: 0 <= i < |bs| && i != e - 1 && !(e <= i < d) ==> HeaderAt(bs[i], Next(bs, i), ptr, size)
    requires HeaderAt(bs[e - 1], m.addr, ptr, size) && HeaderAt(m, Next(bs, d - 1), ptr, size)
    ensures Ring(cs, ptr, size)
  {
    forall i | 0 <= i < |cs|
      ensures HeaderAt(cs[i], Next(cs, i), ptr, size)
    {
      if i > e { assert HeaderAt(bs[i - e - 1 + d], Next(bs, i - e - 1 + d), ptr, size); }
    }
  }

  /** What free writes: the header of the block and that of its left neighbour. */
  function LinkedPtr(bs: seq<Blk>, j: nat, b: Blk, ptr: map<int, int>): map<int, int>
    requires j < |bs|
  {
    var link := if JoinsRight(bs, j, b) then Next(bs, j + 1) else Next(bs, j);
    ptr[b.addr := link][bs[j].addr := if JoinsLeft(bs, j, b) then link else b.addr]
  }

  function LinkedSize(bs: seq<Blk>, j: nat, b: Blk, size: map<int, int>): map<int, int>
    requires j < |bs|
  {
    var n := if JoinsRight(bs, j, b) then b.size + bs[j + 1].size else b.size;
    var s := size[b.addr := n];
    if JoinsLeft(bs, j, b) then s[bs[j].addr := bs[j].size + n] else s
  }

  lemma {:induction false} OtherAddr(bs: seq<Blk>, j: nat, b: Blk, i: nat)
    requires Ordered(bs) && Fits(bs, j, b) && i < |bs|
    ensures bs[i].addr != b.addr && (bs[i].addr == bs[j].addr ==> i == j)
  {
    if i < j { assert Gap(bs[i], bs[j]); }
    if j < i { assert Gap(bs[j], bs[i]); }
    if j + 1 < i { assert Gap(bs[j + 1], bs[i]); }
  }

  /** A block apart from the new one and its neighbours keeps its header. */
  lemma {:induction false} OtherHeader(bs: seq<Blk>, j: nat, b: Blk, ptr: map<int, int>, size: map<int, int>, i: nat)
    requires Ordered(bs) && Fits(bs, j, b) && i < |bs| && i != j && HeaderAt(bs[i], Next(bs, i), ptr, size)
    ensures HeaderAt(bs[i], Next(bs, i), LinkedPtr(bs, j, b, ptr), LinkedSize(bs, j, b, size))
  {
    OtherAddr(bs, j, b, i);
    hide Ordered, Fits, JoinsLeft, JoinsRight;
  }

  lemma {:induction false} NewHeaders(bs: seq<Blk>, j: nat, b: Blk, ptr: map<int, int>, size: map<int, int>)
    requires Ordered(bs) && Fits(bs, j, b) && HeaderAt(bs[j], Next(bs, j), ptr, size)
    ensures var p, s := LinkedPtr(bs, j, b, ptr), LinkedSize(bs, j, b, size);
            HeaderAt(Merged(bs, j, b), Next(bs, To(bs, j, b) - 1), p, s) &&
            (!JoinsLeft(bs, j, b) ==> HeaderAt(bs[j], b.addr, p, s))
  {
    OtherAddr(bs, j, b, j);
    hide Ordered, Fits;
  }

  lemma {:induction false} PutRing(bs: seq<Blk>, j: nat, b: Blk, ptr: map<int, int>, size: map<int, int>)
    requires Ordered(bs) && Fits(bs, j, b) && Ring(bs, ptr, size)
    ensures Ring(Put(bs, j, b), LinkedPtr(bs, j, b, ptr), LinkedSize(bs, j, b, size))
  {
    PutSplices(bs, j, b);
    MergedOk(bs, j, b);
    assert bs[0] == Blk(BASE, 0);
    assert HeaderAt(bs[j], Next(bs, j), ptr, size);
    NewHeaders(bs, j, b, ptr, size);
    hide Put, Spliced, Ordered, Fits, LinkedPtr, LinkedSize, HeaderAt, Gap;
    var e, d, m := From(bs, j, b), To(bs, j, b), Merged(bs, j, b);
    var p, s := LinkedPtr(bs, j, b, ptr), LinkedSize(bs, j, b, size);
    forall i | 0 <= i < |bs| && i != j
      ensures HeaderAt(bs[i], Next(bs, i), p, s)
    {
      OtherHeader(bs, j, b, ptr, size, i);
    }
    assert JoinsLeft(bs, j, b) ==> HeaderAt(bs[j - 1], Next(bs, j - 1), p, s) && Next(bs, j - 1) == m.addr;
    SplicedRing(bs, Put(bs, j, b), e, d, m, p, s);
  }

  /** malloc links past a block it takes whole. */
  lemma {:induction false} WholeRing(bs: seq<Blk>, k: nat, ptr: map<int, int>, size: map<int, int>)
    requires Ordered(bs) && 0 < k < |bs| && Ring(bs, ptr, size)
    ensures Ring(Take(bs, k, bs[k].size), ptr[bs[k - 1].addr := Next(bs, k)], size)
  {
    var cs := Take(bs, k, bs[k].size);
    forall i | 0 <= i < |cs|
      ensures HeaderAt(cs[i], Next(cs, i), ptr[bs[k - 1].addr := Next(bs, k)], size)
    {
      var o := if i >= k then i + 1 else i;
      assert HeaderAt(bs[o], Next(bs, o), ptr, size);
      if o < k - 1 { assert Gap(bs[o], bs[k - 1]); }
      if k - 1 < o { assert Gap(bs[k - 1], bs[o]); }
    }
  }

  /** malloc cuts a larger block in two and takes the upper part. */
  lemma {:induction false} CutRing(bs: seq<Blk>, k: nat, n: int, ptr: map<int, int>, size: map<int, int>)
    requires Ordered(bs) && 0 < k < |bs| && 0 < n < bs[k].size && Ring(bs, ptr, size)
    ensures Ring(Take(bs, k, n), ptr, size[bs[k].addr := bs[k].size - n][Taken(bs[k], n).addr := n])
  {
    var cs := Take(bs, k, n);
    forall i | 0 <= i < |cs|
      ensures HeaderAt(cs[i], Next(cs, i), ptr, size[bs[k].addr := bs[k].size - n][Taken(bs[k], n).addr := n])
    {
      assert HeaderAt(bs[i], Next(bs, i), ptr, size);
      if i < k { assert Gap(bs[i], bs[k]); }
      if k < i { assert Gap(bs[k], bs[i]); }
    }
  }

  // ----- walking the ring -----

  /** The index reached from f in i + 1 steps around n blocks. */
  function At(f: nat, i: nat, n: nat): (k: nat)
    requires f < n && i < n
    ensures k < n && (k == f <==> i == n - 1)
  {
    if f + 1 + i < n then f + 1 + i else f + 1 + i - n
  }

  /** Some number of steps reaches any index. */
  function Steps(f: nat, k: nat, n: nat): (i: nat)
    requires f < n && k < n
    ensures i < n && At(f, i, n) == k
  {
    if k > f then k - f - 1 else k + n - f - 1
  }

  predicate NoneFits(bs: seq<Blk>, n: int) {
    forall i :: 0 <= i < |bs| ==> bs[i].size < n
  }

  // ----- where a block goes -----

  predicate Place(bs: seq<Blk>, j: nat, a: int) {
    j < |bs| && bs[j].addr < a && (j + 1 < |bs| ==> a < bs[j + 1].addr)
  }

  lemma {:induction false} FindPlaceIn(bs: seq<Blk>, a: int, n: nat) returns (j: nat)
    requires Ordered(bs) && a > BASE && 0 < n <= |bs| && (forall i :: 0 <= i < |bs| ==> bs[i].addr != a)
    requires n < |bs| ==> a < bs[n].addr
    ensures Place(bs, j, a)
  {
    if bs[n - 1].addr < a { j := n - 1; } else { j := FindPlaceIn(bs, a, n - 1); }
  }

  /** A block that shares no unit with the free blocks fits where its address belongs. */
  lemma {:induction false} PlaceFits(bs: seq<Blk>, j: nat, b: Blk)
    requires Ordered(bs) && Place(bs, j, b.addr) && b.size > 0 && b.addr > BASE
    requires (forall u :: Inside(b, u) ==> !InFree(bs, u))
    ensures Fits(bs, j, b)
  {
    if bs[j].addr + bs[j].size > b.addr {
      assert Inside(b, b.addr) && Inside(bs[j], b.addr);
    }
    if j + 1 < |bs| && b.addr + b.size > bs[j + 1].addr {
      assert Inside(b, bs[j + 1].addr) && Inside(bs[j + 1], bs[j + 1].addr);
    }
  }

  /** Two indices with the place property are the same. */
  lemma {:induction false} PlaceOnce(bs: seq<Blk>, j: nat, k: nat, a: int)
    requires Ordered(bs) && Place(bs, j, a) && Place(bs, k, a)
    ensures j == k
  {
  }

  // ----- the allocator -----

  predicate AllocOk(alloc: map<int, int>, size: map<int, int>) {
    && (forall a :: a in alloc ==> a > BASE && alloc[a] > 0 && a in size && size[a] == alloc[a])
    && (forall a, c :: a in alloc && c in alloc && a != c ==> a + alloc[a] <= c || c + alloc[c] <= a)
  }

  /** No unit is both free and in use. */
  ghost predicate Separate(bs: seq<Blk>, alloc: map<int, int>) {
    forall u :: InFree(bs, u) ==> !Used(alloc, u)
  }

  class Heap {
    var freep: int
    var ptr: map<int, int>
    var size: map<int, int>
    ghost var free: seq<Blk>
    ghost var alloc: map<int, int>

    /** One address-ordered ring of disjoint, never adjacent free blocks, apart from the blocks in use. */
    ghost predicate Valid()
      reads this
    {
      && (freep == NULL ==> free == [] && alloc == map[])
      && (freep != NULL ==>
            Ordered(free) && Ring(free, ptr, size) && exists f :: 0 <= f < |free| && free[f].addr == freep)
      && AllocOk(alloc, size) && Separate(free, alloc)
    }

    constructor ()
      ensures Valid() && free == [] && alloc == map[]
    {
      freep := NULL;
      ptr, size := map[], map[];
      free, alloc := [], map[];
    }

    /** free's walk to the block after which bp goes. */
    method FindPlace(bp: int) returns (p: int, ghost j: nat)
      requires Valid() && freep != NULL && bp > BASE && forall i :: 0 <= i < |free| ==> free[i].addr != bp
      ensures Place(free, j, bp) && p == free[j].addr
      ensures exists i :: 0 <= i < |free| && Place(free, i, bp) && p == free[i].addr
    {
      j := FindPlaceIn(free, bp, |free|);
      p := freep;
      ghost var i :| 0 <= i < |free| && free[i].addr == freep;
      assert HeaderAt(free[i], Next(free, i), ptr, size);
      while !(bp > p && bp < ptr[p])
        invariant 0 <= i < |free| && p == free[i].addr && HeaderAt(free[i], Next(free, i), ptr, size)
        decreases if i <= j then j - i else j + |free| - i
      {
        if p >= ptr[p] && (bp > p || bp < ptr[p]) {
          break;
        }
        assert i == j ==> j + 1 < |free| || bp > p;
        p := ptr[p];
        i := if i + 1 < |free| then i + 1 else 0;
      }
      assert Place(free, i, bp);
      PlaceOnce(free, i, j, bp);
    }

    /** The units that sbrk has given so far. */
    ghost predicate Owned(u: int)
      reads this
    {
      InFree(free, u) || Used(alloc, u)
    }

    /** free's joining of bp with the block after it and with p, the block before it. */
    method Link(p: int, bp: int, ghost j: nat)
      requires j < |free| && free[j].addr == p && BASE < bp && p != bp && bp in size && Fits(free, j, Blk(bp, size[bp]))
      requires HeaderAt(free[j], Next(free, j), ptr, size)
      requires j + 1 < |free| ==> free[j + 1].addr != bp && HeaderAt(free[j + 1], Next(free, j + 1), ptr, size)
      modifies this`ptr, this`size
      ensures ptr == LinkedPtr(free, j, Blk(bp, old(size)[bp]), old(ptr))
      ensures size == LinkedSize(free, j, Blk(bp, old(size)[bp]), old(size))
    {
      ghost var size0 := size;
      assert bp + size[bp] == ptr[p] <==> JoinsRight(free, j, Blk(bp, size[bp]));
      if bp + size[bp] == ptr[p] {
        size := size[bp := size[bp] + size[ptr[p]]];
        ptr := ptr[bp := ptr[ptr[p]]];
      } else {
        ptr := ptr[bp := ptr[p]];
      }
      if p + size[p] == bp {
        size := size[p := size[p] + size[bp]];
        ptr := ptr[p := ptr[bp]];
      } else {
        ptr := ptr[p := bp];
      }
      assert size == LinkedSize(free, j, Blk(bp, size0[bp]), size0);
    }

    method Free(ap: int)
      requires Valid() && ap - 1 in alloc
      modifies this
      ensures Valid() && freep != NULL
      ensures alloc == old(alloc) - {ap - 1}
      ensures forall u :: InFree(free, u) <==> old(InFree(free, u)) || Inside(Blk(ap - 1, old(alloc)[ap - 1]), u)
    {
      hide LinkedPtr, LinkedSize, Put, Ring, Ordered, Separate, InFree, Inside;
      var bp := ap - 1;
      assert bp > BASE && alloc[bp] > 0 && bp in size && size[bp] == alloc[bp];
      ghost var b := Blk(bp, alloc[bp]);
      BlockApart(free, alloc, size, bp);
      ghost var j;
      var p;
      p, j := FindPlace(bp);
      PlaceFits(free, j, b);
      BlockFacts(j);
      if j + 1 < |free| { BlockFacts(j + 1); }
      PutRing(free, j, b, ptr, size);
      PutOrdered(free, j, b);
      ghost var size0 := size;
      Link(p, bp, j);
      freep := p;
      FreedOk(free, j, b, alloc, size0, size);
      free, alloc := Put(free, j, b), alloc - {bp};
    }

    /** The program writes into a block it has: every unit but the header. */
    method Store(a: int, u: int, x: int, y: int)
      requires Valid() && a in alloc && a < u < a + alloc[a]
      modifies this`ptr, this`size
      ensures Valid()
    {
      StoreUnseen(free, alloc, ptr, size, a, u, x, y);
      ptr, size := ptr[u := x], size[u := y];
    }

    /** morecore; `sbrk` is what the system call returns, NULL for failure. */
    method Morecore(nu: int, sbrk: int) returns (p: int)
      requires Valid() && freep != NULL && nu > 0
      requires sbrk != NULL ==> sbrk > BASE && forall u :: Inside(Blk(sbrk, Core(nu)), u) ==> !Owned(u)
      modifies this
      ensures Valid() && freep != NULL && alloc == old(alloc)
      ensures sbrk == NULL ==>
        p == NULL && free == old(free) && freep == old(freep) && ptr == old(ptr) && size == old(size)
      ensures sbrk != NULL ==> p == freep && !NoneFits(free, nu)
      ensures sbrk != NULL ==> forall u :: InFree(free, u) <==> old(InFree(free, u)) || Inside(Blk(sbrk, Core(nu)), u)
    {
      if sbrk == NULL {
        return NULL;
      }
      var hp, n := sbrk, Core(nu);
      CoreOk(free, alloc, ptr, size, Blk(hp, n));
      hide Ordered, Ring, AllocOk, Separate, Used, InFree;
      size := size[hp := n];
      alloc := alloc[hp := n];
      Free(hp + 1);
      assert alloc == old(alloc) by { assert hp !in old(alloc); }
      ghost var i := Holds(free, hp, n);
      return freep;
    }

    lemma BlockFacts(k: nat)
      requires Valid() && freep != NULL && k < |free|
      ensures HeaderAt(free[k], Next(free, k), ptr, size) && Ordered(free) && (k == 0 ==> free[k] == Blk(BASE, 0))
      ensures free[k].addr >= BASE
    {
      assert k > 0 ==> Gap(free[0], free[k]);
    }

    /** malloc's taking of n units from the block p that follows prevp. */
    method Carve(prevp: int, p: int, n: int, ghost k: nat) returns (r: int)
      requires Valid() && freep != NULL && 0 < k < |free| && p == free[k].addr && prevp == free[k - 1].addr
      requires 0 < n <= free[k].size
      modifies this
      ensures Valid() && freep == prevp && r > BASE && r - 1 !in old(alloc) && alloc == old(alloc)[r - 1 := n]
      ensures forall u :: old(InFree(free, u)) <==> InFree(free, u) || Inside(Blk(r - 1, n), u)
    {
      hide Ordered, Ring, AllocOk, Separate, Used, InFree, Inside, Take;
      BlockFacts(k);
      BlockFacts(k - 1);
      Carved(free, k, n, alloc, ptr, size);
      ghost var bs, ptr0, size0 := free, ptr, size;
      var q := p;
      if size[p] == n {
        ptr := ptr[prevp := ptr[p]];
      } else {
        size := size[p := size[p] - n];
        q := p + size[p];
        size := size[q := n];
      }
      assert ptr == CarvedPtr(bs, k, n, ptr0) && size == CarvedSize(bs, k, n, size0) && q == Taken(bs[k], n).addr;
      freep := prevp;
      free := Take(bs, k, n);
      alloc := alloc[q := n];
      assert free[k - 1].addr == freep;
      r := q + 1;
    }

    /** The walk has come from block f, which is freep, to p in i + 1 steps, past blocks that are too small. */
    ghost predicate Walk(f: nat, i: nat, prevp: int, p: int, n: int)
      reads this
    {
      && Valid() && freep != NULL && f < |free| && free[f].addr == freep && i < |free| && Small(free, f, i, n)
      && p == free[At(f, i, |free|)].addr && prevp == free[Before(At(f, i, |free|), |free|)].addr
    }

    lemma WalkStarts(n: int) returns (f: nat)
      requires Valid() && freep != NULL
      ensures freep in ptr && Walk(f, 0, freep, ptr[freep], n)
    {
      f :| 0 <= f < |free| && free[f].addr == freep;
      BlockFacts(0);
      BlockFacts(f);
      StepAt(free, f, 0);
    }

    lemma WalkAt(f: nat, i: nat, prevp: int, p: int, n: int) returns (k: nat)
      requires Walk(f, i, prevp, p, n) && n > 0
      ensures k < |free| && p == free[k].addr && p in size && size[p] == free[k].size && p in ptr
      ensures size[p] >= n ==> k > 0 && prevp == free[k - 1].addr && !NoneFits(free, n)
      ensures size[p] < n && p == freep ==> NoneFits(free, n)
      ensures size[p] < n && p != freep ==> i + 1 < |free| && Walk(f, i + 1, p, ptr[p], n)
    {
      hide Ordered, Ring, AllocOk, Separate, NoneFits, Small;
      k := At(f, i, |free|);
      BlockFacts(0);
      BlockFacts(k);
      if size[p] >= n { Fitting(free, k, n); }
      if size[p] < n {
        SmallNext(free, f, i, n);
        if p == freep {
          SameIndex(free, k, f);
          AllSmall(free, f, n);
        } else {
          StepAt(free, f, i + 1);
        }
      }
    }

    /** malloc's loop. */
    method Search(nunits: nat, sbrk: int) returns (r: int, calls: nat)
      requires Valid() && freep != NULL && nunits > 0
      requires sbrk != NULL && NoneFits(free, nunits) ==>
               sbrk > BASE && forall u :: Inside(Blk(sbrk, Core(nunits)), u) ==> !Owned(u)
      modifies this
      ensures Valid()
      ensures calls == if NoneFits(old(free), nunits) then 1 else 0
      ensures r == NULL <==> calls == 1 && sbrk == NULL
      ensures r == NULL ==> alloc == old(alloc) && free == old(free)
      ensures r != NULL ==> r - 1 !in old(alloc) && alloc == old(alloc)[r - 1 := nunits]
      ensures r != NULL ==> forall u :: InFree(free, u) || Inside(Blk(r - 1, nunits), u) <==>
                old(InFree(free, u)) || (calls == 1 && Inside(Blk(sbrk, Core(nunits)), u))
    {
      hide Ordered, Ring, AllocOk, Separate, Used, InFree, Inside, NoneFits, Small, Core, Heap.Walk, Heap.Valid;
      ghost var f := WalkStarts(nunits);
      var prevp, p := freep, ptr[freep];
      ghost var i := 0;
      calls := 0;
      while true
        invariant Valid() && freep != NULL && alloc == old(alloc) && calls <= 1 && Walk(f, i, prevp, p, nunits)
        invariant calls == 0 ==> free == old(free)
        invariant calls == 1 ==> NoneFits(old(free), nunits) && sbrk != NULL && !NoneFits(free, nunits)
        invariant calls == 1 ==> forall u :: InFree(free, u) <==>
          old(InFree(free, u)) || Inside(Blk(sbrk, Core(nunits)), u)
        decreases if calls == 0 then 1 else 0, |free| - i
      {
        ghost var k := WalkAt(f, i, prevp, p, nunits);
        if size[p] >= nunits {
          r := Carve(prevp, p, nunits, k);
          return;
        }
        if p == freep {
          p := Morecore(nunits, sbrk);
          calls := 1;
          if p == NULL {
            r := NULL;
            return;
          }
          f := WalkStarts(nunits);
          i := 0;
        } else {
          i := i + 1;
        }
        prevp, p := p, ptr[p];
      }
    }

    /** malloc. Each unit got from sbrk is free or in one block in use; morecore is called once, and only if
        no block fits. */
    method Malloc(nbytes: nat, sbrk: int) returns (r: int, calls: nat)
      requires Valid()
      requires sbrk != NULL && NoneFits(free, Units(nbytes)) ==>
        Units(nbytes) < NARROW && sbrk > BASE && forall u :: Inside(Blk(sbrk, Core(Units(nbytes))), u) ==> !Owned(u)
      modifies this
      ensures Valid()
      ensures calls == if NoneFits(old(free), Units(nbytes)) then 1 else 0
      ensures r == NULL <==> calls == 1 && sbrk == NULL
      ensures r == NULL ==> alloc == old(alloc) && forall u :: InFree(free, u) <==> old(InFree(free, u))
      ensures r != NULL ==> r - 1 !in old(alloc) && alloc == old(alloc)[r - 1 := Units(nbytes)]
      ensures r != NULL ==> forall u :: InFree(free, u) || Inside(Blk(r - 1, Units(nbytes)), u) <==>
                old(InFree(free, u)) || (calls == 1 && Inside(Blk(sbrk, Core(Units(nbytes))), u))
    {
      var nunits := Units(nbytes);
      if freep == NULL {
        ptr, size, freep := ptr[BASE := BASE], size[BASE := 0], BASE;
        free := [Blk(BASE, 0)];
        assert forall u :: !InFree(free, u);
      }
      r, calls := Search(nunits, sbrk);
    }
  }

  /** The argument of sbrk for so many units: bytes, as a 32-bit int. */
  function SbrkArg(nu: nat): int {
    var bytes := nu * HEADER % 0x1_0000_0000;
    if bytes < 0x8000_0000 then bytes else bytes - 0x1_0000_0000
  }

  /** morecore gets the units it records exactly when they are fewer than NARROW. */
  lemma {:induction false} SbrkArgExact(nu: nat)
    ensures SbrkArg(nu) == nu * HEADER <==> nu < NARROW
  {
  }

  /** For the largest request morecore asks sbrk for 16 bytes and records a block of 2^28 + 1 units. */
  lemma {:induction false} SbrkArgNarrowed()
    ensures Units(0xffff_ffff) == 0x1000_0001 && SbrkArg(Core(Units(0xffff_ffff))) == 16
  {
  }

  // ----- what the walk has seen -----

  /** The first i blocks after f are too small. */
  predicate Small(bs: seq<Blk>, f: nat, i: nat, n: int)
    requires f < |bs| && i <= |bs|
  {
    forall t :: 0 <= t < i ==> bs[At(f, t, |bs|)].size < n
  }

  lemma {:induction false} SmallNext(bs: seq<Blk>, f: nat, i: nat, n: int)
    requires f < |bs| && i < |bs| && Small(bs, f, i, n) && bs[At(f, i, |bs|)].size < n
    ensures Small(bs, f, i + 1, n)
  {
  }

  lemma {:induction false} Fitting(bs: seq<Blk>, k: nat, n: int)
    requires k < |bs| && bs[k].size >= n
    ensures !NoneFits(bs, n)
  {
  }

  /** One step along the ring. */
  lemma {:induction false} StepAt(bs: seq<Blk>, f: nat, i: nat)
    requires f < |bs| && i < |bs| && bs[0].addr == BASE
    ensures var k := if i == 0 then f else At(f, i - 1, |bs|);
            Next(bs, k) == bs[At(f, i, |bs|)].addr && Before(At(f, i, |bs|), |bs|) == k
  {
  }

  // ----- what malloc writes -----

  function CarvedPtr(bs: seq<Blk>, k: nat, n: int, ptr: map<int, int>): map<int, int>
    requires 0 < k < |bs|
  {
    if bs[k].size == n then ptr[bs[k - 1].addr := Next(bs, k)] else ptr
  }

  function CarvedSize(bs: seq<Blk>, k: nat, n: int, size: map<int, int>): map<int, int>
    requires 0 < k < |bs|
  {
    if bs[k].size == n then size else size[bs[k].addr := bs[k].size - n][Taken(bs[k], n).addr := n]
  }

  lemma {:induction false} Carved(bs: seq<Blk>, k: nat, n: int, alloc: map<int, int>, ptr: map<int, int>, size: map<int,
                                  int>)
    requires Ordered(bs) && Ring(bs, ptr, size) && AllocOk(alloc, size) && Separate(bs, alloc) && 0 < k < |bs|
    requires 0 < n <= bs[k].size
    ensures var cs, t := Take(bs, k, n), Taken(bs[k], n);
            Ordered(cs) && Ring(cs, CarvedPtr(bs, k, n, ptr), CarvedSize(bs, k, n, size)) &&
            t.addr > BASE && t.addr !in alloc &&
            AllocOk(alloc[t.addr := n], CarvedSize(bs, k, n, size)) && Separate(cs, alloc[t.addr := n]) &&
            k - 1 < |cs| && cs[k - 1].addr == bs[k - 1].addr && bs[k - 1].addr >= BASE
    ensures forall u :: InFree(bs, u) <==> InFree(Take(bs, k, n), u) || Inside(Taken(bs[k], n), u)
  {
    assert HeaderAt(bs[k], Next(bs, k), ptr, size) && Gap(bs[0], bs[k]);
    assert k > 1 ==> Gap(bs[0], bs[k - 1]);
    TakenOk(bs, k, n, alloc, size);
    TakeOrdered(bs, k, n);
    if bs[k].size == n { WholeRing(bs, k, ptr, size); } else { CutRing(bs, k, n, ptr, size); }
  }

  /** Units for so many bytes, with the header. */
  function Units(nbytes: nat): (r: nat)
    ensures r > 0 && (r - 1) * HEADER >= nbytes
  {
    (nbytes + HEADER - 1) / HEADER + 1
  }

  /** sbrk takes its size in bytes as an int: fewer units than this do not overflow it. */
  const NARROW := 0x800_0000

  function Before(k: nat, n: nat): nat
    requires k < n
  {
    if k == 0 then n - 1 else k - 1
  }

  /** morecore asks for at least so many units. */
  function Core(nu: int): int {
    if nu < MINUNITS then MINUNITS else nu
  }

  /** Blocks are never adjacent, so a stretch of free units lies in one block. */
  lemma {:induction false} Holds(bs: seq<Blk>, a: int, n: nat) returns (i: nat)
    requires Ordered(bs) && n > 0 && forall u :: a <= u < a + n ==> InFree(bs, u)
    ensures i < |bs| && bs[i].addr <= a && a + n <= bs[i].addr + bs[i].size
    decreases n
  {
    assert InFree(bs, a + n - 1);
    var k :| 0 <= k < |bs| && Inside(bs[k], a + n - 1);
    if n == 1 {
      i := k;
    } else {
      i := Holds(bs, a, n - 1);
      assert i == k;
    }
  }

  /** Fresh units, with a header in front, are one more block in use. */
  lemma {:induction false} CoreOk(bs: seq<Blk>, alloc: map<int, int>, ptr: map<int, int>, size: map<int, int>, b: Blk)
    requires Ordered(bs) && Ring(bs, ptr, size) && AllocOk(alloc, size) && Separate(bs, alloc) && b.addr > BASE
    requires b.size > 0
    requires forall u :: Inside(b, u) ==> !InFree(bs, u) && !Used(alloc, u)
    ensures b.addr !in alloc && Ring(bs, ptr, size[b.addr := b.size])
    ensures AllocOk(alloc[b.addr := b.size], size[b.addr := b.size]) && Separate(bs, alloc[b.addr := b.size])
  {
    assert Inside(b, b.addr);
    var more, s := alloc[b.addr := b.size], size[b.addr := b.size];
    assert b.addr in alloc ==> Used(alloc, b.addr);
    forall a | a in alloc
      ensures a + alloc[a] <= b.addr || b.addr + b.size <= a
    {
      if !(a + alloc[a] <= b.addr || b.addr + b.size <= a) {
        var u := if a < b.addr then b.addr else a;
        assert Used(alloc, u) && Inside(b, u);
      }
    }
    forall i | 0 <= i < |bs|
      ensures HeaderAt(bs[i], Next(bs, i), ptr, s)
    {
      assert HeaderAt(bs[i], Next(bs, i), ptr, size);
      if i > 0 { assert Inside(bs[i], bs[i].addr) && InFree(bs, bs[i].addr); }
    }
    forall u | InFree(bs, u)
      ensures !Used(more, u)
    {
      assert Used(more, u) ==> Inside(b, u) || Used(alloc, u);
    }
  }

  /** A block in use shares no unit and no header with the free blocks. */
  lemma {:induction false} BlockApart(bs: seq<Blk>, alloc: map<int, int>, size: map<int, int>, a: int)
    requires AllocOk(alloc, size) && Separate(bs, alloc) && a in alloc
    ensures forall u :: Inside(Blk(a, alloc[a]), u) ==> !InFree(bs, u)
    ensures Ordered(bs) ==> forall i :: 0 <= i < |bs| ==> bs[i].addr != a
  {
    forall u | Inside(Blk(a, alloc[a]), u)
      ensures !InFree(bs, u)
    {
      assert Used(alloc, u);
    }
    if Ordered(bs) {
      forall i | 0 <= i < |bs|
        ensures bs[i].addr != a
      {
        if i > 0 && bs[i].addr == a { assert Inside(bs[i], a) && Inside(Blk(a, alloc[a]), a); }
      }
    }
  }

  /** What stays in use keeps its header and shares nothing with the longer free list. */
  lemma {:induction false} FreedOk(bs: seq<Blk>, j: nat, b: Blk, alloc: map<int, int>, size0: map<int, int>,
                                   size: map<int, int>)
    requires Ordered(bs) && Fits(bs, j, b) && AllocOk(alloc, size0) && Separate(bs, alloc) && b.addr in alloc
    requires alloc[b.addr] == b.size
    requires size == LinkedSize(bs, j, b, size0)
    ensures AllocOk(alloc - {b.addr}, size) && Separate(Put(bs, j, b), alloc - {b.addr})
    ensures forall u :: InFree(Put(bs, j, b), u) <==> InFree(bs, u) || Inside(b, u)
    ensures exists f :: 0 <= f < |Put(bs, j, b)| && Put(bs, j, b)[f].addr == bs[j].addr
  {
    var left := alloc - {b.addr};
    forall a | a in left
      ensures a in size && size[a] == left[a]
    {
      BlockApart(bs, alloc, size0, a);
    }
    forall u
      ensures InFree(Put(bs, j, b), u) <==> InFree(bs, u) || Inside(b, u)
      ensures InFree(Put(bs, j, b), u) ==> !Used(left, u)
    {
      PutUnits(bs, j, b, u);
      if Used(left, u) {
        var a :| a in left && a <= u < a + left[a];
        assert Used(alloc, u) && a != b.addr;
      }
    }
    PutSplices(bs, j, b);
    assert Put(bs, j, b)[j].addr == bs[j].addr;
  }

  /** The units taken are one more block in use. */
  lemma {:induction false} TakenOk(bs: seq<Blk>, k: nat, n: int, alloc: map<int, int>, size: map<int, int>)
    requires Ordered(bs) && 0 < k < |bs| && 0 < n <= bs[k].size && AllocOk(alloc, size) && Separate(bs, alloc)
    requires bs[k].addr in size && size[bs[k].addr] == bs[k].size
    ensures var t := Taken(bs[k], n);
            t.addr !in alloc && Separate(Take(bs, k, n), alloc[t.addr := n]) &&
            AllocOk(alloc[t.addr := n], CarvedSize(bs, k, n, size))
    ensures forall u :: InFree(bs, u) <==> InFree(Take(bs, k, n), u) || Inside(Taken(bs[k], n), u)
  {
    var t := Taken(bs[k], n);
    forall u
      ensures InFree(bs, u) <==> InFree(Take(bs, k, n), u) || Inside(t, u)
      ensures !(InFree(Take(bs, k, n), u) && Inside(t, u))
    {
      TakeUnits(bs, k, n, u);
    }
    TakenApart(bs, t, alloc, size);
    TakenApart(bs, Blk(bs[k].addr, 1), alloc, size) by {
      forall u | Inside(Blk(bs[k].addr, 1), u)
        ensures InFree(bs, u)
      {
        assert Inside(bs[k], u);
      }
    }
    hide Ordered, InFree;
    forall u | InFree(Take(bs, k, n), u)
      ensures !Used(alloc[t.addr := n], u)
    {
      assert Used(alloc[t.addr := n], u) ==> Used(alloc, u) || Inside(t, u);
    }
  }

  lemma {:induction false} TakenApart(bs: seq<Blk>, t: Blk, alloc: map<int, int>, size: map<int, int>)
    requires AllocOk(alloc, size) && Separate(bs, alloc) && t.size > 0 && (forall u :: Inside(t, u) ==> InFree(bs, u))
    ensures t.addr !in alloc && forall a :: a in alloc ==> a + alloc[a] <= t.addr || t.addr + t.size <= a
  {
    assert Inside(t, t.addr);
    assert t.addr in alloc ==> Used(alloc, t.addr);
    forall a | a in alloc
      ensures a + alloc[a] <= t.addr || t.addr + t.size <= a
    {
      if !(a + alloc[a] <= t.addr || t.addr + t.size <= a) {
        var u := if a < t.addr then t.addr else a;
        assert Used(alloc, u) && Inside(t, u);
      }
    }
  }

  lemma {:induction false} SameIndex(bs: seq<Blk>, i: nat, j: nat)
    requires Ordered(bs) && i < |bs| && j < |bs| && bs[i].addr == bs[j].addr
    ensures i == j
  {
    assert i < j ==> Gap(bs[i], bs[j]);
    assert j < i ==> Gap(bs[j], bs[i]);
  }

  /** All the way around without a fit. */
  lemma {:induction false} AllSmall(bs: seq<Blk>, f: nat, n: int)
    requires f < |bs| && Small(bs, f, |bs|, n)
    ensures NoneFits(bs, n)
  {
    forall i | 0 <= i < |bs|
      ensures bs[i].size < n
    {
      assert At(f, Steps(f, i, |bs|), |bs|) == i;
    }
  }

  lemma {:induction false} StoreUnseen(bs: seq<Blk>, alloc: map<int, int>, ptr: map<int, int>, size: map<int, int>,
                                       a: int, u: int, x: int, y: int)
    requires AllocOk(alloc, size) && Separate(bs, alloc) && a in alloc && a < u < a + alloc[a]
    ensures AllocOk(alloc, size[u := y]) && (Ordered(bs) && Ring(bs, ptr, size) ==> Ring(bs, ptr[u := x], size[u := y]))
  {
    assert Used(alloc, u);
    if Ordered(bs) && Ring(bs, ptr, size) {
      forall i | 0 <= i < |bs|
        ensures HeaderAt(bs[i], Next(bs, i), ptr[u := x], size[u := y])
      {
        assert HeaderAt(bs[i], Next(bs, i), ptr, size);
        assert i > 0 ==> Inside(bs[i], bs[i].addr);
      }
    }
  }
}
