/** Free lists of ulib/umalloc.c as values: address-ordered blocks, first the empty block of the static header.
    Addresses and sizes count units of one header. */
module FreeList {

  datatype Blk = Blk(addr: int, size: int)

  const BASE := 0

  predicate Gap(a: Blk, b: Blk) {
    a.addr + a.size < b.addr
  }

  /** Ordered, disjoint and never adjacent. */
  predicate Ordered(bs: seq<Blk>) {
    && |bs| > 0 && bs[0] == Blk(BASE, 0)
    && (forall i :: 0 < i < |bs| ==> bs[i].size > 0)
    && (forall i, j :: 0 <= i < j < |bs| ==> Gap(bs[i], bs[j]))
  }

  predicate Inside(b: Blk, u: int) {
    b.addr <= u < b.addr + b.size
  }

  predicate InFree(bs: seq<Blk>, u: int) {
    exists i :: 0 <= i < |bs| && Inside(bs[i], u)
  }

  /** Units of the blocks in use, given by address and size. */
  predicate Used(alloc: map<int, int>, u: int) {
    exists a :: a in alloc && a <= u < a + alloc[a]
  }

  // ----- putting a block in -----

  predicate JoinsLeft(bs: seq<Blk>, j: nat, b: Blk)
    requires j < |bs|
  {
    bs[j].addr + bs[j].size == b.addr
  }

  predicate JoinsRight(bs: seq<Blk>, j: nat, b: Blk)
    requires j < |bs|
  {
    j + 1 < |bs| && b.addr + b.size == bs[j + 1].addr
  }

  /** b fits between the blocks j and j + 1. */
  predicate Fits(bs: seq<Blk>, j: nat, b: Blk) {
    && j < |bs| && b.size > 0 && b.addr > BASE
    && bs[j].addr + bs[j].size <= b.addr
    && (j + 1 < |bs| ==> b.addr + b.size <= bs[j + 1].addr)
  }

  /** The blocks that b joins are those from From up to To, and Merged is what they become. */
  function From(bs: seq<Blk>, j: nat, b: Blk): nat
    requires j < |bs|
  {
    if JoinsLeft(bs, j, b) then j else j + 1
  }

  function To(bs: seq<Blk>, j: nat, b: Blk): nat
    requires j < |bs|
  {
    if JoinsRight(bs, j, b) then j + 2 else j + 1
  }

  function Merged(bs: seq<Blk>, j: nat, b: Blk): Blk
    requires j < |bs|
  {
    var right := if JoinsRight(bs, j, b) then bs[j + 1].size else 0;
    if JoinsLeft(bs, j, b) then Blk(bs[j].addr, bs[j].size + b.size + right) else Blk(b.addr, b.size + right)
  }

  function Put(bs: seq<Blk>, j: nat, b: Blk): seq<Blk>
    requires j < |bs|
  {
    bs[..From(bs, j, b)] + [Merged(bs, j, b)] + bs[To(bs, j, b)..]
  }

  /** cs is bs with the blocks from e up to d replaced by m. */
  predicate Spliced(bs: seq<Blk>, cs: seq<Blk>, e: nat, d: nat, m: Blk) {
    && e <= d <= |bs| && d <= e + 2 && |cs| == e + 1 + (|bs| - d)
    && (forall i :: 0 <= i < e ==> cs[i] == bs[i]) && cs[e] == m
    && (forall i :: e < i < |cs| ==> cs[i] == bs[i - e - 1 + d])
  }

  lemma {:induction false} SplicedOrdered(bs: seq<Blk>, cs: seq<Blk>, e: nat, d: nat, m: Blk)
    requires Ordered(bs) && Spliced(bs, cs, e, d, m) && e > 0 && m.size > 0
    requires Gap(bs[e - 1], m) && (d < |bs| ==> Gap(m, bs[d]))
    ensures Ordered(cs)
  {
    forall i, j | 0 <= i < j < |cs|
      ensures Gap(cs[i], cs[j])
    {
      var x := if i < e then i else if i == e then e - 1 else i - e - 1 + d;
      var y := if j < e then j else if j == e then e - 1 else j - e - 1 + d;
      assert x < y ==> Gap(bs[x], bs[y]);
      if i == e && y > d { assert Gap(bs[d], bs[y]); }
      if j == e && x < e - 1 { assert Gap(bs[x], bs[e - 1]); }
    }
  }

  lemma {:induction false} SplicedUnits(bs: seq<Blk>, cs: seq<Blk>, e: nat, d: nat, m: Blk, u: int)
    requires Spliced(bs, cs, e, d, m)
    ensures InFree(cs, u) <==> Inside(m, u) || exists i :: 0 <= i < |bs| && !(e <= i < d) && Inside(bs[i], u)
  {
    if InFree(cs, u) {
      var i :| 0 <= i < |cs| && Inside(cs[i], u);
      if i != e {
        var o := if i < e then i else i - e - 1 + d;
        assert 0 <= o < |bs| && !(e <= o < d) && Inside(bs[o], u);
      }
    }
    if Inside(m, u) { assert Inside(cs[e], u); }
    if exists i :: 0 <= i < |bs| && !(e <= i < d) && Inside(bs[i], u) {
      var i :| 0 <= i < |bs| && !(e <= i < d) && Inside(bs[i], u);
      assert Inside(cs[if i < e then i else i - d + e + 1], u);
    }
  }

  lemma {:induction false} PutSplices(bs: seq<Blk>, j: nat, b: Blk)
    requires j < |bs|
    ensures Spliced(bs, Put(bs, j, b), From(bs, j, b), To(bs, j, b), Merged(bs, j, b))
  {
    hide JoinsLeft, Merged;
  }

  lemma {:induction false} MergedOk(bs: seq<Blk>, j: nat, b: Blk)
    requires Ordered(bs) && Fits(bs, j, b)
    ensures From(bs, j, b) > 0 && Merged(bs, j, b).size > 0 && Gap(bs[From(bs, j, b) - 1], Merged(bs, j, b))
    ensures To(bs, j, b) < |bs| ==> Gap(Merged(bs, j, b), bs[To(bs, j, b)])
  {
    assert j > 0 ==> Gap(bs[j - 1], bs[j]);
    assert j + 1 < |bs| ==> Gap(bs[j], bs[j + 1]);
    assert j + 2 < |bs| ==> Gap(bs[j + 1], bs[j + 2]);
  }

  lemma {:induction false} PutOrdered(bs: seq<Blk>, j: nat, b: Blk)
    requires Ordered(bs) && Fits(bs, j, b)
    ensures Ordered(Put(bs, j, b))
  {
    PutSplices(bs, j, b);
    MergedOk(bs, j, b);
    hide Put;
    SplicedOrdered(bs, Put(bs, j, b), From(bs, j, b), To(bs, j, b), Merged(bs, j, b));
  }

  lemma {:induction false} MergedUnits(bs: seq<Blk>, j: nat, b: Blk, u: int)
    requires Ordered(bs) && Fits(bs, j, b)
    ensures Inside(Merged(bs, j, b), u) <==>
            Inside(b, u) || (JoinsLeft(bs, j, b) && Inside(bs[j], u)) || (JoinsRight(bs, j, b) && Inside(bs[j + 1], u))
  {
  }

  lemma {:induction false} PutUnits(bs: seq<Blk>, j: nat, b: Blk, u: int)
    requires Ordered(bs) && Fits(bs, j, b)
    ensures InFree(Put(bs, j, b), u) <==> InFree(bs, u) || Inside(b, u)
  {
    PutSplices(bs, j, b);
    SplicedUnits(bs, Put(bs, j, b), From(bs, j, b), To(bs, j, b), Merged(bs, j, b), u);
    MergedUnits(bs, j, b, u);
    hide Ordered, Put, Spliced, Inside, Merged, JoinsLeft, JoinsRight;
    if InFree(bs, u) {
      var i :| 0 <= i < |bs| && Inside(bs[i], u);
      assert From(bs, j, b) <= i < To(bs, j, b) ==>
             (i == j && JoinsLeft(bs, j, b)) || (i == j + 1 && JoinsRight(bs, j, b));
    }
  }

  // ----- taking units out -----

  function Take(bs: seq<Blk>, k: nat, n: int): seq<Blk>
    requires k < |bs|
  {
    if bs[k].size == n then bs[..k] + bs[k + 1..] else bs[k := Blk(bs[k].addr, bs[k].size - n)]
  }

  /** The units taken are the last of the block. */
  function Taken(b: Blk, n: int): Blk {
    Blk(b.addr + (b.size - n), n)
  }

  lemma {:induction false} TakeOrdered(bs: seq<Blk>, k: nat, n: int)
    requires Ordered(bs) && 0 < k < |bs| && 0 < n <= bs[k].size
    ensures Ordered(Take(bs, k, n))
  {
    var cs := Take(bs, k, n);
    forall i, j | 0 <= i < j < |cs|
      ensures Gap(cs[i], cs[j])
    {
      if bs[k].size == n {
        assert Gap(bs[if i < k then i else i + 1], bs[if j < k then j else j + 1]);
      } else {
        assert Gap(bs[i], bs[j]);
      }
    }
  }

  lemma {:induction false} TakeUnits(bs: seq<Blk>, k: nat, n: int, u: int)
    requires Ordered(bs) && 0 < k < |bs| && 0 < n <= bs[k].size
    ensures InFree(bs, u) <==> InFree(Take(bs, k, n), u) || Inside(Taken(bs[k], n), u)
    ensures !(InFree(Take(bs, k, n), u) && Inside(Taken(bs[k], n), u))
  {
    var cs, t := Take(bs, k, n), Taken(bs[k], n);
    if InFree(bs, u) {
      var i :| 0 <= i < |bs| && Inside(bs[i], u);
      if bs[k].size == n {
        if i < k { assert cs[i] == bs[i]; } else if i > k { assert cs[i - 1] == bs[i]; }
      } else {
        assert i != k ==> cs[i] == bs[i];
        assert i == k && !Inside(t, u) ==> Inside(cs[k], u);
      }
    }
    if Inside(t, u) { assert Inside(bs[k], u); }
    if InFree(cs, u) {
      var i :| 0 <= i < |cs| && Inside(cs[i], u);
      var o := if bs[k].size == n && i >= k then i + 1 else i;
      assert Inside(bs[o], u);
      assert o < k ==> Gap(bs[o], bs[k]);
      assert k < o ==> Gap(bs[k], bs[o]);
    }
  }

  // ----- the free units determine the list -----

  /** Below block i the lists agree, so a unit in a block of cs from i on lies at or above its address. */
  lemma {:induction false} UnitAbove(cs: seq<Blk>, i: nat, u: int)
    requires Ordered(cs) && i < |cs| && InFree(cs, u) && (i > 0 ==> cs[i - 1].addr + cs[i - 1].size <= u)
    ensures cs[i].addr <= u
  {
    var k :| 0 <= k < |cs| && Inside(cs[k], u);
    assert k < i - 1 ==> Gap(cs[k], cs[i - 1]);
    assert i < k ==> Gap(cs[i], cs[k]);
  }

  lemma {:induction false} SameBlock(bs: seq<Blk>, cs: seq<Blk>, i: nat)
    requires Ordered(bs) && Ordered(cs) && 0 < i < |bs| && i < |cs| && bs[..i] == cs[..i]
    requires forall u :: InFree(bs, u) <==> InFree(cs, u)
    ensures bs[i].addr >= cs[i].addr && (bs[i].addr == cs[i].addr ==> bs[i].size <= cs[i].size)
  {
    assert bs[i - 1] == cs[i - 1] by { assert bs[..i][i - 1] == cs[..i][i - 1]; }
    assert Gap(bs[i - 1], bs[i]);
    assert Inside(bs[i], bs[i].addr);
    UnitAbove(cs, i, bs[i].addr);
    EndNotFree(cs, i);
    var u := cs[i].addr + cs[i].size;
    assert !InFree(bs, u);
    assert !Inside(bs[i], u);
  }

  /** The unit after a block is not free. */
  lemma {:induction false} EndNotFree(cs: seq<Blk>, i: nat)
    requires Ordered(cs) && i < |cs|
    ensures !InFree(cs, cs[i].addr + cs[i].size)
  {
    forall k | 0 <= k < |cs|
      ensures !Inside(cs[k], cs[i].addr + cs[i].size)
    {
      assert k < i ==> Gap(cs[k], cs[i]);
      assert i < k ==> Gap(cs[i], cs[k]);
    }
  }

  lemma {:induction false} SamePrefix(bs: seq<Blk>, cs: seq<Blk>, i: nat)
    requires Ordered(bs) && Ordered(cs) && i <= |bs| && i <= |cs| && forall u :: InFree(bs, u) <==> InFree(cs, u)
    ensures bs[..i] == cs[..i]
  {
    if i == 1 {
      assert bs[..1] == [bs[0]] && cs[..1] == [cs[0]];
    } else if i > 1 {
      SamePrefix(bs, cs, i - 1);
      SameBlock(bs, cs, i - 1);
      SameBlock(cs, bs, i - 1);
      assert bs[..i] == bs[..i - 1] + [bs[i - 1]] && cs[..i] == cs[..i - 1] + [cs[i - 1]];
    }
  }

  /** A list says nothing of what lies above its last block. */
  lemma {:induction false} BeyondNotFree(bs: seq<Blk>, cs: seq<Blk>)
    requires Ordered(bs) && |cs| < |bs| && bs[..|cs|] == cs
    ensures !InFree(cs, bs[|cs|].addr)
  {
    forall k | 0 <= k < |cs|
      ensures !Inside(cs[k], bs[|cs|].addr)
    {
      assert cs[k] == bs[..|cs|][k] == bs[k];
      assert Gap(bs[k], bs[|cs|]);
    }
  }

  lemma {:induction false} NoLonger(bs: seq<Blk>, cs: seq<Blk>)
    requires Ordered(bs) && Ordered(cs) && forall u :: InFree(bs, u) <==> InFree(cs, u)
    ensures |bs| <= |cs|
  {
    if |bs| > |cs| {
      SamePrefix(bs, cs, |cs|);
      assert cs[..|cs|] == cs;
      assert Inside(bs[|cs|], bs[|cs|].addr);
      BeyondNotFree(bs, cs);
    }
  }

  /** Two free lists with the same free units are the same list: the list is canonical. */
  lemma {:induction false} Canonical(bs: seq<Blk>, cs: seq<Blk>)
    requires Ordered(bs) && Ordered(cs) && forall u :: InFree(bs, u) <==> InFree(cs, u)
    ensures bs == cs
  {
    NoLonger(bs, cs);
    NoLonger(cs, bs);
    SamePrefix(bs, cs, |bs|);
    assert bs[..|bs|] == bs && cs[..|cs|] == cs;
  }
}
