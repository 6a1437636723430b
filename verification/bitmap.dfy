/** The free-block bitmap of the file system: bit bi of a block is bit bi % 8 of byte bi / 8. */
module Bitmap {
  import opened Bytes

  const BPB := 4096

  /** `x & (1 << k)` is not zero. */
  predicate BitOf(x: nat, k: nat) {
    if k == 0 then x % 2 == 1 else BitOf(x / 2, k - 1)
  }

  function Exp2(n: nat): nat {
    if n == 0 then 1 else 2 * Exp2(n - 1)
  }

  /** `x | (1 << k)` or `x & ~(1 << k)`, in a number of n bits. */
  function SetBit(x: nat, k: nat, v: bool, n: nat): (r: nat)
    requires x < Exp2(n) && k < n
    ensures r < Exp2(n) && BitOf(r, k) == v
    ensures forall j: nat :: j != k ==> BitOf(r, j) == BitOf(x, j)
    decreases k
  {
    if k == 0 then x - x % 2 + (if v then 1 else 0)
    else 2 * SetBit(x / 2, k - 1, v, n - 1) + x % 2
  }

  predicate BitIn(b: Block, i: nat)
    requires i < BPB
  {
    BitOf(b[i / 8], i % 8)
  }

  /** The block with bit i set or cleared. */
  function PutBit(b: Block, i: nat, v: bool): (r: Block)
    requires i < BPB
    ensures BitIn(r, i) == v
    ensures forall j: nat :: j < BPB && j != i ==> BitIn(r, j) == BitIn(b, j)
  {
    assert Exp2(8) == 256;
    b[i / 8 := SetBit(b[i / 8], i % 8, v, 8)]
  }
}
