/** Disk blocks as byte sequences, and the little-endian 32-bit words inside them. */
module Bytes {

  const BSIZE := 512
  const WORDS := 128

  type byte = x: int | 0 <= x < 256
  type uint32 = x: int | 0 <= x < 0x1_0000_0000

  type Block = b: seq<byte> | |b| == BSIZE witness seq(BSIZE, _ => 0)

  function Zeroes(n: nat): (b: seq<byte>)
    ensures |b| == n && forall i :: 0 <= i < n ==> b[i] == 0
  {
    if n == 0 then [] else Zeroes(n - 1) + [0]
  }

  const ZERO_BLOCK: Block := Zeroes(BSIZE)

  /** The j-th unsigned word of a block, as `((uint*)data)[j]` reads it on x86. */
  function Word(b: Block, j: nat): uint32
    requires j < WORDS
  {
    var b0: int, b1: int, b2: int, b3: int := b[4 * j], b[4 * j + 1], b[4 * j + 2], b[4 * j + 3];
    b0 + 256 * b1 + 65536 * b2 + 16777216 * b3
  }

  /** The block after the assignment `((uint*)data)[j] = v`. */
  function PutWord(b: Block, j: nat, v: uint32): (r: Block)
    requires j < WORDS
    ensures Word(r, j) == v
    ensures forall k: nat :: k < WORDS && k != j ==> Word(r, k) == Word(b, k)
  {
    var (v1, v2, v3) := (v / 256, v / 256 / 256, v / 256 / 256 / 256);
    b[4 * j := v % 256][4 * j + 1 := v1 % 256][4 * j + 2 := v2 % 256][4 * j + 3 := v3]
  }
}
