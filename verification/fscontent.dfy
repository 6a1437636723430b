/** Files as byte sequences, over the block map of FsLayout. */
module FsContent {
  import opened Bytes
  import opened FsLayout

  /** The bn-th block of a file, zero where it has none. */
  function FileBlock(disk: seq<Block>, x: Dinode, bn: nat): Block {
    if && |x.addrs| == NDIRECT + 1 && bn < MAXFILE && (bn >= NDIRECT ==> x.addrs[NDIRECT] < |disk|)
       && BlockAt(disk, x, bn) < |disk|
    then disk[BlockAt(disk, x, bn)]
    else ZERO_BLOCK
  }

  function Byte(disk: seq<Block>, x: Dinode, k: nat): byte {
    FileBlock(disk, x, k / BSIZE)[k % BSIZE]
  }

  /** The first n bytes of a file. */
  function Contents(disk: seq<Block>, x: Dinode, n: nat): (c: seq<byte>)
    ensures |c| == n && forall k :: 0 <= k < n ==> c[k] == Byte(disk, x, k)
  {
    if n == 0 then [] else Contents(disk, x, n - 1) + [Byte(disk, x, n - 1)]
  }

  /** A file as its reader sees it. */
  function File(disk: seq<Block>, x: Dinode): (c: seq<byte>)
    ensures |c| == x.size
  {
    Contents(disk, x, x.size)
  }

  /** c with src written over it at off, extending it if need be. */
  function Splice(c: seq<byte>, off: nat, src: seq<byte>): seq<byte>
    requires off <= |c|
  {
    c[..off] + src + if off + |src| < |c| then c[off + |src|..] else []
  }

  /** A block keeps its place in a file as long as it is owned, and its bytes as long as they are kept. */
  lemma {:induction false} BlockKept(sb: Superblock, disk: seq<Block>, inodes: seq<Dinode>, ext: seq<Extent>,
                                     owner: map<nat, Ref>, d: seq<Block>, xs: seq<Dinode>, es: seq<Extent>, o: map<nat,
                                     Ref>, j: nat, n: nat)
    requires FsInv(sb, disk, inodes, ext, owner) && FsInv(sb, d, xs, es, o) && j < sb.ninodes
    requires ext[j].lo <= n < ext[j].nb
    requires forall b :: b in owner && owner[b].inum == j ==> Owns(o, b, owner[b])
    requires forall b :: b in owner && owner[b].Data? && owner[b].inum == j && b < |disk| ==> d[b] == disk[b]
    ensures FileBlock(d, xs[j], n) == FileBlock(disk, inodes[j], n)
  {
    hide BitsOk, Word, BlockAt;
    assert FileOk(disk, inodes[j], j, ext[j], owner);
    var b := BlockAt(disk, inodes[j], n);
    assert Owns(o, b, Data(j, n));
    assert RefOk(sb, d, xs, es, b, o[b]);
    assert RefOk(sb, disk, inodes, ext, b, owner[b]);
  }

  /** Writing a data block changes that block of that file and no other block of any file. */
  lemma {:induction false} BlockWritten(sb: Superblock, disk: seq<Block>, inodes: seq<Dinode>, ext: seq<Extent>,
                                        owner: map<nat, Ref>, i: nat, bn: nat, a: nat, data: Block, j: nat, n: nat)
    requires FsInv(sb, disk, inodes, ext, owner) && i < sb.ninodes && j < sb.ninodes
    requires Owns(owner, a, Data(i, bn)) && a < |disk| && ext[j].lo <= n < ext[j].nb
    ensures FileBlock(disk[a := data], inodes[j], n) ==
            if j == i && n == bn then data else FileBlock(disk, inodes[j], n)
  {
    hide BitsOk, Word;
    assert FileOk(disk, inodes[j], j, ext[j], owner);
    assert Owns(owner, BlockAt(disk, inodes[j], n), Data(j, n));
    assert RefOk(sb, disk, inodes, ext, BlockAt(disk, inodes[j], n), Data(j, n));
    assert RefOk(sb, disk, inodes, ext, a, Data(i, bn));
    if n >= NDIRECT {
      assert Owns(owner, inodes[j].addrs[NDIRECT], Table(j));
    }
  }
}
