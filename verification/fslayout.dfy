/** The on-disk file system of kernel/fs.c: inode table, bitmap and block ownership.

    The disk here is the plain sector map that cache and log present to the file system. */
module FsLayout {
  import opened Bytes
  import opened Bitmap

  const NDIRECT := 12
  const NINDIRECT := 128
  const MAXFILE := 140
  const IPB := 8
  const T_DIR := 1
  const T_DEV := 3

  type uint16 = x: int | 0 <= x < 0x1_0000

  datatype Superblock = Superblock(size: nat, ninodes: nat, nlog: nat)

  /** An inode without its number; shorts are kept as their bit patterns. */
  datatype Dinode = Dinode(kind: uint16, major: uint16, minor: uint16, nlink: uint16, size: uint32, addrs: seq<uint32>)

  const NO_ADDRS: seq<uint32> := [0, 0, 0, 0, 0, 0, 0, 0, 0, 0, 0, 0, 0]

  // ----- inode table -----

  /** Overwrites consecutive words of a block, from word `base` on. */
  function PutWords(b: Block, base: nat, ws: seq<uint32>): (r: Block)
    requires base + |ws| <= WORDS
    ensures forall k: nat :: k < |ws| ==> Word(r, base + k) == ws[k]
    ensures forall k: nat :: k < WORDS && !(base <= k < base + |ws|) ==> Word(r, k) == Word(b, k)
  {
    if ws == [] then b
    else PutWord(PutWords(b, base, ws[..|ws| - 1]), base + |ws| - 1, ws[|ws| - 1])
  }

  /** struct dinode as 16 words. */
  function InodeWords(d: Dinode): (ws: seq<uint32>)
    requires |d.addrs| == NDIRECT + 1
    ensures |ws| == 16
  {
    [d.kind + 65536 * d.major, d.minor + 65536 * d.nlink, d.size] + d.addrs
  }

  /** n consecutive words of a block, from word `base` on. */
  function GetWords(b: Block, base: nat, n: nat): (ws: seq<uint32>)
    requires base + n <= WORDS
    ensures |ws| == n && forall k :: 0 <= k < n ==> ws[k] == Word(b, base + k)
  {
    if n == 0 then [] else GetWords(b, base, n - 1) + [Word(b, base + n - 1)]
  }

  function FromWords(ws: seq<uint32>): (d: Dinode)
    requires |ws| == 16
    ensures |d.addrs| == NDIRECT + 1
  {
    Dinode(ws[0] % 65536, ws[0] / 65536, ws[1] % 65536, ws[1] / 65536, ws[2], ws[3..])
  }

  /** The inode in slot `slot` of an inode block. */
  function ReadInode(b: Block, slot: nat): (d: Dinode)
    requires slot < IPB
    ensures |d.addrs| == NDIRECT + 1
  {
    FromWords(GetWords(b, 16 * slot, 16))
  }

  /** iupdate's copy of an inode into its slot. */
  function PutInode(b: Block, slot: nat, d: Dinode): Block
    requires slot < IPB && |d.addrs| == NDIRECT + 1
  {
    PutWords(b, 16 * slot, InodeWords(d))
  }

  /** What iupdate writes, ilock reads back, and the other slots keep their inodes. */
  lemma {:induction false} InodeRoundTrip(b: Block, slot: nat, d: Dinode, other: nat)
    requires slot < IPB && other < IPB && |d.addrs| == NDIRECT + 1
    ensures ReadInode(PutInode(b, slot, d), other) == if other == slot then d else ReadInode(b, other)
  {
    hide Word, PutWords, GetWords, InodeWords, FromWords;
    var r, ws := PutInode(b, slot, d), InodeWords(d);
    if other == slot {
      assert GetWords(r, 16 * slot, 16) == ws;
      WordsOfInode(d);
    } else {
      assert GetWords(r, 16 * other, 16) == GetWords(b, 16 * other, 16);
    }
  }

  lemma {:induction false} WordsOfInode(d: Dinode)
    requires |d.addrs| == NDIRECT + 1
    ensures FromWords(InodeWords(d)) == d
  {
    assert InodeWords(d)[3..] == d.addrs;
  }

  // ----- geometry -----

  function BitStart(sb: Superblock): nat { sb.ninodes / IPB + 3 }

  /** The first block past the bitmap. */
  function DataStart(sb: Superblock): nat { BitStart(sb) + sb.size / BPB + 1 }

  function LogStart(sb: Superblock): int { sb.size - sb.nlog }

  function InodeBlock(i: nat): nat { i / IPB + 2 }

  function BitBlock(sb: Superblock, b: nat): nat { b / BPB + BitStart(sb) }

  predicate DataBlock(sb: Superblock, b: nat) {
    DataStart(sb) <= b < LogStart(sb)
  }

  predicate GoodDisk(sb: Superblock, disk: seq<Block>) {
    && |disk| == sb.size < 0x8000_0000
    && DataStart(sb) <= LogStart(sb)
  }

  /** The bitmap bit of block b. */
  predicate Bit(sb: Superblock, disk: seq<Block>, b: nat)
    requires GoodDisk(sb, disk) && b < sb.size
  {
    BitIn(disk[BitBlock(sb, b)], b % BPB)
  }

  /** The inode table entry of inode i. */
  function InodeOnDisk(sb: Superblock, disk: seq<Block>, i: nat): Dinode
    requires GoodDisk(sb, disk) && i < sb.ninodes
  {
    ReadInode(disk[InodeBlock(i)], i % IPB)
  }

  // ----- ownership -----

  /** What a data block is for: the bn-th block of a file, or its table of indirect blocks. */
  datatype Ref = Data(inum: nat, bn: nat) | Table(inum: nat)

  /** How much of a file is allocated: blocks lo to nb, and whether it has a table. */
  datatype Extent = Extent(lo: nat, nb: nat, table: bool)

  function NBlocks(size: nat): nat { (size + BSIZE - 1) / BSIZE }

  /** The extent of a file of a given size: no holes, no block beyond the end. */
  function ExtentOf(size: nat): Extent {
    Extent(0, NBlocks(size), NBlocks(size) > NDIRECT)
  }

  /** The disk block of the bn-th block of a file. */
  function BlockAt(disk: seq<Block>, x: Dinode, bn: nat): uint32
    requires |x.addrs| == NDIRECT + 1 && bn < MAXFILE && (bn >= NDIRECT ==> x.addrs[NDIRECT] < |disk|)
  {
    if bn < NDIRECT then x.addrs[bn] else Word(disk[x.addrs[NDIRECT]], bn - NDIRECT)
  }

  ghost predicate Owns(owner: map<nat, Ref>, b: nat, r: Ref) {
    b in owner && owner[b] == r
  }

  /** The addresses of inode i are those of its extent, each owned by it, and zero elsewhere. */
  ghost predicate FileOk(disk: seq<Block>, x: Dinode, i: nat, e: Extent, owner: map<nat, Ref>) {
    && |x.addrs| == NDIRECT + 1
    && e.lo <= e.nb <= MAXFILE && (e.nb > NDIRECT && e.lo < e.nb ==> e.table)
    && (e.table ==> x.addrs[NDIRECT] < |disk| && Owns(owner, x.addrs[NDIRECT], Table(i)))
    && (!e.table ==> x.addrs[NDIRECT] == 0)
    && (forall bn: nat :: e.lo <= bn < e.nb ==> Owns(owner, BlockAt(disk, x, bn), Data(i, bn)))
    && (forall bn :: e.nb <= bn < NDIRECT ==> x.addrs[bn] == 0)
    && (e.table ==> forall k: nat :: e.nb <= NDIRECT + k < MAXFILE ==> Word(disk[x.addrs[NDIRECT]], k) == 0)
  }

  /** An owned block is a data block and really is what its owner says. */
  ghost predicate RefOk(sb: Superblock, disk: seq<Block>, inodes: seq<Dinode>, ext: seq<Extent>, b: nat, r: Ref)
    requires |inodes| == |ext| == sb.ninodes
  {
    && DataBlock(sb, b) && r.inum < sb.ninodes
    && var x, e := inodes[r.inum], ext[r.inum];
       && |x.addrs| == NDIRECT + 1 && e.nb <= MAXFILE
       && match r
          case Data(_, bn) =>
            e.lo <= bn < e.nb && (bn >= NDIRECT ==> x.addrs[NDIRECT] < |disk|) && BlockAt(disk, x, bn) == b
          case Table(_) => e.table && x.addrs[NDIRECT] == b
  }

  /** Below the log, the bitmap marks the blocks before the data region and the owned ones, and no other.
      Nothing is said of the bits of the log's own blocks: mkfs leaves them clear. */
  ghost predicate BitsOk(sb: Superblock, disk: seq<Block>, owner: map<nat, Ref>)
    requires GoodDisk(sb, disk)
  {
    forall b: nat :: b < LogStart(sb) ==> (Bit(sb, disk, b) <==> !DataBlock(sb, b) || b in owner)
  }

  ghost predicate FsInv(sb: Superblock, disk: seq<Block>, inodes: seq<Dinode>, ext: seq<Extent>, owner: map<nat, Ref>) {
    && GoodDisk(sb, disk) && |inodes| == |ext| == sb.ninodes
    && BitsOk(sb, disk, owner)
    && (forall i :: 0 <= i < sb.ninodes ==> FileOk(disk, inodes[i], i, ext[i], owner))
    && (forall b :: b in owner ==> RefOk(sb, disk, inodes, ext, b, owner[b]))
  }

  // ----- what depends on what -----

  /** A file is described by its inode, its table and the ownership of its own blocks. */
  lemma {:induction false} FileFrame(disk: seq<Block>, d: seq<Block>, x: Dinode, i: nat, e: Extent, owner: map<nat,
                                     Ref>, o: map<nat, Ref>)
    requires FileOk(disk, x, i, e, owner) && |d| == |disk|
    requires e.table ==> d[x.addrs[NDIRECT]] == disk[x.addrs[NDIRECT]]
    requires forall b :: b in owner && owner[b].inum == i ==> Owns(o, b, owner[b])
    ensures FileOk(d, x, i, e, o)
  {
    hide Word;
    forall bn: nat | e.lo <= bn < e.nb ensures Owns(o, BlockAt(d, x, bn), Data(i, bn)) {
      assert Owns(owner, BlockAt(disk, x, bn), Data(i, bn));
    }
  }

  lemma {:induction false} RefFrame(sb: Superblock, disk: seq<Block>, d: seq<Block>, inodes: seq<Dinode>,
                                    ext: seq<Extent>, i: nat, x: Dinode, e: Extent, b: nat, r: Ref)
    requires |inodes| == |ext| == sb.ninodes && i < sb.ninodes && |d| == |disk|
    requires RefOk(sb, disk, inodes, ext, b, r) && r.inum != i
    requires r.Data? && r.bn >= NDIRECT ==> d[inodes[r.inum].addrs[NDIRECT]] == disk[inodes[r.inum].addrs[NDIRECT]]
    ensures RefOk(sb, d, inodes[i := x], ext[i := e], b, r)
  {
    hide Word;
  }

  /** Replacing one inode, its extent and the blocks it owns keeps the file system consistent. */
  lemma {:induction false} InodeChanged(sb: Superblock, disk: seq<Block>, d: seq<Block>, inodes: seq<Dinode>,
                                        ext: seq<Extent>, owner: map<nat, Ref>, i: nat, x: Dinode, e: Extent,
                                        o: map<nat, Ref>)
    requires FsInv(sb, disk, inodes, ext, owner) && i < sb.ninodes && GoodDisk(sb, d)
    requires forall b :: b in owner && owner[b].inum != i ==> Owns(o, b, owner[b])
    requires forall b :: b in o && o[b].inum != i ==> Owns(owner, b, o[b])
    requires forall j :: 0 <= j < sb.ninodes && j != i && ext[j].table ==>
      d[inodes[j].addrs[NDIRECT]] == disk[inodes[j].addrs[NDIRECT]]
    requires FileOk(d, x, i, e, o) && BitsOk(sb, d, o)
    requires forall b :: b in o && o[b].inum == i ==> RefOk(sb, d, inodes[i := x], ext[i := e], b, o[b])
    ensures FsInv(sb, d, inodes[i := x], ext[i := e], o)
  {
    hide BitsOk, Word, BlockAt;
    var xs, es := inodes[i := x], ext[i := e];
    forall j | 0 <= j < sb.ninodes ensures FileOk(d, xs[j], j, es[j], o) {
      if j != i {
        FileFrame(disk, d, inodes[j], j, ext[j], owner, o);
      }
    }
    forall b | b in o ensures RefOk(sb, d, inodes[i := x], ext[i := e], b, o[b]) {
      if o[b].inum != i {
        assert Owns(owner, b, o[b]);
        assert FileOk(disk, inodes[o[b].inum], o[b].inum, ext[o[b].inum], owner);
        RefFrame(sb, disk, d, inodes, ext, i, x, e, b, o[b]);
      }
    }
  }

  /** Blocks that hold neither bits of the map nor a table can be written freely. */
  lemma {:induction false} DiskChanged(sb: Superblock, disk: seq<Block>, d: seq<Block>, inodes: seq<Dinode>,
                                       ext: seq<Extent>, owner: map<nat, Ref>)
    requires FsInv(sb, disk, inodes, ext, owner) && |d| == |disk|
    requires forall s :: BitStart(sb) <= s < DataStart(sb) ==> d[s] == disk[s]
    requires forall j :: 0 <= j < sb.ninodes && ext[j].table ==>
      d[inodes[j].addrs[NDIRECT]] == disk[inodes[j].addrs[NDIRECT]]
    ensures FsInv(sb, d, inodes, ext, owner)
  {
    hide Word, BlockAt, BitIn;
    forall j | 0 <= j < sb.ninodes ensures FileOk(d, inodes[j], j, ext[j], owner) {
      FileFrame(disk, d, inodes[j], j, ext[j], owner, owner);
    }
    forall b | b in owner ensures RefOk(sb, d, inodes, ext, b, owner[b]) {
      var j := owner[b].inum;
      assert FileOk(disk, inodes[j], j, ext[j], owner);
      SameRef(sb, disk, d, inodes, ext, b, owner[b]);
    }
    BitsFrame(sb, disk, d, owner);
  }

  lemma {:induction false} SameRef(sb: Superblock, disk: seq<Block>, d: seq<Block>, inodes: seq<Dinode>,
                                   ext: seq<Extent>, b: nat, r: Ref)
    requires |inodes| == |ext| == sb.ninodes && |d| == |disk| && RefOk(sb, disk, inodes, ext, b, r)
    requires r.Data? && r.bn >= NDIRECT ==> d[inodes[r.inum].addrs[NDIRECT]] == disk[inodes[r.inum].addrs[NDIRECT]]
    ensures RefOk(sb, d, inodes, ext, b, r)
  {
    hide Word;
  }

  lemma {:induction false} BitsFrame(sb: Superblock, disk: seq<Block>, d: seq<Block>, owner: map<nat, Ref>)
    requires GoodDisk(sb, disk) && BitsOk(sb, disk, owner) && |d| == |disk|
    requires forall s :: BitStart(sb) <= s < DataStart(sb) ==> d[s] == disk[s]
    ensures BitsOk(sb, d, owner)
  {
    hide BitIn;
    forall b: nat | b < LogStart(sb) ensures Bit(sb, d, b) <==> !DataBlock(sb, b) || b in owner {
      assert Bit(sb, disk, b) <==> !DataBlock(sb, b) || b in owner;
    }
  }

  /** A file's data blocks can be written freely. */
  lemma {:induction false} DataWritten(sb: Superblock, disk: seq<Block>, inodes: seq<Dinode>, ext: seq<Extent>,
                                       owner: map<nat, Ref>, b: nat, data: Block)
    requires FsInv(sb, disk, inodes, ext, owner) && b in owner && owner[b].Data?
    ensures b < |disk| && FsInv(sb, disk[b := data], inodes, ext, owner)
  {
    hide BitsOk, Word, BlockAt;
    assert RefOk(sb, disk, inodes, ext, b, owner[b]);
    forall j | 0 <= j < sb.ninodes && ext[j].table ensures inodes[j].addrs[NDIRECT] != b {
      assert FileOk(disk, inodes[j], j, ext[j], owner);
    }
    DiskChanged(sb, disk, disk[b := data], inodes, ext, owner);
  }

  /** The inode table can be written freely. */
  lemma {:induction false} InodeTableWritten(sb: Superblock, disk: seq<Block>, inodes: seq<Dinode>, ext: seq<Extent>,
                                             owner: map<nat, Ref>, s: nat, data: Block)
    requires FsInv(sb, disk, inodes, ext, owner) && s < BitStart(sb)
    ensures s < |disk| && FsInv(sb, disk[s := data], inodes, ext, owner)
  {
    hide BitsOk, Word, BlockAt;
    forall j | 0 <= j < sb.ninodes && ext[j].table ensures inodes[j].addrs[NDIRECT] != s {
      assert FileOk(disk, inodes[j], j, ext[j], owner);
      assert RefOk(sb, disk, inodes, ext, inodes[j].addrs[NDIRECT], Table(j));
    }
    DiskChanged(sb, disk, disk[s := data], inodes, ext, owner);
  }

  // ----- allocation -----

  /** The bitmap block with the bit of b set or cleared. */
  function MarkDisk(sb: Superblock, disk: seq<Block>, b: nat, v: bool): (d: seq<Block>)
    requires GoodDisk(sb, disk) && b < sb.size
    ensures |d| == |disk|
  {
    disk[BitBlock(sb, b) := PutBit(disk[BitBlock(sb, b)], b % BPB, v)]
  }

  /** balloc's two writes: the bit, then the zeroed block. */
  function AllocDisk(sb: Superblock, disk: seq<Block>, b: nat): (d: seq<Block>)
    requires GoodDisk(sb, disk) && b < sb.size
    ensures |d| == |disk|
  {
    MarkDisk(sb, disk, b, true)[b := ZERO_BLOCK]
  }

  /** Setting or clearing one bit leaves the bits of the other blocks alone. */
  lemma {:induction false} OneBit(sb: Superblock, disk: seq<Block>, b: nat, v: bool, c: nat)
    requires GoodDisk(sb, disk) && b < sb.size && c < sb.size
    ensures Bit(sb, MarkDisk(sb, disk, b, v), c) == if c == b then v else Bit(sb, disk, c)
  {
    hide BitIn, PutBit;
  }

  lemma {:induction false} AllocBits(sb: Superblock, disk: seq<Block>, b: nat, r: Ref, owner: map<nat, Ref>)
    requires GoodDisk(sb, disk) && BitsOk(sb, disk, owner) && DataBlock(sb, b)
    ensures b < sb.size && BitsOk(sb, AllocDisk(sb, disk, b), owner[b := r])
  {
    hide BitIn, PutBit;
    hide MarkDisk;
    forall c: nat | c < LogStart(sb)
      ensures Bit(sb, AllocDisk(sb, disk, b), c) == (!DataBlock(sb, c) || c in owner[b := r])
    {
      OneBit(sb, disk, b, true, c);
      assert BitBlock(sb, c) != b;
    }
  }

  lemma {:induction false} FreeBits(sb: Superblock, disk: seq<Block>, b: nat, owner: map<nat, Ref>)
    requires GoodDisk(sb, disk) && BitsOk(sb, disk, owner) && DataBlock(sb, b)
    ensures b < sb.size && BitsOk(sb, MarkDisk(sb, disk, b, false), owner - {b})
  {
    hide BitIn, PutBit;
    forall c: nat | c < LogStart(sb)
      ensures Bit(sb, MarkDisk(sb, disk, b, false), c) == (!DataBlock(sb, c) || c in owner - {b})
    {
      OneBit(sb, disk, b, false, c);
    }
  }

  lemma {:induction false} AllocOthers(sb: Superblock, disk: seq<Block>, b: nat, s: nat)
    requires GoodDisk(sb, disk) && b < sb.size && s < sb.size && s != b && !(BitStart(sb) <= s < DataStart(sb))
    ensures AllocDisk(sb, disk, b)[s] == disk[s]
  {
    hide PutBit;
  }

  lemma {:induction false} MarkOthers(sb: Superblock, disk: seq<Block>, b: nat, v: bool, s: nat)
    requires GoodDisk(sb, disk) && b < sb.size && s < sb.size && !(BitStart(sb) <= s < DataStart(sb))
    ensures MarkDisk(sb, disk, b, v)[s] == disk[s]
  {
    hide PutBit;
  }

  /** balloc leaves every owned block as it is, tables included. */
  lemma {:induction false} AllocKeepsOwned(sb: Superblock, disk: seq<Block>, inodes: seq<Dinode>, ext: seq<Extent>,
                                           owner: map<nat, Ref>, b: nat)
    requires FsInv(sb, disk, inodes, ext, owner) && DataBlock(sb, b) && b !in owner
    ensures forall c :: c in owner ==> c < |disk| && AllocDisk(sb, disk, b)[c] == disk[c]
    ensures forall j :: 0 <= j < sb.ninodes && ext[j].table ==> inodes[j].addrs[NDIRECT] in owner
  {
    hide BitsOk, Word, BlockAt, AllocDisk;
    forall c | c in owner ensures c < |disk| && AllocDisk(sb, disk, b)[c] == disk[c] {
      assert RefOk(sb, disk, inodes, ext, c, owner[c]);
      AllocOthers(sb, disk, b, c);
    }
    forall j | 0 <= j < sb.ninodes && ext[j].table ensures inodes[j].addrs[NDIRECT] in owner {
      assert FileOk(disk, inodes[j], j, ext[j], owner);
    }
  }

  lemma {:induction false} DirectRef(sb: Superblock, disk: seq<Block>, d: seq<Block>, inodes: seq<Dinode>,
                                     ext: seq<Extent>, i: nat, b: uint32, c: nat, r: Ref)
    requires |inodes| == |ext| == sb.ninodes && i < sb.ninodes && |d| == |disk| && r.inum == i
    requires RefOk(sb, disk, inodes, ext, c, r) && ext[i].nb < NDIRECT
    ensures var x, e := inodes[i], ext[i];
            RefOk(sb, d, inodes[i := x.(addrs := x.addrs[e.nb := b])], ext[i := e.(nb := e.nb + 1)], c, r)
  {
    hide Word;
  }

  lemma {:induction false} NewDirectRef(sb: Superblock, d: seq<Block>, inodes: seq<Dinode>, ext: seq<Extent>, i: nat,
                                        b: nat)
    requires |inodes| == |ext| == sb.ninodes && i < sb.ninodes && DataBlock(sb, b) && |inodes[i].addrs| == NDIRECT + 1
    requires ext[i].lo < ext[i].nb <= NDIRECT && inodes[i].addrs[ext[i].nb - 1] == b
    ensures RefOk(sb, d, inodes, ext, b, Data(i, ext[i].nb - 1))
  {
  }

  /** A fresh block becomes the next direct block of a file. */
  lemma {:induction false} AttachDirect(sb: Superblock, disk: seq<Block>, inodes: seq<Dinode>, ext: seq<Extent>,
                                        owner: map<nat, Ref>, i: nat, b: uint32)
    requires FsInv(sb, disk, inodes, ext, owner) && i < sb.ninodes && DataBlock(sb, b) && b !in owner
    requires ext[i].nb < NDIRECT
    ensures |inodes[i].addrs| == NDIRECT + 1 && b < sb.size
    ensures var bn := ext[i].nb;
            FsInv(sb, AllocDisk(sb, disk, b), inodes[i := inodes[i].(addrs := inodes[i].addrs[bn := b])],
                  ext[i := ext[i].(nb := bn + 1)], owner[b := Data(i, bn)])
  {
    hide BitsOk, Word, AllocDisk, RefOk;
    var e, x, bn := ext[i], inodes[i], ext[i].nb;
    assert FileOk(disk, x, i, e, owner);
    var y, f, d, o := x.(addrs := x.addrs[bn := b]), e.(nb := bn + 1), AllocDisk(sb, disk, b), owner[b := Data(i, bn)];
    AllocKeepsOwned(sb, disk, inodes, ext, owner, b);
    AllocBits(sb, disk, b, Data(i, bn), owner);
    assert FileOk(d, y, i, f, o) by {
      forall n: nat | f.lo <= n < f.nb ensures Owns(o, BlockAt(d, y, n), Data(i, n)) {
        assert n < bn ==> Owns(owner, BlockAt(disk, x, n), Data(i, n));
      }
    }
    forall c | c in o && o[c].inum == i ensures RefOk(sb, d, inodes[i := y], ext[i := f], c, o[c]) {
      if c != b {
        DirectRef(sb, disk, d, inodes, ext, i, b, c, owner[c]);
      } else {
        NewDirectRef(sb, d, inodes[i := y], ext[i := f], i, b);
      }
    }
    InodeChanged(sb, disk, d, inodes, ext, owner, i, y, f, o);
  }

  lemma {:induction false} ZeroWord(k: nat)
    requires k < WORDS
    ensures Word(ZERO_BLOCK, k) == 0
  {
  }

  /** A fresh block becomes the table of indirect blocks of a file, with no entry yet. */
  lemma {:induction false} AttachTable(sb: Superblock, disk: seq<Block>, inodes: seq<Dinode>, ext: seq<Extent>,
                                       owner: map<nat, Ref>, i: nat, b: uint32)
    requires FsInv(sb, disk, inodes, ext, owner) && i < sb.ninodes && DataBlock(sb, b) && b !in owner
    requires ext[i].nb == NDIRECT && !ext[i].table
    ensures |inodes[i].addrs| == NDIRECT + 1 && b < sb.size
    ensures FsInv(sb, AllocDisk(sb, disk, b), inodes[i := inodes[i].(addrs := inodes[i].addrs[NDIRECT := b])],
                  ext[i := ext[i].(table := true)], owner[b := Table(i)])
  {
    hide BitsOk, Word, MarkDisk;
    var e, x := ext[i], inodes[i];
    assert FileOk(disk, x, i, e, owner);
    var y, f, d, o := x.(addrs := x.addrs[NDIRECT := b]), e.(table := true), AllocDisk(sb, disk, b),
        owner[b := Table(i)];
    AllocKeepsOwned(sb, disk, inodes, ext, owner, b);
    AllocBits(sb, disk, b, Table(i), owner);
    assert FileOk(d, y, i, f, o) by {
      forall n: nat | f.lo <= n < f.nb ensures Owns(o, BlockAt(d, y, n), Data(i, n)) {
        assert Owns(owner, BlockAt(disk, x, n), Data(i, n));
      }
      forall k: nat | f.nb <= NDIRECT + k < MAXFILE ensures Word(d[b], k) == 0 {
        ZeroWord(k);
      }
    }
    forall c | c in o && o[c].inum == i ensures RefOk(sb, d, inodes[i := y], ext[i := f], c, o[c]) {
      if c != b {
        assert RefOk(sb, disk, inodes, ext, c, owner[c]);
      }
    }
    InodeChanged(sb, disk, d, inodes, ext, owner, i, y, f, o);
  }

  /** The file whose table got a new entry. */
  lemma {:induction false} EntryAdded(sb: Superblock, disk: seq<Block>, d: seq<Block>, x: Dinode, i: nat, e: Extent,
                                      owner: map<nat, Ref>, b: uint32)
    requires FileOk(disk, x, i, e, owner) && e.table && NDIRECT <= e.nb < MAXFILE && b !in owner && |d| == |disk|
    requires d[x.addrs[NDIRECT]] == PutWord(disk[x.addrs[NDIRECT]], e.nb - NDIRECT, b)
    ensures FileOk(d, x, i, e.(nb := e.nb + 1), owner[b := Data(i, e.nb)])
    ensures forall n: nat :: n < e.nb ==> BlockAt(d, x, n) == BlockAt(disk, x, n)
    ensures BlockAt(d, x, e.nb) == b
  {
    hide Word, PutWord;
    var o := owner[b := Data(i, e.nb)];
    forall n: nat | n < e.nb ensures BlockAt(d, x, n) == BlockAt(disk, x, n) {
    }
    forall n: nat | e.lo <= n < e.nb + 1 ensures Owns(o, BlockAt(d, x, n), Data(i, n)) {
      assert n < e.nb ==> Owns(owner, BlockAt(disk, x, n), Data(i, n));
    }
  }

  lemma {:induction false} InDataRegion(sb: Superblock, disk: seq<Block>, inodes: seq<Dinode>, ext: seq<Extent>, c: nat,
                                        r: Ref)
    requires |inodes| == |ext| == sb.ninodes && RefOk(sb, disk, inodes, ext, c, r)
    ensures DataBlock(sb, c)
  {
  }

  lemma {:induction false} NewestRef(sb: Superblock, d: seq<Block>, inodes: seq<Dinode>, ext: seq<Extent>, i: nat,
                                     b: nat)
    requires |inodes| == |ext| == sb.ninodes && i < sb.ninodes && DataBlock(sb, b) && |inodes[i].addrs| == NDIRECT + 1
    requires ext[i].lo < ext[i].nb <= MAXFILE && inodes[i].addrs[NDIRECT] < |d|
    requires BlockAt(d, inodes[i], ext[i].nb - 1) == b
    ensures RefOk(sb, d, inodes, ext, b, Data(i, ext[i].nb - 1))
  {
    hide Word;
  }

  /** References to the older blocks of that file. */
  lemma {:induction false} OlderRef(sb: Superblock, disk: seq<Block>, d: seq<Block>, inodes: seq<Dinode>,
                                    ext: seq<Extent>, i: nat, c: nat, r: Ref)
    requires |inodes| == |ext| == sb.ninodes && i < sb.ninodes && |d| == |disk| && ext[i].nb < MAXFILE
    requires RefOk(sb, disk, inodes, ext, c, r) && r.inum == i
    requires ext[i].table && inodes[i].addrs[NDIRECT] < |disk|
    requires forall n: nat :: n < ext[i].nb ==> BlockAt(d, inodes[i], n) == BlockAt(disk, inodes[i], n)
    ensures RefOk(sb, d, inodes, ext[i := ext[i].(nb := ext[i].nb + 1)], c, r)
  {
    hide BlockAt;
  }

  /** A fresh block becomes the next indirect block of a file; t is the buffer of its table. */
  lemma {:induction false} AttachIndirect(sb: Superblock, disk: seq<Block>, inodes: seq<Dinode>, ext: seq<Extent>,
                                          owner: map<nat, Ref>, i: nat, b: uint32)
    requires FsInv(sb, disk, inodes, ext, owner) && i < sb.ninodes && DataBlock(sb, b) && b !in owner
    requires ext[i].table && NDIRECT <= ext[i].nb < MAXFILE
    ensures |inodes[i].addrs| == NDIRECT + 1 && b < sb.size && inodes[i].addrs[NDIRECT] < |disk|
    ensures var t, bn := inodes[i].addrs[NDIRECT], ext[i].nb;
            FsInv(sb, AllocDisk(sb, disk, b)[t := PutWord(disk[t], bn - NDIRECT, b)], inodes,
                  ext[i := ext[i].(nb := bn + 1)], owner[b := Data(i, bn)])
  {
    hide BitsOk, Word, PutWord, AllocDisk, BlockAt, RefOk;
    var e, x, bn := ext[i], inodes[i], ext[i].nb;
    assert FileOk(disk, x, i, e, owner);
    var t, f, o := x.addrs[NDIRECT], e.(nb := bn + 1), owner[b := Data(i, bn)];
    var d1 := AllocDisk(sb, disk, b);
    var d := d1[t := PutWord(disk[t], bn - NDIRECT, b)];
    AllocKeepsOwned(sb, disk, inodes, ext, owner, b);
    AllocBits(sb, disk, b, Data(i, bn), owner);
    assert RefOk(sb, disk, inodes, ext, t, Table(i));
    InDataRegion(sb, disk, inodes, ext, t, Table(i));
    BitsFrame(sb, d1, d, o);
    EntryAdded(sb, disk, d, x, i, e, owner, b);
    forall j | 0 <= j < sb.ninodes && j != i && ext[j].table
      ensures d[inodes[j].addrs[NDIRECT]] == disk[inodes[j].addrs[NDIRECT]]
    {
      assert FileOk(disk, inodes[j], j, ext[j], owner);
    }
    assert inodes[i := x] == inodes;
    forall c | c in o && o[c].inum == i ensures RefOk(sb, d, inodes[i := x], ext[i := f], c, o[c]) {
      if c != b {
        OlderRef(sb, disk, d, inodes, ext, i, c, owner[c]);
      } else {
        NewestRef(sb, d, inodes, ext[i := f], i, b);
      }
    }
    InodeChanged(sb, disk, d, inodes, ext, owner, i, x, f, o);
  }

  // ----- truncation -----

  lemma {:induction false} MarkKeepsOwned(sb: Superblock, disk: seq<Block>, inodes: seq<Dinode>, ext: seq<Extent>,
                                          owner: map<nat, Ref>, b: nat)
    requires FsInv(sb, disk, inodes, ext, owner) && b < sb.size
    ensures forall c :: c in owner ==> c < |disk| && MarkDisk(sb, disk, b, false)[c] == disk[c]
    ensures forall j :: 0 <= j < sb.ninodes && ext[j].table ==> inodes[j].addrs[NDIRECT] in owner
  {
    hide BitsOk, Word, BlockAt, MarkDisk;
    forall c | c in owner ensures c < |disk| && MarkDisk(sb, disk, b, false)[c] == disk[c] {
      assert RefOk(sb, disk, inodes, ext, c, owner[c]);
      MarkOthers(sb, disk, b, false, c);
    }
    forall j | 0 <= j < sb.ninodes && ext[j].table ensures inodes[j].addrs[NDIRECT] in owner {
      assert FileOk(disk, inodes[j], j, ext[j], owner);
    }
  }

  /** An owned block is marked. */
  lemma {:induction false} OwnedBit(sb: Superblock, disk: seq<Block>, inodes: seq<Dinode>, ext: seq<Extent>,
                                    owner: map<nat, Ref>, b: nat)
    requires FsInv(sb, disk, inodes, ext, owner) && b in owner
    ensures DataBlock(sb, b) && b < sb.size && Bit(sb, disk, b)
  {
    hide BitIn, BlockAt, FileOk;
    assert RefOk(sb, disk, inodes, ext, b, owner[b]);
  }

  /** The first block a file still has is set, and freeing it leaves the rest of the file. */
  lemma {:induction false} Detach(sb: Superblock, disk: seq<Block>, inodes: seq<Dinode>, ext: seq<Extent>,
                                  owner: map<nat, Ref>, i: nat, x: Dinode, b: nat)
    requires FsInv(sb, disk, inodes, ext, owner) && i < sb.ninodes && ext[i].lo < ext[i].nb
    requires Owns(owner, b, Data(i, ext[i].lo))
    requires |inodes[i].addrs| == |x.addrs| == NDIRECT + 1
    requires forall k :: 0 <= k <= NDIRECT && k != ext[i].lo ==> x.addrs[k] == inodes[i].addrs[k]
    requires ext[i].lo >= NDIRECT ==> x.addrs == inodes[i].addrs
    ensures b < sb.size && Bit(sb, disk, b)
    ensures FsInv(sb, MarkDisk(sb, disk, b, false), inodes[i := x], ext[i := ext[i].(lo := ext[i].lo + 1)], owner - {b})
  {
    hide BitsOk, Word, MarkDisk, RefOk, BlockAt;
    var e, y := ext[i], inodes[i];
    OwnedBit(sb, disk, inodes, ext, owner, b);
    assert FileOk(disk, y, i, e, owner);
    var f, d, o := e.(lo := e.lo + 1), MarkDisk(sb, disk, b, false), owner - {b};
    MarkKeepsOwned(sb, disk, inodes, ext, owner, b);
    FreeBits(sb, disk, b, owner);
    ShorterFile(disk, d, y, x, i, e, owner, b);
    forall c | c in o && o[c].inum == i ensures RefOk(sb, d, inodes[i := x], ext[i := f], c, o[c]) {
      assert RefOk(sb, disk, inodes, ext, c, owner[c]) && RefOk(sb, disk, inodes, ext, b, owner[b]);
      RemainingRef(sb, disk, d, inodes, ext, i, x, b, c, owner[c]);
    }
    InodeChanged(sb, disk, d, inodes, ext, owner, i, x, f, o);
  }

  lemma {:induction false} RemainingRef(sb: Superblock, disk: seq<Block>, d: seq<Block>, inodes: seq<Dinode>,
                                        ext: seq<Extent>, i: nat, x: Dinode, b: nat, c: nat, r: Ref)
    requires |inodes| == |ext| == sb.ninodes && i < sb.ninodes && |d| == |disk| && c != b && r.inum == i
    requires RefOk(sb, disk, inodes, ext, b, Data(i, ext[i].lo)) && RefOk(sb, disk, inodes, ext, c, r)
    requires |x.addrs| == NDIRECT + 1 && (ext[i].lo >= NDIRECT ==> x.addrs == inodes[i].addrs)
    requires forall k :: 0 <= k <= NDIRECT && k != ext[i].lo ==> x.addrs[k] == inodes[i].addrs[k]
    requires ext[i].nb > NDIRECT ==>
      inodes[i].addrs[NDIRECT] < |disk| && d[inodes[i].addrs[NDIRECT]] == disk[inodes[i].addrs[NDIRECT]]
    ensures RefOk(sb, d, inodes[i := x], ext[i := ext[i].(lo := ext[i].lo + 1)], c, r)
  {
    hide Word;
  }

  lemma {:induction false} ShorterFile(disk: seq<Block>, d: seq<Block>, y: Dinode, x: Dinode, i: nat, e: Extent,
                                       owner: map<nat, Ref>, b: nat)
    requires FileOk(disk, y, i, e, owner) && e.lo < e.nb && Owns(owner, b, Data(i, e.lo)) && |d| == |disk|
    requires |x.addrs| == NDIRECT + 1 && (e.lo >= NDIRECT ==> x.addrs == y.addrs)
    requires forall k :: 0 <= k <= NDIRECT && k != e.lo ==> x.addrs[k] == y.addrs[k]
    requires e.table ==> d[y.addrs[NDIRECT]] == disk[y.addrs[NDIRECT]]
    ensures FileOk(d, x, i, e.(lo := e.lo + 1), owner - {b})
  {
    hide Word;
    forall n: nat | e.lo + 1 <= n < e.nb ensures Owns(owner - {b}, BlockAt(d, x, n), Data(i, n)) {
      assert Owns(owner, BlockAt(disk, y, n), Data(i, n));
    }
  }

  lemma {:induction false} OnlyTableLeft(sb: Superblock, disk: seq<Block>, inodes: seq<Dinode>, ext: seq<Extent>,
                                         owner: map<nat, Ref>, i: nat)
    requires FsInv(sb, disk, inodes, ext, owner) && i < sb.ninodes && ext[i].lo == ext[i].nb && ext[i].table
    ensures |inodes[i].addrs| == NDIRECT + 1 && Owns(owner, inodes[i].addrs[NDIRECT], Table(i))
    ensures DataBlock(sb, inodes[i].addrs[NDIRECT])
    ensures forall c :: c in owner && owner[c].inum == i ==> c == inodes[i].addrs[NDIRECT]
  {
    hide BitsOk, BlockAt;
    assert FileOk(disk, inodes[i], i, ext[i], owner);
    assert RefOk(sb, disk, inodes, ext, inodes[i].addrs[NDIRECT], Table(i));
    forall c | c in owner && owner[c].inum == i ensures c == inodes[i].addrs[NDIRECT] {
      assert RefOk(sb, disk, inodes, ext, c, owner[c]);
    }
  }

  /** Last, the table goes. */
  lemma {:induction false} DetachTable(sb: Superblock, disk: seq<Block>, inodes: seq<Dinode>, ext: seq<Extent>,
                                       owner: map<nat, Ref>, i: nat)
    requires FsInv(sb, disk, inodes, ext, owner) && i < sb.ninodes && ext[i].lo == ext[i].nb && ext[i].table
    ensures |inodes[i].addrs| == NDIRECT + 1 && inodes[i].addrs[NDIRECT] < sb.size
    ensures Bit(sb, disk, inodes[i].addrs[NDIRECT])
    ensures var t := inodes[i].addrs[NDIRECT];
            FsInv(sb, MarkDisk(sb, disk, t, false), inodes[i := inodes[i].(addrs := inodes[i].addrs[NDIRECT := 0])],
                  ext[i := ext[i].(table := false)], owner - {t})
  {
    hide BitIn, Word, MarkDisk, RefOk, BlockAt;
    OnlyTableLeft(sb, disk, inodes, ext, owner, i);
    var e, y := ext[i], inodes[i];
    assert FileOk(disk, y, i, e, owner);
    var t := y.addrs[NDIRECT];
    var x, f, d, o := y.(addrs := y.addrs[NDIRECT := 0]), e.(table := false), MarkDisk(sb, disk, t, false), owner - {t};
    MarkKeepsOwned(sb, disk, inodes, ext, owner, t);
    FreeBits(sb, disk, t, owner);
    assert FileOk(d, x, i, f, o);
    InodeChanged(sb, disk, d, inodes, ext, owner, i, x, f, o);
  }

  /** A file with no block left is an empty file, and owns nothing. */
  lemma {:induction false} EmptyFile(sb: Superblock, disk: seq<Block>, inodes: seq<Dinode>, ext: seq<Extent>,
                                     owner: map<nat, Ref>, i: nat, x: Dinode)
    requires FsInv(sb, disk, inodes, ext, owner) && i < sb.ninodes && ext[i].lo == ext[i].nb && !ext[i].table
    requires x.addrs == inodes[i].addrs && |x.addrs| == NDIRECT + 1 && forall k :: 0 <= k < NDIRECT ==> x.addrs[k] == 0
    ensures FsInv(sb, disk, inodes[i := x], ext[i := Extent(0, 0, false)], owner)
    ensures forall b :: b in owner ==> owner[b].inum != i
  {
    hide BitsOk, Word;
    assert FileOk(disk, inodes[i], i, ext[i], owner);
    forall b | b in owner ensures owner[b].inum != i {
      assert RefOk(sb, disk, inodes, ext, b, owner[b]);
    }
    InodeChanged(sb, disk, disk, inodes, ext, owner, i, x, Extent(0, 0, false), owner);
  }
}
