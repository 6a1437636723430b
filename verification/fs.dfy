/** kernel/fs.c: block allocation, the block map of an inode, truncation, and reading and
    writing files as byte sequences. */
module FileSystem {
  import opened Bytes
  import opened Bitmap
  import opened FsLayout
  import opened FsContent
  import C = BufferCache
  import R = RedoLog

  /** Outcomes of readi and writei: the C results, the device switch, and the panics. */
  datatype ReadResult = Bytes(data: seq<byte>) | ReadError | DeviceRead
  datatype WriteResult = Wrote(n: nat) | WriteError | DeviceWrite | Panicked

  datatype PutResult = Put(ref: nat) | PutBusy | PutLogFull
  datatype FreeResult = Unmarked | FreeingFree | LogTooBig

  datatype Option<+T> = None | Some(value: T)

  lemma {:induction false} BitAt(sb: Superblock, disk: seq<Block>, b: nat, bi: nat)
    requires GoodDisk(sb, disk) && b % BPB == 0 && bi < BPB && b + bi < sb.size
    ensures BitBlock(sb, b + bi) == BitBlock(sb, b) && (b + bi) % BPB == bi
    ensures Bit(sb, disk, b + bi) == BitIn(disk[BitBlock(sb, b)], bi)
  {
    hide BitIn;
  }

  ghost predicate SetBelow(sb: Superblock, disk: seq<Block>, n: nat)
    requires GoodDisk(sb, disk) && n <= sb.size
  {
    forall c: nat :: c < n ==> Bit(sb, disk, c)
  }

  lemma {:induction false} SetStart(sb: Superblock, disk: seq<Block>)
    requires GoodDisk(sb, disk)
    ensures SetBelow(sb, disk, 0)
  {
  }

  /** A map block scanned as far as its bit bi. */
  lemma {:induction false} SetMore(sb: Superblock, disk: seq<Block>, b: nat, bi: nat)
    requires GoodDisk(sb, disk) && b < sb.size && b % BPB == 0 && bi <= BPB && b + bi <= sb.size
    requires SetBelow(sb, disk, b) && forall k: nat :: k < bi ==> BitIn(disk[BitBlock(sb, b)], k)
    ensures SetBelow(sb, disk, b + bi)
    ensures bi < BPB && b + bi < sb.size && !BitIn(disk[BitBlock(sb, b)], bi) ==> !Bit(sb, disk, b + bi)
  {
    hide BitIn, Bit, BitBlock;
    forall c: nat | c < b + bi ensures Bit(sb, disk, c) {
      if c >= b { BitAt(sb, disk, b, c - b); }
    }
    if bi < BPB && b + bi < sb.size { BitAt(sb, disk, b, bi); }
  }

  lemma {:induction false} AllSet(sb: Superblock, disk: seq<Block>)
    requires GoodDisk(sb, disk) && SetBelow(sb, disk, sb.size)
    ensures NoneFree(sb, disk)
  {
    hide Bit;
  }

  lemma {:induction false} ClearAt(sb: Superblock, disk: seq<Block>, b: nat)
    requires GoodDisk(sb, disk) && b < sb.size && !Bit(sb, disk, b) && SetBelow(sb, disk, b)
    ensures (b >= LogStart(sb) <==> NoneFree(sb, disk)) && (forall c: nat :: c < b ==> Bit(sb, disk, c))
    ensures !SetBelow(sb, disk, sb.size)
  {
    hide Bit;
  }

  /** Below the log, a clear bit is that of a data block nobody owns. */
  lemma {:induction false} ClearIsFree(sb: Superblock, disk: seq<Block>, inodes: seq<Dinode>, ext: seq<Extent>,
                                       owner: map<nat, Ref>, b: nat)
    requires FsInv(sb, disk, inodes, ext, owner) && b < LogStart(sb) && !Bit(sb, disk, b)
    ensures DataBlock(sb, b) && b !in owner
  {
    hide BitIn, FileOk, RefOk;
  }

  /** Allocating a block of the log leaves the bits below it. */
  lemma {:induction false} StillFull(sb: Superblock, disk: seq<Block>, b: nat)
    requires GoodDisk(sb, disk) && LogStart(sb) <= b < sb.size && forall c: nat :: c < b ==> Bit(sb, disk, c)
    ensures NoneFree(sb, AllocDisk(sb, disk, b))
  {
    hide BitIn, PutBit;
    forall c: nat | c < LogStart(sb) ensures Bit(sb, AllocDisk(sb, disk, b), c) {
      OneBit(sb, disk, b, true, c);
      assert BitBlock(sb, c) != b;
    }
  }

  lemma {:induction false} Dimensions(sb: Superblock, disk: seq<Block>, inodes: seq<Dinode>, ext: seq<Extent>,
                                      owner: map<nat, Ref>)
    requires FsInv(sb, disk, inodes, ext, owner)
    ensures GoodDisk(sb, disk) && |inodes| == |ext| == sb.ninodes
    ensures forall i :: 0 <= i < sb.ninodes ==> |inodes[i].addrs| == NDIRECT + 1
  {
    forall i | 0 <= i < sb.ninodes ensures |inodes[i].addrs| == NDIRECT + 1 {
      assert FileOk(disk, inodes[i], i, ext[i], owner);
    }
  }

  lemma {:induction false} TableIsOwned(sb: Superblock, disk: seq<Block>, inodes: seq<Dinode>, ext: seq<Extent>,
                                        owner: map<nat, Ref>, i: nat)
    requires FsInv(sb, disk, inodes, ext, owner) && i < sb.ninodes && ext[i].table
    ensures |inodes[i].addrs| == NDIRECT + 1 && Owns(owner, inodes[i].addrs[NDIRECT], Table(i))
    ensures DataBlock(sb, inodes[i].addrs[NDIRECT]) && inodes[i].addrs[NDIRECT] < |disk|
  {
    assert FileOk(disk, inodes[i], i, ext[i], owner);
    assert RefOk(sb, disk, inodes, ext, inodes[i].addrs[NDIRECT], Table(i));
  }

  /** An allocated block number is that of an owned data block, so never zero. */
  lemma {:induction false} Mapped(sb: Superblock, disk: seq<Block>, inodes: seq<Dinode>, ext: seq<Extent>,
                                  owner: map<nat, Ref>, i: nat, bn: nat)
    requires FsInv(sb, disk, inodes, ext, owner) && i < sb.ninodes && ext[i].lo <= bn < ext[i].nb
    ensures |inodes[i].addrs| == NDIRECT + 1 && bn < MAXFILE
    ensures bn >= NDIRECT ==> ext[i].table && inodes[i].addrs[NDIRECT] < |disk| && inodes[i].addrs[NDIRECT] != 0
    ensures var a := BlockAt(disk, inodes[i], bn); 0 < a < |disk| && DataBlock(sb, a) && Owns(owner, a, Data(i, bn))
  {
    hide BitsOk, BlockAt;
    assert FileOk(disk, inodes[i], i, ext[i], owner);
    var a := BlockAt(disk, inodes[i], bn);
    assert RefOk(sb, disk, inodes, ext, a, Data(i, bn));
    if bn >= NDIRECT {
      TableIsOwned(sb, disk, inodes, ext, owner, i);
    }
  }

  /** The place for the next block of a file holds zero. */
  lemma {:induction false} Unmapped(sb: Superblock, disk: seq<Block>, inodes: seq<Dinode>, ext: seq<Extent>,
                                    owner: map<nat, Ref>, i: nat)
    requires FsInv(sb, disk, inodes, ext, owner) && i < sb.ninodes
    ensures |inodes[i].addrs| == NDIRECT + 1 && ext[i].nb <= MAXFILE
    ensures ext[i].nb < NDIRECT ==> inodes[i].addrs[ext[i].nb] == 0
    ensures !ext[i].table ==> inodes[i].addrs[NDIRECT] == 0
    ensures ext[i].table && NDIRECT <= ext[i].nb < MAXFILE ==>
      && 0 < inodes[i].addrs[NDIRECT] < |disk|
      && Word(disk[inodes[i].addrs[NDIRECT]], ext[i].nb - NDIRECT) == 0
  {
    hide BitsOk;
    assert FileOk(disk, inodes[i], i, ext[i], owner);
    if ext[i].table {
      TableIsOwned(sb, disk, inodes, ext, owner, i);
    }
  }

  lemma {:induction false} AllocZeroes(sb: Superblock, disk: seq<Block>, b: nat)
    requires GoodDisk(sb, disk) && DataBlock(sb, b) && b < sb.size
    ensures AllocDisk(sb, disk, b)[b] == ZERO_BLOCK && BitBlock(sb, b) in MapBlocks(sb)
    ensures forall s :: 0 <= s < BitStart(sb) && s < |disk| ==> AllocDisk(sb, disk, b)[s] == disk[s]
  {
    hide AllocDisk, Zeroes;
    forall s | 0 <= s < BitStart(sb) && s < |disk| ensures AllocDisk(sb, disk, b)[s] == disk[s] {
      AllocOthers(sb, disk, b, s);
    }
    AllocAt(sb, disk, b);
  }

  lemma {:induction false} AllocAt(sb: Superblock, disk: seq<Block>, b: nat)
    requires GoodDisk(sb, disk) && b < sb.size
    ensures AllocDisk(sb, disk, b)[b] == ZERO_BLOCK
  {
    hide PutBit, Zeroes;
  }

  /** The contents of data blocks are kept. */
  ghost predicate DataKept(disk: seq<Block>, d: seq<Block>, owner: map<nat, Ref>) {
    && |d| == |disk|
    && forall b :: b in owner && owner[b].Data? && b < |disk| ==> d[b] == disk[b]
  }

  ghost predicate Extends(owner: map<nat, Ref>, o: map<nat, Ref>) {
    forall b :: b in owner ==> Owns(o, b, owner[b])
  }

  /** Of the inodes only i changed; blocks were added, and no data block or inode sector changed. */
  ghost predicate OnlyInode(sb: Superblock, i: nat, disk: seq<Block>, inodes: seq<Dinode>, ext: seq<Extent>,
                            owner: map<nat, Ref>, d: seq<Block>, xs: seq<Dinode>, es: seq<Extent>, o: map<nat, Ref>)
  {
    && i < |inodes| == |ext| == |xs| == |es| && xs == inodes[i := xs[i]]
    && (forall j :: 0 <= j < |es| && j != i ==> es[j] == ext[j])
    && Extends(owner, o) && DataKept(disk, d, owner)
    && forall s :: 0 <= s < BitStart(sb) && s < |d| ==> d[s] == disk[s]
  }

  lemma {:induction false} OnlyInodeTrans(sb: Superblock, i: nat, disk: seq<Block>, inodes: seq<Dinode>,
                                          ext: seq<Extent>, owner: map<nat, Ref>, d1: seq<Block>, xs1: seq<Dinode>,
                                          es1: seq<Extent>, o1: map<nat, Ref>, d2: seq<Block>, xs2: seq<Dinode>,
                                          es2: seq<Extent>, o2: map<nat, Ref>)
    requires OnlyInode(sb, i, disk, inodes, ext, owner, d1, xs1, es1, o1)
    requires OnlyInode(sb, i, d1, xs1, es1, o1, d2, xs2, es2, o2)
    ensures OnlyInode(sb, i, disk, inodes, ext, owner, d2, xs2, es2, o2)
  {
    forall b | b in owner ensures Owns(o2, b, owner[b]) {
      assert Owns(o1, b, owner[b]);
    }
  }

  /** What an allocation for inode i keeps. */
  lemma {:induction false} AllocOnlyInode(sb: Superblock, disk: seq<Block>, inodes: seq<Dinode>, ext: seq<Extent>,
                                          owner: map<nat, Ref>, i: nat, b: nat, x: Dinode, e: Extent, r: Ref)
    requires FsInv(sb, disk, inodes, ext, owner) && i < sb.ninodes && DataBlock(sb, b) && b < sb.size && b !in owner
    requires |inodes| == |ext| == sb.ninodes
    ensures OnlyInode(sb, i, disk, inodes, ext, owner,
                      AllocDisk(sb, disk, b), inodes[i := x], ext[i := e], owner[b := r])
    ensures AllocDisk(sb, disk, b)[b] == ZERO_BLOCK
  {
    hide FsInv, AllocDisk, MapBlocks;
    Dimensions(sb, disk, inodes, ext, owner);
    AllocKeepsOwned(sb, disk, inodes, ext, owner, b);
    AllocZeroes(sb, disk, b);
  }

  /** All that an allocation of an indirect block does, in one place. */
  lemma {:induction false} IndirectGrown(sb: Superblock, disk: seq<Block>, inodes: seq<Dinode>, ext: seq<Extent>,
                                         owner: map<nat, Ref>, i: nat, b: uint32, d: seq<Block>)
    requires FsInv(sb, disk, inodes, ext, owner) && i < sb.ninodes && b < LogStart(sb) && !Bit(sb, disk, b)
    requires |inodes| == |ext| == sb.ninodes && ext[i].table && NDIRECT <= ext[i].nb < MAXFILE
    requires |inodes[i].addrs| == NDIRECT + 1 && inodes[i].addrs[NDIRECT] < |disk|
    requires var t := inodes[i].addrs[NDIRECT];
             t < |AllocDisk(sb, disk, b)| && d == AllocDisk(sb, disk, b)[t := PutWord(disk[t], ext[i].nb - NDIRECT, b)]
    ensures FsInv(sb, d, inodes, ext[i := ext[i].(nb := ext[i].nb + 1)], owner[b := Data(i, ext[i].nb)])
    ensures OnlyInode(sb, i, disk, inodes, ext, owner,
                      d, inodes, ext[i := ext[i].(nb := ext[i].nb + 1)], owner[b := Data(i, ext[i].nb)])
    ensures b < |d| && d[b] == ZERO_BLOCK && BitBlock(sb, b) in MapBlocks(sb)
  {
    hide MapBlocks, FsInv, AllocDisk, Bit, BitIn, PutWord;
    Dimensions(sb, disk, inodes, ext, owner);
    TableIsOwned(sb, disk, inodes, ext, owner, i);
    ClearIsFree(sb, disk, inodes, ext, owner, b);
    AttachIndirect(sb, disk, inodes, ext, owner, i, b);
    AllocKeepsOwned(sb, disk, inodes, ext, owner, b);
    AllocZeroes(sb, disk, b);
  }

  /** Every file but i keeps its inode and its blocks. */
  ghost predicate SameFiles(disk: seq<Block>, inodes: seq<Dinode>, ext: seq<Extent>, d: seq<Block>, xs: seq<Dinode>,
                            es: seq<Extent>, i: nat)
  {
    && |inodes| == |ext| == |xs| == |es|
    && forall j :: 0 <= j < |inodes| && j != i ==>
         xs[j] == inodes[j] && es[j] == ext[j] && SameBlocks(disk, inodes[j], d, xs[j], ext[j].nb)
  }

  ghost predicate SameBlocks(disk: seq<Block>, x: Dinode, d: seq<Block>, y: Dinode, nb: nat) {
    forall n: nat :: n < nb ==> FileBlock(d, y, n) == FileBlock(disk, x, n)
  }

  lemma {:induction false} SameFilesRefl(disk: seq<Block>, inodes: seq<Dinode>, ext: seq<Extent>, i: nat)
    requires |inodes| == |ext|
    ensures SameFiles(disk, inodes, ext, disk, inodes, ext, i)
  {
  }

  function Max(a: nat, b: nat): nat { if a < b then b else a }

  lemma {:induction false} SameFilesTrans(disk: seq<Block>, inodes: seq<Dinode>, ext: seq<Extent>, d: seq<Block>,
                                          xs: seq<Dinode>, es: seq<Extent>, d2: seq<Block>, xs2: seq<Dinode>,
                                          es2: seq<Extent>, i: nat)
    requires SameFiles(disk, inodes, ext, d, xs, es, i) && SameFiles(d, xs, es, d2, xs2, es2, i)
    ensures SameFiles(disk, inodes, ext, d2, xs2, es2, i)
  {
    hide FileBlock;
    forall j | 0 <= j < |inodes| && j != i ensures SameBlocks(disk, inodes[j], d2, xs2[j], ext[j].nb) {
      assert SameBlocks(disk, inodes[j], d, xs[j], ext[j].nb) && SameBlocks(d, xs[j], d2, xs2[j], es[j].nb);
      forall n: nat | n < ext[j].nb ensures FileBlock(d2, xs2[j], n) == FileBlock(disk, inodes[j], n) {
        assert FileBlock(d, xs[j], n) == FileBlock(disk, inodes[j], n);
      }
    }
  }

  /** What bmap leaves of the old blocks of any file. */
  lemma {:induction false} GrowthKeepsFiles(sb: Superblock, disk: seq<Block>, inodes: seq<Dinode>, ext: seq<Extent>,
                                            owner: map<nat, Ref>, d: seq<Block>, xs: seq<Dinode>, es: seq<Extent>,
                                            o: map<nat, Ref>, i: nat)
    requires FsInv(sb, disk, inodes, ext, owner) && FsInv(sb, d, xs, es, o) && i < sb.ninodes
    requires Extends(owner, o) && DataKept(disk, d, owner) && forall j :: 0 <= j < sb.ninodes ==> ext[j].lo == 0
    requires forall j :: 0 <= j < sb.ninodes && j != i ==> xs[j] == inodes[j] && es[j] == ext[j]
    ensures SameFiles(disk, inodes, ext, d, xs, es, i) && SameBlocks(disk, inodes[i], d, xs[i], ext[i].nb)
  {
    hide FileBlock, FileOk, RefOk, BitsOk;
    forall j: nat | j < sb.ninodes ensures SameBlocks(disk, inodes[j], d, xs[j], ext[j].nb) {
      forall n: nat | n < ext[j].nb ensures FileBlock(d, xs[j], n) == FileBlock(disk, inodes[j], n) {
        BlockKept(sb, disk, inodes, ext, owner, d, xs, es, o, j, n);
      }
    }
  }

  /** Writing one block of file i keeps the other files, and the other blocks of this one. */
  lemma {:induction false} WriteKeepsFiles(sb: Superblock, disk: seq<Block>, inodes: seq<Dinode>, ext: seq<Extent>,
                                           owner: map<nat, Ref>, i: nat, bn: nat, a: nat, data: Block)
    requires FsInv(sb, disk, inodes, ext, owner) && i < sb.ninodes
    requires (forall j :: 0 <= j < sb.ninodes ==> ext[j].lo == 0)
    requires Owns(owner, a, Data(i, bn)) && a < |disk|
    ensures FsInv(sb, disk[a := data], inodes, ext, owner)
    ensures SameFiles(disk, inodes, ext, disk[a := data], inodes, ext, i)
    ensures forall n: nat :: n < ext[i].nb ==>
      FileBlock(disk[a := data], inodes[i], n) == if n == bn then data else FileBlock(disk, inodes[i], n)
  {
    hide FileBlock, FileOk, RefOk, BitsOk;
    DataWritten(sb, disk, inodes, ext, owner, a, data);
    var d := disk[a := data];
    forall j: nat | j < sb.ninodes && j != i ensures SameBlocks(disk, inodes[j], d, inodes[j], ext[j].nb) {
      forall n: nat | n < ext[j].nb ensures FileBlock(d, inodes[j], n) == FileBlock(disk, inodes[j], n) {
        BlockWritten(sb, disk, inodes, ext, owner, i, bn, a, data, j, n);
      }
    }
    forall n: nat | n < ext[i].nb
      ensures FileBlock(d, inodes[i], n) == if n == bn then data else FileBlock(disk, inodes[i], n)
    {
      BlockWritten(sb, disk, inodes, ext, owner, i, bn, a, data, i, n);
    }
  }

  /** The block behind an owned reference. */
  lemma {:induction false} BlockIs(sb: Superblock, disk: seq<Block>, inodes: seq<Dinode>, ext: seq<Extent>,
                                   owner: map<nat, Ref>, i: nat, bn: nat, a: nat)
    requires FsInv(sb, disk, inodes, ext, owner) && i < sb.ninodes && Owns(owner, a, Data(i, bn)) && a < |disk|
    ensures FileBlock(disk, inodes[i], bn) == disk[a] && DataBlock(sb, a)
  {
    hide BitsOk, Word;
    assert RefOk(sb, disk, inodes, ext, a, owner[a]);
  }

  /** A block with m bytes replaced from position o on. */
  function Overlay(b: Block, o: nat, chunk: seq<byte>): (r: Block)
    requires o + |chunk| <= BSIZE
    ensures forall k :: 0 <= k < BSIZE ==> r[k] == if o <= k < o + |chunk| then chunk[k - o] else b[k]
  {
    b[..o] + chunk + b[o + |chunk|..]
  }

  /** The file of x has the bytes of c, with src written at off as far as position p. */
  ghost predicate Written(disk: seq<Block>, x: Dinode, c: seq<byte>, off: nat, src: seq<byte>, p: nat)
    requires off <= p <= off + |src|
  {
    forall k: nat :: k < |c| || k < p ==> HasByte(disk, x, c, off, src, p, k)
  }

  ghost predicate HasByte(disk: seq<Block>, x: Dinode, c: seq<byte>, off: nat, src: seq<byte>, p: nat, k: nat)
    requires off <= p <= off + |src| && (k < |c| || k < p)
  {
    if off <= k < p then Byte(disk, x, k) == src[k - off]
    else k < |c| ==> Byte(disk, x, k) == c[k]
  }

  /** What one more chunk does to byte k of the file. */
  lemma {:induction false} WrittenByte(disk: seq<Block>, x: Dinode, d: seq<Block>, y: Dinode, nb: nat, c: seq<byte>,
                                       off: nat, src: seq<byte>, p: nat, m: nat, k: nat)
    requires off <= |c| && off <= p && p + m <= off + |src| && p % BSIZE + m <= BSIZE
    requires |c| <= nb * BSIZE && p <= nb * BSIZE && (k < |c| || k < p + m)
    requires k < |c| || k < p ==> HasByte(disk, x, c, off, src, p, k)
    requires k / BSIZE < nb && k / BSIZE != p / BSIZE ==> FileBlock(d, y, k / BSIZE) == FileBlock(disk, x, k / BSIZE)
    requires FileBlock(d, y, p / BSIZE) ==
             Overlay(if p / BSIZE < nb then FileBlock(disk, x, p / BSIZE) else ZERO_BLOCK,
                     p % BSIZE, src[p - off..p - off + m])
    ensures HasByte(d, y, c, off, src, p + m, k)
  {
    hide FileBlock, Overlay, Byte;
    var bn, n := p / BSIZE, k / BSIZE;
    Positions(p, m, k);
    ByteAt(d, y, k);
    ByteAt(disk, x, k);
  }

  lemma {:induction false} ByteAt(disk: seq<Block>, x: Dinode, k: nat)
    ensures Byte(disk, x, k) == FileBlock(disk, x, k / BSIZE)[k % BSIZE]
  {
    hide FileBlock;
  }

  /** Positions k and p, where m bytes are written: in one block they are as far apart as their offsets. */
  lemma {:induction false} Positions(p: nat, m: nat, k: nat)
    requires p % BSIZE + m <= BSIZE
    ensures k / BSIZE == p / BSIZE ==> k % BSIZE - p % BSIZE == k - p
    ensures k / BSIZE != p / BSIZE ==> !(p <= k < p + m)
    ensures k < p ==> k / BSIZE <= p / BSIZE
    ensures forall nb: nat :: k < nb * BSIZE ==> k / BSIZE < nb
  {
  }

  /** One more chunk written. */
  lemma {:induction false} WrittenStep(disk: seq<Block>, x: Dinode, d: seq<Block>, y: Dinode, nb: nat, c: seq<byte>,
                                       off: nat, src: seq<byte>, p: nat, m: nat)
    requires off <= |c| && off <= p && p + m <= off + |src| && p % BSIZE + m <= BSIZE
    requires Written(disk, x, c, off, src, p) && |c| <= nb * BSIZE && p <= nb * BSIZE
    requires forall n: nat :: n < nb && n != p / BSIZE ==> FileBlock(d, y, n) == FileBlock(disk, x, n)
    requires FileBlock(d, y, p / BSIZE) ==
             Overlay(if p / BSIZE < nb then FileBlock(disk, x, p / BSIZE) else ZERO_BLOCK,
                     p % BSIZE, src[p - off..p - off + m])
    ensures Written(d, y, c, off, src, p + m)
  {
    hide FileBlock, Overlay, HasByte;
    var q := p + m;
    forall k: nat | k < |c| || k < q ensures HasByte(d, y, c, off, src, q, k) {
      WrittenByte(disk, x, d, y, nb, c, off, src, p, m, k);
    }
  }

  /** A file written to the end of src and given its new length is the splice. */
  lemma {:induction false} WrittenIsSplice(d: seq<Block>, x: Dinode, c: seq<byte>, off: nat, src: seq<byte>)
    requires off <= |c| && Written(d, x, c, off, src, off + |src|)
    requires x.size == (if off + |src| > |c| then off + |src| else |c|)
    ensures File(d, x) == Splice(c, off, src)
  {
    hide FileBlock, Byte;
    var f, g := File(d, x), Splice(c, off, src);
    assert |f| == |g|;
    forall k | 0 <= k < |f| ensures f[k] == g[k] {
      assert HasByte(d, x, c, off, src, off + |src|, k);
    }
  }

  lemma {:induction false} NothingWritten(disk: seq<Block>, x: Dinode, off: nat, src: seq<byte>)
    requires off <= x.size
    ensures Written(disk, x, File(disk, x), off, src, off)
  {
    hide Byte;
    forall k: nat | k < x.size || k < off ensures HasByte(disk, x, File(disk, x), off, src, off, k) {
    }
  }

  /** The inode's other fields do not matter to the block map. */
  lemma {:induction false} FieldsChanged(sb: Superblock, disk: seq<Block>, inodes: seq<Dinode>, ext: seq<Extent>,
                                         owner: map<nat, Ref>, i: nat, x: Dinode)
    requires FsInv(sb, disk, inodes, ext, owner) && i < sb.ninodes && x.addrs == inodes[i].addrs
    ensures FsInv(sb, disk, inodes[i := x], ext, owner)
    ensures SameFiles(disk, inodes, ext, disk, inodes[i := x], ext, i)
    ensures SameBlocks(disk, inodes[i], disk, x, ext[i].nb)
  {
    hide BitsOk, Word;
    assert ext[i := ext[i]] == ext;
    assert FileOk(disk, x, i, ext[i], owner) by {
      assert FileOk(disk, inodes[i], i, ext[i], owner);
      forall n: nat | ext[i].lo <= n < ext[i].nb ensures Owns(owner, BlockAt(disk, x, n), Data(i, n)) {
        assert Owns(owner, BlockAt(disk, inodes[i], n), Data(i, n));
      }
    }
    forall b | b in owner && owner[b].inum == i ensures RefOk(sb, disk, inodes[i := x], ext[i := ext[i]], b, owner[b]) {
      assert RefOk(sb, disk, inodes, ext, b, owner[b]);
    }
    InodeChanged(sb, disk, disk, inodes, ext, owner, i, x, ext[i], owner);
  }

  /** iupdate changes one entry of the inode table and no file's bytes. */
  lemma {:induction false} TableEntryWritten(sb: Superblock, disk: seq<Block>, inodes: seq<Dinode>, ext: seq<Extent>,
                                             owner: map<nat, Ref>, i: nat, x: Dinode)
    requires FsInv(sb, disk, inodes, ext, owner) && i < sb.ninodes && |x.addrs| == NDIRECT + 1
    requires forall j :: 0 <= j < sb.ninodes ==> ext[j].lo == 0
    ensures InodeBlock(i) < |disk|
    ensures var d := disk[InodeBlock(i) := PutInode(disk[InodeBlock(i)], i % IPB, x)];
            && FsInv(sb, d, inodes, ext, owner)
            && SameFiles(disk, inodes, ext, d, inodes, ext, i) && SameBlocks(disk, inodes[i], d, inodes[i], ext[i].nb)
            && forall j: nat :: j < sb.ninodes ==>
                 InodeOnDisk(sb, d, j) == if j == i then x else InodeOnDisk(sb, disk, j)
  {
    hide FileOk, BitsOk, PutInode, ReadInode, FileBlock;
    var d := disk[InodeBlock(i) := PutInode(disk[InodeBlock(i)], i % IPB, x)];
    InodeTableWritten(sb, disk, inodes, ext, owner, InodeBlock(i), PutInode(disk[InodeBlock(i)], i % IPB, x));
    forall b | b in owner && owner[b].Data? && b < |disk| ensures d[b] == disk[b] {
      assert RefOk(sb, disk, inodes, ext, b, owner[b]);
    }
    GrowthKeepsFiles(sb, disk, inodes, ext, owner, d, inodes, ext, owner, i);
    forall j: nat | j < sb.ninodes ensures InodeOnDisk(sb, d, j) == if j == i then x else InodeOnDisk(sb, disk, j) {
      InodeRoundTrip(disk[InodeBlock(i)], i % IPB, x, j % IPB);
    }
  }

  lemma {:induction false} TableFrame(sb: Superblock, disk: seq<Block>, d: seq<Block>)
    requires GoodDisk(sb, disk) && GoodDisk(sb, d) && forall s :: 0 <= s < BitStart(sb) && s < |disk| ==>
      d[s] == disk[s]
    ensures SameInodeTable(sb, disk, d)
  {
    hide ReadInode;
  }

  ghost predicate SameInodeTable(sb: Superblock, disk: seq<Block>, d: seq<Block>) {
    && GoodDisk(sb, disk) && GoodDisk(sb, d)
    && forall j: nat :: j < sb.ninodes ==> InodeOnDisk(sb, d, j) == InodeOnDisk(sb, disk, j)
  }

  /** The state after writei's loop and size update is settled again. */
  lemma {:induction false} ExtentGrown(e: Extent, size: nat, p: nat, n: nat)
    requires e.lo == 0 && (e.table <==> e.nb > NDIRECT) && e.nb == Max(NBlocks(size), NBlocks(p))
    requires n == Max(size, p)
    ensures e == ExtentOf(n) && (p <= size ==> e.nb == NBlocks(size))
  {
  }

  /** The other files keep their bytes and their extents. */
  lemma {:induction false} OthersSettled(disk: seq<Block>, inodes: seq<Dinode>, ext: seq<Extent>, d: seq<Block>,
                                         xs: seq<Dinode>, es: seq<Extent>, i: nat)
    requires SameFiles(disk, inodes, ext, d, xs, es, i)
    requires forall j :: 0 <= j < |ext| ==> ext[j] == ExtentOf(inodes[j].size)
    ensures forall j :: 0 <= j < |xs| && j != i ==>
      es[j] == ExtentOf(xs[j].size) && xs[j] == inodes[j] && File(d, xs[j]) == File(disk, inodes[j])
  {
    hide FileBlock, File;
    forall j | 0 <= j < |xs| && j != i ensures File(d, xs[j]) == File(disk, inodes[j]) {
      assert SameBlocks(disk, inodes[j], d, xs[j], ext[j].nb);
      SameFile(disk, inodes[j], d, xs[j]);
    }
  }

  /** Bytes written stay written when blocks are kept. */
  lemma {:induction false} WrittenKept(disk: seq<Block>, x: Dinode, d: seq<Block>, y: Dinode, nb: nat, c: seq<byte>,
                                       off: nat, src: seq<byte>)
    requires Written(disk, x, c, off, src, off + |src|) && SameBlocks(disk, x, d, y, nb)
    requires NBlocks(|c|) <= nb && NBlocks(off + |src|) <= nb
    ensures Written(d, y, c, off, src, off + |src|)
  {
    hide FileBlock;
    var p := off + |src|;
    forall k: nat | k < |c| || k < p ensures HasByte(d, y, c, off, src, p, k) {
      assert HasByte(disk, x, c, off, src, p, k);
      assert FileBlock(d, y, k / BSIZE) == FileBlock(disk, x, k / BSIZE);
    }
  }

  lemma {:induction false} LastBlock(p: nat, size: nat)
    requires p < size
    ensures p / BSIZE < NBlocks(size)
  {
  }

  /** One turn of readi. */
  lemma {:induction false} ReadStep(disk: seq<Block>, x: Dinode, off: nat, data: seq<byte>, p: nat, m: nat)
    requires p == off + |data| && p + m <= x.size && p % BSIZE + m <= BSIZE && data == File(disk, x)[off..p]
    ensures data + FileBlock(disk, x, p / BSIZE)[p % BSIZE..p % BSIZE + m] == File(disk, x)[off..p + m]
  {
    hide FileBlock;
    var f, bp := File(disk, x), FileBlock(disk, x, p / BSIZE);
    forall k | p <= k < p + m ensures f[k] == bp[p % BSIZE + k - p] {
      assert k / BSIZE == p / BSIZE && k % BSIZE == p % BSIZE + k - p;
      assert f[k] == Byte(disk, x, k);
    }
    assert f[p..p + m] == bp[p % BSIZE..p % BSIZE + m];
  }

  lemma {:induction false} OwnedInData(sb: Superblock, disk: seq<Block>, inodes: seq<Dinode>, ext: seq<Extent>,
                                       owner: map<nat, Ref>)
    requires FsInv(sb, disk, inodes, ext, owner)
    ensures forall b :: b in owner ==> DataBlock(sb, b) && b < |disk|
  {
    hide BitsOk, BlockAt;
    forall b | b in owner ensures DataBlock(sb, b) && b < |disk| {
      assert RefOk(sb, disk, inodes, ext, b, owner[b]);
    }
  }

  /** Blocks of file i were given back, and nothing but the bitmap changed on disk. */
  ghost predicate Freed(sb: Superblock, i: nat, disk: seq<Block>, inodes: seq<Dinode>, ext: seq<Extent>, owner: map<nat,
                        Ref>, d: seq<Block>, xs: seq<Dinode>, es: seq<Extent>, o: map<nat, Ref>)
  {
    && |d| == |disk| && |inodes| == |ext| == |xs| == |es|
    && (forall j :: 0 <= j < |xs| && j != i ==> xs[j] == inodes[j] && es[j] == ext[j])
    && (forall b :: b in o ==> Owns(owner, b, o[b]))
    && (forall b :: b in owner && owner[b].inum != i ==> Owns(o, b, owner[b]))
    && (forall s :: 0 <= s < |disk| && !(BitStart(sb) <= s < DataStart(sb)) ==> d[s] == disk[s])
  }

  lemma {:induction false} FreedMore(sb: Superblock, i: nat, disk: seq<Block>, inodes: seq<Dinode>, ext: seq<Extent>,
                                     owner: map<nat, Ref>, d: seq<Block>, xs: seq<Dinode>, es: seq<Extent>, o: map<nat,
                                     Ref>, d2: seq<Block>, x: Dinode, e: Extent, b: nat)
    requires Freed(sb, i, disk, inodes, ext, owner, d, xs, es, o) && i < |xs|
    requires b in o && o[b].inum == i && |d2| == |d|
    requires forall s :: 0 <= s < |d| && !(BitStart(sb) <= s < DataStart(sb)) ==> d2[s] == d[s]
    ensures Freed(sb, i, disk, inodes, ext, owner, d2, xs[i := x], es[i := e], o - {b})
  {
  }

  lemma {:induction false} FreedTrans(sb: Superblock, i: nat, disk: seq<Block>, inodes: seq<Dinode>, ext: seq<Extent>,
                                      owner: map<nat, Ref>, d: seq<Block>, xs: seq<Dinode>, es: seq<Extent>, o: map<nat,
                                      Ref>, d2: seq<Block>, xs2: seq<Dinode>, es2: seq<Extent>, o2: map<nat, Ref>)
    requires Freed(sb, i, disk, inodes, ext, owner, d, xs, es, o) && Freed(sb, i, d, xs, es, o, d2, xs2, es2, o2)
    ensures Freed(sb, i, disk, inodes, ext, owner, d2, xs2, es2, o2)
  {
    forall b | b in o2 ensures Owns(owner, b, o2[b]) {
      assert Owns(o, b, o2[b]);
    }
    forall b | b in owner && owner[b].inum != i ensures Owns(o2, b, owner[b]) {
      assert Owns(o, b, owner[b]);
    }
  }

  /** Freeing the blocks of one file keeps the others, and leaves it owning nothing. */
  lemma {:induction false} FreedFiles(sb: Superblock, i: nat, disk: seq<Block>, inodes: seq<Dinode>, ext: seq<Extent>,
                                      owner: map<nat, Ref>, d: seq<Block>, xs: seq<Dinode>, es: seq<Extent>, o: map<nat,
                                      Ref>, ys: seq<Dinode>, fs: seq<Extent>)
    requires FsInv(sb, disk, inodes, ext, owner) && i < sb.ninodes && forall j :: 0 <= j < sb.ninodes ==> ext[j].lo == 0
    requires Freed(sb, i, disk, inodes, ext, owner, d, xs, es, o) && FsInv(sb, d, ys, fs, o)
    requires ys == xs[i := ys[i]] && fs == es[i := fs[i]]
    requires forall b :: b in o ==> o[b].inum != i
    ensures SameFiles(disk, inodes, ext, d, ys, fs, i)
    ensures forall b :: b in o <==> b in owner && owner[b].inum != i
    ensures SameInodeTable(sb, disk, d)
  {
    hide FileBlock, FileOk, RefOk, BitsOk;
    OwnedInData(sb, disk, inodes, ext, owner);
    forall j: nat | j < sb.ninodes && j != i ensures SameBlocks(disk, inodes[j], d, ys[j], ext[j].nb) {
      forall n: nat | n < ext[j].nb ensures FileBlock(d, ys[j], n) == FileBlock(disk, inodes[j], n) {
        BlockKept(sb, disk, inodes, ext, owner, d, ys, fs, o, j, n);
      }
    }
    forall b | b in o ensures Owns(owner, b, o[b]) {
    }
    TableFrame(sb, disk, d);
  }

  /** Block b is what the inodes, read with their sizes, say of reference r. */
  ghost predicate Uses(sb: Superblock, disk: seq<Block>, inodes: seq<Dinode>, r: Ref, b: nat) {
    && r.inum < sb.ninodes == |inodes|
    && var x := inodes[r.inum];
       && |x.addrs| == NDIRECT + 1
       && match r
          case Data(_, bn) =>
            && bn < NBlocks(x.size) && bn < MAXFILE && (bn >= NDIRECT ==> x.addrs[NDIRECT] < |disk|)
            && BlockAt(disk, x, bn) == b
          case Table(_) => NBlocks(x.size) > NDIRECT && x.addrs[NDIRECT] == b
  }

  lemma {:induction false} UseIsOwned(sb: Superblock, disk: seq<Block>, inodes: seq<Dinode>, ext: seq<Extent>,
                                      owner: map<nat, Ref>, b: nat, r: Ref)
    requires FsInv(sb, disk, inodes, ext, owner) && forall j :: 0 <= j < sb.ninodes ==>
      ext[j] == ExtentOf(inodes[j].size)
    ensures Uses(sb, disk, inodes, r, b) <==> Owns(owner, b, r)
  {
    hide BitsOk, Word;
    if Uses(sb, disk, inodes, r, b) {
      assert FileOk(disk, inodes[r.inum], r.inum, ext[r.inum], owner);
    }
    if Owns(owner, b, r) {
      assert RefOk(sb, disk, inodes, ext, b, owner[b]);
    }
  }

  lemma {:induction false} UsesIsOwns(sb: Superblock, disk: seq<Block>, inodes: seq<Dinode>, ext: seq<Extent>,
                                      owner: map<nat, Ref>, b: nat)
    requires FsInv(sb, disk, inodes, ext, owner)
    requires (forall j :: 0 <= j < sb.ninodes ==> ext[j] == ExtentOf(inodes[j].size)) && b < sb.size
    ensures b < LogStart(sb) ==>
      (Bit(sb, disk, b) <==> !DataBlock(sb, b) || exists r: Ref :: Uses(sb, disk, inodes, r, b))
    ensures b >= LogStart(sb) ==> forall r: Ref :: !Uses(sb, disk, inodes, r, b)
    ensures forall q: Ref, r: Ref :: Uses(sb, disk, inodes, q, b) && Uses(sb, disk, inodes, r, b) ==> q == r
  {
    hide FileOk, Uses, BitIn;
    forall r: Ref ensures Uses(sb, disk, inodes, r, b) <==> Owns(owner, b, r) {
      UseIsOwned(sb, disk, inodes, ext, owner, b, r);
    }
    assert b in owner ==> Uses(sb, disk, inodes, owner[b], b);
  }

  lemma {:induction false} EmptyAddrs(sb: Superblock, disk: seq<Block>, inodes: seq<Dinode>, ext: seq<Extent>,
                                      owner: map<nat, Ref>, i: nat)
    requires FsInv(sb, disk, inodes, ext, owner) && i < sb.ninodes && ext[i] == ExtentOf(0)
    ensures inodes[i].addrs == NO_ADDRS
  {
    assert FileOk(disk, inodes[i], i, ext[i], owner);
  }

  lemma {:induction false} EmptyFiles(disk: seq<Block>, x: Dinode, d: seq<Block>, y: Dinode)
    requires x.size == y.size == 0
    ensures File(d, y) == File(disk, x)
  {
  }

  lemma {:induction false} NothingFreed(sb: Superblock, i: nat, disk: seq<Block>, inodes: seq<Dinode>, ext: seq<Extent>,
                                        owner: map<nat, Ref>)
    requires |inodes| == |ext|
    ensures Freed(sb, i, disk, inodes, ext, owner, disk, inodes, ext, owner)
  {
  }

  lemma {:induction false} TableEntry(disk: seq<Block>, x: Dinode, j: nat)
    requires |x.addrs| == NDIRECT + 1 && x.addrs[NDIRECT] < |disk| && j < NINDIRECT
    ensures BlockAt(disk, x, NDIRECT + j) == Word(disk[x.addrs[NDIRECT]], j)
  {
  }

  /** A table address is set exactly if there is a table. */
  lemma {:induction false} HasTable(sb: Superblock, disk: seq<Block>, inodes: seq<Dinode>, ext: seq<Extent>,
                                    owner: map<nat, Ref>, i: nat)
    requires FsInv(sb, disk, inodes, ext, owner) && i < sb.ninodes
    ensures |inodes[i].addrs| == NDIRECT + 1 && (inodes[i].addrs[NDIRECT] != 0 <==> ext[i].table)
    ensures ext[i].nb <= MAXFILE
    ensures ext[i].table ==> inodes[i].addrs[NDIRECT] < |disk| && DataBlock(sb, inodes[i].addrs[NDIRECT])
  {
    hide BitsOk;
    assert FileOk(disk, inodes[i], i, ext[i], owner);
    if ext[i].table {
      TableIsOwned(sb, disk, inodes, ext, owner, i);
    }
  }

  function Min(a: nat, b: nat): nat { if a < b then a else b }

  /** In a truncation, an address is set exactly if its block is still there. */
  lemma {:induction false} StillThere(sb: Superblock, disk: seq<Block>, inodes: seq<Dinode>, ext: seq<Extent>,
                                      owner: map<nat, Ref>, i: nat, n: nat)
    requires FsInv(sb, disk, inodes, ext, owner) && i < sb.ninodes && n < MAXFILE && ext[i].lo == Min(n, ext[i].nb)
    requires n >= NDIRECT ==> ext[i].table
    ensures |inodes[i].addrs| == NDIRECT + 1 && (n >= NDIRECT ==> inodes[i].addrs[NDIRECT] < |disk|)
    ensures BlockAt(disk, inodes[i], n) != 0 <==> n < ext[i].nb
    ensures n < ext[i].nb ==> Owns(owner, BlockAt(disk, inodes[i], n), Data(i, ext[i].lo))
  {
    hide BitsOk;
    assert FileOk(disk, inodes[i], i, ext[i], owner);
    if n < ext[i].nb {
      Mapped(sb, disk, inodes, ext, owner, i, n);
    }
  }

  /** The bookkeeping of one turn of writei. */
  lemma {:induction false} ChunkArithmetic(p: nat, m: nat, nb0: nat, nb: nat)
    requires nb == Max(nb0, NBlocks(p)) && 0 < m && p % BSIZE + m <= BSIZE
    ensures p <= nb * BSIZE && nb0 <= nb && p / BSIZE < Max(nb0, NBlocks(p + m))
    ensures (if p / BSIZE < nb then nb else p / BSIZE + 1) == Max(nb0, NBlocks(p + m))
  {
  }

  lemma {:induction false} StartArithmetic(off: nat, size: nat)
    requires off <= size
    ensures Max(NBlocks(size), NBlocks(off)) == NBlocks(size)
  {
  }

  lemma {:induction false} FitsBlocks(size: nat, nb0: nat, nb: nat)
    requires nb0 == NBlocks(size) && nb0 <= nb
    ensures size <= nb * BSIZE
  {
  }

  lemma {:induction false} SameFile(disk: seq<Block>, x: Dinode, d: seq<Block>, y: Dinode)
    requires x.size == y.size && SameBlocks(disk, x, d, y, NBlocks(x.size))
    ensures File(d, y) == File(disk, x)
  {
    hide FileBlock;
    forall k | 0 <= k < x.size ensures File(d, y)[k] == File(disk, x)[k] {
      assert FileBlock(d, y, k / BSIZE) == FileBlock(disk, x, k / BSIZE);
    }
  }

  /** The table a block number goes through, if any. */
  function TableSector(x: Dinode, bn: nat): set<nat>
    requires |x.addrs| == NDIRECT + 1
  {
    if bn < NDIRECT then {} else {x.addrs[NDIRECT]}
  }

  /** The table that growing a file from nb blocks to n writes to, if any. */
  function TableWritten(x: Dinode, nb: nat, n: nat): set<nat>
    requires |x.addrs| == NDIRECT + 1
  {
    if n > nb && n > NDIRECT then {x.addrs[NDIRECT]} else {}
  }

  /** A file's table stays where it is. */
  lemma {:induction false} TableKept(sb: Superblock, disk: seq<Block>, inodes: seq<Dinode>, ext: seq<Extent>,
                                     owner: map<nat, Ref>, d: seq<Block>, xs: seq<Dinode>, es: seq<Extent>, o: map<nat,
                                     Ref>, i: nat)
    requires FsInv(sb, disk, inodes, ext, owner) && FsInv(sb, d, xs, es, o) && i < sb.ninodes && Extends(owner, o)
    requires ext[i].table <==> ext[i].nb > NDIRECT
    ensures |inodes[i].addrs| == |xs[i].addrs| == NDIRECT + 1
    ensures ext[i].nb > NDIRECT ==> xs[i].addrs[NDIRECT] == inodes[i].addrs[NDIRECT]
  {
    hide BitsOk, Word;
    Dimensions(sb, disk, inodes, ext, owner);
    Dimensions(sb, d, xs, es, o);
    if ext[i].table {
      TableIsOwned(sb, disk, inodes, ext, owner, i);
      assert RefOk(sb, d, xs, es, inodes[i].addrs[NDIRECT], Table(i));
    }
  }

  /** The number of blocks between two positions, counting a started one. */
  function Turns(off: nat, p: nat): int {
    if p == off then 0 else NBlocks(p) - off / BSIZE
  }

  /** How many blocks it takes to give a file its block bn: the table comes with the first indirect one. */
  function Needs(bn: nat): nat { if bn == NDIRECT then 2 else 1 }

  /** How many blocks it takes to grow a file from nb blocks to n. */
  function Allocs(nb: nat, n: nat): int {
    n - nb + (if nb <= NDIRECT < n then 1 else 0)
  }

  // ----- which blocks an operation allocates -----

  /** How many data blocks there are. */
  function DataCount(sb: Superblock): int {
    LogStart(sb) - DataStart(sb)
  }

  /** How many blocks a write of n bytes at off allocates in a file of the given size. */
  function Grows(size: nat, off: nat, n: nat): int {
    Allocs(NBlocks(size), Max(NBlocks(size), NBlocks(off + n)))
  }

  /** The map blocks that hold the bits of the blocks in K. */
  ghost function MapsOf(sb: Superblock, K: set<nat>): set<nat> {
    set b | b in K :: BitBlock(sb, b)
  }

  /** K are free blocks, and no other free block is below one of them. */
  ghost predicate LowestFree(sb: Superblock, disk: seq<Block>, K: set<nat>) {
    && GoodDisk(sb, disk)
    && (forall b :: b in K ==> b < sb.size && !Bit(sb, disk, b))
    && forall b, c: nat :: b in K && c < b && !Bit(sb, disk, c) ==> c in K
  }

  /** From one disk to the other exactly the bits of K have been set. */
  ghost predicate Marked(sb: Superblock, disk: seq<Block>, d: seq<Block>, K: set<nat>) {
    && GoodDisk(sb, disk) && GoodDisk(sb, d)
    && forall c: nat :: c < sb.size ==> (Bit(sb, d, c) <==> Bit(sb, disk, c) || c in K)
  }

  /** k blocks, the lowest free ones, have been allocated and have an owner. */
  ghost predicate Growth(sb: Superblock, disk: seq<Block>, owner: map<nat, Ref>, d: seq<Block>, o: map<nat, Ref>,
                         K: set<nat>, k: int)
  {
    LowestFree(sb, disk, K) && Marked(sb, disk, d, K) && |K| == k && |o| == |owner| + k
  }

  lemma {:induction false} LowestBelow(sb: Superblock, disk: seq<Block>, K: set<nat>)
    requires LowestFree(sb, disk, K)
    ensures forall b :: b in K ==> b < sb.size
  {
    hide Bit;
  }

  lemma {:induction false} NoGrowth(sb: Superblock, disk: seq<Block>, owner: map<nat, Ref>)
    requires GoodDisk(sb, disk)
    ensures Growth(sb, disk, owner, disk, owner, {}, 0) && LowestFree(sb, disk, {})
  {
    hide Bit;
  }

  lemma {:induction false} LowestMore(sb: Superblock, disk: seq<Block>, owner: map<nat, Ref>, d: seq<Block>,
                                      o: map<nat, Ref>, K: set<nat>, k: int, more: set<nat>)
    requires Growth(sb, disk, owner, d, o, K, k) && LowestFree(sb, d, more)
    ensures LowestFree(sb, disk, K + more) && |K + more| == k + |more| && |K| == k && |o| == |owner| + k
  {
    hide Bit;
    assert K !! more;
    forall b, c: nat | b in K + more && c < b && !Bit(sb, disk, c) ensures c in K + more {
      assert Bit(sb, d, c) <==> Bit(sb, disk, c) || c in K;
    }
  }

  lemma {:induction false} GrowthMore(sb: Superblock, disk: seq<Block>, owner: map<nat, Ref>, d: seq<Block>,
                                      o: map<nat, Ref>, K: set<nat>, k: int, d2: seq<Block>, o2: map<nat, Ref>,
                                      more: set<nat>, m: int)
    requires Growth(sb, disk, owner, d, o, K, k) && Growth(sb, d, o, d2, o2, more, m)
    ensures Growth(sb, disk, owner, d2, o2, K + more, k + m)
  {
    hide Bit;
    LowestMore(sb, disk, owner, d, o, K, k, more);
    forall c: nat | c < sb.size ensures Bit(sb, d2, c) <==> Bit(sb, disk, c) || c in K + more {
      assert Bit(sb, d, c) <==> Bit(sb, disk, c) || c in K;
    }
  }

  /** The sectors of the map are as they were. */
  ghost predicate SameMap(sb: Superblock, disk: seq<Block>, d: seq<Block>) {
    |d| == |disk| && forall s :: BitStart(sb) <= s < DataStart(sb) && s < |d| ==> d[s] == disk[s]
  }

  lemma {:induction false} MarkedKept(sb: Superblock, disk: seq<Block>, d: seq<Block>, e: seq<Block>, K: set<nat>)
    requires Marked(sb, disk, d, K) && SameMap(sb, d, e)
    ensures Marked(sb, disk, e, K)
  {
    hide BitIn;
    forall c: nat | c < sb.size ensures Bit(sb, e, c) == Bit(sb, d, c) {
    }
  }

  /** What balloc's one block does. */
  lemma {:induction false} OneTaken(sb: Superblock, disk: seq<Block>, b: nat)
    requires GoodDisk(sb, disk) && b < sb.size && !Bit(sb, disk, b) && SetBelow(sb, disk, b)
    ensures LowestFree(sb, disk, {b}) && MapsOf(sb, {b}) == {BitBlock(sb, b)}
    ensures DataStart(sb) <= b ==> Marked(sb, disk, AllocDisk(sb, disk, b), {b})
  {
    hide BitIn, PutBit, MarkDisk;
    if DataStart(sb) <= b {
      forall c: nat | c < sb.size
        ensures Bit(sb, AllocDisk(sb, disk, b), c) <==> Bit(sb, disk, c) || c in {b}
      {
        OneBit(sb, disk, b, true, c);
        assert BitBlock(sb, c) != b;
      }
    }
  }

  lemma {:induction false} OneGrown(sb: Superblock, disk: seq<Block>, owner: map<nat, Ref>, d: seq<Block>, b: nat,
                                    r: Ref)
    requires LowestFree(sb, disk, {b}) && Marked(sb, disk, d, {b}) && b !in owner
    ensures Growth(sb, disk, owner, d, owner[b := r], {b}, 1)
  {
    hide LowestFree, Marked;
    assert owner[b := r].Keys == owner.Keys + {b};
  }

  /** balloc took block b, the lowest free one: it is marked and zeroed, it and its map block are logged, and it lies in
      the log exactly if no data block was free. */
  ghost predicate Took(sb: Superblock, disk: seq<Block>, l0: set<nat>, d: seq<Block>, l: set<nat>, b: nat) {
    && GoodDisk(sb, disk) && b < sb.size && !Bit(sb, disk, b) && SetBelow(sb, disk, b)
    && d == AllocDisk(sb, disk, b) && l == l0 + MapsOf(sb, {b}) + {b} && MapsOf(sb, {b}) == {BitBlock(sb, b)}
    && (DataStart(sb) <= b ==> Marked(sb, disk, d, {b}))
    && (b >= LogStart(sb) <==> NoneFree(sb, disk)) && (b >= LogStart(sb) ==> NoneFree(sb, d))
  }

  lemma {:induction false} NowTook(sb: Superblock, disk: seq<Block>, l0: set<nat>, b: nat)
    requires GoodDisk(sb, disk) && b < sb.size && !Bit(sb, disk, b) && SetBelow(sb, disk, b)
    ensures Took(sb, disk, l0, AllocDisk(sb, disk, b), l0 + {BitBlock(sb, b)} + {b}, b)
  {
    hide BitIn, Bit, AllocDisk, Marked, NoneFree;
    ClearAt(sb, disk, b);
    OneTaken(sb, disk, b);
    if b >= LogStart(sb) { StillFull(sb, disk, b); }
  }

  /** A write into the data region leaves the bits. */
  lemma {:induction false} GrowthKept(sb: Superblock, disk: seq<Block>, owner: map<nat, Ref>, d: seq<Block>,
                                      o: map<nat, Ref>, K: set<nat>, k: int, a: nat, data: Block)
    requires Growth(sb, disk, owner, d, o, K, k) && DataStart(sb) <= a < |d|
    ensures Growth(sb, disk, owner, d[a := data], o, K, k)
  {
    hide BitIn;
    forall c: nat | c < sb.size ensures Bit(sb, d[a := data], c) == Bit(sb, d, c) {
    }
  }

  lemma {:induction false} MapsUnion(sb: Superblock, K: set<nat>, more: set<nat>)
    ensures MapsOf(sb, K + more) == MapsOf(sb, K) + MapsOf(sb, more) && MapsOf(sb, {}) == {}
  {
  }

  /** There are no more map blocks than blocks, and they are in the map. */
  lemma {:induction false} MapsCount(sb: Superblock, K: set<nat>)
    requires forall b :: b in K ==> b < sb.size
    ensures |MapsOf(sb, K)| <= |K| && MapsOf(sb, K) <= MapBlocks(sb)
  {
    hide BitBlock, MapBlocks;
    if K != {} {
      var b :| b in K;
      MapsCount(sb, K - {b});
      MapBlockIn(sb, b);
      assert K == (K - {b}) + {b};
      MapsUnion(sb, K - {b}, {b});
      assert MapsOf(sb, {b}) == {BitBlock(sb, b)};
      CardinalityUnion(MapsOf(sb, K - {b}), {BitBlock(sb, b)});
    }
  }

  /** The owned blocks are data blocks, and all of them exactly if no bit below the log is clear. */
  lemma {:induction false} OwnedCount(sb: Superblock, disk: seq<Block>, inodes: seq<Dinode>, ext: seq<Extent>,
                                      owner: map<nat, Ref>)
    requires FsInv(sb, disk, inodes, ext, owner)
    ensures |owner| <= DataCount(sb) && (|owner| == DataCount(sb) <==> NoneFree(sb, disk))
  {
    hide FileOk, RefOk, BitIn, Bit;
    OwnedInData(sb, disk, inodes, ext, owner);
    var all, n := Range(DataStart(sb), DataCount(sb)), DataCount(sb);
    CardinalityBound(owner.Keys, all);
    if |owner| == n {
      if b: nat :| b in all && b !in owner.Keys {
        CardinalityBound(owner.Keys, all - {b});
      }
    }
    if NoneFree(sb, disk) {
      forall b | b in all ensures b in owner.Keys {
        assert Bit(sb, disk, b);
      }
      assert owner.Keys == all;
    }
  }

  /** The free data blocks are those with a clear bit. */
  lemma {:induction false} FreeCounted(sb: Superblock, disk: seq<Block>, inodes: seq<Dinode>, ext: seq<Extent>,
                                       owner: map<nat, Ref>)
    requires FsInv(sb, disk, inodes, ext, owner)
    ensures GoodDisk(sb, disk) && |FreeBlocks(sb, disk)| == DataCount(sb) - |owner|
  {
    hide FsInv, Bit;
    OwnedInData(sb, disk, inodes, ext, owner);
    Dimensions(sb, disk, inodes, ext, owner);
    var free, all := FreeBlocks(sb, disk), Range(DataStart(sb), DataCount(sb));
    forall b: nat ensures b in free <==> b in all && b !in owner {
      if b < LogStart(sb) { BitMeans(sb, disk, inodes, ext, owner, b); }
    }
    assert all == free + owner.Keys && free !! owner.Keys;
  }

  /** The blocks below the log whose bit is clear. */
  ghost function FreeBlocks(sb: Superblock, disk: seq<Block>): set<nat>
    requires GoodDisk(sb, disk)
  {
    set b: nat | b < LogStart(sb) && !Bit(sb, disk, b)
  }

  lemma {:induction false} BitMeans(sb: Superblock, disk: seq<Block>, inodes: seq<Dinode>, ext: seq<Extent>,
                                    owner: map<nat, Ref>, b: nat)
    requires FsInv(sb, disk, inodes, ext, owner) && b < LogStart(sb)
    ensures GoodDisk(sb, disk) && (Bit(sb, disk, b) <==> !DataBlock(sb, b) || b in owner)
  {
    hide FileOk, RefOk, Bit;
  }

  // ----- what an operation logs -----

  /** Since l0, no more is logged than block bn, at a, the table it goes through, and the map blocks of the blocks
      allocated on the way. */
  ghost predicate BlockLogged(sb: Superblock, l0: set<nat>, l: set<nat>, x: Dinode, bn: nat, a: nat, K: set<nat>) {
    && |x.addrs| == NDIRECT + 1 && |K| <= Needs(bn)
    && l <= l0 + {a} + TableSector(x, bn) + MapsOf(sb, K)
  }
  /** The block itself can be logged once more. */
  lemma {:induction false} BlockLoggedAgain(sb: Superblock, l0: set<nat>, l: set<nat>, x: Dinode, bn: nat, a: nat,
                                            K: set<nat>)
    requires BlockLogged(sb, l0, l, x, bn, a, K)
    ensures BlockLogged(sb, l0, l + {a}, x, bn, a, K)
  {
    hide MapsOf;
  }

  /** First the table, then the block. */
  lemma {:induction false} IndirectLogged(sb: Superblock, l0: set<nat>, l1: set<nat>, l2: set<nat>, x: Dinode, bn: nat,
                                          a: nat, K: set<nat>, more: set<nat>)
    requires |x.addrs| == NDIRECT + 1 && |K| <= Needs(bn) - 1 && |more| <= 1 && bn >= NDIRECT
    requires l1 <= l0 + MapsOf(sb, K) + {x.addrs[NDIRECT]}
    requires l2 <= l1 + {a, x.addrs[NDIRECT]} + MapsOf(sb, more)
    ensures BlockLogged(sb, l0, l2, x, bn, a, K + more)
    ensures l0 + MapsOf(sb, K) <= l1 && l2 == l1 + {a, x.addrs[NDIRECT]} + MapsOf(sb, more) ==>
      l2 == l0 + {a} + TableSector(x, bn) + MapsOf(sb, K + more)
  {
    hide MapsOf;
    CardinalityUnion(K, more);
    MapsUnion(sb, K, more);
  }

  /** One more turn of writei's loop: block bn, at a, of a file that had nb1 blocks and now has nb2. */
  lemma {:induction false} TurnLogged(sb: Superblock, l: set<nat>, l1: set<nat>, l2: set<nat>, seen: set<nat>,
                                      K: set<nat>, a: nat, more: set<nat>, x1: Dinode, x: Dinode, nb0: nat, nb1: nat,
                                      nb2: nat, bn: nat)
    requires |x1.addrs| == |x.addrs| == NDIRECT + 1 && (nb1 > NDIRECT ==> x.addrs[NDIRECT] == x1.addrs[NDIRECT])
    requires l1 == l + seen + TableWritten(x1, nb0, nb1) + MapsOf(sb, K)
    requires bn <= nb1 && nb0 <= nb1 && nb2 == (if bn < nb1 then nb1 else bn + 1) && (bn < nb1 ==> more == {})
    ensures l2 == l1 + {a} + (if bn < nb1 then {} else TableSector(x, bn)) + MapsOf(sb, more) ==>
      l2 == l + (seen + {a}) + TableWritten(x, nb0, nb2) + MapsOf(sb, K + more)
    ensures bn == nb1 && l2 <= l1 + {a} + TableSector(x, bn) + MapsOf(sb, more) ==>
      l2 <= l + (seen + {a}) + TableWritten(x, nb0, nb2) + MapsOf(sb, K + more)
    ensures bn < nb1 && l2 == l1 ==> l2 <= l + seen + TableWritten(x, nb0, nb2) + MapsOf(sb, K + more)
  {
    hide MapsOf;
    MapsUnion(sb, K, more);
  }

  /** After writei's loop and its tail. */
  lemma {:induction false} AllLogged(sb: Superblock, disk: seq<Block>, owner: map<nat, Ref>, d: seq<Block>,
                                     xs: seq<Dinode>, es: seq<Extent>, o: map<nat, Ref>, l0: set<nat>, l1: set<nat>,
                                     l: set<nat>, x: Dinode, y: Dinode, z: Dinode, i: nat, off: nat, n: nat,
                                     touched: set<nat>, K: set<nat>, ok: bool)
    requires FsInv(sb, d, xs, es, o) && i < sb.ninodes == |xs| == |es| && xs[i] == y
    requires |y.addrs| == NDIRECT + 1 && z.addrs == y.addrs
    requires es[i].table <==> es[i].nb > NDIRECT
    requires es[i].nb == Max(NBlocks(x.size), NBlocks(off + n))
    requires LoopLogged(sb, disk, owner, l0, d, o, l1, y, i, NBlocks(x.size), es[i].nb, touched, K, off, off + n)
    requires var longer := off + n > x.size;
             if ok then l == l1 + (if longer then {InodeBlock(i)} else {}) else longer && l == l1
    ensures WriteLogged(sb, disk, l0, l, x, z, i, off, n, touched, K, ok)
    ensures |o| == |owner| + Grows(x.size, off, n) <= DataCount(sb) && Marked(sb, disk, d, K)
  {
    hide LowestFree, Marked, MapsOf, Turns, Allocs, FsInv, BlocksOf, TableWritten, NBlocks;
    OwnedCount(sb, d, xs, es, o);
    TouchedApart(sb, d, xs, es, o, i, touched, NBlocks(x.size), NBlocks(off + n));
    assert TableWritten(y, NBlocks(x.size), es[i].nb) == TableWritten(z, NBlocks(x.size), es[i].nb) by {
      SameTable(y, z, NBlocks(x.size), es[i].nb);
    }
  }

  lemma {:induction false} SameTable(y: Dinode, z: Dinode, nb: nat, n: nat)
    requires |y.addrs| == NDIRECT + 1 && z.addrs == y.addrs
    ensures TableWritten(y, nb, n) == TableWritten(z, nb, n)
  {
  }

  /** A file's data blocks and its table are different blocks of the data region. */
  lemma {:induction false} TouchedApart(sb: Superblock, d: seq<Block>, xs: seq<Dinode>, es: seq<Extent>,
                                        o: map<nat, Ref>, i: nat, touched: set<nat>, nb: nat, n: nat)
    requires FsInv(sb, d, xs, es, o) && i < sb.ninodes == |xs| == |es| && |xs[i].addrs| == NDIRECT + 1
    requires BlocksOf(o, touched, i, n) && (es[i].table <==> es[i].nb > NDIRECT)
    ensures var t := TableWritten(xs[i], nb, es[i].nb);
            touched !! t && (forall s :: s in touched + t ==> DataStart(sb) <= s) && InodeBlock(i) < BitStart(sb)
  {
    hide FsInv;
    OwnedInData(sb, d, xs, es, o);
    if es[i].table { TableIsOwned(sb, d, xs, es, o, i); }
  }

  /** Data blocks of file i, all of them below block n of the file. */
  ghost predicate BlocksOf(owner: map<nat, Ref>, touched: set<nat>, i: nat, n: nat) {
    forall t :: t in touched ==> t in owner && owner[t].Data? && owner[t].inum == i && owner[t].bn < n
  }

  /** The next block of the file is not among them. */
  lemma {:induction false} OneMoreBlock(owner: map<nat, Ref>, o: map<nat, Ref>, touched: set<nat>, i: nat, n: nat,
                                        bn: nat, a: nat, m: nat)
    requires BlocksOf(owner, touched, i, n) && Extends(owner, o) && Owns(o, a, Data(i, bn)) && bn < m && n <= m
    requires n <= bn || touched == {}
    ensures BlocksOf(o, touched + {a}, i, m) && |touched + {a}| == |touched| + 1
  {
    forall t | t in touched + {a} ensures t in o && o[t].Data? && o[t].inum == i && o[t].bn < m {
      assert t in touched ==> Owns(o, t, owner[t]);
    }
    assert a in touched ==> Owns(o, a, owner[a]);
  }

  /** What a write of n bytes at off logs since l0: the data sectors it touches, the table if it writes to it, the map
      blocks of the blocks it allocates and, when the file gets longer, the sector of the inode. A write that does not
      come to its end has logged no more, and not the last of it. */
  ghost predicate WriteLogged(sb: Superblock, disk: seq<Block>, l0: set<nat>, l: set<nat>, x: Dinode, y: Dinode, i: nat,
                              off: nat, n: nat, touched: set<nat>, K: set<nat>, done: bool)
  {
    var nb, longer := NBlocks(x.size), off + n > x.size;
    var nb2 := Max(nb, NBlocks(off + n));
    && |y.addrs| == NDIRECT + 1 && LowestFree(sb, disk, K)
    && if done then
         && |touched| == Turns(off, off + n) && |K| == Allocs(nb, nb2)
         && (forall s :: s in touched + TableWritten(y, nb, nb2) ==> DataStart(sb) <= s)
         && touched !! TableWritten(y, nb, nb2) && InodeBlock(i) < BitStart(sb)
         && l == l0 + touched + TableWritten(y, nb, nb2) + MapsOf(sb, K) + (if longer then {InodeBlock(i)} else {})
       else
         && |touched| <= Turns(off, off + n) - (if longer then 0 else 1) && |K| <= Allocs(nb, nb2)
         && l <= l0 + touched + TableWritten(y, nb, nb2) + MapsOf(sb, K)
  }

  /** A write that stops has logged no more than its place in the file allows, so no more than the whole of it would. */
  lemma {:induction false} LoggedSoFar(sb: Superblock, disk: seq<Block>, l0: set<nat>, l: set<nat>, x: Dinode,
                                       y: Dinode, i: nat, off: nat, m: nat, n: nat, touched: set<nat>, K: set<nat>)
    requires WriteLogged(sb, disk, l0, l, x, y, i, off, m, touched, K, false) && off <= x.size && 0 < m <= n
    ensures WriteLogged(sb, disk, l0, l, x, y, i, off, n, touched, K, false)
    ensures Grows(x.size, off, m) <= Grows(x.size, off, n)
  {
    hide LowestFree, MapsOf;
  }

  lemma {:induction false} AllocsStep(nb0: nat, nb1: nat, bn: nat)
    requires nb0 <= nb1 && bn <= nb1
    ensures Allocs(nb0, nb1) + (if bn < nb1 then 0 else Needs(bn)) == Allocs(nb0, if bn < nb1 then nb1 else bn + 1)
  {
  }

  ghost predicate EntryAllocs(sb: Superblock, disk: seq<Block>, owner: map<nat, Ref>, l0: set<nat>, d: seq<Block>,
                              o: map<nat, Ref>, l: set<nat>, a: nat, t: nat, K: set<nat>, ok: bool, panics: bool)
  {
    && LowestFree(sb, disk, K) && |K| <= 1 && l <= l0 + {a, t} + MapsOf(sb, K)
    && (ok ==> Growth(sb, disk, owner, d, o, K, 1) && l == l0 + {a, t} + MapsOf(sb, K))
    && (!ok ==> panics || |owner| + 1 > DataCount(sb))
  }

  /** The block, then its entry. */
  lemma {:induction false} EntryDone(sb: Superblock, disk: seq<Block>, owner: map<nat, Ref>, l0: set<nat>, l1: set<nat>,
                                     d: seq<Block>, o: map<nat, Ref>, l: set<nat>, a: nat, t: nat, K: set<nat>,
                                     ok: bool, panics: bool)
    requires LowestFree(sb, disk, K) && |K| <= 1 && l1 <= l0 + MapsOf(sb, K) + {a}
    requires if ok then Growth(sb, disk, owner, d, o, K, 1) && l1 == l0 + MapsOf(sb, K) + {a} && l == l1 + {t}
             else l == l1 && (panics || |owner| + 1 > DataCount(sb))
    ensures EntryAllocs(sb, disk, owner, l0, d, o, l, a, t, K, ok, panics)
  {
    hide LowestFree, Growth, MapsOf;
  }

  /** bmap at block bn of a file of nb blocks: nothing for a block the file has; for the next one the lowest free blocks
      are allocated, and logged with their map blocks and the table; or no more than them, if log_write panics or there
      are too few. */
  ghost predicate BlockAllocs(sb: Superblock, disk: seq<Block>, owner: map<nat, Ref>, l0: set<nat>, d: seq<Block>,
                              o: map<nat, Ref>, l: set<nat>, x: Dinode, y: Dinode, nb: nat, bn: nat, a: nat,
                              K: set<nat>, ok: bool, panics: bool)
  {
    && LowestFree(sb, disk, K) && |y.addrs| == NDIRECT + 1 && BlockLogged(sb, l0, l, y, bn, a, K)
    && (nb > NDIRECT ==> |x.addrs| == NDIRECT + 1 && y.addrs[NDIRECT] == x.addrs[NDIRECT])
    && (bn < nb ==> ok && K == {})
    && (ok && bn == nb ==>
          && Growth(sb, disk, owner, d, o, K, Needs(bn))
          && l == l0 + {a} + TableSector(y, bn) + MapsOf(sb, K))
    && (!ok && bn < MAXFILE ==> panics || |owner| + Needs(bn) > DataCount(sb))
  }

  lemma {:induction false} HadBlock(sb: Superblock, d: seq<Block>, o: map<nat, Ref>, l: set<nat>, x: Dinode, nb: nat,
                                    bn: nat, a: nat, panics: bool)
    requires GoodDisk(sb, d) && |x.addrs| == NDIRECT + 1 && bn < nb
    ensures BlockAllocs(sb, d, o, l, d, o, l, x, x, nb, bn, a, {}, true, panics)
  {
    hide LowestFree, Growth, MapsOf;
    NoGrowth(sb, d, o);
  }

  lemma {:induction false} DirectAllocs(sb: Superblock, d0: seq<Block>, o0: map<nat, Ref>, l0: set<nat>, d: seq<Block>,
                                        o: map<nat, Ref>, l: set<nat>, x: Dinode, y: Dinode, bn: nat, a: nat,
                                        K: set<nat>, ok: bool, panics: bool)
    requires bn < NDIRECT && |y.addrs| == NDIRECT + 1 && LowestFree(sb, d0, K) && |K| <= 1
    requires l <= l0 + MapsOf(sb, K) + {a}
    requires ok ==> Growth(sb, d0, o0, d, o, K, 1) && l == l0 + MapsOf(sb, K) + {a}
    requires !ok ==> panics || |o0| + 1 > DataCount(sb)
    ensures BlockAllocs(sb, d0, o0, l0, d, o, l, x, y, bn, bn, a, K, ok, panics)
  {
    hide LowestFree, Growth, MapsOf;
  }

  /** The table, then the entry. */
  lemma {:induction false} IndirectAllocs(sb: Superblock, d0: seq<Block>, o0: map<nat, Ref>, l0: set<nat>,
                                          d1: seq<Block>, o1: map<nat, Ref>, l1: set<nat>, d: seq<Block>,
                                          o: map<nat, Ref>, l: set<nat>, x: Dinode, y: Dinode, nb: nat, bn: nat, a: nat,
                                          K: set<nat>, more: set<nat>, ok: bool, panics: bool)
    requires NDIRECT <= bn <= nb && |y.addrs| == NDIRECT + 1
    requires nb > NDIRECT ==> |x.addrs| == NDIRECT + 1 && y.addrs[NDIRECT] == x.addrs[NDIRECT]
    requires Growth(sb, d0, o0, d1, o1, K, Needs(nb) - 1)
    requires l0 + MapsOf(sb, K) <= l1 <= l0 + MapsOf(sb, K) + {y.addrs[NDIRECT]}
    requires LowestFree(sb, d1, more) && |more| <= 1 && l <= l1 + {a, y.addrs[NDIRECT]} + MapsOf(sb, more)
    requires bn == nb ==> EntryAllocs(sb, d1, o1, l1, d, o, l, a, y.addrs[NDIRECT], more, ok, panics)
    requires bn < nb ==> ok && more == {}
    ensures BlockAllocs(sb, d0, o0, l0, d, o, l, x, y, nb, bn, a, K + more, ok, panics)
  {
    hide LowestFree, MapsOf, Growth;
    LowestMore(sb, d0, o0, d1, o1, K, Needs(nb) - 1, more);
    IndirectLogged(sb, l0, l1, l, y, bn, a, K, more);
    if ok && bn == nb { GrowthMore(sb, d0, o0, d1, o1, K, Needs(nb) - 1, d, o, more, 1); }
  }

  /** No table: the entry is not tried. */
  lemma {:induction false} NoTable(sb: Superblock, d0: seq<Block>, o0: map<nat, Ref>, l0: set<nat>, d: seq<Block>,
                                   o: map<nat, Ref>, l: set<nat>, x: Dinode, bn: nat, a: nat, K: set<nat>, panics: bool)
    requires bn == NDIRECT && |x.addrs| == NDIRECT + 1 && LowestFree(sb, d0, K) && |K| <= 1
    requires l <= l0 + MapsOf(sb, K) + {a} && (panics || |o0| + 1 > DataCount(sb))
    ensures BlockAllocs(sb, d0, o0, l0, d, o, l, x, x, bn, bn, a, K, false, panics)
  {
    hide LowestFree, MapsOf;
  }

  /** A turn of writei's loop at block bn, in a file of nb blocks: the block is logged; if it is new, the lowest free
      blocks are allocated for it, and their map blocks and the table are logged too. If the turn stops, no more than
      this is logged, and nothing if the block was there; it is for log_write's panic or for want of blocks. */
  ghost predicate TurnLogs(sb: Superblock, disk: seq<Block>, owner: map<nat, Ref>, l0: set<nat>, d: seq<Block>,
                           o: map<nat, Ref>, l: set<nat>, x: Dinode, y: Dinode, i: nat, nb: nat, bn: nat, a: nat,
                           K: set<nat>, ok: bool, panics: bool)
  {
    && LowestFree(sb, disk, K) && |y.addrs| == NDIRECT + 1 && BlockLogged(sb, l0, l, y, bn, a, K)
    && (nb > NDIRECT ==> |x.addrs| == NDIRECT + 1 && y.addrs[NDIRECT] == x.addrs[NDIRECT])
    && (bn < nb ==> K == {} && (!ok ==> l == l0))
    && (ok ==>
          && Growth(sb, disk, owner, d, o, K, if bn < nb then 0 else Needs(bn))
          && l == l0 + {a} + (if bn < nb then {} else TableSector(y, bn)) + MapsOf(sb, K)
          && Owns(o, a, Data(i, bn)))
    && (!ok ==> panics || |owner| + (if bn < nb then 0 else Needs(bn)) > DataCount(sb))
  }

  /** By position p writei's loop has logged the sectors it touched, the table if it wrote to it, and the map blocks of
      the blocks it allocated on the way from nb0 blocks to nb. */
  ghost predicate LoopLogged(sb: Superblock, disk: seq<Block>, owner: map<nat, Ref>, l0: set<nat>, d: seq<Block>,
                             o: map<nat, Ref>, l: set<nat>, x: Dinode, i: nat, nb0: nat, nb: nat, touched: set<nat>,
                             K: set<nat>, off: nat, p: nat)
  {
    && |x.addrs| == NDIRECT + 1 && |touched| == Turns(off, p) && BlocksOf(o, touched, i, NBlocks(p))
    && Growth(sb, disk, owner, d, o, K, Allocs(nb0, nb))
    && l == l0 + touched + TableWritten(x, nb0, nb) + MapsOf(sb, K)
  }

  /** One more turn. */
  lemma {:induction false} LoopMore(sb: Superblock, d0: seq<Block>, o0: map<nat, Ref>, l0: set<nat>, d1: seq<Block>,
                                    o1: map<nat, Ref>, l1: set<nat>, d: seq<Block>, o: map<nat, Ref>, l: set<nat>,
                                    x1: Dinode, x: Dinode, i: nat, nb0: nat, nb1: nat, seen: set<nat>, taken: set<nat>,
                                    a: nat, more: set<nat>, off: nat, p: nat, m: nat, bn: nat, nb2: nat, panics: bool)
    requires off <= p && 0 < m && p % BSIZE + m <= BSIZE && (p == off || p % BSIZE == 0) && bn == p / BSIZE
    requires LoopLogged(sb, d0, o0, l0, d1, o1, l1, x1, i, nb0, nb1, seen, taken, off, p) && nb0 <= nb1 && bn <= nb1
    requires TurnLogs(sb, d1, o1, l1, d, o, l, x1, x, i, nb1, bn, a, more, true, panics) && Extends(o1, o)
    requires nb2 == if bn < nb1 then nb1 else bn + 1
    ensures LoopLogged(sb, d0, o0, l0, d, o, l, x, i, nb0, nb2, seen + {a}, taken + more, off, p + m)
  {
    hide LowestFree, Growth, MapsOf, BlocksOf, Turns, Allocs, NBlocks, Needs, Extends, TableWritten, TableSector,
         BlockLogged;
    OneMoreTurn(off, p, m);
    AllocsStep(nb0, nb1, bn);
    GrowthMore(sb, d0, o0, d1, o1, taken, Allocs(nb0, nb1), d, o, more, if bn < nb1 then 0 else Needs(bn));
    TurnLogged(sb, l0, l1, l, seen, taken, a, more, x1, x, nb0, nb1, nb2, bn);
    OneMoreBlock(o1, o, seen, i, NBlocks(p), bn, a, NBlocks(p + m));
  }

  /** The loop stops at p. */
  lemma {:induction false} LoopStops(sb: Superblock, d0: seq<Block>, o0: map<nat, Ref>, l0: set<nat>, d1: seq<Block>,
                                     o1: map<nat, Ref>, l1: set<nat>, d: seq<Block>, o: map<nat, Ref>, l: set<nat>,
                                     x0: Dinode, x1: Dinode, x: Dinode, i: nat, nb1: nat, seen: set<nat>,
                                     taken: set<nat>, a: nat, more: set<nat>, off: nat, p: nat, m: nat, panics: bool)
    requires off <= p && 0 < m && p % BSIZE + m <= BSIZE && (p == off || p % BSIZE == 0) && off <= x0.size
    requires nb1 == Max(NBlocks(x0.size), NBlocks(p)) && p / BSIZE <= nb1
    requires LoopLogged(sb, d0, o0, l0, d1, o1, l1, x1, i, NBlocks(x0.size), nb1, seen, taken, off, p)
    requires TurnLogs(sb, d1, o1, l1, d, o, l, x1, x, i, nb1, p / BSIZE, a, more, false, panics)
    ensures WriteLogged(sb, d0, l0, l, x0, x, i, off, p + m - off, if p / BSIZE == nb1 then seen + {a} else seen,
                        taken + more, false)
    ensures panics || |o0| + Grows(x0.size, off, p + m - off) > DataCount(sb)
  {
    hide LowestFree, Growth, MapsOf, BlocksOf, Turns, Allocs, NBlocks, Needs, TableWritten, TableSector;
    var bn, nb0 := p / BSIZE, NBlocks(x0.size);
    OneMoreTurn(off, p, m);
    ChunkArithmetic(p, m, nb0, nb1);
    AllocsStep(nb0, nb1, bn);
    LowestMore(sb, d0, o0, d1, o1, taken, Allocs(nb0, nb1), more);
    TurnLogged(sb, l0, l1, l, seen, taken, a, more, x1, x, nb0, nb1, Max(nb0, NBlocks(p + m)), bn);
    CardinalityUnion(seen, {a});
    if p + m <= x0.size { LastBlock(p, x0.size); }
  }

  lemma {:induction false} NothingLogged(sb: Superblock, disk: seq<Block>, x: Dinode, owner: map<nat, Ref>, i: nat,
                                         nb: nat, off: nat, l: set<nat>)
    requires GoodDisk(sb, disk) && |x.addrs| == NDIRECT + 1
    ensures LoopLogged(sb, disk, owner, l, disk, owner, l, x, i, nb, nb, {}, {}, off, off)
  {
    hide LowestFree, Marked;
    NoGrowth(sb, disk, owner);
  }

  lemma {:induction false} CardinalityBound<T>(a: set<T>, b: set<T>)
    requires a <= b
    ensures |a| <= |b|
  {
    assert b == a + (b - a);
  }

  lemma {:induction false} CardinalityUnion<T>(a: set<T>, b: set<T>)
    ensures |a + b| <= |a| + |b|
  {
    assert a + b == a + (b - a);
    CardinalityBound(b - a, b);
  }

  /** Each turn of writei but the last ends on a block boundary and starts a new block. */
  lemma {:induction false} OneMoreTurn(off: nat, p: nat, m: nat)
    requires off <= p && 0 < m && p % BSIZE + m <= BSIZE && (p == off || p % BSIZE == 0)
    ensures Turns(off, p + m) == Turns(off, p) + 1
    ensures m == BSIZE - p % BSIZE ==> (p + m) % BSIZE == 0
    ensures NBlocks(p) <= NBlocks(p + m) && p / BSIZE < NBlocks(p + m)
    ensures NBlocks(p) <= p / BSIZE || Turns(off, p) == 0
  {
  }

  /** The sectors of the bitmap. */
  function MapBlocks(sb: Superblock): set<nat> {
    Range(BitStart(sb), sb.size / BPB + 1)
  }

  lemma {:induction false} MapBlockIn(sb: Superblock, b: nat)
    requires b < sb.size
    ensures BitBlock(sb, b) in MapBlocks(sb) && BitBlock(sb, b) < DataStart(sb)
  {
  }

  function Range(lo: nat, n: nat): (r: set<nat>)
    ensures |r| == n && forall s: nat :: s in r <==> lo <= s < lo + n
  {
    if n == 0 then {} else Range(lo, n - 1) + {lo + n - 1}
  }

  /** A disk between operations: consistent, every extent as its size says, the inode table up to date. */
  ghost predicate SettledDisk(sb: Superblock, disk: seq<Block>, inodes: seq<Dinode>, ext: seq<Extent>, owner: map<nat,
                              Ref>)
  {
    && FsInv(sb, disk, inodes, ext, owner)
    && (forall j: nat :: j < sb.ninodes ==> InodeOnDisk(sb, disk, j) == inodes[j])
    && (forall j :: 0 <= j < sb.ninodes ==> ext[j] == ExtentOf(inodes[j].size))
    && (forall j :: 0 <= j < sb.ninodes && inodes[j].kind == 0 ==> inodes[j].size == 0)
  }

  // ----- the transaction -----

  /** log_write's test for too big a transaction. */
  predicate HeaderFull(sb: Superblock, logged: set<nat>) {
    |logged| >= R.LOGSIZE || |logged| >= sb.nlog - 1
  }

  ghost predicate OutsideLog(sb: Superblock, logged: set<nat>) {
    forall s :: s in logged ==> s < LogStart(sb)
  }

  ghost predicate NoneFree(sb: Superblock, disk: seq<Block>) {
    GoodDisk(sb, disk) && forall c: nat :: c < LogStart(sb) ==> Bit(sb, disk, c)
  }

  /** Where the log lies. */
  function LogOf(sb: Superblock): R.Layout {
    R.Layout(if sb.nlog <= sb.size then sb.size - sb.nlog else 0, sb.nlog)
  }

  /** The committed transactions and the calls of the open one, made on boot, have given disk; the open one has
      touched the logged sectors. */
  ghost predicate Recorded(sb: Superblock, boot: seq<Block>, done: seq<seq<C.Write>>, calls: seq<C.Write>,
                           disk: seq<Block>, logged: set<nat>)
  {
    && disk == R.Direct(boot, done + [calls]) && logged == (set w | w in calls :: w.sector)
    && |logged| <= R.LOGSIZE && (calls == [] || |logged| < sb.nlog)
    && (forall w :: w in calls ==> w.sector < |disk|)
    && (forall t :: t in done ==> R.Legal(LogOf(sb), boot, t))
  }

  lemma {:induction false} DirectStep(boot: seq<Block>, done: seq<seq<C.Write>>, calls: seq<C.Write>)
    ensures R.Direct(boot, done + [calls]) == C.Apply(R.Direct(boot, done), calls)
    ensures R.Direct(boot, done + [[]]) == R.Direct(boot, done)
  {
    assert (done + [calls])[..|done|] == done && (done + [[]])[..|done|] == done;
  }

  lemma {:induction false} RecordedStart(sb: Superblock, disk: seq<Block>)
    ensures Recorded(sb, disk, [], [], disk, {})
  {
    DirectStep(disk, [], []);
  }

  lemma {:induction false} RecordedMore(sb: Superblock, boot: seq<Block>, done: seq<seq<C.Write>>, calls: seq<C.Write>,
                                        disk: seq<Block>, logged: set<nat>, s: nat, data: Block)
    requires s < |disk| && !HeaderFull(sb, logged)
    ensures Recorded(sb, boot, done, calls, disk, logged) ==>
              Recorded(sb, boot, done, calls + [C.Write(s, data)], disk[s := data], logged + {s})
  {
    hide R.Legal;
    DirectStep(boot, done, calls);
    DirectStep(boot, done, calls + [C.Write(s, data)]);
    C.ApplyAppend(R.Direct(boot, done), calls, C.Write(s, data));
  }

  /** The log's header lists as many sectors as there are logged ones, so log_write's test is the same there. */
  lemma {:induction false} SectorsCounted(calls: seq<C.Write>)
    ensures |R.Sectors(calls)| == |(set w | w in calls :: w.sector)|
    ensures forall s: nat :: s in R.Sectors(calls) <==> s in (set w | w in calls :: w.sector)
  {
    R.SectorsSpec(calls);
    var S, all := R.Sectors(calls), set w | w in calls :: w.sector;
    forall s: nat ensures s in S <==> s in all {
      if s in all {
        var w :| w in calls && w.sector == s;
        var i :| 0 <= i < |calls| && calls[i] == w;
      }
    }
    DistinctCount(S, all);
  }

  lemma {:induction false} DistinctCount(S: seq<nat>, all: set<nat>)
    requires (forall i, j :: 0 <= i < j < |S| ==> S[i] != S[j]) && forall s: nat :: s in S <==> s in all
    ensures |S| == |all|
  {
    if S != [] {
      var init, last := S[..|S| - 1], S[|S| - 1];
      assert forall s: nat :: s in S <==> s in init || s == last;
      DistinctCount(init, all - {last});
    } else {
      assert all == {};
    }
  }

  /** A transaction whose sectors lie outside the log can be committed. */
  lemma {:induction false} RecordedCommit(sb: Superblock, boot: seq<Block>, done: seq<seq<C.Write>>,
                                          calls: seq<C.Write>, disk: seq<Block>, logged: set<nat>)
    requires Recorded(sb, boot, done, calls, disk, logged) && sb.nlog <= sb.size
    requires OutsideLog(sb, logged) && (calls == [] ==> sb.nlog > 0)
    ensures R.Legal(LogOf(sb), boot, calls) && Recorded(sb, boot, done + [calls], [], disk, {})
  {
    SectorsCounted(calls);
    forall w | w in calls ensures R.Home(LogOf(sb), w.sector) && w.sector < |boot| {
      assert w.sector in logged;
    }
    DirectStep(boot, done + [calls], []);
  }

  /** struct inode: the in-memory copy of an inode that its holder has locked. */
  class Inode {
    const inum: nat
    var d: Dinode

    constructor (inum: nat, d: Dinode)
      ensures this.inum == inum && this.d == d
    {
      this.inum := inum;
      this.d := d;
    }
  }

  class Fs {
    const sb: Superblock
    var disk: seq<Block>
    var logged: set<nat>
    var busy: bool
    ghost var inodes: seq<Dinode>
    ghost var ext: seq<Extent>
    ghost var owner: map<nat, Ref>
    ghost var boot: seq<Block>
    ghost var done: seq<seq<C.Write>>
    ghost var calls: seq<C.Write>

    /** A file system on a consistent disk, with no transaction begun; on a settled one it is settled. */
    constructor (sb: Superblock, disk: seq<Block>, ghost inodes: seq<Dinode>, ghost ext: seq<Extent>,
                 ghost owner: map<nat, Ref>)
      requires FsInv(sb, disk, inodes, ext, owner)
      ensures this.sb == sb && this.disk == disk && this.inodes == inodes && this.ext == ext && this.owner == owner
      ensures Idle() && Tracked() && boot == disk && done == []
    {
      this.sb, this.disk, logged, busy := sb, disk, {}, false;
      this.inodes, this.ext, this.owner, boot, done, calls := inodes, ext, owner, disk, [], [];
      RecordedStart(sb, disk);
    }

    /** No transaction is open. */
    ghost predicate Idle()
      reads this`logged, this`busy, this`calls
    {
      !busy && logged == {} && calls == []
    }

    /** log_write's panics: too big a transaction, or none begun. `logged` are the sectors of the header. */
    predicate LogPanics()
      reads this`logged, this`busy
    {
      HeaderFull(sb, logged) || !busy
    }

    /** No data block is free. */
    ghost predicate DiskFull()
      reads this`disk
    {
      NoneFree(sb, disk)
    }

    /** Nothing the transaction has logged lies in the log itself. */
    ghost predicate InHome()
      reads this`logged
    {
      OutsideLog(sb, logged)
    }

    /** The disk is what the log's transactions made of the one at boot. */
    ghost predicate Tracked()
      reads this`boot, this`done, this`calls, this`disk, this`logged
    {
      Recorded(sb, boot, done, calls, disk, logged)
    }

    /** log_write, as the layers above see it; false is one of its panics. */
    method LogWrite(s: nat, data: Block) returns (ok: bool)
      requires s < |disk|
      modifies `disk, `logged, `calls
      ensures ok == !old(LogPanics())
      ensures ok ==>
        disk == old(disk)[s := data] && logged == old(logged) + {s} && calls == old(calls) + [C.Write(s, data)]
      ensures !ok ==> disk == old(disk) && logged == old(logged) && calls == old(calls)
      ensures (old(Tracked()) ==> Tracked()) && (old(InHome()) && s < LogStart(sb) ==> InHome())
    {
      if LogPanics() {
        return false;
      }
      RecordedMore(sb, boot, done, calls, disk, logged, s, data);
      disk := disk[s := data];
      logged := logged + {s};
      calls := calls + [C.Write(s, data)];
      return true;
    }

    /** begin_trans, once no transaction is open: nothing is logged yet. */
    method BeginTrans()
      requires Idle()
      modifies `busy
      ensures busy && InHome()
    {
      busy := true;
    }

    /** commit_trans, as the layers above see it: the calls are one transaction more. */
    method CommitTrans()
      requires busy && Tracked() && InHome() && GoodDisk(sb, disk) && sb.nlog > 0
      modifies `busy, `logged, `done, `calls
      ensures Idle() && Tracked() && done == old(done) + [old(calls)]
    {
      RecordedCommit(sb, boot, done, calls, disk, logged);
      busy, logged := false, {};
      done, calls := done + [calls], [];
    }

    /** balloc's inner loop: the first clear bit of the map block for b, or where the scan ends. */
    method ScanMap(b: nat) returns (bi: nat)
      requires GoodDisk(sb, disk) && b < sb.size && b % BPB == 0
      ensures bi <= BPB && b + bi <= sb.size
      ensures forall k: nat :: k < bi ==> BitIn(disk[BitBlock(sb, b)], k)
      ensures bi < BPB && b + bi < sb.size ==> !BitIn(disk[BitBlock(sb, b)], bi)
    {
      hide BitIn;
      bi := 0;
      while bi < BPB && b + bi < sb.size && BitIn(disk[BitBlock(sb, b)], bi)
        invariant 0 <= bi <= BPB && b + bi <= sb.size
        invariant forall k: nat :: k < bi ==> BitIn(disk[BitBlock(sb, b)], k)
      {
        bi := bi + 1;
      }
    }

    /** balloc's outer loop: the lowest block whose bit is clear. */
    method FirstClear() returns (r: Option<nat>)
      requires GoodDisk(sb, disk)
      ensures r.None? ==> SetBelow(sb, disk, sb.size)
      ensures r.Some? ==> r.value < sb.size && !Bit(sb, disk, r.value) && SetBelow(sb, disk, r.value)
    {
      hide BitIn, Bit, SetBelow, BitBlock;
      var b := 0;
      SetStart(sb, disk);
      while b < sb.size
        invariant b % BPB == 0 && (if b < sb.size then SetBelow(sb, disk, b) else SetBelow(sb, disk, sb.size))
      {
        var bi := ScanMap(b);
        SetMore(sb, disk, b, bi);
        if bi < BPB && b + bi < sb.size {
          return Some(b + bi);
        }
        b := b + BPB;
      }
      return None;
    }

    /** balloc's two writes: the bit, then the zeroed block. */
    method TakeBlock(b: nat) returns (ok: bool)
      requires GoodDisk(sb, disk) && b < sb.size
      modifies `disk, `logged, `calls
      ensures ok <==> !old(LogPanics()) && !HeaderFull(sb, old(logged) + {BitBlock(sb, b)})
      ensures !ok ==> LogPanics() && logged <= old(logged) + {BitBlock(sb, b)}
      ensures ok ==> disk == AllocDisk(sb, old(disk), b) && logged == old(logged) + {BitBlock(sb, b)} + {b}
      ensures (old(Tracked()) ==> Tracked()) && (old(InHome()) ==> InHome() || (ok && b >= LogStart(sb)))
    {
      hide PutBit, BitIn, BitBlock, Recorded, OutsideLog;
      MapBlockIn(sb, b);
      ok := LogWrite(BitBlock(sb, b), PutBit(disk[BitBlock(sb, b)], b % BPB, true));
      if !ok { return; }
      ok := LogWrite(b, ZERO_BLOCK);
    }

    /** balloc: the lowest free block, marked and zeroed. None is a panic: exactly if every block is marked, or
        log_write panics on the map block or then on the block. The block is one of the log's exactly if no data block
        is free. */
    method Balloc() returns (r: Option<nat>, ghost K: set<nat>)
      requires GoodDisk(sb, disk)
      modifies `disk, `logged, `calls
      ensures K == {} <==> SetBelow(sb, old(disk), sb.size)
      ensures r.None? <==> K == {} || old(LogPanics()) || HeaderFull(sb, old(logged) + MapsOf(sb, K))
      ensures K == {} ==> disk == old(disk) && logged == old(logged) && DiskFull()
      ensures r.None? && K != {} ==> LogPanics()
      ensures |K| <= 1 && LowestFree(sb, old(disk), K)
      ensures logged <= old(logged) + MapsOf(sb, K) + (if r.Some? then {r.value} else {})
      ensures (old(Tracked()) ==> Tracked()) && (old(InHome()) ==> InHome() || (r.Some? && r.value >= LogStart(sb)))
      ensures r.Some? ==> K == {r.value} && Took(sb, old(disk), old(logged), disk, logged, r.value)
    {
      hide BitIn, PutBit, Bit, Recorded, OutsideLog, AllocDisk, LowestFree, Marked, MapsOf, HeaderFull, SetBelow,
           NoneFree, Took;
      NoGrowth(sb, disk, map[]);
      var b := FirstClear();
      if b.None? {
        AllSet(sb, disk);
        return None, {};
      }
      K := {b.value};
      ClearAt(sb, disk, b.value);
      OneTaken(sb, disk, b.value);
      var ok := TakeBlock(b.value);
      if !ok { return None, K; }
      NowTook(sb, old(disk), old(logged), b.value);
      return b, K;
    }

    /** bfree, with its panic on freeing a free block and that of log_write. */
    method Bfree(b: nat) returns (r: FreeResult)
      requires GoodDisk(sb, disk) && b < sb.size
      modifies `disk, `logged, `calls
      ensures r == if !Bit(sb, old(disk), b) then FreeingFree else if old(LogPanics()) then LogTooBig else Unmarked
      ensures r.Unmarked? ==> disk == MarkDisk(sb, old(disk), b, false) && logged == old(logged) + {BitBlock(sb, b)}
      ensures !r.Unmarked? ==> disk == old(disk) && logged == old(logged)
      ensures (old(Tracked()) ==> Tracked()) && (old(InHome()) ==> InHome())
    {
      hide BitIn, PutBit, Recorded, OutsideLog;
      MapBlockIn(sb, b);
      var bp := disk[BitBlock(sb, b)];
      if !BitIn(bp, b % BPB) {
        return FreeingFree;
      }
      var ok := LogWrite(BitBlock(sb, b), PutBit(bp, b % BPB, false));
      return if ok then Unmarked else LogTooBig;
    }

    ghost predicate Consistent()
      reads this
    {
      FsInv(sb, disk, inodes, ext, owner)
    }

    /** ip is the current copy of its inode. */
    ghost predicate Current(ip: Inode)
      reads this, ip
    {
      ip.inum < sb.ninodes && |inodes| == |ext| == sb.ninodes && inodes[ip.inum] == ip.d
    }

    /** The open transaction goes on from the same disk, and stays out of the log unless no data block is left. */
    twostate predicate Logging(ok: bool)
      reads this`boot, this`done, this`busy, this`calls, this`disk, this`logged
    {
      && boot == old(boot) && done == old(done) && busy == old(busy) && (old(Tracked()) ==> Tracked())
      && (old(InHome()) ==> InHome() || (!ok && DiskFull()))
    }

    /** Only the given inode, and only its addresses, changed. */
    twostate predicate OnlyAddrs(ip: Inode)
      reads this, ip
    {
      && Current(ip) && old(Current(ip)) && ip.d == old(ip.d).(addrs := ip.d.addrs)
      && OnlyInode(sb, ip.inum, old(disk), old(inodes), old(ext), old(owner), disk, inodes, ext, owner)
    }

    /** k blocks were allocated, a among them, and exactly that logged; or no more than that was tried, and the panic
        is log_write's or for want of blocks. */
    twostate predicate Allocated(a: nat, K: set<nat>, k: nat, ok: bool)
      reads this`disk, this`logged, this`owner, this`busy
    {
      && LowestFree(sb, old(disk), K) && |K| <= k && logged <= old(logged) + MapsOf(sb, K) + {a}
      && (ok ==>
            Growth(sb, old(disk), old(owner), disk, owner, K, k) && logged == old(logged) + MapsOf(sb, K) + {a})
      && (!ok ==> LogPanics() || |old(owner)| + k > DataCount(sb))
    }

    /** bmap's balloc. None: balloc panicked, or gave out a block of the log for want of data blocks, where the model
        stops. */
    method FreshBlock() returns (r: Option<uint32>, ghost a: nat, ghost K: set<nat>)
      requires Consistent()
      modifies `disk, `logged, `calls
      ensures Logging(r.Some?) && |K| <= 1 && LowestFree(sb, old(disk), K) && (old(LogPanics()) ==> r.None?)
      ensures logged <= old(logged) + MapsOf(sb, K) + {a}
      ensures r.None? ==> (DiskFull() || LogPanics()) && (LogPanics() || |owner| == DataCount(sb))
      ensures r.Some? ==>
        && a == r.value < LogStart(sb) && DataBlock(sb, a) && a !in owner && !Bit(sb, old(disk), a) && K == {a}
        && disk == AllocDisk(sb, old(disk), a) && Marked(sb, old(disk), disk, K)
        && logged == old(logged) + MapsOf(sb, K) + {a}
    {
      hide MapsOf, Marked, LowestFree, FsInv, AllocDisk, Bit, BitIn, Recorded, OutsideLog, NoneFree, HeaderFull;
      Dimensions(sb, disk, inodes, ext, owner);
      OwnedCount(sb, disk, inodes, ext, owner);
      var b;
      b, K := Balloc();
      a := if b.Some? then b.value else 0;
      if b.None? || b.value >= LogStart(sb) { return None, a, K; }
      ClearIsFree(sb, old(disk), inodes, ext, owner, b.value);
      return Some(b.value), a, K;
    }

    /** bmap's allocation of a direct block. */
    method GrowDirect(ip: Inode, bn: nat) returns (r: Option<uint32>, ghost a: nat, ghost K: set<nat>)
      requires Consistent() && Current(ip) && bn == ext[ip.inum].nb < NDIRECT
      modifies `disk, `logged, `calls, `inodes, `ext, `owner, ip
      ensures Logging(r.Some?) && (r.None? ==> ip.d == old(ip.d) && (DiskFull() || LogPanics()))
      ensures Allocated(a, K, 1, r.Some?) && (r.Some? ==> a == r.value) && (old(LogPanics()) ==> r.None?)
      ensures r.Some? ==>
        && Consistent() && OnlyAddrs(ip)
        && ext[ip.inum] == old(ext)[ip.inum].(nb := bn + 1)
        && |old(ip.d).addrs| == NDIRECT + 1 && ip.d.addrs == old(ip.d).addrs[bn := r.value]
        && Owns(owner, r.value, Data(ip.inum, bn)) && r.value < |disk| && disk[r.value] == ZERO_BLOCK
    {
      hide MapsOf, Marked, Growth, LowestFree, FsInv, OnlyInode, AllocDisk, Bit, BitIn, Recorded, OutsideLog, NoneFree,
           HeaderFull;
      Dimensions(sb, disk, inodes, ext, owner);
      var b;
      b, a, K := FreshBlock();
      if b.None? { return None, a, K; }
      OneGrown(sb, old(disk), owner, disk, b.value, Data(ip.inum, bn));
      AttachDirect(sb, old(disk), inodes, ext, owner, ip.inum, b.value);
      AllocOnlyInode(sb, old(disk), inodes, ext, owner, ip.inum, b.value, ip.d.(addrs := ip.d.addrs[bn := b.value]),
                     ext[ip.inum].(nb := bn + 1), Data(ip.inum, bn));
      ip.d := ip.d.(addrs := ip.d.addrs[bn := b.value]);
      inodes := inodes[ip.inum := ip.d];
      ext := ext[ip.inum := ext[ip.inum].(nb := bn + 1)];
      owner := owner[b.value := Data(ip.inum, bn)];
      return Some(b.value), a, K;
    }

    /** bmap's allocation of the table of indirect blocks. */
    method GrowTable(ip: Inode) returns (r: Option<uint32>, ghost a: nat, ghost K: set<nat>)
      requires Consistent() && Current(ip) && ext[ip.inum].nb == NDIRECT && !ext[ip.inum].table
      modifies `disk, `logged, `calls, `inodes, `ext, `owner, ip
      ensures Logging(r.Some?) && (r.None? ==> ip.d == old(ip.d) && (DiskFull() || LogPanics()))
      ensures Allocated(a, K, 1, r.Some?) && (r.Some? ==> a == r.value) && (old(LogPanics()) ==> r.None?)
      ensures r.Some? ==>
        && Consistent() && OnlyAddrs(ip)
        && ext[ip.inum] == old(ext)[ip.inum].(table := true)
        && |old(ip.d).addrs| == NDIRECT + 1 && ip.d.addrs == old(ip.d).addrs[NDIRECT := r.value]
        && r.value < |disk|
    {
      hide MapsOf, Marked, Growth, LowestFree, FsInv, OnlyInode, AllocDisk, Bit, BitIn, Recorded, OutsideLog, NoneFree,
           HeaderFull;
      Dimensions(sb, disk, inodes, ext, owner);
      var b;
      b, a, K := FreshBlock();
      if b.None? { return None, a, K; }
      OneGrown(sb, old(disk), owner, disk, b.value, Table(ip.inum));
      AttachTable(sb, old(disk), inodes, ext, owner, ip.inum, b.value);
      AllocOnlyInode(sb, old(disk), inodes, ext, owner, ip.inum, b.value,
                     ip.d.(addrs := ip.d.addrs[NDIRECT := b.value]), ext[ip.inum].(table := true), Table(ip.inum));
      ip.d := ip.d.(addrs := ip.d.addrs[NDIRECT := b.value]);
      inodes := inodes[ip.inum := ip.d];
      ext := ext[ip.inum := ext[ip.inum].(table := true)];
      owner := owner[b.value := Table(ip.inum)];
      return Some(b.value), a, K;
    }

    /** The same for a block with its entry in the table at t. */
    twostate predicate EntryAllocated(a: nat, t: nat, K: set<nat>, ok: bool)
      reads this`disk, this`logged, this`owner, this`busy
    {
      EntryAllocs(sb, old(disk), old(owner), old(logged), disk, owner, logged, a, t, K, ok, LogPanics())
    }

    /** bmap's entry for the fresh block b in the table; d is the disk before b was taken. */
    method PutEntry(ip: Inode, bn: nat, bp: Block, b: uint32, ghost d: seq<Block>) returns (ok: bool)
      requires FsInv(sb, d, inodes, ext, owner) && Current(ip) && NDIRECT <= bn == ext[ip.inum].nb < MAXFILE
      requires ext[ip.inum].table && |ip.d.addrs| == NDIRECT + 1 && ip.d.addrs[NDIRECT] < |d|
      requires bp == d[ip.d.addrs[NDIRECT]] && b < LogStart(sb) && !Bit(sb, d, b) && disk == AllocDisk(sb, d, b)
      modifies `disk, `logged, `calls, `ext, `owner
      ensures (old(Tracked()) ==> Tracked()) && (old(InHome()) ==> InHome()) && ok == !old(LogPanics())
      ensures !ok ==> disk == old(disk) && logged == old(logged) && owner == old(owner)
      ensures ok ==>
        && Consistent() && OnlyInode(sb, ip.inum, d, inodes, old(ext), old(owner), disk, inodes, ext, owner)
        && ext == old(ext)[ip.inum := old(ext)[ip.inum].(nb := bn + 1)]
        && owner == old(owner)[b := Data(ip.inum, bn)] && logged == old(logged) + {ip.d.addrs[NDIRECT]}
        && disk == old(disk)[ip.d.addrs[NDIRECT] := PutWord(bp, bn - NDIRECT, b)]
        && b < |disk| && disk[b] == ZERO_BLOCK
    {
      hide FsInv, AllocDisk, Bit, PutWord, OnlyInode, Recorded, OutsideLog, HeaderFull, MapBlocks;
      Dimensions(sb, d, inodes, ext, owner);
      TableIsOwned(sb, d, inodes, ext, owner, ip.inum);
      ok := LogWrite(ip.d.addrs[NDIRECT], PutWord(bp, bn - NDIRECT, b));
      if !ok { return; }
      IndirectGrown(sb, d, inodes, ext, owner, ip.inum, b, disk);
      ext := ext[ip.inum := ext[ip.inum].(nb := bn + 1)];
      owner := owner[b := Data(ip.inum, bn)];
    }

    /** bmap's allocation of an indirect block; bp is the buffer of the table, read before. */
    method GrowIndirect(ip: Inode, bn: nat, bp: Block) returns (r: Option<uint32>, ghost a: nat, ghost K: set<nat>)
      requires Consistent() && Current(ip) && NDIRECT <= bn == ext[ip.inum].nb < MAXFILE && ext[ip.inum].table
      requires |ip.d.addrs| == NDIRECT + 1 && ip.d.addrs[NDIRECT] < |disk| && bp == disk[ip.d.addrs[NDIRECT]]
      modifies `disk, `logged, `calls, `ext, `owner
      ensures Logging(r.Some?) && ip.d == old(ip.d) && (r.None? ==> DiskFull() || LogPanics())
      ensures EntryAllocated(a, ip.d.addrs[NDIRECT], K, r.Some?) && (old(LogPanics()) ==> r.None?)
      ensures r.Some? ==>
        && Consistent() && OnlyAddrs(ip) && a == r.value
        && ext[ip.inum] == old(ext)[ip.inum].(nb := bn + 1)
        && disk[ip.d.addrs[NDIRECT]] == PutWord(bp, bn - NDIRECT, r.value)
        && Owns(owner, r.value, Data(ip.inum, bn)) && r.value < |disk| && disk[r.value] == ZERO_BLOCK
    {
      hide MapsOf, Marked, Growth, LowestFree, FsInv, AllocDisk, Bit, PutWord, OnlyInode, Recorded, OutsideLog,
           NoneFree, HeaderFull, EntryAllocs;
      Dimensions(sb, disk, inodes, ext, owner);
      TableIsOwned(sb, disk, inodes, ext, owner, ip.inum);
      ghost var o := owner;
      var b;
      b, a, K := FreshBlock();
      ghost var l1 := logged;
      var ok := false;
      if b.Some? {
        OneGrown(sb, old(disk), owner, disk, b.value, Data(ip.inum, bn));
        GrowthKept(sb, old(disk), owner, disk, owner[b.value := Data(ip.inum, bn)], K, 1, ip.d.addrs[NDIRECT],
                   PutWord(bp, bn - NDIRECT, b.value));
        ok := PutEntry(ip, bn, bp, b.value, old(disk));
      }
      EntryDone(sb, old(disk), o, old(logged), l1, disk, owner, logged, a, ip.d.addrs[NDIRECT], K, ok, LogPanics());
      return if ok then Some(b.value) else None, a, K;
    }

    /** The file of ip has no holes and nothing beyond its last block. */
    ghost predicate Dense(ip: Inode)
      reads this, ip
    {
      Current(ip) && ext[ip.inum].lo == 0 && (ext[ip.inum].table <==> ext[ip.inum].nb > NDIRECT)
    }

    /** What bmap promises: block bn of the file, allocated if it was the next one to allocate. */
    twostate predicate Bmapped(ip: Inode, bn: nat, a: uint32)
      reads this, ip
    {
      && Consistent() && Dense(ip) && old(Dense(ip)) && OnlyAddrs(ip) && bn < ext[ip.inum].nb
      && Owns(owner, a, Data(ip.inum, bn)) && a < |disk|
      && (bn < old(ext)[ip.inum].nb ==>
            disk == old(disk) && ip.d == old(ip.d) && ext == old(ext) && owner == old(owner) && logged == old(logged))
      && (bn == old(ext)[ip.inum].nb ==> ext[ip.inum].nb == bn + 1 && disk[a] == ZERO_BLOCK)
    }

    /** What bmap allocates and logs. */
    twostate predicate BmapLogs(ip: Inode, bn: nat, a: nat, K: set<nat>, ok: bool)
      reads this, ip
    {
      && ip.inum < |old(ext)|
      && BlockAllocs(sb, old(disk), old(owner), old(logged), disk, owner, logged, old(ip.d), ip.d, old(ext)[ip.inum].nb,
                     bn, a, K, ok, LogPanics())
    }

    /** bmap for a direct block. */
    method BmapDirect(ip: Inode, bn: nat) returns (r: Option<uint32>, ghost a: nat, ghost K: set<nat>)
      requires Consistent() && Dense(ip) && bn <= ext[ip.inum].nb && bn < NDIRECT
      modifies this, ip
      ensures r.Some? ==> Bmapped(ip, bn, r.value) && a == r.value
      ensures bn < old(ext)[ip.inum].nb ==> r.Some?
      ensures bn == old(ext)[ip.inum].nb && old(LogPanics()) ==> r.None?
      ensures r.None? ==> DiskFull() || LogPanics()
      ensures Logging(r.Some?) && BmapLogs(ip, bn, a, K, r.Some?)
    {
      hide FsInv, MapsOf, LowestFree, Growth, BlockAllocs, Recorded, OutsideLog, NoneFree, HeaderFull;
      Dimensions(sb, disk, inodes, ext, owner);
      Unmapped(sb, disk, inodes, ext, owner, ip.inum);
      ghost var nb := ext[ip.inum].nb;
      if bn < nb { Mapped(sb, disk, inodes, ext, owner, ip.inum, bn); }
      var p := ip.d.addrs[bn];
      if p == 0 {
        r, a, K := GrowDirect(ip, bn);
        DirectAllocs(sb, old(disk), old(owner), old(logged), disk, owner, logged, old(ip.d), ip.d, bn, a, K, r.Some?,
                     LogPanics());
        return;
      }
      HadBlock(sb, disk, owner, logged, ip.d, nb, bn, p, LogPanics());
      assert inodes == inodes[ip.inum := ip.d];
      return Some(p), p, {};
    }

    /** bmap's table of indirect blocks, allocated if there is none. */
    method IndirectTable(ip: Inode) returns (r: Option<uint32>, ghost a: nat, ghost K: set<nat>)
      requires Consistent() && Dense(ip) && NDIRECT <= ext[ip.inum].nb
      modifies this, ip
      ensures Logging(r.Some?) && LowestFree(sb, old(disk), K) && |K| <= Needs(old(ext)[ip.inum].nb) - 1
      ensures old(LogPanics()) && !old(ext)[ip.inum].table ==> r.None?
      ensures r.None? ==>
        && ip.d == old(ip.d) && !old(ext)[ip.inum].table && (DiskFull() || LogPanics())
        && logged <= old(logged) + MapsOf(sb, K) + {a} && (LogPanics() || |old(owner)| + 1 > DataCount(sb))
      ensures r.Some? ==>
        && Consistent() && OnlyAddrs(ip) && ext[ip.inum] == old(ext)[ip.inum].(table := true)
        && |ip.d.addrs| == NDIRECT + 1 && r.value == ip.d.addrs[NDIRECT] < |disk|
        && Growth(sb, old(disk), old(owner), disk, owner, K, Needs(old(ext)[ip.inum].nb) - 1)
        && old(logged) + MapsOf(sb, K) <= logged <= old(logged) + MapsOf(sb, K) + {r.value}
        && (old(ext)[ip.inum].table ==>
              disk == old(disk) && ip.d == old(ip.d) && ext == old(ext) && owner == old(owner) && logged == old(logged))
    {
      hide FsInv, MapsOf, LowestFree, Growth, Recorded, OutsideLog, NoneFree, HeaderFull;
      Dimensions(sb, disk, inodes, ext, owner);
      NoGrowth(sb, disk, owner);
      MapsUnion(sb, {}, {});
      HasTable(sb, disk, inodes, ext, owner, ip.inum);
      if ip.d.addrs[NDIRECT] == 0 {
        r, a, K := GrowTable(ip);
        return;
      }
      assert inodes == inodes[ip.inum := ip.d];
      return Some(ip.d.addrs[NDIRECT]), ip.d.addrs[NDIRECT], {};
    }

    /** bmap's entry of the table at t, allocated if it is zero. */
    method IndirectEntry(ip: Inode, bn: nat, t: nat) returns (r: Option<uint32>, ghost a: nat, ghost K: set<nat>)
      requires Consistent() && Current(ip) && ext[ip.inum].lo == 0 && ext[ip.inum].table
      requires NDIRECT <= bn <= ext[ip.inum].nb && bn < MAXFILE
      requires |ip.d.addrs| == NDIRECT + 1 && t == ip.d.addrs[NDIRECT] < |disk|
      modifies `disk, `logged, `calls, `ext, `owner
      ensures Logging(r.Some?) && ip.d == old(ip.d) && (r.None? ==> DiskFull() || LogPanics())
      ensures LowestFree(sb, old(disk), K) && |K| <= 1 && logged <= old(logged) + {a, t} + MapsOf(sb, K)
      ensures bn == old(ext)[ip.inum].nb ==> EntryAllocated(a, t, K, r.Some?) && (old(LogPanics()) ==> r.None?)
      ensures bn < old(ext)[ip.inum].nb ==>
        r.Some? && K == {} && disk == old(disk) && ext == old(ext) && owner == old(owner) && logged == old(logged)
      ensures r.Some? ==>
        && Consistent() && OnlyAddrs(ip) && a == r.value < |disk| && Owns(owner, a, Data(ip.inum, bn))
        && (bn == old(ext)[ip.inum].nb ==> ext[ip.inum] == old(ext)[ip.inum].(nb := bn + 1) && disk[a] == ZERO_BLOCK)
    {
      hide FsInv, MapsOf, LowestFree, Growth, PutWord, Word, Recorded, OutsideLog, NoneFree, HeaderFull;
      Dimensions(sb, disk, inodes, ext, owner);
      NoGrowth(sb, disk, owner);
      Unmapped(sb, disk, inodes, ext, owner, ip.inum);
      if bn < ext[ip.inum].nb { Mapped(sb, disk, inodes, ext, owner, ip.inum, bn); }
      var bp := disk[t];
      var p := Word(bp, bn - NDIRECT);
      if p == 0 {
        r, a, K := GrowIndirect(ip, bn, bp);
        return;
      }
      assert inodes == inodes[ip.inum := ip.d];
      return Some(p), p, {};
    }

    /** bmap for an indirect block. */
    method BmapIndirect(ip: Inode, bn: nat) returns (r: Option<uint32>, ghost a: nat, ghost K: set<nat>)
      requires Consistent() && Dense(ip) && NDIRECT <= bn <= ext[ip.inum].nb && bn < MAXFILE
      modifies this, ip
      ensures r.Some? ==> Bmapped(ip, bn, r.value) && a == r.value
      ensures bn < old(ext)[ip.inum].nb ==> r.Some?
      ensures bn == old(ext)[ip.inum].nb && old(LogPanics()) ==> r.None?
      ensures r.None? ==> DiskFull() || LogPanics()
      ensures Logging(r.Some?) && BmapLogs(ip, bn, a, K, r.Some?)
    {
      hide FsInv, MapsOf, LowestFree, Growth, OnlyInode, Owns, BlockAllocs, EntryAllocs, Recorded, OutsideLog, NoneFree,
           HeaderFull;
      HasTable(sb, disk, inodes, ext, owner, ip.inum);
      var t;
      t, a, K := IndirectTable(ip);
      if t.None? {
        NoTable(sb, old(disk), old(owner), old(logged), disk, owner, logged, ip.d, bn, a, K, LogPanics());
        return None, a, K;
      }
      ghost var d1, xs1, es1, o1, l1 := disk, inodes, ext, owner, logged;
      ghost var more;
      r, a, more := IndirectEntry(ip, bn, t.value);
      if r.Some? {
        OnlyInodeTrans(sb, ip.inum, old(disk), old(inodes), old(ext), old(owner), d1, xs1, es1, o1, disk, inodes, ext,
                       owner);
      }
      IndirectAllocs(sb, old(disk), old(owner), old(logged), d1, o1, l1, disk, owner, logged, old(ip.d), ip.d,
                     old(ext)[ip.inum].nb, bn, a, K, more, r.Some?, LogPanics());
      K := K + more;
    }

    /** bmap; None is a panic: out of range, or for want of blocks or of log space. It is impossible for a block the
        file has, and certain for the next one outside a transaction. */
    method Bmap(ip: Inode, bn: nat) returns (r: Option<uint32>, ghost a: nat, ghost K: set<nat>)
      requires Consistent() && Dense(ip) && bn <= ext[ip.inum].nb
      modifies this, ip
      ensures r.Some? ==> Bmapped(ip, bn, r.value) && a == r.value
      ensures bn < old(ext)[ip.inum].nb ==> r.Some?
      ensures bn == old(ext)[ip.inum].nb && old(LogPanics()) ==> r.None?
      ensures bn >= MAXFILE ==> r.None? && disk == old(disk) && logged == old(logged)
      ensures r.None? && bn < MAXFILE ==> DiskFull() || LogPanics()
      ensures Logging(r.Some?) && BmapLogs(ip, bn, a, K, r.Some?)
    {
      hide FsInv, MapsOf, LowestFree, Growth, Recorded, OutsideLog, NoneFree, HeaderFull;
      Dimensions(sb, disk, inodes, ext, owner);
      NoGrowth(sb, disk, owner);
      Unmapped(sb, disk, inodes, ext, owner, ip.inum);
      if bn < NDIRECT {
        r, a, K := BmapDirect(ip, bn);
      } else if bn - NDIRECT < NINDIRECT {
        r, a, K := BmapIndirect(ip, bn);
      } else {
        r, a, K := None, 0, {};
      }
    }

    /** No file is in the middle of a truncation. */
    ghost predicate NoneShrinking()
      reads this
    {
      forall j :: 0 <= j < |ext| ==> ext[j].lo == 0
    }

    /** What one turn of writei allocates and logs. */
    twostate predicate ChunkLogs(ip: Inode, bn: nat, a: nat, K: set<nat>, ok: bool)
      reads this, ip
    {
      && ip.inum < |old(ext)| && (old(ext)[ip.inum].table <==> old(ext)[ip.inum].nb > NDIRECT)
      && TurnLogs(sb, old(disk), old(owner), old(logged), disk, owner, logged, old(ip.d), ip.d, ip.inum,
                  old(ext)[ip.inum].nb, bn, a, K, ok, LogPanics())
    }

    /** One turn of writei: bmap, memmove, log_write. */
    method WriteChunk(ip: Inode, p: nat, chunk: seq<byte>) returns (ok: bool, ghost a: nat, ghost K: set<nat>)
      requires Consistent() && Dense(ip) && NoneShrinking()
      requires p <= ext[ip.inum].nb * BSIZE && p % BSIZE + |chunk| <= BSIZE && p / BSIZE < MAXFILE
      modifies this, ip
      ensures Logging(ok) && ChunkLogs(ip, p / BSIZE, a, K, ok) && (!ok ==> DiskFull() || LogPanics())
      ensures ok ==>
        && Consistent() && Dense(ip) && NoneShrinking()
        && var bn, nb := p / BSIZE, old(ext)[ip.inum].nb;
           && ext[ip.inum].nb == (if bn < nb then nb else bn + 1)
           && ip.d == old(ip.d).(addrs := ip.d.addrs) && (bn < nb ==> ip.d == old(ip.d))
           && SameFiles(old(disk), old(inodes), old(ext), disk, inodes, ext, ip.inum)
           && (forall n: nat :: n < nb && n != bn ==> FileBlock(disk, ip.d, n) == FileBlock(old(disk), old(ip.d), n))
           && FileBlock(disk, ip.d, bn) ==
                Overlay(if bn < nb then FileBlock(old(disk), old(ip.d), bn) else ZERO_BLOCK, p % BSIZE, chunk)
           && SameInodeTable(sb, old(disk), disk)
           && Extends(old(owner), owner)
    {
      hide FsInv, FileBlock, MapsOf, LowestFree, Growth, Overlay, InodeOnDisk, BlockLogged, Recorded, OutsideLog,
           NoneFree, HeaderFull, TableSector;
      Dimensions(sb, disk, inodes, ext, owner);
      NoGrowth(sb, disk, owner);
      MapsUnion(sb, {}, {});
      var r;
      r, a, K := Bmap(ip, p / BSIZE);
      BlockLoggedAgain(sb, old(logged), logged, ip.d, p / BSIZE, a, K);
      if r.None? { return false, a, K; }
      Dimensions(sb, disk, inodes, ext, owner);
      GrowthKeepsFiles(sb, old(disk), old(inodes), old(ext), old(owner), disk, inodes, ext, owner, ip.inum);
      ghost var mid := disk;
      ghost var data := Overlay(disk[a], p % BSIZE, chunk);
      WriteKeepsFiles(sb, disk, inodes, ext, owner, ip.inum, p / BSIZE, a, data);
      BlockIs(sb, disk, inodes, ext, owner, ip.inum, p / BSIZE, a);
      GrowthKept(sb, old(disk), old(owner), disk, owner, K,
                 if p / BSIZE < old(ext)[ip.inum].nb then 0 else Needs(p / BSIZE), a, data);
      ok := LogWrite(r.value, Overlay(disk[r.value], p % BSIZE, chunk));
      if !ok { return false, a, K; }
      SameFilesTrans(old(disk), old(inodes), old(ext), mid, inodes, ext, disk, inodes, ext, ip.inum);
      TableFrame(sb, old(disk), disk);
      return true, a, K;
    }

    /** The inode table holds the inodes, but perhaps for the one being worked on. */
    ghost predicate TableAgrees(but: int)
      reads this
    {
      && GoodDisk(sb, disk) && |inodes| == sb.ninodes
      && forall j: nat :: j < sb.ninodes && j != but ==> InodeOnDisk(sb, disk, j) == inodes[j]
    }

    /** The state between operations. */
    ghost predicate Settled()
      reads this`disk, this`inodes, this`ext, this`owner
    {
      SettledDisk(sb, disk, inodes, ext, owner)
    }

    /** iupdate; false is log_write's panic. */
    method Iupdate(ip: Inode) returns (ok: bool)
      requires Consistent() && Current(ip) && NoneShrinking() && TableAgrees(ip.inum)
      modifies `disk, `logged, `calls
      ensures ok == !old(LogPanics()) && (old(Tracked()) ==> Tracked()) && (old(InHome()) ==> InHome())
      ensures !ok ==> disk == old(disk) && logged == old(logged)
      ensures ok ==>
        && Consistent() && TableAgrees(-1)
        && SameFiles(old(disk), inodes, ext, disk, inodes, ext, ip.inum)
        && SameBlocks(old(disk), ip.d, disk, ip.d, ext[ip.inum].nb)
        && logged == old(logged) + {InodeBlock(ip.inum)} && SameMap(sb, old(disk), disk)
    {
      hide FsInv, FileBlock, PutInode, ReadInode, Recorded, OutsideLog;
      Dimensions(sb, disk, inodes, ext, owner);
      TableEntryWritten(sb, disk, inodes, ext, owner, ip.inum, ip.d);
      var s := InodeBlock(ip.inum);
      ok := LogWrite(s, PutInode(disk[s], ip.inum % IPB, ip.d));
    }

    /** Where writei's loop stands at position p, seen from the state (d, xs, es, o, l) at its start. */
    ghost predicate Writing(ip: Inode, d: seq<Block>, xs: seq<Dinode>, es: seq<Extent>, o: map<nat, Ref>, l: set<nat>,
                            touched: set<nat>, K: set<nat>, off: nat, src: seq<byte>, p: nat)
      requires ip.inum < |xs| == |es| && off <= p <= off + |src|
      reads this, ip
    {
      && Consistent() && Dense(ip) && NoneShrinking() && SameInodeTable(sb, d, disk)
      && ip.d == xs[ip.inum].(addrs := ip.d.addrs) && |ip.d.addrs| == NDIRECT + 1
      && (ext[ip.inum].nb == es[ip.inum].nb ==> ip.d == xs[ip.inum])
      && SameFiles(d, xs, es, disk, inodes, ext, ip.inum)
      && Written(disk, ip.d, File(d, xs[ip.inum]), off, src, p)
      && ext[ip.inum].nb == Max(es[ip.inum].nb, NBlocks(p))
      && LoopLogged(sb, d, o, l, disk, owner, logged, ip.d, ip.inum, es[ip.inum].nb, ext[ip.inum].nb, touched, K, off,
                    p)
    }

    /** One turn of the loop. */
    method WriteTurn(ip: Inode, src: seq<byte>, off: nat, p: nat, m: nat, ghost d: seq<Block>, ghost xs: seq<Dinode>,
                     ghost es: seq<Extent>, ghost o: map<nat, Ref>, ghost l: set<nat>, ghost seen: set<nat>,
                     ghost taken: set<nat>)
      returns (ok: bool, ghost touched: set<nat>, ghost K: set<nat>)
      requires ip.inum < |xs| == |es| && off <= xs[ip.inum].size && off <= p && p + m <= off + |src|
      requires 0 < m && p % BSIZE + m <= BSIZE && (p == off || p % BSIZE == 0) && p / BSIZE < MAXFILE
      requires es[ip.inum].nb == NBlocks(xs[ip.inum].size)
      requires Writing(ip, d, xs, es, o, l, seen, taken, off, src, p)
      modifies this, ip
      ensures Logging(ok)
      ensures ok ==> Writing(ip, d, xs, es, o, l, touched, K, off, src, p + m)
      ensures !ok ==>
        && (DiskFull() || LogPanics())
        && (LogPanics() || |o| + Grows(xs[ip.inum].size, off, p + m - off) > DataCount(sb))
        && WriteLogged(sb, d, l, logged, xs[ip.inum], ip.d, ip.inum, off, p + m - off, touched, K, false)
    {
      hide FsInv, FileBlock, File, Written, InodeOnDisk, SameFiles, Max, NBlocks, Recorded, OutsideLog, NoneFree,
           HeaderFull, WriteLogged, Grows, TurnLogs, LoopLogged;
      ghost var d1, xs1, es1, x1, o1, l1 := disk, inodes, ext, ip.d, owner, logged;
      ghost var nb0, nb1 := es[ip.inum].nb, es1[ip.inum].nb;
      ChunkArithmetic(p, m, nb0, nb1);
      FitsBlocks(xs[ip.inum].size, nb0, nb1);
      ghost var a, more;
      ok, a, more := WriteChunk(ip, p, src[p - off..p - off + m]);
      touched, K := if ok || p / BSIZE == nb1 then seen + {a} else seen, taken + more;
      if !ok {
        LoopStops(sb, d, o, l, d1, o1, l1, disk, owner, logged, xs[ip.inum], x1, ip.d, ip.inum, nb1, seen, taken, a,
                  more, off, p, m, LogPanics());
        return;
      }
      LoopMore(sb, d, o, l, d1, o1, l1, disk, owner, logged, x1, ip.d, ip.inum, nb0, nb1, seen, taken, a, more, off, p,
               m, p / BSIZE, ext[ip.inum].nb, LogPanics());
      WrittenStep(d1, x1, disk, ip.d, es1[ip.inum].nb, File(d, xs[ip.inum]), off, src, p, m);
      SameFilesTrans(d, xs, es, d1, xs1, es1, disk, inodes, ext, ip.inum);
      TableKept(sb, d1, xs1, es1, o1, disk, inodes, ext, owner, ip.inum);
    }

    /** writei's loop: everything but the size. `touched` collects the data sectors, K the blocks allocated. */
    method WriteBlocks(ip: Inode, src: seq<byte>, off: nat)
      returns (ok: bool, ghost touched: set<nat>, ghost K: set<nat>)
      requires Settled() && Current(ip) && off <= ip.d.size && off + |src| <= MAXFILE * BSIZE
      modifies this, ip
      ensures Logging(ok)
      ensures ok ==>
        Writing(ip, old(disk), old(inodes), old(ext), old(owner), old(logged), touched, K, off, src, off + |src|)
      ensures !ok ==>
        && (DiskFull() || LogPanics())
        && (LogPanics() || |old(owner)| + Grows(old(ip.d.size), off, |src|) > DataCount(sb))
        && WriteLogged(sb, old(disk), old(logged), logged, old(ip.d), ip.d, ip.inum, off, |src|, touched, K, false)
    {
      hide Turns, FsInv, FileBlock, File, Written, InodeOnDisk, SameFiles, Max, NBlocks, Recorded, OutsideLog, NoneFree,
           HeaderFull, WriteLogged, Grows, LoopLogged;
      NothingWritten(disk, ip.d, off, src);
      StartArithmetic(off, ip.d.size);
      SameFilesRefl(disk, inodes, ext, ip.inum);
      Dimensions(sb, disk, inodes, ext, owner);
      NothingLogged(sb, disk, ip.d, owner, ip.inum, ext[ip.inum].nb, off, logged);
      touched, K := {}, {};
      var tot := 0;
      while tot < |src|
        invariant 0 <= tot <= |src| && ip.inum < |old(inodes)| && Logging(true)
        invariant Writing(ip, old(disk), old(inodes), old(ext), old(owner), old(logged), touched, K, off, src,
                          off + tot)
        invariant tot == 0 || tot == |src| || (off + tot) % BSIZE == 0
      {
        var p := off + tot;
        var m := if |src| - tot < BSIZE - p % BSIZE then |src| - tot else BSIZE - p % BSIZE;
        ok, touched, K := WriteTurn(ip, src, off, p, m, old(disk), old(inodes), old(ext), old(owner), old(logged),
                                    touched, K);
        if !ok {
          LoggedSoFar(sb, old(disk), old(logged), logged, old(ip.d), ip.d, ip.inum, off, p + m - off, |src|, touched,
                      K);
          return;
        }
        OneMoreTurn(off, p, m);
        tot := tot + m;
      }
      ok := true;
    }

    /** Every file but that of ip is as it was. */
    twostate predicate OthersUntouched(ip: Inode)
      reads this
    {
      && |inodes| == |old(inodes)|
      && forall j :: 0 <= j < |inodes| && j != ip.inum ==>
           inodes[j] == old(inodes)[j] && File(disk, inodes[j]) == File(old(disk), old(inodes)[j])
    }

    /** writei's size update, when the file grew. */
    method SetSize(ip: Inode, size: uint32) returns (ok: bool)
      requires Consistent() && Dense(ip) && NoneShrinking() && TableAgrees(ip.inum)
      modifies this, ip
      ensures Logging(true) && ip.d == old(ip.d).(size := size) && (!ok ==> LogPanics() && logged == old(logged))
      ensures ext == old(ext) && owner == old(owner)
      ensures ok ==>
        && Consistent() && Dense(ip) && NoneShrinking() && TableAgrees(-1) && ext == old(ext)
        && SameFiles(old(disk), old(inodes), ext, disk, inodes, ext, ip.inum)
        && SameBlocks(old(disk), old(ip.d), disk, ip.d, ext[ip.inum].nb)
        && logged == old(logged) + {InodeBlock(ip.inum)} && SameMap(sb, old(disk), disk)
    {
      hide FsInv, FileBlock, InodeOnDisk, SameFiles, Recorded, OutsideLog, SameMap;
      Dimensions(sb, disk, inodes, ext, owner);
      FieldsChanged(sb, disk, inodes, ext, owner, ip.inum, ip.d.(size := size));
      ip.d := ip.d.(size := size);
      inodes := inodes[ip.inum := ip.d];
      ok := Iupdate(ip);
      if !ok { return; }
      SameFilesTrans(old(disk), old(inodes), ext, old(disk), inodes, ext, disk, inodes, ext, ip.inum);
    }

    /** writei's tail. */
    method GrowSize(ip: Inode, n: nat, p: uint32) returns (ok: bool)
      requires Consistent() && Dense(ip) && NoneShrinking() && TableAgrees(ip.inum)
      requires (n > 0 && p > ip.d.size) || TableAgrees(-1)
      modifies this, ip
      ensures Logging(true)
      ensures !ok ==>
        LogPanics() && logged == old(logged) && ip.d.addrs == old(ip.d.addrs) && ext == old(ext)
        && owner == old(owner) && n > 0 && p > old(ip.d.size)
      ensures ok ==>
        && Consistent() && Dense(ip) && NoneShrinking() && TableAgrees(-1) && ext == old(ext)
        && ip.d == old(ip.d).(size := if n > 0 && p > old(ip.d.size) then p else old(ip.d.size))
        && SameFiles(old(disk), old(inodes), ext, disk, inodes, ext, ip.inum)
        && SameBlocks(old(disk), old(ip.d), disk, ip.d, ext[ip.inum].nb)
        && logged == old(logged) + (if n > 0 && p > old(ip.d.size) then {InodeBlock(ip.inum)} else {})
        && owner == old(owner) && SameMap(sb, old(disk), disk)
    {
      hide FsInv, FileBlock, InodeOnDisk, Recorded, OutsideLog, HeaderFull;
      SameFilesRefl(disk, inodes, ext, ip.inum);
      ok := true;
      if n > 0 && p > ip.d.size {
        ok := SetSize(ip, p);
      }
    }

    /** What writei's loop left, in the terms of its tail. */
    lemma {:induction false} AfterBlocks(ip: Inode, d: seq<Block>, xs: seq<Dinode>, es: seq<Extent>, o: map<nat, Ref>,
                                         l: set<nat>, touched: set<nat>, K: set<nat>, off: nat, src: seq<byte>)
      requires ip.inum < |xs| == |es| == sb.ninodes && off <= xs[ip.inum].size
      requires Writing(ip, d, xs, es, o, l, touched, K, off, src, off + |src|)
      requires GoodDisk(sb, d) && (forall j: nat :: j < sb.ninodes ==> InodeOnDisk(sb, d, j) == xs[j])
      requires es[ip.inum].nb == NBlocks(xs[ip.inum].size)
      ensures Consistent() && Dense(ip) && NoneShrinking() && TableAgrees(ip.inum)
      ensures (|src| > 0 && off + |src| > ip.d.size) || TableAgrees(-1)
    {
      hide FsInv, FileBlock, File, Written, InodeOnDisk, LoopLogged;
      ExtentGrown(ext[ip.inum], xs[ip.inum].size, off + |src|, Max(xs[ip.inum].size, off + |src|));
    }

    /** writei past its checks; false is a panic. */
    method WriteAll(ip: Inode, src: seq<byte>, off: uint32)
      returns (ok: bool, ghost touched: set<nat>, ghost K: set<nat>)
      requires Settled() && Current(ip) && ip.d.kind != 0 && off <= ip.d.size && off + |src| <= MAXFILE * BSIZE
      modifies this, ip
      ensures Logging(ok) && (!ok ==> DiskFull() || LogPanics())
      ensures WriteLogged(sb, old(disk), old(logged), logged, old(ip.d), ip.d, ip.inum, off, |src|, touched, K, ok)
      ensures !ok ==> LogPanics() || |old(owner)| + Grows(old(ip.d.size), off, |src|) > DataCount(sb)
      ensures ok ==> |owner| == |old(owner)| + Grows(old(ip.d.size), off, |src|) <= DataCount(sb)
      ensures ok ==> Marked(sb, old(disk), disk, K)
      ensures ok ==>
        && Settled() && Current(ip) && OthersUntouched(ip)
        && ip.d == old(ip.d).(size := Max(old(ip.d.size), off + |src|), addrs := ip.d.addrs)
        && File(disk, ip.d) == Splice(File(old(disk), old(ip.d)), off, src)
    {
      hide Turns, FsInv, FileBlock, File, Written, InodeOnDisk, SameFiles, SameBlocks, Splice, Allocs, Recorded,
           OutsideLog, NoneFree, HeaderFull, LoopLogged, WriteLogged, Marked, SameMap;
      ok, touched, K := WriteBlocks(ip, src, off);
      if !ok { return; }
      AfterBlocks(ip, old(disk), old(inodes), old(ext), old(owner), old(logged), touched, K, off, src);
      ghost var d1, xs1, x1, l1 := disk, inodes, ip.d, logged;
      ok := GrowSize(ip, |src|, off + |src|);
      AllLogged(sb, old(disk), old(owner), d1, xs1, ext, owner, old(logged), l1, logged, old(ip.d), x1, ip.d, ip.inum,
                off, |src|, touched, K, ok);
      if !ok { return; }
      MarkedKept(sb, old(disk), d1, disk, K);
      ExtentGrown(ext[ip.inum], old(ip.d.size), off + |src|, ip.d.size);
      WrittenKept(d1, x1, disk, ip.d, ext[ip.inum].nb, File(old(disk), old(ip.d)), off, src);
      WrittenIsSplice(disk, ip.d, File(old(disk), old(ip.d)), off, src);
      SameFilesTrans(old(disk), old(inodes), old(ext), d1, xs1, ext, disk, inodes, ext, ip.inum);
      OthersSettled(old(disk), old(inodes), old(ext), disk, inodes, ext, ip.inum);
    }

    /** writei: the bytes are spliced into the file and nothing else changes. A panic is for want of blocks or of
        log space, and then the inode's sector is not logged yet. */
    method Writei(ip: Inode, src: seq<byte>, off: uint32)
      returns (r: WriteResult, ghost touched: set<nat>, ghost K: set<nat>)
      requires Settled() && Current(ip) && ip.d.kind != 0 && |src| < 0x1_0000_0000
      modifies this, ip
      ensures Logging(!r.Panicked?) && (r.Panicked? ==> DiskFull() || LogPanics())
      ensures r.DeviceWrite? <==> old(ip.d.kind) == T_DEV
      ensures r.WriteError? <==> old(ip.d.kind) != T_DEV && (off > old(ip.d.size) || off + |src| > MAXFILE * BSIZE)
      ensures r.DeviceWrite? || r.WriteError? ==>
        && ip.d == old(ip.d) && disk == old(disk) && inodes == old(inodes) && ext == old(ext) && owner == old(owner)
        && logged == old(logged) && Settled() && Current(ip)
      ensures r.Panicked? || r.Wrote? ==>
        WriteLogged(sb, old(disk), old(logged), logged, old(ip.d), ip.d, ip.inum, off, |src|, touched, K, r.Wrote?)
      ensures r.Panicked? ==> LogPanics() || |old(owner)| + Grows(old(ip.d.size), off, |src|) > DataCount(sb)
      ensures r.Wrote? ==> |owner| == |old(owner)| + Grows(old(ip.d.size), off, |src|) <= DataCount(sb)
      ensures r.Wrote? ==> Marked(sb, old(disk), disk, K)
      ensures r.Wrote? ==>
        && r.n == |src| && Settled() && Current(ip) && OthersUntouched(ip)
        && ip.d == old(ip.d).(size := Max(old(ip.d.size), off + |src|), addrs := ip.d.addrs)
        && off <= old(ip.d.size) && File(disk, ip.d) == Splice(File(old(disk), old(ip.d)), off, src)
    {
      hide WriteLogged, File, Splice, Recorded, OutsideLog, NoneFree, HeaderFull, SettledDisk, Grows, Marked;
      if ip.d.kind == T_DEV { return DeviceWrite, {}, {}; }
      if off > ip.d.size || (off + |src|) % 0x1_0000_0000 < off { return WriteError, {}, {}; }
      if off + |src| > MAXFILE * BSIZE { return WriteError, {}, {}; }
      var ok;
      ok, touched, K := WriteAll(ip, src, off);
      return if ok then Wrote(|src|) else Panicked, touched, K;
    }

    /** readi: the bytes of the file, and never a block allocated. */
    method Readi(ip: Inode, off: uint32, n: uint32) returns (r: ReadResult)
      requires Settled() && Current(ip)
      modifies this, ip
      ensures Logging(true) && disk == old(disk) && ip.d == old(ip.d) && logged == old(logged) && Settled()
      ensures Current(ip)
      ensures inodes == old(inodes) && ext == old(ext) && owner == old(owner)
      ensures r.DeviceRead? <==> ip.d.kind == T_DEV
      ensures r.ReadError? <==> ip.d.kind != T_DEV && (off > ip.d.size || off + n >= 0x1_0000_0000)
      ensures r.Bytes? ==>
        && off <= ip.d.size
        && r.data == File(disk, ip.d)[off..if off + n > ip.d.size then ip.d.size else off + n]
    {
      hide FsInv, FileBlock, InodeOnDisk, File, NBlocks, BlockAllocs, Recorded, OutsideLog, NoneFree, HeaderFull;
      if ip.d.kind == T_DEV { return DeviceRead; }
      if off > ip.d.size || (off + n) % 0x1_0000_0000 < off { return ReadError; }
      var want := if off + n > ip.d.size then ip.d.size - off else n;
      var data: seq<byte> := [];
      while |data| < want
        invariant |data| <= want && Logging(true)
        invariant disk == old(disk) && ip.d == old(ip.d) && logged == old(logged)
        invariant inodes == old(inodes) && ext == old(ext) && owner == old(owner)
        invariant data == File(disk, ip.d)[off..off + |data|]
      {
        var p := off + |data|;
        LastBlock(p, ip.d.size);
        var a;
        ghost var g, K;
        a, g, K := Bmap(ip, p / BSIZE);
        assert inodes == old(inodes);
        BlockIs(sb, disk, inodes, ext, owner, ip.inum, p / BSIZE, a.value);
        var m := if want - |data| < BSIZE - p % BSIZE then want - |data| else BSIZE - p % BSIZE;
        var bp := disk[a.value];
        ReadStep(disk, ip.d, off, data, p, m);
        data := data + bp[p % BSIZE..p % BSIZE + m];
      }
      return Bytes(data);
    }

    /** What a truncation logs: map blocks. */
    twostate predicate MapsLogged()
      reads this`boot, this`done, this`busy, this`calls, this`disk, this`logged
    {
      Logging(true) && logged <= old(logged) + MapBlocks(sb)
    }

    /** itrunc's bfree of one block of the file, the lowest it still has; false is log_write's panic. */
    method FreeNext(ip: Inode, b: nat, ghost x: Dinode) returns (ok: bool)
      requires Consistent() && Current(ip) && ext[ip.inum].lo < ext[ip.inum].nb
      requires Owns(owner, b, Data(ip.inum, ext[ip.inum].lo))
      requires |ip.d.addrs| == |x.addrs| == NDIRECT + 1 && (ext[ip.inum].lo >= NDIRECT ==> x.addrs == ip.d.addrs)
      requires forall k :: 0 <= k <= NDIRECT && k != ext[ip.inum].lo ==> x.addrs[k] == ip.d.addrs[k]
      modifies `disk, `logged, `calls, `inodes, `ext, `owner
      ensures MapsLogged() && ok == !old(LogPanics()) && (!ok ==> LogPanics())
      ensures ok ==>
        && Consistent() && inodes == old(inodes)[ip.inum := x]
        && ext == old(ext)[ip.inum := old(ext)[ip.inum].(lo := old(ext)[ip.inum].lo + 1)]
        && owner == old(owner) - {b} && |disk| == |old(disk)|
        && forall s :: 0 <= s < |disk| && !(BitStart(sb) <= s < DataStart(sb)) ==> disk[s] == old(disk)[s]
    {
      hide FsInv, Bit, MarkDisk, MapBlocks, Recorded, OutsideLog;
      Dimensions(sb, disk, inodes, ext, owner);
      Detach(sb, disk, inodes, ext, owner, ip.inum, x, b);
      MapBlockIn(sb, b);
      forall s | 0 <= s < |disk| && !(BitStart(sb) <= s < DataStart(sb))
        ensures MarkDisk(sb, disk, b, false)[s] == disk[s]
      {
        MarkOthers(sb, disk, b, false, s);
      }
      var f := Bfree(b);
      if !f.Unmarked? { return false; }
      inodes := inodes[ip.inum := x];
      ext := ext[ip.inum := ext[ip.inum].(lo := ext[ip.inum].lo + 1)];
      owner := owner - {b};
      return true;
    }

    /** itrunc's loop over the direct blocks. */
    method TruncDirect(ip: Inode) returns (ok: bool)
      requires Consistent() && Current(ip) && ext[ip.inum].lo == 0
      modifies this, ip
      ensures MapsLogged() && (!ok ==> LogPanics())
      ensures ok ==>
        && Consistent() && Current(ip) && ip.d == old(ip.d).(addrs := ip.d.addrs)
        && Freed(sb, ip.inum, old(disk), old(inodes), old(ext), old(owner), disk, inodes, ext, owner)
        && ext[ip.inum] == old(ext)[ip.inum].(lo := Min(NDIRECT, old(ext)[ip.inum].nb))
        && |ip.d.addrs| == NDIRECT + 1 && forall k :: 0 <= k < NDIRECT ==> ip.d.addrs[k] == 0
    {
      hide FsInv, Freed, MapBlocks, Recorded, OutsideLog, HeaderFull;
      Dimensions(sb, disk, inodes, ext, owner);
      NothingFreed(sb, ip.inum, disk, inodes, ext, owner);
      var i := 0;
      while i < NDIRECT
        invariant 0 <= i <= NDIRECT && Consistent() && Current(ip) && ip.d == old(ip.d).(addrs := ip.d.addrs)
        invariant Freed(sb, ip.inum, old(disk), old(inodes), old(ext), old(owner), disk, inodes, ext, owner)
        invariant ext[ip.inum] == old(ext)[ip.inum].(lo := Min(i, old(ext)[ip.inum].nb)) && MapsLogged()
        invariant |ip.d.addrs| == NDIRECT + 1 && forall k :: 0 <= k < i ==> ip.d.addrs[k] == 0
      {
        StillThere(sb, disk, inodes, ext, owner, ip.inum, i);
        if ip.d.addrs[i] != 0 {
          ghost var x := ip.d.(addrs := ip.d.addrs[i := 0]);
          ghost var d1, xs1, es1, o1, b := disk, inodes, ext, owner, ip.d.addrs[i];
          ok := FreeNext(ip, ip.d.addrs[i], x);
          if !ok { return; }
          FreedMore(sb, ip.inum, old(disk), old(inodes), old(ext), old(owner), d1, xs1, es1, o1, disk, x, ext[ip.inum],
                    b);
          ip.d := ip.d.(addrs := ip.d.addrs[i := 0]);
        }
        i := i + 1;
      }
      ok := true;
    }

    /** itrunc's bfree of the table. */
    method FreeTable(ip: Inode, t: nat) returns (ok: bool)
      requires Consistent() && Current(ip) && ext[ip.inum].lo == ext[ip.inum].nb && ext[ip.inum].table
      requires |ip.d.addrs| == NDIRECT + 1 && t == ip.d.addrs[NDIRECT]
      modifies this, ip
      ensures MapsLogged() && (!ok ==> LogPanics())
      ensures ok ==>
        && Consistent() && Current(ip) && ip.d == old(ip.d).(addrs := old(ip.d).addrs[NDIRECT := 0])
        && ext == old(ext)[ip.inum := old(ext)[ip.inum].(table := false)]
        && inodes == old(inodes)[ip.inum := ip.d]
        && t in old(owner) && old(owner)[t].inum == ip.inum && owner == old(owner) - {t} && |disk| == |old(disk)|
        && forall s :: 0 <= s < |disk| && !(BitStart(sb) <= s < DataStart(sb)) ==> disk[s] == old(disk)[s]
    {
      hide FsInv, Bit, MarkDisk, MapBlocks, Recorded, OutsideLog;
      Dimensions(sb, disk, inodes, ext, owner);
      DetachTable(sb, disk, inodes, ext, owner, ip.inum);
      TableIsOwned(sb, disk, inodes, ext, owner, ip.inum);
      MapBlockIn(sb, t);
      forall s | 0 <= s < |disk| && !(BitStart(sb) <= s < DataStart(sb))
        ensures MarkDisk(sb, disk, t, false)[s] == disk[s]
      {
        MarkOthers(sb, disk, t, false, s);
      }
      var f := Bfree(t);
      if !f.Unmarked? { return false; }
      ip.d := ip.d.(addrs := ip.d.addrs[NDIRECT := 0]);
      inodes := inodes[ip.inum := ip.d];
      ext := ext[ip.inum := ext[ip.inum].(table := false)];
      owner := owner - {t};
      return true;
    }

    /** itrunc's loop over the indirect blocks, and its bfree of their table. */
    method TruncIndirect(ip: Inode) returns (ok: bool)
      requires Consistent() && Current(ip) && ext[ip.inum].lo == Min(NDIRECT, ext[ip.inum].nb)
      requires ext[ip.inum].table <==> ext[ip.inum].nb > NDIRECT
      modifies this, ip
      ensures MapsLogged() && (!ok ==> LogPanics())
      ensures ok ==>
        && Consistent() && Current(ip)
        && |old(ip.d).addrs| == NDIRECT + 1 && ip.d == old(ip.d).(addrs := old(ip.d).addrs[NDIRECT := 0])
        && Freed(sb, ip.inum, old(disk), old(inodes), old(ext), old(owner), disk, inodes, ext, owner)
        && ext[ip.inum].lo == ext[ip.inum].nb && !ext[ip.inum].table
    {
      hide FsInv, Freed, Word, BlockAt, Bit, MarkDisk, MapBlocks, Recorded, OutsideLog, HeaderFull;
      Dimensions(sb, disk, inodes, ext, owner);
      NothingFreed(sb, ip.inum, disk, inodes, ext, owner);
      HasTable(sb, disk, inodes, ext, owner, ip.inum);
      var t := ip.d.addrs[NDIRECT];
      if t == 0 {
        assert ip.d.addrs[NDIRECT := 0] == ip.d.addrs;
        return true;
      }
      var bp := disk[t];
      var j := 0;
      while j < NINDIRECT
        invariant 0 <= j <= NINDIRECT && Consistent() && Current(ip) && ip.d == old(ip.d) && MapsLogged()
        invariant Freed(sb, ip.inum, old(disk), old(inodes), old(ext), old(owner), disk, inodes, ext, owner)
        invariant ext[ip.inum] == old(ext)[ip.inum].(lo := Min(NDIRECT + j, old(ext)[ip.inum].nb))
        invariant t < |disk| && disk[t] == bp
      {
        StillThere(sb, disk, inodes, ext, owner, ip.inum, NDIRECT + j);
        TableEntry(disk, ip.d, j);
        var a := Word(bp, j);
        if a != 0 {
          ghost var d1, xs1, es1, o1 := disk, inodes, ext, owner;
          ok := FreeNext(ip, a, ip.d);
          if !ok { return; }
          FreedMore(sb, ip.inum, old(disk), old(inodes), old(ext), old(owner), d1, xs1, es1, o1, disk, ip.d,
                    ext[ip.inum], a);
        }
        j := j + 1;
      }
      ghost var d1, xs1, es1, o1 := disk, inodes, ext, owner;
      ok := FreeTable(ip, t);
      if !ok { return; }
      FreedMore(sb, ip.inum, old(disk), old(inodes), old(ext), old(owner), d1, xs1, es1, o1, disk, ip.d, ext[ip.inum],
                t);
    }

    /** itrunc: every block of the file is freed, once, and the panic on a free block is never reached. False is
        log_write's panic, and then no more is logged than the bitmap. */
    method Itrunc(ip: Inode) returns (ok: bool)
      requires Settled() && Current(ip)
      modifies this, ip
      ensures Logging(true) && (!ok ==> LogPanics() && logged <= old(logged) + MapBlocks(sb))
      ensures ok ==>
        && Settled() && Current(ip) && OthersUntouched(ip)
        && ip.d == old(ip.d).(size := 0, addrs := NO_ADDRS)
        && (forall b :: b in owner <==> b in old(owner) && old(owner)[b].inum != ip.inum)
        && logged <= old(logged) + MapBlocks(sb) + {InodeBlock(ip.inum)}
    {
      hide FsInv, Freed, FileBlock, InodeOnDisk, File, MapBlocks, Recorded, OutsideLog;
      ghost var i := ip.inum;
      Dimensions(sb, disk, inodes, ext, owner);
      ok := TruncDirect(ip);
      if !ok { return; }
      ghost var d1, xs1, es1, o1 := disk, inodes, ext, owner;
      ok := TruncIndirect(ip);
      if !ok { return; }
      FreedTrans(sb, i, old(disk), old(inodes), old(ext), old(owner), d1, xs1, es1, o1, disk, inodes, ext, owner);
      assert ip.d.addrs == NO_ADDRS;
      var x := ip.d.(size := 0);
      EmptyFile(sb, disk, inodes, ext, owner, i, x);
      FreedFiles(sb, i, old(disk), old(inodes), old(ext), old(owner), disk, inodes, ext, owner, inodes[i := x],
                 ext[i := Extent(0, 0, false)]);
      ip.d := x;
      inodes := inodes[i := x];
      ext := ext[i := Extent(0, 0, false)];
      ghost var d2, xs2, es2 := disk, inodes, ext;
      ok := Iupdate(ip);
      if !ok { return; }
      SameFilesTrans(old(disk), old(inodes), old(ext), d2, xs2, es2, disk, inodes, ext, i);
      OthersSettled(old(disk), old(inodes), old(ext), disk, inodes, ext, i);
    }

    /** iput's last act on an inode without links: content and inode are freed. */
    method FreeInode(ip: Inode) returns (ok: bool)
      requires Settled() && Current(ip)
      modifies this, ip
      ensures Logging(true) && (!ok ==> LogPanics())
      ensures logged <= old(logged) + MapBlocks(sb) + {InodeBlock(ip.inum)}
      ensures ok ==>
        && Settled() && Current(ip) && OthersUntouched(ip)
        && ip.d == old(ip.d).(kind := 0, size := 0, addrs := NO_ADDRS)
        && (forall b :: b in owner <==> b in old(owner) && old(owner)[b].inum != ip.inum)
    {
      hide FsInv, FileBlock, InodeOnDisk, File, MapBlocks, Recorded, OutsideLog;
      ok := Itrunc(ip);
      if !ok { return; }
      ghost var d1, xs1 := disk, inodes;
      Dimensions(sb, disk, inodes, ext, owner);
      FieldsChanged(sb, disk, inodes, ext, owner, ip.inum, ip.d.(kind := 0));
      ip.d := ip.d.(kind := 0);
      inodes := inodes[ip.inum := ip.d];
      ok := Iupdate(ip);
      if !ok { return; }
      SameFilesTrans(d1, xs1, ext, d1, inodes, ext, disk, inodes, ext, ip.inum);
      OthersSettled(d1, xs1, ext, disk, inodes, ext, ip.inum);
    }

    /** iput: the last reference to an inode without links frees it, and every other only counts down; the panics
        are that on a busy inode and log_write's. */
    method Iput(ip: Inode, ref: nat, valid: bool, busy: bool) returns (r: PutResult)
      requires Settled() && Current(ip) && ref >= 1
      modifies this, ip
      ensures Logging(true)
      ensures var last := ref == 1 && valid && old(ip.d.nlink) == 0;
              && (r.PutBusy? <==> last && busy) && (r.Put? ==> r.ref == ref - 1)
              && (r.PutLogFull? ==> last && LogPanics())
              && (last && r.Put? ==>
                    && Settled() && Current(ip) && OthersUntouched(ip)
                    && ip.d == old(ip.d).(kind := 0, size := 0, addrs := NO_ADDRS)
                    && forall b :: b in owner <==> b in old(owner) && old(owner)[b].inum != ip.inum)
              && (!last ==>
                    && r.Put? && ip.d == old(ip.d) && disk == old(disk) && inodes == old(inodes) && owner == old(owner)
                    && ext == old(ext) && logged == old(logged) && Settled() && Current(ip))
    {
      hide FsInv, FileBlock, InodeOnDisk, File, MapBlocks, Recorded, OutsideLog, SettledDisk;
      if ref == 1 && valid && ip.d.nlink == 0 {
        if busy { return PutBusy; }
        var ok := FreeInode(ip);
        if !ok { return PutLogFull; }
      }
      return Put(ref - 1);
    }

    /** ialloc: the lowest free inode, cleared and typed; None is a panic, for want of inodes or of log space. */
    method Ialloc(kind: uint16) returns (r: Option<nat>)
      requires Settled() && kind != 0
      modifies `disk, `logged, `calls, `inodes
      ensures Logging(true)
      ensures |inodes| == |old(inodes)|
      ensures r.None? ==>
        && disk == old(disk) && inodes == old(inodes) && logged == old(logged) && Settled()
        && (LogPanics() || forall j :: 1 <= j < sb.ninodes ==> inodes[j].kind != 0)
      ensures r.Some? ==>
        && 1 <= r.value < sb.ninodes && Settled() && logged == old(logged) + {InodeBlock(r.value)}
        && old(inodes)[r.value].kind == 0 && (forall j :: 1 <= j < r.value ==> old(inodes)[j].kind != 0)
        && inodes == old(inodes)[r.value := Dinode(kind, 0, 0, 0, 0, NO_ADDRS)]
        && forall j :: 0 <= j < sb.ninodes ==> File(disk, inodes[j]) == File(old(disk), old(inodes)[j])
    {
      hide FsInv, FileBlock, File, PutInode, ReadInode, Recorded, OutsideLog;
      Dimensions(sb, disk, inodes, ext, owner);
      var inum := 1;
      while inum < sb.ninodes
        invariant 1 <= inum && disk == old(disk) && inodes == old(inodes) && logged == old(logged)
        invariant calls == old(calls)
        invariant forall j :: 1 <= j < inum && j < sb.ninodes ==> inodes[j].kind != 0
      {
        var s := InodeBlock(inum);
        assert InodeOnDisk(sb, disk, inum) == inodes[inum];
        if ReadInode(disk[s], inum % IPB).kind == 0 {
          var x := Dinode(kind, 0, 0, 0, 0, NO_ADDRS);
          EmptyAddrs(sb, disk, inodes, ext, owner, inum);
          FieldsChanged(sb, disk, inodes, ext, owner, inum, x);
          ghost var xs := inodes[inum := x];
          TableEntryWritten(sb, disk, xs, ext, owner, inum, x);
          var ok := LogWrite(s, PutInode(disk[s], inum % IPB, x));
          if !ok { return None; }
          inodes := xs;
          SameFilesTrans(old(disk), old(inodes), ext, old(disk), inodes, ext, disk, inodes, ext, inum);
          OthersSettled(old(disk), old(inodes), ext, disk, inodes, ext, inum);
          EmptyFiles(old(disk), old(inodes)[inum], disk, x);
          return Some(inum);
        }
        inum := inum + 1;
      }
      return None;
    }

    /** Between operations the set bits of the map, below the log, are the blocks before the data region and
        those some file uses. No block is used twice, and none of the log. */
    lemma {:induction false} BitmapIsExact(b: nat)
      requires Settled() && b < sb.size
      ensures b < LogStart(sb) ==>
        (Bit(sb, disk, b) <==> !DataBlock(sb, b) || exists r: Ref :: Uses(sb, disk, inodes, r, b))
      ensures b >= LogStart(sb) ==> forall r: Ref :: !Uses(sb, disk, inodes, r, b)
      ensures forall q: Ref, r: Ref :: Uses(sb, disk, inodes, q, b) && Uses(sb, disk, inodes, r, b) ==> q == r
    {
      UsesIsOwns(sb, disk, inodes, ext, owner, b);
    }
  }
}
