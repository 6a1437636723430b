/** tools/mkfs.c: the image of a file system with a root directory and the given files. It is settled exactly if the
    entries of the root do not end on a block boundary, and then the kernel reads every file back. */
module Mkfs {
  import opened Bytes
  import opened Bitmap
  import opened FsLayout
  import opened FsContent
  import opened FileSystem
  import opened Names
  import opened Directories
  import opened OpenFiles
  import R = RedoLog

  const ROOT: nat := 1
  const T_FILE := 2

  /** `nblocks`, chosen so that the regions fill the disk. */
  function DataBlocks(sb: Superblock): int {
    sb.size - DataStart(sb) - sb.nlog
  }

  /** The sizes mkfs can lay out, in a superblock of 32-bit fields. */
  predicate Formattable(sb: Superblock) {
    sb.size < 0x8000_0000 && sb.ninodes < 0x1_0000_0000 && DataBlocks(sb) >= 0
  }

  // ----- superblock and bitmap -----

  function SuperSector(sb: Superblock): Block
    requires Formattable(sb)
  {
    PutWord(PutWord(PutWord(PutWord(ZERO_BLOCK, 0, sb.size), 1, DataBlocks(sb)), 2, sb.ninodes), 3, sb.nlog)
  }

  /** readsb: what the kernel reads back from sector 1. */
  function ReadSuper(b: Block): Superblock {
    Superblock(Word(b, 0), Word(b, 2), Word(b, 3))
  }

  lemma {:induction false} SuperRoundTrip(sb: Superblock)
    requires Formattable(sb)
    ensures ReadSuper(SuperSector(sb)) == sb
  {
    hide Word;
  }

  lemma {:induction false} ZeroBits(i: nat)
    requires i < BPB
    ensures !BitIn(ZERO_BLOCK, i)
  {
    assert ZERO_BLOCK[i / 8] == 0;
    NoBits(i % 8);
  }

  lemma {:induction false} NoBits(k: nat)
    ensures !BitOf(0, k)
  {
    if k > 0 { NoBits(k - 1); }
  }

  /** balloc of mkfs: the first `used` bits. */
  method MarkUsed(used: nat) returns (buf: Block)
    requires used < BPB
    ensures forall i: nat :: i < BPB ==> (BitIn(buf, i) <==> i < used)
  {
    hide BitIn, PutBit;
    buf := ZERO_BLOCK;
    forall i: nat | i < BPB ensures !BitIn(buf, i) {
      ZeroBits(i);
    }
    var i := 0;
    while i < used
      invariant 0 <= i <= used && forall k: nat :: k < BPB ==> (BitIn(buf, k) <==> k < i)
    {
      buf := PutBit(buf, i, true);
      i := i + 1;
    }
  }

  // ----- an image in the making -----

  /** `shown` is the disk with the bits that are still to be written: those of the blocks below free. The blocks from
      there on are zero. */
  ghost predicate Shows(sb: Superblock, disk: seq<Block>, shown: seq<Block>, free: nat) {
    && GoodDisk(sb, disk) && GoodDisk(sb, shown) && DataStart(sb) <= free <= LogStart(sb)
    && (forall s :: 0 <= s < sb.size && !(BitStart(sb) <= s < DataStart(sb)) ==> shown[s] == disk[s])
    && (forall c: nat :: c < sb.size ==> (Bit(sb, shown, c) <==> c < free))
    && (forall s :: free <= s < sb.size || BitStart(sb) <= s < DataStart(sb) ==> disk[s] == ZERO_BLOCK)
  }

  lemma {:induction false} ShowsAlloc(sb: Superblock, disk: seq<Block>, shown: seq<Block>, free: nat)
    requires Shows(sb, disk, shown, free) && free < LogStart(sb)
    ensures Shows(sb, disk, AllocDisk(sb, shown, free), free + 1)
  {
    hide BitIn, PutBit, MarkDisk;
    var d := AllocDisk(sb, shown, free);
    forall s | 0 <= s < sb.size && !(BitStart(sb) <= s < DataStart(sb)) ensures d[s] == disk[s] {
      if s != free { AllocOthers(sb, shown, free, s); }
    }
    forall c: nat | c < sb.size ensures Bit(sb, d, c) <==> c < free + 1 {
      OneBit(sb, shown, free, true, c);
      assert BitBlock(sb, c) != free;
    }
  }

  lemma {:induction false} ShowsWrite(sb: Superblock, disk: seq<Block>, shown: seq<Block>, free: nat, s: nat, v: Block)
    requires Shows(sb, disk, shown, free) && s < free && !(BitStart(sb) <= s < DataStart(sb))
    ensures Shows(sb, disk[s := v], shown[s := v], free)
  {
    hide BitIn;
    var d := shown[s := v];
    forall c: nat | c < sb.size ensures Bit(sb, d, c) <==> c < free {
      assert Bit(sb, shown, c) <==> c < free;
    }
  }

  /** The next block is a data block nobody owns. */
  lemma {:induction false} NextIsFree(sb: Superblock, disk: seq<Block>, shown: seq<Block>, free: nat, xs: seq<Dinode>,
                                      es: seq<Extent>, owner: map<nat, Ref>)
    requires Shows(sb, disk, shown, free) && FsInv(sb, shown, xs, es, owner) && free < LogStart(sb)
    ensures DataBlock(sb, free) && free !in owner && !Bit(sb, shown, free) && disk[free] == shown[free] == ZERO_BLOCK
  {
    hide Bit, BitIn;
    ClearIsFree(sb, shown, xs, es, owner, free);
  }

  /** Owned blocks are below the next one, and so is the sector of an inode. */
  lemma {:induction false} OwnedBelow(sb: Superblock, disk: seq<Block>, shown: seq<Block>, free: nat, xs: seq<Dinode>,
                                      es: seq<Extent>, owner: map<nat, Ref>, b: nat)
    requires Shows(sb, disk, shown, free) && FsInv(sb, shown, xs, es, owner) && b in owner
    ensures DataStart(sb) <= b < free && shown[b] == disk[b]
  {
    hide Bit, BitIn;
    OwnedBit(sb, shown, xs, es, owner, b);
  }

  /** The next block, marked and given to file i. */
  lemma {:induction false} NextTaken(sb: Superblock, disk: seq<Block>, shown: seq<Block>, free: nat, xs: seq<Dinode>,
                                     es: seq<Extent>, owner: map<nat, Ref>, i: nat, x: Dinode, e: Extent, r: Ref)
    requires Shows(sb, disk, shown, free) && FsInv(sb, shown, xs, es, owner) && free < LogStart(sb) && i < sb.ninodes
    requires |xs| == |es| == sb.ninodes
    ensures OnlyInode(sb, i, shown, xs, es, owner,
                      AllocDisk(sb, shown, free), xs[i := x], es[i := e], owner[free := r])
    ensures Shows(sb, disk, AllocDisk(sb, shown, free), free + 1) && |owner[free := r]| == |owner| + 1
    ensures AllocDisk(sb, shown, free)[free] == ZERO_BLOCK && DataBlock(sb, free) && free !in owner
  {
    hide FsInv, AllocDisk, Shows, MapBlocks;
    NextFacts(sb, disk, shown, free, xs, es, owner);
    AllocOnlyInode(sb, shown, xs, es, owner, i, free, x, e, r);
    assert owner[free := r].Keys == owner.Keys + {free};
  }

  lemma {:induction false} NextFacts(sb: Superblock, disk: seq<Block>, shown: seq<Block>, free: nat, xs: seq<Dinode>,
                                     es: seq<Extent>, owner: map<nat, Ref>)
    requires Shows(sb, disk, shown, free) && FsInv(sb, shown, xs, es, owner) && free < LogStart(sb)
    ensures DataBlock(sb, free) && free !in owner && free < sb.size && GoodDisk(sb, shown)
    ensures Shows(sb, disk, AllocDisk(sb, shown, free), free + 1)
  {
    hide FsInv, AllocDisk, Bit;
    NextIsFree(sb, disk, shown, free, xs, es, owner);
    ShowsAlloc(sb, disk, shown, free);
  }

  class Image {
    const sb: Superblock
    var disk: seq<Block>
    var freeblock: nat
    var freeinode: nat
    ghost var shown: seq<Block>
    ghost var inodes: seq<Dinode>
    ghost var ext: seq<Extent>
    ghost var owner: map<nat, Ref>

    /** With the bits that are to come, the image is consistent, and its blocks are given out from the first on. */
    ghost predicate Sound()
      reads this`disk, this`freeblock, this`shown, this`inodes, this`ext, this`owner
    {
      && Shows(sb, disk, shown, freeblock) && FsInv(sb, shown, inodes, ext, owner)
      && freeblock == DataStart(sb) + |owner| && |inodes| == |ext| == sb.ninodes
    }

    /** din is the inode of a file without holes. */
    ghost predicate Growing(inum: nat, din: Dinode)
      reads this`disk, this`freeblock, this`shown, this`inodes, this`ext, this`owner
    {
      && Sound() && inum < sb.ninodes && inodes[inum] == din
      && ext[inum].lo == 0 && (ext[inum].table <==> ext[inum].nb > NDIRECT)
    }

    /** x is block fbn of the file, a new and zeroed one if it was the next. */
    twostate predicate Placed(inum: nat, din: Dinode, fbn: nat, x: nat, out: Dinode)
      reads this
    {
      && Growing(inum, out) && old(Growing(inum, din)) && out == din.(addrs := out.addrs)
      && OnlyInode(sb, inum, old(shown), old(inodes), old(ext), old(owner), shown, inodes, ext, owner)
      && Owns(owner, x, Data(inum, fbn)) && x < |shown|
      && var nb := old(ext)[inum].nb;
         && |owner| == |old(owner)| + (if fbn < nb then 0 else Needs(fbn))
         && (fbn < nb ==> out == din && shown == old(shown) && ext == old(ext))
         && (fbn == nb ==> ext[inum].nb == fbn + 1 && shown[x] == ZERO_BLOCK)
    }

    /** iappend's direct block. None: no data block is left, where mkfs would go on into the log. */
    method DirectBlock(inum: nat, din: Dinode, fbn: nat) returns (r: Option<uint32>, out: Dinode)
      requires Growing(inum, din) && fbn <= ext[inum].nb && fbn < NDIRECT
      modifies `freeblock, `shown, `inodes, `ext, `owner
      ensures r.None? ==> |old(owner)| + Needs(fbn) > DataCount(sb) && fbn == old(ext)[inum].nb
      ensures r.Some? ==> Placed(inum, din, fbn, r.value, out)
    {
      hide FsInv, Shows, OnlyInode, AllocDisk;
      Dimensions(sb, shown, inodes, ext, owner);
      Unmapped(sb, shown, inodes, ext, owner, inum);
      Geometry(sb, disk, shown, freeblock);
      if fbn < ext[inum].nb { Mapped(sb, shown, inodes, ext, owner, inum, fbn); }
      out := din;
      if din.addrs[fbn] == 0 {
        if freeblock >= LogStart(sb) { return None, out; }
        out := din.(addrs := din.addrs[fbn := freeblock]);
        NextTaken(sb, disk, shown, freeblock, inodes, ext, owner, inum, out, ext[inum].(nb := fbn + 1),
                  Data(inum, fbn));
        AttachDirect(sb, shown, inodes, ext, owner, inum, freeblock);
        shown, inodes, ext, owner := AllocDisk(sb, shown, freeblock), inodes[inum := out],
          ext[inum := ext[inum].(nb := fbn + 1)], owner[freeblock := Data(inum, fbn)];
        freeblock := freeblock + 1;
      } else {
        NothingChanged(sb, inum, shown, inodes, ext, owner);
      }
      r := Some(out.addrs[fbn]);
    }

    /** iappend's table of indirect blocks. */
    method TableBlock(inum: nat, din: Dinode) returns (ok: bool, out: Dinode)
      requires Growing(inum, din) && NDIRECT <= ext[inum].nb
      modifies `freeblock, `shown, `inodes, `ext, `owner
      ensures !ok ==> |old(owner)| + 1 > DataCount(sb) && old(ext)[inum].nb == NDIRECT
      ensures ok ==>
        && Sound() && inodes[inum] == out && out == din.(addrs := out.addrs)
        && OnlyInode(sb, inum, old(shown), old(inodes), old(ext), old(owner), shown, inodes, ext, owner)
        && ext[inum] == old(ext)[inum].(table := true) && |owner| == |old(owner)| + Needs(old(ext)[inum].nb) - 1
        && (old(ext)[inum].table ==> out == din && shown == old(shown) && ext == old(ext))
    {
      hide FsInv, Shows, OnlyInode, AllocDisk;
      Dimensions(sb, shown, inodes, ext, owner);
      HasTable(sb, shown, inodes, ext, owner, inum);
      Geometry(sb, disk, shown, freeblock);
      out := din;
      if din.addrs[NDIRECT] == 0 {
        if freeblock >= LogStart(sb) { return false, out; }
        out := din.(addrs := din.addrs[NDIRECT := freeblock]);
        NextTaken(sb, disk, shown, freeblock, inodes, ext, owner, inum, out, ext[inum].(table := true), Table(inum));
        AttachTable(sb, shown, inodes, ext, owner, inum, freeblock);
        shown, inodes, ext, owner := AllocDisk(sb, shown, freeblock), inodes[inum := out],
          ext[inum := ext[inum].(table := true)], owner[freeblock := Table(inum)];
        freeblock := freeblock + 1;
      } else {
        NothingChanged(sb, inum, shown, inodes, ext, owner);
      }
      ok := true;
    }

    /** iappend's entry of the table. */
    method EntryBlock(inum: nat, din: Dinode, fbn: nat) returns (r: Option<uint32>)
      requires Sound() && inum < sb.ninodes && inodes[inum] == din && ext[inum].lo == 0 && ext[inum].table
      requires NDIRECT <= fbn <= ext[inum].nb && fbn < MAXFILE
      modifies `disk, `freeblock, `shown, `ext, `owner
      ensures r.None? ==> |old(owner)| + 1 > DataCount(sb) && fbn == old(ext)[inum].nb
      ensures r.Some? ==>
        && Sound() && OnlyInode(sb, inum, old(shown), inodes, old(ext), old(owner), shown, inodes, ext, owner)
        && Owns(owner, r.value, Data(inum, fbn)) && r.value < |shown|
        && var nb := old(ext)[inum].nb;
           && |owner| == |old(owner)| + (if fbn < nb then 0 else 1)
           && (fbn < nb ==> shown == old(shown) && ext == old(ext))
           && (fbn == nb ==> ext[inum] == old(ext)[inum].(nb := fbn + 1) && shown[r.value] == ZERO_BLOCK)
    {
      hide FsInv, Shows, OnlyInode, AllocDisk, Bit, Word, PutWord;
      Dimensions(sb, shown, inodes, ext, owner);
      Unmapped(sb, shown, inodes, ext, owner, inum);
      Geometry(sb, disk, shown, freeblock);
      TableIsOwned(sb, shown, inodes, ext, owner, inum);
      OwnedBelow(sb, disk, shown, freeblock, inodes, ext, owner, din.addrs[NDIRECT]);
      if fbn < ext[inum].nb { Mapped(sb, shown, inodes, ext, owner, inum, fbn); }
      var t := din.addrs[NDIRECT];
      var indirect := disk[t];
      if Word(indirect, fbn - NDIRECT) == 0 {
        if freeblock >= LogStart(sb) { return None; }
        var b := freeblock;
        indirect := PutWord(indirect, fbn - NDIRECT, b);
        NextTaken(sb, disk, shown, b, inodes, ext, owner, inum, din, ext[inum].(nb := fbn + 1), Data(inum, fbn));
        NextIsFree(sb, disk, shown, b, inodes, ext, owner);
        IndirectGrown(sb, shown, inodes, ext, owner, inum, b, AllocDisk(sb, shown, b)[t := indirect]);
        ShowsWrite(sb, disk, AllocDisk(sb, shown, b), b + 1, t, indirect);
        shown, ext, owner := AllocDisk(sb, shown, b)[t := indirect], ext[inum := ext[inum].(nb := fbn + 1)],
          owner[b := Data(inum, fbn)];
        freeblock := b + 1;
        disk := disk[t := indirect];
        r := Some(b);
      } else {
        NothingChanged(sb, inum, shown, inodes, ext, owner);
        r := Some(Word(indirect, fbn - NDIRECT));
      }
    }

    /** iappend's block fbn of a file. */
    method PlaceBlock(inum: nat, din: Dinode, fbn: nat) returns (r: Option<uint32>, out: Dinode)
      requires Growing(inum, din) && fbn <= ext[inum].nb && fbn < MAXFILE
      modifies `disk, `freeblock, `shown, `inodes, `ext, `owner
      ensures r.None? ==> |old(owner)| + Needs(fbn) > DataCount(sb) && fbn == old(ext)[inum].nb
      ensures r.Some? ==> Placed(inum, din, fbn, r.value, out)
    {
      hide FsInv, Shows, OnlyInode;
      if fbn < NDIRECT {
        r, out := DirectBlock(inum, din, fbn);
        return;
      }
      var ok;
      ok, out := TableBlock(inum, din);
      if !ok { return None, out; }
      ghost var d1, xs1, es1, o1 := shown, inodes, ext, owner;
      r := EntryBlock(inum, out, fbn);
      if r.Some? {
        OnlyInodeTrans(sb, inum, old(shown), old(inodes), old(ext), old(owner), d1, xs1, es1, o1, shown, inodes, ext,
                       owner);
      }
    }

    ghost predicate NoneShrinking()
      reads this`ext
    {
      forall j :: 0 <= j < |ext| ==> ext[j].lo == 0
    }

    /** One turn of iappend: the bytes go into their block, a zeroed one if it is new. */
    method AppendChunk(inum: nat, din: Dinode, p: nat, chunk: seq<byte>) returns (ok: bool, out: Dinode)
      requires Growing(inum, din) && NoneShrinking()
      requires p <= ext[inum].nb * BSIZE && p % BSIZE + |chunk| <= BSIZE && p / BSIZE < MAXFILE
      modifies `disk, `freeblock, `shown, `inodes, `ext, `owner
      ensures !ok ==> |old(owner)| + Needs(p / BSIZE) > DataCount(sb) && p / BSIZE == old(ext)[inum].nb
      ensures ok ==>
        && Growing(inum, out) && NoneShrinking() && out == din.(addrs := out.addrs)
        && SameFiles(old(shown), old(inodes), old(ext), shown, inodes, ext, inum)
        && (forall s :: 0 <= s < BitStart(sb) && s < |shown| ==> shown[s] == old(shown)[s]) && |shown| == |old(shown)|
        && var bn, nb := p / BSIZE, old(ext)[inum].nb;
           && ext[inum].nb == (if bn < nb then nb else bn + 1)
           && |owner| == |old(owner)| + (if bn < nb then 0 else Needs(bn))
           && (forall n: nat :: n < nb && n != bn ==> FileBlock(shown, out, n) == FileBlock(old(shown), din, n))
           && FileBlock(shown, out, bn) ==
                Overlay(if bn < nb then FileBlock(old(shown), din, bn) else ZERO_BLOCK, p % BSIZE, chunk)
    {
      hide FsInv, Shows, FileBlock, Overlay;
      Dimensions(sb, shown, inodes, ext, owner);
      var x;
      x, out := PlaceBlock(inum, din, p / BSIZE);
      if x.None? { return false, out; }
      Dimensions(sb, shown, inodes, ext, owner);
      GrowthKeepsFiles(sb, old(shown), old(inodes), old(ext), old(owner), shown, inodes, ext, owner, inum);
      OwnedBelow(sb, disk, shown, freeblock, inodes, ext, owner, x.value);
      Geometry(sb, disk, shown, freeblock);
      var buf := Overlay(disk[x.value], p % BSIZE, chunk);
      WriteKeepsFiles(sb, shown, inodes, ext, owner, inum, p / BSIZE, x.value, buf);
      BlockIs(sb, shown, inodes, ext, owner, inum, p / BSIZE, x.value);
      ShowsWrite(sb, disk, shown, freeblock, x.value, buf);
      SameFilesTrans(old(shown), old(inodes), old(ext), shown, inodes, ext, shown[x.value := buf], inodes, ext, inum);
      shown := shown[x.value := buf];
      disk := disk[x.value := buf];
      ok := true;
    }

    /** The image between calls: sound, every inode written, every extent as its size says, nothing behind the end of a
        file, and the inodes from the next one on free. */
    ghost predicate Valid()
      reads this
    {
      && Sound() && Formattable(sb) && disk[1] == SuperSector(sb) && 1 <= freeinode
      && Closed(sb, shown, inodes, ext)
      && (forall j :: 0 <= j < sb.ninodes && (j == 0 || freeinode <= j) ==> inodes[j] == FREE_INODE)
    }

    /** The zeroed image with its superblock. */
    constructor (sb: Superblock)
      requires Formattable(sb)
      ensures Valid() && this.sb == sb && freeinode == 1 && owner == map[]
      ensures forall j :: 0 <= j < sb.ninodes ==> inodes[j] == FREE_INODE
    {
      hide Shows, FsInv, BitIn, InodeOnDisk, SuperSector;
      var d: seq<Block> := [];
      while |d| < sb.size
        invariant |d| <= sb.size && forall s :: 0 <= s < |d| ==> d[s] == ZERO_BLOCK
      {
        d := d + [ZERO_BLOCK];
      }
      d := d[1 := SuperSector(sb)];
      this.sb, disk, freeblock, freeinode := sb, d, DataStart(sb), 1;
      inodes, ext, owner := NoInodes(sb.ninodes), NoExtents(sb.ninodes), map[];
      shown := MarkFirst(sb, d, DataStart(sb));
      BlankImage(sb, d, MarkFirst(sb, d, DataStart(sb)));
    }

    /** Where iappend's loop stands at position p, seen from the state (d, xs, es, o) at its start. */
    ghost predicate Appending(inum: nat, din: Dinode, d: seq<Block>, xs: seq<Dinode>, es: seq<Extent>, o: map<nat, Ref>,
                              src: seq<byte>, p: nat)
      requires inum < |xs| == |es| && xs[inum].size <= p <= xs[inum].size + |src|
      reads this`disk, this`freeblock, this`shown, this`inodes, this`ext, this`owner
    {
      && Growing(inum, din) && NoneShrinking() && din == xs[inum].(addrs := din.addrs)
      && |shown| == |d| && (forall s :: 0 <= s < BitStart(sb) && s < |shown| ==> shown[s] == d[s])
      && SameFiles(d, xs, es, shown, inodes, ext, inum)
      && Written(shown, din, File(d, xs[inum]), xs[inum].size, src, p)
      && ext[inum].nb == NBlocks(p) && TailZero(shown, din, p)
      && |owner| == |o| + Allocs(es[inum].nb, ext[inum].nb)
    }

    /** One turn of iappend's loop. */
    method AppendTurn(inum: nat, din: Dinode, xp: seq<byte>, n: nat, p: nat, m: nat, ghost d: seq<Block>,
                      ghost xs: seq<Dinode>, ghost es: seq<Extent>, ghost o: map<nat, Ref>)
      returns (ok: bool, out: Dinode)
      requires inum < |xs| == |es| && p == xs[inum].size + n && n + m <= |xp|
      requires es[inum].nb == NBlocks(xs[inum].size)
      requires 0 < m && p % BSIZE + m <= BSIZE && p / BSIZE < MAXFILE
      requires Appending(inum, din, d, xs, es, o, xp, p)
      modifies `disk, `freeblock, `shown, `inodes, `ext, `owner
      ensures ok ==> Appending(inum, out, d, xs, es, o, xp, p + m)
      ensures !ok ==> |o| + Grows(xs[inum].size, xs[inum].size, |xp|) > DataCount(sb)
    {
      hide FsInv, Shows, FileBlock, File, Written, SameFiles, NBlocks, Allocs, Grows, TailZero, Needs, Overlay;
      ghost var size := xs[inum].size;
      ghost var d1, xs1, es1 := shown, inodes, ext;
      AppendArithmetic(size, p, m, |xp|, ext[inum].nb);
      ok, out := AppendChunk(inum, din, p, xp[n..n + m]);
      if !ok { return; }
      WrittenStep(d1, din, shown, out, es1[inum].nb, File(d, xs[inum]), size, xp, p, m);
      SameFilesTrans(d, xs, es, d1, xs1, es1, shown, inodes, ext, inum);
      TailMore(d1, din, shown, out, p, xp[n..n + m]);
    }

    /** iappend's loop. */
    method AppendBlocks(inum: nat, d0: Dinode, xp: seq<byte>) returns (ok: bool, din: Dinode)
      requires Valid() && inum < sb.ninodes && inodes[inum] == d0
      modifies `disk, `freeblock, `shown, `inodes, `ext, `owner
      ensures ok ==>
        && Appending(inum, din, old(shown), old(inodes), old(ext), old(owner), xp, d0.size + |xp|)
        && (xp != [] ==> d0.size + |xp| <= MAXFILE * BSIZE)
      ensures !ok ==>
        d0.size + |xp| > MAXFILE * BSIZE || |old(owner)| + Grows(d0.size, d0.size, |xp|) > DataCount(sb)
    {
      hide FsInv, Shows, FileBlock, File, Written, SameFiles, NBlocks, Allocs, Grows, Closed, SuperSector, TailZero;
      ClosedMeans(sb, shown, inodes, ext);
      AppendStart(sb, shown, inodes, ext, owner, inum, d0, xp);
      din := d0;
      var n, off := 0, d0.size;
      while n < |xp|
        invariant 0 <= n <= |xp| && off == d0.size + n && (n > 0 ==> off <= MAXFILE * BSIZE)
        invariant Appending(inum, din, old(shown), old(inodes), old(ext), old(owner), xp, off)
      {
        var fbn := off / BSIZE;
        if fbn >= MAXFILE { return false, din; }
        var n1 := if |xp| - n < BSIZE - off % BSIZE then |xp| - n else BSIZE - off % BSIZE;
        ok, din := AppendTurn(inum, din, xp, n, off, n1, old(shown), old(inodes), old(ext), old(owner));
        if !ok { return false, din; }
        n := n + n1;
        off := off + n1;
      }
      ok := true;
    }

    /** winode of an inode that the image already has in memory. */
    method Winode(inum: nat, din: Dinode)
      requires Growing(inum, din) && NoneShrinking() && |din.addrs| == NDIRECT + 1
      requires forall j: nat :: j < sb.ninodes && j != inum ==> InodeOnDisk(sb, shown, j) == inodes[j]
      modifies `disk, `shown
      ensures Growing(inum, din) && |disk| == |old(disk)|
      ensures forall j: nat :: j < sb.ninodes ==> InodeOnDisk(sb, shown, j) == inodes[j]
      ensures SameFiles(old(shown), inodes, ext, shown, inodes, ext, inum)
      ensures SameBlocks(old(shown), din, shown, din, ext[inum].nb)
      ensures |disk| > 1 ==> disk[1] == old(disk)[1]
    {
      hide FsInv, Shows, FileBlock, PutInode, ReadInode, SameFiles;
      Geometry(sb, disk, shown, freeblock);
      TableEntryWritten(sb, shown, inodes, ext, owner, inum, din);
      var bn := InodeBlock(inum);
      SameSector(sb, disk, shown, freeblock, bn);
      var buf := PutInode(disk[bn], inum % IPB, din);
      ShowsWrite(sb, disk, shown, freeblock, bn, buf);
      shown := shown[bn := buf];
      disk := disk[bn := buf];
    }

    /** ialloc: the next inode, of the given type and with one link; -1 if there is none, where mkfs would go on past
        the table. */
    method Ialloc(kind: uint16) returns (inum: int)
      requires Valid() && kind != 0
      modifies `disk, `shown, `inodes, `freeinode
      ensures if old(freeinode) < sb.ninodes then inum == old(freeinode) else inum == -1
      ensures inum != -1 ==>
        && Valid() && freeinode == inum + 1 && inodes == old(inodes)[inum := Dinode(kind, 0, 0, 1, 0, NO_ADDRS)]
        && forall j :: 0 <= j < sb.ninodes && j != inum ==> File(shown, inodes[j]) == File(old(shown), old(inodes)[j])
    {
      hide FsInv, Shows, FileBlock, File, InodeOnDisk, TailZero, SuperSector, SameFiles, SameBlocks, Closed, NBlocks;
      if freeinode >= sb.ninodes { return -1; }
      ClosedMeans(sb, shown, inodes, ext);
      ExtentOfNothing();
      Geometry(sb, disk, shown, freeblock);
      SameSector(sb, disk, shown, freeblock, 1);
      inum := freeinode;
      var din := Dinode(kind, 0, 0, 1, 0, NO_ADDRS);
      FieldsChanged(sb, shown, inodes, ext, owner, inum, din);
      ghost var d1, xs1 := shown, inodes;
      inodes := inodes[inum := din];
      freeinode := inum + 1;
      Winode(inum, din);
      Geometry(sb, disk, shown, freeblock);
      SameFilesTrans(d1, xs1, ext, d1, inodes, ext, shown, inodes, ext, inum);
      OthersSettled(d1, xs1, ext, shown, inodes, ext, inum);
      TailsKept(sb, d1, xs1, ext, shown, inodes, ext, inum);
      NoTail(shown, din);
      SameInodes(d1, xs1, ext, shown, inodes, ext, inum);
      NowClosed(sb, shown, inodes, ext, inum);
    }

    /** iappend: the bytes go to the end of the file, and nothing else changes. It fails exactly if the file gets too
        large or the blocks do not suffice. */
    method Iappend(inum: nat, xp: seq<byte>) returns (ok: bool)
      requires Valid() && 0 < inum < freeinode && inum < sb.ninodes
      modifies `disk, `freeblock, `shown, `inodes, `ext, `owner
      ensures ok <==>
        (xp == [] || old(inodes)[inum].size + |xp| <= MAXFILE * BSIZE)
        && |old(owner)| + Grows(old(inodes)[inum].size, old(inodes)[inum].size, |xp|) <= DataCount(sb)
      ensures ok ==> old(inodes)[inum].size + |xp| < 0x1_0000_0000
      ensures ok ==>
        && Valid() && |owner| == |old(owner)| + Grows(old(inodes)[inum].size, old(inodes)[inum].size, |xp|)
        && inodes[inum] == old(inodes)[inum].(size := old(inodes)[inum].size + |xp|, addrs := inodes[inum].addrs)
        && File(shown, inodes[inum]) == File(old(shown), old(inodes)[inum]) + xp
        && forall j :: 0 <= j < sb.ninodes && j != inum ==>
             inodes[j] == old(inodes)[j] && File(shown, inodes[j]) == File(old(shown), old(inodes)[j])
    {
      hide FsInv, Shows, File, SuperSector, Closed, ReadInode, Appending, Grows;
      ClosedMeans(sb, shown, inodes, ext);
      Geometry(sb, disk, shown, freeblock);
      Dimensions(sb, shown, inodes, ext, owner);
      Fits(sb, shown, inodes, ext, owner, inum);
      SameSector(sb, disk, shown, freeblock, InodeBlock(inum));
      SameSector(sb, disk, shown, freeblock, 1);
      var d0 := InodeOnDisk(sb, disk, inum);
      var din;
      ok, din := AppendBlocks(inum, d0, xp);
      if !ok { return; }
      SetLength(inum, din, xp, old(shown), old(inodes), old(ext), old(owner));
      SameSector(sb, disk, shown, freeblock, 1);
      OwnedCount(sb, shown, inodes, ext, owner);
    }

    /** mkfs's loop over the contents of one file. */
    method AppendFile(inum: nat, content: seq<byte>) returns (ok: bool)
      requires Valid() && 0 < inum < freeinode && inum < sb.ninodes && inodes[inum].size == 0
      modifies `disk, `freeblock, `shown, `inodes, `ext, `owner
      ensures ok <==> |content| <= MAXFILE * BSIZE && |old(owner)| + Takes(|content|) <= DataCount(sb)
      ensures ok ==>
        && Valid() && |owner| == |old(owner)| + Takes(|content|) && File(shown, inodes[inum]) == content
        && inodes[inum] == old(inodes)[inum].(size := |content|, addrs := inodes[inum].addrs)
        && forall j :: 0 <= j < sb.ninodes && j != inum ==>
             inodes[j] == old(inodes)[j] && File(shown, inodes[j]) == File(old(shown), old(inodes)[j])
    {
      hide FsInv, Shows, File, SuperSector, Closed, Grows, Takes;
      var pos := 0;
      EmptyIs(shown, inodes[inum]);
      TakesMore(0, 0, |content|);
      OwnersFitImage();
      while pos < |content|
        invariant 0 <= pos <= |content| && Valid() && |owner| == |old(owner)| + Takes(pos) <= DataCount(sb)
        invariant pos <= MAXFILE * BSIZE
        invariant inodes[inum] == old(inodes)[inum].(size := pos, addrs := inodes[inum].addrs)
        invariant File(shown, inodes[inum]) == content[..pos]
        invariant forall j :: 0 <= j < sb.ninodes && j != inum ==>
          inodes[j] == old(inodes)[j] && File(shown, inodes[j]) == File(old(shown), old(inodes)[j])
      {
        var cc := if |content| - pos < 512 then |content| - pos else 512;
        TakesMore(pos, cc, |content|);
        ok := Iappend(inum, content[pos..pos + cc]);
        if !ok { return; }
        assert content[..pos] + content[pos..pos + cc] == content[..pos + cc];
        OwnersFitImage();
        pos := pos + cc;
      }
      assert content[..pos] == content;
      ok := true;
    }

    lemma {:induction false} OwnersFitImage()
      requires Sound()
      ensures |owner| <= DataCount(sb)
    {
      hide FsInv, Shows;
      OwnedCount(sb, shown, inodes, ext, owner);
    }

    /** The image has the root directory with these names, and these files. */
    ghost predicate Filled(names: seq<seq<byte>>, files: seq<seq<byte>>)
      reads this
    {
      && Valid() && |names| == |files| && freeinode == |names| + 2 <= sb.ninodes
      && inodes[ROOT].kind == T_DIR && File(shown, inodes[ROOT]) == Entries(names)
      && HasFiles(shown, inodes, files)
      && |owner| == AllTake(files) + Takes(DIRENT * (|names| + 2)) <= DataCount(sb)
    }

    /** The root directory with its entries for itself. */
    method AddRoot() returns (ok: bool)
      requires Valid() && freeinode == 1 && owner == map[]
      modifies `disk, `freeblock, `shown, `inodes, `ext, `owner, `freeinode
      ensures ok <==> sb.ninodes >= 2 && DataCount(sb) >= 1
      ensures ok ==> Filled([], [])
    {
      hide FsInv, Shows, File, SuperSector, Closed, Grows, Takes, Dirent, Padded;
      var rootino := Ialloc(T_DIR);
      if rootino == -1 { return false; }
      EmptyIs(shown, inodes[ROOT]);
      TakesMore(0, DIRENT, 2 * DIRENT);
      TakesMore(DIRENT, DIRENT, 2 * DIRENT);
      TakesOne();
      var dot := Strncpy(DOT, DIRSIZ);
      PaddedIs(DOT, dot);
      ok := Iappend(ROOT, Dirent(ROOT, dot));
      if !ok { return; }
      var dots := Strncpy(DOTS, DIRSIZ);
      PaddedIs(DOTS, dots);
      ok := Iappend(ROOT, Dirent(ROOT, dots));
      if !ok { return; }
      OwnersFitImage();
    }

    /** One file: its inode, its entry in the root, its contents. */
    method AddFile(name: seq<byte>, content: seq<byte>, ghost names: seq<seq<byte>>, ghost files: seq<seq<byte>>)
      returns (ok: bool)
      requires Filled(names, files)
      modifies `disk, `freeblock, `shown, `inodes, `ext, `owner, `freeinode
      ensures ok <==>
        && SLASH !in Stripped(name) && |names| + 2 < sb.ninodes
        && DIRENT * (|names| + 3) <= MAXFILE * BSIZE && |content| <= MAXFILE * BSIZE
        && AllTake(files) + Takes(|content|) + Takes(DIRENT * (|names| + 3)) <= DataCount(sb)
      ensures ok ==> Filled(names + [name], files + [content])
    {
      hide FsInv, Shows, File, SuperSector, Closed, Grows, Takes, Dirent, Padded, Entries, AllTake, Chars;
      if SLASH in Stripped(name) { return false; }
      var inum := Ialloc(T_FILE);
      if inum == -1 { return false; }
      TakesMore(DIRENT * (|names| + 2), DIRENT, DIRENT * (|names| + 3));
      TakesMore(0, 0, |content|);
      var stored := Strncpy(Stripped(name), DIRSIZ);
      PaddedIs(Stripped(name), stored);
      ok := Iappend(ROOT, Dirent(inum % 65536, stored));
      if !ok { return; }
      ok := AppendFile(inum, content);
      if !ok { return; }
      OneMoreFile(names, files, name, content);
    }

    /** mkfs's end: the size of the root rounded up past the end of its last block, and the bits of all blocks in use.
        It stops if they do not fit one map block. */
    method Finish(ghost names: seq<seq<byte>>, ghost files: seq<seq<byte>>) returns (ok: bool)
      requires Filled(names, files)
      modifies `disk, `shown, `inodes
      ensures ok <==> DataStart(sb) + AllTake(files) + Takes(DIRENT * (|names| + 2)) < BPB
      ensures ok ==> Finished(sb, disk, inodes, ext, owner, names, files)
    {
      hide FsInv, Shows, File, SuperSector, Closed, Takes, Entries, AllTake, InodeOnDisk, BitIn, SameFiles, SameBlocks,
           TailZero, NBlocks, Bit, Contents, HasFiles;
      if freeblock >= BPB { return false; }
      ClosedMeans(sb, shown, inodes, ext);
      Geometry(sb, disk, shown, freeblock);
      Dimensions(sb, shown, inodes, ext, owner);
      Fits(sb, shown, inodes, ext, owner, ROOT);
      SameSector(sb, disk, shown, freeblock, InodeBlock(ROOT));
      SameInode(sb, disk, shown, ROOT);
      var din := InodeOnDisk(sb, disk, ROOT);
      ghost var d1, xs1 := shown, inodes;
      din := din.(size := RootSize(din.size));
      FieldsChanged(sb, shown, inodes, ext, owner, ROOT, din);
      inodes := inodes[ROOT := din];
      SameSector(sb, disk, shown, freeblock, 1);
      Winode(ROOT, din);
      SameSector(sb, disk, shown, freeblock, 1);
      Geometry(sb, disk, shown, freeblock);
      var buf := MarkUsed(freeblock);
      BitsWritten(sb, disk, shown, freeblock, inodes, ext, owner, buf);
      disk := disk[BitStart(sb) := buf];
      GrowthKeepsFiles(sb, shown, inodes, ext, owner, disk, inodes, ext, owner, ROOT);
      SameFilesTrans(d1, xs1, ext, d1, inodes, ext, shown, inodes, ext, ROOT);
      SameFilesTrans(d1, xs1, ext, shown, inodes, ext, disk, inodes, ext, ROOT);
      OthersSettled(d1, xs1, ext, disk, inodes, ext, ROOT);
      FilesStay(d1, xs1, disk, inodes, files);
      RootKept(d1, xs1[ROOT], d1, shown, din, disk, DIRENT * (|names| + 2));
      ok := true;
    }

    /** iappend's end: the new size, and the inode written. */
    method SetLength(inum: nat, d0: Dinode, xp: seq<byte>, ghost d: seq<Block>, ghost xs: seq<Dinode>,
                     ghost es: seq<Extent>, ghost o: map<nat, Ref>)
      requires inum < |xs| == |es| == sb.ninodes && GoodDisk(sb, d) && Closed(sb, d, xs, es)
      requires xs[inum].size + |xp| < 0x1_0000_0000
      requires Appending(inum, d0, d, xs, es, o, xp, xs[inum].size + |xp|)
      modifies `disk, `shown, `inodes
      ensures Sound() && Closed(sb, shown, inodes, ext) && |shown| > 1 && shown[1] == d[1]
      ensures |owner| == |o| + Grows(xs[inum].size, xs[inum].size, |xp|)
      ensures inodes[inum] == xs[inum].(size := xs[inum].size + |xp|, addrs := inodes[inum].addrs)
      ensures File(shown, inodes[inum]) == File(d, xs[inum]) + xp
      ensures forall j :: 0 <= j < sb.ninodes && j != inum ==>
        inodes[j] == xs[j] && File(shown, inodes[j]) == File(d, xs[j])
    {
      hide FsInv, Shows, FileBlock, File, Written, SameFiles, SameBlocks, NBlocks, ReadInode, TailZero, Allocs, Closed,
           InodeOnDisk;
      ClosedMeans(sb, d, xs, es);
      Geometry(sb, disk, shown, freeblock);
      Dimensions(sb, shown, inodes, ext, owner);
      SameTableSectors(sb, d, shown);
      SameInodes(d, xs, es, shown, inodes, ext, inum);
      SameSector(sb, disk, shown, freeblock, 1);
      ghost var d1, xs1 := shown, inodes;
      var din := d0.(size := d0.size + |xp|);
      FieldsChanged(sb, shown, inodes, ext, owner, inum, din);
      inodes := inodes[inum := din];
      Winode(inum, din);
      SameSector(sb, disk, shown, freeblock, 1);
      Appended(sb, d, xs, es, d1, xs1, d0, shown, inodes, ext, din, inum, xp);
      TailsKept(sb, d, xs, es, shown, inodes, ext, inum);
      GrownBlocks(xs[inum].size, |xp|);
      NowClosed(sb, shown, inodes, ext, inum);
    }
  }

  // ----- the files -----

  /** strncpy's result: the name, padded with NULs. */
  function Padded(name: seq<byte>): (r: seq<byte>)
    ensures |r| == DIRSIZ
  {
    Chars(name, DIRSIZ) + Zeroes(DIRSIZ - |Chars(name, DIRSIZ)|)
  }

  lemma {:induction false} PaddedIs(name: seq<byte>, s: seq<byte>)
    requires |s| == DIRSIZ && Chars(s, DIRSIZ) == Chars(name, DIRSIZ)
    requires forall k :: |Chars(name, DIRSIZ)| <= k < DIRSIZ ==> s[k] == 0
    ensures s == Padded(name)
  {
    hide Zeroes;
    var r := Chars(s, DIRSIZ);
    forall k | 0 <= k < DIRSIZ ensures s[k] == Padded(name)[k] {
      assert k < |r| ==> r[k] == At(s, k);
    }
  }

  const DOT: seq<byte> := [46]
  const DOTS: seq<byte> := [46, 46]

  /** mkfs drops the directory its files come from. */
  function Stripped(name: seq<byte>): seq<byte> {
    if [102, 115, SLASH] <= name then name[3..] else name
  }

  /** The entries of the root directory: itself twice, then the files in order, from inode 2 on. */
  function Entries(names: seq<seq<byte>>): (c: seq<byte>)
    ensures |c| == DIRENT * (|names| + 2)
  {
    if names == [] then Dirent(ROOT, Padded(DOT)) + Dirent(ROOT, Padded(DOTS))
    else
      var n := |names| - 1;
      Entries(names[..n]) + Dirent((n + 2) % 65536, Padded(Stripped(names[n])))
  }

  /** How many blocks a file of n bytes takes, its table included. */
  function Takes(n: nat): int {
    Allocs(0, NBlocks(n))
  }

  function AllTake(files: seq<seq<byte>>): (k: int)
    ensures k >= 0
  {
    if files == [] then 0 else AllTake(files[..|files| - 1]) + Takes(|files[|files| - 1]|)
  }

  /** Each file under its inode, from the second on. */
  ghost predicate HasFiles(disk: seq<Block>, inodes: seq<Dinode>, files: seq<seq<byte>>)
    requires |files| + 2 <= |inodes|
  {
    forall k :: 2 <= k < |files| + 2 ==> inodes[k].kind == T_FILE && File(disk, inodes[k]) == files[k - 2]
  }

  lemma {:induction false} FilesStay(d: seq<Block>, xs: seq<Dinode>, e: seq<Block>, ys: seq<Dinode>,
                                     files: seq<seq<byte>>)
    requires |files| + 2 <= |xs| == |ys| && HasFiles(d, xs, files)
    requires forall j :: 0 <= j < |ys| && j != ROOT ==> ys[j] == xs[j] && File(e, ys[j]) == File(d, xs[j])
    ensures HasFiles(e, ys, files)
  {
    hide File;
  }

  /** What mkfs leaves: a consistent disk whose inode table, superblock and bits are written, the given files under the
      root directory, and zeroes from the first unused block on. */
  ghost predicate Finished(sb: Superblock, disk: seq<Block>, inodes: seq<Dinode>, ext: seq<Extent>,
                           owner: map<nat, Ref>, names: seq<seq<byte>>, files: seq<seq<byte>>)
  {
    var off := DIRENT * (|names| + 2);
    && Formattable(sb) && FsInv(sb, disk, inodes, ext, owner) && |inodes| == |ext| == sb.ninodes
    && |names| == |files| && |names| + 2 <= sb.ninodes && disk[1] == SuperSector(sb)
    && (forall j: nat :: j < sb.ninodes ==> InodeOnDisk(sb, disk, j) == inodes[j])
    && (forall j :: 0 <= j < sb.ninodes && j != ROOT ==> ext[j] == ExtentOf(inodes[j].size))
    && inodes[ROOT].kind == T_DIR && inodes[ROOT].size == RootSize(off) && ext[ROOT] == ExtentOf(off)
    && Contents(disk, inodes[ROOT], off) == Entries(names) && TailZero(disk, inodes[ROOT], off)
    && HasFiles(disk, inodes, files)
    && (forall j :: 0 <= j < sb.ninodes && (j == 0 || |files| + 2 <= j) ==> inodes[j] == FREE_INODE)
    && |owner| == AllTake(files) + Takes(off)
    && (forall c: nat :: c < sb.size ==> (Bit(sb, disk, c) <==> c < DataStart(sb) + |owner|))
    && (forall s :: DataStart(sb) + |owner| <= s < sb.size ==> disk[s] == ZERO_BLOCK)
  }

  /** Only the bitmap changes, and its bits are right. */
  lemma {:induction false} BitmapReplaced(sb: Superblock, disk: seq<Block>, d: seq<Block>, inodes: seq<Dinode>,
                                          ext: seq<Extent>, owner: map<nat, Ref>)
    requires FsInv(sb, disk, inodes, ext, owner) && |d| == |disk| && BitsOk(sb, d, owner)
    requires forall s :: 0 <= s < |d| && !(BitStart(sb) <= s < DataStart(sb)) ==> d[s] == disk[s]
    ensures FsInv(sb, d, inodes, ext, owner)
  {
    hide BitsOk, Word, BlockAt, FileOk, RefOk;
    OwnedInData(sb, disk, inodes, ext, owner);
    forall j | 0 <= j < sb.ninodes && ext[j].table
      ensures |inodes[j].addrs| == NDIRECT + 1 && inodes[j].addrs[NDIRECT] < |disk|
      ensures d[inodes[j].addrs[NDIRECT]] == disk[inodes[j].addrs[NDIRECT]]
    {
      TableIsOwned(sb, disk, inodes, ext, owner, j);
    }
    forall j | 0 <= j < sb.ninodes ensures FileOk(d, inodes[j], j, ext[j], owner) {
      TableThere(disk, inodes[j], j, ext[j], owner);
      FileFrame(disk, d, inodes[j], j, ext[j], owner, owner);
    }
    forall b | b in owner ensures RefOk(sb, d, inodes, ext, b, owner[b]) {
      TableOfRef(sb, disk, inodes, ext, owner, b);
      SameRef(sb, disk, d, inodes, ext, b, owner[b]);
    }
  }

  lemma {:induction false} TableThere(disk: seq<Block>, x: Dinode, i: nat, e: Extent, owner: map<nat, Ref>)
    requires FileOk(disk, x, i, e, owner)
    ensures |x.addrs| == NDIRECT + 1 && (e.table ==> x.addrs[NDIRECT] < |disk|)
  {
    hide Word;
  }

  lemma {:induction false} TableOfRef(sb: Superblock, disk: seq<Block>, inodes: seq<Dinode>, ext: seq<Extent>,
                                      owner: map<nat, Ref>, b: nat)
    requires FsInv(sb, disk, inodes, ext, owner) && b in owner
    ensures RefOk(sb, disk, inodes, ext, b, owner[b]) && owner[b].inum < sb.ninodes
    ensures owner[b].Data? && owner[b].bn >= NDIRECT ==> ext[owner[b].inum].table
  {
    hide BitsOk, Word;
    assert RefOk(sb, disk, inodes, ext, b, owner[b]);
    assert FileOk(disk, inodes[owner[b].inum], owner[b].inum, ext[owner[b].inum], owner);
  }

  /** balloc's write: the disk now has the bits it showed. */
  lemma {:induction false} BitsWritten(sb: Superblock, disk: seq<Block>, shown: seq<Block>, free: nat,
                                       inodes: seq<Dinode>, ext: seq<Extent>, owner: map<nat, Ref>, buf: Block)
    requires Shows(sb, disk, shown, free) && FsInv(sb, shown, inodes, ext, owner) && free < BPB
    requires |inodes| == |ext| == sb.ninodes
    requires forall i: nat :: i < BPB ==> (BitIn(buf, i) <==> i < free)
    ensures var e := disk[BitStart(sb) := buf];
            && FsInv(sb, e, inodes, ext, owner) && DataKept(shown, e, owner)
            && (forall c: nat :: c < sb.size ==> (Bit(sb, e, c) <==> c < free))
            && (forall s :: 0 <= s < sb.size && !(BitStart(sb) <= s < DataStart(sb)) ==> e[s] == shown[s])
            && (forall s :: free <= s < sb.size ==> e[s] == ZERO_BLOCK)
            && forall j: nat :: j < sb.ninodes ==> InodeOnDisk(sb, e, j) == InodeOnDisk(sb, shown, j)
  {
    hide BitIn, FsInv, ReadInode;
    var e := disk[BitStart(sb) := buf];
    forall c: nat | c < sb.size ensures Bit(sb, e, c) <==> c < free {
      if c >= BPB {
        assert e[BitBlock(sb, c)] == ZERO_BLOCK;
        ZeroBits(c % BPB);
      }
    }
    SameBits(sb, shown, e, free, inodes, ext, owner);
    BitmapReplaced(sb, shown, e, inodes, ext, owner);
    OwnedInData(sb, shown, inodes, ext, owner);
  }

  lemma {:induction false} SameBits(sb: Superblock, shown: seq<Block>, e: seq<Block>, free: nat, inodes: seq<Dinode>,
                                    ext: seq<Extent>, owner: map<nat, Ref>)
    requires FsInv(sb, shown, inodes, ext, owner) && GoodDisk(sb, shown) && |e| == |shown|
    requires forall c: nat :: c < sb.size ==> (Bit(sb, shown, c) <==> c < free) && (Bit(sb, e, c) <==> c < free)
    ensures BitsOk(sb, e, owner)
  {
    hide Bit, FsInv;
    forall b: nat | b < LogStart(sb) ensures Bit(sb, e, b) <==> !DataBlock(sb, b) || b in owner {
      BitMeans(sb, shown, inodes, ext, owner, b);
    }
  }

  /** The size mkfs gives the root directory at the end, after writing off bytes of entries into it. */
  function RootSize(off: nat): nat {
    (off / BSIZE + 1) * BSIZE
  }

  /** It covers no more blocks than were written exactly if the entries do not end on a block boundary. */
  lemma {:induction false} RootHasHole(off: nat)
    ensures NBlocks(RootSize(off)) == NBlocks(off) + if off % BSIZE == 0 then 1 else 0
    ensures ExtentOf(RootSize(off)) == ExtentOf(off) <==> off % BSIZE != 0
  {
    assert RootSize(off) == off - off % BSIZE + BSIZE;
    assert NBlocks(RootSize(off)) == off / BSIZE + 1;
  }

  lemma {:induction false} RootKept(d1: seq<Block>, x1: Dinode, d2: seq<Block>, d3: seq<Block>, x: Dinode,
                                    e: seq<Block>, off: nat)
    requires x1.size == off && TailZero(d1, x1, off)
    requires SameBlocks(d1, x1, d2, x, NBlocks(off)) && SameBlocks(d2, x, d3, x, NBlocks(off))
    requires SameBlocks(d3, x, e, x, NBlocks(off))
    ensures Contents(e, x, off) == File(d1, x1) && TailZero(e, x, off)
  {
    hide FileBlock;
    forall n: nat | n < NBlocks(off) ensures FileBlock(e, x, n) == FileBlock(d1, x1, n) {
      assert FileBlock(d2, x, n) == FileBlock(d1, x1, n) && FileBlock(d3, x, n) == FileBlock(d2, x, n);
    }
    var f, c := File(d1, x1), Contents(e, x, off);
    forall k | 0 <= k < off ensures c[k] == f[k] {
      assert FileBlock(e, x, k / BSIZE) == FileBlock(d1, x1, k / BSIZE);
    }
    if off % BSIZE != 0 { LastPart(off); }
  }

  lemma {:induction false} SameInode(sb: Superblock, d: seq<Block>, e: seq<Block>, i: nat)
    requires GoodDisk(sb, d) && GoodDisk(sb, e) && i < sb.ninodes && d[InodeBlock(i)] == e[InodeBlock(i)]
    ensures InodeOnDisk(sb, d, i) == InodeOnDisk(sb, e, i)
  {
  }

  lemma {:induction false} OneMoreFile(names: seq<seq<byte>>, files: seq<seq<byte>>, name: seq<byte>,
                                       content: seq<byte>)
    ensures Entries(names + [name]) ==
            Entries(names) + Dirent((|names| + 2) % 65536, Padded(Stripped(name)))
    ensures AllTake(files + [content]) == AllTake(files) + Takes(|content|)
  {
    assert (names + [name])[..|names|] == names && (files + [content])[..|files|] == files;
  }

  lemma {:induction false} TakesOne()
    ensures Takes(DIRENT) == Takes(2 * DIRENT) == 1
  {
  }

  /** Every inode is written, every extent is as its size says, and nothing is behind the end of a file. */
  ghost predicate Closed(sb: Superblock, d: seq<Block>, xs: seq<Dinode>, es: seq<Extent>) {
    && GoodDisk(sb, d) && |xs| == |es| == sb.ninodes
    && (forall j: nat :: j < sb.ninodes ==> InodeOnDisk(sb, d, j) == xs[j])
    && (forall j :: 0 <= j < sb.ninodes ==> es[j] == ExtentOf(xs[j].size) && TailZero(d, xs[j], xs[j].size))
  }

  lemma {:induction false} ClosedMeans(sb: Superblock, d: seq<Block>, xs: seq<Dinode>, es: seq<Extent>)
    requires Closed(sb, d, xs, es)
    ensures GoodDisk(sb, d) && |xs| == |es| == sb.ninodes
    ensures forall j: nat :: j < sb.ninodes ==> InodeOnDisk(sb, d, j) == xs[j]
    ensures forall j :: 0 <= j < sb.ninodes ==> es[j] == ExtentOf(xs[j].size) && TailZero(d, xs[j], xs[j].size)
  {
    hide ReadInode, TailZero, NBlocks;
  }

  lemma {:induction false} NowClosed(sb: Superblock, d: seq<Block>, xs: seq<Dinode>, es: seq<Extent>, i: nat)
    requires GoodDisk(sb, d) && i < |xs| == |es| == sb.ninodes
    requires forall j: nat :: j < sb.ninodes ==> InodeOnDisk(sb, d, j) == xs[j]
    requires forall j :: 0 <= j < sb.ninodes && j != i ==>
      es[j] == ExtentOf(xs[j].size) && TailZero(d, xs[j], xs[j].size)
    requires es[i].lo == 0 && es[i].nb == NBlocks(xs[i].size) && (es[i].table <==> es[i].nb > NDIRECT)
    requires TailZero(d, xs[i], xs[i].size)
    ensures Closed(sb, d, xs, es)
  {
    hide ReadInode, TailZero, NBlocks;
  }

  /** What appending comes to: one file longer by src, the others as they were. */
  lemma {:induction false} Appended(sb: Superblock, d0: seq<Block>, xs0: seq<Dinode>, es0: seq<Extent>, d1: seq<Block>,
                                    xs1: seq<Dinode>, x1: Dinode, d: seq<Block>, xs: seq<Dinode>, es: seq<Extent>,
                                    x: Dinode, i: nat, src: seq<byte>)
    requires i < |xs0| == |es0| == |xs1| && xs == xs1[i := x] && |es| == |xs|
    requires SameFiles(d0, xs0, es0, d1, xs1, es, i) && SameFiles(d1, xs1, es, d1, xs, es, i)
    requires SameFiles(d1, xs, es, d, xs, es, i)
    requires forall j :: 0 <= j < |es0| ==> es0[j] == ExtentOf(xs0[j].size)
    requires SameBlocks(d1, x1, d1, x, es[i].nb) && SameBlocks(d1, x, d, x, es[i].nb)
    requires Written(d1, x1, File(d0, xs0[i]), xs0[i].size, src, xs0[i].size + |src|)
    requires x.size == xs0[i].size + |src| && es[i].nb == NBlocks(x.size) && TailZero(d1, x1, x.size)
    ensures SameFiles(d0, xs0, es0, d, xs, es, i)
    ensures File(d, x) == File(d0, xs0[i]) + src && TailZero(d, x, x.size)
    ensures forall j :: 0 <= j < |xs| && j != i ==>
      xs[j] == xs0[j] && es[j] == ExtentOf(xs[j].size) && File(d, xs[j]) == File(d0, xs0[j])
  {
    hide FileBlock, File, SameFiles, HasByte;
    SameFilesTrans(d0, xs0, es0, d1, xs1, es, d1, xs, es, i);
    SameFilesTrans(d0, xs0, es0, d1, xs, es, d, xs, es, i);
    OthersSettled(d0, xs0, es0, d, xs, es, i);
    assert SameBlocks(d1, x1, d, x, es[i].nb) by {
      forall n: nat | n < es[i].nb ensures FileBlock(d, x, n) == FileBlock(d1, x1, n) {
        assert FileBlock(d1, x, n) == FileBlock(d1, x1, n);
      }
    }
    WrittenKept(d1, x1, d, x, es[i].nb, File(d0, xs0[i]), xs0[i].size, src);
    WrittenIsSplice(d, x, File(d0, xs0[i]), xs0[i].size, src);
    if x.size % BSIZE != 0 { LastPart(x.size); }
  }

  lemma {:induction false} ExtentOfNothing()
    ensures NBlocks(0) == 0
  {
  }

  lemma {:induction false} NoTail(d: seq<Block>, x: Dinode)
    requires x.size == 0
    ensures TailZero(d, x, x.size)
  {
  }

  lemma {:induction false} LastPart(p: nat)
    requires p % BSIZE != 0
    ensures p / BSIZE < NBlocks(p)
  {
  }

  lemma {:induction false} TailsKept(sb: Superblock, d: seq<Block>, xs: seq<Dinode>, es: seq<Extent>, e: seq<Block>,
                                     ys: seq<Dinode>, fs: seq<Extent>, i: nat)
    requires SameFiles(d, xs, es, e, ys, fs, i)
    requires forall j :: 0 <= j < |xs| ==> es[j] == ExtentOf(xs[j].size) && TailZero(d, xs[j], xs[j].size)
    ensures forall j :: 0 <= j < |ys| && j != i ==> TailZero(e, ys[j], ys[j].size)
  {
    hide FileBlock;
    forall j | 0 <= j < |ys| && j != i ensures TailZero(e, ys[j], ys[j].size) {
      assert SameBlocks(d, xs[j], e, ys[j], es[j].nb) && TailZero(d, xs[j], xs[j].size);
      if ys[j].size % BSIZE != 0 { LastPart(ys[j].size); }
    }
  }

  lemma {:induction false} SameTableSectors(sb: Superblock, d: seq<Block>, e: seq<Block>)
    requires GoodDisk(sb, d) && GoodDisk(sb, e) && forall s :: 0 <= s < BitStart(sb) && s < |e| ==> e[s] == d[s]
    ensures forall j: nat :: j < sb.ninodes ==> InodeOnDisk(sb, e, j) == InodeOnDisk(sb, d, j)
  {
    hide ReadInode;
  }

  lemma {:induction false} SameInodes(d: seq<Block>, xs: seq<Dinode>, es: seq<Extent>, e: seq<Block>, ys: seq<Dinode>,
                                      fs: seq<Extent>, i: nat)
    requires SameFiles(d, xs, es, e, ys, fs, i)
    ensures |xs| == |ys| && forall j :: 0 <= j < |ys| && j != i ==> ys[j] == xs[j]
  {
  }

  lemma {:induction false} GrownBlocks(size: nat, n: nat)
    ensures Grows(size, size, n) == Allocs(NBlocks(size), NBlocks(size + n))
  {
  }

  lemma {:induction false} SameSector(sb: Superblock, disk: seq<Block>, shown: seq<Block>, free: nat, s: nat)
    requires Shows(sb, disk, shown, free) && s < BitStart(sb)
    ensures s < |disk| == |shown| && shown[s] == disk[s]
  {
  }

  lemma {:induction false} Fits(sb: Superblock, disk: seq<Block>, xs: seq<Dinode>, es: seq<Extent>,
                                owner: map<nat, Ref>, i: nat)
    requires FsInv(sb, disk, xs, es, owner) && |xs| == |es| == sb.ninodes && i < sb.ninodes
    requires es[i] == ExtentOf(xs[i].size)
    ensures xs[i].size <= MAXFILE * BSIZE && |owner| <= DataCount(sb)
  {
    hide BitsOk, RefOk;
    assert FileOk(disk, xs[i], i, es[i], owner);
    OwnedCount(sb, disk, xs, es, owner);
  }

  lemma {:induction false} EmptyIs(d: seq<Block>, x: Dinode)
    requires x.size == 0
    ensures File(d, x) == []
  {
  }

  /** n more bytes behind the first p, of k in all. */
  lemma {:induction false} TakesMore(p: nat, n: nat, k: nat)
    requires p + n <= k
    ensures Takes(0) == 0 && Takes(p) + Grows(p, p, n) == Takes(p + n) <= Takes(k)
  {
    GrownBlocks(p, n);
    assert NBlocks(p) <= NBlocks(p + n) <= NBlocks(k);
  }

  const FREE_INODE := Dinode(0, 0, 0, 0, 0, NO_ADDRS)

  function NoInodes(n: nat): (xs: seq<Dinode>)
    ensures |xs| == n && forall i :: 0 <= i < n ==> xs[i] == FREE_INODE
  {
    if n == 0 then [] else NoInodes(n - 1) + [FREE_INODE]
  }

  function NoExtents(n: nat): (es: seq<Extent>)
    ensures |es| == n && forall i :: 0 <= i < n ==> es[i] == Extent(0, 0, false)
  {
    if n == 0 then [] else NoExtents(n - 1) + [Extent(0, 0, false)]
  }

  /** The disk with the first n bits set. */
  ghost function MarkFirst(sb: Superblock, disk: seq<Block>, n: nat): (d: seq<Block>)
    requires GoodDisk(sb, disk) && n <= sb.size
    ensures |d| == |disk|
  {
    if n == 0 then disk else MarkDisk(sb, MarkFirst(sb, disk, n - 1), n - 1, true)
  }

  lemma {:induction false} FirstMarked(sb: Superblock, disk: seq<Block>, n: nat)
    requires GoodDisk(sb, disk) && n <= sb.size
    requires forall c: nat :: c < sb.size ==> !Bit(sb, disk, c)
    ensures forall c: nat :: c < sb.size ==> (Bit(sb, MarkFirst(sb, disk, n), c) <==> c < n)
    ensures forall s :: 0 <= s < sb.size && !(BitStart(sb) <= s < DataStart(sb)) ==>
      MarkFirst(sb, disk, n)[s] == disk[s]
  {
    hide Bit, MarkDisk;
    if n > 0 {
      FirstMarked(sb, disk, n - 1);
      var d := MarkFirst(sb, disk, n - 1);
      forall c: nat | c < sb.size ensures Bit(sb, MarkFirst(sb, disk, n), c) <==> c < n {
        OneBit(sb, d, n - 1, true, c);
      }
      forall s | 0 <= s < sb.size && !(BitStart(sb) <= s < DataStart(sb)) ensures MarkFirst(sb, disk, n)[s] == disk[s] {
        MarkOthers(sb, d, n - 1, true, s);
      }
    }
  }

  lemma {:induction false} ZeroInode(slot: nat)
    requires slot < IPB
    ensures ReadInode(ZERO_BLOCK, slot) == FREE_INODE
  {
    var ws := GetWords(ZERO_BLOCK, 16 * slot, 16);
    forall k | 0 <= k < 16 ensures ws[k] == 0 {
      ZeroWord(16 * slot + k);
    }
    assert ws[3..] == NO_ADDRS;
  }

  lemma {:induction false} BlankImage(sb: Superblock, disk: seq<Block>, shown: seq<Block>)
    requires Formattable(sb) && GoodDisk(sb, disk) && shown == MarkFirst(sb, disk, DataStart(sb))
    requires forall s :: 0 <= s < sb.size && s != 1 ==> disk[s] == ZERO_BLOCK
    ensures Shows(sb, disk, shown, DataStart(sb))
    ensures FsInv(sb, shown, NoInodes(sb.ninodes), NoExtents(sb.ninodes), map[])
    ensures forall j: nat :: j < sb.ninodes ==> InodeOnDisk(sb, shown, j) == FREE_INODE
    ensures TailZero(shown, FREE_INODE, 0)
  {
    hide BitIn, Bit, ReadInode, BlockAt, Word, MarkFirst;
    forall c: nat | c < sb.size ensures !Bit(sb, disk, c) {
      BlankBit(sb, disk, c);
    }
    FirstMarked(sb, disk, DataStart(sb));
    forall j: nat | j < sb.ninodes ensures InodeOnDisk(sb, shown, j) == FREE_INODE {
      ZeroInode(j % IPB);
    }
  }

  lemma {:induction false} BlankBit(sb: Superblock, disk: seq<Block>, c: nat)
    requires GoodDisk(sb, disk) && c < sb.size && forall s :: 0 <= s < sb.size && s != 1 ==> disk[s] == ZERO_BLOCK
    ensures !Bit(sb, disk, c)
  {
    hide BitIn;
    ZeroBits(c % BPB);
  }

  lemma {:induction false} AppendStart(sb: Superblock, disk: seq<Block>, xs: seq<Dinode>, es: seq<Extent>,
                                       owner: map<nat, Ref>, i: nat, x: Dinode, src: seq<byte>)
    requires FsInv(sb, disk, xs, es, owner) && |xs| == |es| == sb.ninodes && i < sb.ninodes && xs[i] == x
    requires es[i] == ExtentOf(x.size)
    ensures SameFiles(disk, xs, es, disk, xs, es, i) && Written(disk, x, File(disk, x), x.size, src, x.size)
    ensures Allocs(es[i].nb, es[i].nb) == 0
  {
    hide FsInv, File, FileBlock;
    SameFilesRefl(disk, xs, es, i);
    NothingWritten(disk, x, x.size, src);
  }

  /** The bookkeeping of one turn, at p, for a file that had size bytes and has nb blocks; n bytes in all. */
  lemma {:induction false} AppendArithmetic(size: nat, p: nat, m: nat, n: nat, nb: nat)
    requires size <= p && 0 < m && p % BSIZE + m <= BSIZE && p + m <= size + n && nb == NBlocks(p)
    ensures p <= nb * BSIZE && size <= nb * BSIZE && p / BSIZE <= nb && (p / BSIZE < nb <==> p % BSIZE != 0)
    ensures (if p / BSIZE < nb then nb else p / BSIZE + 1) == NBlocks(p + m)
    ensures Allocs(NBlocks(size), nb) + (if p / BSIZE < nb then 0 else Needs(p / BSIZE)) ==
            Allocs(NBlocks(size), NBlocks(p + m)) <= Grows(size, size, n)
    ensures p / BSIZE < MAXFILE ==> p + m <= MAXFILE * BSIZE
    ensures m == BSIZE - p % BSIZE ==> (p + m) % BSIZE == 0
  {
    assert NBlocks(size) <= nb <= NBlocks(p + m) <= NBlocks(size + n);
  }

  /** Behind position p its block is zero. */
  ghost predicate TailZero(disk: seq<Block>, x: Dinode, p: nat) {
    p % BSIZE != 0 ==> forall k :: p % BSIZE <= k < BSIZE ==> FileBlock(disk, x, p / BSIZE)[k] == 0
  }

  lemma {:induction false} TailMore(disk: seq<Block>, x: Dinode, d: seq<Block>, y: Dinode, p: nat, chunk: seq<byte>)
    requires p % BSIZE + |chunk| <= BSIZE && TailZero(disk, x, p)
    requires FileBlock(d, y, p / BSIZE) ==
             Overlay(if p % BSIZE != 0 then FileBlock(disk, x, p / BSIZE) else ZERO_BLOCK, p % BSIZE, chunk)
    ensures TailZero(d, y, p + |chunk|)
  {
    hide FileBlock, Overlay;
    Positions(p, |chunk|, p + |chunk|);
  }

  lemma {:induction false} NothingChanged(sb: Superblock, i: nat, d: seq<Block>, xs: seq<Dinode>, es: seq<Extent>,
                                          o: map<nat, Ref>)
    requires i < |xs| == |es|
    ensures OnlyInode(sb, i, d, xs, es, o, d, xs, es, o)
  {
    assert xs == xs[i := xs[i]];
  }

  lemma {:induction false} Geometry(sb: Superblock, disk: seq<Block>, shown: seq<Block>, free: nat)
    requires Shows(sb, disk, shown, free)
    ensures GoodDisk(sb, disk) && GoodDisk(sb, shown) && DataStart(sb) <= free <= LogStart(sb)
  {
  }

  // ----- the whole of mkfs -----

  /** All that mkfs needs: inodes and data blocks enough, no file larger than files can be, names without slashes, and
      everything in use in one map block. */
  ghost predicate Enough(sb: Superblock, names: seq<seq<byte>>, files: seq<seq<byte>>)
    requires |names| == |files|
  {
    && Formattable(sb) && |names| + 2 <= sb.ninodes && DIRENT * (|names| + 2) <= MAXFILE * BSIZE
    && (forall k :: 0 <= k < |names| ==> SLASH !in Stripped(names[k]) && |files[k]| <= MAXFILE * BSIZE)
    && AllTake(files) + Takes(DIRENT * (|names| + 2)) <= DataCount(sb)
    && DataStart(sb) + AllTake(files) + Takes(DIRENT * (|names| + 2)) < BPB
  }

  lemma {:induction false} TakePrefix(files: seq<seq<byte>>, n: nat)
    requires n < |files|
    ensures files[..n + 1] == files[..n] + [files[n]]
    ensures AllTake(files[..n + 1]) == AllTake(files[..n]) + Takes(|files[n]|) <= AllTake(files)
    decreases |files|
  {
    hide Takes;
    OneMoreFile([], files[..n], [], files[n]);
    assert files[..n + 1] == files[..n] + [files[n]];
    if n + 1 < |files| {
      var init := files[..|files| - 1];
      assert init[..n + 1] == files[..n + 1] && init[..n] == files[..n];
      TakePrefix(init, n);
      TakesMore(0, 0, |files[|files| - 1]|);
    } else {
      assert files[..n + 1] == files;
    }
  }

  /** mkfs: an image with the given files, exactly if there is room for them. */
  method Make(sb: Superblock, names: seq<seq<byte>>, files: seq<seq<byte>>) returns (r: Option<Image>)
    requires |names| == |files| && sb.size < 0x8000_0000 && sb.ninodes < 0x1_0000_0000
    ensures r.Some? <==> Enough(sb, names, files)
    ensures r.Some? ==>
      var i := r.value; fresh(i) && i.sb == sb && Finished(sb, i.disk, i.inodes, i.ext, i.owner, names, files)
  {
    hide Finished, Takes, AllTake, Image.Filled, Image.Valid, Stripped;
    TakesMore(0, DIRENT, DIRENT * (|names| + 2));
    TakesOne();
    AllTakeSome(files);
    if DataBlocks(sb) < 0 { return None; }
    var image := new Image(sb);
    var ok := image.AddRoot();
    if !ok { return None; }
    var n := 0;
    assert names[..0] == [] && files[..0] == [];
    while n < |names|
      invariant 0 <= n <= |names| && image.Filled(names[..n], files[..n]) && image.sb == sb && fresh(image)
      invariant n + 2 <= sb.ninodes && DIRENT * (n + 2) <= MAXFILE * BSIZE
      invariant forall k :: 0 <= k < n ==> SLASH !in Stripped(names[k]) && |files[k]| <= MAXFILE * BSIZE
      invariant AllTake(files[..n]) + Takes(DIRENT * (n + 2)) <= DataCount(sb)
    {
      TakePrefix(files, n);
      TakesMore(DIRENT * (n + 2), DIRENT, DIRENT * (|names| + 2));
      ok := image.AddFile(names[n], files[n], names[..n], files[..n]);
      if !ok { return None; }
      assert names[..n] + [names[n]] == names[..n + 1];
      n := n + 1;
    }
    assert names[..n] == names && files[..n] == files;
    ok := image.Finish(names, files);
    return if ok then Some(image) else None;
  }

  lemma {:induction false} AllTakeSome(files: seq<seq<byte>>)
    ensures AllTake(files) >= 0 && AllTake(files[..0]) == 0
  {
  }

  // ----- what the kernel finds -----

  /** The root directory as the kernel reads it: the entries and zeroes up to the end of the block. */
  lemma {:induction false} RootRead(disk: seq<Block>, x: Dinode, off: nat, c: seq<byte>)
    requires x.size == RootSize(off) && Contents(disk, x, off) == c && TailZero(disk, x, off) && off % BSIZE != 0
    ensures off < x.size && File(disk, x) == c + Zeroes(x.size - off)
  {
    hide FileBlock, Zeroes;
    assert x.size == off - off % BSIZE + BSIZE;
    var f, z := File(disk, x), Zeroes(x.size - off);
    forall k | 0 <= k < x.size ensures f[k] == (c + z)[k] {
      assert f[k] == Byte(disk, x, k);
      if k >= off { assert k / BSIZE == off / BSIZE; }
    }
  }

  /** Entry k + 2 is that of file k. */
  lemma {:induction false} EntryOf(names: seq<seq<byte>>, c: seq<byte>, k: nat)
    requires Entries(names) <= c && k < |names|
    ensures k + 2 < Count(c) && Inum(c, k + 2) == (k + 2) % 65536 && EntryKey(c, k + 2) == Key(Stripped(names[k]))
    decreases |names|
  {
    hide Chars, Stripped, Inum, EntryKey, Dirent, Padded;
    var n := |names| - 1;
    var init := Entries(names[..n]);
    if k < n {
      assert init <= c;
      EntryOf(names[..n], c, k);
    } else {
      assert c[DIRENT * (n + 2)..DIRENT * (n + 2) + DIRENT] == Dirent((n + 2) % 65536, Padded(Stripped(names[n])));
      DirentAt(c, n + 2, (n + 2) % 65536, Padded(Stripped(names[n])));
      KeyPadded(Stripped(names[n]));
    }
  }

  lemma {:induction false} DirentAt(c: seq<byte>, i: nat, v: nat, name: seq<byte>)
    requires v < 65536 && |name| == DIRSIZ && DIRENT * i + DIRENT <= |c|
    requires c[DIRENT * i..DIRENT * i + DIRENT] == Dirent(v, name)
    ensures i < Count(c) && Inum(c, i) == v && EntryKey(c, i) == Key(name)
  {
    hide Chars;
    var e := Dirent(v, name);
    assert c[DIRENT * i] == e[0] && c[DIRENT * i + 1] == e[1];
    assert c[DIRENT * i + 2..DIRENT * i + DIRENT] == name;
  }

  lemma {:induction false} KeyPadded(name: seq<byte>)
    ensures Key(Padded(name)) == Key(name)
  {
    hide Zeroes;
    var r, p := Chars(name, DIRSIZ), Padded(name);
    SameChars(p, name, DIRSIZ, |r|);
  }

  /** No entry of the root names an inode past those in use. */
  lemma {:induction false} EntriesBelow(names: seq<seq<byte>>, m: nat)
    requires |names| + 2 <= m
    ensures NumbersBelow(Entries(names), m)
    decreases |names|
  {
    hide Chars, Stripped;
    var c := Entries(names);
    if names == [] {
      assert c[0] == ROOT && c[1] == 0 && c[DIRENT] == ROOT && c[DIRENT + 1] == 0;
    } else {
      var n := |names| - 1;
      EntriesBelow(names[..n], m);
      forall k: nat | k < Count(c) && Live(c, k) ensures Inum(c, k) < m {
        if k < n + 2 {
          assert Inum(c, k) == Inum(Entries(names[..n]), k);
        } else {
          EntryOf(names, c, n);
        }
      }
    }
  }

  /** Zeroes behind whole entries are dead ones. */
  lemma {:induction false} PaddingDead(c: seq<byte>, z: nat, m: nat)
    requires NumbersBelow(c, m) && |c| % DIRENT == 0
    ensures NumbersBelow(c + Zeroes(z), m)
  {
    hide Zeroes;
    var d := c + Zeroes(z);
    forall k: nat | k < Count(d) && Live(d, k) ensures Inum(d, k) < m {
      assert k < Count(c) ==> Inum(c, k) == Inum(d, k);
    }
  }

  /** The image is settled, with good directories, if the entries of the root do not end on a block boundary; then the
      root holds the entries. */
  lemma {:induction false} MadeSettled(sb: Superblock, disk: seq<Block>, inodes: seq<Dinode>, ext: seq<Extent>,
                                       owner: map<nat, Ref>, names: seq<seq<byte>>, files: seq<seq<byte>>)
    requires Finished(sb, disk, inodes, ext, owner, names, files) && DIRENT * (|names| + 2) % BSIZE != 0
    ensures SettledDisk(sb, disk, inodes, ext, owner) && DirsOk(disk, inodes)
    ensures Entries(names) <= File(disk, inodes[ROOT])
  {
    hide FsInv, Entries, TailZero, File, InodeOnDisk, SuperSector, Zeroes, Takes, AllTake, NBlocks, DirsOk, Contents,
         Bit;
    var off := DIRENT * (|names| + 2);
    RootHasHole(off);
    RootRead(disk, inodes[ROOT], off, Entries(names));
    OnlyRoot(disk, inodes, names);
  }

  /** The root is the one directory, and its entries are good. */
  lemma {:induction false} OnlyRoot(disk: seq<Block>, inodes: seq<Dinode>, names: seq<seq<byte>>)
    requires |names| + 2 <= |inodes| && inodes[ROOT].size >= DIRENT * (|names| + 2) && inodes[ROOT].size % BSIZE == 0
    requires File(disk, inodes[ROOT]) == Entries(names) + Zeroes(inodes[ROOT].size - DIRENT * (|names| + 2))
    requires forall k :: 0 <= k < |inodes| && k != ROOT ==> inodes[k].kind != T_DIR
    ensures DirsOk(disk, inodes)
  {
    hide Entries, File, Zeroes, NumbersBelow;
    EntriesBelow(names, |inodes|);
    PaddingDead(Entries(names), inodes[ROOT].size - DIRENT * (|names| + 2), |inodes|);
    WholeEntries(inodes[ROOT].size);
  }

  lemma {:induction false} WholeEntries(n: nat)
    ensures n % BSIZE == 0 ==> n % DIRENT == 0
  {
  }

  /** Otherwise it is no settled disk, whatever is taken for its inodes and blocks: the root has a block it has not. */
  lemma {:induction false} MadeWithHole(sb: Superblock, disk: seq<Block>, inodes: seq<Dinode>, ext: seq<Extent>,
                                        owner: map<nat, Ref>, names: seq<seq<byte>>, files: seq<seq<byte>>,
                                        xs: seq<Dinode>, es: seq<Extent>, o: map<nat, Ref>)
    requires Finished(sb, disk, inodes, ext, owner, names, files) && DIRENT * (|names| + 2) % BSIZE == 0
    ensures !SettledDisk(sb, disk, xs, es, o)
  {
    hide FsInv, Entries, TailZero, File, InodeOnDisk, SuperSector, Takes, AllTake, Contents;
    var off := DIRENT * (|names| + 2);
    RootHasHole(off);
    if SettledDisk(sb, disk, xs, es, o) {
      Dimensions(sb, disk, xs, es, o);
      Unmapped(sb, disk, inodes, ext, owner, ROOT);
      MissingBlock(sb, disk, inodes[ROOT], ext[ROOT], xs, es, o);
    }
  }

  /** A file with one block more than it has addresses for. */
  lemma {:induction false} MissingBlock(sb: Superblock, disk: seq<Block>, x: Dinode, e: Extent, xs: seq<Dinode>,
                                        es: seq<Extent>, o: map<nat, Ref>)
    requires ROOT < sb.ninodes == |xs| == |es| && xs[ROOT] == x && |x.addrs| == NDIRECT + 1
    requires es[ROOT].lo == 0 && es[ROOT].nb == e.nb + 1 && (es[ROOT].table <==> es[ROOT].nb > NDIRECT)
    requires (e.table <==> e.nb > NDIRECT) && (!e.table ==> x.addrs[NDIRECT] == 0)
    requires e.nb < NDIRECT ==> x.addrs[e.nb] == 0
    requires e.table && NDIRECT <= e.nb < MAXFILE ==>
      0 < x.addrs[NDIRECT] < |disk| && Word(disk[x.addrs[NDIRECT]], e.nb - NDIRECT) == 0
    ensures !FsInv(sb, disk, xs, es, o)
  {
    hide FsInv, Word;
    if FsInv(sb, disk, xs, es, o) {
      Mapped(sb, disk, xs, es, o, ROOT, e.nb);
      assert false;
    }
  }

  /** So a caller can tell from the number of files whether there is anything the image is a settled disk of. */
  lemma {:induction false} MadeExactly(sb: Superblock, disk: seq<Block>, inodes: seq<Dinode>, ext: seq<Extent>,
                                       owner: map<nat, Ref>, names: seq<seq<byte>>, files: seq<seq<byte>>)
    requires Finished(sb, disk, inodes, ext, owner, names, files)
    ensures (|files| + 2) % 32 != 0 <==> SettledDisk(sb, disk, inodes, ext, owner)
    ensures (|files| + 2) % 32 != 0 <==>
      exists xs: seq<Dinode>, es: seq<Extent>, o: map<nat, Ref> :: SettledDisk(sb, disk, xs, es, o)
  {
    hide SettledDisk;
    BlockOfEntries(sb, disk, inodes, ext, owner, names, files);
    if (|files| + 2) % 32 != 0 {
      MadeSettled(sb, disk, inodes, ext, owner, names, files);
    } else {
      forall xs: seq<Dinode>, es: seq<Extent>, o: map<nat, Ref> ensures !SettledDisk(sb, disk, xs, es, o) {
        MadeWithHole(sb, disk, inodes, ext, owner, names, files, xs, es, o);
      }
    }
  }

  lemma {:induction false} BlockOfEntries(sb: Superblock, disk: seq<Block>, inodes: seq<Dinode>, ext: seq<Extent>,
                                          owner: map<nat, Ref>, names: seq<seq<byte>>, files: seq<seq<byte>>)
    requires Finished(sb, disk, inodes, ext, owner, names, files)
    ensures DIRENT * (|names| + 2) % BSIZE == 0 <==> (|files| + 2) % 32 == 0
  {
    hide FsInv, Entries, TailZero, File, InodeOnDisk, SuperSector, Takes, AllTake, Contents, Bit;
  }

  /** Where names are unique the root finds every file under its name. */
  lemma {:induction false} MadeNames(sb: Superblock, disk: seq<Block>, inodes: seq<Dinode>, ext: seq<Extent>,
                                     owner: map<nat, Ref>, names: seq<seq<byte>>, files: seq<seq<byte>>, k: nat)
    requires Finished(sb, disk, inodes, ext, owner, names, files) && (|files| + 2) % 32 != 0 && k < |files|
    requires (k + 2) % 65536 != 0
    ensures var c, key := File(disk, inodes[ROOT]), Key(Stripped(names[k]));
            && key in DirMap(c) && (NamesUnique(c) ==> DirMap(c)[key] == (k + 2) % 65536)
  {
    hide Entries, Bindings, Inum, EntryKey, Chars, Stripped, FsInv, TailZero, File, InodeOnDisk, SuperSector, Takes,
         AllTake, Contents, Bit, SettledDisk, DirsOk;
    BlockOfEntries(sb, disk, inodes, ext, owner, names, files);
    MadeSettled(sb, disk, inodes, ext, owner, names, files);
    var c := File(disk, inodes[ROOT]);
    EntryOf(names, c, k);
    LiveIsBound(c, k + 2, Count(c));
    var i := BoundIsLive(c, Count(c), EntryKey(c, k + 2));
  }

  /** The log of the image is empty, so the crash guarantees hold from it on; and the bits of its blocks are clear. */
  lemma {:induction false} MadeNoLog(sb: Superblock, disk: seq<Block>, inodes: seq<Dinode>, ext: seq<Extent>,
                                     owner: map<nat, Ref>, names: seq<seq<byte>>, files: seq<seq<byte>>)
    requires Finished(sb, disk, inodes, ext, owner, names, files) && sb.nlog > 0
    ensures R.NoLog(LogOf(sb), disk) && GoodDisk(sb, disk)
    ensures forall b: nat :: LogStart(sb) <= b < sb.size ==> !Bit(sb, disk, b)
  {
    hide BitIn, FsInv, Entries, TailZero, File, InodeOnDisk, SuperSector, Takes, AllTake, Contents, Bit;
    Dimensions(sb, disk, inodes, ext, owner);
    OwnedCount(sb, disk, inodes, ext, owner);
    ZeroWord(0);
    assert disk[LogOf(sb).start] == ZERO_BLOCK;
    assert R.HeaderSectors(ZERO_BLOCK) == [];
  }

  /** The kernel on an image: it reads the superblock, and is idle, with a history that is the image alone if the image
      is settled. */
  method Mount(image: Image, ghost names: seq<seq<byte>>, ghost files: seq<seq<byte>>)
    returns (fs: Fs, ghost views: seq<View>)
    requires Finished(image.sb, image.disk, image.inodes, image.ext, image.owner, names, files)
    ensures fresh(fs) && fs.sb == image.sb && fs.disk == image.disk && fs.inodes == image.inodes && fs.ext == image.ext
    ensures fs.owner == image.owner && fs.Consistent() && fs.Idle() && fs.Tracked()
    ensures (|files| + 2) % 32 != 0 ==>
      fs.Settled() && DirsOk(fs.disk, fs.inodes) && History(fs.sb, fs.boot, fs.done, views)
  {
    hide SettledDisk, Recorded, R.Direct, DirsOk, SuperSector, FsInv, Entries, TailZero, InodeOnDisk, Bit, Takes,
         AllTake, Contents;
    Dimensions(image.sb, image.disk, image.inodes, image.ext, image.owner);
    SuperRoundTrip(image.sb);
    fs := new Fs(ReadSuper(image.disk[1]), image.disk, image.inodes, image.ext, image.owner);
    views := [ViewOf(fs)];
    if (|files| + 2) % 32 != 0 {
      BlockOfEntries(image.sb, image.disk, image.inodes, image.ext, image.owner, names, files);
      MadeSettled(image.sb, image.disk, image.inodes, image.ext, image.owner, names, files);
      IdleDisk(fs.sb, fs.boot, fs.done, fs.disk);
      assert fs.done[..0] == fs.done;
    }
  }

  /** Where the entries fill their blocks, the kernel's readi of the root comes to a block that is not there: bmap takes
      it for one to allocate, and that panics outside a transaction. */
  method ReadRootEnd(image: Image, ghost names: seq<seq<byte>>, ghost files: seq<seq<byte>>)
    returns (r: Option<uint32>)
    requires Finished(image.sb, image.disk, image.inodes, image.ext, image.owner, names, files)
    requires (|files| + 2) % 32 == 0
    ensures NBlocks(image.inodes[ROOT].size) == NBlocks(DIRENT * (|files| + 2)) + 1 && r.None?
  {
    hide SettledDisk, Recorded, DirsOk, SuperSector, FsInv, Entries, TailZero, InodeOnDisk, Bit, Takes, AllTake,
         Contents, History, BlockAllocs, NoneFree;
    BlockOfEntries(image.sb, image.disk, image.inodes, image.ext, image.owner, names, files);
    RootHasHole(DIRENT * (|names| + 2));
    RootFacts(image.sb, image.disk, image.inodes, image.ext, image.owner, names, files);
    var fs, views := Mount(image, names, files);
    var ip := new Inode(ROOT, InodeOnDisk(fs.sb, fs.disk, ROOT));
    ghost var a, K;
    r, a, K := fs.Bmap(ip, (ip.d.size - 1) / BSIZE);
  }

  /** Thirty empty files are such a case. */
  method ThirtyFiles(names: seq<seq<byte>>) returns (r: Option<uint32>)
    requires |names| == 30 && forall k :: 0 <= k < 30 ==> SLASH !in Stripped(names[k])
    ensures r.None?
  {
    hide Finished, Stripped, Takes, FsInv;
    var files := Empties(30);
    var sb := Superblock(1024, 200, 10);
    assert Takes(DIRENT * 32) == 1 && DataStart(sb) == 29 by { OneBlock(); }
    var image := Make(sb, names, files);
    r := ReadRootEnd(image.value, names, files);
  }

  lemma {:induction false} OneBlock()
    ensures Takes(DIRENT * 32) == 1
  {
  }

  function Empties(n: nat): (files: seq<seq<byte>>)
    ensures |files| == n && AllTake(files) == 0 && forall k :: 0 <= k < n ==> files[k] == []
  {
    if n == 0 then []
    else
      assert (Empties(n - 1) + [[]])[..n - 1] == Empties(n - 1);
      Empties(n - 1) + [[]]
  }

  lemma {:induction false} RootFacts(sb: Superblock, disk: seq<Block>, inodes: seq<Dinode>, ext: seq<Extent>,
                                     owner: map<nat, Ref>, names: seq<seq<byte>>, files: seq<seq<byte>>)
    requires Finished(sb, disk, inodes, ext, owner, names, files) && DIRENT * (|names| + 2) % BSIZE == 0
    ensures ROOT < sb.ninodes == |inodes| == |ext| && GoodDisk(sb, disk) && |names| == |files|
    ensures InodeOnDisk(sb, disk, ROOT) == inodes[ROOT] && ext[ROOT] == ExtentOf(DIRENT * (|names| + 2))
    ensures inodes[ROOT].size == RootSize(DIRENT * (|names| + 2))
    ensures (inodes[ROOT].size - 1) / BSIZE == ext[ROOT].nb
  {
    hide FsInv, Entries, TailZero, File, InodeOnDisk, SuperSector, Takes, AllTake, Contents, Bit;
    Dimensions(sb, disk, inodes, ext, owner);
  }

  // ----- a block of the log, and a log too small -----

  /** With no data block left and the bits of the log clear, balloc gives out the first block of the log. */
  method NextBlock(fs: Fs) returns (r: Option<nat>)
    requires fs.busy && fs.logged == {} && GoodDisk(fs.sb, fs.disk) && fs.sb.nlog > 2
    requires forall c: nat :: c < fs.sb.size ==> (Bit(fs.sb, fs.disk, c) <==> c < LogStart(fs.sb))
    modifies fs
    ensures r == Some(LogStart(fs.sb))
  {
    hide Recorded, Bit, LowestFree, MapsOf, AllocDisk, Marked, NoneFree;
    ghost var disk := fs.disk;
    assert !Bit(fs.sb, disk, LogStart(fs.sb)) && !SetBelow(fs.sb, disk, fs.sb.size);
    ghost var K;
    r, K := fs.Balloc();
    LowestBelow(fs.sb, disk, K);
    MapsCount(fs.sb, K);
    assert {} + MapsOf(fs.sb, K) == MapsOf(fs.sb, K);
  }

  /** So it is on an image whose files fill the data region. */
  method LogBlockGiven(image: Image, ghost names: seq<seq<byte>>, ghost files: seq<seq<byte>>) returns (r: Option<nat>)
    requires Finished(image.sb, image.disk, image.inodes, image.ext, image.owner, names, files)
    requires |image.owner| == DataCount(image.sb) && image.sb.nlog > 2
    ensures r == Some(LogStart(image.sb))
  {
    hide SettledDisk, Recorded, DirsOk, FsInv, Finished, History, Bit;
    BitsUpToLog(image.sb, image.disk, image.inodes, image.ext, image.owner, names, files);
    var fs, views := Mount(image, names, files);
    fs.BeginTrans();
    r := NextBlock(fs);
  }

  lemma {:induction false} BitsUpToLog(sb: Superblock, disk: seq<Block>, inodes: seq<Dinode>, ext: seq<Extent>,
                                       owner: map<nat, Ref>, names: seq<seq<byte>>, files: seq<seq<byte>>)
    requires Finished(sb, disk, inodes, ext, owner, names, files) && |owner| == DataCount(sb)
    ensures GoodDisk(sb, disk) && forall c: nat :: c < sb.size ==> (Bit(sb, disk, c) <==> c < LogStart(sb))
  {
    hide FsInv, Entries, TailZero, File, InodeOnDisk, SuperSector, Takes, AllTake, Contents, Bit;
    Dimensions(sb, disk, inodes, ext, owner);
  }

  /** mkfs without files on 40 blocks, 200 inodes and the usual log leaves no data block, so it is such an image. */
  method NoBlockLeft() returns (r: Option<nat>)
    ensures r == Some(30)
  {
    hide Finished;
    var sb := Superblock(40, 200, 10);
    TakesOne();
    assert DataStart(sb) == 29 && LogStart(sb) == 30;
    var image := Make(sb, [], []);
    FinishedCount(sb, image.value.disk, image.value.inodes, image.value.ext, image.value.owner, [], []);
    r := LogBlockGiven(image.value, [], []);
  }

  lemma {:induction false} FinishedCount(sb: Superblock, disk: seq<Block>, inodes: seq<Dinode>, ext: seq<Extent>,
                                         owner: map<nat, Ref>, names: seq<seq<byte>>, files: seq<seq<byte>>)
    requires Finished(sb, disk, inodes, ext, owner, names, files)
    ensures |owner| == AllTake(files) + Takes(DIRENT * (|names| + 2)) && |names| == |files| && |names| + 2 <= sb.ninodes
    ensures |inodes| == |ext| == sb.ninodes && GoodDisk(sb, disk)
    ensures forall k :: 2 <= k < |files| + 2 ==> inodes[k].kind == T_FILE && File(disk, inodes[k]) == files[k - 2]
    ensures forall c: nat :: c < sb.size ==> (Bit(sb, disk, c) <==> c < DataStart(sb) + |owner|)
  {
    hide FsInv, Entries, TailZero, File, InodeOnDisk, SuperSector, Takes, AllTake, Contents, Bit;
    Dimensions(sb, disk, inodes, ext, owner);
  }

  /** On a disk with one map block, a log of seven blocks is too small for a piece of filewrite that starts in the last
      direct block of a file and goes on into the first three indirect ones: it needs seven sectors, and panics. */
  method SmallLog(fs: Fs, f: OpenFile, piece: seq<byte>, ghost b: nat) returns (r: WriteResult)
    requires fs.Settled() && fs.Idle() && fs.Tracked() && 0 < fs.sb.nlog <= 7 && fs.sb.size < BPB
    requires GoodDisk(fs.sb, fs.disk) && b < fs.sb.size && !Bit(fs.sb, fs.disk, b)
    requires fs.Current(f.ip) && f.ip.d.kind != 0 && f.ip.d.kind != T_DEV && |piece| == MAXCHUNK
    requires f.off == f.ip.d.size == NDIRECT * BSIZE - BSIZE / 2
    modifies fs, f, f.ip
    ensures r.Panicked?
  {
    hide SettledDisk, Recorded, File, LogNeed, FirstFree, MapsOf, Bit;
    OneMapBlock(fs.sb, fs.disk, b);
    PieceLimitReached(fs.sb, fs.disk);
    r := WritePiece(fs, f, piece);
  }

  /** Such a run, from mkfs on. */
  method LogOverflows(name: seq<byte>, content: seq<byte>, piece: seq<byte>) returns (r: WriteResult)
    requires SLASH !in Stripped(name) && |content| == NDIRECT * BSIZE - BSIZE / 2 && |piece| == MAXCHUNK
    ensures r.Panicked?
  {
    hide Finished, SettledDisk, Recorded, DirsOk, History, File, Stripped, Bit, FsInv, InodeOnDisk;
    var sb := Superblock(100, 16, 7);
    SmallCounts(content);
    var image := Make(sb, [name], [content]);
    FinishedCount(sb, image.value.disk, image.value.inodes, image.value.ext, image.value.owner, [name], [content]);
    var fs, views := Mount(image.value, [name], [content]);
    var ip := new Inode(2, InodeOnDisk(fs.sb, fs.disk, 2));
    InodeRead(sb, fs.disk, fs.inodes, fs.ext, fs.owner);
    var f := new OpenFile(ip);
    f.off := |content|;
    r := SmallLog(fs, f, piece, DataStart(sb) + |fs.owner|);
  }

  lemma {:induction false} SmallCounts(content: seq<byte>)
    requires |content| == NDIRECT * BSIZE - BSIZE / 2
    ensures AllTake([content]) == 12 && Takes(3 * DIRENT) == 1 && Formattable(Superblock(100, 16, 7))
    ensures DataStart(Superblock(100, 16, 7)) == 6 && LogStart(Superblock(100, 16, 7)) == 93
  {
    assert [content][..0] == [];
    assert AllTake([]) == 0 && NBlocks(|content|) == 12;
  }

  lemma {:induction false} InodeRead(sb: Superblock, disk: seq<Block>, inodes: seq<Dinode>, ext: seq<Extent>,
                                     owner: map<nat, Ref>)
    requires SettledDisk(sb, disk, inodes, ext, owner)
    ensures GoodDisk(sb, disk) && forall j: nat :: j < sb.ninodes ==> InodeOnDisk(sb, disk, j) == inodes[j]
  {
    hide FsInv, InodeOnDisk;
    Dimensions(sb, disk, inodes, ext, owner);
  }

  /** On a disk with one map block, any free block makes it one sector. */
  lemma {:induction false} OneMapBlock(sb: Superblock, disk: seq<Block>, b: nat)
    requires GoodDisk(sb, disk) && sb.size < BPB && b < sb.size && !Bit(sb, disk, b)
    ensures |MapsOf(sb, FirstFree(sb, disk, 0, 4))| == 1 == Min(4, sb.size / BPB + 1)
  {
    hide Bit;
    SomeFree(sb, disk, 0, 4, b);
    var F := FirstFree(sb, disk, 0, 4);
    var c :| c in F;
    assert forall s :: s in MapsOf(sb, F) ==> s == BitStart(sb);
    assert BitBlock(sb, c) in MapsOf(sb, F);
    assert MapsOf(sb, F) == {BitStart(sb)};
  }

  lemma {:induction false} SomeFree(sb: Superblock, disk: seq<Block>, from: nat, k: nat, b: nat)
    requires GoodDisk(sb, disk) && from <= b < sb.size && !Bit(sb, disk, b) && k > 0
    ensures FirstFree(sb, disk, from, k) != {}
    decreases b - from
  {
    hide Bit;
    if Bit(sb, disk, from) {
      SomeFree(sb, disk, from + 1, k, b);
    } else {
      assert from in FirstFree(sb, disk, from, k);
    }
  }
}
