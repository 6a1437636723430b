/** filewrite of kernel/file.c on an inode: a long write cut into pieces, one log transaction each. */
module OpenFiles {
  import opened Bytes
  import opened Bitmap
  import opened FsLayout
  import opened FsContent
  import opened FileSystem
  import C = BufferCache
  import R = RedoLog

  const MAXCHUNK := ((R.LOGSIZE - 1 - 1 - 2) / 2) * 512

  datatype FileWriteResult = Done(n: nat) | Failed | ToDevice | Panics

  /** struct file for an inode. */
  class OpenFile {
    const ip: Inode
    var off: uint32
    constructor (ip: Inode) ensures this.ip == ip && off == 0 {
      this.ip := ip;
      off := 0;
    }
  }

  /** Writing a then b is writing a + b. */
  lemma {:induction false} SpliceTwice(c: seq<byte>, off: nat, a: seq<byte>, b: seq<byte>)
    requires off <= |c|
    ensures off + |a| <= |Splice(c, off, a)|
    ensures Splice(Splice(c, off, a), off + |a|, b) == Splice(c, off, a + b)
  {
    var s, t, u := Splice(c, off, a), Splice(Splice(c, off, a), off + |a|, b), Splice(c, off, a + b);
    assert |t| == |u|;
    forall k | 0 <= k < |t| ensures t[k] == u[k] {
      assert k < off ==> t[k] == s[k] == c[k];
      assert off + |a| + |b| <= k ==> t[k] == s[k] == c[k];
    }
  }

  lemma {:induction false} SpliceNothing(c: seq<byte>, off: nat)
    requires off <= |c|
    ensures Splice(c, off, []) == c
  {
  }

  // ----- the size of a transaction -----

  /** The most sectors a piece logs before that of the inode: four of data, one table, and the map blocks of
      at most four allocations. */
  function PieceLimit(sb: Superblock): nat {
    5 + Min(4, sb.size / BPB + 1)
  }

  /** A piece touches at most four data blocks and allocates at most four, the table included. */
  lemma {:induction false} PieceCounts(off: nat, m: nat, size: nat)
    requires m <= MAXCHUNK && off <= size
    ensures Turns(off, off + m) <= 4
    ensures Allocs(NBlocks(size), Max(NBlocks(size), NBlocks(off + m))) <= 4
  {
    assert NBlocks(off + m) <= NBlocks(size) + 3;
  }

  /** The k lowest blocks from the given one on whose bits are clear. */
  function FirstFree(sb: Superblock, disk: seq<Block>, from: nat, k: int): (r: set<nat>)
    requires GoodDisk(sb, disk)
    ensures forall b :: b in r ==> from <= b < sb.size
    decreases sb.size - from
  {
    if k <= 0 || from >= sb.size then {}
    else if Bit(sb, disk, from) then FirstFree(sb, disk, from + 1, k)
    else {from} + FirstFree(sb, disk, from + 1, k - 1)
  }

  ghost predicate LowestFrom(sb: Superblock, disk: seq<Block>, from: nat, K: set<nat>)
    requires GoodDisk(sb, disk)
  {
    && (forall b :: b in K ==> from <= b < sb.size && !Bit(sb, disk, b))
    && forall b, c: nat :: b in K && from <= c < b && !Bit(sb, disk, c) ==> c in K
  }

  lemma {:induction false} LowestTail(sb: Superblock, disk: seq<Block>, from: nat, K: set<nat>)
    requires GoodDisk(sb, disk) && LowestFrom(sb, disk, from, K) && from < sb.size
    ensures Bit(sb, disk, from) ==> LowestFrom(sb, disk, from + 1, K)
    ensures !Bit(sb, disk, from) ==> LowestFrom(sb, disk, from + 1, K - {from}) && (K == {} || from in K)
  {
    hide Bit;
    if b :| b in K { assert b == from || from < b; }
  }

  /** The lowest free blocks are determined by how many they are. */
  lemma {:induction false} LowestIsFirst(sb: Superblock, disk: seq<Block>, from: nat, k: int, K: set<nat>, b: nat)
    requires GoodDisk(sb, disk) && LowestFrom(sb, disk, from, K) && |K| <= k && b in K
    ensures b in FirstFree(sb, disk, from, k)
    decreases sb.size - from
  {
    hide Bit, LowestFrom, FirstFree;
    LowestBounds(sb, disk, from, K, b);
    FirstStep(sb, disk, from, k);
    LowestTail(sb, disk, from, K);
    CardinalityBound({b}, K);
    if Bit(sb, disk, from) {
      LowestIsFirst(sb, disk, from + 1, k, K, b);
    } else if b != from {
      LowestIsFirst(sb, disk, from + 1, k - 1, K - {from}, b);
    }
  }

  lemma {:induction false} LowestBounds(sb: Superblock, disk: seq<Block>, from: nat, K: set<nat>, b: nat)
    requires GoodDisk(sb, disk) && LowestFrom(sb, disk, from, K) && b in K
    ensures from <= b < sb.size && !Bit(sb, disk, b)
  {
    hide Bit;
  }

  lemma {:induction false} LowestAreFirst(sb: Superblock, disk: seq<Block>, k: int, K: set<nat>)
    requires LowestFree(sb, disk, K) && |K| <= k
    ensures K <= FirstFree(sb, disk, 0, k)
  {
    hide Bit, FirstFree;
    assert LowestFrom(sb, disk, 0, K);
    forall b | b in K ensures b in FirstFree(sb, disk, 0, k) {
      LowestIsFirst(sb, disk, 0, k, K, b);
    }
  }

  lemma {:induction false} FirstStep(sb: Superblock, disk: seq<Block>, from: nat, k: int)
    requires GoodDisk(sb, disk)
    ensures FirstFree(sb, disk, from, k) ==
            if k <= 0 || from >= sb.size then {}
            else if Bit(sb, disk, from) then FirstFree(sb, disk, from + 1, k)
            else {from} + FirstFree(sb, disk, from + 1, k - 1)
  {
    hide Bit;
  }

  lemma {:induction false} FirstFew(sb: Superblock, disk: seq<Block>, from: nat, k: int)
    requires GoodDisk(sb, disk) && k >= 0
    ensures |FirstFree(sb, disk, from, k)| <= k
    decreases sb.size - from
  {
    hide Bit;
    if k > 0 && from < sb.size {
      if Bit(sb, disk, from) {
        FirstFew(sb, disk, from + 1, k);
      } else {
        FirstFew(sb, disk, from + 1, k - 1);
        CardinalityUnion({from}, FirstFree(sb, disk, from + 1, k - 1));
      }
    }
  }

  lemma {:induction false} SameSize<T>(a: set<T>, b: set<T>)
    requires a <= b && |b| <= |a|
    ensures a == b
  {
    if x :| x in b && x !in a { CardinalityBound(a, b - {x}); }
  }

  /** How many sectors a write of n bytes at off logs in a file of the given size: the data sectors it touches, the
      table if it writes to it, the map blocks of the blocks it allocates, and the inode if the file gets longer. */
  ghost function LogNeed(sb: Superblock, disk: seq<Block>, size: nat, off: nat, n: nat): int
    requires GoodDisk(sb, disk)
  {
    var nb2 := Max(NBlocks(size), NBlocks(off + n));
    Turns(off, off + n) + (if nb2 > NBlocks(size) && nb2 > NDIRECT then 1 else 0)
    + |MapsOf(sb, FirstFree(sb, disk, 0, Grows(size, off, n)))| + (if off + n > size then 1 else 0)
  }

  lemma {:induction false} DisjointCount<T>(a: set<T>, b: set<T>)
    requires a !! b
    ensures |a + b| == |a| + |b|
  {
  }

  /** A write from the start of a transaction logs exactly so many sectors; one that stops has logged fewer. */
  lemma {:induction false} LogNeeded(sb: Superblock, disk: seq<Block>, l: set<nat>, x: Dinode, y: Dinode, i: nat,
                                     off: nat, n: nat, touched: set<nat>, K: set<nat>, done: bool)
    requires WriteLogged(sb, disk, {}, l, x, y, i, off, n, touched, K, done)
    ensures GoodDisk(sb, disk)
    ensures if done then |l| == LogNeed(sb, disk, x.size, off, n) else |l| < LogNeed(sb, disk, x.size, off, n)
    ensures done ==> K == FirstFree(sb, disk, 0, Grows(x.size, off, n))
  {
    hide Turns, Allocs, MapsOf, Bit, NBlocks, BitStart;
    LowestAreFirst(sb, disk, Grows(x.size, off, n), K);
    FirstFew(sb, disk, 0, Grows(x.size, off, n));
    var F := FirstFree(sb, disk, 0, Grows(x.size, off, n));
    if done { SameSize(K, F); }
    MapsInMap(sb, K, F);
    var t := TableWritten(y, NBlocks(x.size), Max(NBlocks(x.size), NBlocks(off + n)));
    var s := if off + n > x.size && done then {InodeBlock(i)} else {};
    if done {
      DisjointCount(touched, t);
      DisjointCount(touched + t, MapsOf(sb, K));
      DisjointCount(touched + t + MapsOf(sb, K), s);
      assert l == touched + t + MapsOf(sb, K) + s;
    } else {
      CardinalityUnion(touched, t);
      CardinalityUnion(touched + t, MapsOf(sb, K));
      CardinalityBound(l, touched + t + MapsOf(sb, K));
    }
  }

  /** Map blocks lie between the inodes and the data. */
  lemma {:induction false} MapsInMap(sb: Superblock, K: set<nat>, F: set<nat>)
    requires K <= F && forall b :: b in F ==> b < sb.size
    ensures |MapsOf(sb, K)| <= |MapsOf(sb, F)|
    ensures forall s :: s in MapsOf(sb, K) ==> BitStart(sb) <= s < DataStart(sb)
  {
    CardinalityBound(MapsOf(sb, K), MapsOf(sb, F));
  }

  /** A piece needs no more than the limit and the sector of the inode. */
  lemma {:induction false} PieceFits(sb: Superblock, disk: seq<Block>, size: nat, off: nat, m: nat)
    requires GoodDisk(sb, disk) && m <= MAXCHUNK && off <= size
    ensures LogNeed(sb, disk, size, off, m) <= PieceLimit(sb) + 1 <= R.LOGSIZE
  {
    hide Turns, Allocs, Bit;
    PieceCounts(off, m, size);
    var k := Grows(size, off, m);
    var F := FirstFree(sb, disk, 0, k);
    GrowsCount(size, off, m);
    FirstFew(sb, disk, 0, k);
    MapsCount(sb, F);
    CardinalityBound(MapsOf(sb, F), MapBlocks(sb));
  }

  /** What is free once the a lowest free blocks are taken: the next ones. */
  lemma {:induction false} FirstFreeRest(sb: Superblock, d0: seq<Block>, d1: seq<Block>, from: nat, a: int, k: int)
    requires GoodDisk(sb, d0) && GoodDisk(sb, d1) && k >= 0 && a >= 0
    requires forall c: nat :: from <= c < sb.size ==>
      (Bit(sb, d1, c) <==> Bit(sb, d0, c) || c in FirstFree(sb, d0, from, a))
    ensures FirstFree(sb, d1, from, k) == FirstFree(sb, d0, from, a + k) - FirstFree(sb, d0, from, a)
    ensures FirstFree(sb, d0, from, a) <= FirstFree(sb, d0, from, a + k)
    decreases sb.size - from
  {
    hide Bit;
    if from < sb.size {
      var A := FirstFree(sb, d0, from, a);
      var gap := !Bit(sb, d0, from) && a > 0;
      var b := if gap then a - 1 else a;
      var B := FirstFree(sb, d0, from + 1, b);
      if Bit(sb, d0, from) || a > 0 {
        assert Bit(sb, d1, from);
        forall c: nat | from + 1 <= c < sb.size ensures Bit(sb, d1, c) <==> Bit(sb, d0, c) || c in B {
          assert c in A <==> c in B;
        }
        FirstFreeRest(sb, d0, d1, from + 1, b, k);
      } else {
        SameFree(sb, d0, d1, from, k);
      }
    }
  }

  lemma {:induction false} SameFree(sb: Superblock, d0: seq<Block>, d1: seq<Block>, from: nat, k: int)
    requires GoodDisk(sb, d0) && GoodDisk(sb, d1)
    requires forall c: nat :: from <= c < sb.size ==> (Bit(sb, d1, c) <==> Bit(sb, d0, c))
    ensures FirstFree(sb, d1, from, k) == FirstFree(sb, d0, from, k)
    decreases sb.size - from
  {
    hide Bit, FirstFree;
    FirstStep(sb, d0, from, k);
    FirstStep(sb, d1, from, k);
    if k > 0 && from < sb.size {
      SameFree(sb, d0, d1, from + 1, k);
      SameFree(sb, d0, d1, from + 1, k - 1);
    }
  }

  /** The blocks that bytes i to i + n of a write at off take, of those free at its start. */
  function TakenBy(sb: Superblock, disk: seq<Block>, size: nat, off: nat, i: nat, n: nat): set<nat>
    requires GoodDisk(sb, disk)
  {
    FirstFree(sb, disk, 0, Grows(size, off, i + n)) - FirstFree(sb, disk, 0, Grows(size, off, i))
  }

  /** How many sectors the n bytes from the i-th on of a write at off log, seen from its start. */
  ghost function NeedAt(sb: Superblock, disk: seq<Block>, size: nat, off: nat, i: nat, n: nat): int
    requires GoodDisk(sb, disk)
  {
    var nb, nb2 := NBlocks(Max(size, off + i)), NBlocks(Max(size, off + i + n));
    Turns(off + i, off + i + n) + (if nb2 > nb && nb2 > NDIRECT then 1 else 0)
    + |MapsOf(sb, TakenBy(sb, disk, size, off, i, n))| + (if off + i + n > Max(size, off + i) then 1 else 0)
  }

  /** It is what the piece logs on the disk that the bytes before it have left. */
  lemma {:induction false} NeedThere(sb: Superblock, d0: seq<Block>, d1: seq<Block>, size: nat, off: nat, i: nat,
                                     n: nat)
    requires GoodDisk(sb, d0) && off <= size
    requires Marked(sb, d0, d1, FirstFree(sb, d0, 0, Grows(size, off, i)))
    ensures GoodDisk(sb, d1) && LogNeed(sb, d1, Max(size, off + i), off + i, n) == NeedAt(sb, d0, size, off, i, n)
  {
    hide Bit, MapsOf, FirstFree, Turns, Grows, NBlocks;
    BlocksMore(size, off, i, n, i + n);
    GrowsCount(size, off, i);
    GrowsCount(Max(size, off + i), off + i, n);
    FirstFreeRest(sb, d0, d1, 0, Grows(size, off, i), Grows(Max(size, off + i), off + i, n));
    MaxBlocks(Max(size, off + i), off + i + n);
  }

  /** And with the piece the blocks of all so far are taken. */
  lemma {:induction false} TakenMore(sb: Superblock, d0: seq<Block>, d1: seq<Block>, e: seq<Block>, size: nat, off: nat,
                                     i: nat, n: nat)
    requires GoodDisk(sb, d0) && off <= size
    requires Marked(sb, d0, d1, FirstFree(sb, d0, 0, Grows(size, off, i)))
    requires GoodDisk(sb, d1) && Marked(sb, d1, e, FirstFree(sb, d1, 0, Grows(Max(size, off + i), off + i, n)))
    ensures Marked(sb, d0, e, FirstFree(sb, d0, 0, Grows(size, off, i + n)))
  {
    hide Bit, FirstFree, Grows;
    BlocksMore(size, off, i, n, i + n);
    GrowsCount(size, off, i);
    GrowsCount(Max(size, off + i), off + i, n);
    FirstFreeRest(sb, d0, d1, 0, Grows(size, off, i), Grows(Max(size, off + i), off + i, n));
  }

  /** The piece of a write of len bytes at off that starts with byte i does not fit the log. */
  ghost predicate PieceTooBig(sb: Superblock, disk: seq<Block>, size: nat, off: nat, len: nat, i: nat)
    requires GoodDisk(sb, disk)
  {
    i < len && i % MAXCHUNK == 0 && NeedAt(sb, disk, size, off, i, Min(MAXCHUNK, len - i)) >= sb.nlog
  }

  /** Some piece that filewrite comes to does not fit the log. */
  ghost predicate LogTooSmall(sb: Superblock, disk: seq<Block>, size: nat, off: nat, len: nat)
    requires GoodDisk(sb, disk)
  {
    exists i: nat :: i < Accepted(off, len) && PieceTooBig(sb, disk, size, off, len, i)
  }

  /** With room for a piece in the log, every piece of every write fits. */
  lemma {:induction false} RoomyLog(sb: Superblock, disk: seq<Block>, size: nat, off: nat, len: nat)
    requires GoodDisk(sb, disk) && PieceLimit(sb) < sb.nlog - 1 && off <= size
    ensures !LogTooSmall(sb, disk, size, off, len)
  {
    hide NeedAt, Accepted, PieceLimit;
    forall i: nat | i < Accepted(off, len) ensures !PieceTooBig(sb, disk, size, off, len, i) {
      NeedFits(sb, disk, size, off, i, Min(MAXCHUNK, len - i));
    }
  }

  lemma {:induction false} NeedFits(sb: Superblock, disk: seq<Block>, size: nat, off: nat, i: nat, n: nat)
    requires GoodDisk(sb, disk) && off <= size && n <= MAXCHUNK
    ensures NeedAt(sb, disk, size, off, i, n) <= PieceLimit(sb) + 1
  {
    hide Turns, Bit, FirstFree, MapsOf, Grows, NBlocks;
    BlocksMore(size, off, i, n, i + n);
    PieceCounts(off + i, n, Max(size, off + i));
    GrowsCount(size, off, i);
    GrowsCount(Max(size, off + i), off + i, n);
    var m := FirstSplit(sb, disk, 0, Grows(size, off, i), Grows(Max(size, off + i), off + i, n));
    FirstFew(sb, disk, m, Grows(Max(size, off + i), off + i, n));
    var K := TakenBy(sb, disk, size, off, i, n);
    MapsCount(sb, K);
    CardinalityBound(MapsOf(sb, K), MapBlocks(sb));
    assert Grows(Max(size, off + i), off + i, n) <= 4 by { GrowsIs(Max(size, off + i), off + i, n); }
  }

  lemma {:induction false} GrowsIs(size: nat, off: nat, n: nat)
    ensures Grows(size, off, n) == Allocs(NBlocks(size), Max(NBlocks(size), NBlocks(off + n)))
  {
  }

  /** Behind the a lowest free blocks, the next k are the lowest from some block on. */
  lemma {:induction false} FirstSplit(sb: Superblock, disk: seq<Block>, from: nat, a: int, k: int) returns (m: nat)
    requires GoodDisk(sb, disk) && a >= 0 && k >= 0
    ensures FirstFree(sb, disk, from, a + k) - FirstFree(sb, disk, from, a) == FirstFree(sb, disk, m, k)
    decreases sb.size - from
  {
    hide Bit, FirstFree;
    FirstStep(sb, disk, from, a + k);
    FirstStep(sb, disk, from, a);
    FirstStep(sb, disk, from, k);
    if from >= sb.size || a == 0 {
      m := from;
    } else {
      m := FirstSplit(sb, disk, from + 1, if Bit(sb, disk, from) then a else a - 1, k);
    }
  }

  lemma {:induction false} MaxBlocks(a: nat, b: nat)
    ensures Max(NBlocks(a), NBlocks(b)) == NBlocks(Max(a, b))
  {
  }

  lemma {:induction false} GrowsCount(size: nat, off: nat, m: nat)
    ensures 0 <= Grows(size, off, m)
  {
  }

  /** The limit is reached: where the map blocks of the four lowest free blocks are as many as can be, by a piece that
      starts in the last direct block and takes the first three indirect ones. */
  lemma {:induction false} PieceLimitReached(sb: Superblock, disk: seq<Block>)
    requires GoodDisk(sb, disk) && |MapsOf(sb, FirstFree(sb, disk, 0, 4))| == Min(4, sb.size / BPB + 1)
    ensures var at := NDIRECT * BSIZE - BSIZE / 2;
            LogNeed(sb, disk, at, at, MAXCHUNK) == PieceLimit(sb) + 1
  {
    hide MapsOf, FirstFree;
    assert Grows(NDIRECT * BSIZE - BSIZE / 2, NDIRECT * BSIZE - BSIZE / 2, MAXCHUNK) == 4;
  }

  // ----- what the log has committed -----

  /** What a settled disk means: the inodes, their extents, and who owns each block. */
  datatype View = View(inodes: seq<Dinode>, ext: seq<Extent>, owner: map<nat, Ref>)

  /** After each committed transaction the disk was settled, with the view of that moment. */
  ghost predicate History(sb: Superblock, boot: seq<Block>, done: seq<seq<C.Write>>, views: seq<View>) {
    && |views| == |done| + 1
    && forall k :: 0 <= k < |views| ==>
         SettledDisk(sb, R.Direct(boot, done[..k]), views[k].inodes, views[k].ext, views[k].owner)
  }

  ghost function ViewOf(fs: Fs): View
    reads fs
  {
    View(fs.inodes, fs.ext, fs.owner)
  }

  lemma {:induction false} HistoryMore(sb: Superblock, boot: seq<Block>, done: seq<seq<C.Write>>, views: seq<View>,
                                       tx: seq<C.Write>, v: View)
    requires History(sb, boot, done, views)
    requires SettledDisk(sb, R.Direct(boot, done + [tx]), v.inodes, v.ext, v.owner)
    ensures History(sb, boot, done + [tx], views + [v])
  {
    hide SettledDisk, R.Direct;
    var more, vs := done + [tx], views + [v];
    assert more[..|more|] == more;
    forall k | 0 <= k < |vs| ensures SettledDisk(sb, R.Direct(boot, more[..k]), vs[k].inodes, vs[k].ext, vs[k].owner) {
      assert k < |views| ==> more[..k] == done[..k] && vs[k] == views[k];
    }
  }

  /** The disk between transactions is that of the committed ones. */
  lemma {:induction false} IdleDisk(sb: Superblock, boot: seq<Block>, done: seq<seq<C.Write>>, disk: seq<Block>)
    requires Recorded(sb, boot, done, [], disk, {})
    ensures disk == R.Direct(boot, done)
  {
    DirectStep(boot, done, []);
  }

  /** File i of one disk is c with src written at off, and every other file is as it was. */
  ghost predicate Stage(i: nat, disk: seq<Block>, inodes: seq<Dinode>, d: seq<Block>, xs: seq<Dinode>, off: nat,
                        src: seq<byte>)
  {
    && i < |inodes| == |xs|
    && (if off > inodes[i].size then File(d, xs[i]) == File(disk, inodes[i])
        else File(d, xs[i]) == Splice(File(disk, inodes[i]), off, src))
    && forall j :: 0 <= j < |xs| && j != i ==> xs[j] == inodes[j] && File(d, xs[j]) == File(disk, inodes[j])
  }

  // ----- filewrite -----

  /** One piece of filewrite: begin_trans, ilock, writei, iunlock, commit_trans. It panics exactly if there are fewer
      free blocks than it allocates, or if it needs as many sectors as the log has blocks. */
  method WritePiece(fs: Fs, f: OpenFile, piece: seq<byte>) returns (r: WriteResult)
    requires fs.Settled() && fs.Idle() && fs.Tracked() && fs.sb.nlog > 0
    requires fs.Current(f.ip) && f.ip.d.kind != 0 && |piece| <= MAXCHUNK
    modifies fs, f, f.ip
    ensures fs.boot == old(fs.boot)
    ensures r.DeviceWrite? <==> old(f.ip.d.kind) == T_DEV
    ensures r.WriteError? <==>
      old(f.ip.d.kind) != T_DEV && (old(f.off) > old(f.ip.d.size) || old(f.off) + |piece| > MAXFILE * BSIZE)
    ensures r.Panicked? <==>
      && old(f.ip.d.kind) != T_DEV && old(f.off) <= old(f.ip.d.size) && old(f.off) + |piece| <= MAXFILE * BSIZE
      && (|| |old(fs.owner)| + Grows(old(f.ip.d.size), old(f.off), |piece|) > DataCount(fs.sb)
          || LogNeed(fs.sb, old(fs.disk), old(f.ip.d.size), old(f.off), |piece|) >= fs.sb.nlog)
    ensures r.Panicked? ==> fs.done == old(fs.done) && (fs.DiskFull() || PieceLimit(fs.sb) >= fs.sb.nlog - 1)
    ensures r.Panicked? ==> !fs.LogPanics() || PieceLimit(fs.sb) >= fs.sb.nlog - 1
    ensures !r.Panicked? ==>
      && fs.Settled() && fs.Idle() && fs.Tracked() && |fs.done| == |old(fs.done)| + 1 && old(fs.done) <= fs.done
      && fs.Current(f.ip) && fs.OthersUntouched(f.ip) && f.ip.d.kind == old(f.ip.d.kind)
    ensures r.WriteError? || r.DeviceWrite? ==>
      && f.off == old(f.off) && f.ip.d == old(f.ip.d) && fs.disk == old(fs.disk) && fs.inodes == old(fs.inodes)
      && fs.owner == old(fs.owner)
    ensures r.Wrote? ==>
      && r.n == |piece| && old(f.off) <= old(f.ip.d.size) && f.off == old(f.off) + |piece|
      && f.ip.d.size == Max(old(f.ip.d.size), f.off)
      && |fs.owner| == |old(fs.owner)| + Grows(old(f.ip.d.size), old(f.off), |piece|) <= DataCount(fs.sb)
      && Marked(fs.sb, old(fs.disk), fs.disk,
                FirstFree(fs.sb, old(fs.disk), 0, Grows(old(f.ip.d.size), old(f.off), |piece|)))
      && File(fs.disk, f.ip.d) == Splice(File(old(fs.disk), old(f.ip.d)), old(f.off), piece)
  {
    hide WriteLogged, File, Splice, SettledDisk, Recorded, OutsideLog, NoneFree, PieceLimit, LogNeed, Grows, Marked,
         FirstFree;
    SettledSize(fs.sb, fs.disk, fs.inodes, fs.ext, fs.owner);
    fs.BeginTrans();
    ghost var touched, K;
    r, touched, K := fs.Writei(f.ip, piece, f.off);
    if r.Panicked? || r.Wrote? {
      LogNeeded(fs.sb, old(fs.disk), fs.logged, old(f.ip.d), f.ip.d, f.ip.inum, f.off, |piece|, touched, K, r.Wrote?);
      PieceFits(fs.sb, old(fs.disk), old(f.ip.d.size), f.off, |piece|);
    }
    if r.Panicked? { return; }
    LogHolds(fs.sb, fs.boot, fs.done, fs.calls, fs.disk, fs.logged);
    SettledSize(fs.sb, fs.disk, fs.inodes, fs.ext, fs.owner);
    if r.Wrote? && r.n > 0 {
      f.off := f.off + r.n;
    }
    fs.CommitTrans();
  }

  lemma {:induction false} LogHolds(sb: Superblock, boot: seq<Block>, done: seq<seq<C.Write>>, calls: seq<C.Write>,
                                    disk: seq<Block>, logged: set<nat>)
    requires Recorded(sb, boot, done, calls, disk, logged) && sb.nlog > 0
    ensures |logged| < sb.nlog
  {
    assert calls == [] ==> logged == {};
  }

  /** Without the inode, a piece stays below LOGSIZE on any disk. */
  lemma {:induction false} PieceLimitSmall(sb: Superblock)
    ensures PieceLimit(sb) < R.LOGSIZE && (sb.size < BPB ==> PieceLimit(sb) == 6)
  {
  }

  lemma {:induction false} SettledSize(sb: Superblock, disk: seq<Block>, inodes: seq<Dinode>, ext: seq<Extent>,
                                       owner: map<nat, Ref>)
    requires SettledDisk(sb, disk, inodes, ext, owner)
    ensures GoodDisk(sb, disk) && |inodes| == |ext| == sb.ninodes
  {
  }

  /** How many bytes of a write of n at off go in before a piece no longer fits in a file. */
  function Accepted(off: nat, n: nat): (k: nat)
    ensures k <= n
    decreases n
  {
    var n1 := if n < MAXCHUNK then n else MAXCHUNK;
    if n == 0 || off + n1 > MAXFILE * BSIZE then 0 else n1 + Accepted(off + n1, n - n1)
  }

  /** All of it, exactly if the whole write fits; else whole pieces, up to one that does not. */
  lemma {:induction false} AcceptedExactly(off: nat, n: nat)
    ensures var k := Accepted(off, n);
            && (k == n <==> n == 0 || off + n <= MAXFILE * BSIZE)
            && (k < n ==> off + k + (if n - k < MAXCHUNK then n - k else MAXCHUNK) > MAXFILE * BSIZE)
            && (k < n ==> exists q: nat :: k == q * MAXCHUNK)
            && (k > 0 ==> off + k <= MAXFILE * BSIZE)
    decreases n
  {
    var n1 := if n < MAXCHUNK then n else MAXCHUNK;
    if n == 0 || off + n1 > MAXFILE * BSIZE {
      assert 0 == 0 * MAXCHUNK;
    } else {
      AcceptedExactly(off + n1, n - n1);
      if Accepted(off + n1, n - n1) < n - n1 {
        var q: nat :| Accepted(off + n1, n - n1) == q * MAXCHUNK;
        assert Accepted(off, n) == (q + 1) * MAXCHUNK;
      }
    }
  }

  lemma {:induction false} AcceptedStart(off: nat, n: nat)
    ensures Accepted(off + 0, n - 0) == Accepted(off, n) && Accepted(off, 0) == 0
  {
  }

  lemma {:induction false} AcceptedStep(off: nat, i: nat, n: nat)
    requires i < n
    ensures var q := i + if n - i > MAXCHUNK then MAXCHUNK else n - i;
            if off + q > MAXFILE * BSIZE then Accepted(off + i, n - i) == 0
            else Accepted(off + i, n - i) == q - i + Accepted(off + q, n - q)
  {
  }

  /** Whole pieces of n bytes, or all of them. */
  ghost predicate Whole(k: nat, n: nat) {
    k <= n && (k % MAXCHUNK == 0 || k == n)
  }

  lemma {:induction false} NonePieces(n: nat)
    ensures Whole(0, n)
  {
  }

  lemma {:induction false} WholeMeans(k: nat, n: nat)
    requires Whole(k, n) && k < n
    ensures k % MAXCHUNK == 0
  {
  }

  lemma {:induction false} TooBigMeans(sb: Superblock, disk: seq<Block>, size: nat, off: nat, len: nat, i: nat)
    requires GoodDisk(sb, disk) && i < Accepted(off, len) && PieceTooBig(sb, disk, size, off, len, i)
    ensures LogTooSmall(sb, disk, size, off, len)
  {
    hide PieceTooBig, Accepted;
  }

  lemma {:induction false} WholeNext(k: nat, n: nat)
    requires Whole(k, n) && k < n
    ensures Whole(if n - k > MAXCHUNK then k + MAXCHUNK else n, n)
  {
  }

  /** Whole pieces of addr are written at off of file i, and nothing else has changed. */
  ghost predicate InPieces(i: nat, disk: seq<Block>, inodes: seq<Dinode>, d: seq<Block>, xs: seq<Dinode>, off: nat,
                           addr: seq<byte>)
  {
    exists n: nat :: Whole(n, |addr|) && Stage(i, disk, inodes, d, xs, off, addr[..n])
  }

  /** So it is after each transaction from the given one on. */
  ghost predicate Stages(i: nat, disk: seq<Block>, inodes: seq<Dinode>, boot: seq<Block>, done: seq<seq<C.Write>>,
                         views: seq<View>, from: nat, off: nat, addr: seq<byte>)
  {
    forall k :: from <= k < |views| ==>
      k <= |done| && InPieces(i, disk, inodes, R.Direct(boot, done[..k]), views[k].inodes, off, addr)
  }

  lemma {:induction false} StagesMore(i: nat, disk: seq<Block>, inodes: seq<Dinode>, boot: seq<Block>,
                                      done: seq<seq<C.Write>>, views: seq<View>, from: nat, off: nat, addr: seq<byte>,
                                      tx: seq<C.Write>, v: View, n: nat)
    requires Stages(i, disk, inodes, boot, done, views, from, off, addr) && |views| == |done| + 1
    requires Whole(n, |addr|)
    requires Stage(i, disk, inodes, R.Direct(boot, done + [tx]), v.inodes, off, addr[..n])
    ensures Stages(i, disk, inodes, boot, done + [tx], views + [v], from, off, addr)
  {
    hide Stage, R.Direct;
    var more, vs := done + [tx], views + [v];
    assert more[..|more|] == more;
    forall k | from <= k < |vs|
      ensures k <= |more| && InPieces(i, disk, inodes, R.Direct(boot, more[..k]), vs[k].inodes, off, addr)
    {
      assert k < |views| ==> more[..k] == done[..k] && vs[k] == views[k];
    }
  }

  /** One transaction more in the history, on the disk it left. */
  lemma {:induction false} TransactionDone(sb: Superblock, i: nat, disk: seq<Block>, inodes: seq<Dinode>,
                                           boot: seq<Block>, before: seq<seq<C.Write>>, done: seq<seq<C.Write>>,
                                           views: seq<View>, from: nat, off: nat, addr: seq<byte>, d: seq<Block>,
                                           v: View, n: nat)
    requires History(sb, boot, before, views) && Stages(i, disk, inodes, boot, before, views, from, off, addr)
    requires |done| == |before| + 1 && before <= done && Recorded(sb, boot, done, [], d, {})
    requires SettledDisk(sb, d, v.inodes, v.ext, v.owner)
    requires Whole(n, |addr|) && Stage(i, disk, inodes, d, v.inodes, off, addr[..n])
    ensures History(sb, boot, done, views + [v]) && Stages(i, disk, inodes, boot, done, views + [v], from, off, addr)
  {
    hide SettledDisk, Stage, R.Direct, Recorded;
    var tx := done[|before|];
    assert done == before + [tx];
    IdleDisk(sb, boot, done, d);
    HistoryMore(sb, boot, before, views, tx, v);
    StagesMore(i, disk, inodes, boot, before, views, from, off, addr, tx, v, n);
  }

  /** filewrite: the pieces compose to one write of the bytes that fit, all of them exactly if the whole write fits.
      Every transaction leaves a settled disk with whole pieces in the file. It panics exactly if there are fewer free
      data blocks than those bytes need, or if one of their pieces needs as many sectors as the log has blocks. The
      latter never happens if the log has room for a piece. */
  method Filewrite(fs: Fs, f: OpenFile, addr: seq<byte>, ghost views: seq<View>)
    returns (r: FileWriteResult, ghost after: seq<View>)
    requires fs.Settled() && fs.Idle() && fs.Tracked() && fs.sb.nlog > 0 && fs.Current(f.ip) && f.ip.d.kind != 0
    requires History(fs.sb, fs.boot, fs.done, views)
    modifies fs, f, f.ip
    ensures fs.boot == old(fs.boot) && old(fs.done) <= fs.done
    ensures views <= after && History(fs.sb, fs.boot, fs.done, after)
    ensures Stages(f.ip.inum, old(fs.disk), old(fs.inodes), fs.boot, fs.done, after, |views|, old(f.off), addr)
    ensures r.Panics? ==> fs.DiskFull() || PieceLimit(fs.sb) >= fs.sb.nlog - 1
    ensures GoodDisk(fs.sb, old(fs.disk))
    ensures r.Panics? <==>
      && old(f.ip.d.kind) != T_DEV && old(f.off) <= old(f.ip.d.size)
      && (|| |old(fs.owner)| + Grows(old(f.ip.d.size), old(f.off), Accepted(old(f.off), |addr|)) > DataCount(fs.sb)
          || LogTooSmall(fs.sb, old(fs.disk), old(f.ip.d.size), old(f.off), |addr|))
    ensures r.Panics? ==> !fs.LogPanics() || PieceLimit(fs.sb) >= fs.sb.nlog - 1
    ensures !r.Panics? && old(f.ip.d.kind) != T_DEV && old(f.off) <= old(f.ip.d.size) ==>
      |fs.owner| == |old(fs.owner)| + Grows(old(f.ip.d.size), old(f.off), Accepted(old(f.off), |addr|))
        <= DataCount(fs.sb)
    ensures !r.Panics? && (old(f.ip.d.kind) == T_DEV || old(f.off) > old(f.ip.d.size)) ==> fs.owner == old(fs.owner)
    ensures !r.Panics? ==>
      && fs.Settled() && fs.Idle() && fs.Tracked() && fs.Current(f.ip) && fs.OthersUntouched(f.ip)
      && f.ip.d.kind == old(f.ip.d.kind)
    ensures old(f.ip.d.kind) != T_DEV && !r.Panics? ==>
      var k := if old(f.off) > old(f.ip.d.size) then 0 else Accepted(old(f.off), |addr|);
      && r == (if k == |addr| then Done(|addr|) else Failed)
      && f.off == old(f.off) + k
      && (old(f.off) > old(f.ip.d.size) ==> File(fs.disk, f.ip.d) == File(old(fs.disk), old(f.ip.d)))
      && (old(f.off) <= old(f.ip.d.size) ==>
            File(fs.disk, f.ip.d) == Splice(File(old(fs.disk), old(f.ip.d)), old(f.off), addr[..k]))
  {
    hide File, Splice, Accepted, SettledDisk, Recorded, NoneFree, PieceLimit, History, Stages, Stage, Whole, LogNeed,
         Grows, Max, HeaderFull, Held, Marked, FirstFree, PieceTooBig, LogTooSmall;
    after := views;
    var i := 0;
    ghost var off, inum, size := f.off, f.ip.inum, f.ip.d.size;
    ghost var plain := f.ip.d.kind != T_DEV && off <= size;
    SettledSize(fs.sb, fs.disk, fs.inodes, fs.ext, fs.owner);
    OwnersFit(fs.sb, fs.disk, fs.inodes, fs.ext, fs.owner);
    HeldStart(fs.sb, plain, size, off, |addr|, fs.disk, fs.owner);
    AcceptedStart(off, |addr|);
    NonePieces(|addr|);
    NoStages(inum, fs.disk, fs.inodes, fs.boot, fs.done, views, off, addr);
    StageStart(inum, fs.disk, fs.inodes, off, addr);
    while i < |addr|
      invariant 0 <= i <= |addr| && Whole(i, |addr|) && f.off == off + i
      invariant fs.boot == old(fs.boot) && old(fs.done) <= fs.done
      invariant views <= after && History(fs.sb, fs.boot, fs.done, after)
      invariant Stages(inum, old(fs.disk), old(fs.inodes), fs.boot, fs.done, after, |views|, off, addr)
      invariant fs.Settled() && fs.Idle() && fs.Tracked() && fs.Current(f.ip) && f.ip.d.kind == old(f.ip.d.kind)
      invariant Stage(inum, old(fs.disk), old(fs.inodes), fs.disk, fs.inodes, off, addr[..i])
      invariant Held(fs.sb, plain, size, off, |addr|, i, f.ip.d.size, old(fs.disk), old(fs.owner), fs.disk, fs.owner)
      invariant Accepted(off, |addr|) == i + Accepted(off + i, |addr| - i)
    {
      var n1 := if |addr| - i > MAXCHUNK then MAXCHUNK else |addr| - i;
      AcceptedStep(off, i, |addr|);
      WholeNext(i, |addr|);
      WholeMeans(i, |addr|);
      HeldNext(fs.sb, plain, size, off, |addr|, i, n1, Accepted(off, |addr|), f.ip.d.size, old(fs.disk), old(fs.owner),
               fs.disk, fs.owner);
      ghost var before, d, xs, o, now := fs.done, fs.disk, fs.inodes, fs.owner, f.ip.d.size;
      var w := WritePiece(fs, f, addr[i..i + n1]);
      if w.Panicked? {
        if PieceTooBig(fs.sb, old(fs.disk), size, off, |addr|, i) {
          TooBigMeans(fs.sb, old(fs.disk), size, off, |addr|, i);
        }
        return Panics, after;
      }
      if w.Wrote? {
        HeldMore(fs.sb, size, off, |addr|, i, n1, now, old(fs.disk), old(fs.owner), d, o, fs.disk, fs.owner);
      }
      StageMore(inum, old(fs.disk), old(fs.inodes), d, xs, fs.disk, fs.inodes, off, addr, i,
                if w.Wrote? then n1 else 0);
      if w.Wrote? {
        i := i + w.n;
      }
      TransactionDone(fs.sb, inum, old(fs.disk), old(fs.inodes), fs.boot, before, fs.done, after, |views|, off, addr,
                      fs.disk, ViewOf(fs), i);
      after := after + [ViewOf(fs)];
      if !w.Wrote? {
        HeldMeans(fs.sb, plain, size, off, |addr|, i, f.ip.d.size, old(fs.disk), old(fs.owner), fs.disk, fs.owner);
        StageMeans(inum, old(fs.disk), old(fs.inodes), fs.disk, fs.inodes, off, addr[..i]);
        return if w.DeviceWrite? then ToDevice else Failed, after;
      }
    }
    AcceptedStart(off + i, 0);
    HeldMeans(fs.sb, plain, size, off, |addr|, i, f.ip.d.size, old(fs.disk), old(fs.owner), fs.disk, fs.owner);
    StageMeans(inum, old(fs.disk), old(fs.inodes), fs.disk, fs.inodes, off, addr[..i]);
    return Done(|addr|), after;
  }

  /** Two writes one after the other allocate what one write of all of it does. */
  lemma {:induction false} BlocksMore(size: nat, off: nat, i: nat, n: nat, k: nat)
    requires off <= size
    ensures off + i <= Max(size, off + i) && Max(Max(size, off + i), off + i + n) == Max(size, off + (i + n))
    ensures Grows(size, off, i) + Grows(Max(size, off + i), off + i, n) == Grows(size, off, i + n)
    ensures i + n <= k ==> Grows(size, off, i + n) <= Grows(size, off, k)
  {
    assert NBlocks(Max(size, off + i)) == Max(NBlocks(size), NBlocks(off + i));
  }

  /** Where a write of len bytes at off stands after i of them, seen from its start: the size of the file, the blocks
      that are held and which were taken, and that the log had room so far; nothing changes for a device or behind the
      end of the file. */
  ghost predicate Held(sb: Superblock, plain: bool, size: nat, off: nat, len: nat, i: nat, now: nat, d0: seq<Block>,
                       before: map<nat, Ref>, d: seq<Block>, owner: map<nat, Ref>)
  {
    if plain then
      && off <= size && now == Max(size, off + i) && |owner| == |before| + Grows(size, off, i) <= DataCount(sb)
      && GoodDisk(sb, d0) && Marked(sb, d0, d, FirstFree(sb, d0, 0, Grows(size, off, i)))
      && forall j: nat :: j < i ==> !PieceTooBig(sb, d0, size, off, len, j)
    else i == 0 && now == size && owner == before
  }

  lemma {:induction false} HeldStart(sb: Superblock, plain: bool, size: nat, off: nat, len: nat, d: seq<Block>,
                                     owner: map<nat, Ref>)
    requires |owner| <= DataCount(sb) && (plain ==> off <= size) && GoodDisk(sb, d)
    ensures Held(sb, plain, size, off, len, 0, size, d, owner, d, owner)
  {
    hide Bit, PieceTooBig;
    if plain {
      assert Grows(size, off, 0) == 0;
    }
  }

  /** Before the piece of n bytes from byte i on: what it needs, of k bytes in all. */
  lemma {:induction false} HeldNext(sb: Superblock, plain: bool, size: nat, off: nat, len: nat, i: nat, n: nat, k: nat,
                                    now: nat, d0: seq<Block>, before: map<nat, Ref>, d: seq<Block>,
                                    owner: map<nat, Ref>)
    requires Held(sb, plain, size, off, len, i, now, d0, before, d, owner) && i < len && n == Min(MAXCHUNK, len - i)
    requires i % MAXCHUNK == 0
    ensures !plain ==> i == 0 && now == size && owner == before
    ensures plain ==>
      && off + i <= now && GoodDisk(sb, d0) && GoodDisk(sb, d)
      && (LogNeed(sb, d, now, off + i, n) >= sb.nlog <==> PieceTooBig(sb, d0, size, off, len, i))
      && (|owner| + Grows(now, off + i, n) > DataCount(sb) && i + n <= k ==>
            |before| + Grows(size, off, k) > DataCount(sb))
  {
    hide Bit, LogNeed, NeedAt, FirstFree, Marked, Grows;
    if plain {
      BlocksMore(size, off, i, n, k);
      NeedThere(sb, d0, d, size, off, i, n);
    }
  }

  /** After it. */
  lemma {:induction false} HeldMore(sb: Superblock, size: nat, off: nat, len: nat, i: nat, n: nat, now: nat,
                                    d0: seq<Block>, before: map<nat, Ref>, d: seq<Block>, owner: map<nat, Ref>,
                                    e: seq<Block>, o: map<nat, Ref>)
    requires Held(sb, true, size, off, len, i, now, d0, before, d, owner) && i < len && n == Min(MAXCHUNK, len - i)
    requires i % MAXCHUNK == 0 && !PieceTooBig(sb, d0, size, off, len, i)
    requires GoodDisk(sb, d) && |o| == |owner| + Grows(now, off + i, n) <= DataCount(sb)
    requires Marked(sb, d, e, FirstFree(sb, d, 0, Grows(now, off + i, n)))
    ensures Held(sb, true, size, off, len, i + n, Max(now, off + i + n), d0, before, e, o)
  {
    hide NeedAt, FirstFree, Marked, Grows;
    BlocksMore(size, off, i, n, i + n);
    TakenMore(sb, d0, d, e, size, off, i, n);
    forall j: nat | j < i + n ensures !PieceTooBig(sb, d0, size, off, len, j) {
      if i < j && j % MAXCHUNK == 0 { NotBetween(i, j); }
    }
  }

  lemma {:induction false} NotBetween(i: nat, j: nat)
    requires i < j && i % MAXCHUNK == 0 && j % MAXCHUNK == 0
    ensures j >= i + MAXCHUNK
  {
  }

  /** At the end, with all k bytes that fit. */
  lemma {:induction false} HeldMeans(sb: Superblock, plain: bool, size: nat, off: nat, len: nat, i: nat, now: nat,
                                     d0: seq<Block>, before: map<nat, Ref>, d: seq<Block>, owner: map<nat, Ref>)
    requires Held(sb, plain, size, off, len, i, now, d0, before, d, owner) && GoodDisk(sb, d0)
    ensures if plain then off <= size && |owner| == |before| + Grows(size, off, i) <= DataCount(sb)
            else i == 0 && now == size && owner == before
    ensures plain && Accepted(off, len) <= i ==> !LogTooSmall(sb, d0, size, off, len)
  {
    hide PieceTooBig, FirstFree, Marked, Grows, Accepted;
  }

  lemma {:induction false} OwnersFit(sb: Superblock, disk: seq<Block>, inodes: seq<Dinode>, ext: seq<Extent>,
                                     owner: map<nat, Ref>)
    requires SettledDisk(sb, disk, inodes, ext, owner)
    ensures |owner| <= DataCount(sb)
  {
    hide FsInv;
    OwnedCount(sb, disk, inodes, ext, owner);
  }

  lemma {:induction false} StageStart(i: nat, disk: seq<Block>, inodes: seq<Dinode>, off: nat, addr: seq<byte>)
    requires i < |inodes|
    ensures Stage(i, disk, inodes, disk, inodes, off, addr[..0])
  {
    if off <= inodes[i].size {
      SpliceNothing(File(disk, inodes[i]), off);
    }
  }

  /** The next n bytes, or none. */
  lemma {:induction false} StageMore(i: nat, disk: seq<Block>, inodes: seq<Dinode>, d: seq<Block>, xs: seq<Dinode>,
                                     e: seq<Block>, ys: seq<Dinode>, off: nat, addr: seq<byte>, p: nat, n: nat)
    requires p + n <= |addr| && Stage(i, disk, inodes, d, xs, off, addr[..p]) && |ys| == |xs|
    requires forall j :: 0 <= j < |ys| && j != i ==> ys[j] == xs[j] && File(e, ys[j]) == File(d, xs[j])
    requires if n == 0 then File(e, ys[i]) == File(d, xs[i])
             else off <= inodes[i].size && off + p <= xs[i].size
                  && File(e, ys[i]) == Splice(File(d, xs[i]), off + p, addr[p..p + n])
    ensures Stage(i, disk, inodes, e, ys, off, addr[..p + n])
  {
    hide Byte, Splice;
    if n > 0 {
      SpliceTwice(File(disk, inodes[i]), off, addr[..p], addr[p..p + n]);
      assert addr[..p] + addr[p..p + n] == addr[..p + n];
    }
  }

  lemma {:induction false} StageMeans(i: nat, disk: seq<Block>, inodes: seq<Dinode>, d: seq<Block>, xs: seq<Dinode>,
                                      off: nat, src: seq<byte>)
    requires Stage(i, disk, inodes, d, xs, off, src)
    ensures i < |inodes| == |xs|
    ensures if off > inodes[i].size then File(d, xs[i]) == File(disk, inodes[i])
            else File(d, xs[i]) == Splice(File(disk, inodes[i]), off, src)
    ensures forall j :: 0 <= j < |xs| && j != i ==> xs[j] == inodes[j] && File(d, xs[j]) == File(disk, inodes[j])
  {
    hide File, Splice;
  }

  lemma {:induction false} NoStages(i: nat, disk: seq<Block>, inodes: seq<Dinode>, boot: seq<Block>,
                                    done: seq<seq<C.Write>>, views: seq<View>, off: nat, addr: seq<byte>)
    ensures Stages(i, disk, inodes, boot, done, views, |views|, off, addr)
  {
  }

  /** The open files are of inodes in use, with one in-memory copy for each. */
  ghost predicate OpenOn(fs: Fs, files: seq<OpenFile>)
    reads fs, files, set f | f in files :: f.ip
  {
    && (forall f :: f in files ==> fs.Current(f.ip) && f.ip.d.kind != 0)
    && forall f, g :: f in files && g in files && f.ip.inum == g.ip.inum ==> f.ip == g.ip
  }

  /** Blocks enough for all the writes, wherever they go: those of the bytes, one more for a start within a block, and
      a table. */
  function Room(data: seq<seq<byte>>): nat {
    if data == [] then 0 else Room(data[..|data| - 1]) + NBlocks(|data[|data| - 1]|) + 2
  }

  lemma {:induction false} RoomMore(data: seq<seq<byte>>, n: nat)
    requires n < |data|
    ensures Room(data[..n + 1]) == Room(data[..n]) + NBlocks(|data[n]|) + 2 <= Room(data)
    decreases |data|
  {
    assert data[..n + 1][..n] == data[..n];
    if n + 1 < |data| {
      var init := data[..|data| - 1];
      assert init[..n] == data[..n] && init[..n + 1] == data[..n + 1];
      RoomMore(init, n);
    } else {
      assert data[..n + 1] == data;
    }
  }

  lemma {:induction false} RoomNone(data: seq<seq<byte>>)
    ensures Room(data[..0]) == 0
  {
  }

  lemma {:induction false} RoomForOne(size: nat, off: nat, n: nat)
    requires off <= size
    ensures Grows(size, off, Accepted(off, n)) <= NBlocks(n) + 2
  {
    hide Accepted;
  }

  /** filewrite after filewrite, on any files: each goes on with the history of settled disks. All of them return if the
      log has room for a piece and enough blocks are free. */
  method WriteMany(fs: Fs, files: seq<OpenFile>, data: seq<seq<byte>>, ghost views: seq<View>)
    returns (n: nat, ghost after: seq<View>)
    requires fs.Settled() && fs.Idle() && fs.Tracked() && fs.sb.nlog > 0 && OpenOn(fs, files) && |files| == |data|
    requires History(fs.sb, fs.boot, fs.done, views)
    modifies fs, files, set f | f in files :: f.ip
    ensures n <= |files| && fs.boot == old(fs.boot) && old(fs.done) <= fs.done
    ensures views <= after && History(fs.sb, fs.boot, fs.done, after)
    ensures n < |files| ==>
      && (fs.DiskFull() || PieceLimit(fs.sb) >= fs.sb.nlog - 1)
      && (|old(fs.owner)| + Room(data) > DataCount(fs.sb) || PieceLimit(fs.sb) >= fs.sb.nlog - 1)
    ensures n == |files| ==> fs.Settled() && fs.Idle() && fs.Tracked() && OpenOn(fs, files)
  {
    hide SettledDisk, Recorded, NoneFree, PieceLimit, History, Stages, File, Splice, Accepted, Grows, HeaderFull, Room,
         NBlocks, LogTooSmall;
    after := views;
    n := 0;
    RoomNone(data);
    while n < |files|
      invariant n <= |files| && fs.boot == old(fs.boot) && old(fs.done) <= fs.done
      invariant |fs.owner| <= |old(fs.owner)| + Room(data[..n])
      invariant fs.Settled() && fs.Idle() && fs.Tracked() && OpenOn(fs, files)
      invariant views <= after && History(fs.sb, fs.boot, fs.done, after)
    {
      var r;
      RoomMore(data, n);
      SettledSize(fs.sb, fs.disk, fs.inodes, fs.ext, fs.owner);
      if files[n].off <= files[n].ip.d.size && PieceLimit(fs.sb) < fs.sb.nlog - 1 {
        RoomyLog(fs.sb, fs.disk, files[n].ip.d.size, files[n].off, |data[n]|);
      }
      if files[n].off <= files[n].ip.d.size { RoomForOne(files[n].ip.d.size, files[n].off, |data[n]|); }
      label before:
      r, after := Filewrite(fs, files[n], data[n], after);
      if r.Panics? { return; }
      forall f | f in files ensures fs.Current(f.ip) && f.ip.d.kind != 0 {
        assert old@before(fs.Current(f.ip) && f.ip.d.kind != 0);
      }
      n := n + 1;
    }
  }
}
