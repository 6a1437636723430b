/** The file system of kernel/fs.c on the log of kernel/log.c: what the one takes for the disk is what the other
    presents, and after a crash every file is as some committed transaction left it. */
module FsOnLog {
  import opened Bytes
  import opened Bitmap
  import opened FsLayout
  import opened FsContent
  import opened FileSystem
  import opened OpenFiles
  import C = BufferCache
  import R = RedoLog
  import J = Log

  // ----- the same disk, the same tests -----

  /** Both have committed and logged the same, and the file system's disk is what that makes of the one at boot. */
  ghost predicate InStep(fs: Fs, log: J.Log)
    reads fs, log, log.cache
  {
    && log.Valid() && fs.Tracked() && GoodDisk(fs.sb, fs.disk) && log.L == LogOf(fs.sb)
    && fs.boot == log.cache.boot && fs.done == log.done && fs.calls == log.calls && fs.busy == log.busy
  }

  /** The log's count of sectors is that of the file system. */
  lemma {:induction false} SameCount(fs: Fs, log: J.Log)
    requires InStep(fs, log)
    ensures log.n == |fs.logged| && |fs.disk| == |log.cache.boot|
    ensures fs.disk == R.Direct(log.cache.boot, log.done + [log.calls])
    ensures fs.LogPanics() <==> log.n >= R.LOGSIZE || log.n >= log.L.size - 1 || !log.busy
  {
    hide R.Sectors, R.Direct, C.Cache.Valid, J.Accounted, J.Pinned;
    SectorsCounted(log.calls);
    assert |log.sector[..log.n]| == log.n;
  }

  // ----- buffers enough -----

  /** Every buffer in use is for one of the given sectors. */
  ghost predicate HoldsOnly(bufs: seq<C.Buf>, held: set<nat>) {
    && |bufs| == C.NBUF + 1
    && forall j :: 0 <= j < C.NBUF && bufs[j].busy ==> bufs[j].dev == C.ROOTDEV && bufs[j].sector in held
  }

  lemma {:induction false} DistinctSectors(bufs: seq<C.Buf>, n: nat)
    requires n <= |bufs| && forall i, j :: 0 <= i < j < n ==> bufs[i].sector != bufs[j].sector
    ensures |set j | 0 <= j < n :: bufs[j].sector| == n
  {
    var S := set j | 0 <= j < n :: bufs[j].sector;
    if n > 0 {
      DistinctSectors(bufs, n - 1);
      var T := set j | 0 <= j < n - 1 :: bufs[j].sector;
      assert S == T + {bufs[n - 1].sector};
    } else {
      assert S == {};
    }
  }

  /** As long as the sectors logged and those held are fewer than the buffers, one buffer is free. */
  lemma {:induction false} BuffersSuffice(bufs: seq<C.Buf>, disk: seq<Block>, calls: seq<C.Write>, held: set<nat>)
    requires C.Unique(bufs) && C.OnDisk(bufs, disk) && J.Pinned(bufs, calls) && HoldsOnly(bufs, held)
    requires |(set w | w in calls :: w.sector) + held| < C.NBUF
    ensures exists j :: 0 <= j < C.NBUF && C.Recyclable(bufs[j])
  {
    hide R.Sectors;
    SectorsCounted(calls);
    if forall j :: 0 <= j < C.NBUF ==> !C.Recyclable(bufs[j]) {
      var all := (set w | w in calls :: w.sector) + held;
      forall j | 0 <= j < C.NBUF ensures bufs[j].sector in all && bufs[j].dev == C.ROOTDEV {
        assert !C.Recyclable(bufs[j]);
        J.PinnedIsLogged(bufs, calls, j);
      }
      forall i, j | 0 <= i < j < C.NBUF ensures bufs[i].sector != bufs[j].sector {
        assert !C.Caches(bufs[j], bufs[i].dev, bufs[i].sector);
      }
      DistinctSectors(bufs, C.NBUF);
      CardinalityBound(set j | 0 <= j < C.NBUF :: bufs[j].sector, all);
    }
  }

  /** The sectors a piece of filewrite has to do with, read or written: at most nine on a disk with at most three map
      blocks, so fewer than the buffers. */
  lemma {:induction false} PieceBuffers(sb: Superblock, disk: seq<Block>, l: set<nat>, x: Dinode, y: Dinode, i: nat,
                                        off: nat, m: nat, touched: set<nat>, K: set<nat>, done: bool)
    requires WriteLogged(sb, disk, {}, l, x, y, i, off, m, touched, K, done)
    requires m <= MAXCHUNK && off <= x.size && sb.size < 3 * BPB
    ensures |y.addrs| == NDIRECT + 1
    ensures var all := touched + {y.addrs[NDIRECT]} + MapBlocks(sb) + {InodeBlock(i)}; l <= all && |all| < C.NBUF
  {
    hide Turns, Allocs, LowestFree, MapsOf, NBlocks;
    PieceCounts(off, m, x.size);
    LowestBelow(sb, disk, K);
    MapsCount(sb, K);
    CardinalityUnion(touched, {y.addrs[NDIRECT]});
    CardinalityUnion(touched + {y.addrs[NDIRECT]}, MapBlocks(sb));
    CardinalityUnion(touched + {y.addrs[NDIRECT]} + MapBlocks(sb), {InodeBlock(i)});
  }

  /** log_write on the log and on the file system's disk: the same panic or the same effect. It does not want for a
      buffer while the sectors logged and held are fewer than the buffers. */
  method LogWriteInStep(fs: Fs, log: J.Log, b: nat, ghost held: set<nat>) returns (r: J.Status, ok: bool)
    requires InStep(fs, log) && J.LogFree(log.L, log.cache.buf)
    requires b < C.NBUF && log.cache.buf[b].busy && log.cache.buf[b].valid && log.cache.buf[b].sector < LogStart(fs.sb)
    modifies fs, log, log.cache
    ensures r != J.OutOfBuffers ==> (ok <==> r == J.Fine)
    ensures HoldsOnly(old(log.cache.buf), held) && |old(fs.logged) + held| < C.NBUF ==> r != J.OutOfBuffers
    ensures r == J.Fine ==>
      && InStep(fs, log) && J.LogFree(log.L, log.cache.buf)
      && fs.disk == old(fs.disk)[old(log.cache.buf)[b].sector := old(log.cache.buf)[b].data]
      && fs.logged == old(fs.logged) + {old(log.cache.buf)[b].sector}
  {
    hide R.Sectors, C.Cache.Valid, C.Coherent, J.Accounted, J.Pinned, J.HeldKept, Recorded, OutsideLog;
    SameCount(fs, log);
    FreeBuffer(fs, log, held);
    var s, data := log.cache.buf[b].sector, log.cache.buf[b].data;
    r := log.LogWrite(b);
    ok := false;
    if r != J.OutOfBuffers {
      ok := fs.LogWrite(s, data);
    }
  }

  lemma {:induction false} FreeBuffer(fs: Fs, log: J.Log, held: set<nat>)
    requires InStep(fs, log)
    ensures HoldsOnly(log.cache.buf, held) && |fs.logged + held| < C.NBUF ==>
      exists j :: 0 <= j < C.NBUF && C.Recyclable(log.cache.buf[j])
  {
    hide R.Sectors, R.Direct, R.Legal, J.Accounted, J.Pinned, C.Coherent, C.Unique, C.OnDisk, C.Cache.Valid, HoldsOnly;
    log.cache.Facts();
    if HoldsOnly(log.cache.buf, held) && |fs.logged + held| < C.NBUF {
      BuffersSuffice(log.cache.buf, log.cache.disk, fs.calls, held);
    }
  }

  /** bread of a home sector gives the bytes of the file system's disk, and likewise does not want for a buffer; it
      waits only for a sector that is held. */
  method ReadInStep(fs: Fs, log: J.Log, s: nat, ghost held: set<nat>) returns (r: C.BreadResult)
    requires InStep(fs, log) && s < LogStart(fs.sb)
    modifies log.cache
    ensures !r.Panicked? ==> InStep(fs, log)
    ensures HoldsOnly(old(log.cache.buf), held) && |old(fs.logged) + held| < C.NBUF ==>
      !r.Panicked? && (r.Wait? ==> s in held)
    ensures r.Ok? ==> r.i < C.NBUF && s < |fs.disk| && log.cache.buf[r.i].data == fs.disk[s]
  {
    hide R.Sectors, R.Direct, C.Cache.Valid, C.Coherent, J.Accounted, J.Pinned, Recorded;
    SameCount(fs, log);
    FreeBuffer(fs, log, held);
    r := log.ReadBlock(s);
  }

  /** begin_trans, once no transaction is open. */
  method BeginInStep(fs: Fs, log: J.Log)
    requires InStep(fs, log) && fs.Idle()
    modifies fs, log
    ensures InStep(fs, log) && fs.busy && fs.disk == old(fs.disk)
  {
    hide R.Sectors, C.Cache.Valid, C.Coherent, J.Accounted, J.Pinned, Recorded;
    var entered := log.BeginTrans();
    fs.BeginTrans();
  }

  /** commit_trans: one transaction more, on the same disk. */
  method CommitInStep(fs: Fs, log: J.Log) returns (ok: bool)
    requires InStep(fs, log) && fs.busy && fs.InHome() && fs.sb.nlog > 0
    requires J.CommitReady(log.L, log.cache.buf, log.calls)
    modifies fs, log, log.cache
    ensures J.Spare(old(log.cache.buf)) ==> ok
    ensures ok ==> InStep(fs, log) && fs.Idle() && fs.disk == old(fs.disk) && fs.done == old(fs.done) + [old(fs.calls)]
  {
    hide R.Sectors, C.Cache.Valid, C.Coherent, J.Accounted, J.Pinned, J.Spare, J.CommitReady, J.IdleChanged, J.LogFree,
         Recorded;
    ok := log.CommitTrans();
    if ok {
      fs.CommitTrans();
    }
  }

  // ----- files after a crash -----

  lemma {:induction false} HomeSectors(sb: Superblock, d: seq<Block>, e: seq<Block>)
    requires GoodDisk(sb, d) && R.SameHome(LogOf(sb), d, e)
    ensures |e| == |d| && forall s: nat :: s < LogStart(sb) ==> e[s] == d[s]
  {
    forall s: nat | s < LogStart(sb) ensures e[s] == d[s] {
      assert R.Home(LogOf(sb), s);
    }
  }

  /** The blocks of the log are no part of a settled disk. */
  lemma {:induction false} SettledOutsideLog(sb: Superblock, d: seq<Block>, e: seq<Block>, inodes: seq<Dinode>,
                                             ext: seq<Extent>, owner: map<nat, Ref>)
    requires SettledDisk(sb, d, inodes, ext, owner) && R.SameHome(LogOf(sb), d, e)
    ensures SettledDisk(sb, e, inodes, ext, owner)
    ensures forall j :: 0 <= j < sb.ninodes ==> File(e, inodes[j]) == File(d, inodes[j])
  {
    hide FileOk, RefOk, BitsOk, ReadInode, File, FileBlock;
    HomeSectors(sb, d, e);
    OwnedInData(sb, d, inodes, ext, owner);
    forall j | 0 <= j < sb.ninodes && ext[j].table
      ensures |inodes[j].addrs| == NDIRECT + 1 && inodes[j].addrs[NDIRECT] < |d|
      ensures e[inodes[j].addrs[NDIRECT]] == d[inodes[j].addrs[NDIRECT]]
    {
      TableIsOwned(sb, d, inodes, ext, owner, j);
    }
    DiskChanged(sb, d, e, inodes, ext, owner);
    forall j | 0 <= j < sb.ninodes ensures File(e, inodes[j]) == File(d, inodes[j]) {
      GrowthKeepsFiles(sb, d, inodes, ext, owner, e, inodes, ext, owner, j);
      SameFile(d, inodes[j], e, inodes[j]);
    }
  }

  /** A crash after any sector write so far, with any number of crashes during recovery, leaves a settled disk: the
      one some committed transaction left, file by file. */
  lemma {:induction false} FilesSurviveCrashes(sb: Superblock, boot: seq<Block>, done: seq<seq<C.Write>>,
                                               calls: seq<C.Write>, trace: seq<C.Write>, views: seq<View>, k: nat,
                                               cuts: seq<nat>)
    requires J.Accounted(LogOf(sb), boot, done, calls, trace) && History(sb, boot, done, views)
    ensures var L := LogOf(sb);
            var c := R.Commits(L, boot, done, k);
            && R.LogOk(L, C.Apply(boot, R.Cut(trace, k)))
            && var d, xs := R.CrashyRecovery(L, C.Apply(boot, R.Cut(trace, k)), cuts), views[c].inodes;
               && SettledDisk(sb, d, xs, views[c].ext, views[c].owner)
               && forall j :: 0 <= j < sb.ninodes ==> File(d, xs[j]) == File(R.Direct(boot, done[..c]), xs[j])
  {
    hide SettledDisk, File, R.Direct, R.CrashyRecovery, R.LogOk, R.Commits, C.Apply, R.LogWrites, R.RunWrites, R.Legal;
    J.AccountedSurvives(LogOf(sb), boot, done, calls, trace, k, cuts);
    var c := R.Commits(LogOf(sb), boot, done, k);
    var d := R.CrashyRecovery(LogOf(sb), C.Apply(boot, R.Cut(trace, k)), cuts);
    SameHomeSym(LogOf(sb), d, R.Direct(boot, done[..c]));
    SettledOutsideLog(sb, R.Direct(boot, done[..c]), d, views[c].inodes, views[c].ext, views[c].owner);
  }

  lemma {:induction false} SameHomeSym(L: R.Layout, d: seq<Block>, e: seq<Block>)
    requires R.SameHome(L, d, e)
    ensures R.SameHome(L, e, d)
  {
  }

  /** In particular a file being written, by the filewrite whose transactions are those from the given one on, holds
      whole pieces of the write and nothing else of it, and the other files are as they were. */
  lemma {:induction false} CrashLeavesPieces(sb: Superblock, boot: seq<Block>, done: seq<seq<C.Write>>,
                                             calls: seq<C.Write>, trace: seq<C.Write>, views: seq<View>, k: nat,
                                             cuts: seq<nat>, i: nat, disk: seq<Block>, inodes: seq<Dinode>, from: nat,
                                             off: nat, addr: seq<byte>)
    requires J.Accounted(LogOf(sb), boot, done, calls, trace) && History(sb, boot, done, views)
    requires Stages(i, disk, inodes, boot, done, views, from, off, addr)
    requires from <= R.Commits(LogOf(sb), boot, done, k) && |inodes| == sb.ninodes
    ensures R.LogOk(LogOf(sb), C.Apply(boot, R.Cut(trace, k)))
    ensures var c := R.Commits(LogOf(sb), boot, done, k);
            InPieces(i, disk, inodes, R.CrashyRecovery(LogOf(sb), C.Apply(boot, R.Cut(trace, k)), cuts),
                views[c].inodes, off, addr)
  {
    hide SettledDisk, File, Splice, R.Direct, R.CrashyRecovery, R.LogOk, R.Commits, C.Apply, R.LogWrites, R.RunWrites,
         R.Legal, Stage;
    FilesSurviveCrashes(sb, boot, done, calls, trace, views, k, cuts);
    var c := R.Commits(LogOf(sb), boot, done, k);
    var e, xs := R.Direct(boot, done[..c]), views[c].inodes;
    var d := R.CrashyRecovery(LogOf(sb), C.Apply(boot, R.Cut(trace, k)), cuts);
    assert InPieces(i, disk, inodes, e, xs, off, addr);
    var n: nat :| Whole(n, |addr|) && Stage(i, disk, inodes, e, xs, off, addr[..n]);
    SameStage(i, disk, inodes, e, d, xs, off, addr[..n]);
  }

  lemma {:induction false} SameStage(i: nat, disk: seq<Block>, inodes: seq<Dinode>, e: seq<Block>, d: seq<Block>,
                                     xs: seq<Dinode>, off: nat, src: seq<byte>)
    requires Stage(i, disk, inodes, e, xs, off, src) && forall j :: 0 <= j < |inodes| ==>
      File(d, xs[j]) == File(e, xs[j])
    ensures Stage(i, disk, inodes, d, xs, off, src)
  {
    hide File, Splice;
  }
}
