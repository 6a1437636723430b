/** kernel/log.c over the buffer cache: begin_trans, log_write, commit_trans and recovery.

    One system call is in a transaction at a time. `calls` is the ghost record of its
    log_write calls and `done` that of the committed transactions since boot; the invariant
    ties every sector write that reached the disk to them. */
module Log {
  import opened Bytes
  import opened BufferCache
  import opened RedoLog

  datatype Status = Fine | TooBig | OutsideTransaction | OutOfBuffers

  /** Nobody outside the log holds a buffer of the log region. */
  ghost predicate LogFree(L: Layout, bufs: seq<Buf>) {
    |bufs| == NBUF + 1 &&
    forall j :: 0 <= j < NBUF && bufs[j].busy && bufs[j].dev == ROOTDEV ==> Home(L, bufs[j].sector)
  }

  predicate Pins(b: Buf, s: nat) {
    Caches(b, ROOTDEV, s) && b.dirty && b.valid
  }

  /** The dirty buffers are exactly those of the logged sectors, and while nobody holds one
      it has the last bytes logged. */
  ghost predicate Pinned(bufs: seq<Buf>, calls: seq<Write>) {
    && |bufs| == NBUF + 1
    && (forall s :: s in Sectors(calls) ==> exists j :: 0 <= j < NBUF && Pins(bufs[j], s))
    && (forall j :: 0 <= j < NBUF && bufs[j].dirty ==>
          && bufs[j].sector in Sectors(calls)
          && (bufs[j].busy || bufs[j].data == Latest(calls, bufs[j].sector)))
  }

  lemma {:induction false} PinnedIsLogged(bufs: seq<Buf>, calls: seq<Write>, j: nat)
    requires Pinned(bufs, calls) && j < NBUF
    ensures bufs[j].dirty ==> bufs[j].sector in Sectors(calls)
  {
  }

  /** Every sector write since boot belongs to a committed transaction or to the open one. */
  ghost predicate Accounted(L: Layout, boot: seq<Block>, done: seq<seq<Write>>, calls: seq<Write>, trace: seq<Write>) {
    && NoLog(L, boot)
    && (forall t :: t in done ==> Legal(L, boot, t))
    && Legal(L, boot, calls)
    && trace == RunWrites(L, boot, done) + LogWrites(L, calls)
  }

  /** The pins after log_write(b): l is the buffer that carried the log block. */
  lemma {:induction false} LogWriteKeepsPins(pre: seq<Buf>, post: seq<Buf>, b: nat, l: nat, calls: seq<Write>, w: Write,
                                             disk: seq<Block>)
    requires |pre| == |post| == NBUF + 1 && b < NBUF && l < NBUF && l != b && Unique(pre) && OnDisk(pre, disk)
    requires Pinned(pre, calls)
    requires forall j :: 0 <= j < NBUF && j != l && j != b ==> SamePayload(pre[j], post[j])
    requires !pre[l].dirty && !post[l].dirty
    requires pre[b].busy && pre[b].valid && pre[b].sector == w.sector
    requires SamePayload(pre[b].(dirty := true), post[b])
    ensures Pinned(post, calls + [w])
  {
    SectorsStep(calls, w);
    assert (calls + [w])[..|calls|] == calls;
    forall s | s in Sectors(calls + [w]) ensures exists j :: 0 <= j < NBUF && Pins(post[j], s) {
      if s == w.sector {
        assert Pins(post[b], s);
      } else {
        var j :| 0 <= j < NBUF && Pins(pre[j], s);
        assert Pins(post[j], s);
      }
    }
    forall j | 0 <= j < NBUF && post[j].dirty
      ensures post[j].sector in Sectors(calls + [w])
      ensures post[j].busy || post[j].data == Latest(calls + [w], post[j].sector)
    {
      if j != b {
        assert SamePayload(pre[j], post[j]);
        assert pre[j].dev == ROOTDEV;
        assert !Caches(pre[if j < b then b else j], ROOTDEV, pre[if j < b then j else b].sector);
      }
    }
  }

  lemma {:induction false} LogWriteAccounted(L: Layout, boot: seq<Block>, done: seq<seq<Write>>, calls: seq<Write>,
                                             trace: seq<Write>, w: Write)
    requires Accounted(L, boot, done, calls, trace) && Home(L, w.sector) && w.sector < |boot|
    requires |Sectors(calls)| < LOGSIZE && |Sectors(calls)| < L.size - 1
    ensures Accounted(L, boot, done, calls + [w], trace + [Write(L.start + 1 + Slot(Sectors(calls), w.sector), w.data)])
  {
    hide NoLog, RunWrites, LogWrites, Slot, Sectors;
    SectorsStep(calls, w);
    LogWritesStep(L, calls, w);
  }

  /** What the cache operations need to know of the accounted state. */
  lemma {:induction false} AccountedBounds(L: Layout, boot: seq<Block>, done: seq<seq<Write>>, calls: seq<Write>,
                                           trace: seq<Write>)
    requires Accounted(L, boot, done, calls, trace)
    ensures L.start + L.size <= |boot| <= 0x8000_0000 && 1 <= L.size
    ensures forall s :: s in Sectors(calls) ==> Home(L, s) && s < |boot|
    ensures |Sectors(calls)| <= LOGSIZE && |Sectors(calls)| < L.size
  {
    hide RunWrites, LogWrites;
    LegalSectors(L, boot, calls);
  }

  lemma {:induction false} SlotFilled(a: seq<nat>, n: nat, calls: seq<Write>, w: Write, i: nat)
    requires n < |a| && a[..n] == Sectors(calls) && i == Slot(a[..n], w.sector)
    ensures i <= n && a[i := w.sector][..if i == n then n + 1 else n] == Sectors(calls + [w])
  {
    SectorsStep(calls, w);
  }

  /** Buffers held by others, other than b, are untouched. */
  ghost predicate HeldKept(pre: seq<Buf>, post: seq<Buf>, b: nat) {
    && |pre| == |post| == NBUF + 1
    && forall j :: 0 <= j < NBUF && j != b && pre[j].busy ==> SamePayload(pre[j], post[j])
  }

  /** What log_write does to the buffers: l carried the log block, b is pinned. */
  lemma {:induction false} LogWriteFrame(L: Layout, pre: seq<Buf>, mid: seq<Buf>, post: seq<Buf>, b: nat, l: nat,
                                         w: Write)
    requires OthersKept(pre, mid, l) && b < NBUF && l < NBUF && pre[b].busy && !pre[l].busy
    requires Recyclable(mid[l]) && LogFree(L, pre) && pre[b].data == w.data
    requires post == mid[b := mid[b].(data := w.data, dirty := true)]
    ensures l != b && !post[l].dirty && Recyclable(post[l])
    ensures SamePayload(pre[b].(dirty := true), post[b])
    ensures forall j :: 0 <= j < NBUF && j != l && j != b ==> SamePayload(pre[j], post[j])
    ensures HeldKept(pre, post, b) && LogFree(L, post)
  {
  }

  /** Home sectors seen through log and disk are the transactions applied directly. */
  lemma {:induction false} ViewIsDirect(L: Layout, boot: seq<Block>, done: seq<seq<Write>>, calls: seq<Write>,
                                        trace: seq<Write>, s: nat)
    requires Accounted(L, boot, done, calls, trace) && s < |boot| && Home(L, s)
    ensures Direct(boot, done + [calls])[s] ==
            if s in Sectors(calls) then Latest(calls, s) else Apply(boot, trace)[s]
  {
    hide PutHeader, LogWrites, Sectors, HeaderSectors, Apply, RunWrites, Latest;
    var d := RunDisk(L, boot, done);
    RunReachesDisk(L, boot, done);
    ApplyConcat(boot, RunWrites(L, boot, done), LogWrites(L, calls));
    LegalAnyDisk(L, boot, d, calls);
    LogBlocks(L, d, calls);
    DirectWrites(Direct(boot, done), calls, s);
    assert (done + [calls])[..|done|] == done;
  }

  lemma {:induction false} FetchKeepsPins(pre: seq<Buf>, post: seq<Buf>, i: nat, s: nat, disk: seq<Block>,
                                          calls: seq<Write>)
    requires Fetched(pre, post, i, s, disk) && Pinned(pre, calls) && OnDisk(pre, disk)
    ensures Pinned(post, calls) && HeldKept(pre, post, NBUF)
  {
    forall t | t in Sectors(calls) ensures exists j :: 0 <= j < NBUF && Pins(post[j], t) {
      var j :| 0 <= j < NBUF && Pins(pre[j], t);
      assert Pins(post[j], t);
    }
  }

  lemma {:induction false} FetchedIsLatest(L: Layout, boot: seq<Block>, done: seq<seq<Write>>, calls: seq<Write>,
                                           trace: seq<Write>, pre: seq<Buf>, post: seq<Buf>, i: nat, s: nat,
                                           disk: seq<Block>)
    requires Accounted(L, boot, done, calls, trace) && disk == Apply(boot, trace) && Home(L, s)
    requires OnDisk(pre, disk) && Coherent(pre, disk) && Pinned(pre, calls) && Unique(pre)
    requires Fetched(pre, post, i, s, disk)
    ensures s < |boot| && post[i].data == Direct(boot, done + [calls])[s]
  {
    hide Accounted, Apply, Direct, Latest;
    ViewIsDirect(L, boot, done, calls, trace, s);
    if s in Sectors(calls) {
      var j :| 0 <= j < NBUF && Pins(pre[j], s);
      assert Caches(pre[j], ROOTDEV, s);
      assert i == j;
    }
  }

  /** Releasing a buffer that shows what its holder logged, or what the disk has, is safe. */
  lemma {:induction false} ReleaseKeeps(pre: seq<Buf>, post: seq<Buf>, b: nat, disk: seq<Block>, calls: seq<Write>)
    requires OthersKept(pre, post, b) && b < NBUF && SamePayload(pre[b].(busy := false), post[b])
    requires OnDisk(pre, disk) && Coherent(pre, disk) && Pinned(pre, calls) && Unique(pre)
    requires pre[b].valid
    requires pre[b].data ==
      if pre[b].sector in Sectors(calls) then Latest(calls, pre[b].sector) else disk[pre[b].sector]
    ensures OnDisk(post, disk) && Coherent(post, disk) && Pinned(post, calls)
  {
    hide Sectors, Latest;
    forall j | 0 <= j < NBUF
      ensures post[j] ==
              (if j == b then pre[b].(busy := false) else pre[j]).(prev := post[j].prev, next := post[j].next)
    {
      assert j != b ==> SamePayload(pre[j], post[j]);
    }
    forall t | t in Sectors(calls) ensures exists j :: 0 <= j < NBUF && Pins(post[j], t) {
      var j :| 0 <= j < NBUF && Pins(pre[j], t);
      assert Pins(post[j], t);
    }
    if pre[b].sector in Sectors(calls) {
      var j :| 0 <= j < NBUF && Pins(pre[j], pre[b].sector);
      assert Caches(pre[b], ROOTDEV, pre[b].sector);
      assert j == b;
    }
  }

  /** No pinned and no held buffer belongs to the log region. */
  ghost predicate LogIdle(L: Layout, bufs: seq<Buf>) {
    |bufs| == NBUF + 1 &&
    forall j :: 0 <= j < NBUF && bufs[j].dev == ROOTDEV && (bufs[j].busy || bufs[j].dirty) ==> Home(L, bufs[j].sector)
  }

  /** Two buffers are free for recycling. */
  ghost predicate Spare(bufs: seq<Buf>) {
    |bufs| == NBUF + 1 && exists i, j :: 0 <= i < j < NBUF && Recyclable(bufs[i]) && Recyclable(bufs[j])
  }

  /** Two states of the buffers differ in idle buffers only, and no pin was added. */
  ghost predicate IdleChanged(pre: seq<Buf>, post: seq<Buf>) {
    && |pre| == |post| == NBUF + 1
    && forall j :: 0 <= j < NBUF && (pre[j].busy || post[j].busy || post[j].dirty) ==> SamePayload(pre[j], post[j])
  }

  lemma {:induction false} SpareKept(pre: seq<Buf>, post: seq<Buf>)
    requires |pre| == |post| == NBUF + 1 && Spare(pre)
    requires forall j :: 0 <= j < NBUF && Recyclable(pre[j]) ==> Recyclable(post[j])
    ensures Spare(post)
  {
    var i, j :| 0 <= i < j < NBUF && Recyclable(pre[i]) && Recyclable(pre[j]);
    assert Recyclable(post[i]) && Recyclable(post[j]);
  }

  lemma {:induction false} ReleaseCoherent(pre: seq<Buf>, post: seq<Buf>, b: nat, disk: seq<Block>)
    requires OthersKept(pre, post, b) && b < NBUF && SamePayload(pre[b].(busy := false), post[b])
    requires OnDisk(pre, disk) && OnDisk(post, disk) && Coherent(pre, disk)
    requires pre[b].valid && pre[b].data == disk[pre[b].sector]
    ensures Coherent(post, disk)
  {
    forall i | 0 <= i < NBUF && post[i].valid && Recyclable(post[i]) ensures post[i].data == disk[post[i].sector] {
      assert i != b ==> SamePayload(pre[i], post[i]);
    }
  }

  /** Two buffers, idle before, were taken for the sectors from and to. */
  ghost predicate TookBoth(pre: seq<Buf>, post: seq<Buf>, l: nat, d: nat, from: nat, to: nat) {
    && |pre| == |post| == NBUF + 1 && l < NBUF && d < NBUF && l != d
    && !pre[l].busy && !pre[d].busy
    && post[l].busy && post[l].valid && !post[l].dirty && Caches(post[l], ROOTDEV, from)
    && post[d].busy && post[d].valid && Caches(post[d], ROOTDEV, to)
    && forall j :: 0 <= j < NBUF && j != l && j != d ==> post[j] == pre[j]
  }

  lemma {:induction false} BothFetched(b0: seq<Buf>, b1: seq<Buf>, b2: seq<Buf>, l: nat, d: nat, from: nat, to: nat,
                                       disk: seq<Block>)
    requires Fetched(b0, b1, l, from, disk) && Fetched(b1, b2, d, to, disk) && from != to
    requires !(b0[l].dirty && b0[l].sector == from)
    ensures TookBoth(b0, b2, l, d, from, to)
  {
  }

  lemma {:induction false} OneLeft(b0: seq<Buf>, b1: seq<Buf>, l: nat, from: nat, disk: seq<Block>)
    requires Fetched(b0, b1, l, from, disk) && Spare(b0)
    ensures exists j :: 0 <= j < NBUF && Recyclable(b1[j])
  {
    var i, j :| 0 <= i < j < NBUF && Recyclable(b0[i]) && Recyclable(b0[j]);
    assert Recyclable(b1[if i == l then j else i]);
  }

  /** The second buffer was then written and both were released. */
  lemma {:induction false} BothReleased(b0: seq<Buf>, b2: seq<Buf>, b3: seq<Buf>, b4: seq<Buf>, b5: seq<Buf>, l: nat,
                                        d: nat, from: nat, to: nat)
    requires TookBoth(b0, b2, l, d, from, to) && Unique(b2)
    requires b3 == b2[d := b2[d].(data := b2[l].data, dirty := false)]
    requires OthersKept(b3, b4, l) && SamePayload(b3[l].(busy := false), b4[l])
    requires OthersKept(b4, b5, d) && SamePayload(b4[d].(busy := false), b5[d])
    ensures IdleChanged(b0, b5) && Spare(b5)
    ensures forall j :: 0 <= j < NBUF && b5[j].dirty ==> !Caches(b5[j], ROOTDEV, to)
  {
    forall j | 0 <= j < NBUF && j != l && j != d ensures SamePayload(b0[j], b5[j]) {
      assert SamePayload(b3[j], b4[j]) && SamePayload(b4[j], b5[j]);
    }
    assert SamePayload(b3[d], b4[d]) && SamePayload(b4[l], b5[l]);
    assert Recyclable(b5[l]) && Recyclable(b5[d]);
    forall j | 0 <= j < NBUF && b5[j].dirty ensures !Caches(b5[j], ROOTDEV, to) {
      assert j != d && j != l;
    }
  }

  /** Pins and holds of the buffers as install_trans finds them: pins only for the sectors still
      to install, and nobody else holding one of those or a block of the log. */
  ghost predicate Installing(L: Layout, bufs: seq<Buf>, sectors: seq<nat>, t: nat)
    requires t <= |sectors|
  {
    && LogIdle(L, bufs)
    && (forall j :: 0 <= j < NBUF && bufs[j].dirty ==> bufs[j].sector in sectors[t..])
    && (forall j :: 0 <= j < NBUF && bufs[j].busy && bufs[j].dev == ROOTDEV ==> bufs[j].sector !in sectors)
  }

  lemma {:induction false} InstallingStep(L: Layout, pre: seq<Buf>, post: seq<Buf>, sectors: seq<nat>, t: nat,
                                          disk: seq<Block>)
    requires t < |sectors| && Installing(L, pre, sectors, t) && IdleChanged(pre, post) && OnDisk(post, disk)
    requires forall j :: 0 <= j < NBUF && post[j].dirty ==> !Caches(post[j], ROOTDEV, sectors[t])
    ensures Installing(L, post, sectors, t + 1)
  {
    forall j | 0 <= j < NBUF && post[j].dirty ensures post[j].sector in sectors[t + 1..] {
      assert SamePayload(pre[j], post[j]);
      assert sectors[t..] == [sectors[t]] + sectors[t + 1..];
    }
    forall j | 0 <= j < NBUF && (post[j].busy || post[j].dirty)
      ensures post[j].sector == pre[j].sector && post[j].dev == pre[j].dev && (post[j].busy ==> pre[j].busy)
      ensures (post[j].dirty ==> pre[j].dirty)
    {
      assert SamePayload(pre[j], post[j]);
    }
  }

  lemma {:induction false} InstallReady(L: Layout, bufs: seq<Buf>, sectors: seq<nat>, t: nat)
    requires t < |sectors| && Installing(L, bufs, sectors, t)
    ensures LogIdle(L, bufs)
    ensures forall j :: 0 <= j < NBUF && bufs[j].busy ==> !Caches(bufs[j], ROOTDEV, sectors[t])
  {
  }

  lemma {:induction false} IdleUnchanged(bufs: seq<Buf>)
    requires |bufs| == NBUF + 1
    ensures IdleChanged(bufs, bufs)
  {
  }

  lemma {:induction false} IdleChangedTrans(a: seq<Buf>, b: seq<Buf>, c: seq<Buf>)
    requires IdleChanged(a, b) && IdleChanged(b, c)
    ensures IdleChanged(a, c)
  {
    forall j | 0 <= j < NBUF && (a[j].busy || c[j].busy || c[j].dirty) ensures SamePayload(a[j], c[j]) {
      assert a[j].busy ==> SamePayload(a[j], b[j]);
      assert c[j].busy || c[j].dirty ==> SamePayload(b[j], c[j]);
    }
  }

  /** What commit_trans writes is what the crash theory calls the end of the transaction. */
  lemma {:induction false} CommitAccounted(L: Layout, boot: seq<Block>, done: seq<seq<Write>>, calls: seq<Write>,
                                           trace: seq<Write>, d: seq<Block>, sectors: seq<uint32>)
    requires Accounted(L, boot, done, calls, trace) && calls != [] && sectors == Sectors(calls) && |sectors| <= LOGSIZE
    requires L.start < |boot| && L.start + |sectors| < |boot|
    requires d == Apply(boot, trace)[L.start := PutHeader(Apply(boot, trace)[L.start], sectors)]
    ensures Accounted(L, boot, done + [calls], [],
                      trace + [Write(L.start, d[L.start])] + InstallWrites(L, d, sectors)
                      + [Write(L.start, PutHeader(d[L.start], []))])
  {
    hide PutHeader, LogWrites, Sectors, Apply, RunWrites, HeaderSectors, InstallWrites;
    var e := RunDisk(L, boot, done);
    RunReachesDisk(L, boot, done);
    LegalAnyDisk(L, boot, e, calls);
    ApplyConcat(boot, RunWrites(L, boot, done), LogWrites(L, calls));
    assert Committed(L, e, calls) == d;
    CommittedOk(L, e, calls);
    RunWritesStep(L, boot, done, calls);
    var rest := InstallWrites(L, d, sectors) + [Write(L.start, PutHeader(d[L.start], []))];
    assert RecoveryWrites(L, d) == rest;
    assert TxWrites(L, e, calls) == LogWrites(L, calls) + ([Write(L.start, d[L.start])] + rest);
    NoCalls(L, boot);
  }

  lemma {:induction false} NoCalls(L: Layout, boot: seq<Block>)
    requires NoLog(L, boot)
    ensures Legal(L, boot, []) && LogWrites(L, []) == [] && Sectors([]) == []
  {
  }

  lemma {:induction false} EmptyCommitAccounted(L: Layout, boot: seq<Block>, done: seq<seq<Write>>, trace: seq<Write>)
    requires Accounted(L, boot, done, [], trace)
    ensures Accounted(L, boot, done + [[]], [], trace)
  {
    hide LogWrites, RunWrites, TxWrites;
    RunWritesStep(L, boot, done, []);
    EmptyTransaction(L, RunDisk(L, boot, done));
  }

  /** Nobody holds a logged buffer or a block of the log. */
  ghost predicate CommitReady(L: Layout, bufs: seq<Buf>, calls: seq<Write>) {
    && LogFree(L, bufs)
    && forall j :: 0 <= j < NBUF && bufs[j].busy && bufs[j].dev == ROOTDEV ==> bufs[j].sector !in Sectors(calls)
  }

  lemma {:induction false} PinsReady(L: Layout, bufs: seq<Buf>, calls: seq<Write>)
    requires Pinned(bufs, calls) && CommitReady(L, bufs, calls)
    requires forall s :: s in Sectors(calls) ==> Home(L, s)
    ensures Installing(L, bufs, Sectors(calls), 0)
  {
    hide Sectors;
    assert Sectors(calls)[0..] == Sectors(calls);
  }

  lemma {:induction false} InstallingFrame(L: Layout, pre: seq<Buf>, post: seq<Buf>, sectors: seq<nat>, t: nat)
    requires t <= |sectors| && Installing(L, pre, sectors, t) && IdleChanged(pre, post)
    ensures Installing(L, post, sectors, t)
  {
    forall j | 0 <= j < NBUF && (post[j].busy || post[j].dirty)
      ensures post[j].sector == pre[j].sector && post[j].dev == pre[j].dev && (post[j].busy ==> pre[j].busy)
      ensures (post[j].dirty ==> pre[j].dirty)
    {
      assert SamePayload(pre[j], post[j]);
    }
  }

  lemma {:induction false} NotEmpty(calls: seq<Write>)
    requires calls != []
    ensures Sectors(calls) != []
  {
  }

  lemma {:induction false} NothingLogged()
    ensures Sectors([]) == []
  {
  }

  lemma {:induction false} NoPinsLeft(L: Layout, bufs: seq<Buf>, sectors: seq<nat>)
    requires Installing(L, bufs, sectors, |sectors|)
    ensures Pinned(bufs, []) && LogIdle(L, bufs) && LogFree(L, bufs)
  {
    assert sectors[|sectors|..] == [];
    assert Sectors([]) == [];
  }

  /** Nobody holds and nothing pins a buffer, as after a boot. */
  ghost predicate Quiet(bufs: seq<Buf>) {
    |bufs| == NBUF + 1 && forall j :: 0 <= j < NBUF ==> Recyclable(bufs[j])
  }

  lemma {:induction false} QuietInstalling(L: Layout, bufs: seq<Buf>, sectors: seq<nat>)
    requires Quiet(bufs)
    ensures Installing(L, bufs, sectors, 0) && Spare(bufs)
  {
    assert Recyclable(bufs[0]) && Recyclable(bufs[1]);
    assert forall j :: 0 <= j < NBUF ==> Recyclable(bufs[j]);
  }

  lemma {:induction false} QuietKept(pre: seq<Buf>, post: seq<Buf>)
    requires Quiet(pre) && IdleChanged(pre, post)
    ensures Quiet(post)
  {
    forall j | 0 <= j < NBUF ensures Recyclable(post[j]) {
      assert Recyclable(pre[j]);
    }
  }

  lemma {:induction false} QuietAgain(pre: seq<Buf>, held: seq<Buf>, post: seq<Buf>, i: nat, s: nat, disk: seq<Block>)
    requires Quiet(pre) && Fetched(pre, held, i, s, disk)
    requires OthersKept(held, post, i) && SamePayload(held[i].(busy := false), post[i])
    ensures Quiet(post)
  {
    forall j | 0 <= j < NBUF ensures Recyclable(post[j]) {
      assert Recyclable(pre[j]);
      assert j != i ==> SamePayload(held[j], post[j]);
    }
  }

  lemma {:induction false} FreshStart(L: Layout, boot: seq<Block>, bufs: seq<Buf>)
    requires NoLog(L, boot) && Quiet(bufs)
    ensures Accounted(L, boot, [], [], []) && Pinned(bufs, [])
  {
    assert forall j :: 0 <= j < NBUF ==> Recyclable(bufs[j]);
  }

  /** The open transaction's log writes do not disturb the crash guarantee. */
  lemma {:induction false} AccountedSurvives(L: Layout, boot: seq<Block>, done: seq<seq<Write>>, calls: seq<Write>,
                                             trace: seq<Write>, k: nat, cuts: seq<nat>)
    requires Accounted(L, boot, done, calls, trace)
    ensures var d := Apply(boot, Cut(trace, k));
            && LogOk(L, d)
            && SameHome(L, CrashyRecovery(L, d, cuts), Direct(boot, done[..Commits(L, boot, done, k)]))
  {
    hide PutHeader, LogWrites, Sectors, HeaderSectors, Apply, RunWrites, CommitWrites, LogOk, CrashyRecovery;
    var run, all := RunWrites(L, boot, done), done + [calls];
    RunWritesStep(L, boot, done, calls);
    if k < |run| {
      RunSurvivesCrashes(L, boot, done, k, cuts);
      assert Cut(trace, k) == Cut(run, k);
    } else {
      var j := if k < |trace| then k else |trace|;
      RunSurvivesCrashes(L, boot, all, j, cuts);
      assert Cut(RunWrites(L, boot, all), j) == Cut(trace, k);
      OpenNotCounted(L, boot, done, calls, j);
      assert done[..|done|] == done;
      CommitIsDurable(L, boot, done, |done|, k);
    }
  }

  lemma {:induction false} OpenNotCounted(L: Layout, boot: seq<Block>, done: seq<seq<Write>>, calls: seq<Write>, j: nat)
    requires NoLog(L, boot) && (forall t :: t in done ==> Legal(L, boot, t)) && Legal(L, boot, calls)
    requires |RunWrites(L, boot, done)| <= j <= |RunWrites(L, boot, done)| + |calls|
    ensures Direct(boot, (done + [calls])[..Commits(L, boot, done + [calls], j)]) == Direct(boot, done)
  {
    hide PutHeader, LogWrites, Sectors, HeaderSectors, RunWrites, LogOk;
    var all := done + [calls];
    assert all[..|all| - 1] == done && all[..|done|] == done && all[..|all|] == all;
    NoWrites(Direct(boot, done));
  }

  lemma {:induction false} NoWrites(disk: seq<Block>)
    ensures Apply(disk, []) == disk
  {
  }

  class Log {
    const cache: Cache
    const L: Layout
    var sector: seq<uint32>
    var n: int
    var busy: bool
    ghost var calls: seq<Write>
    ghost var done: seq<seq<Write>>

    ghost predicate Valid()
      reads this, cache
    {
      && cache.Valid() && Coherent(cache.buf, cache.disk)
      && |sector| == LOGSIZE && 0 <= n <= LOGSIZE && sector[..n] == Sectors(calls)
      && Accounted(L, cache.boot, done, calls, cache.trace)
      && Pinned(cache.buf, calls)
      && (!busy ==> calls == [])
    }

    /** initlog after a boot: whatever crash image the disk holds is recovered. */
    constructor (c: Cache, layout: Layout)
      requires c.Valid() && Coherent(c.buf, c.disk) && Quiet(c.buf) && LogOk(layout, c.disk)
      modifies c
      ensures Valid() && cache == c && L == layout && !busy && calls == [] && done == []
      ensures c.boot == c.disk == Recovered(layout, old(c.disk))
      ensures Quiet(c.buf)
    {
      cache := c;
      L := layout;
      sector := seq(LOGSIZE, _ => 0);
      n := 0;
      busy := false;
      calls := [];
      done := [];
      new;
      hide Apply, Cache.Valid, Coherent, OnDisk, Unique, Quiet, HeaderSectors, PutHeader, RecoveryWrites, LogOk;
      RecoverFromLog();
      RecoveredHasNoLog(layout, old(c.disk));
      cache.Rebase();
      NothingLogged();
      FreshStart(L, cache.boot, cache.buf);
    }

    /** read_head: the count and the sectors of the on-disk header. */
    method ReadHead()
      requires cache.Valid() && Coherent(cache.buf, cache.disk) && Quiet(cache.buf)
      requires |sector| == LOGSIZE && LogOk(L, cache.disk)
      modifies `n, `sector, cache
      ensures cache.Valid() && Coherent(cache.buf, cache.disk) && Quiet(cache.buf)
      ensures cache.disk == old(cache.disk) && cache.trace == old(cache.trace) && cache.boot == old(cache.boot)
      ensures |sector| == LOGSIZE && n == HeaderN(cache.disk[L.start])
      ensures sector[..n] == HeaderSectors(cache.disk[L.start])
    {
      hide Apply, Cache.Valid, Word;
      cache.Facts();
      assert Recyclable(cache.buf[0]);
      var h := cache.Bread(L.start);
      var data := cache.buf[h.i].data;
      n := Signed(Word(data, 0));
      var i := 0;
      while i < n
        modifies `sector
        invariant 0 <= i <= n <= LOGSIZE && |sector| == LOGSIZE
        invariant forall j :: 0 <= j < i ==> sector[j] == Word(data, j + 1)
      {
        sector := sector[i := Word(data, i + 1)];
        i := i + 1;
      }
      ghost var held := cache.buf;
      var r := cache.Brelse(h.i);
      cache.Facts();
      ReleaseCoherent(held, cache.buf, h.i, cache.disk);
      QuietAgain(old(cache.buf), held, cache.buf, h.i, L.start, cache.disk);
    }

    /** recover_from_log: exactly the writes of the crash theory's recovery. */
    method RecoverFromLog()
      requires cache.Valid() && Coherent(cache.buf, cache.disk) && Quiet(cache.buf)
      requires |sector| == LOGSIZE && LogOk(L, cache.disk)
      modifies `n, `sector, cache
      ensures cache.Valid() && Coherent(cache.buf, cache.disk) && Quiet(cache.buf)
      ensures n == 0 && |sector| == LOGSIZE
      ensures cache.disk == Recovered(L, old(cache.disk))
      ensures cache.trace == old(cache.trace) + RecoveryWrites(L, old(cache.disk))
    {
      hide Apply, Cache.Valid, Coherent, Unique, OnDisk, Installing, IdleChanged, Spare, PutHeader, HeaderSectors,
           Quiet;
      ReadHead();
      ghost var S, d := sector[..n], cache.disk;
      assert forall i :: 0 <= i < n ==> sector[i] == S[i] && S[i] in S;
      cache.Facts();
      ghost var quiet := cache.buf;
      QuietInstalling(L, quiet, S);
      var installed := InstallTrans();
      ghost var afterInstall := cache.buf;
      NoPinsLeft(L, cache.buf, S);
      n := 0;
      cache.Facts();
      var cleared := WriteHead();
      IdleChangedTrans(quiet, afterInstall, cache.buf);
      QuietKept(quiet, cache.buf);
      cache.Facts();
      assert RecoveryWrites(L, d) == InstallWrites(L, d, S) + [Write(L.start, PutHeader(d[L.start], []))];
      assert cache.trace == old(cache.trace) + RecoveryWrites(L, d);
      ApplyConcat(cache.boot, old(cache.trace), RecoveryWrites(L, d));
    }

    /** begin_trans; false is the pass that has to sleep. */
    method BeginTrans() returns (entered: bool)
      requires Valid()
      modifies `busy
      ensures Valid() && busy && entered == !old(busy)
    {
      entered := !busy;
      busy := true;
    }

    /** log_write's scan for an earlier record of the same sector. */
    method FindSlot(s: nat) returns (i: nat)
      requires |sector| == LOGSIZE && 0 <= n <= LOGSIZE
      ensures i == Slot(sector[..n], s)
    {
      i := 0;
      while i < n && sector[i] != s
        invariant 0 <= i <= n
        invariant forall j :: 0 <= j < i ==> sector[j] != s
      {
        i := i + 1;
      }
    }

    /** bread of a block of the log region, then memmove, bwrite and brelse. */
    method WriteLogBlock(at: nat, data: Block) returns (l: BreadResult)
      requires cache.Valid() && Coherent(cache.buf, cache.disk) && LogFree(L, cache.buf)
      requires L.start <= at < L.start + L.size <= |cache.disk|
      modifies cache
      ensures cache.boot == old(cache.boot)
      ensures !l.Ok? ==> forall j :: 0 <= j < NBUF ==> !Recyclable(old(cache.buf)[j])
      ensures l.Ok? ==>
        && cache.Valid() && Coherent(cache.buf, cache.disk)
        && cache.disk == old(cache.disk)[at := data]
        && cache.trace == old(cache.trace) + [Write(at, data)]
        && l.i < NBUF && OthersKept(old(cache.buf), cache.buf, l.i) && !old(cache.buf)[l.i].busy
        && (Caches(old(cache.buf)[l.i], ROOTDEV, at) || !old(cache.buf)[l.i].dirty)
        && Caches(cache.buf[l.i], ROOTDEV, at) && Recyclable(cache.buf[l.i])
    {
      hide Apply, Cache.Valid, Unique, Coherent;
      cache.Facts();
      l := cache.Bread(at);
      if l.Ok? {
        cache.Put(l.i, data);
      }
    }

    /** log_write past its checks: log block, slot, pin. */
    method Append(b: nat) returns (ok: bool)
      requires Valid() && LogFree(L, cache.buf) && busy && n < LOGSIZE && n < L.size - 1
      requires b < NBUF && cache.buf[b].busy && cache.buf[b].valid && Home(L, cache.buf[b].sector)
      modifies `n, `sector, `calls, cache
      ensures cache.boot == old(cache.boot)
      ensures !ok ==> forall j :: 0 <= j < NBUF ==> !Recyclable(old(cache.buf)[j])
      ensures ok ==>
        && Valid()
        && calls == old(calls) + [Write(old(cache.buf)[b].sector, old(cache.buf)[b].data)]
        && SamePayload(old(cache.buf)[b].(dirty := true), cache.buf[b])
        && HeldKept(old(cache.buf), cache.buf, b) && LogFree(L, cache.buf)
        && (exists j :: 0 <= j < NBUF && Recyclable(cache.buf[j]))
    {
      hide Apply, Cache.Valid, Unique, Coherent, Sectors, Slot, Accounted, Pinned, OthersKept, SamePayload, HeldKept,
           LogFree;
      cache.Facts();
      AccountedBounds(L, cache.boot, done, calls, cache.trace);
      ghost var pre := cache.buf;
      var w := Write(cache.buf[b].sector, cache.buf[b].data);
      var i := FindSlot(w.sector);
      SlotFilled(sector, n, calls, w, i);
      sector := sector[i := w.sector];
      var l := WriteLogBlock(L.start + i + 1, w.data);
      if !l.Ok? {
        return false;
      }
      if i == n {
        n := n + 1;
      }
      ghost var mid := cache.buf;
      KeptAt(pre, mid, l.i, b);
      cache.Modify(b, w.data, true);
      LogWriteFrame(L, pre, mid, cache.buf, b, l.i, w);
      PinnedIsLogged(pre, calls, l.i);
      LogWriteKeepsPins(pre, cache.buf, b, l.i, calls, w, cache.disk);
      LogWriteAccounted(L, cache.boot, done, calls, old(cache.trace), w);
      calls := calls + [w];
      return true;
    }

    /** log_write of a buffer the caller holds. */
    method LogWrite(b: nat) returns (r: Status)
      requires Valid() && LogFree(L, cache.buf)
      requires b < NBUF && cache.buf[b].busy && cache.buf[b].valid && Home(L, cache.buf[b].sector)
      modifies this, cache
      ensures r == TooBig <==> old(n) >= LOGSIZE || old(n) >= L.size - 1
      ensures r == OutsideTransaction <==> !(old(n) >= LOGSIZE || old(n) >= L.size - 1) && !old(busy)
      ensures r == OutOfBuffers ==> forall j :: 0 <= j < NBUF ==> !Recyclable(old(cache.buf)[j])
      ensures r == Fine ==>
        && Valid() && busy && done == old(done) && cache.boot == old(cache.boot)
        && calls == old(calls) + [Write(old(cache.buf)[b].sector, old(cache.buf)[b].data)]
        && SamePayload(old(cache.buf)[b].(dirty := true), cache.buf[b])
        && HeldKept(old(cache.buf), cache.buf, b) && LogFree(L, cache.buf)
        && (exists j :: 0 <= j < NBUF && Recyclable(cache.buf[j]))
    {
      if n >= LOGSIZE || n >= L.size - 1 { return TooBig; }
      if !busy { return OutsideTransaction; }
      var ok := Append(b);
      return if ok then Fine else OutOfBuffers;
    }

    /** bread of a home sector: whatever is pinned, logged or installed, the caller sees the
        plain disk with every transaction so far, the open one included, written straight to it. */
    method ReadBlock(s: nat) returns (r: BreadResult)
      requires Valid() && Home(L, s)
      modifies cache
      ensures cache.boot == old(cache.boot) && (!r.Panicked? ==> Valid())
      ensures r.Panicked? && s < |cache.boot| ==> forall j :: 0 <= j < NBUF ==> !Recyclable(old(cache.buf)[j])
      ensures r.Wait? ==> r.i < NBUF && old(cache.buf)[r.i].busy && Caches(old(cache.buf)[r.i], ROOTDEV, s)
      ensures r.Ok? ==>
        && r.i < NBUF && cache.buf[r.i].busy && cache.buf[r.i].valid && Caches(cache.buf[r.i], ROOTDEV, s)
        && s < |cache.boot| && cache.buf[r.i].data == Direct(cache.boot, done + [calls])[s]
        && HeldKept(old(cache.buf), cache.buf, NBUF)
    {
      hide Apply, Cache.Valid, Coherent, Accounted, Pinned;
      cache.Facts();
      r := cache.Bread(s);
      if r.Ok? {
        FetchKeepsPins(old(cache.buf), cache.buf, r.i, s, cache.disk, calls);
        FetchedIsLatest(L, cache.boot, done, calls, cache.trace, old(cache.buf), cache.buf, r.i, s, cache.disk);
      }
    }

    /** brelse of a home sector: the holder leaves what it has logged, or what it found. */
    method ReleaseBlock(b: nat)
      requires Valid() && b < NBUF && cache.buf[b].busy && cache.buf[b].valid
      requires Home(L, cache.buf[b].sector) && cache.buf[b].sector < |cache.boot|
      requires cache.buf[b].data == Direct(cache.boot, done + [calls])[cache.buf[b].sector]
      modifies cache
      ensures Valid() && cache.boot == old(cache.boot)
      ensures OthersKept(old(cache.buf), cache.buf, b)
      ensures SamePayload(old(cache.buf)[b].(busy := false), cache.buf[b])
    {
      hide Unique, Coherent, Accounted, Pinned, Direct, Sectors, Latest;
      ViewIsDirect(L, cache.boot, done, calls, cache.trace, cache.buf[b].sector);
      var r := cache.Brelse(b);
      ReleaseKeeps(old(cache.buf), cache.buf, b, cache.disk, calls);
    }

    /** write_head: the count and the sectors into the header block, in one sector write. */
    method WriteHead() returns (ok: bool)
      requires cache.Valid() && Coherent(cache.buf, cache.disk) && LogIdle(L, cache.buf)
      requires |sector| == LOGSIZE && 0 <= n <= LOGSIZE && L.size >= 1 && L.start + L.size <= |cache.disk|
      modifies cache
      ensures cache.boot == old(cache.boot)
      ensures Spare(old(cache.buf)) ==> ok && Spare(cache.buf)
      ensures ok ==>
        && cache.Valid() && Coherent(cache.buf, cache.disk) && IdleChanged(old(cache.buf), cache.buf)
        && var b := PutHeader(old(cache.disk)[L.start], sector[..n]);
           cache.disk == old(cache.disk)[L.start := b] && cache.trace == old(cache.trace) + [Write(L.start, b)]
    {
      hide Apply, Cache.Valid, Unique, PutHeader;
      cache.Facts();
      var h := cache.Bread(L.start);
      if !h.Ok? {
        return false;
      }
      assert cache.buf[h.i].data == cache.disk[L.start];
      var b := EditHeader(cache.buf[h.i].data);
      cache.Put(h.i, b);
      if Spare(old(cache.buf)) {
        SpareKept(old(cache.buf), cache.buf);
      }
      return true;
    }

    /** write_head's loop over the sector numbers. */
    method EditHeader(data: Block) returns (b: Block)
      requires |sector| == LOGSIZE && 0 <= n <= LOGSIZE
      ensures b == PutHeader(data, sector[..n])
    {
      hide PutWord, Word;
      b := PutWord(data, 0, n);
      var i := 0;
      while i < n
        invariant 0 <= i <= n
        invariant b == PutSectors(PutWord(data, 0, n), sector[..i])
      {
        assert sector[..i + 1][..i] == sector[..i];
        b := PutWord(b, i + 1, sector[i]);
        i := i + 1;
      }
    }

    /** One turn of install_trans: a log block to its home sector. */
    method InstallOne(from: nat, to: nat) returns (ok: bool)
      requires cache.Valid() && Coherent(cache.buf, cache.disk) && LogIdle(L, cache.buf)
      requires L.start <= from < L.start + L.size <= |cache.disk| && Home(L, to) && to < |cache.disk|
      requires forall j :: 0 <= j < NBUF && cache.buf[j].busy ==> !Caches(cache.buf[j], ROOTDEV, to)
      modifies cache
      ensures cache.boot == old(cache.boot)
      ensures Spare(old(cache.buf)) ==> ok
      ensures ok ==>
        && cache.Valid() && Coherent(cache.buf, cache.disk)
        && cache.disk == old(cache.disk)[to := old(cache.disk)[from]]
        && cache.trace == old(cache.trace) + [Write(to, old(cache.disk)[from])]
        && IdleChanged(old(cache.buf), cache.buf) && Spare(cache.buf)
        && forall j :: 0 <= j < NBUF && cache.buf[j].dirty ==> !Caches(cache.buf[j], ROOTDEV, to)
    {
      hide Apply, Cache.Valid, Unique, IdleChanged;
      cache.Facts();
      ghost var b0 := cache.buf;
      var l := cache.Bread(from);
      if !l.Ok? { return false; }
      ghost var b1 := cache.buf;
      if Spare(b0) {
        OneLeft(b0, b1, l.i, from, cache.disk);
      }
      cache.Facts();
      var d := cache.Bread(to);
      if !d.Ok? { return false; }
      BothFetched(b0, b1, cache.buf, l.i, d.i, from, to, cache.disk);
      CopyAndRelease(b0, l.i, d.i, from, to);
      return true;
    }

    /** The memmove, bwrite and brelses of that turn. */
    method CopyAndRelease(ghost b0: seq<Buf>, l: nat, d: nat, from: nat, to: nat)
      requires cache.Valid() && Coherent(cache.buf, cache.disk) && from < |cache.disk| && to < |cache.disk|
      requires from != to && TookBoth(b0, cache.buf, l, d, from, to) && cache.buf[l].data == cache.disk[from]
      modifies cache
      ensures cache.boot == old(cache.boot)
      ensures cache.Valid() && Coherent(cache.buf, cache.disk)
      ensures cache.disk == old(cache.disk)[to := old(cache.disk)[from]]
      ensures cache.trace == old(cache.trace) + [Write(to, old(cache.disk)[from])]
      ensures IdleChanged(b0, cache.buf) && Spare(cache.buf)
      ensures forall j :: 0 <= j < NBUF && cache.buf[j].dirty ==> !Caches(cache.buf[j], ROOTDEV, to)
    {
      hide Apply, Cache.Valid, IdleChanged, Spare;
      ghost var b2 := cache.buf;
      cache.Facts();
      cache.Modify(d, cache.buf[l].data, cache.buf[d].dirty);
      var w := cache.Bwrite(d);
      ghost var b3 := cache.buf;
      assert Coherent(b3, cache.disk);
      var r1 := cache.Brelse(l);
      ghost var b4 := cache.buf;
      cache.Facts();
      ReleaseCoherent(b3, b4, l, cache.disk);
      var r2 := cache.Brelse(d);
      cache.Facts();
      ReleaseCoherent(b4, cache.buf, d, cache.disk);
      BothReleased(b0, b2, b3, b4, cache.buf, l, d, from, to);
    }

    /** install_trans: every listed log block goes home. */
    method InstallTrans() returns (ok: bool)
      requires cache.Valid() && Coherent(cache.buf, cache.disk)
      requires |sector| == LOGSIZE && 0 <= n <= LOGSIZE && n < L.size && L.start + L.size <= |cache.disk|
      requires forall i :: 0 <= i < n ==> Home(L, sector[i]) && sector[i] < |cache.disk|
      requires Installing(L, cache.buf, sector[..n], 0)
      modifies cache
      ensures cache.boot == old(cache.boot)
      ensures Spare(old(cache.buf)) ==> ok && Spare(cache.buf)
      ensures ok ==>
        && cache.Valid() && Coherent(cache.buf, cache.disk)
        && Installing(L, cache.buf, sector[..n], n) && IdleChanged(old(cache.buf), cache.buf)
        && cache.trace == old(cache.trace) + InstallWrites(L, old(cache.disk), sector[..n])
        && cache.disk[L.start] == old(cache.disk)[L.start]
    {
      hide Apply, Cache.Valid, Coherent, Installing, IdleChanged, Spare;
      ghost var S, writes := sector[..n], InstallWrites(L, cache.disk, sector[..n]);
      cache.Facts();
      var t := 0;
      IdleUnchanged(cache.buf);
      while t < n
        invariant 0 <= t <= n && cache.boot == old(cache.boot) && cache.Valid()
        invariant Installing(L, cache.buf, S, t) && IdleChanged(old(cache.buf), cache.buf)
        invariant |cache.disk| == |old(cache.disk)| && |cache.buf| == NBUF + 1 && OnDisk(cache.buf, cache.disk)
        invariant Coherent(cache.buf, cache.disk)
        invariant cache.trace == old(cache.trace) + writes[..t]
        invariant forall s :: L.start <= s < L.start + L.size ==> cache.disk[s] == old(cache.disk)[s]
        invariant Spare(old(cache.buf)) ==> Spare(cache.buf)
      {
        ghost var pre := cache.buf;
        InstallReady(L, pre, S, t);
        var one := InstallOne(L.start + t + 1, sector[t]);
        if !one {
          return false;
        }
        cache.Facts();
        InstallingStep(L, pre, cache.buf, S, t, cache.disk);
        IdleChangedTrans(old(cache.buf), pre, cache.buf);
        assert writes[..t + 1] == writes[..t] + [writes[t]];
        t := t + 1;
      }
      assert writes[..n] == writes;
      return true;
    }

    /** commit_trans up to the erasure: commit record, install. */
    method CommitAndInstall() returns (ok: bool)
      requires Valid() && calls != [] && CommitReady(L, cache.buf, calls)
      modifies cache
      ensures cache.boot == old(cache.boot)
      ensures Spare(old(cache.buf)) ==> ok && Spare(cache.buf)
      ensures ok ==>
        && cache.Valid() && Coherent(cache.buf, cache.disk) && IdleChanged(old(cache.buf), cache.buf)
        && Installing(L, cache.buf, sector[..n], n)
        && L.start + L.size <= |old(cache.disk)|
        && var d := old(cache.disk)[L.start := PutHeader(old(cache.disk)[L.start], sector[..n])];
           && L.start + n < |d| && cache.disk[L.start] == d[L.start]
           && cache.trace == old(cache.trace) + [Write(L.start, d[L.start])] + InstallWrites(L, d, sector[..n])
    {
      hide Apply, Cache.Valid, Coherent, Unique, OnDisk, Sectors, Accounted, Pinned, CommitReady, Installing,
           IdleChanged, Spare, LogIdle, PutHeader, LogFree, InstallWrites;
      cache.Facts();
      AccountedBounds(L, cache.boot, done, calls, cache.trace);
      PinsReady(L, cache.buf, calls);
      ghost var S := sector[..n];
      assert forall i :: 0 <= i < n ==> sector[i] == S[i] && S[i] in S;
      NotEmpty(calls);
      InstallReady(L, cache.buf, S, 0);
      ok := WriteHead();
      if !ok { return; }
      ghost var afterHead := cache.buf;
      InstallingFrame(L, old(cache.buf), cache.buf, S, 0);
      ok := InstallTrans();
      if !ok { return; }
      IdleChangedTrans(old(cache.buf), afterHead, cache.buf);
    }

    /** commit_trans past its test: commit record, install, erase. */
    method CommitAll() returns (ok: bool)
      requires Valid() && busy && calls != [] && CommitReady(L, cache.buf, calls)
      modifies `n, `calls, `done, cache
      ensures cache.boot == old(cache.boot) && sector == old(sector)
      ensures Spare(old(cache.buf)) ==> ok && Spare(cache.buf)
      ensures ok ==> Valid() && calls == [] && done == old(done) + [old(calls)]
      ensures ok ==> IdleChanged(old(cache.buf), cache.buf) && LogFree(L, cache.buf)
    {
      hide Apply, Cache.Valid, Coherent, Unique, OnDisk, Sectors, Accounted, Pinned, CommitReady, Installing,
           IdleChanged, Spare, LogIdle, PutHeader, LogFree, InstallWrites;
      cache.Facts();
      AccountedBounds(L, cache.boot, done, calls, cache.trace);
      ghost var S := sector[..n];
      ghost var d := cache.disk[L.start := PutHeader(cache.disk[L.start], S)];
      CommitAccounted(L, cache.boot, done, calls, cache.trace, d, S);
      ok := CommitAndInstall();
      if !ok { return; }
      ghost var afterInstall := cache.buf;
      NoPinsLeft(L, cache.buf, S);
      n := 0;
      cache.Facts();
      ok := WriteHead();
      if !ok { return; }
      IdleChangedTrans(old(cache.buf), afterInstall, cache.buf);
      InstallingFrame(L, afterInstall, cache.buf, S, |S|);
      NoPinsLeft(L, cache.buf, S);
      done := done + [calls];
      calls := [];
      NothingLogged();
    }

    /** commit_trans; false is the panic for want of a buffer, impossible while two are spare. */
    method CommitTrans() returns (ok: bool)
      requires Valid() && busy && CommitReady(L, cache.buf, calls)
      modifies this, cache
      ensures cache.boot == old(cache.boot)
      ensures Spare(old(cache.buf)) ==> ok && Spare(cache.buf)
      ensures ok ==> Valid() && !busy && calls == [] && done == old(done) + [old(calls)]
      ensures ok ==> IdleChanged(old(cache.buf), cache.buf) && LogFree(L, cache.buf)
    {
      hide Apply, Cache.Valid, Coherent, Unique, OnDisk, Sectors, Accounted, Pinned, Installing, IdleChanged, Spare,
           LogFree;
      ok := true;
      cache.Facts();
      if n > 0 {
        NothingLogged();
        ok := CommitAll();
        if !ok { return; }
      } else {
        if calls != [] { NotEmpty(calls); }
        IdleUnchanged(cache.buf);
        EmptyCommitAccounted(L, cache.boot, done, cache.trace);
        done := done + [calls];
      }
      busy := false;
    }

    /** At any moment of any execution, a crash after any of the sector writes so far, with any
        number of crashes during recovery, leaves exactly the committed transactions. */
    lemma {:induction false} SurvivesCrashes(k: nat, cuts: seq<nat>)
      requires Valid()
      ensures var d := Apply(cache.boot, Cut(cache.trace, k));
              && LogOk(L, d)
              && SameHome(L, CrashyRecovery(L, d, cuts), Direct(cache.boot, done[..Commits(L, cache.boot, done, k)]))
    {
      AccountedSurvives(L, cache.boot, done, calls, cache.trace, k, cuts);
    }
  }
}