/** The on-disk redo log of kernel/log.c as sequences of atomic sector writes:
    what a transaction writes, what recovery writes, and what survives a crash
    after any prefix of either. */
module RedoLog {
  import opened Bytes
  import opened BufferCache

  const LOGSIZE := 10

  /** `log.start` and `log.size`; the header is sector start, the log blocks follow it. */
  datatype Layout = Layout(start: nat, size: nat)

  predicate Home(L: Layout, s: nat) {
    !(L.start <= s < L.start + L.size)
  }

  /** A 32-bit word read as a C int. */
  function Signed(w: uint32): int {
    if w < 0x8000_0000 then w else w - 0x1_0000_0000
  }

  function HeaderN(b: Block): int {
    Signed(Word(b, 0))
  }

  /** The sector numbers listed in a header block. */
  function HeaderSectors(b: Block): seq<nat>
    requires HeaderN(b) <= LOGSIZE
  {
    seq(if HeaderN(b) < 0 then 0 else HeaderN(b), i requires 0 <= i < LOGSIZE => Word(b, i + 1))
  }

  /** write_head's edit of the header block: the count and the first sector slots, the rest kept. */
  function PutHeader(b: Block, sectors: seq<uint32>): (r: Block)
    requires |sectors| <= LOGSIZE
    ensures HeaderN(r) == |sectors| && HeaderSectors(r) == sectors
  {
    PutSectors(PutWord(b, 0, |sectors|), sectors)
  }

  function PutSectors(b: Block, sectors: seq<uint32>): (r: Block)
    requires |sectors| <= LOGSIZE
    ensures Word(r, 0) == Word(b, 0)
    ensures forall i :: 0 <= i < |sectors| ==> Word(r, i + 1) == sectors[i]
  {
    if sectors == [] then b
    else PutWord(PutSectors(b, sectors[..|sectors| - 1]), |sectors|, sectors[|sectors| - 1])
  }

  // ----- writes -----

  /** What has reached the disk when a sequence of writes is cut off after k of them. */
  function Cut(writes: seq<Write>, k: nat): seq<Write> {
    if k < |writes| then writes[..k] else writes
  }

  lemma {:induction false} CutConcat(a: seq<Write>, b: seq<Write>, k: nat)
    requires |a| <= k
    ensures Cut(a + b, k) == a + Cut(b, k - |a|)
  {
  }

  lemma {:induction false} ApplyConcat(disk: seq<Block>, a: seq<Write>, b: seq<Write>)
    ensures Apply(disk, a + b) == Apply(Apply(disk, a), b)
  {
    if b == [] {
      assert a + b == a;
    } else {
      assert (a + b)[..|a + b| - 1] == a + b[..|b| - 1];
      ApplyConcat(disk, a, b[..|b| - 1]);
    }
  }

  /** A sector the writes do not touch keeps its contents. */
  lemma {:induction false} ApplyUntouched(disk: seq<Block>, writes: seq<Write>, s: nat)
    requires s < |disk| && forall w :: w in writes ==> w.sector != s
    ensures Apply(disk, writes)[s] == disk[s]
  {
    if writes != [] {
      var last := writes[|writes| - 1];
      assert last in writes;
      ApplyUntouched(disk, writes[..|writes| - 1], s);
    }
  }

  /** What a sector holds after the writes depends on its old contents only if none touches it. */
  lemma {:induction false} ApplyAgree(d: seq<Block>, e: seq<Block>, writes: seq<Write>, s: nat)
    requires |d| == |e| && s < |d|
    requires d[s] == e[s] || exists w :: w in writes && w.sector == s
    ensures Apply(d, writes)[s] == Apply(e, writes)[s]
  {
    if writes != [] {
      var init, last := writes[..|writes| - 1], writes[|writes| - 1];
      if last.sector != s {
        assert d[s] == e[s] || exists w :: w in init && w.sector == s;
        ApplyAgree(d, e, init, s);
      }
    }
  }

  /** Replaying a sequence over the effect of one of its own prefixes changes nothing. */
  lemma {:induction false} ReplayAbsorbsPrefix(disk: seq<Block>, writes: seq<Write>, k: nat)
    requires k <= |writes|
    ensures Apply(Apply(disk, writes[..k]), writes) == Apply(disk, writes)
  {
    var d := Apply(disk, writes[..k]);
    forall s: nat | s < |disk| ensures Apply(d, writes)[s] == Apply(disk, writes)[s] {
      if forall w :: w in writes ==> w.sector != s {
        ApplyUntouched(disk, writes[..k], s);
      }
      ApplyAgree(d, disk, writes, s);
    }
  }

  // ----- recovery -----

  /** The log region exists and the header lists at most as many home sectors as there are slots. */
  ghost predicate LogOk(L: Layout, disk: seq<Block>) {
    && L.size >= 1 && L.start + L.size <= |disk| <= 0x8000_0000
    && 0 <= HeaderN(disk[L.start]) <= LOGSIZE && HeaderN(disk[L.start]) < L.size
    && forall s :: s in HeaderSectors(disk[L.start]) ==> Home(L, s) && s < |disk|
  }

  ghost predicate NoLog(L: Layout, disk: seq<Block>) {
    LogOk(L, disk) && HeaderN(disk[L.start]) == 0
  }

  /** Equal outside the log region. */
  ghost predicate SameHome(L: Layout, d: seq<Block>, e: seq<Block>) {
    |d| == |e| && forall s :: 0 <= s < |d| && Home(L, s) ==> d[s] == e[s]
  }

  /** install_trans: each log block goes to its home sector. */
  function InstallWrites(L: Layout, disk: seq<Block>, sectors: seq<nat>): (r: seq<Write>)
    requires L.start + |sectors| < |disk|
    ensures |r| == |sectors|
    ensures forall t :: 0 <= t < |r| ==> r[t] == Write(sectors[t], disk[L.start + 1 + t])
  {
    seq(|sectors|, t requires 0 <= t < |sectors| => Write(sectors[t], disk[L.start + 1 + t]))
  }

  /** recover_from_log: install what the header lists, then clear the header. */
  ghost function RecoveryWrites(L: Layout, disk: seq<Block>): seq<Write>
    requires LogOk(L, disk)
  {
    InstallWrites(L, disk, HeaderSectors(disk[L.start])) + [Write(L.start, PutHeader(disk[L.start], []))]
  }

  ghost function Recovered(L: Layout, disk: seq<Block>): seq<Block>
    requires LogOk(L, disk)
  {
    Apply(disk, RecoveryWrites(L, disk))
  }

  /** Installing touches home sectors only. */
  lemma {:induction false} InstallKeepsLog(L: Layout, disk: seq<Block>, sectors: seq<nat>, k: nat)
    requires L.start + |sectors| < |disk| && k <= |sectors|
    requires forall s :: s in sectors ==> Home(L, s)
    ensures forall s :: L.start <= s < L.start + L.size && s < |disk| ==>
      Apply(disk, InstallWrites(L, disk, sectors)[..k])[s] == disk[s]
  {
    var writes := InstallWrites(L, disk, sectors)[..k];
    forall s | L.start <= s < L.start + L.size && s < |disk| ensures Apply(disk, writes)[s] == disk[s] {
      forall w | w in writes ensures w.sector != s {
        var t :| 0 <= t < |writes| && writes[t] == w;
        assert sectors[t] in sectors;
      }
      ApplyUntouched(disk, writes, s);
    }
  }

  /** Recovery empties the log. */
  lemma {:induction false} RecoveredHasNoLog(L: Layout, disk: seq<Block>)
    requires LogOk(L, disk)
    ensures NoLog(L, Recovered(L, disk))
  {
    var b := PutHeader(disk[L.start], []);
    ApplyAppend(disk, InstallWrites(L, disk, HeaderSectors(disk[L.start])), Write(L.start, b));
    assert HeaderSectors(b) == [];
  }

  lemma {:induction false} RecoveryOfNoLog(L: Layout, disk: seq<Block>)
    requires NoLog(L, disk)
    ensures SameHome(L, Recovered(L, disk), disk)
  {
    assert HeaderSectors(disk[L.start]) == [];
    forall s | 0 <= s < |disk| && Home(L, s) ensures Recovered(L, disk)[s] == disk[s] {
      ApplyUntouched(disk, RecoveryWrites(L, disk), s);
    }
  }

  /** A crash after any prefix of recovery's writes costs nothing: recovering again
      gives the home sectors the interrupted recovery would have given. */
  lemma {:induction false} RecoverySurvivesCrash(L: Layout, disk: seq<Block>, k: nat)
    requires LogOk(L, disk)
    ensures LogOk(L, Apply(disk, Cut(RecoveryWrites(L, disk), k)))
    ensures SameHome(L, Recovered(L, Apply(disk, Cut(RecoveryWrites(L, disk), k))), Recovered(L, disk))
  {
    var writes := RecoveryWrites(L, disk);
    var sectors := HeaderSectors(disk[L.start]);
    var d := Apply(disk, Cut(writes, k));
    if k >= |writes| {
      RecoveredHasNoLog(L, disk);
      RecoveryOfNoLog(L, d);
    } else {
      assert writes[..k] == InstallWrites(L, disk, sectors)[..k];
      InstallKeepsLog(L, disk, sectors, k);
      assert d[L.start] == disk[L.start];
      assert InstallWrites(L, d, sectors) == InstallWrites(L, disk, sectors);
      ReplayAbsorbsPrefix(disk, writes, k);
    }
  }

  /** Recovery interrupted after cuts[0] writes, then after cuts[1] writes, ..., then completed. */
  ghost function CrashyRecovery(L: Layout, disk: seq<Block>, cuts: seq<nat>): seq<Block>
    requires LogOk(L, disk)
    decreases |cuts|
  {
    if cuts == [] then Recovered(L, disk)
    else
      RecoverySurvivesCrash(L, disk, cuts[0]);
      CrashyRecovery(L, Apply(disk, Cut(RecoveryWrites(L, disk), cuts[0])), cuts[1..])
  }

  /** Any number of crashes during recovery are absorbed. */
  lemma {:induction false} RecoverySurvivesCrashes(L: Layout, disk: seq<Block>, cuts: seq<nat>)
    requires LogOk(L, disk)
    ensures SameHome(L, CrashyRecovery(L, disk, cuts), Recovered(L, disk))
    ensures NoLog(L, CrashyRecovery(L, disk, cuts))
    decreases |cuts|
  {
    if cuts == [] {
      RecoveredHasNoLog(L, disk);
    } else {
      RecoverySurvivesCrash(L, disk, cuts[0]);
      RecoverySurvivesCrashes(L, Apply(disk, Cut(RecoveryWrites(L, disk), cuts[0])), cuts[1..]);
    }
  }

  // ----- transactions -----

  /** The logged sectors in the order of their first log_write. */
  function Sectors(calls: seq<Write>): (r: seq<nat>)
    ensures |r| <= |calls|
  {
    if calls == [] then []
    else
      var r, s := Sectors(calls[..|calls| - 1]), calls[|calls| - 1].sector;
      if s in r then r else r + [s]
  }

  /** Each logged sector is listed once. */
  lemma {:induction false} SectorsSpec(calls: seq<Write>)
    ensures forall s :: s in Sectors(calls) <==> exists i :: 0 <= i < |calls| && calls[i].sector == s
    ensures forall i, j :: 0 <= i < j < |Sectors(calls)| ==> Sectors(calls)[i] != Sectors(calls)[j]
  {
    if calls != [] {
      var init, last := calls[..|calls| - 1], calls[|calls| - 1];
      SectorsSpec(init);
      forall s | s in Sectors(calls) ensures exists i :: 0 <= i < |calls| && calls[i].sector == s {
        if s in Sectors(init) {
          var i :| 0 <= i < |init| && init[i].sector == s;
          assert calls[i].sector == s;
        } else {
          assert calls[|calls| - 1].sector == s;
        }
      }
      forall i | 0 <= i < |calls| ensures calls[i].sector in Sectors(calls) {
        assert i < |init| ==> init[i].sector == calls[i].sector;
      }
    }
  }

  /** The slot log_write's scan stops at: that of the sector, or one past the last. */
  function Slot(sectors: seq<nat>, s: nat): (i: nat)
    ensures i <= |sectors| && (i < |sectors| <==> s in sectors)
    ensures i < |sectors| ==> sectors[i] == s
    ensures forall j :: 0 <= j < i ==> sectors[j] != s
  {
    if sectors == [] || sectors[0] == s then 0 else 1 + Slot(sectors[1..], s)
  }

  /** The log blocks written by a transaction's log_write calls. */
  function LogWrites(L: Layout, calls: seq<Write>): (r: seq<Write>)
    ensures |r| == |calls|
  {
    if calls == [] then []
    else
      var init, last := calls[..|calls| - 1], calls[|calls| - 1];
      LogWrites(L, init) + [Write(L.start + 1 + Slot(Sectors(init), last.sector), last.data)]
  }

  lemma {:induction false} LogWritesStep(L: Layout, calls: seq<Write>, w: Write)
    ensures LogWrites(L, calls + [w]) ==
            LogWrites(L, calls) + [Write(L.start + 1 + Slot(Sectors(calls), w.sector), w.data)]
  {
    hide Slot, Sectors;
    var c := calls + [w];
    assert c[..|c| - 1] == calls && c[|c| - 1] == w;
  }

  lemma {:induction false} SectorsStep(calls: seq<Write>, w: Write)
    ensures var S := Sectors(calls);
            Sectors(calls + [w]) == if Slot(S, w.sector) < |S| then S else S + [w.sector]
  {
    assert (calls + [w])[..|calls|] == calls;
  }

  /** The last bytes logged for a sector. */
  function Latest(calls: seq<Write>, s: nat): Block
    requires s in Sectors(calls)
  {
    var init, last := calls[..|calls| - 1], calls[|calls| - 1];
    if last.sector == s then last.data else Latest(init, s)
  }

  ghost predicate Legal(L: Layout, disk: seq<Block>, calls: seq<Write>) {
    && |Sectors(calls)| <= LOGSIZE && |Sectors(calls)| < L.size
    && forall w :: w in calls ==> Home(L, w.sector) && w.sector < |disk|
  }

  lemma {:induction false} LegalPrefix(L: Layout, disk: seq<Block>, calls: seq<Write>)
    requires Legal(L, disk, calls) && calls != []
    ensures Legal(L, disk, calls[..|calls| - 1])
  {
  }

  lemma {:induction false} LegalSectors(L: Layout, disk: seq<Block>, calls: seq<Write>)
    requires Legal(L, disk, calls)
    ensures forall i :: 0 <= i < |Sectors(calls)| ==> Home(L, Sectors(calls)[i]) && Sectors(calls)[i] < |disk|
  {
    SectorsSpec(calls);
    forall i | 0 <= i < |Sectors(calls)| ensures Home(L, Sectors(calls)[i]) && Sectors(calls)[i] < |disk| {
      assert Sectors(calls)[i] in Sectors(calls);
      var j :| 0 <= j < |calls| && calls[j].sector == Sectors(calls)[i];
      assert calls[j] in calls;
    }
  }

  /** log_write touches neither the header nor a home sector. */
  lemma {:induction false} LogWritesStayInLog(L: Layout, disk: seq<Block>, calls: seq<Write>, w: Write)
    requires Legal(L, disk, calls) && w in LogWrites(L, calls)
    ensures L.start < w.sector <= L.start + |Sectors(calls)|
  {
    var init, last := calls[..|calls| - 1], calls[|calls| - 1];
    if w in LogWrites(L, init) {
      LegalPrefix(L, disk, calls);
      LogWritesStayInLog(L, disk, init, w);
    }
  }

  /** Before the header is written, every log slot holds the last bytes of its sector. */
  lemma {:induction false} LogSlots(L: Layout, disk: seq<Block>, calls: seq<Write>, i: nat)
    requires LogOk(L, disk) && Legal(L, disk, calls) && i < |Sectors(calls)|
    ensures Apply(disk, LogWrites(L, calls))[L.start + 1 + i] == Latest(calls, Sectors(calls)[i])
  {
    hide Apply, HeaderSectors, HeaderN, Home;
    var init, last := calls[..|calls| - 1], calls[|calls| - 1];
    LegalPrefix(L, disk, calls);
    SectorsSpec(calls);
    ApplyAppend(disk, LogWrites(L, init), Write(L.start + 1 + Slot(Sectors(init), last.sector), last.data));
    if Sectors(calls)[i] != last.sector {
      assert Sectors(init)[i] == Sectors(calls)[i];
      LogSlots(L, disk, init, i);
    }
  }

  lemma {:induction false} LogBlocks(L: Layout, disk: seq<Block>, calls: seq<Write>)
    requires LogOk(L, disk) && Legal(L, disk, calls)
    ensures SameHome(L, Apply(disk, LogWrites(L, calls)), disk)
    ensures Apply(disk, LogWrites(L, calls))[L.start] == disk[L.start]
  {
    var writes := LogWrites(L, calls);
    forall s: nat | s < |disk| && (Home(L, s) || s == L.start) ensures Apply(disk, writes)[s] == disk[s] {
      forall w | w in writes ensures w.sector != s {
        LogWritesStayInLog(L, disk, calls, w);
      }
      ApplyUntouched(disk, writes, s);
    }
  }

  /** Writing the calls straight to their home sectors leaves the last bytes of each. */
  lemma {:induction false} DirectWrites(disk: seq<Block>, calls: seq<Write>, s: nat)
    requires s < |disk|
    ensures Apply(disk, calls)[s] == if s in Sectors(calls) then Latest(calls, s) else disk[s]
  {
    if calls != [] {
      DirectWrites(disk, calls[..|calls| - 1], s);
    }
  }

  lemma {:induction false} InstallAt(L: Layout, disk: seq<Block>, sectors: seq<nat>, k: nat, t: nat)
    requires L.start + |sectors| < |disk| && t < k <= |sectors| && sectors[t] < |disk|
    requires forall i, j :: 0 <= i < j < |sectors| ==> sectors[i] != sectors[j]
    ensures Apply(disk, InstallWrites(L, disk, sectors)[..k])[sectors[t]] == disk[L.start + 1 + t]
  {
    var writes := InstallWrites(L, disk, sectors);
    assert writes[..k] == writes[..k - 1] + [writes[k - 1]];
    ApplyAppend(disk, writes[..k - 1], writes[k - 1]);
    if t < k - 1 {
      InstallAt(L, disk, sectors, k - 1, t);
    }
  }

  /** Sector numbers as header words. */
  function Words(sectors: seq<nat>): (r: seq<uint32>)
    requires forall i :: 0 <= i < |sectors| ==> sectors[i] < 0x8000_0000
    ensures r == sectors
  {
    sectors
  }

  /** The disk once the commit record is written. */
  function Committed(L: Layout, disk: seq<Block>, calls: seq<Write>): (r: seq<Block>)
    requires L.start < |disk| <= 0x8000_0000 && Legal(L, disk, calls)
  {
    LegalSectors(L, disk, calls);
    var d := Apply(disk, LogWrites(L, calls));
    d[L.start := PutHeader(d[L.start], Words(Sectors(calls)))]
  }

  lemma {:induction false} CommittedOk(L: Layout, disk: seq<Block>, calls: seq<Write>)
    requires NoLog(L, disk) && Legal(L, disk, calls)
    ensures LogOk(L, Committed(L, disk, calls))
    ensures HeaderSectors(Committed(L, disk, calls)[L.start]) == Sectors(calls)
  {
    LegalSectors(L, disk, calls);
  }

  lemma {:induction false} CommittedInstalls(L: Layout, disk: seq<Block>, calls: seq<Write>, s: nat)
    requires NoLog(L, disk) && Legal(L, disk, calls) && s < |disk| && Home(L, s)
    ensures var d := Committed(L, disk, calls);
            Apply(d, InstallWrites(L, d, Sectors(calls)))[s] == Apply(disk, calls)[s]
  {
    hide PutHeader, Apply, LogWrites, Sectors, HeaderSectors, Latest;
    var sectors, d := Sectors(calls), Committed(L, disk, calls);
    var install := InstallWrites(L, d, sectors);
    SectorsSpec(calls);
    DirectWrites(disk, calls, s);
    if s in sectors {
      var t := Slot(sectors, s);
      assert install[..|sectors|] == install;
      InstallAt(L, d, sectors, |sectors|, t);
      LogSlots(L, disk, calls, t);
    } else {
      forall w | w in install ensures w.sector != s {
        var t :| 0 <= t < |install| && install[t] == w;
        assert sectors[t] in sectors;
      }
      ApplyUntouched(d, install, s);
      LogBlocks(L, disk, calls);
    }
  }

  /** Once the commit record is on disk, recovery installs exactly the calls. */
  lemma {:induction false} CommittedRecovers(L: Layout, disk: seq<Block>, calls: seq<Write>)
    requires NoLog(L, disk) && Legal(L, disk, calls)
    ensures LogOk(L, Committed(L, disk, calls))
    ensures SameHome(L, Recovered(L, Committed(L, disk, calls)), Apply(disk, calls))
  {
    var d := Committed(L, disk, calls);
    CommittedOk(L, disk, calls);
    ApplyAppend(d, InstallWrites(L, d, Sectors(calls)), Write(L.start, PutHeader(d[L.start], [])));
    forall s: nat | s < |disk| && Home(L, s) ensures Recovered(L, d)[s] == Apply(disk, calls)[s] {
      CommittedInstalls(L, disk, calls, s);
    }
  }

  /** commit_trans: nothing for an empty transaction, else header, install, cleared header. */
  ghost function CommitWrites(L: Layout, disk: seq<Block>, calls: seq<Write>): seq<Write>
    requires NoLog(L, disk) && Legal(L, disk, calls)
  {
    if calls == [] then []
    else
      CommittedOk(L, disk, calls);
      var d := Committed(L, disk, calls);
      [Write(L.start, d[L.start])] + RecoveryWrites(L, d)
  }

  /** Every sector write of a transaction, in order. */
  ghost function TxWrites(L: Layout, disk: seq<Block>, calls: seq<Write>): seq<Write>
    requires NoLog(L, disk) && Legal(L, disk, calls)
  {
    LogWrites(L, calls) + CommitWrites(L, disk, calls)
  }

  lemma {:induction false} LogWritesPrefix(L: Layout, disk: seq<Block>, calls: seq<Write>, k: nat)
    requires Legal(L, disk, calls) && k <= |calls|
    ensures LogWrites(L, calls)[..k] == LogWrites(L, calls[..k]) && Legal(L, disk, calls[..k])
  {
    if k == |calls| {
      assert calls[..k] == calls;
    } else {
      var init := calls[..|calls| - 1];
      LegalPrefix(L, disk, calls);
      LogWritesPrefix(L, disk, init, k);
      assert init[..k] == calls[..k];
    }
  }

  lemma {:induction false} CrashBeforeCommit(L: Layout, disk: seq<Block>, calls: seq<Write>, k: nat)
    requires NoLog(L, disk) && Legal(L, disk, calls) && k <= |calls|
    ensures NoLog(L, Apply(disk, Cut(TxWrites(L, disk, calls), k)))
    ensures SameHome(L, Apply(disk, Cut(TxWrites(L, disk, calls), k)), disk)
  {
    hide PutHeader, HeaderSectors, RecoveryWrites, CommitWrites, Apply, Sectors;
    LogWritesPrefix(L, disk, calls, k);
    assert Cut(TxWrites(L, disk, calls), k) == LogWrites(L, calls[..k]) by {
      if k == |calls| {
        assert LogWrites(L, calls)[..k] == LogWrites(L, calls);
        assert TxWrites(L, disk, calls)[..k] == LogWrites(L, calls);
      }
    }
    LogBlocks(L, disk, calls[..k]);
  }

  /** After the commit record, what is left of commit_trans is what recovery would do. */
  lemma {:induction false} AfterRecord(L: Layout, disk: seq<Block>, calls: seq<Write>, k: nat, d: seq<Block>)
    requires NoLog(L, disk) && Legal(L, disk, calls) && |calls| < k && calls != []
    requires d == Committed(L, disk, calls) && LogOk(L, d)
    ensures Apply(disk, Cut(TxWrites(L, disk, calls), k)) == Apply(d, Cut(RecoveryWrites(L, d), k - |calls| - 1))
  {
    hide PutHeader, Apply, LogWrites, Sectors, HeaderSectors, RecoveryWrites;
    var log, record, rest := LogWrites(L, calls), Write(L.start, d[L.start]), RecoveryWrites(L, d);
    var j := k - |calls| - 1;
    assert TxWrites(L, disk, calls) == (log + [record]) + rest;
    CutConcat(log + [record], rest, k);
    ApplyConcat(disk, log + [record], Cut(rest, j));
    ApplyAppend(disk, log, record);
  }

  lemma {:induction false} CrashAfterCommit(L: Layout, disk: seq<Block>, calls: seq<Write>, k: nat)
    requires NoLog(L, disk) && Legal(L, disk, calls) && |calls| < k && calls != []
    ensures LogOk(L, Apply(disk, Cut(TxWrites(L, disk, calls), k)))
    ensures SameHome(L, Recovered(L, Apply(disk, Cut(TxWrites(L, disk, calls), k))), Apply(disk, calls))
  {
    hide PutHeader, Apply, LogWrites, Sectors, HeaderSectors, RecoveryWrites, TxWrites, Committed;
    CommittedRecovers(L, disk, calls);
    var d := Committed(L, disk, calls);
    AfterRecord(L, disk, calls, k, d);
    RecoverySurvivesCrash(L, d, k - |calls| - 1);
  }

  /** A crash after any prefix of a transaction's sector writes, followed by recovery, leaves
      the home sectors all as before, or all with the last bytes logged for each; the commit
      record is the dividing line. */
  lemma {:induction false} TransactionIsAtomic(L: Layout, disk: seq<Block>, calls: seq<Write>, k: nat)
    requires NoLog(L, disk) && Legal(L, disk, calls)
    ensures LogOk(L, Apply(disk, Cut(TxWrites(L, disk, calls), k)))
    ensures SameHome(L, Recovered(L, Apply(disk, Cut(TxWrites(L, disk, calls), k))),
                     if k <= |calls| then disk else Apply(disk, calls))
  {
    hide PutHeader, Apply, LogWrites, Sectors, HeaderSectors, RecoveryWrites, TxWrites, Committed;
    if k > |calls| && calls != [] {
      CrashAfterCommit(L, disk, calls, k);
    } else {
      var m := if k > |calls| then |calls| else k;
      CrashBeforeCommit(L, disk, calls, m);
      EmptyTransaction(L, disk);
      RecoveryOfNoLog(L, Apply(disk, Cut(TxWrites(L, disk, calls), k)));
    }
  }

  lemma {:induction false} EmptyTransaction(L: Layout, disk: seq<Block>)
    requires NoLog(L, disk)
    ensures Legal(L, disk, []) && TxWrites(L, disk, []) == [] && Apply(disk, []) == disk
  {
  }

  /** A transaction that runs to its end has installed its calls and emptied the log. */
  lemma {:induction false} TransactionCompletes(L: Layout, disk: seq<Block>, calls: seq<Write>)
    requires NoLog(L, disk) && Legal(L, disk, calls)
    ensures NoLog(L, Apply(disk, TxWrites(L, disk, calls)))
    ensures SameHome(L, Apply(disk, TxWrites(L, disk, calls)), Apply(disk, calls))
  {
    hide PutHeader, Apply, LogWrites, Sectors, HeaderSectors, RecoveryWrites, TxWrites, Committed;
    if calls == [] {
      EmptyTransaction(L, disk);
    } else {
      CommittedRecovers(L, disk, calls);
      var d := Committed(L, disk, calls);
      var k := |TxWrites(L, disk, calls)| + |RecoveryWrites(L, d)| + |calls| + 1;
      AfterRecord(L, disk, calls, k, d);
      RecoveredHasNoLog(L, d);
    }
  }

  // ----- whole runs -----

  lemma {:induction false} LegalAnyDisk(L: Layout, disk: seq<Block>, d: seq<Block>, calls: seq<Write>)
    requires Legal(L, disk, calls) && |d| == |disk|
    ensures Legal(L, d, calls)
  {
  }

  /** The disk after a run of transactions, by their sector writes. */
  ghost function RunDisk(L: Layout, disk: seq<Block>, txs: seq<seq<Write>>): (r: seq<Block>)
    requires NoLog(L, disk) && forall t :: t in txs ==> Legal(L, disk, t)
    ensures NoLog(L, r) && |r| == |disk|
  {
    if txs == [] then disk
    else
      var d, last := RunDisk(L, disk, txs[..|txs| - 1]), txs[|txs| - 1];
      LegalAnyDisk(L, disk, d, last);
      TransactionCompletes(L, d, last);
      Apply(d, TxWrites(L, d, last))
  }

  /** All sector writes of a run of transactions. */
  ghost function RunWrites(L: Layout, disk: seq<Block>, txs: seq<seq<Write>>): seq<Write>
    requires NoLog(L, disk) && forall t :: t in txs ==> Legal(L, disk, t)
  {
    if txs == [] then []
    else
      var init, last := txs[..|txs| - 1], txs[|txs| - 1];
      var d := RunDisk(L, disk, init);
      LegalAnyDisk(L, disk, d, last);
      RunWrites(L, disk, init) + TxWrites(L, d, last)
  }

  lemma {:induction false} RunWritesStep(L: Layout, disk: seq<Block>, txs: seq<seq<Write>>, calls: seq<Write>)
    requires NoLog(L, disk) && (forall t :: t in txs ==> Legal(L, disk, t)) && Legal(L, disk, calls)
    ensures Legal(L, RunDisk(L, disk, txs), calls)
    ensures RunWrites(L, disk, txs + [calls]) == RunWrites(L, disk, txs) + TxWrites(L, RunDisk(L, disk, txs), calls)
  {
    hide TxWrites, NoLog, Apply;
    LegalAnyDisk(L, disk, RunDisk(L, disk, txs), calls);
    var all := txs + [calls];
    assert all[..|all| - 1] == txs;
  }

  /** The disk if every transaction took effect at once, with no log. */
  function Direct(disk: seq<Block>, txs: seq<seq<Write>>): (r: seq<Block>)
    ensures |r| == |disk|
  {
    if txs == [] then disk else Apply(Direct(disk, txs[..|txs| - 1]), txs[|txs| - 1])
  }

  /** How many transactions of a run have their commit record among the first k writes. */
  ghost function Commits(L: Layout, disk: seq<Block>, txs: seq<seq<Write>>, k: nat): (n: nat)
    requires NoLog(L, disk) && forall t :: t in txs ==> Legal(L, disk, t)
    ensures n <= |txs|
  {
    if txs == [] then 0
    else
      var init, last := txs[..|txs| - 1], txs[|txs| - 1];
      var before := |RunWrites(L, disk, init)|;
      if k < before then Commits(L, disk, init, k)
      else |init| + if last == [] || k > before + |last| then 1 else 0
  }

  lemma {:induction false} RunReachesDisk(L: Layout, disk: seq<Block>, txs: seq<seq<Write>>)
    requires NoLog(L, disk) && forall t :: t in txs ==> Legal(L, disk, t)
    ensures Apply(disk, RunWrites(L, disk, txs)) == RunDisk(L, disk, txs)
    ensures SameHome(L, RunDisk(L, disk, txs), Direct(disk, txs))
  {
    hide PutHeader, LogWrites, Sectors, HeaderSectors, RecoveryWrites, TxWrites;
    if txs != [] {
      var init, last := txs[..|txs| - 1], txs[|txs| - 1];
      RunReachesDisk(L, disk, init);
      var d := RunDisk(L, disk, init);
      LegalAnyDisk(L, disk, d, last);
      ApplyConcat(disk, RunWrites(L, disk, init), TxWrites(L, d, last));
      TransactionCompletes(L, d, last);
      SameHomeApply(L, d, Direct(disk, init), last);
    }
  }

  lemma {:induction false} SameHomeApply(L: Layout, d: seq<Block>, e: seq<Block>, writes: seq<Write>)
    requires SameHome(L, d, e)
    ensures SameHome(L, Apply(d, writes), Apply(e, writes))
  {
    forall s | 0 <= s < |d| && Home(L, s) ensures Apply(d, writes)[s] == Apply(e, writes)[s] {
      ApplyAgree(d, e, writes, s);
    }
  }

  /** The machine may stop after any sector write of any run of transactions, and stop again
      any number of times while recovering: completed recovery leaves the home sectors as the
      committed transactions, and only those, would have left them. */
  lemma {:induction false} RunSurvivesCrashes(L: Layout, disk: seq<Block>, txs: seq<seq<Write>>, k: nat, cuts: seq<nat>)
    requires NoLog(L, disk) && forall t :: t in txs ==> Legal(L, disk, t)
    ensures var d := Apply(disk, Cut(RunWrites(L, disk, txs), k));
            && LogOk(L, d)
            && SameHome(L, CrashyRecovery(L, d, cuts), Direct(disk, txs[..Commits(L, disk, txs, k)]))
  {
    hide PutHeader, LogWrites, Sectors, HeaderSectors, RecoveryWrites, TxWrites;
    if txs == [] {
      RecoveryOfNoLog(L, disk);
      RecoverySurvivesCrashes(L, disk, cuts);
    } else {
      var init, last := txs[..|txs| - 1], txs[|txs| - 1];
      var a := RunWrites(L, disk, init);
      var d := RunDisk(L, disk, init);
      LegalAnyDisk(L, disk, d, last);
      if k < |a| {
        RunSurvivesCrashes(L, disk, init, k, cuts);
        assert Cut(a + TxWrites(L, d, last), k) == Cut(a, k);
        assert txs[..Commits(L, disk, txs, k)] == init[..Commits(L, disk, init, k)];
      } else {
        CrashInLast(L, disk, txs, k);
        RecoverySurvivesCrashes(L, Apply(disk, Cut(RunWrites(L, disk, txs), k)), cuts);
      }
    }
  }

  lemma {:induction false} CrashInLast(L: Layout, disk: seq<Block>, txs: seq<seq<Write>>, k: nat)
    requires NoLog(L, disk) && forall t :: t in txs ==> Legal(L, disk, t)
    requires txs != [] && |RunWrites(L, disk, txs[..|txs| - 1])| <= k
    ensures var d := Apply(disk, Cut(RunWrites(L, disk, txs), k));
            && LogOk(L, d)
            && SameHome(L, Recovered(L, d), Direct(disk, txs[..Commits(L, disk, txs, k)]))
  {
    hide PutHeader, LogWrites, Sectors, HeaderSectors, RecoveryWrites, TxWrites, Apply, Recovered;
    var init, last := txs[..|txs| - 1], txs[|txs| - 1];
    var a := RunWrites(L, disk, init);
    var d := RunDisk(L, disk, init);
    LegalAnyDisk(L, disk, d, last);
    var b := TxWrites(L, d, last);
    CutConcat(a, b, k);
    ApplyConcat(disk, a, Cut(b, k - |a|));
    RunReachesDisk(L, disk, init);
    TransactionIsAtomic(L, d, last, k - |a|);
    SameHomeApply(L, d, Direct(disk, init), last);
    EmptyTransaction(L, d);
    EmptyTransaction(L, disk);
    assert txs[..|txs|] == txs;
  }

  /** A transaction whose commit_trans has returned is never lost. */
  lemma {:induction false} CommitIsDurable(L: Layout, disk: seq<Block>, txs: seq<seq<Write>>, j: nat, k: nat)
    requires NoLog(L, disk) && (forall t :: t in txs ==> Legal(L, disk, t)) && j <= |txs|
    requires |RunWrites(L, disk, txs[..j])| <= k
    ensures Commits(L, disk, txs, k) >= j
  {
    hide PutHeader, LogWrites, Sectors, HeaderSectors, RecoveryWrites, Apply;
    if txs != [] {
      var init := txs[..|txs| - 1];
      if j < |txs| {
        assert txs[..j] == init[..j];
        CommitIsDurable(L, disk, init, j, k);
      } else {
        assert txs[..j] == txs;
      }
    }
  }
}