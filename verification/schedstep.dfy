/** Every step of the scheduler model keeps its invariant. */
module SchedulerSteps {
  import opened ProcTable
  import opened Scheduler
  import opened SchedulerInv

  predicate Same(p: Proc, q: Proc, i: nat) {
    NodeOf(q) == NodeOf(p) && SameFork(p, q, i) && SameWait(p, q)
  }

  /** The CPU side of a step: what the others may not notice. */
  predicate Moved(s: Sys, t: Sys, c: nat, pc: Pc)
    requires c < |s.pcs|
  {
    && t.pcs == s.pcs[c := pc] && |t.procs| == |s.procs| && t.init == s.init && PcOk(t.procs, pc)
    && (Holds(s.pcs[c]) || LockFree(s))
    && (Cur(pc) == NOBODY || Cur(pc) == Cur(s.pcs[c]) || OffCpu(s.pcs, Cur(pc)))
    && (forall i :: 0 <= i < |s.procs| && i != Cur(s.pcs[c]) && i != Cur(pc) ==>
          SameRun(s.procs[i], t.procs[i], Holds(s.pcs[c])))
    && (0 <= Cur(s.pcs[c]) < |s.procs| && t.procs[Cur(s.pcs[c])].state == RUNNING ==>
          Cur(pc) == Cur(s.pcs[c]) && !pc.Switch?)
    && PhaseOk(t.procs, t.init, pc)
  }

  /** A step under the lock that neither fork, the tree nor a waiter sees. */
  lemma {:induction false} QuietStep(s: Sys, t: Sys, c: nat, pc: Pc)
    requires Inv(s) && c < |s.pcs| && Moved(s, t, c, pc) && t.nextpid == s.nextpid
    requires forall i :: 0 <= i < |s.procs| ==> Same(s.procs[i], t.procs[i], i)
    ensures Inv(t)
  {
    hide SlotsOk, WaitOk, TreeOk, PhasesOk, CpusOk, PhaseOk;
    CpuMoves(s, t, c, pc);
    PhaseMoves(s, t, c, pc);
    ForkKept(s.procs, t.procs);
    WaitKept(s.procs, t.procs);
    assert Nodes(t.procs) == Nodes(s.procs);
  }

  /** Nothing in the table changes. */
  lemma {:induction false} PcStep(s: Sys, c: nat, pc: Pc)
    requires Inv(s) && c < |s.pcs| && PcOk(s.procs, pc) && PhaseOk(s.procs, s.init, pc)
    requires (Holds(s.pcs[c]) || LockFree(s)) && (Cur(pc) == Cur(s.pcs[c]) || (Cur(pc) == NOBODY && s.pcs[c].Switch?))
    requires !pc.Switch?
    ensures Inv(Goto(s, c, pc))
  {
    assert PcOk(s.procs, s.pcs[c]);
    forall i | 0 <= i < |s.procs|
      ensures Same(s.procs[i], s.procs[i], i)
    {
      assert SlotOk(s.procs, i);
    }
    QuietStep(s, Goto(s, c, pc), c, pc);
  }

  lemma {:induction false} InvPc(s: Sys, c: nat)
    requires Inv(s) && c < |s.pcs|
    ensures PcOk(s.procs, s.pcs[c]) && PhaseOk(s.procs, s.init, s.pcs[c])
  {
  }

  lemma {:induction false} InvSlot(s: Sys, i: nat)
    requires Inv(s) && i < |s.procs|
    ensures SlotOk(s.procs, i)
  {
  }

  lemma {:induction false} LoopStep(s: Sys, c: nat, a: Action)
    requires Inv(s) && c < |s.pcs| && Can(s, c, a)
    requires (a.SchedLock? || a.SchedNext? || a.SchedDone? || a.SwitchAway? || a.Acquire?)
    ensures Inv(After(s, c, a))
  {
    hide Inv;
    InvPc(s, c);
    PcStep(s, c, After(s, c, a).pcs[c]);
  }

  /** The scheduler takes a runnable process: no other CPU has it. */
  lemma {:induction false} PickStep(s: Sys, c: nat)
    requires Inv(s) && c < |s.pcs| && Can(s, c, SchedPick)
    ensures Inv(After(s, c, SchedPick))
    ensures OffCpu(s.pcs, s.pcs[c].k) && s.procs[s.pcs[c].k].kstack
  {
    var k := s.pcs[c].k;
    FoundOff(s, c, k);
    hide Inv;
    var t := After(s, c, SchedPick);
    forall i | 0 <= i < |s.procs|
      ensures Same(s.procs[i], t.procs[i], i)
    {
      InvSlot(s, i);
    }
    InvSlot(s, k);
    QuietStep(s, t, c, Enter(k));
  }

  lemma {:induction false} ResumeStep(s: Sys, c: nat)
    requires Inv(s) && c < |s.pcs| && Can(s, c, Resume)
    ensures Inv(After(s, c, Resume))
  {
    hide Inv;
    var t := After(s, c, Resume);
    InvPc(s, c);
    forall i | 0 <= i < |s.procs|
      ensures Same(s.procs[i], t.procs[i], i)
    {
      InvSlot(s, i);
    }
    QuietStep(s, t, c, t.pcs[c]);
  }

  lemma {:induction false} YieldOrSleepStep(s: Sys, c: nat)
    requires Inv(s) && c < |s.pcs| && Can(s, c, Perform) && (s.pcs[c].op.Yield? || s.pcs[c].op.SleepOn?)
    ensures Inv(After(s, c, Perform))
  {
    hide Inv;
    var t := After(s, c, Perform);
    InvPc(s, c);
    forall i | 0 <= i < |s.procs|
      ensures Same(s.procs[i], t.procs[i], i)
    {
      InvSlot(s, i);
    }
    QuietStep(s, t, c, t.pcs[c]);
  }

  /** Waking a process is seen by neither fork, the tree nor a waiter. */
  lemma {:induction false} WokenSame(ps: seq<Proc>, i: nat, chan: Chan)
    requires i < |ps| && SlotOk(ps, i)
    ensures Same(ps[i], Woken(ps[i], chan), i) && Same(ps[i], Killed(ps[i]), i)
    ensures SameRun(ps[i], Woken(ps[i], chan), false) && SameRun(ps[i], Killed(ps[i]), false)
  {
  }

  lemma {:induction false} WakeStep(s: Sys, t: Sys, c: nat, chan: Chan, pc: Pc)
    requires Inv(s) && c < |s.pcs| && t == Goto(s.(procs := Wake(s.procs, chan)), c, pc)
    requires PcOk(s.procs, pc) && (Holds(s.pcs[c]) || LockFree(s)) && Cur(pc) == Cur(s.pcs[c]) && !pc.Switch?
    requires PhaseOk(t.procs, t.init, pc)
    ensures Inv(t)
  {
    hide Inv, PhaseOk, Same;
    InvPc(s, c);
    forall i | 0 <= i < |s.procs|
      ensures Same(s.procs[i], t.procs[i], i) && SameRun(s.procs[i], t.procs[i], false)
    {
      InvSlot(s, i);
      WokenSame(s.procs, i, chan);
    }
    QuietStep(s, t, c, pc);
  }

  lemma {:induction false} KillStep(s: Sys, c: nat)
    requires Inv(s) && c < |s.pcs| && Can(s, c, Perform) && s.pcs[c].op.KillPid?
    ensures Inv(After(s, c, Perform))
  {
    hide Inv, Same;
    InvPc(s, c);
    var p, k := s.pcs[c].p, FirstPid(s.procs, s.pcs[c].op.pid, 0);
    if k == |s.procs| {
      PcStep(s, c, Run(p));
    } else {
      var t := Goto(Set(s, k, Killed(s.procs[k])), c, Run(p));
      forall i | 0 <= i < |s.procs|
        ensures Same(s.procs[i], t.procs[i], i) && SameRun(s.procs[i], t.procs[i], true)
      {
        InvSlot(s, i);
        WokenSame(s.procs, i, Nil);
        assert Same(s.procs[i], s.procs[i], i) by { Unchanged(s.procs, i); }
      }
      QuietStep(s, t, c, Run(p));
    }
  }

  lemma {:induction false} Unchanged(ps: seq<Proc>, i: nat)
    requires i < |ps| && SlotOk(ps, i)
    ensures Same(ps[i], ps[i], i)
  {
  }

  lemma {:induction false} WakeUpStep(s: Sys, c: nat)
    requires Inv(s) && c < |s.pcs| && Can(s, c, Perform) && s.pcs[c].op.WakeUp?
    ensures Inv(After(s, c, Perform))
  {
    hide Inv;
    InvPc(s, c);
    WakeStep(s, After(s, c, Perform), c, s.pcs[c].op.chan, Run(s.pcs[c].p));
  }

  lemma {:induction false} InterruptStep(s: Sys, c: nat, ch: Chan)
    requires Inv(s) && c < |s.pcs| && Can(s, c, Interrupt(ch))
    ensures Inv(After(s, c, Interrupt(ch)))
  {
    hide Inv;
    assert s.pcs == s.pcs[c := Loop];
    WakeStep(s, After(s, c, Interrupt(ch)), c, ch, Loop);
  }

  /** exit wakes the parent before anything else can see the zombie. */
  lemma {:induction false} ExitWakeStep(s: Sys, c: nat)
    requires Inv(s) && c < |s.pcs| && Can(s, c, Perform) && s.pcs[c].op.ExitWake?
    ensures Inv(After(s, c, Perform))
  {
    hide Inv;
    InvPc(s, c);
    var p := s.pcs[c].p;
    var q := s.procs[p].parent;
    if 0 <= q < |s.procs| { InvSlot(s, q); }
    WakeStep(s, After(s, c, Perform), c, OfProc(q), Locked(p, ExitAdopt));
  }

  // ----- steps that the tree, fork or a waiter sees -----

  /** A step under the lock, part by part. */
  lemma {:induction false} LockedStep(s: Sys, t: Sys, c: nat, pc: Pc)
    requires Inv(s) && c < |s.pcs| && Moved(s, t, c, pc)
    requires TreeOk(Nodes(t.procs), t.init, t.nextpid) && SlotsOk(t.procs) && WaitOk(t.procs)
    ensures Inv(t)
  {
    hide SlotsOk, WaitOk, TreeOk, PhasesOk, CpusOk, PhaseOk;
    CpuMoves(s, t, c, pc);
    PhaseMoves(s, t, c, pc);
  }

  lemma {:induction false} InvNode(s: Sys, i: nat)
    requires Inv(s) && i < |s.procs|
    ensures s.init < |s.procs| && Active(s.procs[s.init].state) && s.procs[i].pid < s.nextpid
    ensures s.procs[i].parent != NOBODY ==> s.procs[i].state != UNUSED && 0 <= s.procs[i].parent < |s.procs|
    ensures s.procs[i].parent != NOBODY ==>
      Active(s.procs[s.procs[i].parent].state) && s.procs[s.procs[i].parent].pid < s.procs[i].pid
    ensures s.procs[i].state != UNUSED && i != s.init ==> s.procs[i].pid > 1
    ensures Alive(s.procs[i].state) && i != s.init ==> s.procs[i].parent != NOBODY
  {
    assert NodeOk(Nodes(s.procs), s.init, i);
  }

  lemma {:induction false} InvParts(s: Sys)
    requires Inv(s)
    ensures CpusOk(s) && TreeOk(Nodes(s.procs), s.init, s.nextpid) && SlotsOk(s.procs) && WaitOk(s.procs)
  {
  }

  /** Only an active process has children. */
  lemma {:induction false} NoChildOf(s: Sys, i: nat)
    requires Inv(s) && i < |s.procs| && !Active(s.procs[i].state)
    ensures !HasChild(s.procs, i)
  {
    hide Inv;
    if HasChild(s.procs, i) {
      var j :| 0 <= j < |s.procs| && s.procs[j].parent == i;
      InvNode(s, j);
    }
  }

  /** The tree after slot e, not init's and without children, changes to q. */
  lemma {:induction false} TreeAfter(s: Sys, e: nat, q: Proc, next: nat)
    requires Inv(s) && e < |s.procs| && e != s.init && !HasChild(s.procs, e) && s.nextpid <= next && q.pid < next
    requires q.state == UNUSED || (q.state == EMBRYO && q.pid == s.nextpid)
             || (s.procs[e].state != UNUSED && q.pid == s.procs[e].pid)
    requires q.parent == NOBODY || (q.parent == s.procs[e].parent && q.pid == s.procs[e].pid && q.state != UNUSED)
    requires Alive(q.state) ==> q.parent != NOBODY
    ensures TreeOk(Nodes(s.procs[e := q]), s.init, next)
  {
    assert NodeOk(Nodes(s.procs), s.init, e);
    NodeChanges(Nodes(s.procs), s.init, s.nextpid, e, NodeOf(q), next);
    assert Nodes(s.procs[e := q]) == Nodes(s.procs)[e := NodeOf(q)];
  }

  /** wait frees the slot of a zombie: no CPU is on its kernel stack and no process is its child. */
  lemma {:induction false} ReapStep(s: Sys, c: nat, i: nat)
    requires Inv(s) && c < |s.pcs| && s.pcs[c].Locked? && s.pcs[c].op.WaitScan?
    requires i < |s.procs| && s.procs[i].parent == s.pcs[c].p && s.procs[i].state == ZOMBIE
    ensures Inv(Goto(Set(s, i, Reaped(s.procs[i])), c, Run(s.pcs[c].p)))
    ensures OffCpu(s.pcs, i) && !HasChild(s.procs, i)
  {
    hide Inv, TreeOk, SlotsOk, WaitOk;
    var p, q := s.pcs[c].p, Reaped(s.procs[i]);
    var t := Goto(Set(s, i, q), c, Run(p));
    InvParts(s);
    InvPc(s, c);
    FoundOff(s, c, i);
    hide CpusOk;
    forall j | 0 <= j < |s.procs|
      ensures SameFork(s.procs[j], t.procs[j], j)
    {
      InvSlot(s, j);
    }
    InvNode(s, i);
    NoChildOf(s, i);
    TreeAfter(s, i, q, s.nextpid);
    ForkKept(s.procs, t.procs);
    WaitUnseen(s.procs, i, q);
    LockedStep(s, t, c, Run(p));
  }

  lemma {:induction false} WaitScanStep(s: Sys, c: nat)
    requires Inv(s) && c < |s.pcs| && Can(s, c, Perform) && s.pcs[c].op.WaitScan?
    ensures Inv(After(s, c, Perform))
  {
    hide Inv;
    var p := s.pcs[c].p;
    var i := FirstZombie(s.procs, p, 0);
    InvPc(s, c);
    if i < |s.procs| {
      ReapStep(s, c, i);
    } else {
      PcStep(s, c, After(s, c, Perform).pcs[c]);
    }
  }

  /** A process goes to sleep in wait only with a child and without a zombie child. */
  lemma {:induction false} WaitSleepStep(s: Sys, c: nat)
    requires Inv(s) && c < |s.pcs| && Can(s, c, Perform) && s.pcs[c].op.WaitSleep?
    ensures Inv(After(s, c, Perform))
    ensures var p := s.pcs[c].p;
            WaitAsleep(After(s, c, Perform).procs[p]) && HasChild(s.procs, p) && NoZombieChild(s.procs, p)
  {
    hide Inv, TreeOk, SlotsOk, WaitOk, CpusOk;
    var p := s.pcs[c].p;
    var t := After(s, c, Perform);
    InvParts(s);
    InvPc(s, c);
    forall j | 0 <= j < |s.procs|
      ensures SameFork(s.procs[j], t.procs[j], j)
    {
      InvSlot(s, j);
    }
    assert Nodes(t.procs) == Nodes(s.procs);
    ForkKept(s.procs, t.procs);
    WaitSleeps(s.procs, p, t.procs[p]);
    LockedStep(s, t, c, Switch(p));
  }

  /** The process that exits has no child left and its parent is awake. */
  lemma {:induction false} ExitZombieStep(s: Sys, c: nat)
    requires Inv(s) && c < |s.pcs| && Can(s, c, Perform) && s.pcs[c].op.ExitZombie?
    ensures Inv(After(s, c, Perform))
    ensures var p := s.pcs[c].p;
            && After(s, c, Perform).procs[p].state == ZOMBIE && !HasChild(s.procs, p)
            && 0 <= s.procs[p].parent < |s.procs| && !WaitAsleep(s.procs[s.procs[p].parent])
  {
    hide Inv, TreeOk, SlotsOk, WaitOk, CpusOk;
    var p := s.pcs[c].p;
    var t := After(s, c, Perform);
    InvParts(s);
    InvPc(s, c);
    InvNode(s, p);
    forall j | 0 <= j < |s.procs|
      ensures SameFork(s.procs[j], t.procs[j], j)
    {
      InvSlot(s, j);
    }
    TreeAfter(s, p, t.procs[p], s.nextpid);
    ForkKept(s.procs, t.procs);
    WaitUnseen(s.procs, p, t.procs[p]);
    LockedStep(s, t, c, Switch(p));
  }

  /** One slot through exit's passing of the children of p. */
  lemma {:induction false} AdoptSlot(s: Sys, p: nat, j: nat, r: Proc)
    requires Inv(s) && p < |s.procs| && p != s.init && s.procs[p].np == NOBODY && j < |s.procs|
    requires r == Adopt(s.procs, p, s.init, |s.procs|)[j]
    ensures r.parent == if s.procs[j].parent == p then s.init else s.procs[j].parent
    ensures NodeOf(r) == NodeOf(s.procs[j]).(parent := r.parent)
    ensures SameFork(s.procs[j], r, j) && SameRun(s.procs[j], r, true) && r.np == s.procs[j].np
    ensures WaitAsleep(r) ==> WaitAsleep(s.procs[j])
    ensures r.state == ZOMBIE <==> s.procs[j].state == ZOMBIE
    ensures j == s.init && WaitAsleep(r) ==> NoZombieChild(s.procs, p)
  {
    hide Inv, Adopt;
    InvSlot(s, j);
    Adopted(s.procs, p, s.init, |s.procs|, j);
  }

  /** Every child of the exiting process becomes init's, every other slot keeps its parent, and no process sleeps in
      wait with a zombie child. */
  lemma {:induction false} ExitAdoptStep(s: Sys, c: nat)
    requires Inv(s) && c < |s.pcs| && Can(s, c, Perform) && s.pcs[c].op.ExitAdopt?
    ensures Inv(After(s, c, Perform))
    ensures var p, t := s.pcs[c].p, After(s, c, Perform);
            && |t.procs| == |s.procs| && !HasChild(t.procs, p)
            && (forall j :: 0 <= j < |s.procs| ==>
                  t.procs[j].parent == if s.procs[j].parent == p then s.init else s.procs[j].parent)
            && forall j :: 0 <= j < |t.procs| && WaitAsleep(t.procs[j]) ==> NoZombieChild(t.procs, j)
  {
    hide Inv, TreeOk, SlotsOk, WaitOk, CpusOk, Adopt, NodeOf, SameFork;
    var p := s.pcs[c].p;
    var t := After(s, c, Perform);
    InvParts(s);
    InvPc(s, c);
    InvNode(s, p);
    forall j | 0 <= j < |s.procs|
      ensures t.procs[j].parent == if s.procs[j].parent == p then s.init else s.procs[j].parent
      ensures NodeOf(t.procs[j]) == NodeOf(s.procs[j]).(parent := t.procs[j].parent)
      ensures SameFork(s.procs[j], t.procs[j], j) && SameRun(s.procs[j], t.procs[j], true)
      ensures WaitAsleep(t.procs[j]) ==> WaitAsleep(s.procs[j])
      ensures t.procs[j].state == ZOMBIE <==> s.procs[j].state == ZOMBIE
    {
      AdoptSlot(s, p, j, t.procs[j]);
    }
    AdoptSlot(s, p, s.init, t.procs[s.init]);
    AdoptSlot(s, p, p, t.procs[p]);
    NodesAdopt(s, t, p);
    ForkKept(s.procs, t.procs);
    WaitAdopts(s.procs, t.procs, p, s.init);
    LockedStep(s, t, c, Locked(p, ExitZombie));
    forall j | 0 <= j < |t.procs| && WaitAsleep(t.procs[j]) ensures NoZombieChild(t.procs, j) {
      WaiterAt(t.procs, j);
    }
  }

  lemma {:induction false} WaiterAt(procs: seq<Proc>, i: nat)
    requires WaitOk(procs) && i < |procs|
    ensures WaiterOk(procs, i)
  {
  }

  lemma {:induction false} NodesAdopt(s: Sys, t: Sys, p: nat)
    requires Inv(s) && p < |s.procs| && p != s.init && |t.procs| == |s.procs|
    requires forall j :: 0 <= j < |s.procs| ==>
      t.procs[j].parent == if s.procs[j].parent == p then s.init else s.procs[j].parent
    requires forall j :: 0 <= j < |s.procs| ==> NodeOf(t.procs[j]) == NodeOf(s.procs[j]).(parent := t.procs[j].parent)
    ensures TreeOk(Nodes(t.procs), s.init, s.nextpid)
  {
    NodesAdopted(Nodes(s.procs), Nodes(t.procs), s.init, s.nextpid, p);
  }

  lemma {:induction false} AllocStep(s: Sys, c: nat)
    requires Inv(s) && c < |s.pcs| && Can(s, c, Perform) && s.pcs[c].op.AllocProc?
    ensures Inv(After(s, c, Perform))
  {
    hide Inv, TreeOk, SlotsOk, WaitOk, CpusOk;
    var p := s.pcs[c].p;
    var e := FirstUnused(s.procs, 0);
    InvParts(s);
    InvPc(s, c);
    if e == |s.procs| {
      PcStep(s, c, Run(p));
    } else {
      TakeStep(s, After(s, c, Perform), c, p, e);
    }
  }

  /** The slot fork takes gets a pid no other slot has, and is no other process's. */
  lemma {:induction false} TakeStep(s: Sys, t: Sys, c: nat, p: nat, e: nat)
    requires Inv(s) && c < |s.pcs| && s.pcs[c] == Locked(p, AllocProc) && p < |s.procs| && e < |s.procs|
    requires s.procs[e].state == UNUSED
    requires var u := Set(Set(s, e, s.procs[e].(state := EMBRYO, pid := s.nextpid)), p, s.procs[p].(np := e));
             t == Goto(u.(nextpid := s.nextpid + 1), c, Run(p))
    ensures Inv(t)
    ensures forall j :: 0 <= j < |t.procs| ==>
      (t.procs[j].np == e <==> j == p) && (t.procs[j].pid == t.procs[e].pid <==> j == e)
  {
    hide Inv, TreeOk, SlotsOk, WaitOk, CpusOk;
    InvParts(s);
    InvPc(s, c);
    forall j | 0 <= j < |s.procs|
      ensures s.procs[j].np != e && s.procs[j].pid < s.nextpid
    {
      InvSlot(s, j);
      InvNode(s, j);
    }
    InvNode(s, p);
    InvNode(s, e);
    ForkTakes(s.procs, p, e, s.nextpid);
    NoChildOf(s, e);
    TreeAfter(s, e, t.procs[e], t.nextpid);
    assert Nodes(t.procs) == Nodes(s.procs[e := t.procs[e]]);
    forall i | 0 <= i < |s.procs|
      ensures SameWait(s.procs[i], t.procs[i]) && (i != p ==> SameRun(s.procs[i], t.procs[i], true))
    {
    }
    WaitKept(s.procs, t.procs);
    LockedStep(s, t, c, Run(p));
  }

  // ----- fork without the lock -----

  lemma {:induction false} UnlockedStep(s: Sys, t: Sys, c: nat, p: nat, e: nat)
    requires Inv(s) && c < |s.pcs| && s.pcs[c] == Run(p) && t.pcs == s.pcs && t.init == s.init && t.nextpid == s.nextpid
    requires p < |s.procs| && s.procs[p].np == e && 0 <= e < |s.procs| && e != p && |t.procs| == |s.procs|
    requires forall i :: 0 <= i < |s.procs| && i != e && i != p ==> t.procs[i] == s.procs[i]
    requires t.procs[p] == s.procs[p].(np := NOBODY) || t.procs[p] == s.procs[p]
    requires t.procs[e].state in {UNUSED, EMBRYO, RUNNABLE}
    requires (t.procs[e].parent == s.procs[e].parent || t.procs[e].parent == p)
    requires TreeOk(Nodes(t.procs), t.init, t.nextpid) && SlotsOk(t.procs)
    ensures Inv(t)
  {
    hide TreeOk, WaitOk, PhasesOk, SlotsOk, CpusOk;
    InvSlot(s, p);
    InvPc(s, c);
    assert t.pcs == s.pcs[c := Run(p)];
    CpuMoves(s, t, c, Run(p));
    PhasesUnseen(s, t, c, p, e);
    WaitUnseen(s.procs, e, t.procs[e]);
    WaitKept(s.procs[e := t.procs[e]], t.procs);
  }

  lemma {:induction false} TreeBuilds(s: Sys, p: nat, e: nat, q: Proc)
    requires Inv(s) && p < |s.procs| && e < |s.procs| && s.procs[p].np == e && q.pid == s.procs[e].pid
    requires (q.parent == NOBODY || q.parent == p) && (Alive(q.state) ==> q.parent == p)
    requires (q.state == UNUSED ==> q.parent == NOBODY)
    ensures TreeOk(Nodes(s.procs[e := q]), s.init, s.nextpid)
  {
    InvSlot(s, p);
    InvNode(s, p);
    InvNode(s, e);
    NoChildOf(s, e);
    NodeChanges(Nodes(s.procs), s.init, s.nextpid, e, NodeOf(q), s.nextpid);
    assert Nodes(s.procs[e := q]) == Nodes(s.procs)[e := NodeOf(q)];
  }

  lemma {:induction false} ForkStep(s: Sys, c: nat, a: Action)
    requires Inv(s) && c < |s.pcs| && Can(s, c, a) && (a.ForkStack? || a.ForkParent?)
    ensures Inv(After(s, c, a))
  {
    hide Inv, TreeOk, SlotsOk, WaitOk, CpusOk;
    var p := s.pcs[c].p;
    var e := s.procs[p].np;
    var t := After(s, c, a);
    InvParts(s);
    InvSlot(s, p);
    InvSlot(s, e);
    TreeBuilds(s, p, e, t.procs[e]);
    ForkBuilds(s.procs, p, e, t.procs[e]);
    UnlockedStep(s, t, c, p, e);
  }

  /** fork's last write, outside the lock, is to a slot that is being built, on no CPU and in no other fork. */
  lemma {:induction false} ForkEndStep(s: Sys, c: nat, a: Action)
    requires Inv(s) && c < |s.pcs| && Can(s, c, a) && (a.ForkDone? || a.ForkFail?)
    ensures Inv(After(s, c, a))
    ensures var p, t := s.pcs[c].p, After(s, c, a);
            var e := s.procs[p].np;
            && s.procs[e].state == EMBRYO && t.pcs == s.pcs && OffCpu(s.pcs, e)
            && forall j :: 0 <= j < |s.procs| && j != p ==> s.procs[j].np != e && (j != e ==> t.procs[j] == s.procs[j])
  {
    hide Inv, TreeOk, SlotsOk, WaitOk, CpusOk;
    var p := s.pcs[c].p;
    var e := s.procs[p].np;
    var t := After(s, c, a);
    InvParts(s);
    InvSlot(s, p);
    InvSlot(s, e);
    forall d | 0 <= d < |s.pcs| ensures Cur(s.pcs[d]) != e {
      InvPc(s, d);
    }
    OneFork(s.procs, p);
    TreeBuilds(s, p, e, t.procs[e]);
    assert Nodes(t.procs) == Nodes(s.procs[e := t.procs[e]]);
    ForkEnds(s.procs, p, e, t.procs[e]);
    UnlockedStep(s, t, c, p, e);
  }

  lemma {:induction false} OneFork(procs: seq<Proc>, p: nat)
    requires SlotsOk(procs) && p < |procs| && procs[p].np != NOBODY
    ensures forall j :: 0 <= j < |procs| && j != p ==> procs[j].np != procs[p].np
  {
    forall j | 0 <= j < |procs| && j != p ensures procs[j].np != procs[p].np {
      assert if j < p then NpsApart(procs[j], procs[p]) else NpsApart(procs[p], procs[j]);
    }
  }
}
