/** What every reachable state of the scheduler model satisfies. */
module SchedulerInv {
  import opened ProcTable
  import opened Scheduler

  predicate Active(st: State) {
    st == RUNNABLE || st == RUNNING || st == SLEEPING
  }

  predicate Alive(st: State) {
    Active(st) || st == ZOMBIE
  }

  /** Asleep in wait. */
  predicate WaitAsleep(p: Proc) {
    p.state == SLEEPING && p.chan.OfProc?
  }

  // ----- CPUs -----

  predicate OnCpu(pcs: seq<Pc>, i: int) {
    exists c :: 0 <= c < |pcs| && !pcs[c].Switch? && Cur(pcs[c]) == i
  }

  predicate OffCpu(pcs: seq<Pc>, i: int) {
    forall c :: 0 <= c < |pcs| ==> Cur(pcs[c]) != i
  }

  predicate Leaving(st: State) {
    st == RUNNABLE || st == SLEEPING || st == ZOMBIE
  }

  /** A process on a CPU is RUNNING, unless it is on its way out through sched. */
  predicate PcOk(procs: seq<Proc>, pc: Pc) {
    && Cur(pc) < |procs|
    && (pc.Enter? || pc.Run? || pc.Locked? ==> procs[Cur(pc)].state == RUNNING)
    && (pc.Switch? ==> Leaving(procs[pc.p].state))
  }

  /** Two CPUs run different processes and at most one holds ptable.lock. */
  predicate Apart(a: Pc, b: Pc) {
    (Cur(a) == NOBODY || Cur(a) != Cur(b)) && !(Holds(a) && Holds(b))
  }

  predicate CpusOk(s: Sys) {
    && (forall c :: 0 <= c < |s.pcs| ==> PcOk(s.procs, s.pcs[c]))
    && (forall c, d :: 0 <= c < |s.pcs| && 0 <= d < |s.pcs| && c != d ==> Apart(s.pcs[c], s.pcs[d]))
    && (forall i :: 0 <= i < |s.procs| && s.procs[i].state == RUNNING ==> OnCpu(s.pcs, i))
  }

  /** A slot as other CPUs see it: running stays running, and without the lock leaving stays leaving. */
  predicate SameRun(p: Proc, q: Proc, locked: bool) {
    && (p.state == RUNNING <==> q.state == RUNNING)
    && (!locked && Leaving(p.state) ==> Leaving(q.state))
  }

  /** One CPU moves to pc and changes the table. */
  lemma {:induction false} CpuMoves(s: Sys, t: Sys, c: nat, pc: Pc)
    requires CpusOk(s) && c < |s.pcs| && t.pcs == s.pcs[c := pc] && |t.procs| == |s.procs| && PcOk(t.procs, pc)
    requires Holds(pc) ==> Holds(s.pcs[c]) || LockFree(s)
    requires Cur(pc) == NOBODY || Cur(pc) == Cur(s.pcs[c]) || OffCpu(s.pcs, Cur(pc))
    requires forall i :: 0 <= i < |s.procs| && i != Cur(s.pcs[c]) && i != Cur(pc) ==>
      SameRun(s.procs[i], t.procs[i], Holds(s.pcs[c]))
    requires 0 <= Cur(s.pcs[c]) < |s.procs| && t.procs[Cur(s.pcs[c])].state == RUNNING ==>
      Cur(pc) == Cur(s.pcs[c]) && !pc.Switch?
    ensures CpusOk(t)
  {
    forall d | 0 <= d < |t.pcs|
      ensures PcOk(t.procs, t.pcs[d])
      ensures d != c ==> Apart(pc, t.pcs[d]) && Apart(t.pcs[d], pc)
    {
      if d != c {
        assert PcOk(s.procs, s.pcs[d]) && Apart(s.pcs[c], s.pcs[d]) && Apart(s.pcs[d], s.pcs[c]);
      }
    }
    forall i | 0 <= i < |t.procs| && t.procs[i].state == RUNNING
      ensures OnCpu(t.pcs, i)
    {
      if i == Cur(pc) {
        assert t.pcs[c] == pc;
      } else {
        assert s.procs[i].state == RUNNING && OnCpu(s.pcs, i);
        var d :| 0 <= d < |s.pcs| && !s.pcs[d].Switch? && Cur(s.pcs[d]) == i;
        assert t.pcs[d] == s.pcs[d];
      }
    }
  }

  /** A process that the CPU holding the lock finds not RUNNING is on no other CPU. */
  lemma {:induction false} FoundOff(s: Sys, c: nat, i: nat)
    requires CpusOk(s) && c < |s.pcs| && Holds(s.pcs[c]) && i < |s.procs| && s.procs[i].state != RUNNING
    requires i != Cur(s.pcs[c])
    ensures OffCpu(s.pcs, i)
  {
    forall d | 0 <= d < |s.pcs|
      ensures Cur(s.pcs[d]) != i
    {
      assert PcOk(s.procs, s.pcs[d]);
      assert d != c ==> Apart(s.pcs[c], s.pcs[d]);
    }
  }

  // ----- the process tree -----

  /** The part of a slot the tree depends on. */
  datatype Node = Node(alive: bool, active: bool, used: bool, pid: nat, parent: int)

  function NodeOf(p: Proc): Node {
    Node(Alive(p.state), Active(p.state), p.state != UNUSED, p.pid, p.parent)
  }

  predicate ChildOf(c: Node, p: Node) {
    c.used && p.active && p.pid < c.pid
  }

  /** The parent of slot i is an active process with a smaller pid, and only init and slots being built have none. */
  predicate NodeOk(ns: seq<Node>, init: nat, i: nat)
    requires i < |ns|
  {
    && (ns[i].parent != NOBODY ==> 0 <= ns[i].parent < |ns| && ChildOf(ns[i], ns[ns[i].parent]))
    && (i != init && ns[i].alive ==> ns[i].parent != NOBODY)
    && (i != init && ns[i].used ==> ns[i].pid > 1)
  }

  predicate PidsApart(a: Node, b: Node) {
    a.used && b.used ==> a.pid != b.pid
  }

  function Nodes(procs: seq<Proc>): (r: seq<Node>)
    ensures |r| == |procs| && forall i :: 0 <= i < |r| ==> r[i] == NodeOf(procs[i])
  {
    seq(|procs|, i requires 0 <= i < |procs| => NodeOf(procs[i]))
  }

  predicate TreeOk(ns: seq<Node>, init: nat, nextpid: nat) {
    && init < |ns| && ns[init].active && ns[init].pid == 1 && ns[init].parent == NOBODY && nextpid > 1
    && (forall i :: 0 <= i < |ns| ==> ns[i].pid < nextpid)
    && (forall i :: 0 <= i < |ns| ==> NodeOk(ns, init, i))
    && (forall i, j :: 0 <= i < j < |ns| ==> PidsApart(ns[i], ns[j]))
  }

  /** One node changes: it keeps its pid or takes the next, and is not a parent unless it stays one. */
  lemma {:induction false} NodeChanges(ns: seq<Node>, init: nat, nextpid: nat, e: nat, n: Node, next: nat)
    requires TreeOk(ns, init, nextpid) && e < |ns| && e != init && n.pid < next && nextpid <= next
    requires n.used ==> (n.pid == nextpid || (ns[e].used && n.pid == ns[e].pid)) && n.pid > 1
    requires n.parent != NOBODY ==> 0 <= n.parent < |ns| && n.parent != e && ChildOf(n, ns[n.parent])
    requires n.alive ==> n.parent != NOBODY
    requires (n.active && n.pid == ns[e].pid) || forall j :: 0 <= j < |ns| && j != e ==> ns[j].parent != e
    ensures TreeOk(ns[e := n], init, next)
  {
    var ms := ns[e := n];
    forall i | 0 <= i < |ms|
      ensures NodeOk(ms, init, i)
    {
      assert NodeOk(ns, init, i);
    }
    forall i, j | 0 <= i < j < |ms|
      ensures PidsApart(ms[i], ms[j])
    {
      assert PidsApart(ns[i], ns[j]);
    }
  }

  /** The children of p pass to init. */
  lemma {:induction false} NodesAdopted(ns: seq<Node>, ms: seq<Node>, init: nat, nextpid: nat, p: nat)
    requires TreeOk(ns, init, nextpid) && p < |ns| && p != init && |ms| == |ns|
    requires forall i :: 0 <= i < |ns| ==> ms[i] == ns[i].(parent := if ns[i].parent == p then init else ns[i].parent)
    ensures TreeOk(ms, init, nextpid)
  {
    forall i | 0 <= i < |ms|
      ensures NodeOk(ms, init, i)
    {
      assert NodeOk(ns, init, i) && NodeOk(ns, init, p);
    }
    forall i, j | 0 <= i < j < |ms|
      ensures PidsApart(ms[i], ms[j])
    {
      assert PidsApart(ns[i], ns[j]);
    }
  }

  // ----- fork -----

  /** The slot fork is building in p. */
  predicate NpOk(procs: seq<Proc>, p: nat)
    requires p < |procs|
  {
    var e := procs[p].np;
    e != NOBODY ==>
      && (procs[p].state == RUNNING || (procs[p].state == RUNNABLE && procs[p].context == InYield))
      && 0 <= e < |procs| && e != p && procs[e].state == EMBRYO && procs[p].pid < procs[e].pid
      && (procs[e].parent == NOBODY || procs[e].parent == p)
  }

  predicate SlotOk(procs: seq<Proc>, i: nat)
    requires i < |procs|
  {
    && NpOk(procs, i)
    && (procs[i].state == EMBRYO && procs[i].parent != NOBODY ==>
          0 <= procs[i].parent < |procs| && procs[procs[i].parent].np == i)
    && (Alive(procs[i].state) ==> procs[i].kstack)
    && (procs[i].chan.OfProc? ==> procs[i].chan.slot == i)
  }

  predicate NpsApart(p: Proc, q: Proc) {
    p.np == NOBODY || p.np != q.np
  }

  predicate SlotsOk(procs: seq<Proc>) {
    && (forall i :: 0 <= i < |procs| ==> SlotOk(procs, i))
    && (forall p, q :: 0 <= p < q < |procs| ==> NpsApart(procs[p], procs[q]))
  }

  /** A change of slot i that fork does not see. */
  predicate SameFork(p: Proc, q: Proc, i: nat) {
    && q.np == p.np && (p.np != NOBODY || p.state == EMBRYO ==> q.pid == p.pid)
    && (p.state == EMBRYO <==> q.state == EMBRYO) && (q.state == EMBRYO ==> q.parent == p.parent)
    && (q.np != NOBODY ==> q.state == RUNNING || (q.state == RUNNABLE && q.context == InYield))
    && (Alive(q.state) ==> q.kstack)
    && (q.chan.OfProc? ==> q.chan.slot == i)
  }

  lemma {:induction false} ForkKept(ps: seq<Proc>, qs: seq<Proc>)
    requires SlotsOk(ps) && |ps| == |qs| && forall i :: 0 <= i < |ps| ==> SameFork(ps[i], qs[i], i)
    ensures SlotsOk(qs)
  {
    forall i | 0 <= i < |qs|
      ensures SlotOk(qs, i)
    {
      assert SlotOk(ps, i) && SameFork(ps[i], qs[i], i);
      if ps[i].np != NOBODY { assert SameFork(ps[ps[i].np], qs[ps[i].np], ps[i].np); }
      if ps[i].state == EMBRYO && ps[i].parent != NOBODY {
        assert SameFork(ps[ps[i].parent], qs[ps[i].parent], ps[i].parent);
      }
    }
    forall p, q | 0 <= p < q < |qs|
      ensures NpsApart(qs[p], qs[q])
    {
      assert NpsApart(ps[p], ps[q]);
    }
  }

  /** fork takes slot e for p. */
  lemma {:induction false} ForkTakes(ps: seq<Proc>, p: nat, e: nat, pid: nat)
    requires SlotsOk(ps) && p < |ps| && e < |ps| && ps[p].state == RUNNING && ps[p].np == NOBODY
    requires ps[e].state == UNUSED && ps[e].parent == NOBODY && ps[p].pid < pid
    ensures SlotsOk(ps[e := ps[e].(state := EMBRYO, pid := pid)][p := ps[p].(np := e)])
  {
    var qs := ps[e := ps[e].(state := EMBRYO, pid := pid)][p := ps[p].(np := e)];
    forall i | 0 <= i < |qs|
      ensures SlotOk(qs, i)
    {
      assert SlotOk(ps, i);
    }
    forall i, j | 0 <= i < j < |qs|
      ensures NpsApart(qs[i], qs[j])
    {
      assert NpsApart(ps[i], ps[j]) && SlotOk(ps, i) && SlotOk(ps, j);
    }
  }

  /** fork changes the slot e it is building for p. */
  lemma {:induction false} ForkBuilds(ps: seq<Proc>, p: nat, e: nat, q: Proc)
    requires SlotsOk(ps) && p < |ps| && ps[p].np == e && e < |ps| && q.state == EMBRYO && q.np == NOBODY
    requires q.pid == ps[e].pid
    requires q.parent == NOBODY || q.parent == p
    requires q.chan == ps[e].chan
    ensures SlotsOk(ps[e := q])
  {
    var qs := ps[e := q];
    assert SlotOk(ps, p) && SlotOk(ps, e);
    forall i | 0 <= i < |qs|
      ensures SlotOk(qs, i)
    {
      assert SlotOk(ps, i);
      if i < p { assert NpsApart(ps[i], ps[p]); } else if p < i { assert NpsApart(ps[p], ps[i]); }
    }
    forall i, j | 0 <= i < j < |qs|
      ensures NpsApart(qs[i], qs[j])
    {
      assert NpsApart(ps[i], ps[j]);
    }
  }

  /** fork gives the slot e away: as a runnable child or as an unused slot. */
  lemma {:induction false} ForkEnds(ps: seq<Proc>, p: nat, e: nat, q: Proc)
    requires SlotsOk(ps) && p < |ps| && ps[p].np == e && e < |ps| && q.np == NOBODY && q.chan == ps[e].chan
    requires q.state == UNUSED || (q.state == RUNNABLE && q.kstack)
    ensures SlotsOk(ps[e := q][p := ps[p].(np := NOBODY)])
  {
    var qs := ps[e := q][p := ps[p].(np := NOBODY)];
    assert SlotOk(ps, p) && SlotOk(ps, e);
    forall i | 0 <= i < |qs|
      ensures SlotOk(qs, i)
    {
      assert SlotOk(ps, i);
      if i < p { assert NpsApart(ps[i], ps[p]); } else if p < i { assert NpsApart(ps[p], ps[i]); }
    }
    forall i, j | 0 <= i < j < |qs|
      ensures NpsApart(qs[i], qs[j])
    {
      assert NpsApart(ps[i], ps[j]);
    }
  }

  // ----- wait -----

  predicate NoZombieChild(procs: seq<Proc>, p: int) {
    forall i :: 0 <= i < |procs| && procs[i].parent == p ==> procs[i].state != ZOMBIE
  }

  /** A process asleep in wait has a child, and none that is waiting to be reaped. */
  predicate WaiterOk(procs: seq<Proc>, i: nat)
    requires i < |procs|
  {
    WaitAsleep(procs[i]) ==> HasChild(procs, i) && NoZombieChild(procs, i)
  }

  predicate WaitOk(procs: seq<Proc>) {
    forall i :: 0 <= i < |procs| ==> WaiterOk(procs, i)
  }

  /** A change that no waiter sees. */
  predicate SameWait(p: Proc, q: Proc) {
    q.parent == p.parent && (q.state == ZOMBIE ==> p.state == ZOMBIE) && (WaitAsleep(q) ==> WaitAsleep(p))
  }

  lemma {:induction false} WaitKept(ps: seq<Proc>, qs: seq<Proc>)
    requires WaitOk(ps) && |ps| == |qs| && forall i :: 0 <= i < |ps| ==> SameWait(ps[i], qs[i])
    ensures WaitOk(qs)
  {
    forall i | 0 <= i < |qs|
      ensures WaiterOk(qs, i)
    {
      assert SameWait(ps[i], qs[i]) && WaiterOk(ps, i);
      if WaitAsleep(qs[i]) {
        var k :| 0 <= k < |ps| && ps[k].parent == i;
        assert SameWait(ps[k], qs[k]);
      }
    }
  }

  /** p falls asleep in wait having found a child and no zombie. */
  lemma {:induction false} WaitSleeps(ps: seq<Proc>, p: nat, q: Proc)
    requires WaitOk(ps) && p < |ps| && HasChild(ps, p) && NoZombieChild(ps, p) && q.parent == ps[p].parent
    requires q.state != ZOMBIE
    ensures WaitOk(ps[p := q])
  {
    var qs := ps[p := q];
    forall i | 0 <= i < |qs|
      ensures WaiterOk(qs, i)
    {
      assert WaiterOk(ps, i);
      if WaitAsleep(qs[i]) {
        var k :| 0 <= k < |ps| && ps[k].parent == i;
        assert qs[k].parent == i;
      }
    }
  }

  /** One slot changes, and neither its old nor its new parent is asleep in wait. */
  lemma {:induction false} WaitUnseen(ps: seq<Proc>, e: nat, q: Proc)
    requires WaitOk(ps) && e < |ps| && !WaitAsleep(q)
    requires 0 <= ps[e].parent < |ps| ==> !WaitAsleep(ps[ps[e].parent])
    requires 0 <= q.parent < |ps| ==> !WaitAsleep(ps[q.parent])
    ensures WaitOk(ps[e := q])
  {
    var qs := ps[e := q];
    forall i | 0 <= i < |qs|
      ensures WaiterOk(qs, i)
    {
      assert WaiterOk(ps, i);
      if WaitAsleep(qs[i]) {
        var k :| 0 <= k < |ps| && ps[k].parent == i;
        assert qs[k].parent == i;
      }
    }
  }

  /** The children of p pass to init, which is woken if one of them is a zombie. */
  lemma {:induction false} WaitAdopts(ps: seq<Proc>, qs: seq<Proc>, p: nat, init: nat)
    requires WaitOk(ps) && p < |ps| && init < |ps| && p != init && |qs| == |ps| && ps[p].state == RUNNING
    requires forall i :: 0 <= i < |ps| ==> qs[i].parent == if ps[i].parent == p then init else ps[i].parent
    requires forall i :: 0 <= i < |ps| ==>
      (qs[i].state == ZOMBIE <==> ps[i].state == ZOMBIE) && (WaitAsleep(qs[i]) ==> WaitAsleep(ps[i]))
    requires WaitAsleep(qs[init]) ==> NoZombieChild(ps, p)
    ensures WaitOk(qs)
  {
    forall i | 0 <= i < |qs|
      ensures WaiterOk(qs, i)
    {
      assert WaiterOk(ps, i);
      if WaitAsleep(qs[i]) {
        var k :| 0 <= k < |ps| && ps[k].parent == i;
        assert qs[k].parent == i;
      }
    }
  }

  // ----- phases of operations that hold the lock -----

  predicate ParentUp(procs: seq<Proc>, i: nat)
    requires i < |procs|
  {
    0 <= procs[i].parent < |procs| ==> !WaitAsleep(procs[procs[i].parent])
  }

  /** What a process holding the lock has established so far. */
  predicate PhaseOk(procs: seq<Proc>, init: nat, pc: Pc)
    requires Cur(pc) < |procs|
  {
    match pc
    case Loop => true
    case Scan(_) => true
    case Run(_) => true
    case Switch(_) => true
    case Enter(p) => procs[p].np == NOBODY || procs[p].context == InYield
    case Locked(p, op) =>
      match op
      case Yield => true
      case WakeUp(ch) => ch.Address?
      case KillPid(_) => true
      case SleepOn(ch) => ch.Address? && procs[p].np == NOBODY
      case AllocProc => procs[p].np == NOBODY
      case WaitScan => procs[p].np == NOBODY
      case WaitSleep => procs[p].np == NOBODY && HasChild(procs, p) && NoZombieChild(procs, p)
      case ExitWake => procs[p].np == NOBODY && p != init
      case ExitAdopt => procs[p].np == NOBODY && p != init && ParentUp(procs, p)
      case ExitZombie => procs[p].np == NOBODY && p != init && ParentUp(procs, p) && !HasChild(procs, p)
  }

  predicate PhasesOk(s: Sys)
    requires CpusOk(s)
  {
    forall c :: 0 <= c < |s.pcs| ==> PcOk(s.procs, s.pcs[c]) && PhaseOk(s.procs, s.init, s.pcs[c])
  }

  /** A CPU that has or takes the lock changes only its own phase. */
  lemma {:induction false} PhaseMoves(s: Sys, t: Sys, c: nat, pc: Pc)
    requires CpusOk(s) && PhasesOk(s) && c < |s.pcs| && t.pcs == s.pcs[c := pc] && CpusOk(t)
    requires Cur(pc) < |t.procs| && PhaseOk(t.procs, t.init, pc)
    requires Holds(s.pcs[c]) || LockFree(s)
    ensures PhasesOk(t)
  {
    forall d | 0 <= d < |t.pcs|
      ensures PcOk(t.procs, t.pcs[d]) && PhaseOk(t.procs, t.init, t.pcs[d])
    {
      if d != c { assert Apart(s.pcs[c], s.pcs[d]); }
    }
  }

  /** Building slot e in fork, without the lock, is not seen by an operation under the lock. */
  lemma {:induction false} PhasesUnseen(s: Sys, t: Sys, c: nat, p: nat, e: nat)
    requires CpusOk(s) && PhasesOk(s) && c < |s.pcs| && s.pcs[c] == Run(p) && t.pcs == s.pcs && t.init == s.init
    requires CpusOk(t)
    requires e < |s.procs| && p < |s.procs| && s.procs[e].state == EMBRYO && |t.procs| == |s.procs|
    requires forall i :: 0 <= i < |s.procs| && i != e && i != p ==> t.procs[i] == s.procs[i]
    requires (t.procs[p] == s.procs[p].(np := NOBODY) || t.procs[p] == s.procs[p]) && p != e
    requires t.procs[e].state !in {SLEEPING, ZOMBIE}
    requires (t.procs[e].parent == s.procs[e].parent || t.procs[e].parent == p)
    requires s.procs[e].parent == NOBODY || s.procs[e].parent == p
    ensures PhasesOk(t)
  {
    forall d | 0 <= d < |t.pcs|
      ensures PcOk(t.procs, t.pcs[d]) && PhaseOk(t.procs, t.init, t.pcs[d])
    {
      if d != c {
        assert Apart(s.pcs[c], s.pcs[d]) && PcOk(s.procs, s.pcs[d]) && PhaseOk(s.procs, s.init, s.pcs[d]);
        PhaseUnseen(s, t, s.pcs[d], p, e);
      }
    }
  }

  lemma {:induction false} PhaseUnseen(s: Sys, t: Sys, pc: Pc, p: nat, e: nat)
    requires PcOk(s.procs, pc) && PhaseOk(s.procs, s.init, pc) && Cur(pc) != p && t.init == s.init
    requires e < |s.procs| && p < |s.procs| && s.procs[e].state == EMBRYO && |t.procs| == |s.procs|
    requires forall i :: 0 <= i < |s.procs| && i != e && i != p ==> t.procs[i] == s.procs[i]
    requires (t.procs[p] == s.procs[p].(np := NOBODY) || t.procs[p] == s.procs[p]) && p != e
    requires t.procs[e].state !in {SLEEPING, ZOMBIE}
    requires (t.procs[e].parent == s.procs[e].parent || t.procs[e].parent == p)
    requires s.procs[e].parent == NOBODY || s.procs[e].parent == p
    ensures PhaseOk(t.procs, t.init, pc)
  {
    if HasChild(s.procs, Cur(pc)) {
      var k :| 0 <= k < |s.procs| && s.procs[k].parent == Cur(pc);
      assert k != e ==> t.procs[k].parent == Cur(pc);
    }
  }

  predicate Inv(s: Sys) {
    CpusOk(s) && TreeOk(Nodes(s.procs), s.init, s.nextpid) && SlotsOk(s.procs) && WaitOk(s.procs) && PhasesOk(s)
  }
}
