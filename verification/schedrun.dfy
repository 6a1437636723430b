/** Whole runs of the scheduler model, and what holds at every point of them. */
module SchedulerRuns {
  import opened ProcTable
  import opened Scheduler
  import opened SchedulerInv
  import opened SchedulerSteps

  datatype Step = Step(cpu: nat, action: Action)

  predicate CanRun(s: Sys, steps: seq<Step>)
    decreases |steps|
  {
    steps == [] ||
    (steps[0].cpu < |s.pcs| && Can(s, steps[0].cpu, steps[0].action) &&
     CanRun(After(s, steps[0].cpu, steps[0].action), steps[1..]))
  }

  function RunOf(s: Sys, steps: seq<Step>): Sys
    requires CanRun(s, steps)
    decreases |steps|
  {
    if steps == [] then s else RunOf(After(s, steps[0].cpu, steps[0].action), steps[1..])
  }

  const INIT := FREE.(state := RUNNABLE, pid := 1, kstack := true)

  /** userinit: the first process is runnable in slot 0, every CPU is in the scheduler. */
  function Boot(slots: nat, cpus: nat): Sys
    requires slots > 0
  {
    Sys([INIT] + seq(slots - 1, _ => FREE), seq(cpus, _ => Loop), 2, 0)
  }

  lemma {:induction false} BootOk(slots: nat, cpus: nat)
    requires slots > 0
    ensures Inv(Boot(slots, cpus))
  {
    var s := Boot(slots, cpus);
    assert forall i :: 0 < i < slots ==> s.procs[i] == FREE;
    assert CpusOk(s);
    assert TreeOk(Nodes(s.procs), s.init, s.nextpid);
  }

  lemma {:induction false} StepKeepsInv(s: Sys, c: nat, a: Action)
    requires Inv(s) && c < |s.pcs| && Can(s, c, a)
    ensures Inv(After(s, c, a))
  {
    hide Inv, After;
    match a
    case SchedLock => LoopStep(s, c, a);
    case SchedNext => LoopStep(s, c, a);
    case SchedDone => LoopStep(s, c, a);
    case SwitchAway => LoopStep(s, c, a);
    case Acquire(_) => LoopStep(s, c, a);
    case SchedPick => PickStep(s, c);
    case Resume => ResumeStep(s, c);
    case Interrupt(ch) => InterruptStep(s, c, ch);
    case ForkStack => ForkStep(s, c, a);
    case ForkParent => ForkStep(s, c, a);
    case ForkDone => ForkEndStep(s, c, a);
    case ForkFail => ForkEndStep(s, c, a);
    case Perform =>
      match s.pcs[c].op
      case Yield => YieldOrSleepStep(s, c);
      case SleepOn(_) => YieldOrSleepStep(s, c);
      case WakeUp(_) => WakeUpStep(s, c);
      case KillPid(_) => KillStep(s, c);
      case AllocProc => AllocStep(s, c);
      case WaitScan => WaitScanStep(s, c);
      case WaitSleep => WaitSleepStep(s, c);
      case ExitWake => ExitWakeStep(s, c);
      case ExitAdopt => ExitAdoptStep(s, c);
      case ExitZombie => ExitZombieStep(s, c);
  }

  lemma {:induction false} RunKeepsInv(s: Sys, steps: seq<Step>)
    requires Inv(s) && CanRun(s, steps)
    ensures Inv(RunOf(s, steps))
    decreases |steps|
  {
    hide Inv;
    if steps != [] {
      StepKeepsInv(s, steps[0].cpu, steps[0].action);
      RunKeepsInv(After(s, steps[0].cpu, steps[0].action), steps[1..]);
    }
  }

  /** Between critical sections a process is RUNNING exactly when it is on a CPU; two CPUs never
      share a process or the lock; sched finds its process not RUNNING. That a step which takes the
      lock waits for it is a rule of this model; SchedulerLock proves it of the lock's code. */
  lemma {:induction false} CpusAgree(slots: nat, cpus: nat, steps: seq<Step>, s: Sys)
    requires slots > 0 && CanRun(Boot(slots, cpus), steps) && s == RunOf(Boot(slots, cpus), steps)
    ensures forall c, d :: 0 <= c < |s.pcs| && 0 <= d < |s.pcs| && c != d ==> !(Holds(s.pcs[c]) && Holds(s.pcs[d]))
    ensures forall c, d :: 0 <= c < |s.pcs| && 0 <= d < |s.pcs| && c != d && Cur(s.pcs[c]) != NOBODY ==>
      Cur(s.pcs[c]) != Cur(s.pcs[d])
    ensures forall c :: 0 <= c < |s.pcs| ==> Cur(s.pcs[c]) < |s.procs|
    ensures forall c :: 0 <= c < |s.pcs| && s.pcs[c].Switch? ==> s.procs[Cur(s.pcs[c])].state != RUNNING
    ensures forall c :: 0 <= c < |s.pcs| && s.pcs[c].Enter? ==> s.procs[Cur(s.pcs[c])].state == RUNNING
    ensures LockFree(s) ==> forall i :: 0 <= i < |s.procs| ==> (s.procs[i].state == RUNNING <==> !OffCpu(s.pcs, i))
  {
    BootOk(slots, cpus);
    RunKeepsInv(Boot(slots, cpus), steps);
    InvParts(s);
    forall c | 0 <= c < |s.pcs|
      ensures PcOk(s.procs, s.pcs[c])
    {
      InvPc(s, c);
    }
    hide Inv;
    forall c, d | 0 <= c < |s.pcs| && 0 <= d < |s.pcs| && c != d
      ensures Apart(s.pcs[c], s.pcs[d])
    {
    }
    if LockFree(s) {
      forall i | 0 <= i < |s.procs|
        ensures s.procs[i].state == RUNNING <==> !OffCpu(s.pcs, i)
      {
        if s.procs[i].state == RUNNING { assert OnCpu(s.pcs, i); }
      }
    }
  }

  /** A process found by climbing n parents from slot i. */
  predicate DescendsFrom(procs: seq<Proc>, i: int, a: int, n: nat)
    decreases n
  {
    0 <= i < |procs| && (i == a || (n > 0 && DescendsFrom(procs, procs[i].parent, a, n - 1)))
  }

  lemma {:induction false} Climbs(s: Sys, i: nat)
    requires Inv(s) && i < |s.procs| && Alive(s.procs[i].state)
    ensures DescendsFrom(s.procs, i, s.init, s.procs[i].pid)
    decreases s.procs[i].pid
  {
    hide Inv;
    InvNode(s, i);
    if i != s.init {
      Climbs(s, s.procs[i].parent);
      Higher(s.procs, s.procs[i].parent, s.init, s.procs[s.procs[i].parent].pid, s.procs[i].pid - 1);
    }
  }

  lemma {:induction false} Higher(procs: seq<Proc>, i: int, a: int, n: nat, m: nat)
    requires DescendsFrom(procs, i, a, n) && n <= m
    ensures DescendsFrom(procs, i, a, m)
    decreases n
  {
    if i != a { Higher(procs, procs[i].parent, a, n - 1, m - 1); }
  }

  /** Every live process other than init has a live parent, the chain of parents ends at init, pids are
      unique, and every child that waits to be reaped has a parent that is not asleep in wait. */
  lemma {:induction false} ProcessTree(slots: nat, cpus: nat, steps: seq<Step>, s: Sys)
    requires slots > 0 && CanRun(Boot(slots, cpus), steps) && s == RunOf(Boot(slots, cpus), steps)
    ensures forall i :: 0 <= i < |s.procs| && Alive(s.procs[i].state) ==>
      DescendsFrom(s.procs, i, s.init, s.procs[i].pid)
    ensures forall i :: 0 <= i < |s.procs| && Alive(s.procs[i].state) && i != s.init ==>
              0 <= s.procs[i].parent < |s.procs| && Active(s.procs[s.procs[i].parent].state)
    ensures forall i, j :: 0 <= i < j < |s.procs| && s.procs[i].state != UNUSED && s.procs[j].state != UNUSED ==>
      s.procs[i].pid != s.procs[j].pid
    ensures forall i :: 0 <= i < |s.procs| && WaitAsleep(s.procs[i]) ==>
      HasChild(s.procs, i) && NoZombieChild(s.procs, i)
  {
    BootOk(slots, cpus);
    RunKeepsInv(Boot(slots, cpus), steps);
    InvParts(s);
    hide Inv;
    forall i | 0 <= i < |s.procs| && Alive(s.procs[i].state)
      ensures DescendsFrom(s.procs, i, s.init, s.procs[i].pid)
      ensures i != s.init ==> 0 <= s.procs[i].parent < |s.procs| && Active(s.procs[s.procs[i].parent].state)
    {
      Climbs(s, i);
      InvNode(s, i);
    }
    forall i, j | 0 <= i < j < |s.procs| && s.procs[i].state != UNUSED && s.procs[j].state != UNUSED
      ensures s.procs[i].pid != s.procs[j].pid
    {
      assert PidsApart(Nodes(s.procs)[i], Nodes(s.procs)[j]);
    }
    forall i | 0 <= i < |s.procs| && WaitAsleep(s.procs[i])
      ensures HasChild(s.procs, i) && NoZombieChild(s.procs, i)
    {
      assert WaiterOk(s.procs, i);
    }
  }

  // ----- the life of a process -----

  /** The step is an operation that process i, holding the lock, carries out. */
  predicate Performs(s: Sys, c: nat, a: Action, i: nat)
    requires c < |s.pcs|
  {
    a.Perform? && s.pcs[c].Locked? && s.pcs[c].p == i
  }

  predicate PerformsOp(s: Sys, c: nat, a: Action)
    requires c < |s.pcs|
  {
    a.Perform? && s.pcs[c].Locked? && s.pcs[c].p < |s.procs|
  }

  /** The step is a wakeup on the channel: from wakeup, from an interrupt, or from exit for a parent or for init. */
  predicate WakesChan(s: Sys, c: nat, a: Action, ch: Chan)
    requires c < |s.pcs|
  {
    || (a.Interrupt? && a.chan == ch)
    || (PerformsOp(s, c, a) &&
          (|| s.pcs[c].op == WakeUp(ch)
           || (s.pcs[c].op == ExitWake && ch == OfProc(s.procs[s.pcs[c].p].parent))
           || (s.pcs[c].op == ExitAdopt && ch == OfProc(s.init) && ZombieChild(s.procs, s.pcs[c].p, |s.procs|))))
  }

  predicate KillsSlot(s: Sys, c: nat, a: Action, i: nat)
    requires c < |s.pcs|
  {
    PerformsOp(s, c, a) && s.pcs[c].op.KillPid? && FirstPid(s.procs, s.pcs[c].op.pid, 0) == i
  }

  /** A sleeper becomes runnable by exactly a wakeup on its channel or its kill, and else sleeps on, on the same
      channel. */
  lemma {:induction false} SleeperWakes(s: Sys, c: nat, a: Action, i: nat, t: Sys)
    requires Inv(s) && c < |s.pcs| && Can(s, c, a) && i < |s.procs| && s.procs[i].state == SLEEPING
    requires t == After(s, c, a)
    ensures |t.procs| == |s.procs| && t.procs[i].chan == s.procs[i].chan
    ensures t.procs[i].state ==
      if WakesChan(s, c, a, s.procs[i].chan) || KillsSlot(s, c, a, i) then RUNNABLE else SLEEPING
  {
    hide Inv, Adopt, ZombieChild, Operate;
    InvPc(s, c);
    InvSlot(s, i);
    if a.Perform? {
      SleeperThrough(s, c, i);
    } else if s.pcs[c].Run? {
      InvSlot(s, s.pcs[c].p);
    }
  }

  /** The same, for an operation under the lock. */
  lemma {:induction false} SleeperThrough(s: Sys, c: nat, i: nat)
    requires Inv(s) && c < |s.pcs| && Can(s, c, Perform) && i < |s.procs| && s.procs[i].state == SLEEPING
    ensures var t := Operate(s, c, s.pcs[c].p, s.pcs[c].op);
            |t.procs| == |s.procs| && t.procs[i].chan == s.procs[i].chan &&
            t.procs[i].state ==
              if WakesChan(s, c, Perform, s.procs[i].chan) || KillsSlot(s, c, Perform, i) then RUNNABLE else SLEEPING
  {
    hide Inv, Adopt, ZombieChild;
    InvPc(s, c);
    if s.pcs[c].op.ExitAdopt? {
      Adopted(s.procs, s.pcs[c].p, s.init, |s.procs|, i);
    }
  }

  /** A runnable process starts to run by exactly being picked by a scheduler, and else stays runnable. */
  lemma {:induction false} RunnableRuns(s: Sys, c: nat, a: Action, i: nat, t: Sys)
    requires Inv(s) && c < |s.pcs| && Can(s, c, a) && i < |s.procs| && s.procs[i].state == RUNNABLE
    requires t == After(s, c, a)
    ensures |t.procs| == |s.procs|
    ensures t.procs[i].state == if a == SchedPick && s.pcs[c].k == i then RUNNING else RUNNABLE
  {
    hide Inv, Adopt;
    InvPc(s, c);
    InvSlot(s, i);
    if s.pcs[c].Run? { InvSlot(s, s.pcs[c].p); }
    if a.Perform? && s.pcs[c].op.ExitAdopt? {
      Adopted(s.procs, s.pcs[c].p, s.init, |s.procs|, i);
    }
  }

  /** A running process stops by exactly its own yield, sleep, wait or exit. */
  lemma {:induction false} RunningStops(s: Sys, c: nat, a: Action, i: nat, t: Sys)
    requires Inv(s) && c < |s.pcs| && Can(s, c, a) && i < |s.procs| && s.procs[i].state == RUNNING
    requires t == After(s, c, a)
    ensures |t.procs| == |s.procs|
    ensures t.procs[i].state ==
            if !Performs(s, c, a, i) then RUNNING
            else match s.pcs[c].op
              case Yield => RUNNABLE
              case SleepOn(_) => SLEEPING
              case WaitSleep => SLEEPING
              case ExitZombie => ZOMBIE
              case _ => RUNNING
    ensures Performs(s, c, a, i) && s.pcs[c].op.SleepOn? ==> t.procs[i].chan == s.pcs[c].op.chan
  {
    hide Inv, Adopt;
    InvPc(s, c);
    InvSlot(s, i);
    if s.pcs[c].Run? { InvSlot(s, s.pcs[c].p); }
    if a.Perform? && s.pcs[c].op.ExitAdopt? {
      Adopted(s.procs, s.pcs[c].p, s.init, |s.procs|, i);
    }
  }

  /** A slot being built changes by exactly the end of its fork. */
  lemma {:induction false} SlotBuilt(s: Sys, c: nat, a: Action, i: nat, t: Sys)
    requires Inv(s) && c < |s.pcs| && Can(s, c, a) && i < |s.procs| && s.procs[i].state == EMBRYO && t == After(s, c, a)
    ensures |t.procs| == |s.procs|
    ensures t.procs[i].state ==
            (if !(s.pcs[c].Run? && s.pcs[c].p < |s.procs| && s.procs[s.pcs[c].p].np == i) then EMBRYO
             else if a == ForkDone then RUNNABLE else if a == ForkFail then UNUSED else EMBRYO)
  {
    hide Inv, Adopt;
    InvPc(s, c);
    if s.pcs[c].Run? { InvSlot(s, s.pcs[c].p); }
    if a.Perform? && s.pcs[c].op.ExitAdopt? {
      Adopted(s.procs, s.pcs[c].p, s.init, |s.procs|, i);
    }
  }

  /** An unused slot changes by exactly being the first that fork finds. */
  lemma {:induction false} SlotTaken(s: Sys, c: nat, a: Action, i: nat, t: Sys)
    requires Inv(s) && c < |s.pcs| && Can(s, c, a) && i < |s.procs| && s.procs[i].state == UNUSED && t == After(s, c, a)
    ensures |t.procs| == |s.procs|
    ensures t.procs[i].state ==
            if PerformsOp(s, c, a) && s.pcs[c].op == AllocProc && FirstUnused(s.procs, 0) == i then EMBRYO else UNUSED
  {
    hide Inv, Adopt;
    InvPc(s, c);
    if s.pcs[c].Run? { InvSlot(s, s.pcs[c].p); }
    if a.Perform? && s.pcs[c].op.ExitAdopt? {
      Adopted(s.procs, s.pcs[c].p, s.init, |s.procs|, i);
    }
  }

  /** wait, by the process that holds the lock, finds i first among its zombie children. */
  predicate Reaps(s: Sys, c: nat, a: Action, i: nat)
    requires c < |s.pcs| && i < |s.procs|
  {
    PerformsOp(s, c, a) && s.pcs[c].op.WaitScan? && FirstZombie(s.procs, s.pcs[c].p, 0) == i
  }

  /** A zombie changes only by being passed to init, and by exactly being reaped by its parent; then it is on no CPU. */
  lemma {:induction false} ZombieStays(s: Sys, c: nat, a: Action, i: nat, t: Sys)
    requires Inv(s) && c < |s.pcs| && Can(s, c, a) && i < |s.procs| && s.procs[i].state == ZOMBIE && t == After(s, c, a)
    ensures |t.procs| == |s.procs|
    ensures t.procs[i].state == UNUSED <==> Reaps(s, c, a, i)
    ensures t.procs[i].state == UNUSED ==> OffCpu(s.pcs, i) && !HasChild(s.procs, i)
    ensures t.procs[i].state != UNUSED ==> t.procs[i].state == ZOMBIE && t.procs[i].pid == s.procs[i].pid
    ensures t.procs[i].state != UNUSED ==> t.procs[i].parent == s.procs[i].parent || t.procs[i].parent == s.init
  {
    hide Inv, Adopt;
    InvPc(s, c);
    InvSlot(s, i);
    if s.pcs[c].Run? { InvSlot(s, s.pcs[c].p); }
    if a.Perform? {
      if s.pcs[c].op.ExitAdopt? {
        Adopted(s.procs, s.pcs[c].p, s.init, |s.procs|, i);
      } else if s.pcs[c].op.WaitScan? {
        if s.procs[i].parent == s.pcs[c].p { ReapStep(s, c, i); }
      }
    }
  }

  /** A slot's mark is set by exactly the kills that find it and cleared by exactly the wait that reaps it, whatever
      its state: neither allocproc nor a failing fork touches it. */
  lemma {:induction false} KilledStep(s: Sys, c: nat, a: Action, i: nat, t: Sys)
    requires Inv(s) && c < |s.pcs| && Can(s, c, a) && i < |s.procs| && t == After(s, c, a)
    ensures |t.procs| == |s.procs|
    ensures t.procs[i].killed <==> KillsSlot(s, c, a, i) || (s.procs[i].killed && !Reaps(s, c, a, i))
  {
    hide Inv, Adopt;
    InvPc(s, c);
    if a.Perform? && s.pcs[c].op.ExitAdopt? {
      Adopted(s.procs, s.pcs[c].p, s.init, |s.procs|, i);
    }
  }

  // ----- the mark over a whole run -----

  /** A run goes through the states of its prefixes. */
  lemma {:induction false} PrefixRuns(s: Sys, steps: seq<Step>, j: nat)
    requires Inv(s) && CanRun(s, steps) && j <= |steps|
    ensures CanRun(s, steps[..j])
    ensures var u := RunOf(s, steps[..j]);
            && Inv(u) && |u.procs| == |s.procs|
            && (j < |steps| ==>
                  && steps[j].cpu < |u.pcs| && Can(u, steps[j].cpu, steps[j].action) && CanRun(s, steps[..j + 1])
                  && RunOf(s, steps[..j + 1]) == After(u, steps[j].cpu, steps[j].action))
    decreases j
  {
    hide Inv, Can, After;
    if j < |steps| {
      assert steps[..j + 1][0] == steps[0] && steps[..j + 1][1..] == steps[1..][..j];
    }
    if j > 0 {
      StepKeepsInv(s, steps[0].cpu, steps[0].action);
      KeepsSlots(s, steps[0].cpu, steps[0].action);
      assert steps[..j][0] == steps[0] && steps[..j][1..] == steps[1..][..j - 1];
      PrefixRuns(After(s, steps[0].cpu, steps[0].action), steps[1..], j - 1);
    }
  }

  lemma {:induction false} KeepsSlots(s: Sys, c: nat, a: Action)
    requires c < |s.pcs| && Can(s, c, a)
    ensures |After(s, c, a).procs| == |s.procs|
  {
  }

  /** Step j of a run is a kill that finds slot i. */
  ghost predicate KillsAt(s: Sys, steps: seq<Step>, j: nat, i: nat)
    requires Inv(s) && CanRun(s, steps) && j < |steps|
  {
    PrefixRuns(s, steps, j);
    KillsSlot(RunOf(s, steps[..j]), steps[j].cpu, steps[j].action, i)
  }

  /** Step j of a run is a wait that reaps slot i. */
  ghost predicate ReapsAt(s: Sys, steps: seq<Step>, j: nat, i: nat)
    requires Inv(s) && CanRun(s, steps) && j < |steps| && i < |s.procs|
  {
    PrefixRuns(s, steps, j);
    Reaps(RunOf(s, steps[..j]), steps[j].cpu, steps[j].action, i)
  }

  ghost predicate NotReaped(s: Sys, steps: seq<Step>, from: nat, i: nat)
    requires Inv(s) && CanRun(s, steps) && i < |s.procs|
  {
    forall k: nat :: from <= k < |steps| ==> !ReapsAt(s, steps, k, i)
  }

  /** Some kill found slot i, and no later wait reaped it. */
  ghost predicate KilledSince(s: Sys, steps: seq<Step>, i: nat)
    requires Inv(s) && CanRun(s, steps) && i < |s.procs|
  {
    exists j: nat :: j < |steps| && KillsAt(s, steps, j, i) && NotReaped(s, steps, j + 1, i)
  }

  /** What the last step adds. */
  lemma {:induction false} OneMoreStep(s: Sys, steps: seq<Step>, i: nat)
    requires Inv(s) && CanRun(s, steps) && i < |s.procs| && steps != []
    ensures var n := |steps| - 1;
            && CanRun(s, steps[..n])
            && (forall m: nat :: m <= n ==>
                  (NotReaped(s, steps, m, i) <==> NotReaped(s, steps[..n], m, i) && !ReapsAt(s, steps, n, i)))
            && (KilledSince(s, steps, i) <==>
                  KillsAt(s, steps, n, i) || (KilledSince(s, steps[..n], i) && !ReapsAt(s, steps, n, i)))
  {
    hide Inv, After, Can, KillsSlot, Reaps, RunOf, CanRun;
    var n := |steps| - 1;
    var init := steps[..n];
    PrefixRuns(s, steps, n);
    forall k: nat | k < n
      ensures KillsAt(s, steps, k, i) == KillsAt(s, init, k, i) && ReapsAt(s, steps, k, i) == ReapsAt(s, init, k, i)
    {
      assert init[..k] == steps[..k];
    }
    forall m: nat | m <= n
      ensures NotReaped(s, steps, m, i) <==> NotReaped(s, init, m, i) && !ReapsAt(s, steps, n, i)
    {
      if NotReaped(s, init, m, i) && !ReapsAt(s, steps, n, i) {
        forall k: nat | m <= k < |steps| ensures !ReapsAt(s, steps, k, i) {
          assert k < n ==> !ReapsAt(s, init, k, i);
        }
      }
    }
    assert NotReaped(s, steps, n + 1, i);
    if KilledSince(s, init, i) && !ReapsAt(s, steps, n, i) {
      var j: nat :| j < n && KillsAt(s, init, j, i) && NotReaped(s, init, j + 1, i);
      assert KillsAt(s, steps, j, i) && NotReaped(s, steps, j + 1, i);
    }
    if KilledSince(s, steps, i) && !KillsAt(s, steps, n, i) {
      var j: nat :| j < |steps| && KillsAt(s, steps, j, i) && NotReaped(s, steps, j + 1, i);
      assert KillsAt(s, init, j, i) && NotReaped(s, init, j + 1, i);
    }
  }

  /** At the end of any run a slot is marked exactly if some kill found it, or it was marked at the start, and no wait
      has reaped it since. */
  lemma {:induction false} MarkedExactly(s: Sys, steps: seq<Step>, i: nat)
    requires Inv(s) && CanRun(s, steps) && i < |s.procs|
    ensures |RunOf(s, steps).procs| == |s.procs|
    ensures RunOf(s, steps).procs[i].killed <==>
      KilledSince(s, steps, i) || (s.procs[i].killed && NotReaped(s, steps, 0, i))
    decreases |steps|
  {
    if steps != [] {
      hide Inv, After, Can, KillsSlot, Reaps, CanRun, RunOf, KilledSince, NotReaped;
      var n := |steps| - 1;
      PrefixRuns(s, steps, n);
      OneMoreStep(s, steps, i);
      MarkedExactly(s, steps[..n], i);
      assert steps[..n + 1] == steps;
      KilledStep(RunOf(s, steps[..n]), steps[n].cpu, steps[n].action, i, RunOf(s, steps));
    }
  }

  /** A child that fork makes runnable, in any run since boot, is unmarked exactly if no kill found its slot after the
      slot was last reaped. */
  lemma {:induction false} ChildUnmarked(slots: nat, cpus: nat, steps: seq<Step>, s: Sys, c: nat, t: Sys)
    requires slots > 0 && CanRun(Boot(slots, cpus), steps) && s == RunOf(Boot(slots, cpus), steps)
    requires c < |s.pcs| && Can(s, c, ForkDone) && t == After(s, c, ForkDone)
    ensures (BootOk(slots, cpus);
             var e := s.procs[s.pcs[c].p].np;
             && 0 <= e < |t.procs| == slots && t.procs[e].state == RUNNABLE && t.procs[e].parent == s.pcs[c].p
             && (!t.procs[e].killed <==> !KilledSince(Boot(slots, cpus), steps, e)))
  {
    hide Inv, KilledSince, RunOf, CanRun, NotReaped;
    BootOk(slots, cpus);
    var e := s.procs[s.pcs[c].p].np;
    assert |Boot(slots, cpus).procs| == slots;
    if 0 <= e < |s.procs| {
      PrefixRuns(Boot(slots, cpus), steps, |steps|);
      assert steps[..|steps|] == steps;
      MarkedExactly(Boot(slots, cpus), steps, e);
      RunKeepsInv(Boot(slots, cpus), steps);
      KilledStep(s, c, ForkDone, e, t);
      assert !Boot(slots, cpus).procs[e].killed;
    }
  }

  lemma {:induction false} Then(s: Sys, step: Step, rest: seq<Step>) returns (all: seq<Step>)
    requires step.cpu < |s.pcs| && Can(s, step.cpu, step.action) && CanRun(After(s, step.cpu, step.action), rest)
    ensures all == [step] + rest && CanRun(s, all) && RunOf(s, all) == RunOf(After(s, step.cpu, step.action), rest)
  {
    all := [step] + rest;
    assert all[1..] == rest;
  }

  predicate BornKilled(s: Sys) {
    |s.procs| == 2 && s.procs[1].state == RUNNABLE && s.procs[1].parent == 0 && s.procs[1].killed
  }

  /** init alone on one CPU, one other slot. */
  function Two(me: Proc, other: Proc, pc: Pc, nextpid: nat): Sys {
    Sys([me, other], [pc], nextpid, 0)
  }

  const BUILDING := FREE.(state := EMBRYO, pid := 2, kstack := true, killed := true)

  lemma {:induction false} ForkEnds() returns (steps: seq<Step>)
    ensures CanRun(Two(INIT.(state := RUNNING, np := 1), BUILDING.(parent := 0), Run(0), 3), steps)
    ensures BornKilled(RunOf(Two(INIT.(state := RUNNING, np := 1), BUILDING.(parent := 0), Run(0), 3), steps))
  {
    steps := Then(Two(INIT.(state := RUNNING, np := 1), BUILDING.(parent := 0), Run(0), 3), Step(0, ForkDone), []);
  }

  lemma {:induction false} ForkInMarkedSlot() returns (steps: seq<Step>)
    ensures CanRun(Two(INIT.(state := RUNNING), FREE.(killed := true), Run(0), 2), steps)
    ensures BornKilled(RunOf(Two(INIT.(state := RUNNING), FREE.(killed := true), Run(0), 2), steps))
  {
    hide CanRun, RunOf, BornKilled;
    var me, it := INIT.(state := RUNNING), FREE.(killed := true);
    var s1 := Two(me, it, Locked(0, AllocProc), 2);
    var s2 := Two(me.(np := 1), BUILDING.(kstack := false), Run(0), 3);
    var s3 := Two(me.(np := 1), BUILDING, Run(0), 3);
    steps := ForkEnds();
    assert After(s3, 0, ForkParent) == Two(me.(np := 1), BUILDING.(parent := 0), Run(0), 3);
    steps := Then(s3, Step(0, ForkParent), steps);
    assert After(s2, 0, ForkStack) == s3;
    steps := Then(s2, Step(0, ForkStack), steps);
    assert After(s1, 0, Perform) == s2 by { assert FirstUnused(s1.procs, 1) == 1; }
    steps := Then(s1, Step(0, Perform), steps);
    assert After(Two(me, it, Run(0), 2), 0, Acquire(AllocProc)) == s1;
    steps := Then(Two(me, it, Run(0), 2), Step(0, Acquire(AllocProc)), steps);
  }

  lemma {:induction false} KillZero() returns (steps: seq<Step>)
    ensures CanRun(Two(INIT.(state := RUNNING), FREE, Locked(0, KillPid(0)), 2), steps)
    ensures BornKilled(RunOf(Two(INIT.(state := RUNNING), FREE, Locked(0, KillPid(0)), 2), steps))
  {
    hide CanRun, RunOf, BornKilled;
    var me := INIT.(state := RUNNING);
    var s4 := Two(me, FREE, Locked(0, KillPid(0)), 2);
    assert After(s4, 0, Perform) == Two(me, FREE.(killed := true), Run(0), 2) by {
      assert FirstPid(s4.procs, 0, 1) == 1;
    }
    steps := ForkInMarkedSlot();
    steps := Then(s4, Step(0, Perform), steps);
  }

  /** A fork can yield a child that is already killed: kill(0) marks a slot no process uses, and allocproc
      does not clear the mark. */
  lemma {:induction false} ChildBornKilled() returns (steps: seq<Step>)
    ensures CanRun(Boot(2, 1), steps) && BornKilled(RunOf(Boot(2, 1), steps))
  {
    hide CanRun, RunOf, BornKilled;
    var s0 := Boot(2, 1);
    assert s0.procs == [INIT, FREE] && s0.pcs == [Loop];
    var me := INIT.(state := RUNNING);
    var s3 := Two(me, FREE, Run(0), 2);
    var s4 := Two(me, FREE, Locked(0, KillPid(0)), 2);
    assert After(s0, 0, SchedLock) == Two(INIT, FREE, Scan(0), 2);
    assert After(Two(INIT, FREE, Scan(0), 2), 0, SchedPick) == Two(me, FREE, Enter(0), 2);
    assert After(Two(me, FREE, Enter(0), 2), 0, Resume) == s3;
    assert After(s3, 0, Acquire(KillPid(0))) == s4;
    steps := KillZero();
    steps := Then(s3, Step(0, Acquire(KillPid(0))), steps);
    steps := Then(Two(me, FREE, Enter(0), 2), Step(0, Resume), steps);
    steps := Then(Two(INIT, FREE, Scan(0), 2), Step(0, SchedPick), steps);
    steps := Then(s0, Step(0, SchedLock), steps);
  }
}
