/** Processes and CPUs of kernel/proc.c as a state machine: scheduler, sched, yield, sleep, wakeup,
    fork, exit, wait and kill, interleaved on any number of CPUs.

    A step is what happens between two points where another CPU can interfere. Work done with
    ptable.lock held is cut where the source hands the lock over (sched, the scheduler loop) and
    at the stages of exit and wait; the writes of fork outside the lock are steps of their own. */
module Scheduler {
  import opened ProcTable

  /** What a process that holds ptable.lock is about to do. */
  datatype Op =
    | Yield
    | SleepOn(chan: Chan)
    | WakeUp(chan: Chan)
    | KillPid(pid: int)
    | AllocProc
    | WaitScan
    | WaitSleep
    | ExitWake
    | ExitAdopt
    | ExitZombie

  /** A CPU: in the scheduler without or with the lock, switching to p, running p without or with
      the lock, or switching away from p. */
  datatype Pc = Loop | Scan(k: nat) | Enter(p: nat) | Run(p: nat) | Locked(p: nat, op: Op) | Switch(p: nat)

  datatype Sys = Sys(procs: seq<Proc>, pcs: seq<Pc>, nextpid: nat, init: nat)

  function Cur(pc: Pc): int {
    match pc
    case Loop => NOBODY
    case Scan(_) => NOBODY
    case Enter(p) => p
    case Run(p) => p
    case Locked(p, _) => p
    case Switch(p) => p
  }

  predicate Holds(pc: Pc) {
    !pc.Loop? && !pc.Run?
  }

  // ----- steps -----

  datatype Action =
    | SchedLock                 // scheduler: acquire, start of the table
    | SchedNext                 // scheduler: a slot that is not runnable
    | SchedPick                 // scheduler: switch to the process in the slot
    | SchedDone                 // scheduler: end of the table, release
    | Resume                    // the process goes on where its context says
    | Acquire(op: Op)           // a process takes the lock for an operation
    | Perform                   // the operation of the process holding the lock
    | SwitchAway                // swtch to the scheduler
    | ForkStack | ForkParent | ForkDone | ForkFail   // fork outside the lock
    | Interrupt(chan: Chan)     // wakeup from an interrupt handler on an idle CPU

  predicate LockFree(s: Sys) {
    forall c :: 0 <= c < |s.pcs| ==> !Holds(s.pcs[c])
  }

  /** What a process may take the lock for: anything while it is not inside fork. */
  predicate MayStart(s: Sys, p: nat, op: Op)
    requires p < |s.procs|
  {
    match op
    case Yield => true
    case SleepOn(ch) => ch.Address? && s.procs[p].np == NOBODY
    case WakeUp(ch) => ch.Address?
    case KillPid(_) => s.procs[p].np == NOBODY
    case AllocProc => s.procs[p].np == NOBODY
    case WaitScan => s.procs[p].np == NOBODY
    case WaitSleep => false
    case ExitWake => s.procs[p].np == NOBODY && p != s.init
    case ExitAdopt => false
    case ExitZombie => false
  }

  predicate Can(s: Sys, c: nat, a: Action)
    requires c < |s.pcs|
  {
    var pc := s.pcs[c];
    Cur(pc) < |s.procs| &&
    match a
    case SchedLock => pc.Loop? && LockFree(s)
    case SchedNext => pc.Scan? && pc.k < |s.procs| && s.procs[pc.k].state != RUNNABLE
    case SchedPick => pc.Scan? && pc.k < |s.procs| && s.procs[pc.k].state == RUNNABLE
    case SchedDone => pc.Scan? && pc.k >= |s.procs|
    case Resume => pc.Enter?
    case Acquire(op) => pc.Run? && LockFree(s) && MayStart(s, pc.p, op)
    case Perform => pc.Locked?
    case SwitchAway => pc.Switch?
    case ForkStack => pc.Run? && InFork(s, pc.p) && !s.procs[s.procs[pc.p].np].kstack
    case ForkParent =>
      pc.Run? && InFork(s, pc.p) && s.procs[s.procs[pc.p].np].kstack && s.procs[s.procs[pc.p].np].parent == NOBODY
    case ForkDone =>
      pc.Run? && InFork(s, pc.p) && s.procs[s.procs[pc.p].np].kstack && s.procs[s.procs[pc.p].np].parent == pc.p
    case ForkFail => pc.Run? && InFork(s, pc.p) && s.procs[s.procs[pc.p].np].parent == NOBODY
    case Interrupt(ch) => pc.Loop? && LockFree(s) && ch.Address?
  }

  predicate InFork(s: Sys, p: nat)
    requires p < |s.procs|
  {
    0 <= s.procs[p].np < |s.procs| && s.procs[p].np != p
  }

  function Set(s: Sys, i: nat, p: Proc): Sys
    requires i < |s.procs|
  {
    s.(procs := s.procs[i := p])
  }

  function Goto(s: Sys, c: nat, pc: Pc): Sys
    requires c < |s.pcs|
  {
    s.(pcs := s.pcs[c := pc])
  }

  /** The operation of process p on CPU c, which holds the lock. */
  function Operate(s: Sys, c: nat, p: nat, op: Op): Sys
    requires c < |s.pcs| && p < |s.procs|
  {
    var me := s.procs[p];
    match op
    case Yield =>
      Goto(Set(s, p, me.(state := RUNNABLE, context := InYield)), c, Switch(p))
    case SleepOn(ch) =>
      Goto(Set(s, p, me.(state := SLEEPING, chan := ch, context := InSleep)), c, Switch(p))
    case WakeUp(ch) =>
      Goto(s.(procs := Wake(s.procs, ch)), c, Run(p))
    case KillPid(pid) =>
      Goto(s.(procs := KillFirst(s.procs, pid)), c, Run(p))
    case AllocProc =>
      var i := FirstUnused(s.procs, 0);
      if i == |s.procs| then Goto(s, c, Run(p))
      else
        var t := Set(Set(s, i, s.procs[i].(state := EMBRYO, pid := s.nextpid)), p, me.(np := i));
        Goto(t.(nextpid := s.nextpid + 1), c, Run(p))
    case WaitScan =>
      var i := FirstZombie(s.procs, p, 0);
      if i < |s.procs| then Goto(Set(s, i, Reaped(s.procs[i])), c, Run(p))
      else if !HasChild(s.procs, p) || me.killed then Goto(s, c, Run(p))
      else Goto(s, c, Locked(p, WaitSleep))
    case WaitSleep =>
      Goto(Set(s, p, me.(state := SLEEPING, chan := OfProc(p), context := InWait)), c, Switch(p))
    case ExitWake =>
      Goto(s.(procs := Wake(s.procs, OfProc(me.parent))), c, Locked(p, ExitAdopt))
    case ExitAdopt =>
      Goto(s.(procs := Adopt(s.procs, p, s.init, |s.procs|)), c, Locked(p, ExitZombie))
    case ExitZombie =>
      Goto(Set(s, p, me.(state := ZOMBIE)), c, Switch(p))
  }

  function After(s: Sys, c: nat, a: Action): Sys
    requires c < |s.pcs| && Can(s, c, a)
  {
    var pc := s.pcs[c];
    match a
    case SchedLock => Goto(s, c, Scan(0))
    case SchedNext => Goto(s, c, Scan(pc.k + 1))
    case SchedPick => Goto(Set(s, pc.k, s.procs[pc.k].(state := RUNNING)), c, Enter(pc.k))
    case SchedDone => Goto(s, c, Loop)
    case Resume =>
      var me := s.procs[pc.p];
      (match me.context
       case InYield => Goto(s, c, Run(pc.p))
       case InForkret => Goto(s, c, Run(pc.p))
       case InSleep => Goto(Set(s, pc.p, me.(chan := Nil)), c, Run(pc.p))
       case InWait => Goto(Set(s, pc.p, me.(chan := Nil)), c, Locked(pc.p, WaitScan)))
    case Acquire(op) => Goto(s, c, Locked(pc.p, op))
    case Perform => Operate(s, c, pc.p, pc.op)
    case SwitchAway => Goto(s, c, Scan(pc.p + 1))
    case ForkStack => Set(s, s.procs[pc.p].np, s.procs[s.procs[pc.p].np].(kstack := true, context := InForkret))
    case ForkParent => Set(s, s.procs[pc.p].np, s.procs[s.procs[pc.p].np].(parent := pc.p))
    case ForkDone =>
      var e := s.procs[pc.p].np;
      Set(Set(s, e, s.procs[e].(state := RUNNABLE)), pc.p, s.procs[pc.p].(np := NOBODY))
    case ForkFail =>
      var e := s.procs[pc.p].np;
      Set(Set(s, e, s.procs[e].(state := UNUSED, kstack := false)), pc.p, s.procs[pc.p].(np := NOBODY))
    case Interrupt(ch) => s.(procs := Wake(s.procs, ch))
  }
}
